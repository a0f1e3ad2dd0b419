/** DHCP reservations in the static address table: add, delete by scanning the flat list, clean. */
module Reservation {
  import opened Text
  import opened Basics
  import opened DmTable
  import opened DmScan

  const PATH := "Device.DHCPv4.Server.Pool.1.StaticAddress."
  const BUFF_LEN := 51

  const CHADDR := "Chaddr"
  const YIADDR := "Yiaddr"
  const NAMES: seq<string> := [CHADDR, YIADDR]

  /** A reservation; deletion compares both addresses as they are written. */
  datatype Lease = Lease(mac: string, ip: string)

  /** Each row has one hardware address, and its IP address after it. */
  predicate Layout(r: Row) {
    && Plain(r)
    && Once(r.fields, CHADDR) && Once(r.fields, YIADDR)
    && Pos(r.fields, CHADDR) < Pos(r.fields, YIADDR)
  }

  predicate TableOk(rows: seq<Row>) {
    Unique(rows) && forall i {:trigger Layout(rows[i])} :: 0 <= i < |rows| ==> Layout(rows[i])
  }

  function LeaseOf(r: Row): Lease {
    Lease(Value(r, CHADDR), Value(r, YIADDR))
  }

  function Leases(rows: seq<Row>): (ls: seq<Lease>)
    ensures |ls| == |rows| && forall i :: 0 <= i < |rows| ==> ls[i] == LeaseOf(rows[i])
  {
    seq(|rows|, i requires 0 <= i < |rows| => LeaseOf(rows[i]))
  }

  /** The record-level delete: the first row with that reservation goes, or nothing does. */
  function Delete(rows: seq<Row>, l: Lease): seq<Row> {
    var k := FirstIndex(Leases(rows), l);
    if k < |rows| then rows[..k] + rows[k + 1..] else rows
  }

  /** The row that goes is the first one with both addresses, and without such a row nothing changes. */
  lemma DeletesFirst(rows: seq<Row>, l: Lease, k: nat)
    requires k <= |rows| && forall j :: 0 <= j < k ==> LeaseOf(rows[j]) != l
    ensures k == |rows| ==> Delete(rows, l) == rows
    ensures k < |rows| && LeaseOf(rows[k]) == l ==> Delete(rows, l) == rows[..k] + rows[k + 1..]
  {
    hide LeaseOf;
    if k == |rows| || LeaseOf(rows[k]) == l { FirstIndexIs(Leases(rows), l, k); }
  }

  // ---------------------------------------------------------------- the delete scan

  ghost predicate Scanning(rows: seq<Row>, leases: seq<Lease>, l: Lease, r: nat, p: nat, i: int, chaddr: int)
    requires |leases| == |rows|
  {
    && At(rows, r, p, i)
    && Carried(rows, r, p, CHADDR, chaddr)
    && l !in leases[..r]
    && (r < |rows| && Pos(rows[r].fields, YIADDR) < p ==> leases[r] != l)
  }

  /** At the IP field of a row, the comparison of the code is the comparison of the reservations. */
  lemma CompareIsMatch(path: string, rows: seq<Row>, l: Lease, r: nat, p: nat, i: int, chaddr: int)
    requires Scanning(rows, Leases(rows), l, r, p, i, chaddr)
    requires r < |rows| && Layout(rows[r]) && rows[r].fields[p].name == YIADDR
    ensures var ps := Flatten(path, rows);
            && 0 <= chaddr < |ps| && 0 <= i < |ps|
            && (Leases(rows)[r] == l <==> l.ip == ps[i].value && l.mac == ps[chaddr].value)
  {
    hide Flatten, Offset, FullName;
    CarriedValue(path, rows, r, p, CHADDR, chaddr);
    FlattenAt(path, rows, r, p);
  }

  lemma ScanNext(rows: seq<Row>, leases: seq<Lease>, l: Lease, r: nat, p: nat, i: int, chaddr: int)
    requires AllPlain(rows) && |leases| == |rows| && r < |rows| && Layout(rows[r])
    requires Scanning(rows, leases, l, r, p, i, chaddr)
    requires rows[r].fields[p].name == YIADDR ==> leases[r] != l
    ensures Scanning(rows, leases, l, NextRow(rows, r, p), NextField(rows, r, p), i + 1,
                     if rows[r].fields[p].name == CHADDR then i else chaddr)
  {
    AtNext(rows, r, p, i);
    CarriedNext(rows, r, p, i, CHADDR, chaddr);
    NoMatchNext(rows, leases, l, r, p, YIADDR);
  }

  lemma DeleteAt(path: string, rows: seq<Row>, l: Lease, k: nat)
    requires Unique(rows) && k < |rows| && Leases(rows)[k] == l && l !in Leases(rows)[..k]
    ensures FirstIndex(Leases(rows), l) == k
    ensures RemovePath(path, rows, RowPath(path, rows[k].idx)) == Delete(rows, l)
  {
    FirstIndexIs(Leases(rows), l, k);
    RemovePathAt(path, rows, k);
  }

  lemma OkIsPlain(rows: seq<Row>)
    requires TableOk(rows)
    ensures AllPlain(rows)
  {
    forall r | 0 <= r < |rows|
      ensures Plain(rows[r])
    {
      assert Layout(rows[r]);
    }
  }

  lemma DelEntry(path: string, rows: seq<Row>, r: nat, p: nat, i: int)
    requires TableOk(rows) && AllPlain(rows) && At(rows, r, p, i) && i < |Flatten(path, rows)|
    ensures r < |rows| && Layout(rows[r]) && |path| <= |Flatten(path, rows)[i].name|
    ensures Tokens(path, Flatten(path, rows)[i].name) == (rows[r].idx, rows[r].fields[p].name)
  {
    AtEntry(path, rows, r, p, i);
  }

  /** Delete the reservation: the flat scan does exactly what the record-level delete does. */
  method ReservationDel(t: Table, l: Lease, getOk: bool, delOk: bool) returns (ret: bool)
    requires TableOk(t.rows)
    modifies t
    ensures t.rows == if getOk && delOk then Delete(old(t.rows), l) else old(t.rows)
    ensures ret <==> getOk && (delOk || l !in Leases(old(t.rows)))
  {
    hide Layout, LeaseOf, Flatten, Tokens, Offset;
    ghost var rows, leases := t.rows, Leases(t.rows);
    var params := t.GetParameterValues(getOk);
    if !getOk { return false; }
    ghost var r: nat, p: nat := 0, 0;
    var chaddrAt := 0;
    assert AllPlain(rows) by { OkIsPlain(rows); }
    assert Scanning(rows, leases, l, r, p, 0, chaddrAt) by { AtStart(rows); }
    for i := 0 to |params|
      invariant t.rows == rows
      invariant Scanning(rows, leases, l, r, p, i, chaddrAt)
    {
      DelEntry(t.path, rows, r, p, i);
      var idx, field := TakeTokens(t.path, params[i].name);
      ghost var chaddr := chaddrAt;
      if field == CHADDR { chaddrAt := i; }
      if field == YIADDR {
        CompareIsMatch(t.path, rows, l, r, p, i, chaddr);
        if l.ip == params[i].value && l.mac == params[chaddrAt].value {
          DeleteAt(t.path, rows, l, r);
          var target := DeletePath(t.path, idx);
          t.DeleteTblRow(target, delOk);
          return delOk;
        }
      }
      ScanNext(rows, leases, l, r, p, i, chaddr);
      r, p := NextRow(rows, r, p), NextField(rows, r, p);
    }
    assert FirstIndex(leases, l) == |rows| by {
      AtEntry(t.path, rows, r, p, |params|);
      assert leases[..|leases|] == leases;
      FirstIndexIs(leases, l, |leases|);
    }
    return true;
  }

  // ---------------------------------------------------------------- adding a reservation

  function NewRow(path: string, added: Row, l: Lease): Row {
    SetRow(path, added, Settings(path, added.idx, NAMES, [l.mac, l.ip]))
  }

  lemma NewValue(path: string, added: Row, l: Lease, k: nat)
    requires k < 2 && Once(added.fields, NAMES[k])
    ensures Value(NewRow(path, added, l), NAMES[k]) == [l.mac, l.ip][k]
  {
    assert CHADDR[0] != YIADDR[0];
    LookupAt(path, added.idx, NAMES, [l.mac, l.ip], k);
    SameNamesSamePos(added.fields, NewRow(path, added, l).fields, NAMES[k]);
  }

  /** The row of an added reservation keeps the layout and holds that reservation. */
  lemma NewRowHoldsLease(path: string, added: Row, l: Lease)
    requires Layout(added)
    ensures Layout(NewRow(path, added, l)) && LeaseOf(NewRow(path, added, l)) == l
  {
    var r := NewRow(path, added, l);
    SameNamesSamePos(added.fields, r.fields, ENABLE);
    SameNamesSamePos(added.fields, r.fields, CHADDR);
    SameNamesSamePos(added.fields, r.fields, YIADDR);
    assert Value(r, CHADDR) == l.mac by { NewValue(path, added, l, 0); }
    assert Value(r, YIADDR) == l.ip by { NewValue(path, added, l, 1); }
  }

  /** The added row: the two addresses are in their fields, and every other field is untouched. */
  lemma NewRowValues(path: string, added: Row, l: Lease)
    requires Layout(added)
    ensures var r := NewRow(path, added, l);
            && Value(r, "Chaddr") == l.mac && Value(r, "Yiaddr") == l.ip
            && r.idx == added.idx && |r.fields| == |added.fields|
            && forall i :: 0 <= i < |r.fields| ==>
                 && r.fields[i].name == added.fields[i].name
                 && (r.fields[i].name !in {"Chaddr", "Yiaddr"} ==> r.fields[i].value == added.fields[i].value)
  {
    NewValue(path, added, l, 0);
    NewValue(path, added, l, 1);
    var r := NewRow(path, added, l);
    forall i | 0 <= i < |r.fields| && r.fields[i].name !in NAMES
      ensures r.fields[i].value == added.fields[i].value
    {
      LookupOther(path, added.idx, NAMES, [l.mac, l.ip], added.idx, r.fields[i].name);
    }
  }

  /** Add a reservation.  `added` is the row the other side creates; its number must fit the name
      buffers.  When the values cannot be set, the created row stays. */
  method ReservationAdd(t: Table, l: Lease, added: Row, addOk: bool, setOk: bool) returns (ret: bool)
    requires TableOk(t.rows + [added]) && t.path == PATH && added.idx < 10
    modifies t
    ensures ret <==> addOk && setOk
    ensures TableOk(t.rows) && t.attempts == old(t.attempts)
    ensures t.rows == if ret then old(t.rows) + [NewRow(PATH, added, l)]
                      else if addOk then old(t.rows) + [added] else old(t.rows)
    ensures ret ==> LeaseOf(NewRow(PATH, added, l)) == l
  {
    ghost var rows := t.rows;
    assert Layout((rows + [added])[|rows|]);
    NewRowHoldsLease(PATH, added, l);
    var idx := t.AddTblRow(added, addOk);
    if !addOk {
      assert forall i :: 0 <= i < |rows| ==> rows[i] == (rows + [added])[i];
      return false;
    }
    var vals := [l.mac, l.ip];
    var paramVal := Settings(t.path, idx, NAMES, vals);
    t.SetParameterValues(paramVal, setOk);
    SetRowsSetsOne(PATH, rows, added, NAMES, vals);
    return setOk;
  }

  /** The printed names of row `idx` fit their buffers exactly when the number has one digit. */
  lemma NamesFit(idx: nat)
    ensures (forall k :: 0 <= k < |NAMES| ==> |FullName(PATH, idx, NAMES[k])| < BUFF_LEN) <==> idx < 10
  {
    assert |PATH| == 42 && |CHADDR| == 6 && |YIADDR| == 6;
    assert Pow10(1) == 10 * Pow10(0) == 10;
    DigitsLength(idx, 1);
    assert |FullName(PATH, idx, NAMES[0])| == 49 + |Digits(idx)|;
  }

  // ---------------------------------------------------------------- reservations as a multiset

  function LeaseSet(rows: seq<Row>): multiset<Lease> {
    multiset(Leases(rows))
  }

  lemma LeaseSetAppend(rows: seq<Row>, r: Row)
    ensures LeaseSet(rows + [r]) == LeaseSet(rows) + multiset{LeaseOf(r)}
  {
    assert Leases(rows + [r]) == Leases(rows) + [LeaseOf(r)];
  }

  /** A delete takes one copy of the reservation out of the multiset, if there is one. */
  lemma LeaseSetDelete(rows: seq<Row>, l: Lease)
    ensures LeaseSet(Delete(rows, l)) == LeaseSet(rows) - multiset{l}
  {
    var ls := Leases(rows);
    var k := FirstIndex(ls, l);
    if k < |rows| {
      LeasesRemove(rows, k);
      MultisetRemove(ls, k);
    } else {
      assert ls[..k] == ls;
    }
  }

  lemma LeasesRemove(rows: seq<Row>, k: nat)
    requires k < |rows|
    ensures Leases(rows[..k] + rows[k + 1..]) == Leases(rows)[..k] + Leases(rows)[k + 1..]
  {
  }

  /** Putting the added row in place of the created one keeps the table in order. */
  lemma AddKeepsOk(rows: seq<Row>, added: Row, l: Lease)
    requires TableOk(rows + [added])
    ensures TableOk(rows + [NewRow(PATH, added, l)])
  {
    assert Layout((rows + [added])[|rows|]);
    NewRowHoldsLease(PATH, added, l);
    ReplaceLast(rows, added, NewRow(PATH, added, l));
  }

  lemma ReplaceLast(rows: seq<Row>, a: Row, b: Row)
    requires TableOk(rows + [a]) && Layout(b) && b.idx == a.idx
    ensures TableOk(rows + [b])
  {
    var before, after := rows + [a], rows + [b];
    forall i | 0 <= i < |after|
      ensures after[i].idx == before[i].idx && Layout(after[i])
    {
      assert Layout(before[i]);
    }
  }

  lemma DeleteKeepsOk(rows: seq<Row>, l: Lease)
    requires TableOk(rows)
    ensures TableOk(Delete(rows, l))
  {
    hide Layout, LeaseOf;
    var k := FirstIndex(Leases(rows), l);
    if k < |rows| {
      var left := rows[..k] + rows[k + 1..];
      forall i | 0 <= i < |left|
        ensures Layout(left[i])
      {
        assert Layout(rows[if i < k then i else i + 1]);
      }
    }
  }
}
