/** Port forwarding rules in the NAT port mapping table: add a rule, delete a rule by scanning the flat
    list of the table's parameters, clean the table. */
module PortForward {
  import opened Text
  import opened Basics
  import opened DmTable
  import opened DmScan

  const PATH := "Device.NAT.PortMapping."
  const BUFF_LEN := 51

  const EXTERNAL_PORT := "ExternalPort"
  const INTERNAL_PORT := "InternalPort"
  const PROTOCOL := "Protocol"
  const CLIENT := "InternalClient"

  datatype Config = Config(dstIp: string, protocol: string, srcPort: int, dstPort: int)

  /** What identifies a rule: deletion compares protocols without case and ports as numbers. */
  datatype Rule = Rule(client: string, protocol: string, ext: int, intl: int)

  // ---------------------------------------------------------------- rows and rules

  /** Each row has one of each key field, and its client after the others. */
  predicate Layout(r: Row) {
    && Plain(r)
    && Once(r.fields, EXTERNAL_PORT) && Once(r.fields, INTERNAL_PORT)
    && Once(r.fields, PROTOCOL) && Once(r.fields, CLIENT)
    && Pos(r.fields, EXTERNAL_PORT) < Pos(r.fields, CLIENT)
    && Pos(r.fields, INTERNAL_PORT) < Pos(r.fields, CLIENT)
    && Pos(r.fields, PROTOCOL) < Pos(r.fields, CLIENT)
  }

  predicate TableOk(rows: seq<Row>) {
    Unique(rows) && forall i {:trigger Layout(rows[i])} :: 0 <= i < |rows| ==> Layout(rows[i])
  }

  function RuleOf(r: Row): Rule {
    Rule(Value(r, CLIENT), LowerAll(Value(r, PROTOCOL)),
         Atoi(Value(r, EXTERNAL_PORT)), Atoi(Value(r, INTERNAL_PORT)))
  }

  /** The rule that a delete of `c` looks for. */
  function Wanted(c: Config): Rule {
    Rule(c.dstIp, LowerAll(c.protocol), c.srcPort, c.dstPort)
  }

  /** The rule that an add of `c` stores: any protocol but exactly "tcp" becomes UDP. */
  function Stored(c: Config): Rule {
    Rule(c.dstIp, if c.protocol == "tcp" then "tcp" else "udp", c.srcPort, c.dstPort)
  }

  function Rules(rows: seq<Row>): (rs: seq<Rule>)
    ensures |rs| == |rows| && forall i :: 0 <= i < |rows| ==> rs[i] == RuleOf(rows[i])
  {
    seq(|rows|, i requires 0 <= i < |rows| => RuleOf(rows[i]))
  }

  /** The record-level delete: the first row with that rule goes, or nothing does. */
  function Delete(rows: seq<Row>, rule: Rule): seq<Row> {
    var k := FirstIndex(Rules(rows), rule);
    if k < |rows| then rows[..k] + rows[k + 1..] else rows
  }

  /** The row that goes is the first one with the rule, and without such a row nothing changes. */
  lemma DeletesFirst(rows: seq<Row>, rule: Rule, k: nat)
    requires k <= |rows| && forall j :: 0 <= j < k ==> RuleOf(rows[j]) != rule
    ensures k == |rows| ==> Delete(rows, rule) == rows
    ensures k < |rows| && RuleOf(rows[k]) == rule ==> Delete(rows, rule) == rows[..k] + rows[k + 1..]
  {
    hide RuleOf;
    if k == |rows| || RuleOf(rows[k]) == rule { FirstIndexIs(Rules(rows), rule, k); }
  }

  // ---------------------------------------------------------------- the delete scan

  /** What the scan carries, and that no row whose client it has gone past has the rule. */
  ghost predicate Scanning(rows: seq<Row>, rules: seq<Rule>, rule: Rule, r: nat, p: nat, i: int,
                           src: int, dst: int, proto: int)
    requires |rules| == |rows|
  {
    && At(rows, r, p, i)
    && Carried(rows, r, p, EXTERNAL_PORT, src)
    && Carried(rows, r, p, INTERNAL_PORT, dst)
    && Carried(rows, r, p, PROTOCOL, proto)
    && rule !in rules[..r]
    && (r < |rows| && Pos(rows[r].fields, CLIENT) < p ==> rules[r] != rule)
  }

  /** At the client field of a row, the comparison of the code is the comparison of the two rules. */
  lemma CompareIsMatch(path: string, rows: seq<Row>, c: Config, r: nat, p: nat, i: int, src: int, dst: int, proto: int)
    requires Scanning(rows, Rules(rows), Wanted(c), r, p, i, src, dst, proto)
    requires r < |rows| && Layout(rows[r]) && rows[r].fields[p].name == CLIENT
    ensures var ps := Flatten(path, rows);
            && 0 <= src < |ps| && 0 <= dst < |ps| && 0 <= proto < |ps| && 0 <= i < |ps|
            && (Rules(rows)[r] == Wanted(c) <==>
                  && c.dstIp == ps[i].value && LowerAll(c.protocol) == LowerAll(ps[proto].value)
                  && c.srcPort == Atoi(ps[src].value) && c.dstPort == Atoi(ps[dst].value))
  {
    hide LowerAll, Atoi, Flatten, Offset, FullName;
    CarriedValue(path, rows, r, p, EXTERNAL_PORT, src);
    CarriedValue(path, rows, r, p, INTERNAL_PORT, dst);
    CarriedValue(path, rows, r, p, PROTOCOL, proto);
    FlattenAt(path, rows, r, p);
  }

  /** Going on after an entry that is not the client of a row with the rule. */
  lemma ScanNext(rows: seq<Row>, rules: seq<Rule>, rule: Rule, r: nat, p: nat, i: int,
                 src: int, dst: int, proto: int)
    requires AllPlain(rows) && |rules| == |rows| && r < |rows| && Layout(rows[r])
    requires Scanning(rows, rules, rule, r, p, i, src, dst, proto)
    requires rows[r].fields[p].name == CLIENT ==> rules[r] != rule
    ensures var name := rows[r].fields[p].name;
            Scanning(rows, rules, rule, NextRow(rows, r, p), NextField(rows, r, p), i + 1,
                     if name == EXTERNAL_PORT then i else src,
                     if name == INTERNAL_PORT then i else dst,
                     if name == PROTOCOL then i else proto)
  {
    AtNext(rows, r, p, i);
    CarriedNext(rows, r, p, i, EXTERNAL_PORT, src);
    CarriedNext(rows, r, p, i, INTERNAL_PORT, dst);
    CarriedNext(rows, r, p, i, PROTOCOL, proto);
    NoMatchNext(rows, rules, rule, r, p, CLIENT);
  }

  lemma DeleteAt(path: string, rows: seq<Row>, rule: Rule, k: nat)
    requires Unique(rows) && k < |rows| && Rules(rows)[k] == rule && rule !in Rules(rows)[..k]
    ensures FirstIndex(Rules(rows), rule) == k
    ensures RemovePath(path, rows, RowPath(path, rows[k].idx)) == Delete(rows, rule)
  {
    FirstIndexIs(Rules(rows), rule, k);
    RemovePathAt(path, rows, k);
  }

  /** Delete the rule of `c`: the flat scan does exactly what the record-level delete does. */
  method PortforwardDel(t: Table, c: Config, getOk: bool, delOk: bool) returns (ret: bool)
    requires TableOk(t.rows)
    modifies t
    ensures t.rows == if getOk && delOk then Delete(old(t.rows), Wanted(c)) else old(t.rows)
    ensures ret <==> getOk && (delOk || Wanted(c) !in Rules(old(t.rows)))
  {
    hide Layout, RuleOf, LowerAll, Atoi, Flatten, Tokens, Offset, Wanted;
    ghost var rows, rules, rule := t.rows, Rules(t.rows), Wanted(c);
    var params := t.GetParameterValues(getOk);
    if !getOk { return false; }
    ghost var r: nat, p: nat := 0, 0;
    var srcAt, dstAt, protoAt := 0, 0, 0;
    assert AllPlain(rows) by { OkIsPlain(rows); }
    assert Scanning(rows, rules, rule, r, p, 0, srcAt, dstAt, protoAt) by { AtStart(rows); }
    for i := 0 to |params|
      invariant t.rows == rows
      invariant Scanning(rows, rules, rule, r, p, i, srcAt, dstAt, protoAt)
    {
      DelEntry(t.path, rows, r, p, i);
      var idx, field := TakeTokens(t.path, params[i].name);
      ghost var src, dst, proto := srcAt, dstAt, protoAt;
      if field == EXTERNAL_PORT { srcAt := i; }
      if field == INTERNAL_PORT { dstAt := i; }
      if field == PROTOCOL { protoAt := i; }
      if field == CLIENT {
        CompareIsMatch(t.path, rows, c, r, p, i, src, dst, proto);
        if && c.dstIp == params[i].value && LowerAll(c.protocol) == LowerAll(params[protoAt].value)
           && c.srcPort == Atoi(params[srcAt].value) && c.dstPort == Atoi(params[dstAt].value)
        {
          DeleteAt(t.path, rows, rule, r);
          var target := DeletePath(t.path, idx);
          t.DeleteTblRow(target, delOk);
          return delOk;
        }
      }
      ScanNext(rows, rules, rule, r, p, i, src, dst, proto);
      r, p := NextRow(rows, r, p), NextField(rows, r, p);
    }
    assert FirstIndex(rules, rule) == |rows| by {
      AtEntry(t.path, rows, r, p, |params|);
      assert rules[..|rules|] == rules;
      FirstIndexIs(rules, rule, |rules|);
    }
    return true;
  }

  lemma OkIsPlain(rows: seq<Row>)
    requires TableOk(rows)
    ensures AllPlain(rows)
  {
    forall r | 0 <= r < |rows|
      ensures Plain(rows[r])
    {
      assert Layout(rows[r]);
    }
  }

  lemma DelEntry(path: string, rows: seq<Row>, r: nat, p: nat, i: int)
    requires TableOk(rows) && AllPlain(rows) && At(rows, r, p, i) && i < |Flatten(path, rows)|
    ensures r < |rows| && Layout(rows[r]) && |path| <= |Flatten(path, rows)[i].name|
    ensures Tokens(path, Flatten(path, rows)[i].name) == (rows[r].idx, rows[r].fields[p].name)
  {
    AtEntry(path, rows, r, p, i);
  }

  // ---------------------------------------------------------------- adding a rule

  const END_RANGE := "ExternalPortEndRange"
  const DESCRIPTION := "Description"

  const NAMES: seq<string> := [CLIENT, EXTERNAL_PORT, END_RANGE, PROTOCOL, INTERNAL_PORT, DESCRIPTION, ENABLE]

  /** The seven values of an added rule, in the order of NAMES. */
  function Values(idx: nat, c: Config): seq<string> {
    [c.dstIp, Decimal(c.srcPort), Decimal(c.srcPort), if c.protocol == "tcp" then "TCP" else "UDP",
     Decimal(c.dstPort), "OpenSync Rule " + Decimal(idx), "TRUE"]
  }

  /** The row of a rule that has just been added. */
  function NewRow(path: string, added: Row, c: Config): Row {
    SetRow(path, added, Settings(path, added.idx, NAMES, Values(added.idx, c)))
  }

  lemma NamesDistinct(k: nat)
    requires k < |NAMES|
    ensures NAMES[k] !in NAMES[..k]
  {
    assert |CLIENT| == 14 && |EXTERNAL_PORT| == 12 && |END_RANGE| == 20 && |PROTOCOL| == 8
        && |INTERNAL_PORT| == 12 && |DESCRIPTION| == 11 && |ENABLE| == 6;
    assert EXTERNAL_PORT[0] != INTERNAL_PORT[0];
  }

  lemma NewValue(path: string, added: Row, c: Config, k: nat)
    requires k < |NAMES| && Once(added.fields, NAMES[k])
    ensures Value(NewRow(path, added, c), NAMES[k]) == Values(added.idx, c)[k]
  {
    NamesDistinct(k);
    LookupAt(path, added.idx, NAMES, Values(added.idx, c), k);
    SameNamesSamePos(added.fields, NewRow(path, added, c).fields, NAMES[k]);
  }

  /** The added row: each of the seven fields that it has has its value, and every other field is untouched. */
  lemma NewRowValues(path: string, added: Row, c: Config)
    requires Layout(added)
    ensures var r := NewRow(path, added, c);
            && r.idx == added.idx && |r.fields| == |added.fields|
            && (forall i :: 0 <= i < |r.fields| ==>
                  && r.fields[i].name == added.fields[i].name
                  && (r.fields[i].name !in {"InternalClient", "ExternalPort", "ExternalPortEndRange", "Protocol",
                                            "InternalPort", "Description", "Enable"}
                      ==> r.fields[i].value == added.fields[i].value))
    ensures var r := NewRow(path, added, c);
            && Value(r, "InternalClient") == c.dstIp
            && Value(r, "ExternalPort") == Decimal(c.srcPort)
            && (Once(added.fields, "ExternalPortEndRange") ==>
                  Value(r, "ExternalPortEndRange") == Decimal(c.srcPort))
            && Value(r, "Protocol") == (if c.protocol == "tcp" then "TCP" else "UDP")
            && Value(r, "InternalPort") == Decimal(c.dstPort)
            && (Once(added.fields, "Description") ==> Value(r, "Description") == "OpenSync Rule " + Decimal(added.idx))
            && Value(r, "Enable") == "TRUE"
  {
    hide Decimal, Once, Pos, Value, Lookup, Settings;
    NewValue(path, added, c, 0);
    NewValue(path, added, c, 1);
    if Once(added.fields, END_RANGE) { NewValue(path, added, c, 2); }
    NewValue(path, added, c, 3);
    NewValue(path, added, c, 4);
    if Once(added.fields, DESCRIPTION) { NewValue(path, added, c, 5); }
    NewValue(path, added, c, 6);
    var r := NewRow(path, added, c);
    forall i | 0 <= i < |r.fields| && r.fields[i].name !in NAMES
      ensures r.fields[i].value == added.fields[i].value
    {
      LookupOther(path, added.idx, NAMES, Values(added.idx, c), added.idx, r.fields[i].name);
    }
  }

  /** The row of an added rule keeps the layout and holds the rule that the add stores. */
  lemma NewRowHoldsRule(path: string, added: Row, c: Config)
    requires Layout(added)
    ensures Layout(NewRow(path, added, c)) && RuleOf(NewRow(path, added, c)) == Stored(c)
  {
    hide LowerAll, Atoi, Decimal, Once, Pos, Value, Lookup, Settings;
    var r := NewRow(path, added, c);
    SameLayout(added, r);
    assert Value(r, CLIENT) == c.dstIp by { NewValue(path, added, c, 0); }
    assert Value(r, EXTERNAL_PORT) == Decimal(c.srcPort) by { NewValue(path, added, c, 1); }
    assert Value(r, PROTOCOL) == (if c.protocol == "tcp" then "TCP" else "UDP") by { NewValue(path, added, c, 3); }
    assert Value(r, INTERNAL_PORT) == Decimal(c.dstPort) by { NewValue(path, added, c, 4); }
    AtoiOfDecimal(c.srcPort);
    AtoiOfDecimal(c.dstPort);
    ProtocolStored(c.protocol == "tcp");
  }

  lemma SameLayout(a: Row, b: Row)
    requires Layout(a) && |a.fields| == |b.fields|
    requires forall i :: 0 <= i < |a.fields| ==> a.fields[i].name == b.fields[i].name
    ensures Layout(b)
  {
    SameNamesSamePos(a.fields, b.fields, ENABLE);
    SameNamesSamePos(a.fields, b.fields, EXTERNAL_PORT);
    SameNamesSamePos(a.fields, b.fields, INTERNAL_PORT);
    SameNamesSamePos(a.fields, b.fields, PROTOCOL);
    SameNamesSamePos(a.fields, b.fields, CLIENT);
  }

  lemma ProtocolStored(tcp: bool)
    ensures LowerAll(if tcp then "TCP" else "UDP") == if tcp then "tcp" else "udp"
  {
    LowerThree('T', 'C', 'P');
    LowerThree('U', 'D', 'P');
  }

  lemma LowerThree(a: char, b: char, c: char)
    ensures LowerAll([a, b, c]) == [Lower(a), Lower(b), Lower(c)]
  {
    assert [a, b, c][1..] == [b, c] && [b, c][1..] == [c] && [c][1..] == [];
    assert LowerAll([c]) == [Lower(c)] && LowerAll([b, c]) == [Lower(b), Lower(c)];
  }

  /** Add the rule of `c`.  `added` is the row the other side creates; its number must fit the name
      buffers.  When the values cannot be set, the created row stays. */
  method PortforwardAdd(t: Table, c: Config, added: Row, addOk: bool, setOk: bool) returns (ret: bool)
    requires TableOk(t.rows + [added]) && t.path == PATH && added.idx < 1_000_000
    modifies t
    ensures ret <==> addOk && setOk
    ensures TableOk(t.rows) && t.attempts == old(t.attempts)
    ensures t.rows == if ret then old(t.rows) + [NewRow(PATH, added, c)]
                      else if addOk then old(t.rows) + [added] else old(t.rows)
    ensures ret ==> RuleOf(NewRow(PATH, added, c)) == Stored(c)
  {
    hide Layout, RuleOf, Stored, Decimal, SetRow, Settings;
    ghost var rows := t.rows;
    assert Layout((rows + [added])[|rows|]);
    NewRowHoldsRule(PATH, added, c);
    var idx := t.AddTblRow(added, addOk);
    if !addOk {
      assert forall i :: 0 <= i < |rows| ==> rows[i] == (rows + [added])[i];
      return false;
    }
    var protocol := if c.protocol == "tcp" then "TCP" else "UDP";
    var vals := [c.dstIp, Decimal(c.srcPort), Decimal(c.srcPort), protocol,
                 Decimal(c.dstPort), "OpenSync Rule " + Decimal(idx), "TRUE"];
    var paramVal := Settings(t.path, idx, NAMES, vals);
    t.SetParameterValues(paramVal, setOk);
    SetRowsSetsOne(PATH, rows, added, NAMES, vals);
    return setOk;
  }

  /** The printed names of row `idx` fit their buffers exactly when the number has at most six digits. */
  lemma NamesFit(idx: nat)
    ensures (forall k :: 0 <= k < |NAMES| ==> |FullName(PATH, idx, NAMES[k])| < BUFF_LEN) <==> idx < 1_000_000
  {
    assert |PATH| == 23;
    assert |CLIENT| == 14 && |EXTERNAL_PORT| == 12 && |END_RANGE| == 20 && |PROTOCOL| == 8
        && |INTERNAL_PORT| == 12 && |DESCRIPTION| == 11 && |ENABLE| == 6;
    assert Pow10(6) == 1_000_000 by { assert Pow10(3) == 1000; assert Pow10(6) == 1000 * Pow10(3); }
    DigitsLength(idx, 6);
    assert NAMES[2] == END_RANGE;
    assert |FullName(PATH, idx, NAMES[2])| == 44 + |Digits(idx)|;
  }

  // ---------------------------------------------------------------- rules as a multiset

  function RuleSet(rows: seq<Row>): multiset<Rule> {
    multiset(Rules(rows))
  }

  lemma {:induction false} RuleSetAppend(rows: seq<Row>, r: Row)
    ensures RuleSet(rows + [r]) == RuleSet(rows) + multiset{RuleOf(r)}
  {
    assert Rules(rows + [r]) == Rules(rows) + [RuleOf(r)];
  }

  /** A delete takes one copy of the rule out of the multiset, if there is one. */
  lemma {:induction false} RuleSetDelete(rows: seq<Row>, rule: Rule)
    ensures RuleSet(Delete(rows, rule)) == RuleSet(rows) - multiset{rule}
  {
    var rs := Rules(rows);
    var k := FirstIndex(rs, rule);
    if k < |rows| {
      RulesRemove(rows, k);
      MultisetRemove(rs, k);
    } else {
      assert rs[..k] == rs;
    }
  }

  lemma RulesRemove(rows: seq<Row>, k: nat)
    requires k < |rows|
    ensures Rules(rows[..k] + rows[k + 1..]) == Rules(rows)[..k] + Rules(rows)[k + 1..]
  {
    hide RuleOf;
  }

  lemma DeleteKeepsOk(rows: seq<Row>, rule: Rule)
    requires TableOk(rows)
    ensures TableOk(Delete(rows, rule))
  {
    hide Layout, RuleOf;
    var k := FirstIndex(Rules(rows), rule);
    if k < |rows| {
      var left := rows[..k] + rows[k + 1..];
      forall i | 0 <= i < |left|
        ensures Layout(left[i])
      {
        assert Layout(rows[if i < k then i else i + 1]);
      }
    }
  }

  /** Putting the added row in place of the created one keeps the table in order. */
  lemma AddKeepsOk(rows: seq<Row>, added: Row, c: Config)
    requires TableOk(rows + [added])
    ensures TableOk(rows + [NewRow(PATH, added, c)])
  {
    assert Layout((rows + [added])[|rows|]);
    NewRowHoldsRule(PATH, added, c);
    ReplaceLast(rows, added, NewRow(PATH, added, c));
  }

  lemma ReplaceLast(rows: seq<Row>, a: Row, b: Row)
    requires TableOk(rows + [a]) && Layout(b) && b.idx == a.idx
    ensures TableOk(rows + [b])
  {
    var before, after := rows + [a], rows + [b];
    forall i | 0 <= i < |after|
      ensures after[i].idx == before[i].idx && Layout(after[i])
    {
      assert Layout(before[i]);
    }
  }

  /** A row has the rule that a delete of `c` looks for exactly when the client is equal, the protocol is
      equal up to case, and the two ports read as those numbers. */
  lemma WantedIff(r: Row, c: Config)
    ensures RuleOf(r) == Wanted(c) <==>
            && Value(r, "InternalClient") == c.dstIp && SameButCase(Value(r, "Protocol"), c.protocol)
            && Atoi(Value(r, "ExternalPort")) == c.srcPort && Atoi(Value(r, "InternalPort")) == c.dstPort
  {
    hide Value, LowerAll, Atoi, SameButCase;
    LowerAllEqualIff(Value(r, PROTOCOL), c.protocol);
  }

  /** The protocols under which a rule that was added can be deleted: "tcp" as it stands, or "udp" in any case. */
  predicate TcpOrUdp(p: string) {
    p == "tcp" || (|p| == 3 && p[0] in {'u', 'U'} && p[1] in {'d', 'D'} && p[2] in {'p', 'P'})
  }

  lemma UdpInAnyCase(p: string)
    ensures SameButCase(p, "udp") <==> |p| == 3 && p[0] in {'u', 'U'} && p[1] in {'d', 'D'} && p[2] in {'p', 'P'}
  {
    assert "udp"[0] == 'u' && "udp"[1] == 'd' && "udp"[2] == 'p';
  }

  /** The add stores the rule that a delete of the same configuration looks for exactly when the
      protocol is "tcp", or "udp" in any case. */
  lemma StoredIsWantedIff(c: Config)
    ensures Stored(c) == Wanted(c) <==> TcpOrUdp(c.protocol)
  {
    hide LowerAll;
    LowerThree('t', 'c', 'p');
    LowerThree('u', 'd', 'p');
    assert "tcp" == ['t', 'c', 'p'] && "udp" == ['u', 'd', 'p'];
    LowerAllEqualIff(c.protocol, "udp");
    UdpInAnyCase(c.protocol);
  }

  /** Adding a rule and then deleting it restores the multiset of rules exactly for those protocols;
      and then, if no equal rule was there before, it restores the table itself. */
  lemma {:induction false} AddThenDelete(rows: seq<Row>, added: Row, c: Config)
    requires TableOk(rows + [added])
    ensures var after := Delete(rows + [NewRow(PATH, added, c)], Wanted(c));
            && (RuleSet(after) == RuleSet(rows) <==> TcpOrUdp(c.protocol))
            && (TcpOrUdp(c.protocol) && Wanted(c) !in Rules(rows) ==> after == rows)
  {
    assert Layout((rows + [added])[|rows|]);
    NewRowHoldsRule(PATH, added, c);
    StoredIsWantedIff(c);
    AppendThenDelete(rows, NewRow(PATH, added, c), Stored(c), Wanted(c));
  }

  lemma AppendThenDelete(rows: seq<Row>, r: Row, stored: Rule, wanted: Rule)
    requires RuleOf(r) == stored
    ensures var after := Delete(rows + [r], wanted);
            && (RuleSet(after) == RuleSet(rows) <==> stored == wanted)
            && (stored == wanted && wanted !in Rules(rows) ==> after == rows)
  {
    RuleSetAppend(rows, r);
    RuleSetDelete(rows + [r], wanted);
    PlusMinus(RuleSet(rows), stored, wanted);
    var rs := Rules(rows + [r]);
    assert rs[..|rows|] == Rules(rows);
    if stored == wanted && wanted !in Rules(rows) { FirstIndexIs(rs, wanted, |rows|); }
  }
}
