/** Scans over the flat list of a table: where the scan stands in the rows, the indices of fields that
    it carries along, and the cleaning of a whole table. */
module DmScan {
  import opened Text
  import opened Basics
  import opened DmTable

  // ---------------------------------------------------------------- scanning the flat list

  /** Entry `i` of the flat list is field `p` of row `r`; past the last row, it is the end. */
  ghost predicate At(rows: seq<Row>, r: nat, p: nat, i: int) {
    && r <= |rows| && i == Offset(rows, r) + p
    && (if r < |rows| then p < |rows[r].fields| else p == 0)
  }

  function NextRow(rows: seq<Row>, r: nat, p: nat): nat
    requires r < |rows|
  {
    if p + 1 < |rows[r].fields| then r else r + 1
  }

  function NextField(rows: seq<Row>, r: nat, p: nat): nat
    requires r < |rows|
  {
    if p + 1 < |rows[r].fields| then p + 1 else 0
  }

  ghost predicate AllPlain(rows: seq<Row>) {
    forall r {:trigger Plain(rows[r])} :: 0 <= r < |rows| ==> Plain(rows[r])
  }

  lemma AtStart(rows: seq<Row>)
    requires AllPlain(rows)
    ensures At(rows, 0, 0, 0)
  {
    if rows != [] { assert Plain(rows[0]); }
  }

  lemma AtNext(rows: seq<Row>, r: nat, p: nat, i: int)
    requires AllPlain(rows) && At(rows, r, p, i) && r < |rows|
    ensures At(rows, NextRow(rows, r, p), NextField(rows, r, p), i + 1)
  {
    OffsetNext(rows, r);
    if r + 1 < |rows| { assert Plain(rows[r + 1]); }
  }

  /** The entry that the scan is at, and the two tokens of its name. */
  lemma AtEntry(path: string, rows: seq<Row>, r: nat, p: nat, i: int)
    requires AllPlain(rows) && At(rows, r, p, i)
    ensures r < |rows| <==> i < |Flatten(path, rows)|
    ensures r == |rows| ==> i == |Flatten(path, rows)|
    ensures r < |rows| ==>
              var e := Flatten(path, rows)[i];
              && |path| <= |e.name| && Tokens(path, e.name) == (rows[r].idx, rows[r].fields[p].name)
              && e.value == rows[r].fields[p].value
  {
    hide FullName, Tokens, Once;
    OffsetEnd(path, rows);
    if r < |rows| {
      FlattenAt(path, rows, r, p);
      assert Plain(rows[r]);
      TokensOfName(path, rows[r].idx, rows[r].fields[p].name);
    }
  }

  // ---------------------------------------------------------------- cleaning a table

  /** The rows whose deletion the other side refuses. */
  function Refused(rows: seq<Row>, refuses: set<nat>): (rs: seq<Row>) {
    if rows == [] then []
    else Refused(rows[..|rows| - 1], refuses)
         + (if rows[|rows| - 1].idx in refuses then [rows[|rows| - 1]] else [])
  }

  function Paths(path: string, rows: seq<Row>): seq<string> {
    if rows == [] then [] else Paths(path, rows[..|rows| - 1]) + [RowPath(path, rows[|rows| - 1].idx)]
  }

  /** The deletions asked for, once the first `n` rows have been dealt with. */
  function Asked(before: seq<string>, path: string, rows: seq<Row>, n: nat): seq<string>
    requires n <= |rows|
  {
    before + Paths(path, rows[..n])
  }

  /** The rows left once the first `n` have been dealt with. */
  function Cleaned(rows: seq<Row>, n: nat, refuses: set<nat>): seq<Row>
    requires n <= |rows|
  {
    Refused(rows[..n], refuses) + rows[n..]
  }

  lemma CleanedStep(rows: seq<Row>, n: nat, refuses: set<nat>)
    requires n < |rows|
    ensures var k, before := |Refused(rows[..n], refuses)|, Cleaned(rows, n, refuses);
            && k < |before| && before[k] == rows[n]
            && Cleaned(rows, n + 1, refuses)
               == if rows[n].idx in refuses then before else before[..k] + before[k + 1..]
  {
    assert rows[..n + 1][..n] == rows[..n];
    var kept := Refused(rows[..n], refuses);
    assert rows[n..] == [rows[n]] + rows[n + 1..];
    assert kept + [rows[n]] + rows[n + 1..] == kept + rows[n..];
  }

  lemma {:induction false} CleanedUnique(rows: seq<Row>, n: nat, refuses: set<nat>)
    requires Unique(rows) && n <= |rows|
    ensures Unique(Cleaned(rows, n, refuses))
  {
    if n == 0 {
      assert Cleaned(rows, 0, refuses) == rows;
    } else {
      hide Refused;
      CleanedUnique(rows, n - 1, refuses);
      CleanedStep(rows, n - 1, refuses);
    }
  }

  /** Deleting the next row, if the other side lets it go, cleans one row more. */
  lemma CleanOne(path: string, rows: seq<Row>, n: nat, refuses: set<nat>, before: seq<string>, target: string)
    requires Unique(rows) && n < |rows| && target == RowPath(path, rows[n].idx)
    ensures Cleaned(rows, n + 1, refuses)
         == if rows[n].idx in refuses then Cleaned(rows, n, refuses)
            else RemovePath(path, Cleaned(rows, n, refuses), target)
    ensures Asked(before, path, rows, n + 1) == Asked(before, path, rows, n) + [target]
  {
    assert rows[..n + 1][..n] == rows[..n];
    CleanedUnique(rows, n, refuses);
    CleanedStep(rows, n, refuses);
    RemovePathAt(path, Cleaned(rows, n, refuses), |Refused(rows[..n], refuses)|);
  }

  lemma CleanedAll(path: string, rows: seq<Row>, refuses: set<nat>, before: seq<string>)
    ensures Cleaned(rows, 0, refuses) == rows && Asked(before, path, rows, 0) == before
    ensures Cleaned(rows, |rows|, refuses) == Refused(rows, refuses)
    ensures Asked(before, path, rows, |rows|) == before + Paths(path, rows)
  {
    assert rows[..|rows|] == rows;
  }

  /** The two strtok calls on a name of the flat list. */
  method TakeTokens(path: string, name: string) returns (idx: int, field: string)
    requires |path| <= |name|
    ensures (idx, field) == Tokens(path, name)
  {
    var (tok, rest) := Strtok(name[|path|..], '.');
    idx := Atoi(tok);
    field := Strtok(rest, '.').0;
  }

  /** What is printed for the row to delete. */
  function DeletePath(path: string, idx: int): (s: string)
    ensures 0 <= idx ==> s == RowPath(path, idx)
  {
    path + Decimal(idx) + "."
  }

  /** How many rows the scan has dealt with: those whose `Enable` it has gone past. */
  function Done(rows: seq<Row>, r: nat, p: nat): nat {
    if r < |rows| && Pos(rows[r].fields, ENABLE) < p then r + 1 else r
  }

  lemma DoneNext(rows: seq<Row>, r: nat, p: nat)
    requires r < |rows| && p < |rows[r].fields| && Plain(rows[r])
    ensures var d := Done(rows, NextRow(rows, r, p), NextField(rows, r, p));
            if rows[r].fields[p].name == ENABLE then Done(rows, r, p) == r && d == r + 1
            else d == Done(rows, r, p)
  {
  }

  /** The deletion of the row that the scan is in, the `r`-th of the table as it was at the start. */
  method CleanRow(t: Table, idx: int, ok: bool, ghost rows: seq<Row>, ghost r: nat, ghost refuses: set<nat>,
                  ghost before: seq<string>)
    requires Unique(rows) && r < |rows| && rows[r].idx == idx && (ok <==> idx !in refuses)
    requires t.rows == Cleaned(rows, r, refuses) && t.attempts == Asked(before, t.path, rows, r)
    modifies t
    ensures t.rows == Cleaned(rows, r + 1, refuses) && t.attempts == Asked(before, t.path, rows, r + 1)
  {
    var target := DeletePath(t.path, idx);
    CleanOne(t.path, rows, r, refuses, before, target);
    t.DeleteTblRow(target, ok);
  }

  /** Delete every row of the table; go on when a deletion fails. */
  method CleanDm(t: Table, getOk: bool, refuses: set<nat>)
    requires Unique(t.rows) && AllPlain(t.rows)
    modifies t
    ensures t.rows == if getOk then Refused(old(t.rows), refuses) else old(t.rows)
    ensures t.attempts == old(t.attempts) + (if getOk then Paths(t.path, old(t.rows)) else [])
  {
    hide Flatten, Tokens, Cleaned, Asked, Plain, Offset;
    ghost var rows := t.rows;
    var params := t.GetParameterValues(getOk);
    if !getOk { return; }
    ghost var r: nat, p: nat := 0, 0;
    assert At(rows, r, p, 0) by { AtStart(rows); }
    assert t.rows == Cleaned(rows, 0, refuses) && t.attempts == Asked(old(t.attempts), t.path, rows, 0) by {
      CleanedAll(t.path, rows, refuses, t.attempts);
    }
    for i := 0 to |params|
      invariant At(rows, r, p, i) && Done(rows, r, p) <= |rows|
      invariant t.rows == Cleaned(rows, Done(rows, r, p), refuses)
      invariant t.attempts == Asked(old(t.attempts), t.path, rows, Done(rows, r, p))
    {
      CleanEntry(t.path, rows, r, p, i);
      var idx, field := TakeTokens(t.path, params[i].name);
      if field == ENABLE {
        CleanRow(t, idx, idx !in refuses, rows, r, refuses, old(t.attempts));
      }
      r, p := NextRow(rows, r, p), NextField(rows, r, p);
    }
    assert r == |rows| by { AtEntry(t.path, rows, r, p, |params|); }
    CleanedAll(t.path, rows, refuses, old(t.attempts));
  }

  /** One entry of the flat list, and what it does to the number of rows dealt with. */
  lemma CleanEntry(path: string, rows: seq<Row>, r: nat, p: nat, i: int)
    requires AllPlain(rows) && At(rows, r, p, i) && i < |Flatten(path, rows)|
    ensures r < |rows| && At(rows, NextRow(rows, r, p), NextField(rows, r, p), i + 1)
    ensures var e := Flatten(path, rows)[i];
            var d := Done(rows, NextRow(rows, r, p), NextField(rows, r, p));
            && |path| <= |e.name| && Tokens(path, e.name).0 == rows[r].idx
            && d <= |rows|
            && if Tokens(path, e.name).1 == ENABLE then Done(rows, r, p) == r && d == r + 1
               else d == Done(rows, r, p)
  {
    AtEntry(path, rows, r, p, i);
    assert Plain(rows[r]);
    DoneNext(rows, r, p);
    AtNext(rows, r, p, i);
  }

  /** What cleaning leaves is exactly the refused rows, each as it was and in its place. */
  lemma {:induction false} RefusedAre(rows: seq<Row>, refuses: set<nat>)
    ensures forall r :: r in Refused(rows, refuses) <==> r in rows && r.idx in refuses
    ensures Unique(rows) ==> Unique(Refused(rows, refuses))
    ensures (forall r :: r in rows ==> r.idx !in refuses) ==> Refused(rows, refuses) == []
  {
    if rows != [] {
      var front := rows[..|rows| - 1];
      assert rows == front + [rows[|rows| - 1]];
      RefusedAre(front, refuses);
      if Unique(rows) {
        var rs := Refused(front, refuses);
        forall i | 0 <= i < |rs|
          ensures rs[i].idx != rows[|rows| - 1].idx
        {
          assert rs[i] in front;
        }
      }
    }
  }

  // ---------------------------------------------------------------- carried indices

  /** The carried index points at field `name` of the row the scan is in, once it has gone past it. */
  ghost predicate Carried(rows: seq<Row>, r: nat, p: nat, name: string, at: int) {
    r < |rows| && Pos(rows[r].fields, name) < p ==> at == Offset(rows, r) + Pos(rows[r].fields, name)
  }

  lemma CarriedNext(rows: seq<Row>, r: nat, p: nat, i: int, name: string, at: int)
    requires At(rows, r, p, i) && r < |rows| && Once(rows[r].fields, name) && Carried(rows, r, p, name, at)
    ensures Carried(rows, NextRow(rows, r, p), NextField(rows, r, p), name,
                    if rows[r].fields[p].name == name then i else at)
  {
  }

  /** The value that the carried index leads to is the row's own. */
  lemma CarriedValue(path: string, rows: seq<Row>, r: nat, p: nat, name: string, at: int)
    requires r < |rows| && p < |rows[r].fields| && Once(rows[r].fields, name)
    requires Carried(rows, r, p, name, at) && Pos(rows[r].fields, name) < p
    ensures 0 <= at < |Flatten(path, rows)| && Flatten(path, rows)[at].value == Value(rows[r], name)
  {
    FlattenAt(path, rows, r, Pos(rows[r].fields, name));
  }

  lemma NoMatchNext<T>(rows: seq<Row>, keys: seq<T>, key: T, r: nat, p: nat, name: string)
    requires |keys| == |rows| && r < |rows| && p < |rows[r].fields| && Once(rows[r].fields, name)
    requires key !in keys[..r] && (Pos(rows[r].fields, name) < p ==> keys[r] != key)
    requires rows[r].fields[p].name == name ==> keys[r] != key
    ensures key !in keys[..NextRow(rows, r, p)]
    ensures NextRow(rows, r, p) == r && Pos(rows[r].fields, name) < NextField(rows, r, p) ==> keys[r] != key
  {
    assert keys[..r + 1] == keys[..r] + [keys[r]];
  }

  // ---------------------------------------------------------------- the first row with a key

  function FirstIndex<T(==)>(s: seq<T>, x: T): (k: nat)
    ensures k <= |s| && (k < |s| ==> s[k] == x) && x !in s[..k]
  {
    if s == [] || s[0] == x then 0 else 1 + FirstIndex(s[1..], x)
  }

  lemma FirstIndexIs<T>(s: seq<T>, x: T, k: nat)
    requires k <= |s| && x !in s[..k] && (k < |s| ==> s[k] == x)
    ensures FirstIndex(s, x) == k
  {
  }

  lemma MultisetRemove<T>(s: seq<T>, k: nat)
    requires k < |s|
    ensures multiset(s[..k] + s[k + 1..]) == multiset(s) - multiset{s[k]}
  {
    assert s == s[..k] + [s[k]] + s[k + 1..];
  }

  lemma PlusMinus<T>(m: multiset<T>, a: T, b: T)
    ensures m + multiset{a} - multiset{b} == m <==> a == b
  {
    if a != b { assert (m + multiset{a} - multiset{b})[a] == m[a] + 1; }
  }

  // ---------------------------------------------------------------- setting the fields of one row

  /** The values paired with the full names of the fields of row `idx`. */
  function Settings(path: string, idx: nat, names: seq<string>, vals: seq<string>): (ps: seq<Param>)
    requires |names| == |vals|
    ensures |ps| == |names|
    ensures forall k :: 0 <= k < |ps| ==> ps[k] == Param(FullName(path, idx, names[k]), vals[k])
  {
    if names == [] then []
    else [Param(FullName(path, idx, names[0]), vals[0])] + Settings(path, idx, names[1..], vals[1..])
  }

  lemma {:induction false} LookupOther(path: string, idx: nat, names: seq<string>, vals: seq<string>, other: nat,
                                       name: string)
    requires |names| == |vals| && (other != idx || name !in names)
    ensures Lookup(Settings(path, idx, names, vals), FullName(path, other, name)) == None
  {
    hide FullName;
    if names != [] {
      if FullName(path, idx, names[0]) == FullName(path, other, name) {
        NamesInjective(path, idx, names[0], other, name);
      }
      assert Settings(path, idx, names, vals)[1..] == Settings(path, idx, names[1..], vals[1..]);
      LookupOther(path, idx, names[1..], vals[1..], other, name);
    }
  }

  lemma {:induction false} LookupAt(path: string, idx: nat, names: seq<string>, vals: seq<string>, k: nat)
    requires |names| == |vals| && k < |names| && names[k] !in names[..k]
    ensures Lookup(Settings(path, idx, names, vals), FullName(path, idx, names[k])) == Some(vals[k])
  {
    hide FullName;
    if 0 < k {
      assert names[..k][0] == names[0];
      if FullName(path, idx, names[0]) == FullName(path, idx, names[k]) {
        NamesInjective(path, idx, names[0], idx, names[k]);
      }
      assert Settings(path, idx, names, vals)[1..] == Settings(path, idx, names[1..], vals[1..]);
      forall j | 0 <= j < k - 1
        ensures names[1..][j] != names[k]
      {
        assert names[j + 1] in names[..k];
      }
      LookupAt(path, idx, names[1..], vals[1..], k - 1);
    }
  }

  lemma SameNamesSamePos(a: seq<Field>, b: seq<Field>, name: string)
    requires |a| == |b| && forall i :: 0 <= i < |a| ==> a[i].name == b[i].name
    ensures Pos(a, name) == Pos(b, name) && (Once(a, name) <==> Once(b, name))
  {
  }

  /** Setting the values of one row leaves the rows with other numbers as they are. */
  lemma SetRowsSetsOne(path: string, rows: seq<Row>, added: Row, names: seq<string>, vals: seq<string>)
    requires |names| == |vals| && Unique(rows + [added])
    ensures var ps := Settings(path, added.idx, names, vals);
            SetRows(path, rows + [added], ps) == rows + [SetRow(path, added, ps)]
  {
    var ps := Settings(path, added.idx, names, vals);
    forall i | 0 <= i < |rows|
      ensures SetRow(path, rows[i], ps) == rows[i]
    {
      assert (rows + [added])[i].idx != (rows + [added])[|rows|].idx;
      forall p | 0 <= p < |rows[i].fields|
        ensures SetRow(path, rows[i], ps).fields[p] == rows[i].fields[p]
      {
        LookupOther(path, added.idx, names, vals, rows[i].idx, rows[i].fields[p].name);
      }
    }
  }
}
