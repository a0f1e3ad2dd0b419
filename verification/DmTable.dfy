/** A table of the device data model as the message bus shows it: rows with instance numbers, which can
    be read only as a flat list of `path.index.Field = value` strings, in row order. */
module DmTable {
  import opened Text
  import opened Basics

  datatype Field = Field(name: string, value: string)

  datatype Row = Row(idx: nat, fields: seq<Field>)

  /** One entry of the flat list. */
  datatype Param = Param(name: string, value: string)

  function FullName(path: string, idx: nat, name: string): string {
    path + Digits(idx) + "." + name
  }

  function RowPath(path: string, idx: nat): string {
    path + Digits(idx) + "."
  }

  function RowParams(path: string, r: Row): (ps: seq<Param>)
    ensures |ps| == |r.fields|
  {
    seq(|r.fields|, p requires 0 <= p < |r.fields| =>
      Param(FullName(path, r.idx, r.fields[p].name), r.fields[p].value))
  }

  function Flatten(path: string, rows: seq<Row>): seq<Param> {
    if rows == [] then [] else RowParams(path, rows[0]) + Flatten(path, rows[1..])
  }

  /** Where the entries of row `r` start in the flat list. */
  function Offset(rows: seq<Row>, r: nat): nat
    requires r <= |rows|
  {
    if r == 0 then 0 else |rows[0].fields| + Offset(rows[1..], r - 1)
  }

  lemma {:induction false} FlattenAt(path: string, rows: seq<Row>, r: nat, p: nat)
    requires r < |rows| && p < |rows[r].fields|
    ensures Offset(rows, r) + p < |Flatten(path, rows)|
    ensures var f := rows[r].fields[p];
            Flatten(path, rows)[Offset(rows, r) + p] == Param(FullName(path, rows[r].idx, f.name), f.value)
  {
    if 0 < r { FlattenAt(path, rows[1..], r - 1, p); }
  }

  lemma {:induction false} OffsetNext(rows: seq<Row>, r: nat)
    requires r < |rows|
    ensures Offset(rows, r + 1) == Offset(rows, r) + |rows[r].fields|
  {
    if 0 < r { OffsetNext(rows[1..], r - 1); }
  }

  lemma {:induction false} OffsetEnd(path: string, rows: seq<Row>)
    ensures Offset(rows, |rows|) == |Flatten(path, rows)|
  {
    if rows != [] { OffsetEnd(path, rows[1..]); }
  }

  // ---------------------------------------------------------------- names

  /** A field name that survives tokenising by dots. */
  predicate PlainName(name: string) {
    name != [] && '.' !in name
  }

  /** The two tokens that the code takes from a name of the flat list, the first one as a number. */
  function Tokens(path: string, name: string): (int, string)
    requires |path| <= |name|
  {
    var (t, rest) := Strtok(name[|path|..], '.');
    (Atoi(t), Strtok(rest, '.').0)
  }

  lemma TokensOfName(path: string, idx: nat, name: string)
    requires PlainName(name)
    ensures |path| <= |FullName(path, idx, name)|
    ensures Tokens(path, FullName(path, idx, name)) == (idx, name)
  {
    var d := Digits(idx);
    assert FullName(path, idx, name)[|path|..] == d + ['.'] + name;
    StrtokOf(d, '.', name);
    StrtokOf(name, '.', []);
    AtoiOfDecimal(idx);
  }

  lemma NamesInjective(path: string, i: nat, a: string, j: nat, b: string)
    requires FullName(path, i, a) == FullName(path, j, b)
    ensures i == j && a == b
  {
    var x, y := Digits(i), Digits(j);
    assert FullName(path, i, a)[|path|..] == x + ("." + a);
    assert FullName(path, j, b)[|path|..] == y + ("." + b);
    FindOf(x, '.', "." + a);
    FindOf(y, '.', "." + b);
    assert (x + ("." + a))[..|x|] == x && (y + ("." + b))[..|y|] == y;
    assert (x + ("." + a))[|x| + 1..] == a && (y + ("." + b))[|y| + 1..] == b;
    DigitsInjective(i, j);
  }

  lemma PathsInjective(path: string, i: nat, j: nat)
    requires RowPath(path, i) == RowPath(path, j)
    ensures i == j
  {
    assert RowPath(path, i) == FullName(path, i, []) && RowPath(path, j) == FullName(path, j, []);
    NamesInjective(path, i, [], j, []);
  }

  // ---------------------------------------------------------------- fields of a row

  /** The position of the first field of that name, or the number of fields. */
  function Pos(fields: seq<Field>, name: string): (p: nat)
    ensures p <= |fields| && (p < |fields| ==> fields[p].name == name)
    ensures forall i :: 0 <= i < p ==> fields[i].name != name
  {
    if fields == [] || fields[0].name == name then 0 else 1 + Pos(fields[1..], name)
  }

  /** The row has exactly one field of that name. */
  predicate Once(fields: seq<Field>, name: string) {
    var p := Pos(fields, name);
    p < |fields| && forall i :: 0 <= i < |fields| && fields[i].name == name ==> i == p
  }

  function Value(r: Row, name: string): string {
    var p := Pos(r.fields, name);
    if p < |r.fields| then r.fields[p].value else ""
  }

  const ENABLE := "Enable"

  /** What every row of either table keeps to. */
  predicate Plain(r: Row) {
    Once(r.fields, ENABLE) && forall i :: 0 <= i < |r.fields| ==> PlainName(r.fields[i].name)
  }

  predicate Unique(rows: seq<Row>) {
    forall i, j :: 0 <= i < j < |rows| ==> rows[i].idx != rows[j].idx
  }

  // ---------------------------------------------------------------- what the bus does to the rows

  function RemovePath(path: string, rows: seq<Row>, target: string): seq<Row> {
    if rows == [] then []
    else if RowPath(path, rows[0].idx) == target then rows[1..]
    else [rows[0]] + RemovePath(path, rows[1..], target)
  }

  function Lookup(vals: seq<Param>, name: string): Option<string> {
    if vals == [] then None
    else if vals[0].name == name then Some(vals[0].value)
    else Lookup(vals[1..], name)
  }

  /** The row with every value that `vals` names replaced. */
  function SetRow(path: string, r: Row, vals: seq<Param>): (r': Row)
    ensures r'.idx == r.idx && |r'.fields| == |r.fields|
    ensures forall p :: 0 <= p < |r.fields| ==> r'.fields[p].name == r.fields[p].name
  {
    Row(r.idx, seq(|r.fields|, p requires 0 <= p < |r.fields| =>
      var v := Lookup(vals, FullName(path, r.idx, r.fields[p].name));
      Field(r.fields[p].name, if v.Some? then v.value else r.fields[p].value)))
  }

  function SetRows(path: string, rows: seq<Row>, vals: seq<Param>): (rs: seq<Row>)
    ensures |rs| == |rows|
  {
    seq(|rows|, i requires 0 <= i < |rows| => SetRow(path, rows[i], vals))
  }

  lemma {:induction false} RemovePathAt(path: string, rows: seq<Row>, k: nat)
    requires Unique(rows) && k < |rows|
    ensures RemovePath(path, rows, RowPath(path, rows[k].idx)) == rows[..k] + rows[k + 1..]
  {
    if 0 < k {
      if RowPath(path, rows[0].idx) == RowPath(path, rows[k].idx) {
        PathsInjective(path, rows[0].idx, rows[k].idx);
      }
      RemovePathAt(path, rows[1..], k - 1);
    }
  }

  /** The remote table.  Whether a call succeeds is up to the other side: a parameter. */
  class Table {
    const path: string
    var rows: seq<Row>
    var attempts: seq<string>    // the rows that deletion was asked for, in order

    constructor (path: string, rows: seq<Row>)
      ensures this.path == path && this.rows == rows && attempts == []
    {
      this.path, this.rows, attempts := path, rows, [];
    }

    method GetParameterValues(ok: bool) returns (params: seq<Param>)
      ensures params == if ok then Flatten(path, rows) else []
    {
      params := if ok then Flatten(path, rows) else [];
    }

    /** `added` is the row the other side adds: its instance number and default values. */
    method AddTblRow(added: Row, ok: bool) returns (idx: nat)
      modifies this
      ensures rows == (if ok then old(rows) + [added] else old(rows)) && attempts == old(attempts)
      ensures idx == added.idx
    {
      if ok { rows := rows + [added]; }
      idx := added.idx;
    }

    method SetParameterValues(vals: seq<Param>, ok: bool)
      modifies this
      ensures rows == (if ok then SetRows(path, old(rows), vals) else old(rows)) && attempts == old(attempts)
    {
      if ok { rows := SetRows(path, rows, vals); }
    }

    method DeleteTblRow(target: string, ok: bool)
      modifies this
      ensures rows == if ok then RemovePath(path, old(rows), target) else old(rows)
      ensures attempts == old(attempts) + [target]
    {
      attempts := attempts + [target];
      if ok { rows := RemovePath(path, rows, target); }
    }
  }
}
