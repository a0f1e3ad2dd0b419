/** The encoding half of the band-steering tools: a command is written into a fixed buffer, piece by
    piece, with snprintf and a count of the bytes left. */
module BsCmd {
  import opened Basics
  import opened Text

  const SEP := ';'
  const NUL := '\0'

  // ---------------------------------------------------------------- the buffer

  /** The C string that a buffer holds. */
  function CString(buf: seq<char>): string {
    buf[..Find(buf, NUL)]
  }

  /** The buffer holds `text`, or as much of it as two bytes less than the buffer take. */
  ghost predicate Written(buf: seq<char>, text: string) {
    && 2 <= |buf|
    && var n := |Take(text, |buf| - 2)|; buf[..n] == text[..n] && buf[n] == NUL
  }

  lemma {:induction false} WrittenIsCString(buf: seq<char>, text: string)
    requires Written(buf, text) && NUL !in text
    ensures CString(buf) == Take(text, |buf| - 2)
  {
    var n := |Take(text, |buf| - 2)|;
    assert buf == text[..n] + buf[n..];
    FindOf(text[..n], NUL, buf[n..]);
  }

  /** snprintf of `text` at `at` with room for `size` bytes, the final NUL among them. */
  method Snprintf(buf: array<char>, at: nat, size: nat, text: string) returns (count: nat)
    requires at + size <= buf.Length
    modifies buf
    ensures count == |text|
    ensures size == 0 ==> buf[..] == old(buf[..])
    ensures 0 < size ==>
              var n := |Take(text, size - 1)|;
              buf[..] == old(buf[..at]) + text[..n] + [NUL] + old(buf[at + n + 1..])
  {
    count := |text|;
    if size == 0 { return; }
    var n := |Take(text, size - 1)|;
    for i := 0 to n
      invariant forall j :: 0 <= j < at || at + i <= j < buf.Length ==> buf[j] == old(buf[j])
      invariant forall j :: at <= j < at + i ==> buf[j] == text[j - at]
    {
      buf[at + i] := text[i];
    }
    buf[at + n] := NUL;
  }

  /** One snprintf with its bookkeeping.  `text` is what has been written so far. */
  method Emit(buf: array<char>, ptr: nat, left: nat, piece: string, ghost text: string) returns (ptr': nat, left': int)
    requires Written(buf[..], text) && ptr == |text| && ptr + left == buf.Length - 1
    modifies buf
    ensures Written(buf[..], text + piece) && ptr' == |text + piece|
    ensures ptr' + left' == buf.Length - 1
  {
    ghost var before := buf[..];
    var counter := Snprintf(buf, ptr, left, piece);
    left' := left - counter;
    ptr' := ptr + counter;
    ghost var n := |Take(text + piece, buf.Length - 2)|;
    if 0 < left {
      ghost var k := |Take(piece, left - 1)|;
      assert n == ptr + k;
      assert (text + piece)[..n] == text + piece[..k];
      assert buf[..n] == before[..ptr] + piece[..k];
    } else {
      assert (text + piece)[..n] == text[..n];
    }
  }

  // ---------------------------------------------------------------- lines of a parameter file

  /** A line as fgets returns it that the code can take apart: a key, `=`, and at least one more
      character, the last of which is dropped. */
  predicate LineOk(line: string) {
    NUL !in line && Find(line, '=') + 1 < |line|
  }

  function KeyOf(line: string): string {
    Strsep(line, '=').0
  }

  function ValueOf(line: string): string {
    var rest := Strsep(line, '=').1;
    if rest.Some? && rest.value != "" then rest.value[..|rest.value| - 1] else ""
  }

  const BTM_KEYS := {"token", "requestMode", "timer", "validityInterval", "termDuration.tsf",
                     "termDuration.duration", "numCandidates", "bssid", "info", "opClass", "channel",
                     "phyTable", "preference"}

  const AP_KEYS := {"apIndex", "utilCheckIntervalSec", "utilAvgCount", "inactCheckIntervalSec",
                    "inactCheckThresholdSec"}

  /** The values, a separator before each. */
  function Tail(values: seq<string>): string {
    if values == [] then "" else Tail(values[..|values| - 1]) + ([SEP] + values[|values| - 1])
  }

  function Values(lines: seq<string>): (vs: seq<string>)
    ensures |vs| == |lines| && forall i :: 0 <= i < |lines| ==> vs[i] == ValueOf(lines[i])
  {
    seq(|lines|, i requires 0 <= i < |lines| => ValueOf(lines[i]))
  }

  predicate KeysIn(lines: seq<string>, keys: set<string>) {
    lines == [] || (KeysIn(lines[..|lines| - 1], keys) && KeyOf(lines[|lines| - 1]) in keys)
  }

  lemma KeysInNext(lines: seq<string>, keys: set<string>, i: nat)
    requires i < |lines|
    ensures KeysIn(lines[..i + 1], keys) <==> KeysIn(lines[..i], keys) && KeyOf(lines[i]) in keys
    ensures !KeysIn(lines[..i + 1], keys) ==> !KeysIn(lines, keys)
  {
    assert lines[..i + 1][..i] == lines[..i];
    KeysInPrefix(lines, keys, i + 1);
  }

  lemma {:induction false} KeysInPrefix(lines: seq<string>, keys: set<string>, i: nat)
    requires i <= |lines|
    ensures KeysIn(lines, keys) ==> KeysIn(lines[..i], keys)
  {
    if i < |lines| {
      KeysInPrefix(lines[..|lines| - 1], keys, i);
      assert lines[..|lines| - 1][..i] == lines[..i];
    } else {
      assert lines[..i] == lines;
    }
  }

  /** One unknown key is enough to refuse the file. */
  lemma {:induction false} KeysInIff(lines: seq<string>, keys: set<string>)
    ensures KeysIn(lines, keys) <==> forall i :: 0 <= i < |lines| ==> KeyOf(lines[i]) in keys
  {
    if lines != [] {
      var front := lines[..|lines| - 1];
      KeysInIff(front, keys);
      assert forall i :: 0 <= i < |front| ==> front[i] == lines[i];
    }
  }

  predicate LinesOk(lines: seq<string>) {
    forall i :: 0 <= i < |lines| ==> LineOk(lines[i])
  }

  /** Every piece but the last ends inside the buffer, so that the bytes left never go below zero before
      a write. */
  predicate Roomy(head: string, values: seq<string>, size: nat) {
    |head| < size && (values != [] ==> |head + Tail(values[..|values| - 1])| < size)
  }

  lemma TailSnoc(values: seq<string>, i: nat)
    requires i < |values|
    ensures Tail(values[..i + 1]) == Tail(values[..i]) + ([SEP] + values[i])
  {
    assert values[..i + 1][..i] == values[..i];
  }

  lemma {:induction false} TailGrows(values: seq<string>, i: nat)
    requires i <= |values|
    ensures |Tail(values[..i])| <= |Tail(values)|
  {
    if i < |values| {
      TailGrows(values[..|values| - 1], i);
      assert values[..|values| - 1][..i] == values[..i];
    } else {
      assert values[..i] == values;
    }
  }

  lemma RoomyAt(head: string, values: seq<string>, size: nat, i: nat)
    requires Roomy(head, values, size) && i < |values|
    ensures |head + Tail(values[..i])| < size
  {
    TailGrows(values[..|values| - 1], i);
    assert values[..|values| - 1][..i] == values[..i];
  }

  lemma {:induction false} TailIsClean(values: seq<string>)
    requires forall i :: 0 <= i < |values| ==> NUL !in values[i]
    ensures NUL !in Tail(values)
  {
    if values != [] { TailIsClean(values[..|values| - 1]); }
  }

  lemma ValueIsClean(line: string)
    requires LineOk(line)
    ensures NUL !in ValueOf(line)
  {
    var rest := Strsep(line, '=').1.value;
    forall i | 0 <= i < |rest|
      ensures rest[i] != NUL
    {
      assert rest[i] == line[Find(line, '=') + 1 + i];
    }
  }

  /** Write the values of a file's lines behind what the buffer holds. */
  method WriteValues(lines: seq<string>, keys: set<string>, buf: array<char>, ptr: nat, left: int, ghost text: string)
    returns (ok: bool, ptr': nat, left': int)
    requires LinesOk(lines)
    requires Written(buf[..], text) && ptr == |text| && ptr + left == buf.Length - 1
    requires lines != [] ==> Roomy(text, Values(lines), buf.Length)
    modifies buf
    ensures ok <==> KeysIn(lines, keys)
    ensures ok ==> Written(buf[..], text + Tail(Values(lines))) && ptr' == |text + Tail(Values(lines))|
    ensures ptr' + left' == buf.Length - 1
  {
    ghost var vs, sofar := Values(lines), text;
    ptr', left' := ptr, left;
    assert text + Tail(vs[..0]) == text;
    for i := 0 to |lines|
      invariant KeysIn(lines[..i], keys)
      invariant sofar == text + Tail(vs[..i])
      invariant Written(buf[..], sofar) && ptr' == |sofar| && ptr' + left' == buf.Length - 1
    {
      var token, value := TakeLine(lines[i]);
      KeysInNext(lines, keys, i);
      if token !in keys {
        return false, ptr', left';
      }
      NextPiece(text, vs, buf.Length, i);
      ptr', left' := Emit(buf, ptr', left', [SEP] + value, sofar);
      sofar := sofar + ([SEP] + value);
    }
    assert vs[..|lines|] == vs && lines[..|lines|] == lines;
    ok := true;
  }

  /** The strsep on a line, and the cut of its last character. */
  method TakeLine(line: string) returns (token: string, value: string)
    requires LineOk(line)
    ensures token == KeyOf(line) && value == ValueOf(line)
  {
    var (t, rest) := Strsep(line, '=');
    token, value := t, rest.value[..|rest.value| - 1];
  }

  lemma NextPiece(head: string, values: seq<string>, size: nat, i: nat)
    requires Roomy(head, values, size) && i < |values|
    ensures |head + Tail(values[..i])| < size
    ensures head + Tail(values[..i]) + ([SEP] + values[i]) == head + Tail(values[..i + 1])
  {
    RoomyAt(head, values, size, i);
    TailSnoc(values, i);
    Assoc(head, Tail(values[..i]), [SEP] + values[i]);
  }

  // ---------------------------------------------------------------- BTM request

  function BtmHead(name: string, ap: string, mac: string): string {
    name + [SEP] + ap + [SEP] + mac
  }

  /** Encode a BTM request.  `opens`: the parameter file can be opened.  The buffer comes zeroed. */
  method HandleSetBtmRequest(name: string, ap: string, mac: string, opens: bool, lines: seq<string>, cmd: array<char>)
    returns (ok: bool)
    requires 2 <= cmd.Length && cmd[0] == NUL && LinesOk(lines)
    requires NUL !in name && NUL !in ap && NUL !in mac
    requires Roomy(BtmHead(name, ap, mac), Values(lines), cmd.Length)
    modifies cmd
    ensures ok <==> opens && KeysIn(lines, BTM_KEYS)
    ensures ok <==> opens && forall i :: 0 <= i < |lines| ==> KeyOf(lines[i]) in BTM_KEYS
    ensures ok ==> CString(cmd[..]) == Take(BtmHead(name, ap, mac) + Tail(Values(lines)), cmd.Length - 2)
  {
    var head := BtmHead(name, ap, mac);
    var ptr, left := Emit(cmd, 0, cmd.Length - 1, head, "");
    assert "" + head == head;
    KeysInIff(lines, BTM_KEYS);
    if !opens { return false; }
    ok, ptr, left := WriteValues(lines, BTM_KEYS, cmd, ptr, left, head);
    if ok {
      forall i | 0 <= i < |lines|
        ensures NUL !in Values(lines)[i]
      {
        ValueIsClean(lines[i]);
      }
      TailIsClean(Values(lines));
      WrittenIsCString(cmd[..], head + Tail(Values(lines)));
    }
  }

  // ---------------------------------------------------------------- steering group

  /** One configuration argument: the word NULL, or a file. */
  datatype CfgArg = Null | File(opens: bool, lines: seq<string>)

  function ArgValues(a: CfgArg): seq<string> {
    if a.Null? then ["NULL"] else Values(a.lines)
  }

  function AllValues(args: seq<CfgArg>): seq<string> {
    if args == [] then [] else AllValues(args[..|args| - 1]) + ArgValues(args[|args| - 1])
  }

  predicate ArgOk(a: CfgArg) {
    a.File? ==> a.opens && KeysIn(a.lines, AP_KEYS)
  }

  /** The lines of a file can be taken apart. */
  predicate Readable(a: CfgArg) {
    a.File? ==> LinesOk(a.lines)
  }

  ghost predicate AllReadable(args: seq<CfgArg>) {
    forall i {:trigger Readable(args[i])} :: 0 <= i < |args| ==> Readable(args[i])
  }

  predicate ArgsOk(args: seq<CfgArg>) {
    args == [] || (ArgsOk(args[..|args| - 1]) && ArgOk(args[|args| - 1]))
  }

  lemma ArgsOkNext(args: seq<CfgArg>, i: nat)
    requires i < |args|
    ensures ArgsOk(args[..i + 1]) <==> ArgsOk(args[..i]) && ArgOk(args[i])
    ensures !ArgsOk(args[..i + 1]) ==> !ArgsOk(args)
  {
    assert args[..i + 1][..i] == args[..i];
    ArgsOkPrefix(args, i + 1);
  }

  lemma {:induction false} ArgsOkPrefix(args: seq<CfgArg>, i: nat)
    requires i <= |args|
    ensures ArgsOk(args) ==> ArgsOk(args[..i])
  {
    if i < |args| {
      ArgsOkPrefix(args[..|args| - 1], i);
      assert args[..|args| - 1][..i] == args[..i];
    } else {
      assert args[..i] == args;
    }
  }

  /** One file that cannot be opened or has an unknown key is enough to refuse the command. */
  lemma {:induction false} ArgsOkIff(args: seq<CfgArg>)
    ensures ArgsOk(args) <==> forall k :: 0 <= k < |args| && args[k].File? ==>
              args[k].opens && forall i :: 0 <= i < |args[k].lines| ==> KeyOf(args[k].lines[i]) in AP_KEYS
  {
    hide KeyOf, KeysIn;
    if args != [] {
      var front, a := args[..|args| - 1], args[|args| - 1];
      ArgsOkIff(front);
      if a.File? { KeysInIff(a.lines, AP_KEYS); }
      assert forall k :: 0 <= k < |front| ==> front[k] == args[k];
    }
  }

  function GroupHead(name: string, group: string): string {
    name + [SEP] + group
  }

  lemma {:induction false} TailAppend(a: seq<string>, b: seq<string>)
    ensures Tail(a + b) == Tail(a) + Tail(b)
  {
    if b == [] {
      assert a + b == a;
    } else {
      assert (a + b)[..|a + b| - 1] == a + b[..|b| - 1];
      TailAppend(a, b[..|b| - 1]);
    }
  }

  /** The values of one more argument, behind those of the arguments before it. */
  lemma {:induction false} NextArg(args: seq<CfgArg>, i: nat)
    requires i < |args|
    ensures AllValues(args[..i + 1]) == AllValues(args[..i]) + ArgValues(args[i])
    ensures Tail(AllValues(args[..i + 1])) == Tail(AllValues(args[..i])) + Tail(ArgValues(args[i]))
  {
    assert args[..i + 1][..i] == args[..i];
    TailAppend(AllValues(args[..i]), ArgValues(args[i]));
  }

  lemma {:induction false} ArgsPrefix(args: seq<CfgArg>, i: nat)
    requires i <= |args|
    ensures AllValues(args[..i]) <= AllValues(args)
  {
    if i < |args| {
      ArgsPrefix(args[..|args| - 1], i);
      assert args[..|args| - 1][..i] == args[..i];
    } else {
      assert args[..i] == args;
    }
  }

  /** If everything but the last piece fits, so does everything but the last piece of each argument. */
  lemma RoomyArg(head: string, args: seq<CfgArg>, size: nat, i: nat)
    requires Roomy(head, AllValues(args), size) && i < |args|
    ensures ArgValues(args[i]) != [] ==> Roomy(head + Tail(AllValues(args[..i])), ArgValues(args[i]), size)
  {
    var all, before, own := AllValues(args), AllValues(args[..i]), ArgValues(args[i]);
    if own != [] {
      ArgsPrefix(args, i + 1);
      NextArg(args, i);
      RoomyInside(head, all, before, own, size);
    }
  }

  lemma RoomyInside(head: string, all: seq<string>, before: seq<string>, own: seq<string>, size: nat)
    requires Roomy(head, all, size) && before + own <= all && own != []
    ensures Roomy(head + Tail(before), own, size)
  {
    var front := own[..|own| - 1];
    assert all[..|before|] == before && all[..|before + front|] == before + front;
    RoomyAt(head, all, size, |before|);
    RoomyAt(head, all, size, |before + front|);
    TailAppend(before, front);
    Assoc(head, Tail(before), Tail(front));
  }

  lemma Assoc(a: string, b: string, c: string)
    ensures (a + b) + c == a + (b + c)
  {
  }

  /** One configuration argument: NULL, or the values of its file. */
  method SerializeCfg(arg: CfgArg, buf: array<char>, ptr: nat, left: int, ghost text: string)
    returns (ok: bool, ptr': nat, left': int)
    requires Readable(arg)
    requires Written(buf[..], text) && ptr == |text| && ptr + left == buf.Length - 1
    requires ArgValues(arg) != [] ==> Roomy(text, ArgValues(arg), buf.Length)
    modifies buf
    ensures ok <==> ArgOk(arg)
    ensures ok ==> Written(buf[..], text + Tail(ArgValues(arg))) && ptr' == |text + Tail(ArgValues(arg))|
    ensures ptr' + left' == buf.Length - 1
  {
    if arg.File? {
      if !arg.opens { return false, ptr, left; }
      ok, ptr', left' := WriteValues(arg.lines, AP_KEYS, buf, ptr, left, text);
    } else {
      ptr', left' := Emit(buf, ptr, left, ";NULL", text);
      assert Tail(ArgValues(arg)) == ";NULL" by { TailSnoc(["NULL"], 0); }
      ok := true;
    }
  }

  /** Write the values of all arguments behind what the buffer holds. */
  method SerializeCfgs(args: seq<CfgArg>, buf: array<char>, ptr: nat, left: nat, ghost text: string)
    returns (ok: bool, ptr': nat, left': int)
    requires AllReadable(args)
    requires Written(buf[..], text) && ptr == |text| && ptr + left == buf.Length - 1
    requires Roomy(text, AllValues(args), buf.Length)
    modifies buf
    ensures ok <==> ArgsOk(args)
    ensures ok ==> Written(buf[..], text + Tail(AllValues(args)))
    ensures ptr' + left' == buf.Length - 1
  {
    ghost var sofar := text;
    ok, ptr', left' := true, ptr, left;
    assert text + Tail(AllValues(args[..0])) == text;
    for i := 0 to |args|
      invariant ArgsOk(args[..i]) && ok
      invariant sofar == text + Tail(AllValues(args[..i]))
      invariant Written(buf[..], sofar) && ptr' == |sofar| && ptr' + left' == buf.Length - 1
    {
      GroupNext(text, args, i, buf.Length);
      ok, ptr', left' := SerializeCfg(args[i], buf, ptr', left', sofar);
      if !ok { return; }
      sofar := sofar + Tail(ArgValues(args[i]));
    }
    assert args[..|args|] == args;
  }

  /** Encode a steering group. */
  method HandleSetGroup(name: string, group: string, args: seq<CfgArg>, cmd: array<char>) returns (ok: bool)
    requires 2 <= cmd.Length && cmd[0] == NUL
    requires AllReadable(args) && NUL !in name && NUL !in group
    requires Roomy(GroupHead(name, group), AllValues(args), cmd.Length)
    modifies cmd
    ensures ok <==> ArgsOk(args)
    ensures ok <==> forall k :: 0 <= k < |args| && args[k].File? ==>
              args[k].opens && forall i :: 0 <= i < |args[k].lines| ==> KeyOf(args[k].lines[i]) in AP_KEYS
    ensures ok ==> CString(cmd[..]) == Take(GroupHead(name, group) + Tail(AllValues(args)), cmd.Length - 2)
  {
    var head := GroupHead(name, group);
    var ptr, left := Emit(cmd, 0, cmd.Length - 1, head, "");
    assert "" + head == head;
    ArgsOkIff(args);
    ok, ptr, left := SerializeCfgs(args, cmd, ptr, left, head);
    if ok { GroupIsCString(cmd[..], head, args); }
  }

  lemma GroupNext(head: string, args: seq<CfgArg>, i: nat, size: nat)
    requires i < |args| && AllReadable(args) && Roomy(head, AllValues(args), size)
    ensures Readable(args[i])
    ensures ArgValues(args[i]) != [] ==> Roomy(head + Tail(AllValues(args[..i])), ArgValues(args[i]), size)
    ensures head + Tail(AllValues(args[..i + 1])) == head + Tail(AllValues(args[..i])) + Tail(ArgValues(args[i]))
    ensures ArgsOk(args[..i + 1]) <==> ArgsOk(args[..i]) && ArgOk(args[i])
    ensures !ArgsOk(args[..i + 1]) ==> !ArgsOk(args)
  {
    assert Readable(args[i]);
    RoomyArg(head, args, size, i);
    NextArg(args, i);
    Assoc(head, Tail(AllValues(args[..i])), Tail(ArgValues(args[i])));
    ArgsOkNext(args, i);
  }

  lemma GroupIsCString(buf: seq<char>, head: string, args: seq<CfgArg>)
    requires AllReadable(args) && NUL !in head && Written(buf, head + Tail(AllValues(args)))
    ensures CString(buf) == Take(head + Tail(AllValues(args)), |buf| - 2)
  {
    CleanArgs(args);
    TailIsClean(AllValues(args));
    WrittenIsCString(buf, head + Tail(AllValues(args)));
  }

  lemma {:induction false} CleanArgs(args: seq<CfgArg>)
    requires AllReadable(args)
    ensures forall k :: 0 <= k < |AllValues(args)| ==> NUL !in AllValues(args)[k]
  {
    if args != [] {
      var front, a := args[..|args| - 1], args[|args| - 1];
      forall i | 0 <= i < |front|
        ensures Readable(front[i])
      {
        assert Readable(args[i]);
      }
      CleanArgs(front);
      assert Readable(args[|args| - 1]);
      if a.File? {
        forall k | 0 <= k < |a.lines|
          ensures NUL !in Values(a.lines)[k]
        {
          ValueIsClean(a.lines[k]);
        }
      }
    }
  }
}
