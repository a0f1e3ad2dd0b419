/** One line of the DHCP lease file: the pattern it is matched against, and why what is read out of a
    match does not depend on which of the possible matches the matcher reports. */
module LeaseLine {
  import opened Basics
  import opened Ere
  import opened Text

  // ---------------------------------------------------------------- the pattern

  const SPACE := Chars(Just(' '))
  const QUOTE := Chars(Just('"'))
  const STAR := Chars(Just('*'))

  const OCTET := Group(3, Cat(Times(Chars(Hex), 2), Opt(Chars(Just(':')))))
  const PART := Group(5, Cat(Plus(Chars(Digit)), Opt(Chars(Just('.')))))
  const OPTION_NO := Group(8, Cat(Plus(Chars(Digit)), Opt(Chars(Just(',')))))

  const TIMESTAMP := Cat(Bol, Plus(Chars(Digit)))
  const HWADDR := Times(OCTET, 6)
  const IPADDR := Times(PART, 4)
  const HOSTNAME := Alt(STAR, Plus(Chars(NameChar)))
  const FINGERPRINT := Alt(STAR, Plus(OPTION_NO))
  const VENDOR := Alt(STAR, Plus(Chars(Not('"'))))
  const CID := Plus(Chars(Not(' ')))

  /** A group of the pattern that a space follows. */
  datatype Field = Field(g: nat, re: Re)

  /** The fields in their groups, a space after each, and then the rest. */
  function Fields(fs: seq<Field>, rest: Re): Re {
    if fs == [] then rest else Cat(Group(fs[0].g, fs[0].re), Cat(SPACE, Fields(fs[1..], rest)))
  }

  const FIVE: seq<Field> :=
    [Field(1, TIMESTAMP), Field(2, HWADDR), Field(4, IPADDR), Field(6, HOSTNAME), Field(7, FINGERPRINT)]

  /** The vendor class in quotes, a space, and the client identifier up to the end. */
  const ENDING := Cat(QUOTE, Cat(Group(9, VENDOR), Cat(QUOTE, Cat(SPACE, Cat(CID, Eol)))))

  const PATTERN := Fields(FIVE, ENDING)

  /** `t` is a match of the whole line; both ends of the pattern are anchored. */
  predicate Matches(line: string, t: Tree) {
    Derives(PATTERN, line, 0, |line|, t)
  }

  // ---------------------------------------------------------------- where the groups must lie

  /** The first `c` at or after `i`, or the end. */
  function NextAt(s: string, i: nat, c: char): (k: nat)
    ensures i <= |s| ==> i <= k <= |s| && c !in s[i..k] && (k < |s| ==> s[k] == c)
    decreases |s| - i
  {
    if i >= |s| then |s| else if s[i] == c then i else NextAt(s, i + 1, c)
  }

  lemma NextAtIs(s: string, i: nat, k: nat, c: char)
    requires i <= k < |s| && c !in s[i..k] && s[k] == c
    ensures NextAt(s, i, c) == k
  {
    var n := NextAt(s, i, c);
  }

  /** The group of a field starts at `from` and ends before the next `c`; the rest goes on after it. */
  lemma FieldEnds(f: Re, c: char, rest: Re, s: string, i: nat, j: nat, t: Tree)
    requires Avoids(f, c) && Derives(Cat(f, Cat(Chars(Just(c)), rest)), s, i, j, t)
    ensures t.Split? && t.r.Split?
    ensures var k := NextAt(s, i, c);
            && i <= k < |s| && t.mid == k && t.r.mid == k + 1
            && Derives(f, s, i, k, t.l) && Derives(rest, s, k + 1, j, t.r.r)
  {
    assert Derives(Cat(Chars(Just(c)), rest), s, t.mid, j, t.r);
    assert Derives(Chars(Just(c)), s, t.mid, t.r.mid, t.r.l);
    AvoidsIsFree(f, s, i, t.mid, t.l, c);
    NextAtIs(s, i, t.mid, c);
  }

  /** A field in its group, a delimiter it does not hold, and the rest: the group captures from here to
      the delimiter, and the rest keeps its own captures. */
  lemma FieldStage(g: nat, a: Re, c: char, rest: Re, s: string, i: nat, j: nat, t: Tree)
    requires Avoids(a, c) && Above(rest, g)
    requires Derives(Cat(Group(g, a), Cat(Chars(Just(c)), rest)), s, i, j, t)
    ensures t.Split? && t.r.Split?
    ensures var k := NextAt(s, i, c);
            var caps := Captures(Cat(Group(g, a), Cat(Chars(Just(c)), rest)), i, j, t);
            var own := Captures(rest, k + 1, j, t.r.r);
            && i <= k < |s| && Derives(rest, s, k + 1, j, t.r.r)
            && g in caps && caps[g] == (i, k)
            && forall h :: h in own ==> h in caps && caps[h] == own[h]
  {
    assert Avoids(Group(g, a), c);
    FieldEnds(Group(g, a), c, rest, s, i, j, t);
    var k := NextAt(s, i, c);
    CapturesAreAbove(rest, k + 1, j, t.r.r, g);
    var right := Captures(Cat(Chars(Just(c)), rest), k, j, t.r);
    assert right == Captures(Chars(Just(c)), k, k + 1, t.r.l) + Captures(rest, k + 1, j, t.r.r);
    GroupCapture(g, a, i, k, t.l);
  }

  /** The fields hold no space, and the group of each comes once. */
  predicate FieldsOk(fs: seq<Field>, rest: Re) {
    fs == [] || (Avoids(fs[0].re, ' ') && Above(Fields(fs[1..], rest), fs[0].g) && FieldsOk(fs[1..], rest))
  }

  /** Where the rest of a line starts whose fields start at `i`. */
  function After(fs: seq<Field>, s: string, i: nat): nat {
    if fs == [] then i else After(fs[1..], s, NextAt(s, i, ' ') + 1)
  }

  /** Every field captures the span from where the one before it ended up to the next space. */
  predicate Marked(fs: seq<Field>, caps: Spans, s: string, i: nat) {
    fs != [] ==>
      var k := NextAt(s, i, ' ');
      fs[0].g in caps && caps[fs[0].g] == (i, k) && Marked(fs[1..], caps, s, k + 1)
  }

  ghost predicate Keeps(caps: Spans, own: Spans) {
    forall h :: h in own ==> h in caps && caps[h] == own[h]
  }

  lemma {:induction false} MarkedKept(fs: seq<Field>, caps: Spans, own: Spans, s: string, i: nat)
    requires Keeps(caps, own) && Marked(fs, own, s, i)
    ensures Marked(fs, caps, s, i)
  {
    if fs != [] { MarkedKept(fs[1..], caps, own, s, NextAt(s, i, ' ') + 1); }
  }

  lemma MarkedMore(fs: seq<Field>, caps: Spans, own: Spans, s: string, i: nat)
    requires fs != [] && fs[0].g in caps && caps[fs[0].g] == (i, NextAt(s, i, ' '))
    requires Keeps(caps, own) && Marked(fs[1..], own, s, NextAt(s, i, ' ') + 1)
    ensures Marked(fs, caps, s, i)
  {
    MarkedKept(fs[1..], caps, own, s, NextAt(s, i, ' ') + 1);
  }

  lemma {:induction false} FieldsMarked(fs: seq<Field>, rest: Re, s: string, i: nat, j: nat, t: Tree) returns (u: Tree)
    requires FieldsOk(fs, rest) && Derives(Fields(fs, rest), s, i, j, t)
    ensures Derives(rest, s, After(fs, s, i), j, u)
    ensures Marked(fs, Captures(Fields(fs, rest), i, j, t), s, i)
    ensures Keeps(Captures(Fields(fs, rest), i, j, t), Captures(rest, After(fs, s, i), j, u))
  {
    if fs == [] {
      u := t;
    } else {
      hide Derives, Captures, Avoids, Above, NextAt, Marked;
      var tail := Fields(fs[1..], rest);
      FieldStage(fs[0].g, fs[0].re, ' ', tail, s, i, j, t);
      var m := NextAt(s, i, ' ') + 1;
      u := FieldsMarked(fs[1..], rest, s, m, j, t.r.r);
      MarkedMore(fs, Captures(Fields(fs, rest), i, j, t), Captures(tail, m, j, t.r.r), s, i);
    }
  }

  lemma LastOneOk() returns (fs: seq<Field>)
    ensures fs == [Field(7, FINGERPRINT)] && FieldsOk(fs, ENDING) && Above(Fields(fs, ENDING), 6)
  {
    fs := OneMore(Field(7, FINGERPRINT), [], ENDING, 6);
  }

  lemma LastTwoOk() returns (fs: seq<Field>)
    ensures fs == [Field(6, HOSTNAME), Field(7, FINGERPRINT)] && FieldsOk(fs, ENDING) && Above(Fields(fs, ENDING), 4)
  {
    hide FieldsOk, Fields;
    fs := LastOneOk();
    fs := OneMore(Field(6, HOSTNAME), fs, ENDING, 4);
  }

  lemma LastThreeOk() returns (fs: seq<Field>)
    ensures fs == [Field(4, IPADDR), Field(6, HOSTNAME), Field(7, FINGERPRINT)]
    ensures FieldsOk(fs, ENDING) && Above(Fields(fs, ENDING), 2)
  {
    hide FieldsOk, Fields;
    fs := LastTwoOk();
    fs := OneMore(Field(4, IPADDR), fs, ENDING, 2);
  }

  lemma FiveOk()
    ensures FieldsOk(FIVE, ENDING)
  {
    hide FieldsOk, Fields;
    var fs := LastThreeOk();
    fs := OneMore(Field(2, HWADDR), fs, ENDING, 1);
    fs := OneMore(Field(1, TIMESTAMP), fs, ENDING, 0);
    assert fs == FIVE;
  }

  lemma OneMore(f: Field, fs: seq<Field>, rest: Re, g: nat) returns (more: seq<Field>)
    requires FieldsOk(fs, rest) && Above(Fields(fs, rest), f.g) && Avoids(f.re, ' ')
    requires g < f.g && Above(f.re, g)
    ensures more == [f] + fs && FieldsOk(more, rest) && Above(Fields(more, rest), g)
  {
    more := [f] + fs;
    assert more[1..] == fs;
    AboveLower(Fields(fs, rest), f.g, g);
    assert Above(SPACE, g);
  }

  lemma {:induction false} AboveLower(re: Re, high: nat, low: nat)
    requires Above(re, high) && low <= high
    ensures Above(re, low)
  {
    match re
    case Cat(a, b) => AboveLower(a, high, low); AboveLower(b, high, low);
    case Alt(a, b) => AboveLower(a, high, low); AboveLower(b, high, low);
    case Opt(a) => AboveLower(a, high, low);
    case Plus(a) => AboveLower(a, high, low);
    case Times(a, _) => AboveLower(a, high, low);
    case Group(_, a) => AboveLower(a, high, low);
    case _ =>
  }

  lemma QuoteStage(s: string, i: nat, t: Tree)
    requires Derives(ENDING, s, i, |s|, t)
    ensures var caps := Captures(ENDING, i, |s|, t);
            9 in caps && caps[9] == (i + 1, NextAt(s, i + 1, '"'))
  {
    assert Derives(QUOTE, s, i, t.mid, t.l) && t.mid == i + 1;
    FieldStage(9, VENDOR, '"', Cat(SPACE, Cat(CID, Eol)), s, i + 1, |s|, t.r);
  }

  /** The captures are what looking for the delimiters gives, for every group that the code reads: the
      five fields, and the vendor class between its quotes. */
  predicate AsMarked(caps: Spans, s: string) {
    var q := After(FIVE, s, 0) + 1;
    Marked(FIVE, caps, s, 0) && 9 in caps && caps[9] == (q, NextAt(s, q, '"'))
  }

  /** Every match of a line gives the groups that the code reads the spans between the delimiters. */
  lemma CapturesAreMarked(s: string, t: Tree)
    requires Matches(s, t)
    ensures AsMarked(Captures(PATTERN, 0, |s|, t), s)
  {
    FiveOk();
    var u := FieldsMarked(FIVE, ENDING, s, 0, |s|, t);
    QuoteStage(s, After(FIVE, s, 0), u);
  }

  lemma {:induction false} MarkedIsUnique(fs: seq<Field>, a: Spans, b: Spans, s: string, i: nat, k: nat)
    requires Marked(fs, a, s, i) && Marked(fs, b, s, i) && k < |fs|
    ensures fs[k].g in a && fs[k].g in b && a[fs[k].g] == b[fs[k].g]
  {
    if 0 < k { MarkedIsUnique(fs[1..], a, b, s, NextAt(s, i, ' ') + 1, k - 1); }
  }

  /** The pattern is unambiguous in every group that the code reads. */
  lemma Unambiguous(s: string, t: Tree, u: Tree, g: nat)
    requires Matches(s, t) && Matches(s, u) && g in {1, 2, 4, 6, 7, 9}
    ensures g in Captures(PATTERN, 0, |s|, t) && g in Captures(PATTERN, 0, |s|, u)
    ensures Captures(PATTERN, 0, |s|, t)[g] == Captures(PATTERN, 0, |s|, u)[g]
  {
    CapturesAreMarked(s, t);
    CapturesAreMarked(s, u);
    SameMarks(Captures(PATTERN, 0, |s|, t), Captures(PATTERN, 0, |s|, u), s, g);
  }

  lemma SameMarks(a: Spans, b: Spans, s: string, g: nat)
    requires AsMarked(a, s) && AsMarked(b, s) && g in {1, 2, 4, 6, 7, 9}
    ensures g in a && g in b && a[g] == b[g]
  {
    assert FIVE[0].g == 1 && FIVE[1].g == 2 && FIVE[2].g == 4 && FIVE[3].g == 6 && FIVE[4].g == 7;
    var k := if g == 1 then 0 else if g == 2 then 1 else if g == 4 then 2 else if g == 6 then 3 else 4;
    if g != 9 { MarkedIsUnique(FIVE, a, b, s, 0, k); }
  }
}
