/** POSIX extended regular expressions (IEEE Std 1003.1-2017, Base Definitions, section 9.4), as far as
    the lease pattern uses them.  A match is a derivation tree; what a matcher reports for a group is
    the span of its last occurrence in the tree.  Which of several trees a matcher reports is left open. */
module Ere {

  datatype CharSet = Digit | Hex | NameChar | Just(c: char) | Not(c: char)

  predicate In(c: char, cs: CharSet) {
    match cs
    case Digit => '0' <= c <= '9'
    case Hex => '0' <= c <= '9' || 'a' <= c <= 'f' || 'A' <= c <= 'F'
    case NameChar => 'a' <= c <= 'z' || 'A' <= c <= 'Z' || '0' <= c <= '9' || c == '_' || c == '-'
    case Just(d) => c == d
    case Not(d) => c != d
  }

  datatype Re =
    | Chars(cs: CharSet)
    | Cat(a: Re, b: Re)
    | Alt(a: Re, b: Re)
    | Opt(a: Re)
    | Plus(a: Re)
    | Times(a: Re, n: nat)
    | Group(g: nat, a: Re)
    | Bol
    | Eol

  /** How a pattern derives a piece of the subject. */
  datatype Tree =
    | Leaf                                  // one character, an anchor, no repetition, an absent option
    | Split(mid: nat, l: Tree, r: Tree)     // a concatenation, or all but the last repetition and the last
    | First(t: Tree)                        // the first alternative
    | Second(t: Tree)                       // the second alternative
    | Inner(t: Tree)                        // what an option or a group holds
    | Repeat(n: nat, t: Tree)               // n repetitions of a plus

  /** `t` derives `s[i..j]` from `re`. */
  predicate Derives(re: Re, s: string, i: nat, j: nat, t: Tree)
    decreases t
  {
    match re
    case Chars(cs) => t.Leaf? && i < |s| && j == i + 1 && In(s[i], cs)
    case Cat(a, b) => t.Split? && Derives(a, s, i, t.mid, t.l) && Derives(b, s, t.mid, j, t.r)
    case Alt(a, b) => (t.First? && Derives(a, s, i, j, t.t)) || (t.Second? && Derives(b, s, i, j, t.t))
    case Opt(a) => (t.Leaf? && i == j <= |s|) || (t.Inner? && Derives(a, s, i, j, t.t))
    case Plus(a) => t.Repeat? && 0 < t.n && Derives(Times(a, t.n), s, i, j, t.t)
    case Times(a, n) =>
      if n == 0 then t.Leaf? && i == j <= |s|
      else t.Split? && Derives(Times(a, n - 1), s, i, t.mid, t.l) && Derives(a, s, t.mid, j, t.r)
    case Group(_, a) => t.Inner? && Derives(a, s, i, j, t.t)
    case Bol => t.Leaf? && i == j == 0
    case Eol => t.Leaf? && i == j == |s|
  }

  type Spans = map<nat, (nat, nat)>

  /** The spans of the groups: of each group the last occurrence. */
  function Captures(re: Re, i: nat, j: nat, t: Tree): Spans
    decreases t
  {
    match re
    case Cat(a, b) =>
      if t.Split? then Captures(a, i, t.mid, t.l) + Captures(b, t.mid, j, t.r) else map[]
    case Alt(a, b) =>
      if t.First? then Captures(a, i, j, t.t) else if t.Second? then Captures(b, i, j, t.t) else map[]
    case Opt(a) => if t.Inner? then Captures(a, i, j, t.t) else map[]
    case Plus(a) => if t.Repeat? then Captures(Times(a, t.n), i, j, t.t) else map[]
    case Times(a, n) =>
      if n != 0 && t.Split? then Captures(Times(a, n - 1), i, t.mid, t.l) + Captures(a, t.mid, j, t.r) else map[]
    case Group(g, a) => if t.Inner? then Captures(a, i, j, t.t)[g := (i, j)] else map[]
    case _ => map[]
  }

  lemma {:induction false} SpanInOrder(re: Re, s: string, i: nat, j: nat, t: Tree)
    requires Derives(re, s, i, j, t)
    ensures i <= j <= |s|
    decreases t
  {
    match re
    case Cat(a, b) => SpanInOrder(a, s, i, t.mid, t.l); SpanInOrder(b, s, t.mid, j, t.r);
    case Alt(a, b) => SpanInOrder(if t.First? then a else b, s, i, j, t.t);
    case Opt(a) => if t.Inner? { SpanInOrder(a, s, i, j, t.t); }
    case Plus(a) => SpanInOrder(Times(a, t.n), s, i, j, t.t);
    case Times(a, n) =>
      if n != 0 {
        SpanInOrder(Times(a, n - 1), s, i, t.mid, t.l);
        SpanInOrder(a, s, t.mid, j, t.r);
      }
    case Group(_, a) => SpanInOrder(a, s, i, j, t.t);
    case _ =>
  }

  /** Nothing that `re` derives holds the character `c`. */
  predicate Avoids(re: Re, c: char) {
    match re
    case Chars(cs) => !In(c, cs)
    case Cat(a, b) => Avoids(a, c) && Avoids(b, c)
    case Alt(a, b) => Avoids(a, c) && Avoids(b, c)
    case Opt(a) => Avoids(a, c)
    case Plus(a) => Avoids(a, c)
    case Times(a, _) => Avoids(a, c)
    case Group(_, a) => Avoids(a, c)
    case _ => true
  }

  lemma {:induction false} AvoidsIsFree(re: Re, s: string, i: nat, j: nat, t: Tree, c: char)
    requires Avoids(re, c) && Derives(re, s, i, j, t)
    ensures i <= j <= |s| && c !in s[i..j]
    decreases t
  {
    SpanInOrder(re, s, i, j, t);
    match re
    case Cat(a, b) =>
      AvoidsIsFree(a, s, i, t.mid, t.l, c);
      AvoidsIsFree(b, s, t.mid, j, t.r, c);
      assert s[i..j] == s[i..t.mid] + s[t.mid..j];
    case Alt(a, b) => AvoidsIsFree(if t.First? then a else b, s, i, j, t.t, c);
    case Opt(a) => if t.Inner? { AvoidsIsFree(a, s, i, j, t.t, c); }
    case Plus(a) => AvoidsIsFree(Times(a, t.n), s, i, j, t.t, c);
    case Times(a, n) =>
      if n != 0 {
        AvoidsIsFree(Times(a, n - 1), s, i, t.mid, t.l, c);
        AvoidsIsFree(a, s, t.mid, j, t.r, c);
        assert s[i..j] == s[i..t.mid] + s[t.mid..j];
      }
    case Group(_, a) => AvoidsIsFree(a, s, i, j, t.t, c);
    case _ =>
  }

  /** Every group of the pattern has a higher number than `g`. */
  predicate Above(re: Re, g: nat) {
    match re
    case Cat(a, b) => Above(a, g) && Above(b, g)
    case Alt(a, b) => Above(a, g) && Above(b, g)
    case Opt(a) => Above(a, g)
    case Plus(a) => Above(a, g)
    case Times(a, _) => Above(a, g)
    case Group(h, a) => g < h && Above(a, g)
    case _ => true
  }

  lemma {:induction false} CapturesAreAbove(re: Re, i: nat, j: nat, t: Tree, g: nat)
    requires Above(re, g)
    ensures g !in Captures(re, i, j, t)
    decreases t
  {
    match re
    case Cat(a, b) =>
      if t.Split? { CapturesAreAbove(a, i, t.mid, t.l, g); CapturesAreAbove(b, t.mid, j, t.r, g); }
    case Alt(a, b) => if t.First? || t.Second? { CapturesAreAbove(if t.First? then a else b, i, j, t.t, g); }
    case Opt(a) => if t.Inner? { CapturesAreAbove(a, i, j, t.t, g); }
    case Plus(a) => if t.Repeat? { CapturesAreAbove(Times(a, t.n), i, j, t.t, g); }
    case Times(a, n) =>
      if n != 0 && t.Split? {
        CapturesAreAbove(Times(a, n - 1), i, t.mid, t.l, g);
        CapturesAreAbove(a, t.mid, j, t.r, g);
      }
    case Group(_, a) => if t.Inner? { CapturesAreAbove(a, i, j, t.t, g); }
    case _ =>
  }

  // ---------------------------------------------------------------- moving a match

  /** The same derivation, `d` characters further on. */
  function Shift(t: Tree, d: nat): Tree {
    match t
    case Leaf => Leaf
    case Split(mid, l, r) => Split(mid + d, Shift(l, d), Shift(r, d))
    case First(u) => First(Shift(u, d))
    case Second(u) => Second(Shift(u, d))
    case Inner(u) => Inner(Shift(u, d))
    case Repeat(n, u) => Repeat(n, Shift(u, d))
  }

  predicate NoAnchors(re: Re) {
    match re
    case Bol => false
    case Eol => false
    case Cat(a, b) => NoAnchors(a) && NoAnchors(b)
    case Alt(a, b) => NoAnchors(a) && NoAnchors(b)
    case Opt(a) => NoAnchors(a)
    case Plus(a) => NoAnchors(a)
    case Times(a, _) => NoAnchors(a)
    case Group(_, a) => NoAnchors(a)
    case Chars(_) => true
  }

  /** What derives a piece on its own derives it inside a longer subject. */
  lemma {:induction false} InContext(re: Re, s: string, i: nat, j: nat, t: Tree, pre: string, post: string)
    requires NoAnchors(re) && Derives(re, s, i, j, t)
    ensures Derives(re, pre + s + post, i + |pre|, j + |pre|, Shift(t, |pre|))
    decreases t
  {
    SpanInOrder(re, s, i, j, t);
    match re
    case Chars(_) => assert (pre + s + post)[i + |pre|] == s[i];
    case Cat(a, b) => InContext(a, s, i, t.mid, t.l, pre, post); InContext(b, s, t.mid, j, t.r, pre, post);
    case Alt(a, b) => InContext(if t.First? then a else b, s, i, j, t.t, pre, post);
    case Opt(a) => if t.Inner? { InContext(a, s, i, j, t.t, pre, post); }
    case Plus(a) => InContext(Times(a, t.n), s, i, j, t.t, pre, post);
    case Times(a, n) =>
      if n != 0 {
        InContext(Times(a, n - 1), s, i, t.mid, t.l, pre, post);
        InContext(a, s, t.mid, j, t.r, pre, post);
      }
    case Group(_, a) => InContext(a, s, i, j, t.t, pre, post);
  }

  /** The same derivation, `d` characters further to the front. */
  function Back(t: Tree, d: nat): Tree {
    match t
    case Leaf => Leaf
    case Split(mid, l, r) => Split(if d <= mid then mid - d else 0, Back(l, d), Back(r, d))
    case First(u) => First(Back(u, d))
    case Second(u) => Second(Back(u, d))
    case Inner(u) => Inner(Back(u, d))
    case Repeat(n, u) => Repeat(n, Back(u, d))
  }

  /** What derives a piece inside a subject derives it on its own. */
  lemma {:induction false} OutOfContext(re: Re, s: string, i: nat, j: nat, t: Tree, lo: nat, hi: nat)
    requires NoAnchors(re) && lo <= i && j <= hi <= |s| && Derives(re, s, i, j, t)
    ensures i <= j && Derives(re, s[lo..hi], i - lo, j - lo, Back(t, lo))
    decreases t
  {
    SpanInOrder(re, s, i, j, t);
    match re
    case Chars(_) =>
    case Cat(a, b) =>
      SpanInOrder(a, s, i, t.mid, t.l);
      SpanInOrder(b, s, t.mid, j, t.r);
      OutOfContext(a, s, i, t.mid, t.l, lo, hi);
      OutOfContext(b, s, t.mid, j, t.r, lo, hi);
    case Alt(a, b) => OutOfContext(if t.First? then a else b, s, i, j, t.t, lo, hi);
    case Opt(a) => if t.Inner? { OutOfContext(a, s, i, j, t.t, lo, hi); }
    case Plus(a) => OutOfContext(Times(a, t.n), s, i, j, t.t, lo, hi);
    case Times(a, n) =>
      if n != 0 {
        SpanInOrder(Times(a, n - 1), s, i, t.mid, t.l);
        SpanInOrder(a, s, t.mid, j, t.r);
        OutOfContext(Times(a, n - 1), s, i, t.mid, t.l, lo, hi);
        OutOfContext(a, s, t.mid, j, t.r, lo, hi);
      }
    case Group(_, a) => OutOfContext(a, s, i, j, t.t, lo, hi);
  }

  // ---------------------------------------------------------------- repetitions

  /** One character set, as often as the piece is long. */
  lemma {:induction false} AllIn(cs: CharSet, s: string, i: nat, j: nat) returns (t: Tree)
    requires i <= j <= |s| && forall k :: i <= k < j ==> In(s[k], cs)
    ensures Derives(Times(Chars(cs), j - i), s, i, j, t)
  {
    if i == j {
      t := Leaf;
    } else {
      var u := AllIn(cs, s, i, j - 1);
      t := Split(j - 1, u, Leaf);
    }
  }

  /** A repetition of a character set derives nothing else. */
  lemma {:induction false} InAll(cs: CharSet, n: nat, s: string, i: nat, j: nat, t: Tree)
    requires Derives(Times(Chars(cs), n), s, i, j, t)
    ensures j == i + n <= |s| && forall k :: i <= k < j ==> In(s[k], cs)
    decreases n
  {
    if n != 0 {
      assert Derives(Chars(cs), s, t.mid, j, t.r);
      InAll(cs, n - 1, s, i, t.mid, t.l);
    }
  }

  /** A repetition keeps no capture of what it repeats when nothing is captured there. */
  lemma GroupCapture(g: nat, a: Re, i: nat, j: nat, t: Tree)
    requires t.Inner?
    ensures g in Captures(Group(g, a), i, j, t) && Captures(Group(g, a), i, j, t)[g] == (i, j)
  {
  }
}
