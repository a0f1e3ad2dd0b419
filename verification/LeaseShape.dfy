/** What the parts of a lease line look like, character by character, and that the parts of the pattern
    derive exactly those texts. */
module LeaseShape {
  import opened Ere
  import opened LeaseLine
  import Text

  // ---------------------------------------------------------------- shapes

  predicate AllDigits(s: string) {
    s != "" && forall k :: 0 <= k < |s| ==> '0' <= s[k] <= '9'
  }

  predicate HexPair(s: string) {
    |s| == 2 && forall k :: 0 <= k < 2 ==> '0' <= s[k] <= '9' || 'a' <= s[k] <= 'f' || 'A' <= s[k] <= 'F'
  }

  predicate Name(s: string) {
    s != "" && forall k :: 0 <= k < |s| ==>
      'a' <= s[k] <= 'z' || 'A' <= s[k] <= 'Z' || '0' <= s[k] <= '9' || s[k] == '_' || s[k] == '-'
  }

  /** The items one after the other, some with the separator behind them. */
  function Glue(items: seq<string>, seps: seq<bool>, c: char): string
    requires |seps| == |items|
  {
    if items == [] then ""
    else
      var n := |items| - 1;
      Glue(items[..n], seps[..n], c) + items[n] + (if seps[n] then [c] else [])
  }

  predicate HexPairs(items: seq<string>) {
    forall k :: 0 <= k < |items| ==> HexPair(items[k])
  }

  predicate Numbers(items: seq<string>) {
    forall k :: 0 <= k < |items| ==> AllDigits(items[k])
  }

  /** Six pairs of hexadecimal digits, with or without a colon behind each. */
  ghost predicate MacShape(s: string) {
    exists items, seps :: |items| == 6 && |seps| == 6 && HexPairs(items) && s == Glue(items, seps, ':')
  }

  /** Four runs of digits, with or without a dot behind each. */
  ghost predicate IpShape(s: string) {
    exists items, seps :: |items| == 4 && |seps| == 4 && Numbers(items) && s == Glue(items, seps, '.')
  }

  predicate HostShape(s: string) {
    s == "*" || Name(s)
  }

  /** A star, or runs of digits with or without a comma behind each. */
  ghost predicate FingerprintShape(s: string) {
    s == "*" || exists items, seps :: items != [] && |seps| == |items| && Numbers(items) && s == Glue(items, seps, ',')
  }

  predicate VendorShape(s: string) {
    s != "" && '"' !in s
  }

  predicate CidShape(s: string) {
    s != "" && ' ' !in s
  }

  // ---------------------------------------------------------------- what the parts derive

  ghost predicate InLang(re: Re, s: string) {
    exists t :: Derives(re, s, 0, |s|, t)
  }

  /** A piece of a subject that the pattern derives is in its language. */
  lemma PieceInLang(re: Re, s: string, i: nat, j: nat, t: Tree)
    requires NoAnchors(re) && Derives(re, s, i, j, t)
    ensures i <= j <= |s| && InLang(re, s[i..j])
  {
    SpanInOrder(re, s, i, j, t);
    OutOfContext(re, s, i, j, t, i, j);
  }

  predicate AllOf(cs: CharSet, s: string) {
    s != [] && forall k :: 0 <= k < |s| ==> In(s[k], cs)
  }

  lemma PlusLang(cs: CharSet, s: string)
    ensures InLang(Plus(Chars(cs)), s) <==> AllOf(cs, s)
  {
    if AllOf(cs, s) {
      var t := AllIn(cs, s, 0, |s|);
      assert Derives(Plus(Chars(cs)), s, 0, |s|, Repeat(|s|, t));
    }
    if InLang(Plus(Chars(cs)), s) {
      var t :| Derives(Plus(Chars(cs)), s, 0, |s|, t);
      InAll(cs, t.n, s, 0, |s|, t.t);
    }
  }

  lemma StarOrLang(a: Re, s: string)
    ensures InLang(Alt(STAR, a), s) <==> s == "*" || InLang(a, s)
  {
    if s == "*" {
      assert Derives(STAR, s, 0, |s|, Leaf);
      assert Derives(Alt(STAR, a), s, 0, |s|, First(Leaf));
    }
    if InLang(a, s) {
      var t :| Derives(a, s, 0, |s|, t);
      assert Derives(Alt(STAR, a), s, 0, |s|, Second(t));
    }
    if InLang(Alt(STAR, a), s) {
      var t :| Derives(Alt(STAR, a), s, 0, |s|, t);
      if t.First? && Derives(STAR, s, 0, |s|, t.t) {
        assert s == "*";
      } else {
        assert Derives(a, s, 0, |s|, t.t);
      }
    }
  }

  /** The part of a list: what `body` derives, and perhaps the separator, in a group. */
  function Unit(g: nat, body: Re, c: char): Re {
    Group(g, Cat(body, Opt(Chars(Just(c)))))
  }

  /** One item and its separator, at the end of a text. */
  lemma UnitMatches(g: nat, body: Re, c: char, pre: string, item: string, sep: bool) returns (t: Tree)
    requires NoAnchors(body) && InLang(body, item)
    ensures var s := pre + item + (if sep then [c] else []); Derives(Unit(g, body, c), s, |pre|, |s|, t)
  {
    var end := if sep then [c] else [];
    var s := pre + item + end;
    var m := |pre| + |item|;
    var a := PieceInContext(body, item, pre, end);
    var o := if sep then Inner(Leaf) else Leaf;
    if sep { assert s[m] == c && Derives(Chars(Just(c)), s, m, |s|, Leaf); }
    assert Derives(Opt(Chars(Just(c))), s, m, |s|, o);
    t := Inner(Split(m, a, o));
    assert Derives(Cat(body, Opt(Chars(Just(c)))), s, |pre|, |s|, t.t);
  }

  lemma PieceInContext(re: Re, text: string, pre: string, post: string) returns (t: Tree)
    requires NoAnchors(re) && InLang(re, text)
    ensures Derives(re, pre + text + post, |pre|, |pre| + |text|, t)
  {
    var u :| Derives(re, text, 0, |text|, u);
    InContext(re, text, 0, |text|, u, pre, post);
    t := Shift(u, |pre|);
  }

  lemma UnitHasNoAnchors(g: nat, body: Re, c: char)
    requires NoAnchors(body)
    ensures NoAnchors(Unit(g, body, c))
  {
    var one := Chars(Just(c));
    assert NoAnchors(one);
    var o := Opt(one);
    assert NoAnchors(o);
    var k := Cat(body, o);
    assert NoAnchors(k);
  }

  ghost predicate AllInLang(body: Re, items: seq<string>) {
    forall k :: 0 <= k < |items| ==> InLang(body, items[k])
  }

  lemma {:induction false} GlueMatches(g: nat, body: Re, c: char, items: seq<string>, seps: seq<bool>) returns (t: Tree)
    requires NoAnchors(body) && |seps| == |items| && AllInLang(body, items)
    ensures var s := Glue(items, seps, c); Derives(Times(Unit(g, body, c), |items|), s, 0, |s|, t)
  {
    if items == [] {
      t := Leaf;
    } else {
      var n := |items| - 1;
      var pre, end := Glue(items[..n], seps[..n], c), if seps[n] then [c] else [];
      var a := GlueMatches(g, body, c, items[..n], seps[..n]);
      UnitHasNoAnchors(g, body, c);
      InContext(Times(Unit(g, body, c), n), pre, 0, |pre|, a, "", items[n] + end);
      assert "" + pre + (items[n] + end) == pre + items[n] + end;
      var b := UnitMatches(g, body, c, pre, items[n], seps[n]);
      t := Split(|pre|, Shift(a, 0), b);
    }
  }

  /** A derivation of a list cuts it into items and separators. */
  lemma {:induction false} GlueParts(g: nat, body: Re, c: char, n: nat, s: string, i: nat, j: nat, t: Tree)
    returns (items: seq<string>, seps: seq<bool>)
    requires NoAnchors(body) && Derives(Times(Unit(g, body, c), n), s, i, j, t)
    ensures |items| == n && |seps| == n && AllInLang(body, items)
    ensures i <= j <= |s| && s[i..j] == Glue(items, seps, c)
    decreases n
  {
    if n == 0 {
      items, seps := [], [];
    } else {
      items, seps := GlueParts(g, body, c, n - 1, s, i, t.mid, t.l);
      var item, sep := UnitParts(g, body, c, s, t.mid, j, t.r);
      var items', seps' := items + [item], seps + [sep];
      assert items'[..n - 1] == items && seps'[..n - 1] == seps;
      assert s[i..j] == s[i..t.mid] + s[t.mid..j];
      assert s[i..t.mid] + (item + (if sep then [c] else [])) == s[i..t.mid] + item + (if sep then [c] else []);
      items, seps := items', seps';
    }
  }

  lemma UnitParts(g: nat, body: Re, c: char, s: string, i: nat, j: nat, t: Tree) returns (item: string, sep: bool)
    requires NoAnchors(body) && Derives(Unit(g, body, c), s, i, j, t)
    ensures InLang(body, item) && i <= j <= |s| && s[i..j] == item + (if sep then [c] else [])
  {
    var u := t.t;
    assert Derives(Cat(body, Opt(Chars(Just(c)))), s, i, j, u);
    PieceInLang(body, s, i, u.mid, u.l);
    item := s[i..u.mid];
    sep := u.r.Inner?;
    assert Derives(Opt(Chars(Just(c))), s, u.mid, j, u.r);
    if sep { assert Derives(Chars(Just(c)), s, u.mid, j, u.r.t); }
  }

  /** A list of `n` parts is `n` items, some with the separator behind them. */
  lemma ListLang(g: nat, body: Re, c: char, n: nat, s: string)
    requires NoAnchors(body)
    ensures InLang(Times(Unit(g, body, c), n), s) <==>
            exists items, seps :: |items| == n && |seps| == n && AllInLang(body, items) && s == Glue(items, seps, c)
  {
    hide Derives, Glue, AllInLang;
    if InLang(Times(Unit(g, body, c), n), s) {
      var t :| Derives(Times(Unit(g, body, c), n), s, 0, |s|, t);
      var items, seps := GlueParts(g, body, c, n, s, 0, |s|, t);
      assert s[0..|s|] == s;
    }
    forall items, seps | |items| == n && |seps| == n && AllInLang(body, items) && s == Glue(items, seps, c)
      ensures InLang(Times(Unit(g, body, c), n), s)
    {
      var t := GlueMatches(g, body, c, items, seps);
    }
  }

  lemma NumbersLang(items: seq<string>)
    ensures AllInLang(Plus(Chars(Digit)), items) <==> Numbers(items)
  {
    forall k | 0 <= k < |items|
      ensures InLang(Plus(Chars(Digit)), items[k]) <==> AllDigits(items[k])
    {
      PlusLang(Digit, items[k]);
    }
  }

  lemma HexPairLang(s: string)
    ensures InLang(Times(Chars(Hex), 2), s) <==> HexPair(s)
  {
    if HexPair(s) {
      var t := AllIn(Hex, s, 0, 2);
    }
    if InLang(Times(Chars(Hex), 2), s) {
      var t :| Derives(Times(Chars(Hex), 2), s, 0, |s|, t);
      InAll(Hex, 2, s, 0, |s|, t);
    }
  }

  lemma HexPairsLang(items: seq<string>)
    ensures AllInLang(Times(Chars(Hex), 2), items) <==> HexPairs(items)
  {
    forall k | 0 <= k < |items|
      ensures InLang(Times(Chars(Hex), 2), items[k]) <==> HexPair(items[k])
    {
      HexPairLang(items[k]);
    }
  }

  // ---------------------------------------------------------------- the fields

  lemma TimeLang(s: string)
    ensures InLang(Plus(Chars(Digit)), s) <==> AllDigits(s)
  {
    PlusLang(Digit, s);
  }

  lemma MacLang(s: string)
    ensures InLang(HWADDR, s) <==> MacShape(s)
  {
    hide InLang, Glue, HexPairs, AllInLang;
    ListLang(3, Times(Chars(Hex), 2), ':', 6, s);
    forall items: seq<string>
      ensures AllInLang(Times(Chars(Hex), 2), items) <==> HexPairs(items)
    {
      HexPairsLang(items);
    }
  }

  lemma IpLang(s: string)
    ensures InLang(IPADDR, s) <==> IpShape(s)
  {
    hide InLang, Glue, Numbers, AllInLang;
    ListLang(5, Plus(Chars(Digit)), '.', 4, s);
    forall items: seq<string>
      ensures AllInLang(Plus(Chars(Digit)), items) <==> Numbers(items)
    {
      NumbersLang(items);
    }
  }

  lemma HostLang(s: string)
    ensures InLang(HOSTNAME, s) <==> HostShape(s)
  {
    hide InLang;
    StarOrLang(Plus(Chars(NameChar)), s);
    PlusLang(NameChar, s);
  }

  lemma FingerprintLang(s: string)
    ensures InLang(FINGERPRINT, s) <==> FingerprintShape(s)
  {
    StarOrLang(Plus(OPTION_NO), s);
    OptionsLang(s);
  }

  lemma OptionsLang(s: string)
    ensures InLang(Plus(OPTION_NO), s) <==>
            exists items, seps :: items != [] && |seps| == |items| && Numbers(items) && s == Glue(items, seps, ',')
  {
    hide Glue, Numbers, AllInLang;
    if InLang(Plus(OPTION_NO), s) {
      var t :| Derives(Plus(OPTION_NO), s, 0, |s|, t);
      var items, seps := GlueParts(8, Plus(Chars(Digit)), ',', t.n, s, 0, |s|, t.t);
      NumbersLang(items);
      assert s[0..|s|] == s;
    }
    forall items, seps | items != [] && |seps| == |items| && Numbers(items) && s == Glue(items, seps, ',')
      ensures InLang(Plus(OPTION_NO), s)
    {
      NumbersLang(items);
      var t := GlueMatches(8, Plus(Chars(Digit)), ',', items, seps);
      assert Derives(Plus(OPTION_NO), s, 0, |s|, Repeat(|items|, t));
    }
  }

  lemma VendorLang(s: string)
    ensures InLang(VENDOR, s) <==> VendorShape(s)
  {
    hide InLang;
    StarOrLang(Plus(Chars(Not('"'))), s);
    PlusLang(Not('"'), s);
  }

  lemma CidLang(s: string)
    ensures InLang(CID, s) <==> CidShape(s)
  {
    hide InLang;
    PlusLang(Not(' '), s);
  }
}
