/** Reading a lease out of a matched line, and that a printed lease reads back as it was. */
module LeaseParse {
  import opened Basics
  import opened Ere
  import opened LeaseLine
  import opened LeaseShape
  import Text

  // ---------------------------------------------------------------- reading a match

  /** The texts of the groups that the code copies. */
  datatype Raw = Raw(time: string, mac: string, ip: string, host: string, fp: string, vendor: string)

  /** The sizes of the buffers the texts are copied to, each counting its final NUL. */
  datatype Sizes = Sizes(time: nat, mac: nat, ip: nat, host: nat, fp: nat, vendor: nat)

  type Ip = a: seq<nat> | |a| == 4 && forall k :: 0 <= k < 4 ==> a[k] < 0x100 witness [0, 0, 0, 0]

  datatype Lease = Lease(time: nat, mac: Text.Mac, ip: Ip, host: string, fp: string, vendor: string)

  /** The address parsers are foreign. */
  datatype Parsers = Parsers(mac: string -> Option<Text.Mac>, ip: string -> Option<Ip>)

  function Piece(s: string, caps: Spans, g: nat): string {
    if g in caps && caps[g].0 <= caps[g].1 <= |s| then s[caps[g].0..caps[g].1] else ""
  }

  function Read(s: string, caps: Spans): Raw {
    Raw(Piece(s, caps, 1), Piece(s, caps, 2), Piece(s, caps, 4),
        Piece(s, caps, 6), Piece(s, caps, 7), Piece(s, caps, 9))
  }

  /** What os_reg_match_cpy puts into a buffer of that size. */
  function Copy(s: string, size: nat): (c: string)
    ensures c <= s && |c| == if |s| < size then |s| else if size == 0 then 0 else size - 1
  {
    if |s| < size then s else if size == 0 then "" else s[..size - 1]
  }

  /** The number at the front of a time stamp. */
  function Seconds(s: string): nat {
    Text.Number(s[..Text.DigitRun(s)])
  }

  function Extract(r: Raw, z: Sizes, p: Parsers): Option<Lease> {
    var mac := p.mac(Copy(r.mac, z.mac));
    var ip := p.ip(Copy(r.ip, z.ip));
    if mac.None? then None
    else if ip.None? then None
    else Some(Lease(Seconds(Copy(r.time, z.time)), mac.value, ip.value,
                    Copy(r.host, z.host), Copy(r.fp, z.fp), Copy(r.vendor, z.vendor)))
  }

  /** What a matcher may answer: any match, and none only if there is none. */
  ghost predicate Answers(line: string, m: Option<Tree>) {
    match m
    case Some(t) => Matches(line, t)
    case None => forall t :: !Matches(line, t)
  }

  function ParseLine(line: string, m: Option<Tree>, z: Sizes, p: Parsers): Option<Lease> {
    match m
    case None => None
    case Some(t) => Extract(Read(line, Captures(PATTERN, 0, |line|, t)), z, p)
  }

  /** The lease does not depend on which match the matcher reports. */
  lemma ParseIsDetermined(line: string, m: Option<Tree>, n: Option<Tree>, z: Sizes, p: Parsers)
    requires Answers(line, m) && Answers(line, n)
    ensures ParseLine(line, m, z, p) == ParseLine(line, n, z, p)
  {
    if m.Some? && n.Some? {
      forall g | g in {1, 2, 4, 6, 7, 9}
        ensures Piece(line, Captures(PATTERN, 0, |line|, m.value), g)
             == Piece(line, Captures(PATTERN, 0, |line|, n.value), g)
      {
        Unambiguous(line, m.value, n.value, g);
      }
    }
  }

  // ---------------------------------------------------------------- composing a match

  /** Texts with a space after each. */
  function Spaced(texts: seq<string>): string {
    if texts == [] then "" else texts[0] + (" " + Spaced(texts[1..]))
  }

  ghost predicate TextsOk(fs: seq<Field>, texts: seq<string>) {
    |texts| == |fs| && forall k :: 0 <= k < |fs| ==> NoAnchors(fs[k].re) && InLang(fs[k].re, texts[k])
  }

  /** A field in its group, a space, and the rest. */
  lemma FieldThenRest(f: Field, rest: Re, s: string, i: nat, k: nat, j: nat, a: Tree, b: Tree) returns (t: Tree)
    requires Derives(f.re, s, i, k, a) && k < |s| && s[k] == ' ' && Derives(rest, s, k + 1, j, b)
    ensures Derives(Cat(Group(f.g, f.re), Cat(SPACE, rest)), s, i, j, t)
  {
    assert Derives(SPACE, s, k, k + 1, Leaf);
    var g := Split(k + 1, Leaf, b);
    assert Derives(Cat(SPACE, rest), s, k, j, g);
    assert Derives(Group(f.g, f.re), s, i, k, Inner(a));
    t := Split(k, Inner(a), g);
  }

  /** Fields and the rest, each matched where it stands, match the whole. */
  lemma {:induction false} FieldsMatch(fs: seq<Field>, texts: seq<string>, rest: Re, pre: string, post: string, r: Tree)
    returns (t: Tree)
    requires TextsOk(fs, texts)
    requires var s := pre + Spaced(texts) + post; Derives(rest, s, |pre| + |Spaced(texts)|, |s|, r)
    ensures var s := pre + Spaced(texts) + post; Derives(Fields(fs, rest), s, |pre|, |s|, t)
  {
    var s := pre + Spaced(texts) + post;
    if fs == [] {
      t := r;
    } else {
      hide Derives;
      var x, tail := texts[0], Spaced(texts[1..]);
      var a := PieceInContext(fs[0].re, x, pre, " " + tail + post);
      assert pre + x + (" " + tail + post) == s;
      assert (pre + x + " ") + tail + post == s;
      assert s[|pre| + |x|] == ' ';
      var b := FieldsMatch(fs[1..], texts[1..], rest, pre + x + " ", post, r);
      t := FieldThenRest(fs[0], Fields(fs[1..], rest), s, |pre|, |pre| + |x|, |s|, a, b);
    }
  }

  /** The first of the texts that stand at `i`, and where the others start. */
  lemma FirstText(x: string, tail: string, s: string, i: nat, caps: Spans, g: nat)
    requires ' ' !in x && i + |x| + 1 + |tail| <= |s| && s[i..i + |x| + 1 + |tail|] == x + (" " + tail)
    requires g in caps && caps[g] == (i, NextAt(s, i, ' '))
    ensures NextAt(s, i, ' ') == i + |x| && Piece(s, caps, g) == x
    ensures s[i + |x| + 1..i + |x| + 1 + |tail|] == tail
  {
    var own := s[i..i + |x| + 1 + |tail|];
    assert own[..|x|] == x && own[|x|] == ' ' && own[|x| + 1..] == tail;
    assert s[i..i + |x|] == x && s[i + |x|] == ' ';
    NextAtIs(s, i, i + |x|, ' ');
  }

  /** What the marks of texts that stand at `i` cut out are the texts again. */
  lemma {:induction false} MarkedTexts(fs: seq<Field>, texts: seq<string>, caps: Spans, s: string, i: nat)
    requires |texts| == |fs| && forall k :: 0 <= k < |fs| ==> ' ' !in texts[k]
    requires i + |Spaced(texts)| <= |s| && s[i..i + |Spaced(texts)|] == Spaced(texts)
    requires Marked(fs, caps, s, i)
    ensures After(fs, s, i) == i + |Spaced(texts)|
    ensures forall k :: 0 <= k < |fs| ==> Piece(s, caps, fs[k].g) == texts[k]
  {
    if fs != [] {
      hide Piece, NextAt;
      var x, tail := texts[0], Spaced(texts[1..]);
      FirstText(x, tail, s, i, caps, fs[0].g);
      MarkedTexts(fs[1..], texts[1..], caps, s, i + |x| + 1);
      forall k | 0 < k < |fs|
        ensures Piece(s, caps, fs[k].g) == texts[k]
      {
        assert fs[1..][k - 1] == fs[k] && texts[1..][k - 1] == texts[k];
      }
    }
  }

  // ---------------------------------------------------------------- a whole line

  function TextsOf(r: Raw): seq<string> {
    [r.time, r.mac, r.ip, r.host, r.fp]
  }

  function EndOf(r: Raw, cid: string): string {
    "\"" + r.vendor + "\" " + cid
  }

  function Line(r: Raw, cid: string): string {
    Spaced(TextsOf(r)) + EndOf(r, cid)
  }

  /** Every field looks as the format has it. */
  ghost predicate WellFormed(r: Raw, cid: string) {
    && AllDigits(r.time) && MacShape(r.mac) && IpShape(r.ip) && HostShape(r.host)
    && FingerprintShape(r.fp) && VendorShape(r.vendor) && CidShape(cid)
  }

  lemma WellFormedLang(r: Raw, cid: string)
    ensures WellFormed(r, cid) <==>
            && InLang(Plus(Chars(Digit)), r.time) && InLang(HWADDR, r.mac) && InLang(IPADDR, r.ip)
            && InLang(HOSTNAME, r.host) && InLang(FINGERPRINT, r.fp) && InLang(VENDOR, r.vendor) && InLang(CID, cid)
  {
    hide InLang, MacShape, IpShape, FingerprintShape;
    TimeLang(r.time);
    MacLang(r.mac);
    IpLang(r.ip);
    HostLang(r.host);
    FingerprintLang(r.fp);
    VendorLang(r.vendor);
    CidLang(cid);
  }

  lemma EndingMatches(pre: string, r: Raw, cid: string) returns (t: Tree)
    requires InLang(VENDOR, r.vendor) && InLang(CID, cid)
    ensures var s := pre + EndOf(r, cid); Derives(ENDING, s, |pre|, |s|, t)
  {
    var s := pre + EndOf(r, cid);
    var v := |pre| + 1 + |r.vendor|;
    var a := PieceInContext(VENDOR, r.vendor, pre + "\"", "\" " + cid);
    assert pre + "\"" + r.vendor + ("\" " + cid) == s;
    var b := PieceInContext(CID, cid, pre + "\"" + r.vendor + "\" ", "");
    assert pre + "\"" + r.vendor + "\" " + cid + "" == s;
    assert s[|pre|] == '"' && s[v] == '"' && s[v + 1] == ' ' && v + 2 + |cid| == |s|;
    var e := Split(|s|, b, Leaf);
    assert Derives(Eol, s, |s|, |s|, Leaf);
    assert Derives(Cat(CID, Eol), s, v + 2, |s|, e);
    var f := Split(v + 2, Leaf, e);
    assert Derives(SPACE, s, v + 1, v + 2, Leaf);
    assert Derives(Cat(SPACE, Cat(CID, Eol)), s, v + 1, |s|, f);
    var g := Split(v + 1, Leaf, f);
    assert Derives(QUOTE, s, v, v + 1, Leaf);
    assert Derives(Cat(QUOTE, Cat(SPACE, Cat(CID, Eol))), s, v, |s|, g);
    assert Derives(Group(9, VENDOR), s, |pre| + 1, v, Inner(a));
    var h := Split(v, Inner(a), g);
    assert Derives(Cat(Group(9, VENDOR), Cat(QUOTE, Cat(SPACE, Cat(CID, Eol)))), s, |pre| + 1, |s|, h);
    assert Derives(QUOTE, s, |pre|, |pre| + 1, Leaf);
    t := Split(|pre| + 1, Leaf, h);
  }

  /** A line of well-formed fields matches the pattern. */
  lemma LineMatches(r: Raw, cid: string) returns (t: Tree)
    requires WellFormed(r, cid)
    ensures Matches(Line(r, cid), t)
  {
    hide Derives, InLang, WellFormed;
    WellFormedLang(r, cid);
    var s := Line(r, cid);
    var four, texts := FIVE[1..], [r.mac, r.ip, r.host, r.fp];
    var pre := r.time + " ";
    assert Spaced(TextsOf(r)) == pre + Spaced(texts) by { assert TextsOf(r)[1..] == texts; }
    assert pre + Spaced(texts) + EndOf(r, cid) == s;
    var e := EndingMatches(pre + Spaced(texts), r, cid);
    var f := FieldsMatch(four, texts, ENDING, pre, EndOf(r, cid), e);
    var a := TimeMatches(r.time, " " + Spaced(texts) + EndOf(r, cid));
    assert r.time + (" " + Spaced(texts) + EndOf(r, cid)) == s;
    t := FieldThenRest(FIVE[0], Fields(four, ENDING), s, 0, |r.time|, |s|, a, f);
    assert PATTERN == Cat(Group(FIVE[0].g, FIVE[0].re), Cat(SPACE, Fields(four, ENDING)));
  }

  lemma TimeMatches(time: string, post: string) returns (t: Tree)
    requires InLang(Plus(Chars(Digit)), time)
    ensures Derives(TIMESTAMP, time + post, 0, |time|, t)
  {
    var a := PieceInContext(Plus(Chars(Digit)), time, "", post);
    assert "" + time + post == time + post;
    assert Derives(Bol, time + post, 0, 0, Leaf);
    t := Split(0, Leaf, a);
  }

  lemma HoldsNo(re: Re, text: string, c: char)
    requires InLang(re, text) && Avoids(re, c)
    ensures c !in text
  {
    var t :| Derives(re, text, 0, |text|, t);
    AvoidsIsFree(re, text, 0, |text|, t, c);
    assert text[0..|text|] == text;
  }

  lemma NoSpaces(r: Raw, cid: string)
    requires WellFormed(r, cid)
    ensures ' ' !in r.time && ' ' !in r.mac && ' ' !in r.ip && ' ' !in r.host && ' ' !in r.fp && '"' !in r.vendor
  {
    hide InLang, WellFormed;
    WellFormedLang(r, cid);
    HoldsNo(Plus(Chars(Digit)), r.time, ' ');
    HoldsNo(HWADDR, r.mac, ' ');
    HoldsNo(IPADDR, r.ip, ' ');
    HoldsNo(HOSTNAME, r.host, ' ');
    HoldsNo(FINGERPRINT, r.fp, ' ');
    HoldsNo(VENDOR, r.vendor, '"');
  }

  /** Whatever match of a printed line is reported, reading it gives the printed texts. */
  lemma ReadOfLine(r: Raw, cid: string, t: Tree)
    requires WellFormed(r, cid) && Matches(Line(r, cid), t)
    ensures Read(Line(r, cid), Captures(PATTERN, 0, |Line(r, cid)|, t)) == r
  {
    hide Derives, Captures, WellFormed, NextAt;
    var s := Line(r, cid);
    var caps := Captures(PATTERN, 0, |s|, t);
    CapturesAreMarked(s, t);
    NoSpaces(r, cid);
    assert s[0..0 + |Spaced(TextsOf(r))|] == Spaced(TextsOf(r));
    MarkedTexts(FIVE, TextsOf(r), caps, s, 0);
    assert Piece(s, caps, FIVE[0].g) == TextsOf(r)[0] && Piece(s, caps, FIVE[1].g) == TextsOf(r)[1];
    assert Piece(s, caps, FIVE[2].g) == TextsOf(r)[2] && Piece(s, caps, FIVE[3].g) == TextsOf(r)[3];
    assert Piece(s, caps, FIVE[4].g) == TextsOf(r)[4];
    VendorOfLine(r, cid, caps);
  }

  lemma VendorOfLine(r: Raw, cid: string, caps: Spans)
    requires '"' !in r.vendor && After(FIVE, Line(r, cid), 0) == |Spaced(TextsOf(r))|
    requires AsMarked(caps, Line(r, cid))
    ensures Piece(Line(r, cid), caps, 9) == r.vendor
  {
    var s, q := Line(r, cid), |Spaced(TextsOf(r))| + 1;
    assert s == Spaced(TextsOf(r)) + "\"" + r.vendor + ("\" " + cid);
    assert s[q..q + |r.vendor|] == r.vendor && s[q + |r.vendor|] == '"';
    NextAtIs(s, q, q + |r.vendor|, '"');
  }

  // ---------------------------------------------------------------- which lines match

  /** The first field of a derivation, its space, and what is left. */
  lemma OneField(f: Field, rest: Re, s: string, i: nat, j: nat, t: Tree)
    requires NoAnchors(f.re) && Derives(Cat(Group(f.g, f.re), Cat(SPACE, rest)), s, i, j, t)
    ensures t.Split? && t.r.Split? && i <= t.mid < |s| && s[t.mid] == ' '
    ensures InLang(f.re, s[i..t.mid]) && Derives(rest, s, t.mid + 1, j, t.r.r)
  {
    assert Derives(Group(f.g, f.re), s, i, t.mid, t.l);
    assert Derives(f.re, s, i, t.mid, t.l.t);
    PieceInLang(f.re, s, i, t.mid, t.l.t);
    assert Derives(Cat(SPACE, rest), s, t.mid, j, t.r);
    assert Derives(SPACE, s, t.mid, t.r.mid, t.r.l);
  }

  lemma {:induction false} FieldsTexts(fs: seq<Field>, rest: Re, s: string, i: nat, j: nat, t: Tree)
    returns (texts: seq<string>, k: nat, u: Tree)
    requires (forall n :: 0 <= n < |fs| ==> NoAnchors(fs[n].re)) && i <= |s| && Derives(Fields(fs, rest), s, i, j, t)
    ensures TextsOk(fs, texts) && i <= k <= |s| && s[i..k] == Spaced(texts) && Derives(rest, s, k, j, u)
  {
    if fs == [] {
      texts, k, u := [], i, t;
    } else {
      hide Derives, InLang;
      OneField(fs[0], Fields(fs[1..], rest), s, i, j, t);
      var more;
      more, k, u := FieldsTexts(fs[1..], rest, s, t.mid + 1, j, t.r.r);
      texts := [s[i..t.mid]] + more;
      assert texts[1..] == more;
      assert s[i..k] == s[i..t.mid] + (" " + s[t.mid + 1..k]);
      forall n | 0 <= n < |fs|
        ensures NoAnchors(fs[n].re) && InLang(fs[n].re, texts[n])
      {
        assert 0 < n ==> fs[1..][n - 1] == fs[n] && more[n - 1] == texts[n];
      }
    }
  }

  lemma EndingTexts(s: string, i: nat, t: Tree) returns (vendor: string, cid: string)
    requires i <= |s| && Derives(ENDING, s, i, |s|, t)
    ensures InLang(VENDOR, vendor) && InLang(CID, cid) && s[i..] == "\"" + vendor + "\" " + cid
  {
    hide InLang;
    assert Derives(QUOTE, s, i, t.mid, t.l);
    var t1 := t.r;
    assert Derives(Cat(Group(9, VENDOR), Cat(QUOTE, Cat(SPACE, Cat(CID, Eol)))), s, i + 1, |s|, t1);
    assert Derives(Group(9, VENDOR), s, i + 1, t1.mid, t1.l);
    PieceInLang(VENDOR, s, i + 1, t1.mid, t1.l.t);
    var t2 := t1.r;
    assert Derives(Cat(QUOTE, Cat(SPACE, Cat(CID, Eol))), s, t1.mid, |s|, t2);
    assert Derives(QUOTE, s, t1.mid, t2.mid, t2.l);
    var k := t1.mid;
    vendor := s[i + 1..k];
    cid := CidText(s, k + 1, t2.r);
    assert s[i..] == "\"" + vendor + "\" " + s[k + 2..];
  }

  lemma CidText(s: string, k: nat, t: Tree) returns (cid: string)
    requires k <= |s| && Derives(Cat(SPACE, Cat(CID, Eol)), s, k, |s|, t)
    ensures k < |s| && s[k] == ' ' && cid == s[k + 1..] && InLang(CID, cid)
  {
    hide InLang;
    assert Derives(SPACE, s, k, t.mid, t.l);
    var u := t.r;
    assert Derives(Cat(CID, Eol), s, t.mid, |s|, u);
    assert Derives(Eol, s, u.mid, |s|, u.r);
    PieceInLang(CID, s, k + 1, |s|, u.l);
    cid := s[k + 1..|s|];
  }

  lemma TimeText(s: string, k: nat, t: Tree)
    requires Derives(TIMESTAMP, s, 0, k, t)
    ensures k <= |s| && InLang(Plus(Chars(Digit)), s[..k])
  {
    assert Derives(Bol, s, 0, t.mid, t.l);
    PieceInLang(Plus(Chars(Digit)), s, 0, k, t.r);
    assert s[0..k] == s[..k];
  }

  /** A line that matches is made of seven fields of the right form, with their delimiters. */
  lemma MatchIsLine(line: string, t: Tree) returns (r: Raw, cid: string)
    requires Matches(line, t)
    ensures WellFormed(r, cid) && line == Line(r, cid)
  {
    hide Derives, InLang, WellFormed;
    var four := FIVE[1..];
    assert PATTERN == Cat(Group(FIVE[0].g, FIVE[0].re), Cat(SPACE, Fields(four, ENDING)));
    var k := FirstField(TIMESTAMP, Fields(four, ENDING), line, t);
    var time := line[..k];
    var texts, e, u := FieldsTexts(four, ENDING, line, k + 1, |line|, t.r.r);
    var vendor;
    vendor, cid := EndingTexts(line, e, u);
    r := Raw(time, texts[0], texts[1], texts[2], texts[3], vendor);
    assert four[0].re == HWADDR && four[1].re == IPADDR && four[2].re == HOSTNAME && four[3].re == FINGERPRINT;
    WellFormedLang(r, cid);
    assert TextsOf(r)[1..] == texts;
    assert line == line[..k] + (" " + line[k + 1..e]) + line[e..];
  }

  lemma FirstField(time: Re, rest: Re, line: string, t: Tree) returns (k: nat)
    requires time == TIMESTAMP && Derives(Cat(Group(1, time), Cat(SPACE, rest)), line, 0, |line|, t)
    ensures k < |line| && line[k] == ' ' && InLang(Plus(Chars(Digit)), line[..k])
    ensures t.Split? && t.r.Split? && Derives(rest, line, k + 1, |line|, t.r.r)
  {
    k := t.mid;
    assert Derives(Group(1, time), line, 0, k, t.l);
    TimeText(line, k, t.l.t);
    assert Derives(Cat(SPACE, rest), line, k, |line|, t.r);
    assert Derives(SPACE, line, k, t.r.mid, t.r.l);
  }

  /** The lines that match are exactly the lines of seven fields of the right form. */
  lemma MatchesIff(line: string)
    ensures (exists t :: Matches(line, t)) <==> exists r, cid :: WellFormed(r, cid) && line == Line(r, cid)
  {
    hide Matches, WellFormed, Line;
    if t :| Matches(line, t) {
      var r, cid := MatchIsLine(line, t);
    }
    if r, cid :| WellFormed(r, cid) && line == Line(r, cid) {
      var t := LineMatches(r, cid);
    }
  }

  /** The lease that is read out of the texts: each cut to its buffer, the addresses parsed, and the time
      the number that is left of its text. */
  predicate ParsedAs(l: Lease, r: Raw, z: Sizes, p: Parsers) {
    && p.mac(Copy(r.mac, z.mac)) == Some(l.mac) && p.ip(Copy(r.ip, z.ip)) == Some(l.ip)
    && l.host == Copy(r.host, z.host) && l.fp == Copy(r.fp, z.fp) && l.vendor == Copy(r.vendor, z.vendor)
    && var time := Copy(r.time, z.time); if time == "" then l.time == 0 else Text.Spells(time, 10, l.time)
  }

  lemma TimeIs(time: string)
    requires forall k :: 0 <= k < |time| ==> '0' <= time[k] <= '9'
    ensures time == "" ==> Seconds(time) == 0
    ensures time != "" ==> forall n: nat :: Text.Spells(time, 10, n) <==> Seconds(time) == n
  {
    hide Text.Spells;
    Text.DigitRunOf(time, "");
    assert time + "" == time && time[..|time|] == time;
    if time != "" { Text.NumberSpells(time); }
    forall n: nat | Text.Spells(time, 10, n)
      ensures n == Seconds(time)
    {
      Text.SpellsDecimal(time, n);
    }
  }

  lemma ExtractIff(l: Lease, r: Raw, z: Sizes, p: Parsers)
    requires AllDigits(r.time)
    ensures Extract(r, z, p) == Some(l) <==> ParsedAs(l, r, z, p)
  {
    hide Text.Spells, Seconds;
    var time := Copy(r.time, z.time);
    assert forall k :: 0 <= k < |time| ==> time[k] == r.time[k];
    TimeIs(time);
  }

  /** What parsing a line gives, whatever match the matcher reports: that lease for a line of seven fields
      of the right form whose addresses can be parsed, and none for any other line. */
  lemma ParseLineIff(line: string, m: Option<Tree>, z: Sizes, p: Parsers, l: Lease)
    requires Answers(line, m)
    ensures ParseLine(line, m, z, p) == Some(l) <==>
            exists r, cid :: WellFormed(r, cid) && line == Line(r, cid) && ParsedAs(l, r, z, p)
  {
    hide Matches, Line, ParsedAs, Read, Extract, MacShape, IpShape, HostShape, FingerprintShape, VendorShape, CidShape;
    MatchesIff(line);
    if m.Some? {
      var r, cid := MatchIsLine(line, m.value);
      ReadOfLine(r, cid, m.value);
      ExtractIff(l, r, z, p);
    }
    forall r, cid | WellFormed(r, cid) && line == Line(r, cid) && ParsedAs(l, r, z, p)
      ensures ParseLine(line, m, z, p) == Some(l)
    {
      var t := LineMatches(r, cid);
      ReadOfLine(r, cid, m.value);
      ExtractIff(l, r, z, p);
    }
  }

  predicate Fits(r: Raw, z: Sizes) {
    && |r.time| < z.time && |r.mac| < z.mac && |r.ip| < z.ip
    && |r.host| < z.host && |r.fp| < z.fp && |r.vendor| < z.vendor
  }

  // ---------------------------------------------------------------- printing a lease

  function Between(n: nat): (seps: seq<bool>)
    ensures |seps| == n
  {
    seq(n, k => k + 1 < n)
  }

  function Everywhere(n: nat): (seps: seq<bool>)
    ensures |seps| == n
  {
    seq(n, k => true)
  }

  /** Joining is gluing with every separator but the last. */
  lemma {:induction false} JoinIsGlue(items: seq<string>, c: char)
    requires items != []
    ensures Glue(items, Everywhere(|items|), c) == Text.Join(items, c) + [c]
    ensures Glue(items, Between(|items|), c) == Text.Join(items, c)
  {
    var n := |items| - 1;
    assert Everywhere(n + 1)[..n] == Everywhere(n) && Between(n + 1)[..n] == Everywhere(n);
    if 0 < n {
      JoinIsGlue(items[..n], c);
      Text.JoinSnoc(items[..n], items[n], c);
      assert items[..n] + [items[n]] == items;
    }
  }

  function IpText(a: Ip): string {
    Text.Join(seq(4, k requires 0 <= k < 4 => Text.Digits(a[k])), '.')
  }

  /** A lease that dnsmasq can write, and a client identifier. */
  ghost predicate Printable(l: Lease, cid: string) {
    HostShape(l.host) && FingerprintShape(l.fp) && VendorShape(l.vendor) && CidShape(cid)
  }

  function RawOf(l: Lease): Raw {
    Raw(Text.Digits(l.time), Text.MacText(l.mac), IpText(l.ip), l.host, l.fp, l.vendor)
  }

  lemma DigitsShape(n: nat)
    ensures AllDigits(Text.Digits(n))
  {
    assert forall k :: 0 <= k < |Text.Digits(n)| ==> Text.IsDigit(Text.Digits(n)[k]);
  }

  lemma MacHasShape(m: Text.Mac)
    ensures MacShape(Text.MacText(m))
  {
    JoinIsGlue(Text.HexBytes(m), ':');
    assert HexPairs(Text.HexBytes(m));
  }

  lemma IpHasShape(a: Ip)
    ensures IpShape(IpText(a))
  {
    hide Text.Digits, AllDigits;
    var items := seq(4, k requires 0 <= k < 4 => Text.Digits(a[k]));
    forall k | 0 <= k < 4
      ensures AllDigits(items[k])
    {
      DigitsShape(a[k]);
    }
    JoinIsGlue(items, '.');
    assert Numbers(items);
  }

  lemma PrintableIsWellFormed(l: Lease, cid: string)
    requires Printable(l, cid)
    ensures WellFormed(RawOf(l), cid)
  {
    hide AllDigits, MacShape, IpShape;
    DigitsShape(l.time);
    MacHasShape(l.mac);
    IpHasShape(l.ip);
  }

  /** Parsing a printed lease whose fields fit their buffers gives exactly that lease, whichever match is
      reported and even when the vendor class holds spaces. */
  lemma ParseOfPrint(l: Lease, cid: string, m: Option<Tree>, z: Sizes, p: Parsers)
    requires Printable(l, cid) && Fits(RawOf(l), z)
    requires p.mac(Text.MacText(l.mac)) == Some(l.mac) && p.ip(IpText(l.ip)) == Some(l.ip)
    requires Answers(Line(RawOf(l), cid), m)
    ensures ParseLine(Line(RawOf(l), cid), m, z, p) == Some(l)
  {
    PrintableIsWellFormed(l, cid);
    var t := LineMatches(RawOf(l), cid);
    ReadOfLine(RawOf(l), cid, m.value);
    SecondsOfDigits(l.time);
  }

  lemma SecondsOfDigits(n: nat)
    ensures Seconds(Text.Digits(n)) == n
  {
    Text.DigitRunOf(Text.Digits(n), []);
    assert Text.Digits(n) + [] == Text.Digits(n) && Text.Digits(n)[..|Text.Digits(n)|] == Text.Digits(n);
    Text.NumberOfDigits(n);
  }

  // ---------------------------------------------------------------- a group that is not read

  /** A run of digits as one part, without a dot. */
  lemma Run(s: string, i: nat, j: nat) returns (t: Tree)
    requires i < j <= |s| && forall k :: i <= k < j ==> In(s[k], Digit)
    ensures Derives(PART, s, i, j, t) && t.Inner?
    ensures 5 in Captures(PART, i, j, t) && Captures(PART, i, j, t)[5] == (i, j)
  {
    var r := AllIn(Digit, s, i, j);
    assert Derives(Plus(Chars(Digit)), s, i, j, Repeat(j - i, r));
    assert Derives(Opt(Chars(Just('.'))), s, j, j, Leaf);
    t := Inner(Split(j, Repeat(j - i, r), Leaf));
    assert Derives(Cat(Plus(Chars(Digit)), Opt(Chars(Just('.')))), s, i, j, t.t);
  }

  /** Digits without dots, cut into four parts at any places. */
  lemma FourParts(s: string, i: nat, a: nat, b: nat, c: nat, j: nat) returns (t: Tree)
    requires i < a < b < c < j <= |s| && forall k :: i <= k < j ==> In(s[k], Digit)
    ensures Derives(IPADDR, s, i, j, t) && 5 in Captures(IPADDR, i, j, t) && Captures(IPADDR, i, j, t)[5] == (c, j)
  {
    hide In;
    var one := Run(s, i, a);
    var two := Run(s, a, b);
    var three := Run(s, b, c);
    var four := Run(s, c, j);
    assert Derives(Times(PART, 0), s, i, i, Leaf);
    var t1 := Split(i, Leaf, one);
    assert Derives(Times(PART, 1), s, i, a, t1);
    var t2 := Split(a, t1, two);
    assert Derives(Times(PART, 2), s, i, b, t2);
    var t3 := Split(b, t2, three);
    assert Derives(Times(PART, 3), s, i, c, t3);
    t := Split(c, t3, four);
  }

  /** A match with another derivation of what comes after its first field. */
  lemma WithRest(f: Field, rest: Re, s: string, i: nat, j: nat, t: Tree, b: Tree) returns (u: Tree)
    requires Derives(Cat(Group(f.g, f.re), Cat(SPACE, rest)), s, i, j, t) && Avoids(f.re, ' ')
    requires Derives(rest, s, NextAt(s, i, ' ') + 1, j, b)
    ensures Derives(Cat(Group(f.g, f.re), Cat(SPACE, rest)), s, i, j, u)
    ensures Keeps(Captures(Cat(Group(f.g, f.re), Cat(SPACE, rest)), i, j, u),
                  Captures(rest, NextAt(s, i, ' ') + 1, j, b))
  {
    var k := NextAt(s, i, ' ');
    FieldEnds(Group(f.g, f.re), ' ', rest, s, i, j, t);
    var g := Split(k + 1, Leaf, b);
    assert Derives(SPACE, s, k, k + 1, Leaf);
    assert Derives(Cat(SPACE, rest), s, k, j, g);
    u := Split(k, t.l, g);
    assert Captures(Cat(SPACE, rest), k, j, g) == Captures(SPACE, k, k + 1, Leaf) + Captures(rest, k + 1, j, b);
  }

  /** The rest of the pattern from the address on, with another derivation of the address. */
  lemma AddressRest(rest: Re, s: string, i: nat, j: nat, t: Tree, a: Tree) returns (u: Tree)
    requires Derives(Cat(Group(4, IPADDR), Cat(SPACE, rest)), s, i, j, t) && Above(rest, 5)
    requires Derives(IPADDR, s, i, NextAt(s, i, ' '), a) && 5 in Captures(IPADDR, i, NextAt(s, i, ' '), a)
    ensures Derives(Cat(Group(4, IPADDR), Cat(SPACE, rest)), s, i, j, u)
    ensures var caps := Captures(Cat(Group(4, IPADDR), Cat(SPACE, rest)), i, j, u);
            5 in caps && caps[5] == Captures(IPADDR, i, NextAt(s, i, ' '), a)[5]
  {
    var k := NextAt(s, i, ' ');
    FieldEnds(Group(4, IPADDR), ' ', rest, s, i, j, t);
    u := Split(k, Inner(a), t.r);
    assert Derives(Group(4, IPADDR), s, i, k, Inner(a));
    assert Above(Cat(SPACE, rest), 5);
    CapturesAreAbove(Cat(SPACE, rest), k, j, t.r, 5);
  }

  /** The whole line, with another derivation of the address. */
  lemma WithAddress(s: string, t: Tree, a: Tree) returns (u: Tree)
    requires Matches(s, t)
    requires var i := After(FIVE[..2], s, 0); var k := NextAt(s, i, ' ');
             Derives(IPADDR, s, i, k, a) && 5 in Captures(IPADDR, i, k, a)
    ensures Matches(s, u) && 5 in Captures(PATTERN, 0, |s|, u)
    ensures var i := After(FIVE[..2], s, 0);
            Captures(PATTERN, 0, |s|, u)[5] == Captures(IPADDR, i, NextAt(s, i, ' '), a)[5]
  {
    hide Derives, Captures, NextAt, Avoids;
    var two, three, rest := Fields(FIVE[1..], ENDING), Fields(FIVE[2..], ENDING), Fields(FIVE[3..], ENDING);
    Unfolded();
    var m := NextAt(s, 0, ' ') + 1;
    var i := NextAt(s, m, ' ') + 1;
    AddressAt(s);
    FieldEnds(Group(1, TIMESTAMP), ' ', two, s, 0, |s|, t);
    FieldEnds(Group(2, HWADDR), ' ', three, s, m, |s|, t.r.r);
    var x := AddressRest(rest, s, i, |s|, t.r.r.r.r, a);
    var y := WithRest(FIVE[1], three, s, m, |s|, t.r.r, x);
    u := WithRest(FIVE[0], two, s, 0, |s|, t, y);
  }

  lemma AddressAt(s: string)
    ensures After(FIVE[..2], s, 0) == NextAt(s, NextAt(s, 0, ' ') + 1, ' ') + 1
  {
    hide NextAt;
    var m := NextAt(s, 0, ' ') + 1;
    assert FIVE[..2][1..] == [FIVE[1]] && [FIVE[1]][1..] == [];
    assert After([FIVE[1]], s, m) == After([], s, NextAt(s, m, ' ') + 1);
    assert After(FIVE[..2], s, 0) == After([FIVE[1]], s, m);
  }

  /** The pattern, field by field as far as the address, and what is known of its parts. */
  lemma Unfolded()
    ensures var two, three, rest := Fields(FIVE[1..], ENDING), Fields(FIVE[2..], ENDING), Fields(FIVE[3..], ENDING);
            && PATTERN == Cat(Group(1, TIMESTAMP), Cat(SPACE, two))
            && two == Cat(Group(2, HWADDR), Cat(SPACE, three))
            && three == Cat(Group(4, IPADDR), Cat(SPACE, rest))
            && Above(rest, 5)
    ensures Avoids(Group(1, TIMESTAMP), ' ') && Avoids(Group(2, HWADDR), ' ')
    ensures Avoids(TIMESTAMP, ' ') && Avoids(HWADDR, ' ')
  {
    hide Above;
    LastAbove();
    assert FIVE[1..][1..] == FIVE[2..] && FIVE[2..][1..] == FIVE[3..];
  }

  lemma LastAbove()
    ensures Above(Fields(FIVE[3..], ENDING), 5)
  {
    hide FieldsOk, Fields;
    var last := LastOneOk();
    last := OneMore(Field(6, HOSTNAME), last, ENDING, 5);
    assert FIVE[3..] == last;
  }

  /** Where the address of a printed line is. */
  lemma AddressOfLine(r: Raw, cid: string, t: Tree)
    requires WellFormed(r, cid) && Matches(Line(r, cid), t) && r.ip != ""
    ensures var s := Line(r, cid); var i := After(FIVE[..2], s, 0); var k := NextAt(s, i, ' ');
            i <= k <= |s| && s[i..k] == r.ip
  {
    hide Derives, Captures, NextAt, InLang;
    var s := Line(r, cid);
    var caps := Captures(PATTERN, 0, |s|, t);
    CapturesAreMarked(s, t);
    ReadOfLine(r, cid, t);
    AddressAt(s);
    MarkedAddress(s, caps);
  }

  lemma MarkedAddress(s: string, caps: Spans)
    requires Marked(FIVE, caps, s, 0)
    ensures var i := NextAt(s, NextAt(s, 0, ' ') + 1, ' ') + 1; 4 in caps && caps[4] == (i, NextAt(s, i, ' '))
  {
    hide NextAt;
    assert FIVE[1..][1..] == FIVE[2..] && FIVE[2].g == 4;
    assert Marked(FIVE[1..], caps, s, NextAt(s, 0, ' ') + 1);
  }

  /** The group inside the address part is ambiguous: every line whose address is a run of five or more digits
      has two matches that give it different spans.  The code does not read it. */
  lemma InnerGroupIsAmbiguous(r: Raw, cid: string) returns (t: Tree, u: Tree)
    requires WellFormed(r, cid) && AllDigits(r.ip) && 5 <= |r.ip|
    ensures var s := Line(r, cid);
            && Matches(s, t) && 5 in Captures(PATTERN, 0, |s|, t)
            && Matches(s, u) && 5 in Captures(PATTERN, 0, |s|, u)
            && Captures(PATTERN, 0, |s|, t)[5] != Captures(PATTERN, 0, |s|, u)[5]
  {
    hide Derives, Captures, NextAt, After, InLang, Line;
    var s := Line(r, cid);
    var m := LineMatches(r, cid);
    AddressOfLine(r, cid, m);
    var i := After(FIVE[..2], s, 0);
    var k := NextAt(s, i, ' ');
    assert forall j :: i <= j < k ==> s[j] == s[i..k][j - i];
    var a := FourParts(s, i, i + 1, i + 2, i + 3, k);
    var b := FourParts(s, i, i + 2, i + 3, i + 4, k);
    t := WithAddress(s, m, a);
    u := WithAddress(s, m, b);
  }
}
