/** A whole lease file: what is printed to it, line by line, is what the servers cache. */
module LeaseFile {
  import opened Basics
  import opened Ere
  import opened LeaseLine
  import opened LeaseParse
  import opened LeaseShape
  import Cache = LeaseCache

  /** A line of the file: a lease, and the client identifier behind it, or something else. */
  datatype Entry = Entry(lease: Lease, cid: string) | Junk(line: string)

  /** The line without its newline. */
  function LineOf(e: Entry): string {
    match e
    case Entry(lease, cid) => Line(RawOf(lease), cid)
    case Junk(line) => line
  }

  function Print(e: Entry): (s: string)
    ensures s != ""
  {
    LineOf(e) + "\n"
  }

  function PrintAll(es: seq<Entry>): string {
    if es == [] then "" else Print(es[0]) + PrintAll(es[1..])
  }

  /** The leases among the lines. */
  function LeasesIn(es: seq<Entry>): seq<Lease> {
    if es == [] then [] else (if es[0].Entry? then [es[0].lease] else []) + LeasesIn(es[1..])
  }

  /** A lease can be printed on one line that fits the buffers, and its addresses read back; and anything
      else is not made of seven fields of the right form. */
  ghost predicate EntryOk(e: Entry, z: Sizes, p: Parsers) {
    && (match e
        case Entry(lease, cid) =>
          && Printable(lease, cid) && Fits(RawOf(lease), z) && '\n' !in lease.vendor && '\n' !in cid
          && p.mac(Text.MacText(lease.mac)) == Some(lease.mac) && p.ip(IpText(lease.ip)) == Some(lease.ip)
        case Junk(line) => '\n' !in line && !exists r, cid :: WellFormed(r, cid) && line + "\n" == Line(r, cid))
    && |Print(e)| < Cache.LINE_LEN
  }

  ghost predicate AllOk(es: seq<Entry>, z: Sizes, p: Parsers) {
    forall i {:trigger es[i]} :: 0 <= i < |es| ==> EntryOk(es[i], z, p)
  }

  /** A matcher of whole lines, whichever match it reports. */
  ghost predicate IsMatcher(m: string -> Option<Tree>) {
    forall line {:trigger m(line)} :: Answers(line, m(line))
  }

  /** The line parser that a matcher makes. */
  function ParserOf(m: string -> Option<Tree>, z: Sizes, p: Parsers): Cache.Parser {
    line => ParseLine(line, m(line), z, p)
  }

  // ---------------------------------------------------------------- lines

  /** The only newline of a printed line is its last character. */
  lemma NoNewline(e: Entry, z: Sizes, p: Parsers)
    requires EntryOk(e, z, p)
    ensures '\n' !in LineOf(e)
  {
    if e.Junk? { return; }
    hide Avoids, HostShape, FingerprintShape, VendorShape, CidShape, WellFormed;
    var r := RawOf(e.lease);
    PrintableIsWellFormed(e.lease, e.cid);
    FieldsHoldNo(r, e.cid);
    SpacedHoldsNo(TextsOf(r), '\n');
  }

  lemma FieldsHoldNo(r: Raw, cid: string)
    requires WellFormed(r, cid)
    ensures forall k :: 0 <= k < |TextsOf(r)| ==> '\n' !in TextsOf(r)[k]
  {
    hide InLang, WellFormed;
    WellFormedLang(r, cid);
    HoldsNo(Plus(Chars(Digit)), r.time, '\n');
    HoldsNo(HWADDR, r.mac, '\n');
    HoldsNo(IPADDR, r.ip, '\n');
    HoldsNo(HOSTNAME, r.host, '\n');
    HoldsNo(FINGERPRINT, r.fp, '\n');
  }

  lemma {:induction false} SpacedHoldsNo(texts: seq<string>, c: char)
    requires c != ' ' && forall k :: 0 <= k < |texts| ==> c !in texts[k]
    ensures c !in Spaced(texts)
  {
    if texts != [] { SpacedHoldsNo(texts[1..], c); }
  }

  /** fgets returns a line that fits, whole. */
  lemma LineAtFront(line: string, rest: string)
    requires '\n' !in line && |line| + 1 < Cache.LINE_LEN
    ensures Cache.LineLen(line + "\n" + rest) == |line| + 1
  {
    var s := line + "\n" + rest;
    var n := Cache.LineLen(s);
    assert s[|line|] == '\n';
    assert forall i :: 0 <= i < |line| ==> s[i] == line[i];
  }

  lemma {:induction false} ParseAllOfPrint(es: seq<Entry>, m: string -> Option<Tree>, z: Sizes, p: Parsers)
    requires AllOk(es, z, p) && IsMatcher(m)
    ensures Cache.ParseAll(ParserOf(m, z, p), Cache.Lines(PrintAll(es))) == LeasesIn(es)
  {
    hide Cache.LineLen, EntryOk, ParserOf, Answers, Print;
    if es != [] {
      ParsesBack(es[0], PrintAll(es[1..]), m, z, p);
      ParseAllOfPrint(es[1..], m, z, p);
      var line, rest := Print(es[0]), PrintAll(es[1..]);
      assert (line + rest)[..|line|] == line && (line + rest)[|line|..] == rest;
      var lines := Cache.Lines(line + rest);
      assert lines == [line] + Cache.Lines(rest) && lines[1..] == Cache.Lines(rest);
    }
  }

  /** The line that fgets returns first, and what is parsed out of it. */
  lemma ParsesBack(e: Entry, rest: string, m: string -> Option<Tree>, z: Sizes, p: Parsers)
    requires EntryOk(e, z, p) && IsMatcher(m)
    ensures Cache.LineLen(Print(e) + rest) == |Print(e)|
    ensures ParserOf(m, z, p)(Print(e)) == if e.Entry? then Some(e.lease) else None
  {
    hide Cache.LineLen, Answers, ParseLine, Fits, FingerprintShape, WellFormed, Matches;
    NoNewline(e, z, p);
    LineAtFront(LineOf(e), rest);
    assert Answers(Print(e), m(Print(e)));
    match e
    case Entry(l, cid) =>
      assert Line(RawOf(l), cid + "\n") == Print(e) by { OneLineMore(RawOf(l), cid); }
      ParseOfPrint(l, cid + "\n", m(Print(e)), z, p);
    case Junk(line) =>
      NoLease(Print(e), m(Print(e)), z, p);
  }

  lemma NoLease(line: string, m: Option<Tree>, z: Sizes, p: Parsers)
    requires Answers(line, m) && !exists r, cid :: WellFormed(r, cid) && line == Line(r, cid)
    ensures ParseLine(line, m, z, p) == None
  {
    hide ParseLine, Answers, WellFormed, Line, ParsedAs;
    var l := ParseLine(line, m, z, p);
    if l.Some? { ParseLineIff(line, m, z, p, l.value); }
  }

  lemma OneLineMore(r: Raw, cid: string)
    ensures Line(r, cid + "\n") == Line(r, cid) + "\n"
  {
    hide Spaced;
  }

  /** After an initial load, or a change, of a file of printed leases and other lines, the first server caches
      the first lease of every pair of addresses among them, in the order of the file, and the other servers
      cache nothing. */
  lemma PrintedFileIsCached(d: Cache.Dhcp, es: seq<Entry>, m: string -> Option<Tree>, z: Sizes, p: Parsers, n: nat)
    requires AllOk(es, z, p) && IsMatcher(m)
    ensures var file, parse := Cache.Content(PrintAll(es)), ParserOf(m, z, p);
            && Cache.Step(d, Cache.Load(file), parse, n) == Cache.Step(d, Cache.Change(true, file), parse, n)
            && var after := Cache.Step(d, Cache.Load(file), parse, n).servers;
            && |after| == |d.servers|
            && forall i :: 0 <= i < |after| ==>
                 after[i].leases == if i == 0 then Cache.Firsts(LeasesIn(es)) else []
  {
    hide Cache.Firsts, Cache.Lines, Cache.ParseAll, ParserOf, EntryOk, Answers;
    ParseAllOfPrint(es, m, z, p);
  }
}
