/** The two halves of the band-steering tools together: what bs_cmd encodes, bs_testd decodes. */
module BsRoundTrip {
  import opened Basics
  import opened Text
  import Enc = BsCmd
  import Dec = BsTestd

  const SEP := Enc.SEP
  const NUL := Enc.NUL

  // ---------------------------------------------------------------- parameter files

  datatype Field = Field(key: string, text: string)

  function Line(f: Field): string {
    f.key + "=" + f.text + "\n"
  }

  function Lines(fs: seq<Field>): (ls: seq<string>)
    ensures |ls| == |fs| && forall i :: 0 <= i < |fs| ==> ls[i] == Line(fs[i])
  {
    seq(|fs|, i requires 0 <= i < |fs| => Line(fs[i]))
  }

  function Texts(fs: seq<Field>): (ts: seq<string>)
    ensures |ts| == |fs| && forall i :: 0 <= i < |fs| ==> ts[i] == fs[i].text
  {
    seq(|fs|, i requires 0 <= i < |fs| => fs[i].text)
  }

  /** A text that the separators of the command and the C string functions leave alone. */
  predicate Plain(s: string) {
    SEP !in s && NUL !in s
  }

  predicate FieldOk(f: Field, keys: set<string>) {
    f.key in keys && '=' !in f.key && NUL !in f.key && Plain(f.text)
  }

  ghost predicate FieldsOk(fs: seq<Field>, keys: set<string>) {
    forall i {:trigger FieldOk(fs[i], keys)} :: 0 <= i < |fs| ==> FieldOk(fs[i], keys)
  }

  ghost predicate AllPlain(ts: seq<string>) {
    forall i {:trigger Plain(ts[i])} :: 0 <= i < |ts| ==> Plain(ts[i])
  }

  /** The value of a line is what stands between the first `=` and the last character, whatever that is. */
  lemma LineIsCut(key: string, value: string, last: char)
    requires '=' !in key
    ensures Enc.KeyOf(key + "=" + value + [last]) == key && Enc.ValueOf(key + "=" + value + [last]) == value
  {
    var line, rest := key + "=" + value + [last], "=" + value + [last];
    assert line == key + rest;
    FindOf(key, '=', rest);
    assert line[|key| + 1..] == value + [last];
  }

  lemma LineParts(f: Field, keys: set<string>)
    requires FieldOk(f, keys)
    ensures Enc.LineOk(Line(f)) && Enc.KeyOf(Line(f)) == f.key && Enc.ValueOf(Line(f)) == f.text
  {
    LineIsCut(f.key, f.text, '\n');
    assert Line(f) == f.key + ("=" + f.text + "\n");
    FindOf(f.key, '=', "=" + f.text + "\n");
  }

  /** A file of such lines is encoded whole, and its values are the texts. */
  lemma LinesParts(fs: seq<Field>, keys: set<string>)
    requires FieldsOk(fs, keys)
    ensures Enc.LinesOk(Lines(fs)) && Enc.KeysIn(Lines(fs), keys) && Enc.Values(Lines(fs)) == Texts(fs)
  {
    forall i | 0 <= i < |fs|
      ensures Enc.LineOk(Lines(fs)[i]) && Enc.KeyOf(Lines(fs)[i]) in keys && Enc.ValueOf(Lines(fs)[i]) == fs[i].text
    {
      assert FieldOk(fs[i], keys);
      LineParts(fs[i], keys);
    }
    Enc.KeysInIff(Lines(fs), keys);
  }

  // ---------------------------------------------------------------- commands

  /** The pieces that the encoder writes are the tokens, joined. */
  lemma {:induction false} TailJoins(head: seq<string>, values: seq<string>)
    requires head != []
    ensures Join(head, SEP) + Enc.Tail(values) == Join(head + values, SEP)
  {
    if values == [] {
      assert head + values == head;
    } else {
      var n := |values| - 1;
      TailJoins(head, values[..n]);
      JoinSnoc(head + values[..n], values[n], SEP);
      assert head + values == (head + values[..n]) + [values[n]];
      Enc.Assoc(Join(head, SEP), Enc.Tail(values[..n]), [SEP] + values[n]);
    }
  }

  lemma SplitCommand(head: seq<string>, values: seq<string>)
    requires head != [] && AllPlain(head) && AllPlain(values)
    ensures Split(Join(head, SEP) + Enc.Tail(values), SEP) == head + values
  {
    TailJoins(head, values);
    forall i | 0 <= i < |head + values|
      ensures SEP !in (head + values)[i]
    {
      assert i < |head| ==> Plain(head[i]);
      assert i >= |head| ==> Plain(values[i - |head|]);
    }
    SplitOfJoin(head + values, SEP);
  }

  /** A command that fits leaves room for every piece. */
  lemma FittingIsRoomy(head: string, values: seq<string>, size: nat)
    requires |head + Enc.Tail(values)| < size
    ensures Enc.Roomy(head, values, size)
  {
    if values != [] { Enc.TailGrows(values, |values| - 1); }
  }

  /** Numerals of every kind go through the command unharmed. */
  lemma SpelledPlain(s: string, base: nat, n: nat)
    requires 2 <= base <= 16 && Spells(s, base, n)
    ensures Plain(s) && s != [] && IsHex(s[0])
  {
    SpellsDigits(s, base, n);
    forall i | 0 <= i < |s|
      ensures s[i] != SEP && s[i] != NUL
    {
      assert IsHex(s[i]);
    }
  }

  lemma NumeralPlain(s: string, n: nat)
    requires Numeral(s, n)
    ensures Plain(s)
  {
    if Spells(s, 10, n) {
      SpelledPlain(s, 10, n);
    } else if Spells(s, 8, n) {
      SpelledPlain(s, 8, n);
    } else {
      SpelledPlain(s[2..], 16, n);
      assert s == [s[0], s[1]] + s[2..];
    }
  }

  lemma IntPlain(s: string, x: int)
    requires IntText(s, x)
    ensures Plain(s) && s != "NULL"
  {
    if x < 0 {
      SpelledPlain(s[1..], 10, -x);
      assert s == [s[0]] + s[1..];
    } else {
      SpelledPlain(s, 10, x);
    }
  }

  // ---------------------------------------------------------------- MAC addresses

  predicate SpellBytes(ts: seq<string>, bs: seq<nat>) {
    |ts| == |bs| && forall k :: 0 <= k < |bs| ==> Spells(ts[k], 16, bs[k])
  }

  /** `s` writes those bytes in hexadecimal with colons between them, digits and letter cases as one likes. */
  ghost predicate WritesBytes(s: string, bs: seq<nat>) {
    exists ts :: SpellBytes(ts, bs) && Join(ts, ':') == s
  }

  lemma {:induction false} BytesPlain(ts: seq<string>, bs: seq<nat>)
    requires SpellBytes(ts, bs)
    ensures Plain(Join(ts, ':'))
  {
    hide Spells;
    if ts != [] {
      SpelledPlain(ts[0], 16, bs[0]);
      BytesPlain(ts[1..], bs[1..]);
    }
  }

  lemma WritesPlain(s: string, bs: seq<nat>)
    requires WritesBytes(s, bs)
    ensures Plain(s)
  {
    var ts :| SpellBytes(ts, bs) && Join(ts, ':') == s;
    BytesPlain(ts, bs);
  }

  /** What is printed is one way to write them. */
  lemma PrintedWrites(bs: seq<nat>)
    requires Bytes(bs)
    ensures WritesBytes(MacText(bs), bs)
  {
    hide Spells, HexByte, Join;
    forall k | 0 <= k < |bs|
      ensures Spells(HexBytes(bs)[k], 16, bs[k])
    {
      HexByteSpells(bs[k]);
    }
    assert SpellBytes(HexBytes(bs), bs);
  }

  /** Nothing that could go on an address. */
  predicate EndsBytes(rest: string) {
    rest == [] || !('0' <= rest[0] <= '9' || 'a' <= rest[0] <= 'f' || 'A' <= rest[0] <= 'F' || rest[0] == ':')
  }

  lemma ScanDigits(t: string, b: nat, rest: string)
    requires Spells(t, 16, b) && b < 0x100 && (rest == [] || !IsHex(rest[0]))
    ensures t != [] && HexRun(t + rest) == |t| && Dec.U8(HexNumber((t + rest)[..|t|])) == b
  {
    hide HexNumber, Spells, HexRun;
    SpellsHex(t, b);
    SpellsDigits(t, 16, b);
    HexRunOf(t, rest);
    assert (t + rest)[..|t|] == t;
  }

  lemma ScanFirst(t: string, b: nat, rest: string, n: nat)
    requires Spells(t, 16, b) && b < 0x100 && 0 < n
    ensures EndsBytes(rest) ==> Dec.ScanBytes(t + rest, n) == [b]
    ensures Dec.ScanBytes(t + (":" + rest), n) == [b] + Dec.ScanBytes(rest, n - 1)
  {
    hide HexNumber, Spells, HexRun, Dec.U8;
    if EndsBytes(rest) {
      ScanDigits(t, b, rest);
      assert rest != [] ==> (t + rest)[|t|] == rest[0];
    }
    var s := t + (":" + rest);
    ScanDigits(t, b, ":" + rest);
    assert s[|t|] == ':' && s[|t| + 1..] == rest;
  }

  /** An address however written is scanned back, as many bytes of it as there is room for. */
  lemma {:induction false} ScanOfBytes(ts: seq<string>, bs: seq<nat>, rest: string, n: nat)
    requires SpellBytes(ts, bs) && Bytes(bs) && EndsBytes(rest)
    ensures Dec.ScanBytes(Join(ts, ':') + rest, n) == Take(bs, n)
  {
    hide Dec.ScanBytes, Spells;
    var s := Join(ts, ':') + rest;
    if n == 0 || bs == [] {
      assert s == rest || n == 0;
      ScanNone(s, n);
    } else if |bs| == 1 {
      assert s == ts[0] + rest;
      ScanFirst(ts[0], bs[0], rest, n);
    } else {
      var more := Join(ts[1..], ':') + rest;
      assert s == ts[0] + (":" + more);
      ScanFirst(ts[0], bs[0], more, n);
      ScanOfBytes(ts[1..], bs[1..], rest, n - 1);
      assert [bs[0]] + Take(bs[1..], n - 1) == Take(bs, n);
    }
  }

  lemma ScanNone(s: string, n: nat)
    requires n == 0 || EndsBytes(s)
    ensures Dec.ScanBytes(s, n) == []
  {
  }

  /** Scanning an address gives its bytes; the places that it has no byte for keep what they held. */
  lemma MacReadsBack(s: string, bs: seq<nat>, rest: string, prior: Mac)
    requires WritesBytes(s, bs) && Bytes(bs) && EndsBytes(rest)
    ensures Dec.ScanMac(s + rest, prior) == Take(bs, 6) + prior[|Take(bs, 6)|..]
  {
    var ts :| SpellBytes(ts, bs) && Join(ts, ':') == s;
    ScanOfBytes(ts, bs, rest, 6);
  }

  lemma WholeMac(s: string, m: Mac, prior: Mac)
    requires WritesBytes(s, m)
    ensures Dec.ScanMac(s, prior) == m && Plain(s)
  {
    MacReadsBack(s, m, "", prior);
    WritesPlain(s, m);
    assert s + "" == s && m + prior[6..] == m;
  }

  // ---------------------------------------------------------------- BTM requests

  /** The fields fit the types of the HAL structure. */
  predicate CandidateOk(c: Dec.Candidate) {
    c.info < 0x1_0000_0000 && c.opClass < 0x100 && c.channel < 0x100 && c.phyTable < 0x100 && c.preference < 0x100
  }

  ghost predicate CandidatesOk(cs: seq<Dec.Candidate>) {
    forall i {:trigger CandidateOk(cs[i])} :: 0 <= i < |cs| ==> CandidateOk(cs[i])
  }

  predicate IntOk(x: int) {
    -0x8000_0000 <= x < 0x8000_0000
  }

  ghost predicate RequestOk(r: Dec.Btm) {
    && IntOk(r.apIndex)
    && r.token < 0x100 && r.requestMode < 0x100 && r.timer < 0x1_0000 && r.validityInterval < 0x100
    && r.tsf < 0x8000_0000_0000_0000 && r.duration < 0x1_0000
    && r.numCandidates == |r.candidates| < 0x100
    && CandidatesOk(r.candidates)
  }

  /** The line of a number, decimal, octal or hexadecimal. */
  predicate NumberField(f: Field, key: string, n: nat) {
    f.key == key && Numeral(f.text, n)
  }

  /** The six lines of a candidate. */
  ghost predicate CandidateFile(fs: seq<Field>, c: Dec.Candidate) {
    && |fs| == 6
    && fs[0].key == "bssid" && WritesBytes(fs[0].text, c.bssid)
    && NumberField(fs[1], "info", c.info) && NumberField(fs[2], "opClass", c.opClass)
    && NumberField(fs[3], "channel", c.channel) && NumberField(fs[4], "phyTable", c.phyTable)
    && NumberField(fs[5], "preference", c.preference)
  }

  ghost predicate CandidatesFile(fs: seq<Field>, cs: seq<Dec.Candidate>) {
    if cs == [] then fs == []
    else 6 <= |fs| && CandidateFile(fs[..6], cs[0]) && CandidatesFile(fs[6..], cs[1..])
  }

  ghost predicate ScalarsFile(fs: seq<Field>, r: Dec.Btm) {
    && |fs| == 7
    && NumberField(fs[0], "token", r.token) && NumberField(fs[1], "requestMode", r.requestMode)
    && NumberField(fs[2], "timer", r.timer) && NumberField(fs[3], "validityInterval", r.validityInterval)
    && NumberField(fs[4], "termDuration.tsf", r.tsf) && NumberField(fs[5], "termDuration.duration", r.duration)
    && NumberField(fs[6], "numCandidates", r.numCandidates)
  }

  /** The parameter file of a request. */
  ghost predicate RequestFile(fs: seq<Field>, r: Dec.Btm) {
    7 <= |fs| && ScalarsFile(fs[..7], r) && CandidatesFile(fs[7..], r.candidates)
  }

  /** Printing every number in decimal is one way to write the file. */
  function PrintedCandidate(c: Dec.Candidate): seq<Field> {
    [Field("bssid", MacText(c.bssid)), Field("info", Digits(c.info)), Field("opClass", Digits(c.opClass)),
     Field("channel", Digits(c.channel)), Field("phyTable", Digits(c.phyTable)),
     Field("preference", Digits(c.preference))]
  }

  function PrintedCandidates(cs: seq<Dec.Candidate>): seq<Field> {
    if cs == [] then [] else PrintedCandidate(cs[0]) + PrintedCandidates(cs[1..])
  }

  function PrintedRequest(r: Dec.Btm): seq<Field> {
    [Field("token", Digits(r.token)), Field("requestMode", Digits(r.requestMode)), Field("timer", Digits(r.timer)),
     Field("validityInterval", Digits(r.validityInterval)), Field("termDuration.tsf", Digits(r.tsf)),
     Field("termDuration.duration", Digits(r.duration)), Field("numCandidates", Digits(r.numCandidates))]
    + PrintedCandidates(r.candidates)
  }

  lemma {:induction false} PrintedCandidatesFile(cs: seq<Dec.Candidate>)
    ensures CandidatesFile(PrintedCandidates(cs), cs)
  {
    hide Numeral, WritesBytes, Digits, MacText;
    if cs != [] {
      var fs, c := PrintedCandidates(cs), cs[0];
      assert fs[..6] == PrintedCandidate(c) && fs[6..] == PrintedCandidates(cs[1..]);
      PrintedWrites(c.bssid);
      StrtolOfDigits(c.info);
      StrtolOfDigits(c.opClass);
      StrtolOfDigits(c.channel);
      StrtolOfDigits(c.phyTable);
      StrtolOfDigits(c.preference);
      PrintedCandidatesFile(cs[1..]);
    }
  }

  /** Every request has a parameter file, and a text for each argument. */
  lemma PrintedIsFile(r: Dec.Btm)
    ensures RequestFile(PrintedRequest(r), r) && IntText(Decimal(r.apIndex), r.apIndex)
    ensures WritesBytes(MacText(r.peerMac), r.peerMac)
  {
    hide Numeral, WritesBytes, Digits, Decimal, IntText, MacText, CandidatesFile, Spells;
    var fs := PrintedRequest(r);
    assert fs[7..] == PrintedCandidates(r.candidates);
    StrtolOfDigits(r.token);
    StrtolOfDigits(r.requestMode);
    StrtolOfDigits(r.timer);
    StrtolOfDigits(r.validityInterval);
    StrtolOfDigits(r.tsf);
    StrtolOfDigits(r.duration);
    StrtolOfDigits(r.numCandidates);
    PrintedCandidatesFile(r.candidates);
    PrintedWrites(r.peerMac);
    DecimalIsInt(r.apIndex);
  }

  lemma DecimalIsInt(x: int)
    ensures IntText(Decimal(x), x)
  {
    hide Digits, Spells;
    DigitsSpell(if x < 0 then -x else x);
    assert x < 0 ==> Decimal(x)[1..] == Digits(-x);
  }

  // The request that the tools come with: most of its numbers are hexadecimal, its addresses in capitals.

  function ShippedCandidate(mac: string, channel: string): seq<Field> {
    [Field("bssid", mac), Field("info", "0x01"), Field("opClass", "0x51"), Field("channel", channel),
     Field("phyTable", "0x07"), Field("preference", "0")]
  }

  const SHIPPED: seq<Field> :=
    [Field("token", "0x10"), Field("requestMode", "0x07"), Field("timer", "0"), Field("validityInterval", "0xFF"),
     Field("termDuration.tsf", "0"), Field("termDuration.duration", "0"), Field("numCandidates", "2")]
    + ShippedCandidate("E4:57:40:B3:21:56", "44") + ShippedCandidate("E4:57:40:B3:21:58", "60")

  function ShippedRequest(apIndex: int, peerMac: Mac): Dec.Btm {
    Dec.Btm(apIndex, peerMac, 16, 7, 0, 255, 0, 0, 2,
            [Dec.Candidate([0xE4, 0x57, 0x40, 0xB3, 0x21, 0x56], 1, 0x51, 44, 7, 0),
             Dec.Candidate([0xE4, 0x57, 0x40, 0xB3, 0x21, 0x58], 1, 0x51, 60, 7, 0)])
  }

  lemma SpellsTwo(a: char, b: char, n: nat)
    requires n < 0x100 && DigitIs(a, n / 16) && DigitIs(b, n % 16)
    ensures Spells([a, b], 16, n)
  {
    hide DigitIs;
    assert [a, b][..1] == [a];
  }

  lemma HexTwo(a: char, b: char, n: nat)
    requires n < 0x100 && DigitIs(a, n / 16) && DigitIs(b, n % 16)
    ensures Spells([a, b], 16, n) && Numeral("0x" + [a, b], n)
  {
    hide Spells, DigitIs;
    SpellsTwo(a, b, n);
    assert ("0x" + [a, b])[2..] == [a, b];
  }

  lemma DecimalTwo(a: char, b: char, n: nat)
    requires 10 <= n < 100 && DigitIs(a, n / 10) && DigitIs(b, n % 10) && a != '0'
    ensures Numeral([a, b], n)
  {
    hide DigitIs;
    assert [a, b][..1] == [a];
    assert Spells([a], 10, n / 10);
    assert Spells([a, b], 10, n);
  }

  lemma ShippedMac(d: char, y: nat)
    requires y < 10 && DigitIs(d, y)
    ensures WritesBytes("E4:57:40:B3:21:5" + [d], [0xE4, 0x57, 0x40, 0xB3, 0x21, 0x50 + y])
  {
    hide Spells, DigitIs, Join, Numeral;
    var ts := ["E4", "57", "40", "B3", "21", ['5', d]];
    DigitsAre();
    HexTwo('E', '4', 0xE4);
    HexTwo('5', '7', 0x57);
    HexTwo('4', '0', 0x40);
    HexTwo('B', '3', 0xB3);
    HexTwo('2', '1', 0x21);
    HexTwo('5', d, 0x50 + y);
    assert SpellBytes(ts, [0xE4, 0x57, 0x40, 0xB3, 0x21, 0x50 + y]);
    assert Join(ts, ':') == "E4:57:40:B3:21:5" + [d] by { JoinSix("E4", "57", "40", "B3", "21", ['5', d]); }
  }

  lemma DigitsAre()
    ensures DigitIs('E', 14) && DigitIs('B', 11) && DigitIs('0', 0) && DigitIs('1', 1) && DigitIs('2', 2)
    ensures DigitIs('3', 3) && DigitIs('4', 4) && DigitIs('5', 5) && DigitIs('7', 7) && DigitIs('F', 15)
    ensures DigitIs('6', 6) && DigitIs('8', 8)
  {
  }

  lemma JoinSix(a: string, b: string, c: string, d: string, e: string, f: string)
    ensures Join([a, b, c, d, e, f], ':') == a + ":" + b + ":" + c + ":" + d + ":" + e + ":" + f
  {
    assert [a, b, c, d, e, f][1..] == [b, c, d, e, f] && [b, c, d, e, f][1..] == [c, d, e, f];
    assert [c, d, e, f][1..] == [d, e, f] && [d, e, f][1..] == [e, f] && [e, f][1..] == [f];
    assert Join([e, f], ':') == e + ":" + f;
    assert Join([d, e, f], ':') == d + ":" + (e + ":" + f);
    assert Join([c, d, e, f], ':') == c + ":" + (d + ":" + (e + ":" + f));
    assert Join([b, c, d, e, f], ':') == b + ":" + (c + ":" + (d + ":" + (e + ":" + f)));
  }

  lemma ShippedNumbers()
    ensures Numeral("0x10", 16) && Numeral("0x07", 7) && Numeral("0xFF", 255) && Numeral("0", 0) && Numeral("2", 2)
    ensures Numeral("0x01", 1) && Numeral("0x51", 0x51) && Numeral("44", 44) && Numeral("60", 60)
  {
    hide Spells, Numeral, DigitIs;
    DigitsAre();
    HexTwo('1', '0', 0x10);
    HexTwo('0', '7', 0x07);
    HexTwo('F', 'F', 0xFF);
    HexTwo('0', '1', 0x01);
    HexTwo('5', '1', 0x51);
    DecimalTwo('4', '4', 44);
    DecimalTwo('6', '0', 60);
    assert "0x10" == "0x" + "10" && "0x07" == "0x" + "07" && "0xFF" == "0x" + "FF";
    assert "0x01" == "0x" + "01" && "0x51" == "0x" + "51";
    OneDigit();
  }

  lemma OneDigit()
    ensures Numeral("0", 0) && Numeral("2", 2)
  {
    assert Spells("0", 8, 0) && Spells("2", 10, 2);
  }

  /** The shipped file is a file of that request. */
  lemma ShippedIsFile(apIndex: int, peerMac: Mac)
    ensures RequestFile(SHIPPED, ShippedRequest(apIndex, peerMac))
  {
    hide Numeral, WritesBytes, DigitIs;
    var r := ShippedRequest(apIndex, peerMac);
    ShippedNumbers();
    DigitsAre();
    ShippedMac('6', 6);
    ShippedMac('8', 8);
    assert "E4:57:40:B3:21:5" + ['6'] == "E4:57:40:B3:21:56" && "E4:57:40:B3:21:5" + ['8'] == "E4:57:40:B3:21:58";
    var first := ShippedCandidate("E4:57:40:B3:21:56", "44");
    var second := ShippedCandidate("E4:57:40:B3:21:58", "60");
    assert SHIPPED[7..] == first + second && SHIPPED[7..][..6] == first && SHIPPED[7..][6..] == second;
    assert CandidateFile(first, r.candidates[0]) && CandidateFile(second, r.candidates[1]);
    assert second[..6] == second && second[6..] == [] && r.candidates[1..][1..] == [];
    assert CandidatesFile([], []);
    assert CandidatesFile(second, r.candidates[1..]);
    assert ScalarsFile(SHIPPED[..7], r);
  }

  predicate KeyOk(key: string, keys: set<string>) {
    key in keys && '=' !in key && NUL !in key
  }

  lemma NumberFieldOk(f: Field, key: string, n: nat, keys: set<string>)
    requires NumberField(f, key, n) && KeyOk(key, keys)
    ensures FieldOk(f, keys)
  {
    NumeralPlain(f.text, n);
  }

  lemma BytesFieldOk(f: Field, key: string, bs: seq<nat>, keys: set<string>)
    requires f.key == key && WritesBytes(f.text, bs) && KeyOk(key, keys)
    ensures FieldOk(f, keys)
  {
    WritesPlain(f.text, bs);
  }

  lemma CandidateFileOk(fs: seq<Field>, c: Dec.Candidate)
    requires CandidateFile(fs, c)
    ensures FieldsOk(fs, Enc.BTM_KEYS)
  {
    hide FieldOk, NumberField;
    BytesFieldOk(fs[0], "bssid", c.bssid, Enc.BTM_KEYS);
    NumberFieldOk(fs[1], "info", c.info, Enc.BTM_KEYS);
    NumberFieldOk(fs[2], "opClass", c.opClass, Enc.BTM_KEYS);
    NumberFieldOk(fs[3], "channel", c.channel, Enc.BTM_KEYS);
    NumberFieldOk(fs[4], "phyTable", c.phyTable, Enc.BTM_KEYS);
    NumberFieldOk(fs[5], "preference", c.preference, Enc.BTM_KEYS);
  }

  lemma {:induction false} CandidatesFileOk(fs: seq<Field>, cs: seq<Dec.Candidate>)
    requires CandidatesFile(fs, cs)
    ensures FieldsOk(fs, Enc.BTM_KEYS) && |fs| == 6 * |cs|
  {
    if cs != [] {
      CandidateFileOk(fs[..6], cs[0]);
      CandidatesFileOk(fs[6..], cs[1..]);
      FieldsOkAppend(fs[..6], fs[6..], Enc.BTM_KEYS);
      assert fs == fs[..6] + fs[6..];
    }
  }

  lemma FieldsOkAppend(a: seq<Field>, b: seq<Field>, keys: set<string>)
    requires FieldsOk(a, keys) && FieldsOk(b, keys)
    ensures FieldsOk(a + b, keys)
  {
    forall i | 0 <= i < |a + b|
      ensures FieldOk((a + b)[i], keys)
    {
      assert i < |a| ==> FieldOk(a[i], keys);
      assert i >= |a| ==> FieldOk(b[i - |a|], keys);
    }
  }

  lemma ScalarsFileOk(fs: seq<Field>, r: Dec.Btm)
    requires ScalarsFile(fs, r)
    ensures FieldsOk(fs, Enc.BTM_KEYS)
  {
    hide FieldOk, NumberField;
    NumberFieldOk(fs[0], "token", r.token, Enc.BTM_KEYS);
    NumberFieldOk(fs[1], "requestMode", r.requestMode, Enc.BTM_KEYS);
    NumberFieldOk(fs[2], "timer", r.timer, Enc.BTM_KEYS);
    NumberFieldOk(fs[3], "validityInterval", r.validityInterval, Enc.BTM_KEYS);
    NumberFieldOk(fs[4], "termDuration.tsf", r.tsf, Enc.BTM_KEYS);
    NumberFieldOk(fs[5], "termDuration.duration", r.duration, Enc.BTM_KEYS);
    NumberFieldOk(fs[6], "numCandidates", r.numCandidates, Enc.BTM_KEYS);
  }

  lemma RequestFileOk(fs: seq<Field>, r: Dec.Btm)
    requires RequestFile(fs, r)
    ensures FieldsOk(fs, Enc.BTM_KEYS) && |fs| == 7 + 6 * |r.candidates|
  {
    ScalarsFileOk(fs[..7], r);
    CandidatesFileOk(fs[7..], r.candidates);
    FieldsOkAppend(fs[..7], fs[7..], Enc.BTM_KEYS);
    assert fs == fs[..7] + fs[7..];
  }

  lemma DecodeCandidate(ts: seq<string>, k: nat, fs: seq<Field>, c: Dec.Candidate)
    requires CandidateOk(c) && CandidateFile(fs, c) && k + 6 <= |ts|
    requires forall j :: 0 <= j < 6 ==> ts[k + j] == fs[j].text
    ensures Dec.CandidateOf(ts, k) == c
  {
    hide Numeral, WritesBytes, Dec.ScanMac, Strtol;
    assert ts[k + 0] == fs[0].text && ts[k + 1] == fs[1].text && ts[k + 2] == fs[2].text;
    assert ts[k + 3] == fs[3].text && ts[k + 4] == fs[4].text && ts[k + 5] == fs[5].text;
    WholeMac(fs[0].text, c.bssid, Dec.ZERO_MAC);
    StrtolOfNumeral(fs[1].text, c.info);
    StrtolOfNumeral(fs[2].text, c.opClass);
    StrtolOfNumeral(fs[3].text, c.channel);
    StrtolOfNumeral(fs[4].text, c.phyTable);
    StrtolOfNumeral(fs[5].text, c.preference);
  }

  /** The candidates come back in order, from the tokens that their file lines leave in the command. */
  lemma {:induction false} DecodeCandidates(ts: seq<string>, k: nat, fs: seq<Field>, cs: seq<Dec.Candidate>)
    requires CandidatesOk(cs) && CandidatesFile(fs, cs) && k <= |ts| && ts[k..] == Texts(fs)
    ensures k + 6 * |cs| == |ts| && Dec.CandidatesOf(ts, k, |cs|) == cs
    decreases |cs|
  {
    hide Dec.CandidateOf, CandidateFile;
    if cs != [] {
      assert CandidateOk(cs[0]);
      forall j | 0 <= j < 6
        ensures ts[k + j] == fs[..6][j].text
      {
        assert ts[k..][j] == fs[j].text;
      }
      DecodeCandidate(ts, k, fs[..6], cs[0]);
      forall i | 0 <= i < |cs[1..]|
        ensures CandidateOk(cs[1..][i])
      {
        assert CandidateOk(cs[i + 1]);
      }
      assert ts[k + 6..] == ts[k..][6..] == Texts(fs[6..]);
      DecodeCandidates(ts, k + 6, fs[6..], cs[1..]);
      assert [cs[0]] + cs[1..] == cs;
    } else {
      assert |ts[k..]| == 0;
    }
  }

  /** Decoding the tokens of a request gives the request, however its numbers and addresses are written. */
  lemma {:induction false} DecodeRequest(ap: string, mac: string, fs: seq<Field>, r: Dec.Btm, prior: Mac)
    requires RequestOk(r) && IntText(ap, r.apIndex) && WritesBytes(mac, r.peerMac) && RequestFile(fs, r)
    ensures var ts := [ap, mac] + Texts(fs);
            Dec.BtmTokens(ts) && Dec.CountOf(ts) == |r.candidates| && Dec.BtmOf(ts, prior) == r
  {
    hide Numeral, IntText, WritesBytes, Dec.ScanMac, Strtol, Atoi, Dec.CandidatesOf, CandidatesOk, CandidatesFile;
    var ts := [ap, mac] + Texts(fs);
    forall i | 0 <= i < 7
      ensures ts[i + 2] == fs[..7][i].text
    {
      assert ts[i + 2] == Texts(fs)[i];
    }
    assert ts[2] == fs[0].text && ts[3] == fs[1].text && ts[4] == fs[2].text && ts[5] == fs[3].text;
    assert ts[6] == fs[4].text && ts[7] == fs[5].text && ts[8] == fs[6].text;
    assert ts[9..] == Texts(fs)[7..] == Texts(fs[7..]);
    AtoiOfInt(ap, r.apIndex);
    WholeMac(mac, r.peerMac, prior);
    StrtolOfNumeral(fs[0].text, r.token);
    StrtolOfNumeral(fs[1].text, r.requestMode);
    StrtolOfNumeral(fs[2].text, r.timer);
    StrtolOfNumeral(fs[3].text, r.validityInterval);
    StrtolOfNumeral(fs[4].text, r.tsf);
    StrtolOfNumeral(fs[5].text, r.duration);
    StrtolOfNumeral(fs[6].text, r.numCandidates);
    DecodeCandidates(ts, 9, fs[7..], r.candidates);
  }

  /** The whole command of a request. */
  function RequestText(name: string, ap: string, mac: string, fs: seq<Field>): string {
    Enc.BtmHead(name, ap, mac) + Enc.Tail(Texts(fs))
  }

  lemma RequestSplits(name: string, ap: string, mac: string, fs: seq<Field>)
    requires Plain(name) && Plain(ap) && Plain(mac) && FieldsOk(fs, Enc.BTM_KEYS)
    ensures Split(RequestText(name, ap, mac, fs), SEP) == [name] + ([ap, mac] + Texts(fs))
  {
    hide Split, Plain;
    TextsPlain(fs, Enc.BTM_KEYS);
    HeadJoins(name, ap, mac);
    SplitCommand([name, ap, mac], Texts(fs));
    assert [name, ap, mac] + Texts(fs) == [name] + ([ap, mac] + Texts(fs));
  }

  lemma HeadJoins(name: string, ap: string, mac: string)
    ensures Join([name, ap, mac], SEP) == Enc.BtmHead(name, ap, mac)
  {
    assert [name, ap, mac][1..] == [ap, mac] && [ap, mac][1..] == [mac];
    assert Join([ap, mac], SEP) == ap + [SEP] + mac;
  }

  lemma TextsPlain(fs: seq<Field>, keys: set<string>)
    requires FieldsOk(fs, keys)
    ensures AllPlain(Texts(fs))
  {
    forall i | 0 <= i < |fs|
      ensures Plain(Texts(fs)[i])
    {
      assert FieldOk(fs[i], keys);
    }
  }

  /** Every request whose command fits the buffer, and whose candidates fit the HAL structure, comes out of
      the decoder as it went into the encoder, however the arguments and the file write it. */
  method BtmRoundTrip(name: string, ap: string, mac: string, fs: seq<Field>, ghost r: Dec.Btm, size: nat, prior: Mac,
                      room: nat)
    returns (name': string, r': Dec.Btm)
    requires Plain(name) && RequestOk(r)
    requires IntText(ap, r.apIndex) && WritesBytes(mac, r.peerMac) && RequestFile(fs, r)
    requires |RequestText(name, ap, mac, fs)| + 2 <= size && |r.candidates| <= room
    ensures name' == name && r' == r
  {
    hide IntText, WritesBytes, Enc.Tail, Split, Dec.BtmOf, Dec.CountOf, Dec.BtmTokens, RequestOk, RequestFile;
    RequestFileOk(fs, r);
    LinesParts(fs, Enc.BTM_KEYS);
    IntPlain(ap, r.apIndex);
    WritesPlain(mac, r.peerMac);
    FittingIsRoomy(Enc.BtmHead(name, ap, mac), Texts(fs), size);
    var cmd := new char[size](_ => NUL);
    var ok := Enc.HandleSetBtmRequest(name, ap, mac, true, Lines(fs), cmd);
    var text := Enc.CString(cmd[..]);
    RequestSplits(name, ap, mac, fs);
    var params;
    name', params := Dec.HandleCmd(text);
    HeadAndParams(name, [ap, mac] + Texts(fs), name', params);
    DecodeRequest(ap, mac, fs, r, prior);
    r' := Dec.HandleSetBtmRequest(params.value, prior, room);
  }

  lemma HeadAndParams(name: string, ts: seq<string>, name': string, params: Option<string>)
    requires [name'] + Dec.Tokens(params) == [name] + ts && ts != []
    ensures name' == name && params.Some? && Split(params.value, SEP) == ts
  {
    assert ([name'] + Dec.Tokens(params))[0] == name';
    assert ([name'] + Dec.Tokens(params))[1..] == Dec.Tokens(params);
    assert ([name] + ts)[1..] == ts;
  }

  // ---------------------------------------------------------------- steering groups

  /** An entry of a group: a configuration, or none for NULL. */
  type Entry = Option<Dec.ApConfig>

  predicate ConfigOk(c: Dec.ApConfig) {
    && IntOk(c.apIndex)
    && c.utilCheck < 0x1_0000_0000 && c.utilAvg < 0x1_0000_0000
    && c.inactCheck < 0x1_0000_0000 && c.inactThreshold < 0x1_0000_0000
  }

  ghost predicate EntriesOk(es: seq<Entry>) {
    forall i {:trigger es[i]} :: 0 <= i < |es| ==> es[i].Some? ==> ConfigOk(es[i].value)
  }

  predicate DecimalField(f: Field, key: string, n: nat) {
    f.key == key && Spells(f.text, 10, n)
  }

  /** The parameter file of a configuration. */
  predicate ConfigFile(fs: seq<Field>, c: Dec.ApConfig) {
    && |fs| == 5
    && fs[0].key == "apIndex" && IntText(fs[0].text, c.apIndex)
    && DecimalField(fs[1], "utilCheckIntervalSec", c.utilCheck) && DecimalField(fs[2], "utilAvgCount", c.utilAvg)
    && DecimalField(fs[3], "inactCheckIntervalSec", c.inactCheck)
    && DecimalField(fs[4], "inactCheckThresholdSec", c.inactThreshold)
  }

  /** What is given for an entry on the command line: a file, or none for the word NULL. */
  type Given = Option<seq<Field>>

  predicate GivenFor(g: Given, e: Entry) {
    if e.None? then g.None? else g.Some? && ConfigFile(g.value, e.value)
  }

  ghost predicate AllGiven(gs: seq<Given>, es: seq<Entry>) {
    |gs| == |es| && forall i {:trigger es[i]} :: 0 <= i < |es| ==> GivenFor(gs[i], es[i])
  }

  function ArgOf(g: Given): Enc.CfgArg {
    if g.None? then Enc.Null else Enc.File(true, Lines(g.value))
  }

  function ArgsOf(gs: seq<Given>): (args: seq<Enc.CfgArg>)
    ensures |args| == |gs| && forall i :: 0 <= i < |gs| ==> args[i] == ArgOf(gs[i])
  {
    seq(|gs|, i requires 0 <= i < |gs| => ArgOf(gs[i]))
  }

  function GivenTokens(g: Given): (ts: seq<string>)
    ensures |ts| == if g.None? then 1 else |g.value|
  {
    if g.None? then ["NULL"] else Texts(g.value)
  }

  function AllTokens(gs: seq<Given>): seq<string> {
    if gs == [] then [] else GivenTokens(gs[0]) + AllTokens(gs[1..])
  }

  function ZeroedEntry(e: Entry): Dec.ApConfig {
    if e.None? then Dec.ZERO_CONFIG else e.value
  }

  /** The entries with zeros for NULL. */
  function Zeroed(es: seq<Entry>): (cs: seq<Dec.ApConfig>)
    ensures |cs| == |es| && forall i :: 0 <= i < |es| ==> cs[i] == ZeroedEntry(es[i])
  {
    if es == [] then [] else [ZeroedEntry(es[0])] + Zeroed(es[1..])
  }

  /** What the decoder can recover: a NULL at the end is lost. */
  function Kept(es: seq<Entry>): seq<Entry> {
    if es != [] && es[|es| - 1].None? then es[..|es| - 1] else es
  }

  lemma DecimalFieldOk(f: Field, key: string, n: nat, keys: set<string>)
    requires DecimalField(f, key, n) && KeyOk(key, keys)
    ensures FieldOk(f, keys)
  {
    SpelledPlain(f.text, 10, n);
  }

  lemma IntFieldOk(f: Field, key: string, x: int, keys: set<string>)
    requires f.key == key && IntText(f.text, x) && KeyOk(key, keys)
    ensures FieldOk(f, keys)
  {
    IntPlain(f.text, x);
  }

  lemma ConfigFileOk(fs: seq<Field>, c: Dec.ApConfig)
    requires ConfigFile(fs, c)
    ensures FieldsOk(fs, Enc.AP_KEYS)
  {
    hide FieldOk, DecimalField, IntText;
    IntFieldOk(fs[0], "apIndex", c.apIndex, Enc.AP_KEYS);
    DecimalFieldOk(fs[1], "utilCheckIntervalSec", c.utilCheck, Enc.AP_KEYS);
    DecimalFieldOk(fs[2], "utilAvgCount", c.utilAvg, Enc.AP_KEYS);
    DecimalFieldOk(fs[3], "inactCheckIntervalSec", c.inactCheck, Enc.AP_KEYS);
    DecimalFieldOk(fs[4], "inactCheckThresholdSec", c.inactThreshold, Enc.AP_KEYS);
  }

  /** An entry is accepted by the encoder, which writes its tokens. */
  lemma EntryEncodes(g: Given, e: Entry)
    requires GivenFor(g, e)
    ensures Enc.Readable(ArgOf(g)) && Enc.ArgOk(ArgOf(g)) && Enc.ArgValues(ArgOf(g)) == GivenTokens(g)
    ensures AllPlain(GivenTokens(g))
  {
    if e.Some? {
      hide Enc.LineOk, Enc.KeysIn, Enc.Values, FieldOk, Plain, Line, ConfigFile;
      ConfigFileOk(g.value, e.value);
      LinesParts(g.value, Enc.AP_KEYS);
      TextsPlain(g.value, Enc.AP_KEYS);
    } else {
      assert Plain("NULL");
    }
  }

  lemma {:induction false} EntriesEncode(gs: seq<Given>, es: seq<Entry>)
    requires AllGiven(gs, es)
    ensures Enc.AllReadable(ArgsOf(gs)) && Enc.ArgsOk(ArgsOf(gs)) && Enc.AllValues(ArgsOf(gs)) == AllTokens(gs)
    ensures AllPlain(AllTokens(gs))
  {
    hide ArgOf, GivenTokens, GivenFor, Enc.Readable, Enc.ArgOk, Enc.ArgValues, Plain;
    if es != [] {
      var n := |es| - 1;
      assert forall i :: 0 <= i < n ==> es[..n][i] == es[i];
      EntriesEncode(gs[..n], es[..n]);
      assert GivenFor(gs[n], es[n]);
      EntryEncodes(gs[n], es[n]);
      assert ArgsOf(gs)[..n] == ArgsOf(gs[..n]);
      AllTokensSnoc(gs);
      forall i | 0 <= i < |ArgsOf(gs)|
        ensures Enc.Readable(ArgsOf(gs)[i])
      {
        assert i < n ==> Enc.Readable(ArgsOf(gs[..n])[i]);
      }
      AllPlainAppend(AllTokens(gs[..n]), GivenTokens(gs[n]));
    }
  }

  lemma AllPlainAppend(a: seq<string>, b: seq<string>)
    requires AllPlain(a) && AllPlain(b)
    ensures AllPlain(a + b)
  {
    forall i | 0 <= i < |a + b|
      ensures Plain((a + b)[i])
    {
      assert i < |a| ==> Plain(a[i]);
      assert i >= |a| ==> Plain(b[i - |a|]);
    }
  }

  lemma {:induction false} AllTokensSnoc(gs: seq<Given>)
    requires gs != []
    ensures AllTokens(gs) == AllTokens(gs[..|gs| - 1]) + GivenTokens(gs[|gs| - 1])
  {
    hide GivenTokens;
    var n := |gs| - 1;
    if n == 0 {
      assert gs[1..] == [] && gs[..n] == [];
    } else {
      AllTokensSnoc(gs[1..]);
      assert gs[1..][..n - 1] == gs[..n][1..];
    }
  }

  lemma CastsKeep(c: Dec.ApConfig)
    requires ConfigOk(c)
    ensures Dec.I32(c.apIndex) == c.apIndex && Dec.U32(c.utilCheck) == c.utilCheck && Dec.U32(c.utilAvg) == c.utilAvg
    ensures Dec.U32(c.inactCheck) == c.inactCheck && Dec.U32(c.inactThreshold) == c.inactThreshold
  {
  }

  lemma DecodeConfig(ts: seq<string>, k: nat, fs: seq<Field>, c: Dec.ApConfig)
    requires ConfigOk(c) && ConfigFile(fs, c) && k + 5 <= |ts|
    requires forall j :: 0 <= j < 5 ==> ts[k + j] == fs[j].text
    ensures Dec.ConfigOf(ts, k) == c && ts[k] != "NULL"
  {
    hide Spells, IntText, Atoi, Plain, Dec.U32, Dec.I32;
    CastsKeep(c);
    assert ts[k + 0] == fs[0].text && ts[k + 1] == fs[1].text && ts[k + 2] == fs[2].text;
    assert ts[k + 3] == fs[3].text && ts[k + 4] == fs[4].text;
    AtoiOfInt(fs[0].text, c.apIndex);
    AtoiOfNat(fs[1].text, c.utilCheck);
    AtoiOfNat(fs[2].text, c.utilAvg);
    AtoiOfNat(fs[3].text, c.inactCheck);
    AtoiOfNat(fs[4].text, c.inactThreshold);
    IntPlain(fs[0].text, c.apIndex);
  }

  lemma AtoiOfNat(s: string, n: nat)
    requires Spells(s, 10, n)
    ensures Atoi(s) == n
  {
    AtoiOfInt(s, n);
  }

  /** The first entry, read by one turn of the decoder's loop. */
  lemma DecodeEntry(ts: seq<string>, k: nat, gs: seq<Given>, es: seq<Entry>)
    requires EntriesOk(es) && AllGiven(gs, es) && es != [] && k <= |ts| && ts[k..] == AllTokens(gs)
    ensures k < |ts| && Dec.EntryEnd(ts, k) == k + |GivenTokens(gs[0])| <= |ts|
    ensures Dec.EntryOf(ts, k) == ZeroedEntry(es[0]) && (ts[k] == "NULL" <==> es[0].None?)
    ensures ts[Dec.EntryEnd(ts, k)..] == AllTokens(gs[1..])
  {
    hide Dec.ConfigOf, ConfigFile;
    var own := GivenTokens(gs[0]);
    assert GivenFor(gs[0], es[0]);
    assert es[0].Some? ==> |own| == 5 by { if es[0].Some? { FiveLines(gs[0].value, es[0].value); } }
    assert |ts[k..]| >= |own|;
    forall j | 0 <= j < |own|
      ensures ts[k + j] == own[j]
    {
      assert ts[k..][j] == own[j];
    }
    assert ts[k + 0] == own[0];
    if es[0].Some? {
      DecodeConfig(ts, k, gs[0].value, es[0].value);
    }
    assert ts[k + |own|..] == ts[k..][|own|..];
  }

  lemma FiveLines(fs: seq<Field>, c: Dec.ApConfig)
    requires ConfigFile(fs, c)
    ensures |fs| == 5
  {
  }

  /** The loop of the decoder recovers every entry but a NULL at the end, as far as there is room. */
  lemma {:induction false} DecodeEntries(ts: seq<string>, k: nat, gs: seq<Given>, es: seq<Entry>, room: nat)
    requires EntriesOk(es) && AllGiven(gs, es) && k <= |ts| && ts[k..] == AllTokens(gs)
    ensures Dec.GroupTokens(ts, k, room) && Dec.ConfigsOf(ts, k, room) == Take(Zeroed(Kept(es)), room)
    decreases |es|
  {
    hide Dec.EntryOf, Dec.ConfigOf, GivenTokens, ZeroedEntry, ConfigOk, GivenFor;
    if es == [] {
      assert |ts[k..]| == 0;
    } else if 0 < room {
      DecodeEntry(ts, k, gs, es);
      assert forall i :: 0 <= i < |es| - 1 ==> es[1..][i] == es[i + 1];
      DecodeEntries(ts, Dec.EntryEnd(ts, k), gs[1..], es[1..], room - 1);
      KeptNext(ts, k, gs, es);
      NextOfConfigs(ts, k, room);
      TakeNext(ZeroedEntry(es[0]), Zeroed(Kept(es[1..])), room);
    }
  }

  lemma TakeNext<T>(x: T, s: seq<T>, n: nat)
    requires 0 < n
    ensures Take([x] + s, n) == [x] + Take(s, n - 1)
  {
  }

  lemma NextOfConfigs(ts: seq<string>, k: nat, room: nat)
    requires 0 < room && k < |ts| && Dec.EntryEnd(ts, k) <= |ts| && Dec.GroupTokens(ts, Dec.EntryEnd(ts, k), room - 1)
    ensures Dec.GroupTokens(ts, k, room)
    ensures k + 1 < |ts| ==>
              Dec.ConfigsOf(ts, k, room) == [Dec.EntryOf(ts, k)] + Dec.ConfigsOf(ts, Dec.EntryEnd(ts, k), room - 1)
    ensures k + 1 == |ts| ==> Dec.ConfigsOf(ts, k, room) == []
  {
    hide Dec.ConfigOf;
  }

  /** The last entry is the one that one token is left for only when it is NULL. */
  lemma KeptNext(ts: seq<string>, k: nat, gs: seq<Given>, es: seq<Entry>)
    requires AllGiven(gs, es) && es != [] && k < |ts| && ts[k..] == AllTokens(gs)
    ensures k + 1 == |ts| <==> |es| == 1 && es[0].None?
    ensures k + 1 < |ts| ==> Zeroed(Kept(es)) == [ZeroedEntry(es[0])] + Zeroed(Kept(es[1..]))
    ensures k + 1 == |ts| ==> Zeroed(Kept(es)) == []
  {
    hide ZeroedEntry, Kept, ConfigFile, GivenTokens;
    assert GivenFor(gs[0], es[0]);
    if es[0].Some? { FiveLines(gs[0].value, es[0].value); }
    assert |ts[k..]| == |GivenTokens(gs[0])| + |AllTokens(gs[1..])|;
    KeptTail(es);
    if |es| > 1 {
      assert GivenFor(gs[1], es[1]);
      if es[1].Some? { FiveLines(gs[1].value, es[1].value); }
      assert AllTokens(gs[1..]) == GivenTokens(gs[1]) + AllTokens(gs[1..][1..]);
      assert Kept(es)[1..] == Kept(es[1..]);
    }
  }

  lemma KeptTail(es: seq<Entry>)
    requires es != []
    ensures Kept(es) == if |es| == 1 && es[0].None? then [] else [es[0]] + Kept(es[1..])
  {
    if |es| > 1 {
      var n := |es| - 1;
      assert es[1..][n - 1] == es[n];
      assert es[..n][1..] == es[1..][..n - 1];
    }
  }

  /** What is decoded has every entry that there is room for exactly when the last one is not NULL or is
      beyond the room, and all but that last one otherwise. */
  lemma LastNullIsLost(ts: seq<string>, k: nat, gs: seq<Given>, es: seq<Entry>, room: nat)
    requires EntriesOk(es) && AllGiven(gs, es) && es != [] && k <= |ts| && ts[k..] == AllTokens(gs)
    ensures Dec.GroupTokens(ts, k, room)
    ensures Dec.ConfigsOf(ts, k, room) == Take(Zeroed(es), room) <==> es[|es| - 1].Some? || room < |es|
    ensures es[|es| - 1].None? && |es| <= room ==> Dec.ConfigsOf(ts, k, room) == Zeroed(es)[..|es| - 1]
  {
    hide Dec.ConfigsOf, Dec.GroupTokens, EntriesOk, AllTokens, AllGiven, Zeroed;
    DecodeEntries(ts, k, gs, es, room);
    if es[|es| - 1].None? {
      assert Zeroed(Kept(es)) == Zeroed(es)[..|es| - 1];
      TakeFront(Zeroed(es), room);
    }
  }

  lemma TakeFront<T>(s: seq<T>, room: nat)
    requires s != []
    ensures Take(s[..|s| - 1], room) == Take(s, room) <==> room < |s|
    ensures |s| <= room ==> Take(s[..|s| - 1], room) == s[..|s| - 1]
  {
  }

  function GroupText(name: string, group: string, gs: seq<Given>): string {
    Enc.GroupHead(name, group) + Enc.Tail(AllTokens(gs))
  }

  lemma GroupSplits(name: string, group: string, gs: seq<Given>)
    requires Plain(name) && Plain(group) && AllPlain(AllTokens(gs))
    ensures Split(GroupText(name, group, gs), SEP) == [name] + ([group] + AllTokens(gs))
  {
    hide Plain, Split, AllTokens, Enc.Tail, Join;
    GroupHeadJoins(name, group);
    SplitCommand([name, group], AllTokens(gs));
    assert [name, group] + AllTokens(gs) == [name] + ([group] + AllTokens(gs));
  }

  lemma GroupHeadJoins(name: string, group: string)
    ensures Join([name, group], SEP) == Enc.GroupHead(name, group)
  {
    assert [name, group][1..] == [group];
  }

  /** Every group that the command line can hold comes out of the decoder with all entries in order, NULL
      zeroed, but for a NULL at the end; the decoder's limit is never reached. */
  method GroupRoundTrip(name: string, group: string, gs: seq<Given>, ghost g: nat, ghost es: seq<Entry>, size: nat)
    returns (name': string, group': nat, cfgs: seq<Dec.ApConfig>)
    requires Plain(name) && Spells(group, 10, g) && g < 0x1_0000_0000
    requires 2 <= |es| <= 18 && EntriesOk(es) && AllGiven(gs, es)
    requires |GroupText(name, group, gs)| + 2 <= size
    ensures name' == name && group' == g && cfgs == Zeroed(Kept(es)) && |cfgs| < 20
  {
    hide Spells, Enc.Tail, Split, AllTokens, Dec.ConfigsOf, Dec.GroupTokens, EntriesOk, Atoi, ArgsOf, AllGiven,
         Enc.AllReadable, Enc.AllValues, Enc.ArgsOk, Zeroed, AllPlain;
    EntriesEncode(gs, es);
    SpelledPlain(group, 10, g);
    FittingIsRoomy(Enc.GroupHead(name, group), AllTokens(gs), size);
    var cmd := new char[size](_ => NUL);
    var ok := Enc.HandleSetGroup(name, group, ArgsOf(gs), cmd);
    GroupSplits(name, group, gs);
    var params;
    name', params := Dec.HandleCmd(Enc.CString(cmd[..]));
    ghost var ts := [group] + AllTokens(gs);
    HeadAndParams(name, ts, name', params);
    assert ts[1..] == AllTokens(gs);
    DecodeEntries(ts, 1, gs, es, Dec.MAX_AP_CFG);
    AtoiOfNat(group, g);
    group', cfgs := Dec.HandleSetGroup(params.value);
  }
}
