/** The C string functions that the connector and the band-steering tools rely on: decimal printing,
    atoi, strtok, strsep and case-insensitive comparison. */
module Text {
  import opened Basics

  // ---------------------------------------------------------------- decimal numbers

  predicate IsDigit(c: char) {
    '0' <= c <= '9'
  }

  function DigitChar(d: nat): (c: char)
    requires d < 10
    ensures IsDigit(c) && c as int - '0' as int == d
  {
    ('0' as int + d) as char
  }

  /** What "%d" prints for a number that is not negative. */
  function Digits(n: nat): (s: string)
    ensures s != [] && forall i :: 0 <= i < |s| ==> IsDigit(s[i])
  {
    if n < 10 then [DigitChar(n)] else Digits(n / 10) + [DigitChar(n % 10)]
  }

  /** What "%d" prints. */
  function Decimal(n: int): string {
    if n < 0 then "-" + Digits(-n) else Digits(n)
  }

  /** The length of the run of digits at the front. */
  function DigitRun(s: string): (n: nat)
    ensures n <= |s| && (forall i :: 0 <= i < n ==> IsDigit(s[i])) && (n < |s| ==> !IsDigit(s[n]))
  {
    if s == [] || !IsDigit(s[0]) then 0 else 1 + DigitRun(s[1..])
  }

  /** The number that a string of digits writes out. */
  function Number(s: string): nat
    requires forall i :: 0 <= i < |s| ==> IsDigit(s[i])
  {
    if s == [] then 0
    else
      assert IsDigit(s[|s| - 1]);
      10 * Number(s[..|s| - 1]) + (s[|s| - 1] as int - '0' as int)
  }

  predicate IsSpace(c: char) {
    c == ' ' || '\t' <= c <= '\r'
  }

  /** atoi: leading white space, one sign, and the digits up to the first character that is none. */
  function Atoi(s: string): int {
    if s != [] && IsSpace(s[0]) then Atoi(s[1..])
    else if s != [] && s[0] == '-' then -(Number(s[1..][..DigitRun(s[1..])]) as int)
    else if s != [] && s[0] == '+' then Number(s[1..][..DigitRun(s[1..])])
    else Number(s[..DigitRun(s)])
  }

  lemma {:induction false} NumberOfDigits(n: nat)
    ensures Number(Digits(n)) == n
  {
    if 10 <= n {
      NumberOfDigits(n / 10);
      assert Digits(n)[..|Digits(n)| - 1] == Digits(n / 10);
    }
  }

  lemma {:induction false} DigitRunOf(s: string, rest: string)
    requires forall i :: 0 <= i < |s| ==> IsDigit(s[i])
    requires rest == [] || !IsDigit(rest[0])
    ensures DigitRun(s + rest) == |s|
  {
    if s == [] {
      assert s + rest == rest;
    } else {
      assert (s + rest)[1..] == s[1..] + rest;
      DigitRunOf(s[1..], rest);
    }
  }

  /** Printing a number and reading it back gives the number. */
  lemma AtoiOfDecimal(n: int)
    ensures Atoi(Decimal(n)) == n
  {
    var d := Digits(if n < 0 then -n else n);
    NumberOfDigits(if n < 0 then -n else n);
    DigitRunOf(d, []);
    assert d + [] == d && d[..|d|] == d;
    if n < 0 { assert Decimal(n)[1..] == d; }
  }

  lemma DigitsInjective(a: nat, b: nat)
    requires Digits(a) == Digits(b)
    ensures a == b
  {
    NumberOfDigits(a);
    NumberOfDigits(b);
  }

  function Pow10(k: nat): nat {
    if k == 0 then 1 else 10 * Pow10(k - 1)
  }

  /** A number takes at most `k` digits exactly when it is below the k-th power of ten. */
  lemma {:induction false} DigitsLength(n: nat, k: nat)
    requires 0 < k
    ensures |Digits(n)| <= k <==> n < Pow10(k)
  {
    if k == 1 {
      assert Pow10(1) == 10 * Pow10(0) == 10;
    } else if n < 10 {
      DigitsLength(n, k - 1);
    } else {
      DigitsLength(n / 10, k - 1);
    }
  }

  // ---------------------------------------------------------------- tokens

  /** Where `c` first is in `s`, or the length of `s`. */
  function Find(s: string, c: char): (n: nat)
    ensures n <= |s| && (forall i :: 0 <= i < n ==> s[i] != c) && (n < |s| ==> s[n] == c)
  {
    if s == [] || s[0] == c then 0 else 1 + Find(s[1..], c)
  }

  lemma {:induction false} FindOf(s: string, c: char, rest: string)
    requires c !in s && (rest == [] || rest[0] == c)
    ensures Find(s + rest, c) == |s|
  {
    if s == [] {
      assert s + rest == rest;
    } else {
      assert (s + rest)[1..] == s[1..] + rest;
      FindOf(s[1..], c, rest);
    }
  }

  /** strtok with one delimiter: the next token that is not empty, and what is left after it. */
  function Strtok(s: string, c: char): (r: (string, string)) {
    if s != [] && s[0] == c then Strtok(s[1..], c)
    else
      var n := Find(s, c);
      (s[..n], if n < |s| then s[n + 1..] else [])
  }

  lemma StrtokOf(tok: string, c: char, rest: string)
    requires tok != [] && c !in tok
    ensures Strtok(tok + [c] + rest, c) == (tok, rest)
    ensures Strtok(tok, c) == (tok, [])
  {
    assert tok + [c] + rest == tok + ([c] + rest);
    FindOf(tok, c, [c] + rest);
    FindOf(tok, c, []);
    assert tok + [] == tok;
  }

  /** strsep with one delimiter: the text before it, and the text after it if there is one. */
  function Strsep(s: string, c: char): (r: (string, Option<string>))
    ensures r.1.Some? ==> |r.1.value| < |s| && s == r.0 + [c] + r.1.value
    ensures r.1.None? ==> r.0 == s
    ensures c !in r.0
  {
    var n := Find(s, c);
    (s[..n], if n < |s| then Some(s[n + 1..]) else None)
  }

  /** All the tokens that repeated strsep yields. */
  function Split(s: string, c: char): (ts: seq<string>)
    ensures ts != []
    decreases |s|
  {
    var (t, rest) := Strsep(s, c);
    if rest.None? then [t] else [t] + Split(rest.value, c)
  }

  function Join(ts: seq<string>, c: char): string {
    if ts == [] then [] else if |ts| == 1 then ts[0] else ts[0] + [c] + Join(ts[1..], c)
  }

  /** Tokens that do not hold the delimiter come apart again exactly as they were joined. */
  lemma {:induction false} SplitOfJoin(ts: seq<string>, c: char)
    requires ts != [] && forall i :: 0 <= i < |ts| ==> c !in ts[i]
    ensures Split(Join(ts, c), c) == ts
  {
    if |ts| == 1 {
      FindOf(ts[0], c, []);
      assert ts[0] + [] == ts[0];
    } else {
      var rest := Join(ts[1..], c);
      assert Join(ts, c) == ts[0] + ([c] + rest);
      FindOf(ts[0], c, [c] + rest);
      SplitOfJoin(ts[1..], c);
    }
  }

  lemma {:induction false} JoinSnoc(ts: seq<string>, t: string, c: char)
    requires ts != []
    ensures Join(ts + [t], c) == Join(ts, c) + ([c] + t)
  {
    assert (ts + [t])[1..] == ts[1..] + [t];
    if |ts| > 1 {
      JoinSnoc(ts[1..], t, c);
      assert ts[0] + [c] + (Join(ts[1..], c) + ([c] + t)) == (ts[0] + [c] + Join(ts[1..], c)) + ([c] + t);
    } else {
      assert ts[0] + [c] + t == ts[0] + ([c] + t);
    }
  }

  // ---------------------------------------------------------------- case

  function Lower(c: char): char {
    if 'A' <= c <= 'Z' then (c as int + 32) as char else c
  }

  /** The string in lower case; two strings are equal for strcasecmp when these are equal. */
  function LowerAll(s: string): (r: string)
    ensures |r| == |s|
  {
    if s == [] then [] else [Lower(s[0])] + LowerAll(s[1..])
  }

  /** One letter in its two cases. */
  predicate TwoCases(x: char, y: char) {
    ('a' <= x <= 'z' && x as int == y as int + 32) || ('a' <= y <= 'z' && y as int == x as int + 32)
  }

  /** The strings differ in the case of letters only. */
  predicate SameButCase(a: string, b: string) {
    |a| == |b| && forall i :: 0 <= i < |a| ==> a[i] == b[i] || TwoCases(a[i], b[i])
  }

  lemma LowerEqualIff(x: char, y: char)
    ensures Lower(x) == Lower(y) <==> x == y || TwoCases(x, y)
  {
  }

  /** Comparing in lower case is comparing without regard to case, and to nothing else. */
  lemma {:induction false} LowerAllEqualIff(a: string, b: string)
    ensures LowerAll(a) == LowerAll(b) <==> SameButCase(a, b)
  {
    if a != [] && b != [] {
      LowerEqualIff(a[0], b[0]);
      LowerAllEqualIff(a[1..], b[1..]);
      assert LowerAll(a)[0] == Lower(a[0]) && LowerAll(b)[0] == Lower(b[0]);
      assert LowerAll(a)[1..] == LowerAll(a[1..]) && LowerAll(b)[1..] == LowerAll(b[1..]);
      if SameButCase(a, b) {
        assert forall i :: 0 <= i < |a| - 1 ==> a[1..][i] == a[i + 1] && b[1..][i] == b[i + 1];
      }
      if LowerAll(a) == LowerAll(b) {
        forall i | 0 <= i < |a|
          ensures a[i] == b[i] || TwoCases(a[i], b[i])
        {
          if 0 < i { assert a[i] == a[1..][i - 1] && b[i] == b[1..][i - 1]; }
        }
      }
    }
  }

  // ---------------------------------------------------------------- numbers in other bases

  predicate IsHex(c: char) {
    IsDigit(c) || 'a' <= c <= 'f' || 'A' <= c <= 'F'
  }

  function HexValue(c: char): (n: nat)
    requires IsHex(c)
    ensures n < 16
  {
    if IsDigit(c) then c as int - '0' as int
    else if 'a' <= c then c as int - 'a' as int + 10
    else c as int - 'A' as int + 10
  }

  function HexDigit(d: nat): (c: char)
    requires d < 16
    ensures IsHex(c) && HexValue(c) == d
  {
    if d < 10 then ('0' as int + d) as char else ('a' as int + d - 10) as char
  }

  /** What "%02x" prints for a byte. */
  function HexByte(b: nat): (s: string)
    requires b < 0x100
    ensures |s| == 2 && IsHex(s[0]) && IsHex(s[1])
  {
    [HexDigit(b / 16), HexDigit(b % 16)]
  }

  predicate Bytes(bs: seq<nat>) {
    forall k :: 0 <= k < |bs| ==> bs[k] < 0x100
  }

  /** A hardware address. */
  type Mac = m: seq<nat> | |m| == 6 && Bytes(m) witness [0, 0, 0, 0, 0, 0]

  function HexBytes(bs: seq<nat>): (ts: seq<string>)
    requires Bytes(bs)
    ensures |ts| == |bs| && forall k :: 0 <= k < |bs| ==> ts[k] == HexByte(bs[k])
  {
    seq(|bs|, k requires 0 <= k < |bs| => HexByte(bs[k]))
  }

  /** The bytes of an address in hexadecimal, with colons between them. */
  function MacText(bs: seq<nat>): string
    requires Bytes(bs)
  {
    Join(HexBytes(bs), ':')
  }

  /** The length of the run of hexadecimal digits at the front. */
  function HexRun(s: string): (n: nat)
    ensures n <= |s| && (forall i :: 0 <= i < n ==> IsHex(s[i])) && (n < |s| ==> !IsHex(s[n]))
  {
    if s == [] || !IsHex(s[0]) then 0 else 1 + HexRun(s[1..])
  }

  function HexNumber(s: string): nat
    requires forall i :: 0 <= i < |s| ==> IsHex(s[i])
  {
    if s == [] then 0 else 16 * HexNumber(s[..|s| - 1]) + HexValue(s[|s| - 1])
  }

  /** The length of the run of octal digits at the front. */
  function OctRun(s: string): (n: nat)
    ensures n <= |s| && (forall i :: 0 <= i < n ==> '0' <= s[i] <= '7')
  {
    if s == [] || !('0' <= s[0] <= '7') then 0 else 1 + OctRun(s[1..])
  }

  function OctNumber(s: string): nat
    requires forall i :: 0 <= i < |s| ==> '0' <= s[i] <= '7'
  {
    if s == [] then 0
    else
      assert '0' <= s[|s| - 1] <= '7';
      8 * OctNumber(s[..|s| - 1]) + (s[|s| - 1] as int - '0' as int)
  }

  /** The digits of strtol with base 0: hexadecimal after 0x, octal after 0, decimal otherwise. */
  function Magnitude(s: string): nat {
    if |s| > 2 && s[0] == '0' && (s[1] == 'x' || s[1] == 'X') && IsHex(s[2]) then
      HexNumber(s[2..][..HexRun(s[2..])])
    else if s != [] && s[0] == '0' then OctNumber(s[..OctRun(s)])
    else Number(s[..DigitRun(s)])
  }

  /** strtol with base 0, for numbers that fit a long. */
  function Strtol(s: string): int {
    if s != [] && IsSpace(s[0]) then Strtol(s[1..])
    else if s != [] && s[0] == '-' then -(Magnitude(s[1..]) as int)
    else if s != [] && s[0] == '+' then Magnitude(s[1..])
    else Magnitude(s)
  }

  // ---------------------------------------------------------------- numerals

  /** `c` writes the digit `d`, a letter in either case. */
  predicate DigitIs(c: char, d: nat) {
    || (d < 10 && c == "0123456789"[d])
    || (10 <= d < 16 && (c == "abcdef"[d - 10] || c == "ABCDEF"[d - 10]))
  }

  /** `s` writes `n` in that base; it may have zeros in front. */
  predicate Spells(s: string, base: nat, n: nat)
    requires 2 <= base <= 16
  {
    && s != [] && DigitIs(s[|s| - 1], n % base)
    && if |s| == 1 then n < base else Spells(s[..|s| - 1], base, n / base)
  }

  /** `s` writes `n` in the manner of C: hexadecimal after 0x, octal after 0, decimal otherwise. */
  predicate Numeral(s: string, n: nat) {
    || (Spells(s, 10, n) && s[0] != '0')
    || (2 < |s| && s[0] == '0' && (s[1] == 'x' || s[1] == 'X') && Spells(s[2..], 16, n))
    || (Spells(s, 8, n) && s[0] == '0')
  }

  /** `s` writes `x` in decimal, with a sign if it is negative. */
  predicate IntText(s: string, x: int) {
    if x < 0 then s != [] && s[0] == '-' && Spells(s[1..], 10, -x) else Spells(s, 10, x)
  }

  lemma {:induction false} SpellsDecimal(s: string, n: nat)
    requires Spells(s, 10, n)
    ensures s != [] && (forall i :: 0 <= i < |s| ==> IsDigit(s[i])) && Number(s) == n
  {
    if 1 < |s| {
      SpellsDecimal(s[..|s| - 1], n / 10);
      assert forall i :: 0 <= i < |s| - 1 ==> s[..|s| - 1][i] == s[i];
    } else {
      assert s[..0] == [];
    }
  }

  lemma {:induction false} NumberSpells(s: string)
    requires s != [] && forall i :: 0 <= i < |s| ==> IsDigit(s[i])
    ensures Spells(s, 10, Number(s))
  {
    var d := s[|s| - 1] as int - '0' as int;
    assert IsDigit(s[|s| - 1]) && DigitIs(s[|s| - 1], d);
    hide IsDigit, DigitIs;
    if 1 < |s| {
      NumberSpells(s[..|s| - 1]);
      assert Number(s) == 10 * Number(s[..|s| - 1]) + d && Number(s) / 10 == Number(s[..|s| - 1]);
    } else {
      assert s[..0] == [];
    }
  }

  lemma {:induction false} SpellsHex(s: string, n: nat)
    requires Spells(s, 16, n)
    ensures (forall i :: 0 <= i < |s| ==> IsHex(s[i])) && HexNumber(s) == n
  {
    HexDigitIs(s[|s| - 1], n % 16);
    if 1 < |s| {
      SpellsHex(s[..|s| - 1], n / 16);
      assert forall i :: 0 <= i < |s| - 1 ==> s[..|s| - 1][i] == s[i];
    } else {
      assert s[..0] == [];
    }
  }

  lemma HexDigitIs(c: char, d: nat)
    requires DigitIs(c, d)
    ensures IsHex(c) && HexValue(c) == d
  {
  }

  lemma {:induction false} SpellsOctal(s: string, n: nat)
    requires Spells(s, 8, n)
    ensures (forall i :: 0 <= i < |s| ==> '0' <= s[i] <= '7') && OctNumber(s) == n
  {
    if 1 < |s| {
      SpellsOctal(s[..|s| - 1], n / 8);
      assert forall i :: 0 <= i < |s| - 1 ==> s[..|s| - 1][i] == s[i];
    } else {
      assert s[..0] == [];
    }
  }

  lemma SpellsFront(s: string, base: nat, n: nat)
    requires 2 <= base <= 16 && Spells(s, base, n)
    ensures s != [] && IsHex(s[|s| - 1]) && (1 < |s| ==> Spells(s[..|s| - 1], base, n / base))
  {
    hide DigitIs, IsHex;
    HexDigitIs(s[|s| - 1], n % base);
  }

  /** A numeral has nothing but digits in it. */
  lemma {:induction false} SpellsDigits(s: string, base: nat, n: nat)
    requires 2 <= base <= 16 && Spells(s, base, n)
    ensures s != [] && forall i :: 0 <= i < |s| ==> IsHex(s[i])
  {
    hide Spells, IsHex;
    SpellsFront(s, base, n);
    if 1 < |s| {
      SpellsDigits(s[..|s| - 1], base, n / base);
      assert forall i :: 0 <= i < |s| - 1 ==> s[..|s| - 1][i] == s[i];
    }
  }

  /** What is printed is a numeral. */
  lemma {:induction false} DigitsSpell(n: nat)
    ensures Spells(Digits(n), 10, n)
  {
    if 10 <= n {
      DigitsSpell(n / 10);
      assert Digits(n)[..|Digits(n)| - 1] == Digits(n / 10);
    }
  }

  lemma HexByteSpells(b: nat)
    requires b < 0x100
    ensures Spells(HexByte(b), 16, b)
  {
    assert HexByte(b)[..1] == [HexDigit(b / 16)];
  }

  predicate Blank(s: string) {
    forall i :: 0 <= i < |s| ==> s[i] in {' ', '\t', '\n', '\U{B}', '\U{C}', '\r'}
  }

  predicate Sign(s: string) {
    s == "" || s == "+" || s == "-"
  }

  function Signed(sign: string, n: nat): int {
    if sign == "-" then -(n as int) else n
  }

  /** Nothing that could go on a numeral. */
  predicate Ends(rest: string) {
    rest == [] || !('0' <= rest[0] <= '9' || 'a' <= rest[0] <= 'f' || 'A' <= rest[0] <= 'F'
                    || rest[0] == 'x' || rest[0] == 'X')
  }

  lemma {:induction false} HexRunOf(s: string, rest: string)
    requires (forall i :: 0 <= i < |s| ==> IsHex(s[i])) && (rest == [] || !IsHex(rest[0]))
    ensures HexRun(s + rest) == |s|
  {
    if s == [] {
      assert s + rest == rest;
    } else {
      assert (s + rest)[1..] == s[1..] + rest;
      HexRunOf(s[1..], rest);
    }
  }

  lemma {:induction false} OctRunOf(s: string, rest: string)
    requires (forall i :: 0 <= i < |s| ==> '0' <= s[i] <= '7') && (rest == [] || !('0' <= rest[0] <= '7'))
    ensures OctRun(s + rest) == |s|
  {
    if s == [] {
      assert s + rest == rest;
    } else {
      assert (s + rest)[1..] == s[1..] + rest;
      OctRunOf(s[1..], rest);
    }
  }

  lemma MagnitudeOf(s: string, n: nat, rest: string)
    requires Numeral(s, n) && Ends(rest)
    ensures s != [] && IsDigit(s[0]) && Magnitude(s + rest) == n
  {
    var t := s + rest;
    if 2 < |s| && s[0] == '0' && (s[1] == 'x' || s[1] == 'X') && Spells(s[2..], 16, n) {
      SpellsHex(s[2..], n);
      HexRunOf(s[2..], rest);
      assert t[2..] == s[2..] + rest && t[2..][..|s| - 2] == s[2..];
    } else if Spells(s, 8, n) && s[0] == '0' {
      SpellsOctal(s, n);
      OctRunOf(s, rest);
      assert t[..|s|] == s && (1 < |s| ==> t[1] == s[1]) && (|s| == 1 && rest != [] ==> t[1] == rest[0]);
    } else {
      SpellsDecimal(s, n);
      DigitRunOf(s, rest);
      assert t[..|s|] == s;
    }
  }

  /** strtol with base 0 reads every numeral, after white space and a sign, up to what cannot go on with it. */
  lemma {:induction false} StrtolOf(blank: string, sign: string, s: string, n: nat, rest: string)
    requires Blank(blank) && Sign(sign) && Numeral(s, n) && Ends(rest)
    ensures Strtol(blank + sign + s + rest) == Signed(sign, n)
    decreases |blank|
  {
    hide Magnitude, Numeral;
    var t := blank + sign + s + rest;
    MagnitudeOf(s, n, rest);
    if blank == [] {
      assert t == sign + (s + rest);
      if sign == "" { assert t == s + rest; } else { assert t[0] == sign[0] && t[1..] == s + rest; }
    } else {
      assert t[0] == blank[0] && t[1..] == blank[1..] + sign + s + rest;
      StrtolOf(blank[1..], sign, s, n, rest);
    }
  }

  lemma AtoiSigned(sign: string, u: string)
    requires Sign(sign) && u != [] && IsDigit(u[0])
    ensures Atoi(sign + u) == Signed(sign, Number(u[..DigitRun(u)]))
  {
    hide DigitRun, Number;
    if sign == "" { assert sign + u == u; } else { assert (sign + u)[1..] == u; }
  }

  /** atoi, and strtol with base 10, read every decimal numeral, zeros in front or not. */
  lemma {:induction false} AtoiOf(blank: string, sign: string, s: string, n: nat, rest: string)
    requires Blank(blank) && Sign(sign) && Spells(s, 10, n) && (rest == [] || !('0' <= rest[0] <= '9'))
    ensures Atoi(blank + sign + s + rest) == Signed(sign, n)
    decreases |blank|
  {
    hide DigitRun, Number, Spells;
    var t := blank + sign + s + rest;
    if blank == [] {
      SpellsDecimal(s, n);
      DigitRunOf(s, rest);
      AtoiSigned(sign, s + rest);
      assert t == sign + (s + rest) && (s + rest)[..|s|] == s && (s + rest)[0] == s[0];
    } else {
      assert t[0] == blank[0] && t[1..] == blank[1..] + sign + s + rest;
      AtoiOf(blank[1..], sign, s, n, rest);
    }
  }

  lemma AtoiOfInt(s: string, x: int)
    requires IntText(s, x)
    ensures Atoi(s) == x
  {
    if x < 0 {
      AtoiOf("", "-", s[1..], -x, "");
      assert "" + "-" + s[1..] + "" == s;
    } else {
      AtoiOf("", "", s, x, "");
      assert "" + "" + s + "" == s;
    }
  }

  lemma StrtolOfNumeral(s: string, n: nat)
    requires Numeral(s, n)
    ensures Strtol(s) == n
  {
    StrtolOf("", "", s, n, "");
    assert "" + "" + s + "" == s;
  }

  /** A text that begins with a letter, or no text at all, is zero. */
  lemma NoNumber(s: string)
    requires s == [] || 'A' <= s[0]
    ensures Atoi(s) == 0 && Strtol(s) == 0
  {
    assert s[..0] == [];
  }

  lemma {:induction false} LeadingDigit(n: nat)
    requires 0 < n
    ensures Digits(n)[0] != '0'
  {
    if 10 <= n { LeadingDigit(n / 10); }
  }

  /** A number printed in decimal reads back with base 0, too. */
  lemma StrtolOfDigits(n: nat)
    ensures Numeral(Digits(n), n) && Strtol(Digits(n)) == n
  {
    DigitsSpell(n);
    if n == 0 { assert Spells("0", 8, 0); } else { LeadingDigit(n); }
    StrtolOfNumeral(Digits(n), n);
  }
}
