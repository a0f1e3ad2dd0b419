/** The byte format shared by the log client and the log daemon: a 4-byte header (type, length),
    then a REGISTER body (pid, 32-byte name field) or a LOG body (severity, module, text length)
    followed by the text.  Integers are little-endian: both ends run on one machine. */
module Wire {
  import opened Basics

  type byte = x: int | 0 <= x < 0x100
  type uint16 = x: int | 0 <= x < 0x1_0000
  type uint32 = x: int | 0 <= x < 0x1_0000_0000

  const TYPE_REGISTER: uint16 := 0
  const TYPE_LOG: uint16 := 1
  const TYPE_MAX: uint16 := 2

  const HDR_LEN := 4
  const REG_LEN := 40       // header + pid + name field
  const LOG_LEN := 8        // header + severity + module + text length
  const BUF_LEN := 4096
  const NAME_LEN := 32

  /** The contents of a C string: no NUL inside. */
  type CText = s: seq<byte> | 0 !in s

  /** Text whose frame length still fits the 16-bit length field. */
  type Text = s: CText | |s| <= 0xFFFF - LOG_LEN

  datatype Message = Message(severity: byte, mod: byte, text: Text)

  /** What one frame carries. */
  datatype What = Reg(pid: uint32, name: CText) | Log(m: Message)

  function Le16(n: uint16): seq<byte> {
    [n % 0x100, n / 0x100]
  }

  function U16(b: seq<byte>, at: nat): uint16
    requires at + 2 <= |b|
  {
    (b[at] as int) + 0x100 * (b[at + 1] as int)
  }

  function Le32(n: uint32): seq<byte> {
    Le16(n % 0x1_0000) + Le16(n / 0x1_0000)
  }

  function U32(b: seq<byte>, at: nat): uint32
    requires at + 4 <= |b|
  {
    U16(b, at) + 0x1_0000 * U16(b, at + 2)
  }

  function Zeros(n: nat): seq<byte> {
    seq(n, _ => 0)
  }

  /** The bytes before the first NUL, as every C string function sees them. */
  function UptoNul(s: seq<byte>): (r: CText)
    ensures r <= s && (|r| < |s| ==> s[|r|] == 0)
  {
    if s == [] || s[0] == 0 then [] else [s[0]] + UptoNul(s[1..])
  }

  /** What a printf into the zeroed 32-byte name field with size 31 leaves there. */
  function NameField(name: CText): (r: seq<byte>)
    ensures |r| == NAME_LEN
  {
    Take(name, NAME_LEN - 2) + Zeros(NAME_LEN - |Take(name, NAME_LEN - 2)|)
  }

  function LogLength(m: Message): uint16 {
    (LOG_LEN + |m.text|) % 0x1_0000
  }

  function FrameOf(x: What): seq<byte> {
    match x
    case Reg(pid, name) => Le16(TYPE_REGISTER) + Le16(REG_LEN) + Le32(pid) + NameField(name)
    case Log(m) =>
      Le16(TYPE_LOG) + Le16(LogLength(m)) + [m.severity, m.mod] + Le16(|m.text| % 0x1_0000) + m.text
  }

  /** The client sends a LOG frame only when it fits its buffer. */
  predicate Sendable(x: What) {
    x.Log? ==> LogLength(x.m) <= BUF_LEN
  }

  /** A frame that fits the daemon's buffer and whose length field counts its own bytes. */
  predicate SelfDelimited(f: seq<byte>) {
    HDR_LEN <= |f| <= BUF_LEN && U16(f, 2) == |f|
  }

  type Frame = f: seq<byte> | SelfDelimited(f) witness [0, 0, 4, 0]

  function Concat(fs: seq<seq<byte>>): seq<byte> {
    if fs == [] then [] else fs[0] + Concat(fs[1..])
  }

  // ---------------------------------------------------------------- round trips

  lemma Le32RoundTrip(n: uint32, pre: seq<byte>, post: seq<byte>)
    ensures U32(pre + Le32(n) + post, |pre|) == n
  {
    var s := pre + Le32(n) + post;
    assert s[|pre|] == n % 0x1_0000 % 0x100 && s[|pre| + 1] == n % 0x1_0000 / 0x100;
    assert s[|pre| + 2] == n / 0x1_0000 % 0x100 && s[|pre| + 3] == n / 0x1_0000 / 0x100;
  }

  lemma {:induction false} UptoNulStops(s: CText, rest: seq<byte>)
    requires rest == [] || rest[0] == 0
    ensures UptoNul(s + rest) == s
  {
    if s == [] {
      assert s + rest == rest;
    } else {
      assert (s + rest)[1..] == s[1..] + rest;
      UptoNulStops(s[1..], rest);
    }
  }

  /** The three regions of a frame that the daemon reads back. */
  lemma {:induction false} FrameShape(x: What)
    requires Sendable(x)
    ensures SelfDelimited(FrameOf(x))
    ensures U16(FrameOf(x), 0) == (if x.Reg? then TYPE_REGISTER else TYPE_LOG)
    ensures x.Reg? ==> |FrameOf(x)| == REG_LEN && FrameOf(x)[8..] == NameField(x.name)
                       && U32(FrameOf(x), 4) == x.pid
    ensures x.Log? ==> |FrameOf(x)| == LOG_LEN + |x.m.text| && FrameOf(x)[8..] == x.m.text
                       && FrameOf(x)[4] == x.m.severity && FrameOf(x)[5] == x.m.mod
                       && U16(FrameOf(x), 6) == |x.m.text|
  {
    match x
    case Reg(pid, name) =>
      Le32RoundTrip(pid, Le16(TYPE_REGISTER) + Le16(REG_LEN), NameField(name));
    case Log(m) =>
  }

  /** A frame byte by byte: type and length, then the pid and the name, or the severity, the module, the
      length of the text and the text. */
  lemma FrameBytes(x: What)
    requires Sendable(x)
    ensures var f := FrameOf(x);
            && (f[0] as int) + 0x100 * (f[1] as int) == (if x.Reg? then 0 else 1)
            && (f[2] as int) + 0x100 * (f[3] as int) == |f|
    ensures x.Reg? ==>
              var f, n := FrameOf(x), Min(|x.name|, 30);
              && |f| == 40
              && (f[4] as int) + 0x100 * (f[5] as int) + 0x1_0000 * (f[6] as int) + 0x100_0000 * (f[7] as int) == x.pid
              && f[8..8 + n] == x.name[..n] && forall i :: 8 + n <= i < 40 ==> f[i] == 0
    ensures x.Log? ==>
              var f := FrameOf(x);
              && f[4] == x.m.severity && f[5] == x.m.mod
              && (f[6] as int) + 0x100 * (f[7] as int) == |x.m.text| && f[8..] == x.m.text
  {
    FrameShape(x);
    if x.Reg? {
      var f, n := FrameOf(x), Min(|x.name|, 30);
      forall i | 0 <= i < 32
        ensures f[8 + i] == NameField(x.name)[i]
      {
        assert f[8..][i] == f[8 + i];
      }
    }
  }

  // ---------------------------------------------------------------- unique parsing

  lemma {:induction false} ConcatAppend(a: seq<seq<byte>>, b: seq<seq<byte>>)
    ensures Concat(a + b) == Concat(a) + Concat(b)
  {
    if a == [] {
      assert a + b == b;
    } else {
      assert (a + b)[1..] == a[1..] + b;
      ConcatAppend(a[1..], b);
      assert Concat(a + b) == a[0] + (Concat(a[1..]) + Concat(b));
    }
  }

  lemma {:induction false} ConcatGrows(a: seq<Frame>, b: seq<Frame>)
    requires a <= b
    ensures Concat(a) <= Concat(b)
    ensures |a| < |b| ==> |Concat(a)| < |Concat(b)|
  {
    assert b == a + b[|a|..];
    ConcatAppend(a, b[|a|..]);
  }

  /** A byte stream splits into self-delimited frames in one way only: two splittings of prefixes
      of the same stream always agree as far as the shorter one goes. */
  lemma {:induction false} UniqueParse(a: seq<Frame>, b: seq<Frame>, s: seq<byte>)
    requires Concat(a) <= s && Concat(b) <= s
    ensures a <= b || b <= a
  {
    if a != [] && b != [] {
      assert a[0] <= Concat(a) && b[0] <= Concat(b);
      assert a[0] <= s && b[0] <= s;
      assert U16(a[0], 2) == U16(s, 2) == U16(b[0], 2);
      assert a[0] == b[0] == s[..|a[0]|];
      var t := s[|a[0]|..];
      assert Concat(a)[|a[0]|..] == Concat(a[1..]) && Concat(b)[|a[0]|..] == Concat(b[1..]);
      UniqueParse(a[1..], b[1..], t);
      assert a == [a[0]] + a[1..] && b == [b[0]] + b[1..];
    }
  }
}
