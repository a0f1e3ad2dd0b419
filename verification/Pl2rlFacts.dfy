/** What every run of the logging client keeps: the shape of the byte stream on a connection, when
    a send succeeds, and the rate limit on failing connection attempts. */
module Pl2rlFacts {
  import opened Basics
  import opened Wire
  import opened Pl2rl

  // ---------------------------------------------------------------- the shape of a connection

  function Part(p: Piece): seq<byte> {
    Take(p.frame, p.w)
  }

  /** The bytes that a history of sends puts on the wire. */
  function Bytes(ps: seq<Piece>): seq<byte> {
    Concat(seq(|ps|, i requires 0 <= i < |ps| => Part(ps[i])))
  }

  ghost predicate PieceOk(p: Piece) {
    && p.frame == FrameOf(p.what) && Sendable(p.what)
    && p.w <= |p.frame|
    && (p.fate == Whole <==> p.w == |p.frame|)
  }

  /** One REGISTER frame, then pieces of LOG frames.  Only the last piece can be in flight or lost
      with its connection, and nothing follows a REGISTER frame that is not whole. */
  ghost predicate ChanOk(c: Chan, me: Identity) {
    && c.stream == Bytes(c.pieces)
    && (forall i {:trigger PieceOk(c.pieces[i])} :: 0 <= i < |c.pieces| ==> PieceOk(c.pieces[i]))
    && (c.pieces != [] ==> c.pieces[0].what == Reg(me.pid, me.name))
    && (forall i :: 1 <= i < |c.pieces| ==> c.pieces[i].what.Log?)
    && (forall i :: 0 <= i < |c.pieces| - 1 ==>
          c.pieces[i].fate == Whole || (0 < i && c.pieces[i].fate == GivenUp))
  }

  /** A connection that is open between two calls. */
  ghost predicate Ready(c: Chan) {
    c.pieces != [] && c.pieces[0].fate == Whole && (Last(c).fate == Whole || Last(c).fate == GivenUp)
  }

  lemma BytesSnoc(front: seq<Piece>, p: Piece)
    ensures Bytes(front + [p]) == Bytes(front) + Part(p)
  {
    var ps := front + [p];
    var a := seq(|front|, i requires 0 <= i < |front| => Part(front[i]));
    assert seq(|ps|, i requires 0 <= i < |ps| => Part(ps[i])) == a + [Part(p)];
    ConcatAppend(a, [Part(p)]);
    assert Concat([Part(p)]) == Part(p) + [];
  }

  lemma BeginKeepsOk(c: Chan, me: Identity, x: What)
    requires ChanOk(c, me) && Sendable(x)
    requires if c.pieces == [] then x == Reg(me.pid, me.name) else Ready(c) && x.Log?
    ensures ChanOk(Begin(c, x, FrameOf(x)), me) && Sending(Begin(c, x, FrameOf(x)))
    ensures Begin(c, x, FrameOf(x)).stream == c.stream
  {
    var p := Piece(x, FrameOf(x), 0, InFlight);
    BytesSnoc(c.pieces, p);
    FrameShape(x);
    assert Part(p) == [];
  }

  lemma AdvanceKeepsOk(c: Chan, me: Identity, p: Progress)
    requires ChanOk(c, me) && Sending(c) && Last(c).w <= p.w <= |Last(c).frame|
    requires p.Sent? <==> p.w == |Last(c).frame|
    ensures ChanOk(Advance(c, p), me)
    ensures c.stream <= Advance(c, p).stream
  {
    AdvanceBytes(c, p);
    assert PieceOk(c.pieces[|c.pieces| - 1]);
    PieceAdvances(Last(c), p);
    forall i | 0 <= i < |c.pieces|
      ensures PieceOk(Advance(c, p).pieces[i])
    {
      if i < |c.pieces| - 1 { assert PieceOk(c.pieces[i]); }
    }
  }

  lemma AdvanceBytes(c: Chan, p: Progress)
    requires Sending(c) && Last(c).w <= p.w <= |Last(c).frame| && c.stream == Bytes(c.pieces)
    ensures Advance(c, p).stream == Bytes(Advance(c, p).pieces)
  {
    var last := Last(c);
    var last' := last.(w := p.w, fate := FateOf(p));
    var front := c.pieces[..|c.pieces| - 1];
    assert c.pieces == front + [last] && Advance(c, p).pieces == front + [last'];
    BytesSnoc(front, last);
    BytesSnoc(front, last');
    assert Part(last') == Part(last) + last.frame[last.w..p.w];
  }

  lemma PieceAdvances(last: Piece, p: Progress)
    requires PieceOk(last) && last.w <= p.w <= |last.frame| && (p.Sent? <==> p.w == |last.frame|)
    ensures PieceOk(last.(w := p.w, fate := FateOf(p)))
  {
  }

  /** A send of the frame of `x` adds one piece: a prefix of the frame, in order, whole exactly when
      the send reports success. */
  lemma {:induction false} SendLoopKeepsOk(c: Chan, me: Identity, tries: nat, os: Script)
    requires ChanOk(c, me) && Sending(c) && 0 < tries <= RETRIES
    ensures var (d, p) := SendLoop(c, tries, os);
            && ChanOk(d, me) && c.stream <= d.stream && !p.More?
            && |d.pieces| == |c.pieces| && d.pieces[..|d.pieces| - 1] == c.pieces[..|c.pieces| - 1]
            && Last(d) == Last(c).(w := p.w, fate := FateOf(p))
            && (p.Sent? <==> p.w == |Last(c).frame|)
    decreases tries
  {
    var (c', p) := AttemptOnce(c, tries, os[RETRIES - tries]);
    AdvanceKeepsOk(c, me, p);
    if p.More? { SendLoopKeepsOk(c', me, p.tries, os); }
  }

  /** Every connection of the client is well shaped, and the open one is ready for the next call. */
  ghost predicate ClientOk(s: Client, me: Identity) {
    && Consistent(s)
    && (forall i :: 0 <= i < |s.chans| ==> ChanOk(s.chans[i], me))
    && (0 <= s.fd ==> Ready(s.chans[s.fd]))
  }

  lemma SendKeepsOk(s: Client, me: Identity, x: What, os: Script)
    requires Consistent(s) && 0 <= s.fd && Sendable(x)
    requires forall i :: 0 <= i < |s.chans| ==> ChanOk(s.chans[i], me)
    requires if s.chans[s.fd].pieces == [] then x == Reg(me.pid, me.name) else Ready(s.chans[s.fd]) && x.Log?
    ensures var (t, ok) := SendFrame(s, x, os);
            && |t.chans| == |s.chans|
            && (forall i :: 0 <= i < |t.chans| ==> ChanOk(t.chans[i], me))
            && (forall i :: 0 <= i < |t.chans| && i != s.fd ==> t.chans[i] == s.chans[i])
            && var d := t.chans[s.fd];
            && |d.pieces| == |s.chans[s.fd].pieces| + 1
            && d.pieces[..|d.pieces| - 1] == s.chans[s.fd].pieces
            && Last(d).what == x
            && (ok <==> Last(d).w == |FrameOf(x)|)
            && (t.fd == s.fd || (t.fd == -1 && Last(d).fate == Lost && !ok))
            && (t.fd == s.fd ==> Last(d).fate == (if ok then Whole else GivenUp))
  {
    BeginKeepsOk(s.chans[s.fd], me, x);
    SendLoopKeepsOk(Begin(s.chans[s.fd], x, FrameOf(x)), me, RETRIES, os);
  }

  lemma ConnectKeepsOk(s: Client, me: Identity, now: int, a: Attempt)
    requires ClientOk(s, me)
    ensures ClientOk(ConnectNow(s, me, now, a).0, me)
  {
    if s.fd < 0 && !Blocked(s.lastAttempt, now) && a.Connected? {
      var s' := Client(|s.chans|, 0, s.chans + [NO_CHAN]);
      assert Bytes([]) == [];
      SendKeepsOk(s', me, Reg(me.pid, me.name), a.os);
    }
  }

  lemma LogKeepsOk(s: Client, me: Identity, now: int, a: Attempt, m: Message, os: Script)
    requires ClientOk(s, me)
    ensures ClientOk(LogMessage(s, me, now, a, m, os), me)
  {
    ConnectKeepsOk(s, me, now, a);
    var (t, ok) := if s.fd < 0 then ConnectNow(s, me, now, a) else (s, true);
    if ok && LogLength(m) <= BUF_LEN { SendKeepsOk(t, me, Log(m), os); }
  }

  // ---------------------------------------------------------------- runs of the client

  /** A call of the library: pl2rl_init or pl2rl_log, with the clock and the system call outcomes. */
  datatype Call =
    | InitCall(now: int, a: Attempt)
    | LogCall(now: int, a: Attempt, m: Message, os: Script)

  const START := Client(-1, 0, [])

  function StepCall(s: Client, me: Identity, k: Call): (r: Client)
    requires Consistent(s)
    ensures Consistent(r)
  {
    match k
    case InitCall(now, a) => ConnectNow(s, me, now, a).0
    case LogCall(now, a, m, os) => LogMessage(s, me, now, a, m, os)
  }

  function RunCalls(me: Identity, ks: seq<Call>): (r: Client)
    ensures Consistent(r)
  {
    if ks == [] then START else StepCall(RunCalls(me, ks[..|ks| - 1]), me, ks[|ks| - 1])
  }

  lemma {:induction false} ReachableClientOk(me: Identity, ks: seq<Call>)
    ensures ClientOk(RunCalls(me, ks), me)
  {
    if ks != [] {
      var s := RunCalls(me, ks[..|ks| - 1]);
      ReachableClientOk(me, ks[..|ks| - 1]);
      match ks[|ks| - 1] {
        case InitCall(now, a) => ConnectKeepsOk(s, me, now, a);
        case LogCall(now, a, m, os) => LogKeepsOk(s, me, now, a, m, os);
      }
    }
  }

  /** In every reachable state with an open connection, its stream is a whole 40-byte REGISTER frame
      followed by one prefix of a LOG frame per send, proper exactly when that send gave up. */
  lemma {:induction false} OpenStreamShape(me: Identity, ks: seq<Call>)
    ensures var s := RunCalls(me, ks);
            0 <= s.fd ==>
              var ps := s.chans[s.fd].pieces;
              && ps != [] && |FrameOf(Reg(me.pid, me.name))| == REG_LEN
              && s.chans[s.fd].stream == FrameOf(Reg(me.pid, me.name)) + Bytes(ps[1..])
              && forall i :: 1 <= i < |ps| ==> LogPrefix(ps[i])
  {
    ReachableClientOk(me, ks);
    var s := RunCalls(me, ks);
    if 0 <= s.fd {
      var ps := s.chans[s.fd].pieces;
      FirstPiece(ps);
      assert PieceOk(ps[0]);
      FrameShape(ps[0].what);
      forall i | 1 <= i < |ps|
        ensures LogPrefix(ps[i])
      {
        assert PieceOk(ps[i]);
        if i == |ps| - 1 { assert ps[i] == Last(s.chans[s.fd]); }
      }
    }
  }

  /** The piece is a prefix of a LOG frame, and a proper one exactly when its send gave up. */
  ghost predicate LogPrefix(p: Piece) {
    && p.what.Log?
    && Part(p) <= FrameOf(p.what)
    && (|Part(p)| < |FrameOf(p.what)| <==> p.fate == GivenUp)
    && (|Part(p)| == |FrameOf(p.what)| <==> p.fate == Whole)
  }

  lemma FirstPiece(ps: seq<Piece>)
    requires ps != []
    ensures Bytes(ps) == Part(ps[0]) + Bytes(ps[1..])
  {
    var a := seq(|ps|, i requires 0 <= i < |ps| => Part(ps[i]));
    var t := ps[1..];
    assert a[1..] == seq(|t|, i requires 0 <= i < |t| => Part(t[i]));
  }

  // ---------------------------------------------------------------- when a send succeeds

  function Room(os: seq<Outcome>): nat {
    if os == [] then 0 else (if os[0].Wrote? then os[0].room else 0) + Room(os[1..])
  }

  /** The first `k` attempts meet no error and together have room for `need` bytes. */
  predicate Suffices(os: seq<Outcome>, k: nat, need: int)
    requires k <= |os|
  {
    (forall i :: 0 <= i < k ==> !os[i].Failed?) && need <= Room(os[..k])
  }

  ghost predicate SufficesWithin(os: seq<Outcome>, n: nat, need: int)
    requires n <= |os|
  {
    exists k: nat :: 0 < k <= n && Suffices(os, k, need)
  }

  /** The send succeeds within its `tries` attempts exactly when some first attempts, all without
      an error, together had room for what was left of the frame. */
  lemma {:induction false} SendSucceedsIff(c: Chan, tries: nat, os: Script)
    requires Sending(c) && 0 < tries <= RETRIES
    ensures SendLoop(c, tries, os).1.Sent? <==>
            SufficesWithin(os[RETRIES - tries..], tries, |Last(c).frame| - Last(c).w)
    decreases tries
  {
    var rest := os[RETRIES - tries..];
    var need := |Last(c).frame| - Last(c).w;
    var (c', p) := AttemptOnce(c, tries, rest[0]);
    if p.More? {
      var need' := |Last(c').frame| - Last(c').w;
      SendSucceedsIff(c', p.tries, os);
      assert SendLoop(c, tries, os).1 == SendLoop(c', p.tries, os).1;
      assert rest[1..] == os[RETRIES - p.tries..];
      forall k: nat | 0 < k <= tries
        ensures Suffices(rest, k, need) <==> 1 < k && Suffices(rest[1..], k - 1, need')
      {
        SufficesNext(rest, k, need);
      }
      if k: nat :| 0 < k <= p.tries && Suffices(rest[1..], k, need') {
        assert Suffices(rest, k + 1, need);
      }
    } else {
      SufficesNext(rest, 1, need);
      forall k: nat | 0 < k <= tries && Suffices(rest, k, need)
        ensures p.Sent?
      {
        SufficesNext(rest, k, need);
      }
    }
  }

  lemma SufficesNext(os: seq<Outcome>, k: nat, need: int)
    requires 0 < k <= |os| && 0 < need
    ensures var got := if os[0].Wrote? then os[0].room else 0;
            Suffices(os, k, need) <==> !os[0].Failed? && Suffices(os[1..], k - 1, need - got)
  {
    assert os[..k][1..] == os[1..][..k - 1];
    if Suffices(os[1..], k - 1, need - (if os[0].Wrote? then os[0].room else 0)) && !os[0].Failed? {
      forall i | 0 <= i < k
        ensures !os[i].Failed?
      {
        if 0 < i { assert os[i] == os[1..][i - 1]; }
      }
    }
  }

  // ---------------------------------------------------------------- when a send closes the connection

  /** None of the first up to `k` attempts had room for `need` bytes. */
  ghost predicate NotYet(os: seq<Outcome>, k: nat, need: int)
    requires k <= |os|
  {
    forall j: nat {:trigger Suffices(os, j, need)} :: j <= k ==> !Suffices(os, j, need)
  }

  /** An attempt meets an error before the attempts have had room for `need` bytes. */
  ghost predicate FailsWithin(os: seq<Outcome>, n: nat, need: int)
    requires n <= |os|
  {
    exists k: nat {:trigger NotYet(os, k, need)} :: k < n && os[k].Failed? && NotYet(os, k, need)
  }

  lemma FailsNext(os: seq<Outcome>, n: nat, need: int)
    requires 0 < n <= |os| && 0 < need
    ensures var got := if os[0].Wrote? then os[0].room else 0;
            FailsWithin(os, n, need) <==> os[0].Failed? || (got < need && FailsWithin(os[1..], n - 1, need - got))
  {
    var got := if os[0].Wrote? then os[0].room else 0;
    assert !Suffices(os, 0, need) by { assert os[..0] == []; }
    forall j: nat | 0 < j <= n
      ensures Suffices(os, j, need) <==> !os[0].Failed? && Suffices(os[1..], j - 1, need - got)
    {
      SufficesNext(os, j, need);
    }
    if os[0].Failed? { assert NotYet(os, 0, need); }
    if k: nat :| k < n && os[k].Failed? && NotYet(os, k, need) {
      if !os[0].Failed? {
        var tail, left := os[1..], need - got;
        assert !Suffices(os, 1, need) && tail[k - 1].Failed? && tail[..0] == [];
        forall j: nat | j <= k - 1
          ensures !Suffices(tail, j, left)
        {
          assert !Suffices(os, j + 1, need);
        }
        assert NotYet(tail, k - 1, left);
      }
    }
    if got < need && !os[0].Failed? {
      if k: nat :| k < n - 1 && os[1..][k].Failed? && NotYet(os[1..], k, need - got) {
        forall j: nat | j <= k + 1
          ensures !Suffices(os, j, need)
        {
          if 0 < j { assert !Suffices(os[1..], j - 1, need - got); }
        }
        assert os[k + 1].Failed? && NotYet(os, k + 1, need);
      }
    }
  }

  /** A send is broken off exactly when one of its attempts meets an error before the frame is out. */
  lemma {:induction false} SendBreaksIff(c: Chan, tries: nat, os: Script)
    requires Sending(c) && 0 < tries <= RETRIES
    ensures SendLoop(c, tries, os).1.Broken? <==>
            FailsWithin(os[RETRIES - tries..], tries, |Last(c).frame| - Last(c).w)
    decreases tries
  {
    hide FailsWithin;
    var rest := os[RETRIES - tries..];
    var need := |Last(c).frame| - Last(c).w;
    var (c', p) := AttemptOnce(c, tries, rest[0]);
    FailsNext(rest, tries, need);
    if p.More? {
      SendBreaksIff(c', p.tries, os);
      assert rest[1..] == os[RETRIES - p.tries..];
    } else {
      NoneFails(rest[1..], need - if rest[0].Wrote? then rest[0].room else 0);
    }
  }

  lemma NoneFails(os: seq<Outcome>, need: int)
    ensures !FailsWithin(os, 0, need)
  {
  }

  /** A send closes its connection exactly when an attempt meets an error before the frame is out: the next message
      then connects anew, at once.  Otherwise the connection stays, whatever was written of the frame. */
  lemma SendClosesIff(s: Client, x: What, os: Script)
    requires Consistent(s) && 0 <= s.fd
    ensures var t := SendFrame(s, x, os).0;
            && (t.fd == -1 && t.lastAttempt == 0 <==> FailsWithin(os, 3, |FrameOf(x)|))
            && (!FailsWithin(os, 3, |FrameOf(x)|) ==> t.fd == s.fd && t.lastAttempt == s.lastAttempt)
  {
    hide FailsWithin, FrameOf;
    FrameIsSomething(x);
    var b := Begin(s.chans[s.fd], x, FrameOf(x));
    assert os[RETRIES - RETRIES..] == os;
    SendBreaksIff(b, RETRIES, os);
  }

  /** A send reports success exactly when the first so many attempts, none of them an error, have room for the
      frame. */
  lemma SendOkIff(s: Client, x: What, os: Script)
    requires Consistent(s)
    ensures SendFrame(s, x, os).1 <==> 0 <= s.fd && SufficesWithin(os, 3, |FrameOf(x)|)
  {
    hide SufficesWithin, FrameOf;
    if 0 <= s.fd {
      FrameIsSomething(x);
      assert os[RETRIES - RETRIES..] == os;
      SendSucceedsIff(Begin(s.chans[s.fd], x, FrameOf(x)), RETRIES, os);
    }
  }

  /** EAGAIN and short writes alone never close a connection. */
  lemma NoErrorKeepsOpen(s: Client, x: What, os: Script)
    requires Consistent(s) && 0 <= s.fd && forall k :: 0 <= k < 3 ==> !os[k].Failed?
    ensures SendFrame(s, x, os).0.fd == s.fd
  {
    hide FrameOf;
    SendClosesIff(s, x, os);
  }

  // ---------------------------------------------------------------- the rate limit

  function Time(k: Call): int {
    k.now
  }

  /** The clock of the calls is positive and never runs backwards. */
  predicate ClockOk(ks: seq<Call>) {
    && (forall i :: 0 <= i < |ks| ==> 0 < Time(ks[i]))
    && (forall i, j :: 0 <= i < j < |ks| ==> Time(ks[i]) <= Time(ks[j]))
  }

  /** The call makes a connection attempt that fails before the connection is up. */
  predicate FailsEarly(s: Client, k: Call) {
    s.fd < 0 && !Blocked(s.lastAttempt, k.now) && !k.a.Connected?
  }

  function FailTimes(me: Identity, ks: seq<Call>): seq<int> {
    if ks == [] then []
    else
      var front := ks[..|ks| - 1];
      FailTimes(me, front)
      + (if FailsEarly(RunCalls(me, front), ks[|ks| - 1]) then [Time(ks[|ks| - 1])] else [])
  }

  predicate Increasing(ts: seq<int>) {
    forall i, j :: 0 <= i < j < |ts| ==> ts[i] < ts[j]
  }

  /** `ts` are the early failures so far, and `now` is a time no later than the next call. */
  predicate RateOk(s: Client, ts: seq<int>, now: int) {
    && Increasing(ts)
    && (ts != [] ==> ts[|ts| - 1] <= now)
    && (s.lastAttempt != 0 ==> ts != [] && ts[|ts| - 1] == s.lastAttempt)
    && (s.lastAttempt == 0 && ts != [] ==> ts[|ts| - 1] < now)
    && (0 <= s.fd ==> s.lastAttempt == 0)
  }

  /** Only an early failure sets the last attempt time; a connection that comes up clears it. */
  lemma {:induction false} LastAttemptAfter(s: Client, me: Identity, k: Call)
    requires Consistent(s) && (0 <= s.fd ==> s.lastAttempt == 0)
    ensures var t := StepCall(s, me, k);
            && (0 <= t.fd ==> t.lastAttempt == 0)
            && if FailsEarly(s, k) then t.fd < 0 && t.lastAttempt == k.now
               else t.lastAttempt == s.lastAttempt || (t.lastAttempt == 0 && !Blocked(s.lastAttempt, k.now))
  {
  }

  /** No two attempts that fail before connecting happen in the same second, whatever connects,
      registers, fails to register or disconnects in between. */
  lemma {:induction false} FailuresStrictlyIncrease(me: Identity, ks: seq<Call>)
    requires ClockOk(ks)
    ensures RateOk(RunCalls(me, ks), FailTimes(me, ks), if ks == [] then 0 else Time(ks[|ks| - 1]))
    ensures Increasing(FailTimes(me, ks))
  {
    if ks != [] {
      var front, k := ks[..|ks| - 1], ks[|ks| - 1];
      FailuresStrictlyIncrease(me, front);
      if front != [] { assert Time(front[|front| - 1]) <= Time(k); }
      RateOkStep(RunCalls(me, front), me, k, FailTimes(me, front));
    }
  }

  lemma RateOkStep(s: Client, me: Identity, k: Call, ts: seq<int>)
    requires Consistent(s) && RateOk(s, ts, k.now) && 0 < k.now
    ensures RateOk(StepCall(s, me, k), ts + (if FailsEarly(s, k) then [k.now] else []), k.now)
  {
    LastAttemptAfter(s, me, k);
    if !FailsEarly(s, k) { assert ts + [] == ts; }
  }

  function CountIn(ts: seq<int>, from: int, to: int): nat {
    if ts == [] then 0
    else CountIn(ts[..|ts| - 1], from, to) + (if from <= ts[|ts| - 1] <= to then 1 else 0)
  }

  lemma {:induction false} IncreasingCount(ts: seq<int>, from: int, to: int)
    requires Increasing(ts)
    ensures CountIn(ts, from, to) <= if ts == [] || Min(to, ts[|ts| - 1]) < from then 0
                                     else Min(to, ts[|ts| - 1]) - from + 1
  {
    if ts != [] {
      var front := ts[..|ts| - 1];
      IncreasingCount(front, from, to);
      if front != [] { assert front[|front| - 1] < ts[|ts| - 1]; }
    }
  }

  /** Any window of the clock holds at most one early failure per second. */
  lemma {:induction false} FailuresPerWindow(me: Identity, ks: seq<Call>, from: int, to: int)
    requires ClockOk(ks) && from <= to
    ensures CountIn(FailTimes(me, ks), from, to) <= to - from + 1
  {
    FailuresStrictlyIncrease(me, ks);
    IncreasingCount(FailTimes(me, ks), from, to);
  }

  // ---------------------------------------------------------------- what the rate limit does not cover

  /** The call gets as far as an attempt to connect. */
  predicate Attempts(s: Client, k: Call) {
    s.fd < 0 && !Blocked(s.lastAttempt, k.now)
  }

  predicate AttemptAt(me: Identity, ks: seq<Call>, i: nat)
    requires i < |ks|
  {
    Attempts(RunCalls(me, ks[..i]), ks[i])
  }

  /** An attempt in the same second as an earlier one comes only after one that connected. */
  lemma SameSecondConnected(me: Identity, ks: seq<Call>, i: nat, j: nat)
    requires ClockOk(ks) && i < j < |ks| && AttemptAt(me, ks, i) && AttemptAt(me, ks, j)
    requires Time(ks[i]) == Time(ks[j])
    ensures ks[i].a.Connected?
  {
    if !ks[i].a.Connected? {
      assert ks[..i + 1][..i] == ks[..i];
      BlockedUntil(me, ks, i, j);
    }
  }

  /** For the rest of its second, an attempt that failed early blocks every other. */
  lemma {:induction false} BlockedUntil(me: Identity, ks: seq<Call>, i: nat, j: nat)
    requires ClockOk(ks) && i < j < |ks| && AttemptAt(me, ks, i) && !ks[i].a.Connected?
    requires Time(ks[i]) == Time(ks[j])
    ensures RunCalls(me, ks[..j]).fd < 0 && RunCalls(me, ks[..j]).lastAttempt == Time(ks[i])
    decreases j
  {
    hide StepCall, Blocked;
    var before, s := ks[..j], RunCalls(me, ks[..j - 1]);
    assert before[..j - 1] == ks[..j - 1] && before[j - 1] == ks[j - 1];
    if i < j - 1 {
      assert Time(ks[i]) <= Time(ks[j - 1]) <= Time(ks[j]);
      BlockedUntil(me, ks, i, j - 1);
      StaysBlocked(s, me, ks[j - 1]);
    } else {
      LastAttemptAfter(s, me, ks[i]);
    }
  }

  lemma StaysBlocked(s: Client, me: Identity, k: Call)
    requires Consistent(s) && s.fd < 0 && s.lastAttempt == k.now != 0
    ensures StepCall(s, me, k) == s
  {
  }

  ghost predicate AttemptsApart(me: Identity, ks: seq<Call>) {
    forall i: nat, j: nat :: i < j < |ks| && AttemptAt(me, ks, i) && AttemptAt(me, ks, j) ==> Time(ks[i]) != Time(ks[j])
  }

  /** No attempt that connects is followed by another attempt in its second. */
  ghost predicate ConnectionsLast(me: Identity, ks: seq<Call>) {
    forall i: nat, j: nat ::
      i < j < |ks| && AttemptAt(me, ks, i) && AttemptAt(me, ks, j) && ks[i].a.Connected? ==> Time(ks[i]) != Time(ks[j])
  }

  /** A run keeps to one attempt a second exactly when no attempt that connects is followed by another in its
      second. */
  lemma OncePerSecondIff(me: Identity, ks: seq<Call>)
    requires ClockOk(ks)
    ensures AttemptsApart(me, ks) <==> ConnectionsLast(me, ks)
  {
    if ConnectionsLast(me, ks) {
      forall i: nat, j: nat | i < j < |ks| && AttemptAt(me, ks, i) && AttemptAt(me, ks, j)
        ensures Time(ks[i]) != Time(ks[j])
      {
        if Time(ks[i]) == Time(ks[j]) { SameSecondConnected(me, ks, i, j); }
      }
    }
  }

  /** A call that attempts to connect lets the next call of the same second attempt it again exactly when the
      connection came up and is gone by its end. */
  lemma AgainInSecondIff(s: Client, me: Identity, k: Call, next: Call)
    requires Consistent(s) && Attempts(s, k) && 0 < k.now == next.now
    ensures Attempts(StepCall(s, me, k), next) <==> k.a.Connected? && StepCall(s, me, k).fd < 0
  {
    hide FrameOf;
    if k.a.Connected? {
      var up := Client(|s.chans|, 0, s.chans + [NO_CHAN]);
      SendClosesOrKeeps(up, Reg(me.pid, me.name), k.a.os);
      var t := ConnectNow(s, me, k.now, k.a).0;
      if k.LogCall? && 0 <= t.fd { SendClosesOrKeeps(t, Log(k.m), k.os); }
    }
  }

  lemma SendClosesOrKeeps(s: Client, x: What, os: Script)
    requires Consistent(s) && s.lastAttempt == 0
    ensures SendFrame(s, x, os).0.lastAttempt == 0
  {
  }

  /** After any calls, a client without a connection tries to connect again exactly when its last attempt that failed
      early was not in the current second: if it can, a new connection comes up, and if not, the failure is noted. */
  lemma TriesAgainIff(me: Identity, ks: seq<Call>, k: Call)
    requires ClockOk(ks + [k]) && RunCalls(me, ks).fd < 0
    ensures var s, t := RunCalls(me, ks), StepCall(RunCalls(me, ks), me, k);
            var fails := FailTimes(me, ks);
            var tries := fails == [] || fails[|fails| - 1] != Time(k);
            && (k.a.Connected? ==> |t.chans| == |s.chans| + if tries then 1 else 0)
            && (!k.a.Connected? ==> t == if tries then s.(lastAttempt := Time(k)) else s)
  {
    hide FailTimes, SendFrame, FrameOf;
    var n := |ks|;
    assert (ks + [k])[n] == k && forall i :: 0 <= i < n ==> (ks + [k])[i] == ks[i];
    FailuresStrictlyIncrease(me, ks);
    NewConnectionCounts(RunCalls(me, ks), me, k);
  }

  /** A call without a connection opens one exactly when it gets to dial and the dial succeeds. */
  lemma NewConnectionCounts(s: Client, me: Identity, k: Call)
    requires Consistent(s) && s.fd < 0
    ensures |StepCall(s, me, k).chans| == |s.chans| + if Attempts(s, k) && k.a.Connected? then 1 else 0
  {
    hide FrameOf, SendLoop;
  }

  /** The limit does not cover attempts that connect and then fail to register: the same second can
      hold any number of them. */
  lemma {:induction false} RegistrationFailuresAreNotLimited(me: Identity, now: int, n: nat)
    requires 0 < now
    ensures var ks := seq(n, _ => InitCall(now, Connected([Failed, Failed, Failed])));
            && |RunCalls(me, ks).chans| == n && RunCalls(me, ks).fd == -1
            && RunCalls(me, ks).lastAttempt == 0
  {
    var ks := seq(n, _ => InitCall(now, Connected([Failed, Failed, Failed])));
    if n != 0 {
      RegistrationFailuresAreNotLimited(me, now, n - 1);
      assert ks[..n - 1] == seq(n - 1, _ => InitCall(now, Connected([Failed, Failed, Failed])));
      FrameShape(Reg(me.pid, me.name));
    }
  }
}
