/** The daemon as a step system: accepts, wakeups split into their two reads, hangups and shutdown,
    over byte streams that others extend between any two steps. */
module Pl2rldRuns {
  import opened Basics
  import opened Wire
  import opened Pl2rld

  /** The daemon's end of a connection: bytes read, the frames handled (as they stood in the receive
      buffer), and the records emitted for it. */
  datatype Tap = Tap(accepted: bool, rd: nat, bufs: seq<Buffer>, out: seq<Record>)

  const NEW_TAP := Tap(false, 0, [], [])

  datatype Phase = Waiting | InBody(c: nat, hdr: seq<byte>) | Stuck

  datatype State = State(taps: seq<Tap>, clients: seq<Entry>, phase: Phase)

  /** A read may hand over any number of the bytes that are there. */
  datatype ReadResult = Got(n: nat) | NotNow | Failed

  datatype Step =
    | Accept(c: nat)
    | Wake(c: nat, r: ReadResult)
    | Body(r: ReadResult, stale: Stale)
    | Hangup(c: nat)
    | Shutdown

  function ReadAt(s: seq<byte>, at: nat, want: nat, r: ReadResult): (b: Read)
    requires at <= |s|
    ensures b.Data? ==> |b.bytes| <= want && at + |b.bytes| <= |s| && b.bytes == s[at..at + |b.bytes|]
    ensures r.Got? ==> b.Data? && |b.bytes| == Min(r.n, Min(want, |s| - at))
  {
    match r
    case NotNow => WouldBlock
    case Failed => Error
    case Got(n) => Data(s[at..at + Min(n, Min(want, |s| - at))])
  }

  function Drop(d: State, c: nat): State {
    d.(clients := Without(d.clients, c), phase := Waiting)
  }

  /** The second read of a wakeup: the frame, if it came whole, and its effect on its client. */
  function TakeBody(t: Tap, v: Entry, hdr: seq<byte>, s: seq<byte>, r: ReadResult, stale: Stale): (Tap, Effect)
    requires IsHeader(hdr) && t.rd <= |s|
  {
    var want := U16(hdr, 2) - HDR_LEN;
    var b := ReadAt(s, t.rd, want, r);
    if b.Data? && |b.bytes| == want then
      var buf := Fill(hdr, b.bytes, stale);
      var e := React(v, buf);
      (Tap(t.accepted, t.rd + want, t.bufs + [buf], t.out + (if e.Keep? then e.out else [])), e)
    else (t, Gone)
  }

  predicate InStep(d: State, ss: seq<seq<byte>>) {
    |ss| == |d.taps| && forall c :: 0 <= c < |ss| ==> d.taps[c].rd <= |ss[c]|
  }

  function AcceptStep(d: State, c: nat): State {
    if d.phase.Waiting? && c < |d.taps| && !d.taps[c].accepted then
      d.(taps := d.taps[c := d.taps[c].(accepted := true)], clients := d.clients + [Entry(c, 0, [], false)])
    else d
  }

  function WakeStep(d: State, ss: seq<seq<byte>>, c: nat, r: ReadResult): State
    requires InStep(d, ss)
  {
    if d.phase.Waiting? && Has(d.clients, c) && c < |d.taps| then
      match AfterHeader(ReadAt(ss[c], d.taps[c].rd, HDR_LEN, r))
      case Stay => d
      case Remove => Drop(d, c)
      case Overrun => d.(phase := Stuck)
      case NeedBody(hdr) =>
        d.(taps := d.taps[c := d.taps[c].(rd := d.taps[c].rd + HDR_LEN)], phase := InBody(c, hdr))
    else d
  }

  function BodyStep(d: State, ss: seq<seq<byte>>, r: ReadResult, stale: Stale): State
    requires InStep(d, ss)
  {
    if d.phase.InBody? && Has(d.clients, d.phase.c) && d.phase.c < |d.taps| && IsHeader(d.phase.hdr) then
      var c := d.phase.c;
      var (t, e) := TakeBody(d.taps[c], d.clients[IndexOf(d.clients, c)], d.phase.hdr, ss[c], r, stale);
      State(d.taps[c := t], Apply(d.clients, c, e), Waiting)
    else d
  }

  function Next(d: State, ss: seq<seq<byte>>, step: Step): State
    requires InStep(d, ss)
  {
    match step
    case Accept(c) => AcceptStep(d, c)
    case Wake(c, r) => WakeStep(d, ss, c, r)
    case Body(r, stale) => BodyStep(d, ss, r, stale)
    case Hangup(c) => if d.phase.Waiting? then Drop(d, c) else d
    case Shutdown => if d.phase.Waiting? then d.(clients := []) else d
  }

  // ---------------------------------------------------------------- what every step keeps

  function Fronts(bufs: seq<Buffer>): (fs: seq<Frame>)
    ensures |fs| == |bufs|
  {
    seq(|bufs|, i requires 0 <= i < |bufs| => Front(bufs[i]))
  }

  /** The client entry and the records that a sequence of handled frames leads to. */
  function Replay(c: nat, bufs: seq<Buffer>): (Entry, seq<Record>) {
    if bufs == [] then (Entry(c, 0, [], false), [])
    else
      var (v, out) := Replay(c, bufs[..|bufs| - 1]);
      var e := React(v, bufs[|bufs| - 1]);
      if e.Keep? then (e.v, out + e.out) else (v, out)
  }

  /** The frames handled are the front of the stream, and the records are what they replay to. */
  ghost predicate TapOk(t: Tap, c: nat, s: seq<byte>) {
    && t.rd <= |s|
    && Concat(Fronts(t.bufs)) <= s
    && t.out == Replay(c, t.bufs).1
  }

  /** A client on the list is in step: it has read exactly the frames it has handled. */
  ghost predicate LiveOk(t: Tap, v: Entry, s: seq<byte>, pending: nat) {
    && t.accepted
    && t.rd == |Concat(Fronts(t.bufs))| + pending
    && v == Replay(v.fd, t.bufs).0
  }

  ghost predicate Ok(d: State, ss: seq<seq<byte>>) {
    && |ss| == |d.taps|
    && (forall c :: 0 <= c < |ss| ==> TapOk(d.taps[c], c, ss[c]))
    && Distinct(d.clients)
    && (forall i :: 0 <= i < |d.clients| ==>
          var v := d.clients[i];
          v.fd < |ss| && LiveOk(d.taps[v.fd], v, ss[v.fd], if d.phase.InBody? && d.phase.c == v.fd then HDR_LEN
                                                          else 0))
    && (d.phase.InBody? ==>
          var c, hdr := d.phase.c, d.phase.hdr;
          && Has(d.clients, c) && IsHeader(hdr)
          && var at := d.taps[c].rd - HDR_LEN; 0 <= at && hdr == ss[c][at..at + HDR_LEN])
  }

  lemma FrontsSnoc(bufs: seq<Buffer>, b: Buffer)
    ensures Concat(Fronts(bufs + [b])) == Concat(Fronts(bufs)) + Front(b)
  {
    assert Fronts(bufs + [b]) == Fronts(bufs) + [Front(b)];
    ConcatAppend(Fronts(bufs), [Front(b)]);
    assert Concat([Front(b)]) == Front(b) + [];
  }

  /** Taking one entry out leaves every other entry in place. */
  lemma WithoutKeepsOthers(vs: seq<Entry>, fd: nat)
    requires Distinct(vs)
    ensures Distinct(Without(vs, fd)) && !Has(Without(vs, fd), fd)
    ensures forall v :: v in Without(vs, fd) <==> v in vs && v.fd != fd
  {
    if Has(vs, fd) {
      var k := IndexOf(vs, fd);
      WithoutRemovesExactlyOne(vs, k);
      forall v | v in vs && v.fd != fd
        ensures v in Without(vs, fd)
      {
        var i :| 0 <= i < |vs| && vs[i] == v;
        assert Without(vs, fd)[if i < k then i else i - 1] == v;
      }
    }
  }

  lemma EntryOk(d: State, ss: seq<seq<byte>>, v: Entry)
    requires Ok(d, ss) && v in d.clients
    ensures v.fd < |ss|
    ensures LiveOk(d.taps[v.fd], v, ss[v.fd], if d.phase.InBody? && d.phase.c == v.fd then HDR_LEN else 0)
  {
    var i :| 0 <= i < |d.clients| && d.clients[i] == v;
  }

  lemma DropKeepsOk(d: State, ss: seq<seq<byte>>, c: nat)
    requires Ok(d, ss) && (d.phase.Waiting? || (d.phase.InBody? && d.phase.c == c))
    ensures Ok(Drop(d, c), ss)
  {
    WithoutKeepsOthers(d.clients, c);
    var d' := Drop(d, c);
    forall i | 0 <= i < |d'.clients|
      ensures var v := d'.clients[i]; v.fd < |ss| && LiveOk(d'.taps[v.fd], v, ss[v.fd], 0)
    {
      var v := d'.clients[i];
      assert v in d'.clients;
      EntryOk(d, ss, v);
    }
  }

  lemma AcceptKeepsOk(d: State, ss: seq<seq<byte>>, c: nat)
    requires Ok(d, ss) && d.phase.Waiting? && c < |d.taps| && !d.taps[c].accepted
    requires d.taps[c].rd == 0 && d.taps[c].bufs == []
    ensures Ok(AcceptStep(d, c), ss)
  {
    assert forall i :: 0 <= i < |d.clients| ==> d.clients[i].fd != c;
  }

  lemma WakeKeepsOk(d: State, ss: seq<seq<byte>>, c: nat, r: ReadResult)
    requires Ok(d, ss)
    ensures Ok(WakeStep(d, ss, c, r), ss)
  {
    hide U16, Concat, Fronts;
    if d.phase.Waiting? && Has(d.clients, c) && c < |d.taps| {
      var h := ReadAt(ss[c], d.taps[c].rd, HDR_LEN, r);
      if AfterHeader(h).Remove? {
        DropKeepsOk(d, ss, c);
      } else if AfterHeader(h).NeedBody? {
        var d' := WakeStep(d, ss, c, r);
        assert d'.taps[c].rd == d.taps[c].rd + HDR_LEN <= |ss[c]|;
        assert TapOk(d'.taps[c], c, ss[c]);
        forall i | 0 <= i < |d'.clients|
          ensures var v := d'.clients[i];
                  v.fd < |ss| && LiveOk(d'.taps[v.fd], v, ss[v.fd], if v.fd == c then HDR_LEN else 0)
        {
          EntryOk(d, ss, d.clients[i]);
        }
      }
    }
  }

  /** A whole frame is the next piece of the stream, and its effect is the next step of the replay. */
  lemma TakeBodyOk(t: Tap, v: Entry, hdr: seq<byte>, s: seq<byte>, r: ReadResult, stale: Stale)
    requires TapOk(t, v.fd, s) && LiveOk(t, v, s, HDR_LEN) && IsHeader(hdr)
    requires HDR_LEN <= t.rd && hdr == s[t.rd - HDR_LEN..t.rd]
    ensures var (t', e) := TakeBody(t, v, hdr, s, r, stale);
            && TapOk(t', v.fd, s) && t'.accepted
            && (e.Keep? ==> e.v.fd == v.fd && LiveOk(t', e.v, s, 0))
            && (t'.out == t.out || (v.registered && exists rec :: t'.out == t.out + [rec]))
  {
    hide U16, U32;
    var want := U16(hdr, 2) - HDR_LEN;
    var b := ReadAt(s, t.rd, want, r);
    if b.Data? && |b.bytes| == want {
      var buf := Fill(hdr, b.bytes, stale);
      FrontsSnoc(t.bufs, buf);
      assert (t.bufs + [buf])[..|t.bufs|] == t.bufs;
      var at := t.rd - HDR_LEN;
      assert Concat(Fronts(t.bufs)) == s[..at];
      assert s[..at] + (hdr + b.bytes) == s[..t.rd + want];
    }
  }

  lemma ApplyKeepsOk(d: State, ss: seq<seq<byte>>, c: nat, t: Tap, e: Effect)
    requires Ok(d, ss) && d.phase.InBody? && d.phase.c == c
    requires TapOk(t, c, ss[c]) && (e.Keep? ==> e.v.fd == c && LiveOk(t, e.v, ss[c], 0))
    ensures Ok(State(d.taps[c := t], Apply(d.clients, c, e), Waiting), ss)
  {
    var vs := Apply(d.clients, c, e);
    ApplyMembers(d.clients, c, e);
    forall i | 0 <= i < |vs|
      ensures vs[i].fd < |ss| && LiveOk(d.taps[c := t][vs[i].fd], vs[i], ss[vs[i].fd], 0)
    {
      assert vs[i] in vs;
      if vs[i].fd != c { EntryOk(d, ss, vs[i]); }
    }
  }

  lemma ApplyMembers(vs: seq<Entry>, c: nat, e: Effect)
    requires Distinct(vs) && Has(vs, c) && (e.Keep? ==> e.v.fd == c)
    ensures Distinct(Apply(vs, c, e))
    ensures forall v :: v in Apply(vs, c, e) ==> (v.fd != c && v in vs) || (e.Keep? && v == e.v)
  {
    WithoutKeepsOthers(vs, c);
  }

  lemma BodyKeepsOk(d: State, ss: seq<seq<byte>>, r: ReadResult, stale: Stale)
    requires Ok(d, ss)
    ensures Ok(BodyStep(d, ss, r, stale), ss)
  {
    if d.phase.InBody? {
      var c := d.phase.c;
      var v := d.clients[IndexOf(d.clients, c)];
      EntryOk(d, ss, v);
      TakeBodyOk(d.taps[c], v, d.phase.hdr, ss[c], r, stale);
      var (t, e) := TakeBody(d.taps[c], v, d.phase.hdr, ss[c], r, stale);
      ApplyKeepsOk(d, ss, c, t, e);
    }
  }

  /** A connection that is not yet accepted has not been read. */
  ghost predicate Untouched(d: State) {
    forall c :: 0 <= c < |d.taps| && !d.taps[c].accepted ==> d.taps[c] == NEW_TAP
  }

  lemma {:induction false} NextKeepsOk(d: State, ss: seq<seq<byte>>, step: Step)
    requires Ok(d, ss) && Untouched(d)
    ensures Ok(Next(d, ss, step), ss) && Untouched(Next(d, ss, step))
  {
    match step
    case Accept(c) =>
      if d.phase.Waiting? && c < |d.taps| && !d.taps[c].accepted { AcceptKeepsOk(d, ss, c); }
    case Wake(c, r) => WakeKeepsOk(d, ss, c, r); WakeKeepsUntouched(d, ss, c, r);
    case Body(r, stale) => BodyKeepsOk(d, ss, r, stale); BodyKeepsUntouched(d, ss, r, stale);
    case Hangup(c) => if d.phase.Waiting? { DropKeepsOk(d, ss, c); }
    case Shutdown =>
  }

  lemma WakeKeepsUntouched(d: State, ss: seq<seq<byte>>, c: nat, r: ReadResult)
    requires Ok(d, ss) && Untouched(d)
    ensures Untouched(WakeStep(d, ss, c, r))
  {
    if Has(d.clients, c) { EntryOk(d, ss, d.clients[IndexOf(d.clients, c)]); }
  }

  lemma BodyKeepsUntouched(d: State, ss: seq<seq<byte>>, r: ReadResult, stale: Stale)
    requires Ok(d, ss) && Untouched(d)
    ensures Untouched(BodyStep(d, ss, r, stale))
  {
    if d.phase.InBody? { EntryOk(d, ss, d.clients[IndexOf(d.clients, d.phase.c)]); }
  }

  /** Bytes written after the reads so far change nothing for the daemon. */
  lemma {:induction false} GrowthKeepsOk(d: State, ss: seq<seq<byte>>, ss': seq<seq<byte>>)
    requires Ok(d, ss) && |ss'| == |ss| && forall c :: 0 <= c < |ss| ==> ss[c] <= ss'[c]
    ensures Ok(d, ss')
  {
    forall c | 0 <= c < |ss|
      ensures TapOk(d.taps[c], c, ss'[c])
    {
      assert TapOk(d.taps[c], c, ss[c]);
    }
    if d.phase.InBody? {
      EntryOk(d, ss, d.clients[IndexOf(d.clients, d.phase.c)]);
    }
  }

  lemma NewConnectionKeepsOk(d: State, ss: seq<seq<byte>>)
    requires Ok(d, ss) && Untouched(d)
    ensures Ok(d.(taps := d.taps + [NEW_TAP]), ss + [[]]) && Untouched(d.(taps := d.taps + [NEW_TAP]))
  {
    var d' := d.(taps := d.taps + [NEW_TAP]);
    assert TapOk(NEW_TAP, |ss|, []);
    if d.phase.InBody? {
      EntryOk(d, ss, d.clients[IndexOf(d.clients, d.phase.c)]);
    }
  }

  // ---------------------------------------------------------------- the registration gate

  /** Some frame before the end is a REGISTER. */
  predicate Registers(bufs: seq<Buffer>) {
    exists i :: 0 <= i < |bufs| && U16(bufs[i], 0) == TYPE_REGISTER
  }

  /** No record comes before a REGISTER, for any frames in any order; and the entry is registered
      exactly when one has come. */
  lemma {:induction false} RecordsNeedRegister(c: nat, bufs: seq<Buffer>)
    ensures Replay(c, bufs).0.registered <==> Registers(bufs)
    ensures Replay(c, bufs).1 != [] ==> Registers(bufs)
    ensures |Replay(c, bufs).1| < |bufs| || bufs == []
  {
    if bufs != [] {
      RecordsNeedRegister(c, bufs[..|bufs| - 1]);
      assert bufs == bufs[..|bufs| - 1] + [bufs[|bufs| - 1]];
      assert U16(bufs[|bufs| - 1], 0) == TYPE_REGISTER ==> Registers(bufs);
    }
  }

  /** The step is about the connection `c`. */
  predicate About(d: State, step: Step, c: nat) {
    match step
    case Accept(x) => x == c
    case Wake(x, _) => x == c
    case Body(_, _) => d.phase.InBody? && d.phase.c == c
    case Hangup(x) => x == c
    case Shutdown => true
  }

  /** The connection `c` looks the same in both states: its records, its frames, its entry. */
  ghost predicate SameFor(d: State, d': State, c: nat) {
    && c < |d.taps| == |d'.taps| && d'.taps[c] == d.taps[c]
    && (Has(d'.clients, c) <==> Has(d.clients, c))
    && forall v: Entry :: v.fd == c ==> (v in d'.clients <==> v in d.clients)
  }

  lemma SameEntries(d: State, d': State, c: nat)
    requires c < |d.taps| == |d'.taps| && d'.taps[c] == d.taps[c]
    requires forall v: Entry :: v.fd == c ==> (v in d'.clients <==> v in d.clients)
    ensures SameFor(d, d', c)
  {
    HasAsMember(d.clients, c);
    HasAsMember(d'.clients, c);
  }

  lemma BodyTouchesOne(d: State, ss: seq<seq<byte>>, r: ReadResult, stale: Stale, c: nat)
    requires Ok(d, ss) && c < |ss| && d.phase.InBody? && d.phase.c != c
    ensures SameFor(d, BodyStep(d, ss, r, stale), c)
  {
    var x := d.phase.c;
    var v := d.clients[IndexOf(d.clients, x)];
    EntryOk(d, ss, v);
    TakeBodyOk(d.taps[x], v, d.phase.hdr, ss[x], r, stale);
    ApplyTouchesOne(d.clients, x, TakeBody(d.taps[x], v, d.phase.hdr, ss[x], r, stale).1, c);
    SameEntries(d, BodyStep(d, ss, r, stale), c);
  }

  /** A step leaves every connection it is not about alone: its records, its frames, its entry. */
  lemma StepTouchesOne(d: State, ss: seq<seq<byte>>, step: Step, c: nat)
    requires Ok(d, ss) && c < |ss| && !About(d, step, c)
    ensures SameFor(d, Next(d, ss, step), c)
  {
    match step
    case Accept(x) => SameEntries(d, AcceptStep(d, x), c);
    case Wake(x, r) =>
      WithoutKeepsOthers(d.clients, x);
      SameEntries(d, WakeStep(d, ss, x, r), c);
    case Body(r, stale) => if d.phase.InBody? { BodyTouchesOne(d, ss, r, stale, c); }
    case Hangup(x) =>
      WithoutKeepsOthers(d.clients, x);
      SameEntries(d, Drop(d, x), c);
  }

  lemma ApplyTouchesOne(vs: seq<Entry>, x: nat, e: Effect, c: nat)
    requires Distinct(vs) && Has(vs, x) && x != c && (e.Keep? ==> e.v.fd == x)
    ensures forall v: Entry :: v.fd == c ==> (v in Apply(vs, x, e) <==> v in vs)
  {
    WithoutKeepsOthers(vs, x);
    forall v: Entry | v.fd == c && v in vs
      ensures v in Apply(vs, x, e)
    {
      if e.Keep? {
        var i :| 0 <= i < |vs| && vs[i] == v;
        assert Apply(vs, x, e)[i] == v;
      }
    }
  }

  lemma HasAsMember(vs: seq<Entry>, fd: nat)
    ensures Has(vs, fd) <==> exists v :: v in vs && v.fd == fd
  {
    if v :| v in vs && v.fd == fd {
      var i :| 0 <= i < |vs| && vs[i] == v;
    }
    if Has(vs, fd) { assert vs[IndexOf(vs, fd)] in vs; }
  }

  /** A step emits at most one record, and only for a client that is on the list, registered, and
      has had a REGISTER frame handled. */
  lemma {:induction false} RecordsAreGated(d: State, ss: seq<seq<byte>>, step: Step, c: nat)
    requires Ok(d, ss) && Untouched(d) && c < |ss|
    requires Next(d, ss, step).taps[c].out != d.taps[c].out
    ensures step.Body? && d.phase.InBody? && d.phase.c == c && Has(d.clients, c)
    ensures d.clients[IndexOf(d.clients, c)].registered && Registers(d.taps[c].bufs)
    ensures exists rec :: Next(d, ss, step).taps[c].out == d.taps[c].out + [rec]
  {
    hide TakeBody, React, Registers, Replay, AfterHeader;
    if !About(d, step, c) { StepTouchesOne(d, ss, step, c); }
    var v := d.clients[IndexOf(d.clients, c)];
    EntryOk(d, ss, v);
    RecordsNeedRegister(c, d.taps[c].bufs);
    TakeBodyOk(d.taps[c], v, d.phase.hdr, ss[c], step.r, step.stale);
  }

  /** A client that has left the list never comes back, and nothing more is emitted for it. */
  lemma {:induction false} RemovalIsFinal(d: State, ss: seq<seq<byte>>, step: Step, c: nat)
    requires Ok(d, ss) && Untouched(d) && c < |ss| && d.taps[c].accepted && !Has(d.clients, c)
    ensures Next(d, ss, step).taps[c] == d.taps[c] && !Has(Next(d, ss, step).clients, c)
  {
    if !About(d, step, c) {
      StepTouchesOne(d, ss, step, c);
    } else {
      WithoutKeepsOthers(d.clients, c);
    }
  }

  // ---------------------------------------------------------------- a wakeup that goes well

  /** A whole frame with a valid header starts at `at`. */
  predicate FrameAt(s: seq<byte>, at: nat) {
    at + HDR_LEN <= |s| && IsHeader(s[at..at + HDR_LEN]) && at + U16(s, at + 2) <= |s|
  }

  lemma HeaderAt(s: seq<byte>, at: nat)
    requires at + HDR_LEN <= |s|
    ensures U16(s[at..at + HDR_LEN], 0) == U16(s, at) && U16(s[at..at + HDR_LEN], 2) == U16(s, at + 2)
  {
  }

  lemma WakesOnFrame(d: State, ss: seq<seq<byte>>, c: nat, h: ReadResult)
    requires InStep(d, ss) && d.phase.Waiting? && c < |ss| && Has(d.clients, c)
    requires FrameAt(ss[c], d.taps[c].rd) && h.Got? && HDR_LEN <= h.n
    ensures var at := d.taps[c].rd;
            WakeStep(d, ss, c, h) == d.(taps := d.taps[c := d.taps[c].(rd := at + HDR_LEN)],
                                        phase := InBody(c, ss[c][at..at + HDR_LEN]))
  {
    hide U16;
  }

  /** The second read returns the rest of the frame, which is handled. */
  lemma TakesFrame(t: Tap, v: Entry, s: seq<byte>, at: nat, r: ReadResult, stale: Stale) returns (buf: Buffer)
    requires FrameAt(s, at) && t.rd == at + HDR_LEN && r.Got? && BUF_LEN <= r.n
    ensures Front(buf) == s[at..at + U16(s, at + 2)]
    ensures var e := React(v, buf);
            TakeBody(t, v, s[at..at + HDR_LEN], s, r, stale)
            == (Tap(t.accepted, at + U16(s, at + 2), t.bufs + [buf], t.out + (if e.Keep? then e.out else [])), e)
  {
    hide React, Fill, U16;
    HeaderAt(s, at);
    var hdr, len := s[at..at + HDR_LEN], U16(s, at + 2);
    buf := Fill(hdr, s[at + HDR_LEN..at + len], stale);
    assert hdr + s[at + HDR_LEN..at + len] == s[at..at + len];
  }

  /** A wakeup on a whole frame with a valid header, whose reads return all of it, handles that frame. */
  lemma ServesFrame(d: State, ss: seq<seq<byte>>, c: nat, h: ReadResult, r: ReadResult, stale: Stale)
    returns (buf: Buffer)
    requires InStep(d, ss) && d.phase.Waiting? && c < |ss| && Has(d.clients, c) && FrameAt(ss[c], d.taps[c].rd)
    requires h.Got? && HDR_LEN <= h.n && r.Got? && BUF_LEN <= r.n
    ensures var t, at := d.taps[c], d.taps[c].rd;
            var e := React(d.clients[IndexOf(d.clients, c)], buf);
            && Front(buf) == ss[c][at..at + U16(ss[c], at + 2)]
            && BodyStep(WakeStep(d, ss, c, h), ss, r, stale)
               == State(d.taps[c := Tap(t.accepted, at + U16(ss[c], at + 2), t.bufs + [buf],
                                        t.out + (if e.Keep? then e.out else []))],
                        Apply(d.clients, c, e), Waiting)
  {
    hide React, U16, TakeBody, Front;
    var t, at := d.taps[c], d.taps[c].rd;
    var v, t1 := d.clients[IndexOf(d.clients, c)], t.(rd := at + HDR_LEN);
    WakesOnFrame(d, ss, c, h);
    buf := TakesFrame(t1, v, ss[c], at, r, stale);
    var t2 := TakeBody(t1, v, ss[c][at..at + HDR_LEN], ss[c], r, stale).0;
    assert d.taps[c := t1][c := t2] == d.taps[c := t2];
  }

  // ---------------------------------------------------------------- one wakeup

  /** What the two reads of a wakeup return. */
  function HeaderRead(d: State, ss: seq<seq<byte>>, c: nat, h: ReadResult): Read
    requires InStep(d, ss) && c < |ss|
  {
    ReadAt(ss[c], d.taps[c].rd, HDR_LEN, h)
  }

  function BodyRead(d: State, ss: seq<seq<byte>>, c: nat, h: ReadResult, r: ReadResult): Read
    requires InStep(d, ss) && c < |ss|
  {
    match AfterHeader(HeaderRead(d, ss, c, h))
    case NeedBody(hdr) => ReadAt(ss[c], d.taps[c].rd + HDR_LEN, U16(hdr, 2) - HDR_LEN, r)
    case _ => WouldBlock
  }

  /** The two steps of a wakeup, whatever the two reads return, do what the receive function does, to the list and
      to the log. */
  lemma WakeupIsRecv(d: State, ss: seq<seq<byte>>, c: nat, h: ReadResult, r: ReadResult,
                     stale: Stale)
    requires Ok(d, ss) && InStep(d, ss) && d.phase.Waiting? && c < |ss| && Has(d.clients, c)
    requires !AfterHeader(HeaderRead(d, ss, c, h)).Overrun?
    ensures var v := d.clients[IndexOf(d.clients, c)];
            var e := Recv(v, HeaderRead(d, ss, c, h), BodyRead(d, ss, c, h, r), stale);
            var d2 := BodyStep(WakeStep(d, ss, c, h), ss, r, stale);
            && d2.clients == Apply(d.clients, c, e) && d2.phase.Waiting? && |d2.taps| == |d.taps|
            && d2.taps[c].out == d.taps[c].out + (if e.Keep? then e.out else [])
            && forall x :: 0 <= x < |d.taps| && x != c ==> d2.taps[x] == d.taps[x]
  {
    hide React, Fill, U16, LiveOk, Fronts, Replay, Without;
    var k := IndexOf(d.clients, c);
    assert d.clients[k := d.clients[k]] == d.clients;
  }
}
