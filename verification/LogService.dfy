/** When every frame is wholly readable at its wakeup, no client of the library is ever removed and
    every wakeup takes in exactly one frame; and what goes wrong after a send that gives up inside a
    frame. */
module LogService {
  import opened Basics
  import opened Wire
  import Pl2rl
  import opened Pl2rlFacts
  import opened Pl2rld
  import Runs = Pl2rldRuns
  import opened LogProtocol
  import opened LogDelivery

  /** The frame that starts at `at` is wholly there. */
  predicate FrameReadable(s: seq<byte>, at: nat) {
    at + HDR_LEN <= |s| && at + U16(s, at + 2) <= |s|
  }

  /** The step treats connection `c` well: a wakeup happens on a wholly readable frame and its reads
      return it, and nobody hangs up. */
  predicate PoliteStep(d: Runs.State, s: seq<byte>, step: Runs.Step, c: nat)
    requires c < |d.taps|
  {
    match step
    case Accept(_) => true
    case Wake(x, r) => x == c ==> r.NotNow? || (r.Got? && HDR_LEN <= r.n && FrameReadable(s, d.taps[c].rd))
    case Body(r, _) => d.phase.InBody? && d.phase.c == c ==> r.Got? && BUF_LEN <= r.n
    case Hangup(x) => x != c
    case Shutdown => false
  }

  /** The daemon has the client of `c` on its list, and a frame it is in the middle of is all there. */
  ghost predicate Listed(d: Runs.State, s: seq<byte>, c: nat) {
    && Has(d.clients, c) && c < |d.taps|
    && (d.phase.InBody? && d.phase.c == c ==>
          IsHeader(d.phase.hdr) && d.taps[c].rd - HDR_LEN + U16(d.phase.hdr, 2) <= |s|)
  }

  lemma NextFrame(s: seq<byte>, ext: seq<Frame>, k: nat)
    requires s <= Concat(ext) && k <= |ext|
    requires |Concat(ext[..k])| + HDR_LEN <= |s|
    ensures k < |ext| && StartsAt(s, |Concat(ext[..k])|, ext[k])
  {
    var at := |Concat(ext[..k])|;
    assert ext == ext[..k] + ext[k..];
    ConcatAppend(ext[..k], ext[k..]);
    assert Concat(ext)[at..] == Concat(ext[k..]);
    assert k < |ext|;
    assert ext[k] <= Concat(ext)[at..];
    assert forall i :: 0 <= i < |ext[k]| ==> Concat(ext)[at + i] == ext[k][i];
  }

  /** The header of `f` is in the stream at `at`, and all of `f` if the stream is long enough. */
  predicate StartsAt(s: seq<byte>, at: nat, f: seq<byte>) {
    && HDR_LEN <= |f| && at + HDR_LEN <= |s|
    && s[at..at + HDR_LEN] == f[..HDR_LEN]
    && (at + |f| <= |s| ==> s[at..at + |f|] == f)
  }

  /** The frame that comes next on an untorn connection. */
  lemma Upcoming(ch: Chan, me: Identity, t: Runs.Tap, c: nat) returns (x: What)
    requires EndsOk(ch, me, t, c) && Untorn(ch.pieces)
    requires |Concat(Runs.Fronts(t.bufs))| + HDR_LEN <= |ch.stream|
    ensures Sendable(x) && (x.Reg? <==> t.bufs == [])
    ensures StartsAt(ch.stream, |Concat(Runs.Fronts(t.bufs))|, FrameOf(x))
  {
    HandledAreWhole(ch, me, t, c);
    var whole, rest, k := WholeWhats(ch.pieces), Rest(ch.pieces), |t.bufs|;
    var ws := whole + rest;
    FramesAppend(whole, rest);
    assert FramesOf(ws)[..k] == FramesOf(whole)[..k];
    NextFrame(ch.stream, FramesOf(ws), k);
    x := ws[k];
    FramesAt(ws, k);
    if k == |whole| { RestKind(ch, me); }
  }

  lemma RestKind(ch: Chan, me: Identity)
    requires ChanOk(ch, me) && Rest(ch.pieces) != []
    ensures Rest(ch.pieces)[0].Reg? <==> WholeWhats(ch.pieces) == []
  {
    var ps := ch.pieces;
    if |ps| == 1 {
      assert PieceOk(ps[0]);
      assert WholeWhats(ps[1..]) == [];
    }
  }

  /** The header read of a wakeup, on a frame of the library, announces that frame. */
  lemma HeaderServes(s: seq<byte>, at: nat, x: What, r: Runs.ReadResult)
    requires StartsAt(s, at, FrameOf(x)) && Sendable(x) && r.Got? && HDR_LEN <= r.n
    ensures AfterHeader(Runs.ReadAt(s, at, HDR_LEN, r)) == NeedBody(s[at..at + HDR_LEN])
    ensures IsHeader(s[at..at + HDR_LEN]) && U16(s, at + 2) == U16(s[at..at + HDR_LEN], 2) == |FrameOf(x)|
  {
    var f := FrameOf(x);
    FrameShape(x);
    var b := Runs.ReadAt(s, at, HDR_LEN, r);
    assert b.bytes == f[..HDR_LEN];
    assert U16(b.bytes, 0) == U16(f, 0) && U16(b.bytes, 2) == U16(f, 2);
  }

  /** The body read on that frame keeps the client. */
  lemma BodyServes(t: Runs.Tap, v: Entry, s: seq<byte>, x: What, r: Runs.ReadResult, stale: Stale)
    requires HDR_LEN <= t.rd && StartsAt(s, t.rd - HDR_LEN, FrameOf(x)) && Sendable(x)
    requires t.rd - HDR_LEN + U16(s, t.rd - HDR_LEN + 2) <= |s| && r.Got? && BUF_LEN <= r.n
    requires x.Log? ==> v.registered
    ensures var hdr := s[t.rd - HDR_LEN..t.rd];
            && IsHeader(hdr)
            && var (t', e) := Runs.TakeBody(t, v, hdr, s, r, stale);
            e.Keep? && e.v.fd == v.fd && |t'.bufs| == |t.bufs| + 1
  {
    hide FrameOf, React;
    var hdr, f := s[t.rd - HDR_LEN..t.rd], FrameOf(x);
    assert IsHeader(hdr) && U16(hdr, 2) == |f| by { HeaderServes(s, t.rd - HDR_LEN, x, r); }
    var b := Runs.ReadAt(s, t.rd, |f| - HDR_LEN, r);
    var buf := Fill(hdr, b.bytes, stale);
    assert hdr + b.bytes == s[t.rd - HDR_LEN..t.rd - HDR_LEN + |f|];
    ReactKeeps(v, buf, x);
  }

  lemma ReactKeeps(v: Entry, b: Buffer, x: What)
    requires Front(b) == FrameOf(x) && Sendable(x) && (x.Log? ==> v.registered)
    ensures React(v, b).Keep? && React(v, b).v.fd == v.fd
  {
    match x
    case Reg(pid, name) => ReactToRegister(v, b, pid, name);
    case Log(m) => ReactToLog(v, b, m);
  }

  /** A wakeup on a readable frame gets past the header. */
  lemma WakeServes(d: Runs.State, ss: seq<seq<byte>>, c: nat, r: Runs.ReadResult, ch: Chan, me: Identity)
    requires Runs.Ok(d, ss) && c < |ss| && d.phase.Waiting? && Has(d.clients, c)
    requires ChanOk(ch, me) && Untorn(ch.pieces) && ch.stream == ss[c]
    requires r.Got? && HDR_LEN <= r.n && FrameReadable(ss[c], d.taps[c].rd)
    ensures var at := d.taps[c].rd;
            && at + HDR_LEN <= |ss[c]|
            && Runs.WakeStep(d, ss, c, r)
               == d.(taps := d.taps[c := d.taps[c].(rd := at + HDR_LEN)],
                     phase := Runs.InBody(c, ss[c][at..at + HDR_LEN]))
  {
    Runs.EntryOk(d, ss, d.clients[IndexOf(d.clients, c)]);
    assert Runs.TapOk(d.taps[c], c, ss[c]);
    var x := Upcoming(ch, me, d.taps[c], c);
    HeaderServes(ss[c], d.taps[c].rd, x, r);
  }

  /** The second read of that wakeup takes exactly one frame in and keeps the client. */
  lemma BodyTakesOne(d: Runs.State, ss: seq<seq<byte>>, c: nat, r: Runs.ReadResult, stale: Stale,
                     ch: Chan, me: Identity)
    requires Runs.Ok(d, ss) && c < |ss| && d.phase.InBody? && d.phase.c == c && Listed(d, ss[c], c)
    requires ChanOk(ch, me) && Untorn(ch.pieces) && ch.stream == ss[c]
    requires r.Got? && BUF_LEN <= r.n
    ensures var d' := Runs.BodyStep(d, ss, r, stale);
            Has(d'.clients, c) && d'.phase.Waiting? && |d'.taps[c].bufs| == |d.taps[c].bufs| + 1
  {
    hide FrameOf, Untorn, ChanOk, React;
    var t, k := d.taps[c], IndexOf(d.clients, c);
    var v := d.clients[k];
    Runs.EntryOk(d, ss, v);
    assert Runs.TapOk(t, c, ss[c]);
    BodyKeeps(ch, me, t, v, r, stale);
    var (t', e) := Runs.TakeBody(t, v, d.phase.hdr, ss[c], r, stale);
    assert Runs.BodyStep(d, ss, r, stale)
        == Runs.State(d.taps[c := t'], Apply(d.clients, c, e), Runs.Waiting);
    assert Apply(d.clients, c, e)[k].fd == c;
  }

  lemma AlreadyRegistered(ch: Chan, me: Identity, t: Runs.Tap, v: Entry)
    requires EndsOk(ch, me, t, v.fd) && Untorn(ch.pieces) && t.bufs != []
    requires v == Runs.Replay(v.fd, t.bufs).0
    ensures v.registered
  {
    UntornRecords(ch, me, t, v.fd);
  }

  lemma BodyKeeps(ch: Chan, me: Identity, t: Runs.Tap, v: Entry, r: Runs.ReadResult, stale: Stale)
    requires EndsOk(ch, me, t, v.fd) && Untorn(ch.pieces)
    requires Runs.LiveOk(t, v, ch.stream, HDR_LEN) && HDR_LEN <= t.rd
    requires t.rd - HDR_LEN + U16(ch.stream, t.rd - HDR_LEN + 2) <= |ch.stream|
    requires r.Got? && BUF_LEN <= r.n
    ensures var hdr := ch.stream[t.rd - HDR_LEN..t.rd];
            && IsHeader(hdr)
            && var (t', e) := Runs.TakeBody(t, v, hdr, ch.stream, r, stale);
            e.Keep? && e.v.fd == v.fd && |t'.bufs| == |t.bufs| + 1
  {
    hide FrameOf, Runs.TakeBody, ChanOk, StartsAt;
    var x := Upcoming(ch, me, t, v.fd);
    if x.Log? { AlreadyRegistered(ch, me, t, v); }
    BodyServes(t, v, ch.stream, x, r, stale);
  }

  lemma PoliteStepKeepsListed(d: Runs.State, ss: seq<seq<byte>>, step: Runs.Step, c: nat, ch: Chan, me: Identity)
    requires Runs.Ok(d, ss) && Runs.Untouched(d) && c < |ss| && Listed(d, ss[c], c)
    requires ChanOk(ch, me) && Untorn(ch.pieces) && ch.stream == ss[c]
    requires PoliteStep(d, ss[c], step, c)
    ensures Listed(Runs.Next(d, ss, step), ss[c], c)
  {
    if !Runs.About(d, step, c) {
      Runs.StepTouchesOne(d, ss, step, c);
      NoNewPhase(d, ss, step, c);
    } else if step.Wake? && d.phase.Waiting? && step.r.Got? {
      WakeServes(d, ss, c, step.r, ch, me);
    } else if step.Body? {
      BodyTakesOne(d, ss, c, step.r, step.stale, ch, me);
    } else {
      Runs.HasAsMember(d.clients, c);
      Runs.HasAsMember(Runs.Next(d, ss, step).clients, c);
    }
  }

  lemma NoNewPhase(d: Runs.State, ss: seq<seq<byte>>, step: Runs.Step, c: nat)
    requires Runs.Ok(d, ss) && !Runs.About(d, step, c) && c < |ss|
    ensures var d' := Runs.Next(d, ss, step);
            d'.phase.InBody? && d'.phase.c == c ==> d.phase == d'.phase
  {
  }

  // ---------------------------------------------------------------- whole runs

  predicate Polite(w: World, e: Event, c: nat) {
    c < |w.d.taps| && c < |w.chans| && (e.DaemonCall? ==> PoliteStep(w.d, w.chans[c].stream, e.step, c))
  }

  /** Pieces that are not in flight never change. */
  ghost predicate Persist(a: Chan, b: Chan) {
    && a.stream <= b.stream && |a.pieces| <= |b.pieces|
    && forall i :: 0 <= i < |a.pieces| && a.pieces[i].fate != Pl2rl.InFlight ==> b.pieces[i] == a.pieces[i]
  }

  lemma PiecesPersist(w: World, e: Event, c: nat)
    requires InRange(w) && c < |w.chans|
    ensures c < |Next(w, e).chans| && Persist(w.chans[c], Next(w, e).chans[c])
  {
    if e.SendCall? && e.p < |w.procs| && w.procs[e.p].pc.Busy? {
      var ch := w.chans[w.procs[e.p].fd];
      AttemptPersists(ch, w.procs[e.p].pc.tries, e.o);
    }
  }

  lemma AttemptPersists(ch: Chan, tries: nat, o: Pl2rl.Outcome)
    requires Pl2rl.Sending(ch) && 0 < tries
    ensures Persist(ch, Pl2rl.AttemptOnce(ch, tries, o).0)
  {
    var n := |ch.pieces| - 1;
    assert ch.pieces[n].fate == Pl2rl.InFlight;
  }

  lemma UntornBefore(w: World, e: Event, c: nat)
    requires InRange(w) && c < |w.chans|
    requires c < |Next(w, e).chans| ==> Untorn(Next(w, e).chans[c].pieces)
    ensures c < |Next(w, e).chans| && w.chans[c].stream <= Next(w, e).chans[c].stream
    ensures Untorn(w.chans[c].pieces)
  {
    PiecesPersist(w, e, c);
    TornStays(w.chans[c], Next(w, e).chans[c]);
  }

  lemma TornStays(a: Chan, b: Chan)
    requires Persist(a, b) && Untorn(b.pieces)
    ensures Untorn(a.pieces)
  {
  }

  /** A client event leaves the daemon's lists and phase alone. */
  lemma ClientEventsKeepDaemon(w: World, e: Event)
    requires InRange(w) && !e.DaemonCall?
    ensures var d := Next(w, e).d;
            d.clients == w.d.clients && d.phase == w.d.phase && w.d.taps <= d.taps
  {
  }

  /** One polite event keeps the client on the list. */
  lemma {:induction false} PoliteKeepsListed(w: World, e: Event, c: nat)
    requires WorldOk(w) && InRange(w) && Polite(w, e, c) && Listed(w.d, w.chans[c].stream, c)
    requires Untorn(w.chans[c].pieces)
    requires c < |Next(w, e).chans| && w.chans[c].stream <= Next(w, e).chans[c].stream
    ensures Listed(Next(w, e).d, Next(w, e).chans[c].stream, c)
  {
    if e.DaemonCall? {
      ConnectionOk(w, c);
      PoliteStepKeepsListed(w.d, Streams(w.chans), e.step, c, w.chans[c], OwnerOf(w, c));
    } else {
      ClientEventsKeepDaemon(w, e);
    }
  }

  /** The run `es + more` is polite to `c` from the end of `es` on. */
  ghost predicate PoliteFrom(mes: seq<Identity>, es: seq<Event>, more: seq<Event>, c: nat) {
    more != [] ==>
      var front := more[..|more| - 1];
      Polite(Run(mes, es + front), more[|more| - 1], c) && PoliteFrom(mes, es, front, c)
  }

  ghost predicate ListedAfter(mes: seq<Identity>, es: seq<Event>, c: nat) {
    var w := Run(mes, es);
    c < |w.chans| && Listed(w.d, w.chans[c].stream, c)
  }

  ghost predicate UntornAfter(mes: seq<Identity>, es: seq<Event>, c: nat) {
    var w := Run(mes, es);
    c < |w.chans| && Untorn(w.chans[c].pieces)
  }

  /** Once accepted, a client whose frames are wholly readable at their wakeups, and none of whose
      sends gives up inside a frame, is never removed. */
  lemma {:induction false} NeverRemoved(mes: seq<Identity>, es: seq<Event>, more: seq<Event>, c: nat)
    requires ListedAfter(mes, es, c) && PoliteFrom(mes, es, more, c) && UntornAfter(mes, es + more, c)
    ensures ListedAfter(mes, es + more, c)
  {
    hide ListedAfter, UntornAfter, Polite, Run;
    if more == [] {
      assert es + more == es;
    } else {
      var front, e := more[..|more| - 1], more[|more| - 1];
      assert es + more == es + front + [e];
      StepBack(mes, es + front, e, c);
      NeverRemoved(mes, es, front, c);
      StepOn(mes, es + front, e, c);
    }
  }

  lemma {:induction false} StepBack(mes: seq<Identity>, es: seq<Event>, e: Event, c: nat)
    requires UntornAfter(mes, es + [e], c) && Polite(Run(mes, es), e, c)
    ensures UntornAfter(mes, es, c)
  {
    RunSnoc(mes, es, e);
    UntornBefore(Run(mes, es), e, c);
  }

  lemma {:induction false} StepOn(mes: seq<Identity>, es: seq<Event>, e: Event, c: nat)
    requires ListedAfter(mes, es, c) && UntornAfter(mes, es + [e], c) && Polite(Run(mes, es), e, c)
    ensures ListedAfter(mes, es + [e], c)
  {
    RunSnoc(mes, es, e);
    UntornBefore(Run(mes, es), e, c);
    PoliteKeepsListed(Run(mes, es), e, c);
  }

  /** The event is the second read of a wakeup of `c`. */
  predicate Serves(w: World, e: Event, c: nat) {
    e.DaemonCall? && e.step.Body? && w.d.phase.InBody? && w.d.phase.c == c
  }

  /** How many wakeups of `c` the run `es + more` completes from the end of `es` on. */
  ghost function Served(mes: seq<Identity>, es: seq<Event>, more: seq<Event>, c: nat): nat {
    if more == [] then 0
    else
      var front := more[..|more| - 1];
      Served(mes, es, front, c) + if Serves(Run(mes, es + front), more[|more| - 1], c) then 1 else 0
  }

  function Handled(w: World, c: nat): nat {
    if c < |w.d.taps| then |w.d.taps[c].bufs| else 0
  }

  lemma {:induction false} EventServes(w: World, e: Event, c: nat)
    requires WorldOk(w) && InRange(w) && Polite(w, e, c) && Listed(w.d, w.chans[c].stream, c)
    requires Untorn(w.chans[c].pieces)
    ensures Handled(Next(w, e), c) == Handled(w, c) + if Serves(w, e, c) then 1 else 0
  {
    hide FrameOf, Untorn, ChanOk, Attempt, StartLog;
    var ss := Streams(w.chans);
    if !e.DaemonCall? {
      ClientEventsKeepDaemon(w, e);
    } else if Serves(w, e, c) {
      ConnectionOk(w, c);
      BodyTakesOne(w.d, ss, c, e.step.r, e.step.stale, w.chans[c], OwnerOf(w, c));
    } else if !Runs.About(w.d, e.step, c) {
      Runs.StepTouchesOne(w.d, ss, e.step, c);
    }
  }

  /** Every wakeup that is completed takes in exactly one frame, whatever goes on beside it. */
  lemma {:induction false} EachWakeupCounts(mes: seq<Identity>, es: seq<Event>, more: seq<Event>, c: nat)
    requires ListedAfter(mes, es, c) && PoliteFrom(mes, es, more, c) && UntornAfter(mes, es + more, c)
    ensures Handled(Run(mes, es + more), c) == Handled(Run(mes, es), c) + Served(mes, es, more, c)
  {
    hide UntornAfter, Polite, Run, Handled, Serves;
    if more == [] {
      assert es + more == es;
    } else {
      var front, e := more[..|more| - 1], more[|more| - 1];
      assert es + more == es + front + [e];
      StepBack(mes, es + front, e, c);
      EachWakeupCounts(mes, es, front, c);
      NeverRemoved(mes, es, front, c);
      StepCounts(mes, es + front, e, c);
    }
  }

  lemma {:induction false} StepCounts(mes: seq<Identity>, es: seq<Event>, e: Event, c: nat)
    requires ListedAfter(mes, es, c) && UntornAfter(mes, es, c) && Polite(Run(mes, es), e, c)
    ensures Handled(Run(mes, es + [e]), c)
         == Handled(Run(mes, es), c) + if Serves(Run(mes, es), e, c) then 1 else 0
  {
    hide Next, Handled, Serves;
    RunSnoc(mes, es, e);
    EventServes(Run(mes, es), e, c);
  }

  /** Once as many frames are taken in as were sent whole, all the messages are emitted; so it is after as many
      completed wakeups as frames were left, in every polite run without a tear. */
  lemma {:induction false} AllAreEmitted(mes: seq<Identity>, es: seq<Event>, more: seq<Event>, c: nat)
    requires ListedAfter(mes, es, c) && PoliteFrom(mes, es, more, c) && UntornAfter(mes, es + more, c)
    ensures var w := Run(mes, es + more);
            && |w.d.taps| == |w.chans| == |w.owners| && w.owners[c] < |w.procs|
            && var ws := WholeWhats(w.chans[c].pieces);
            && Handled(Run(mes, es), c) + Served(mes, es, more, c) <= |ws|
            && (Handled(Run(mes, es), c) + Served(mes, es, more, c) == |ws| ==>
                  w.d.taps[c].out == Records(OwnerOf(w, c), ws))
  {
    hide Run, PoliteFrom, Served, ListedAfter;
    EachWakeupCounts(mes, es, more, c);
    AllHandled(Run(mes, es + more), c);
  }

  lemma AllHandled(w: World, c: nat)
    requires WorldOk(w) && c < |w.chans| && Untorn(w.chans[c].pieces)
    ensures |w.d.taps| == |w.chans| == |w.owners| && w.owners[c] < |w.procs|
    ensures var ws := WholeWhats(w.chans[c].pieces);
            Handled(w, c) <= |ws| && (Handled(w, c) == |ws| ==> w.d.taps[c].out == Records(OwnerOf(w, c), ws))
  {
    assert |w.owners| == |w.chans| == |w.d.taps|;
    hide FrameOf, WorldOk;
    ConnectionOk(w, c);
    UntornRecords(w.chans[c], OwnerOf(w, c), w.d.taps[c], c);
    var ws := WholeWhats(w.chans[c].pieces);
    assert ws[..|ws|] == ws;
  }

  lemma RunSnoc(mes: seq<Identity>, es: seq<Event>, e: Event)
    ensures Run(mes, es + [e]) == Next(Run(mes, es), e)
  {
    assert (es + [e])[..|es|] == es;
  }
}
