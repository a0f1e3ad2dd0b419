/** A run of the whole system in which a send gives up inside its frame, and the daemon logs a line that nobody sent. */
module LogTearRun {
  import opened Basics
  import opened Wire
  import opened Pl2rl
  import opened Pl2rlFacts
  import opened Pl2rld
  import Runs = Pl2rldRuns
  import Sys = LogProtocol
  import opened LogDelivery
  import opened LogTear
  import Ref = LogRefines

  const FIRST := Message(6, 1, [97])
  const SECOND := Message(6, 1, [98, 99])

  /** The client connects and registers, stops 8 bytes into the 9-byte frame of the first message, and then sends the
      second message whole.  The daemon accepts the connection and completes two wakeups. */
  function Events(stale: Stale): seq<Sys.Event> {
    Connects() + Tears() + SendsOn() + Daemon(stale)
  }

  function Connects(): seq<Sys.Event> {
    [Sys.Event.InitCall(0, 1, Sys.Up), Sys.SendCall(0, Wrote(BUF_LEN))]
  }

  function Tears(): seq<Sys.Event> {
    [Sys.Event.LogCall(0, 1, Sys.Down, FIRST),
     Sys.SendCall(0, Wrote(8)), Sys.SendCall(0, Again), Sys.SendCall(0, Again)]
  }

  function SendsOn(): seq<Sys.Event> {
    [Sys.Event.LogCall(0, 1, Sys.Down, SECOND), Sys.SendCall(0, Wrote(BUF_LEN))]
  }

  function Daemon(stale: Stale): seq<Sys.Event> {
    [Sys.DaemonCall(Runs.Accept(0))] + Wakeup(stale) + Wakeup(stale)
  }

  function Wakeup(stale: Stale): seq<Sys.Event> {
    [Sys.DaemonCall(Runs.Wake(0, Runs.Got(HDR_LEN))), Sys.DaemonCall(Runs.Body(Runs.Got(BUF_LEN), stale))]
  }

  function Registered(me: Identity): Chan {
    var r := FrameOf(Reg(me.pid, me.name));
    Chan(r, [Piece(Reg(me.pid, me.name), r, |r|, Whole)])
  }

  function Torn8(me: Identity): Chan {
    var c, f := Registered(me), FrameOf(Log(FIRST));
    Chan(c.stream + f[..8], c.pieces + [Piece(Log(FIRST), f, 8, GivenUp)])
  }

  function Sent2(me: Identity): Chan {
    var c, f := Torn8(me), FrameOf(Log(SECOND));
    Chan(c.stream + f, c.pieces + [Piece(Log(SECOND), f, |f|, Whole)])
  }

  /** Nobody sent this line. */
  function Lie(me: Identity): Record {
    Record(Take(me.name, NAME_LEN - 2), me.pid, FIRST.severity, FIRST.mod, [1])
  }

  // ---------------------------------------------------------------- the client's part

  /** A send whose first attempt has room for the whole frame. */
  lemma SendWhole(s: Client, x: What, os: Script, p: nat)
    requires Consistent(s) && 0 <= s.fd && os[0] == Wrote(BUF_LEN) && Sendable(x)
    ensures var f := FrameOf(x); var c := s.chans[s.fd];
            && SendFrame(s, x, os)
               == (s.(chans := s.chans[s.fd := Chan(c.stream + f, c.pieces + [Piece(x, f, |f|, Whole)])]), true)
            && Ref.SendEvents(p, c, x, os) == [Sys.SendCall(p, os[0])]
  {
    hide FrameOf;
    var f := FrameOf(x);
    FrameShape(x);
    var b := Begin(s.chans[s.fd], x, f);
    assert f[0..|f|] == f;
    assert AttemptOnce(b, RETRIES, os[0]) == (Advance(b, Pl2rl.Sent(|f|)), Pl2rl.Sent(|f|));
    assert Advance(b, Pl2rl.Sent(|f|)).pieces == s.chans[s.fd].pieces + [Piece(x, f, |f|, Whole)];
    OneSend(p, os[0]);
  }

  lemma OneSend(p: nat, o: Outcome)
    ensures Ref.Sends(p, [o]) == [Sys.SendCall(p, o)]
  {
    assert [o][1..] == [];
  }

  /** The turns of a send that writes `n` bytes and then meets EAGAIN twice. */
  lemma TornTurns(c: Chan, x: What, n: nat)
    requires 0 < n < |FrameOf(x)|
    ensures var f := FrameOf(x); var os: Script := [Wrote(n), Again, Again]; var b := Begin(c, x, f);
            var c1 := Chan(c.stream + f[..n], c.pieces + [Piece(x, f, n, InFlight)]);
            && Sending(b) && Sending(c1)
            && AttemptOnce(b, 3, os[0]) == (c1, More(n, 2))
            && AttemptOnce(c1, 2, os[1]) == (c1, More(n, 1))
            && AttemptOnce(c1, 1, os[2])
               == (Chan(c1.stream, c.pieces + [Piece(x, f, n, GivenUp)]), Pl2rl.GaveUp(n))
  {
    hide FrameOf;
    var f := FrameOf(x);
    var b := Begin(c, x, f);
    var os: Script := [Wrote(n), Again, Again];
    var c1 := Chan(c.stream + f[..n], c.pieces + [Piece(x, f, n, InFlight)]);
    assert AttemptOnce(b, 3, os[0]).0.pieces == c1.pieces && f[0..n] == f[..n];
    assert f[n..n] == [] && c1.stream + [] == c1.stream;
    assert AttemptOnce(c1, 2, os[1]).0.pieces == c1.pieces;
    assert AttemptOnce(c1, 1, os[2]).0.pieces == c.pieces + [Piece(x, f, n, GivenUp)];
  }

  lemma SendTorn(s: Client, x: What, n: nat, p: nat)
    requires Consistent(s) && 0 <= s.fd && 0 < n < |FrameOf(x)|
    ensures var f := FrameOf(x); var c := s.chans[s.fd]; var os: Script := [Wrote(n), Again, Again];
            && SendFrame(s, x, os)
               == (s.(chans := s.chans[s.fd := Chan(c.stream + f[..n], c.pieces + [Piece(x, f, n, GivenUp)])]), false)
            && Ref.SendEvents(p, c, x, os)
               == [Sys.SendCall(p, os[0]), Sys.SendCall(p, os[1]), Sys.SendCall(p, os[2])]
  {
    hide FrameOf, AttemptOnce, Begin;
    var f, c := FrameOf(x), s.chans[s.fd];
    TornTurns(c, x, n);
    var b := Begin(c, x, f);
    var os: Script := [Wrote(n), Again, Again];
    var c1 := Chan(c.stream + f[..n], c.pieces + [Piece(x, f, n, InFlight)]);
    assert SendLoop(c1, 1, os) == AttemptOnce(c1, 1, os[2]) && Ref.Spent(c1, 1, os) == [os[2]];
    assert SendLoop(c1, 2, os) == SendLoop(c1, 1, os) && Ref.Spent(c1, 2, os) == [os[1], os[2]];
    assert SendLoop(b, 3, os) == SendLoop(c1, 2, os) && Ref.Spent(b, 3, os) == [os[0], os[1], os[2]];
    ThreeSends(p, os);
  }

  lemma ThreeSends(p: nat, os: Script)
    ensures Ref.Sends(p, [os[0], os[1], os[2]])
         == [Sys.SendCall(p, os[0]), Sys.SendCall(p, os[1]), Sys.SendCall(p, os[2])]
  {
    assert [os[0], os[1], os[2]][1..] == [os[1], os[2]] && [os[1], os[2]][1..] == [os[2]];
    OneSend(p, os[2]);
    assert Ref.Sends(p, [os[1], os[2]]) == [Sys.SendCall(p, os[1])] + Ref.Sends(p, [os[2]]);
  }

  /** The three calls of the client, each in its steps. */
  lemma AfterConnects(me: Identity)
    ensures Ref.From(Sys.Start([me]), Connects())
         == Ref.WithClient(Sys.Start([me]), 0, Client(0, 0, [Registered(me)]))
  {
    hide FrameOf, ConnectNow, Ref.From, Ref.SendEvents, Sys.WorldOk, Registered;
    var w, os: Script := Sys.Start([me]), [Wrote(BUF_LEN), Again, Again];
    StartOk(me);
    Ref.InitCallRefines(w, 0, 1, Connected(os));
    FirstConnect(me, os);
    assert [Sys.Event.InitCall(0, 1, Sys.Up)] + Ref.DialEvents(w, 0, 1, Connected(os)) == Connects();
  }

  lemma FirstConnect(me: Identity, os: Script)
    requires os[0] == Wrote(BUF_LEN)
    ensures ConnectNow(START, me, 1, Connected(os)).0 == Client(0, 0, [Registered(me)])
    ensures Ref.SendEvents(0, NO_CHAN, Sys.Register(me), os) == [Sys.SendCall(0, os[0])]
  {
    hide FrameOf, SendFrame, Ref.SendEvents;
    var x := Reg(me.pid, me.name);
    SendWhole(Client(0, 0, [NO_CHAN]), x, os, 0);
    assert [] + [NO_CHAN] == [NO_CHAN] && [] + FrameOf(x) == FrameOf(x);
    var p := Piece(x, FrameOf(x), |FrameOf(x)|, Whole);
    assert [] + [p] == [p];
    assert [NO_CHAN][0 := Registered(me)] == [Registered(me)];
  }

  lemma StartOk(me: Identity)
    ensures Sys.WorldOk(Sys.Start([me])) && Sys.Run([me], []) == Sys.Start([me])
  {
  }

  /** The client is between two calls, its connection stands at `c`, and the daemon has not looked at it. */
  function Now(me: Identity, c: Chan): Sys.World {
    Sys.World([Sys.Proc(me, 0, 0, Sys.Idle)], [c], [0], Runs.State([Runs.NEW_TAP], [], Runs.Waiting))
  }

  lemma NowIs(me: Identity, c: Chan, c': Chan)
    ensures Ref.WithClient(Sys.Start([me]), 0, Client(0, 0, [c])) == Now(me, c)
    ensures Ref.WithClient(Now(me, c), 0, Client(0, 0, [c'])) == Now(me, c')
    ensures Ref.AsClient(Now(me, c), 0) == Client(0, 0, [c])
  {
    assert [] + [0] == [0] && [] + [Runs.NEW_TAP] == [Runs.NEW_TAP];
  }

  lemma AfterTears(me: Identity)
    requires Sys.WorldOk(Now(me, Registered(me)))
    ensures Ref.From(Now(me, Registered(me)), Tears()) == Now(me, Torn8(me))
  {
    hide FrameOf, SendFrame, Ref.SendEvents, Sys.WorldOk;
    var c := Registered(me);
    var os: Script := [Wrote(8), Again, Again];
    FrameShape(Log(FIRST));
    NowIs(me, c, Torn8(me));
    SendTorn(Client(0, 0, [c]), Log(FIRST), 8, 0);
    Ref.LogCallRefines(Now(me, c), 0, 1, NoSocket, FIRST, os);
    assert [c][0 := Torn8(me)] == [Torn8(me)];
    assert Ref.LogEvents(Now(me, c), 0, 1, NoSocket, FIRST, os) == Tears();
  }

  lemma AfterSendsOn(me: Identity)
    requires Sys.WorldOk(Now(me, Torn8(me)))
    ensures Ref.From(Now(me, Torn8(me)), SendsOn()) == Now(me, Sent2(me))
  {
    hide FrameOf, SendFrame, Ref.SendEvents, Sys.WorldOk;
    var c := Torn8(me);
    var os: Script := [Wrote(BUF_LEN), Again, Again];
    NowIs(me, c, Sent2(me));
    SendWhole(Client(0, 0, [c]), Log(SECOND), os, 0);
    Ref.LogCallRefines(Now(me, c), 0, 1, NoSocket, SECOND, os);
    assert [c][0 := Sent2(me)] == [Sent2(me)];
    assert Ref.LogEvents(Now(me, c), 0, 1, NoSocket, SECOND, os) == SendsOn();
  }

  lemma ClientTears(me: Identity)
    ensures Sys.Run([me], Connects() + Tears() + SendsOn()) == Now(me, Sent2(me))
  {
    hide Connects, Tears, SendsOn, Registered, Torn8, Sent2;
    StartOk(me);
    AfterConnects(me);
    NowIs(me, Registered(me), Torn8(me));
    Ref.RunAppend([me], [], Connects());
    assert [] + Connects() == Connects();
    Ref.RunAppend([me], Connects(), Tears());
    AfterTears(me);
    Ref.RunAppend([me], Connects() + Tears(), SendsOn());
    AfterSendsOn(me);
  }

  // ---------------------------------------------------------------- the daemon's part

  /** The torn piece, and what is sent around it. */
  lemma Sent2Torn(me: Identity)
    ensures var ps := Sent2(me).pieces;
            && |ps| == 3 && FirstTear(ps) == 1 && CleanWhats(ps) == [Reg(me.pid, me.name)]
            && WholeWhats(ps) == [Reg(me.pid, me.name), Log(SECOND)]
            && Behind(ps) == FrameOf(Log(SECOND)) && ps[1] == Piece(Log(FIRST), FrameOf(Log(FIRST)), 8, GivenUp)
            && |FrameOf(Log(FIRST))| == 9
  {
    var ps := Sent2(me).pieces;
    FrameShape(Reg(me.pid, me.name));
    FrameShape(Log(FIRST));
    FrameShape(Log(SECOND));
    hide FrameOf;
    assert ps[1..][1..] == [ps[2]] && [ps[2]][1..] == [];
    assert WholeWhats(ps[1..][1..]) == [Log(SECOND)];
    assert WholeWhats(ps[1..]) == [Log(SECOND)];
    assert FirstTear(ps[1..]) == 0 && ps[2..] == [ps[2]];
    assert Bytes([ps[2]]) == Part(ps[2]) by { FirstPiece([ps[2]]); assert [ps[2]][1..] == [] && Bytes([]) == []; }
  }

  /** The world while the daemon is at work: the client has made its three calls. */
  ghost predicate Working(w: Sys.World, me: Identity) {
    && Sys.WorldOk(w) && w.procs == Now(me, Sent2(me)).procs && w.chans == [Sent2(me)] && w.owners == [0]
    && |w.d.taps| == 1 && w.d.phase.Waiting? && Has(w.d.clients, 0)
  }

  /** The first wakeup takes the REGISTER frame in. */
  lemma FirstWakeup(me: Identity, w: Sys.World, stale: Stale)
    requires Working(w, me) && w.d.taps[0].rd == 0 && w.d.taps[0].bufs == [] && w.d.clients == [Entry(0, 0, [], false)]
    ensures var w' := Ref.From(w, Wakeup(stale)); Working(w', me) && |w'.d.taps[0].bufs| == 1
  {
    hide FrameOf, React, Sent2, Sys.WorldOk, Runs.WakeStep, Runs.BodyStep, Front;
    var s, x := Sent2(me).stream, Reg(me.pid, me.name);
    var ss := Sys.Streams(w.chans);
    assert ss == [s];
    WakeupSteps(w, ss, stale);
    Opening(me);
    var buf := Runs.ServesFrame(w.d, ss, 0, Runs.Got(HDR_LEN), Runs.Got(BUF_LEN), stale);
    ReactToRegister(w.d.clients[0], buf, me.pid, me.name);
    assert Apply(w.d.clients, 0, React(w.d.clients[0], buf))[0].fd == 0;
  }

  lemma Opening(me: Identity)
    ensures var s, f := Sent2(me).stream, FrameOf(Reg(me.pid, me.name));
            Runs.FrameAt(s, 0) && s[0..U16(s, 2)] == f
  {
    var s, f := Sent2(me).stream, FrameOf(Reg(me.pid, me.name));
    FrameShape(Reg(me.pid, me.name));
    hide FrameOf;
    assert forall i :: 0 <= i < |f| ==> s[i] == f[i];
    assert s[0..HDR_LEN] == f[..HDR_LEN];
    Runs.HeaderAt(f, 0);
    assert f[0..HDR_LEN] == f[..HDR_LEN];
    assert s[0..|f|] == f;
  }

  /** The second one takes in the torn frame, made up with the first byte of the next, and logs the line. */
  lemma SecondWakeup(me: Identity, w: Sys.World, stale: Stale)
    requires Working(w, me) && |w.d.taps[0].bufs| == 1
    ensures var w' := Ref.From(w, Wakeup(stale));
            && w'.chans == [Sent2(me)] && |w'.d.taps| == 1 && w'.procs == w.procs && w'.owners == [0]
            && |w'.d.taps[0].bufs| == 2 && w'.d.taps[0].out == [Lie(me)]
  {
    hide FrameOf, React, Sent2, Sys.WorldOk, ReadBack, Runs.WakeStep, Runs.BodyStep, CleanWhats, WholeWhats, FirstTear;
    var ch := Sent2(me);
    var ss := Sys.Streams(w.chans);
    WakeupSteps(w, ss, stale);
    Sent2Torn(me);
    ConnectionOk(w, 0);
    MadeUpIff(ch, me);
    FrameShape(Log(SECOND));
    DaemonOk(w);
    TearEmits(w.d, ss, 0, Runs.Got(HDR_LEN), Runs.Got(BUF_LEN), stale, ch, me);
    var w' := Ref.From(w, Wakeup(stale));
    ConnectionOk(w', 0);
    TornText(ch, me, w'.d.taps[0], 0);
    NoRecord(me);
    ByteOne();
  }

  lemma DaemonOk(w: Sys.World)
    requires Sys.WorldOk(w)
    ensures Sys.InRange(w) && Runs.InStep(w.d, Sys.Streams(w.chans))
    ensures Runs.Ok(w.d, Sys.Streams(w.chans)) && Runs.Untouched(w.d)
  {
    Sys.OkInRange(w);
  }

  lemma NoRecord(me: Identity)
    ensures Records(me, [Reg(me.pid, me.name)]) == []
  {
    assert [Reg(me.pid, me.name)][..0] == [];
  }

  lemma ByteOne()
    ensures UptoNul(FrameOf(Log(SECOND))[..1]) == [1] && FIRST.text[..0] + [1] == [1]
  {
    assert FrameOf(Log(SECOND))[..1] == [1] && [1][1..] == [];
  }

  /** Two wakeups of the daemon on the stream of three calls. */
  lemma DaemonMisreads(me: Identity, stale: Stale)
    requires Sys.WorldOk(Now(me, Sent2(me)))
    ensures var w := Ref.From(Now(me, Sent2(me)), Daemon(stale));
            && w.chans == [Sent2(me)] && |w.d.taps| == 1 && w.procs == Now(me, Sent2(me)).procs && w.owners == [0]
            && |w.d.taps[0].bufs| == 2 && w.d.taps[0].out == [Lie(me)]
  {
    hide Sent2, Sys.WorldOk;
    var w := Now(me, Sent2(me));
    var accept := [Sys.DaemonCall(Runs.Accept(0))];
    Ref.FromOne(w, accept[0]);
    var w1 := Ref.From(w, accept);
    assert w1.d == Runs.State([Runs.NEW_TAP.(accepted := true)], [Entry(0, 0, [], false)], Runs.Waiting);
    assert w1.d.clients[0].fd == 0;
    Ref.FromAppend(w, accept, Wakeup(stale));
    Ref.FromAppend(w, accept + Wakeup(stale), Wakeup(stale));
    FirstWakeup(me, w1, stale);
    SecondWakeup(me, Ref.From(w1, Wakeup(stale)), stale);
  }

  lemma WakeupSteps(w: Sys.World, ss: seq<seq<byte>>, stale: Stale)
    requires Sys.WorldOk(w) && ss == Sys.Streams(w.chans)
    ensures Sys.InRange(w)
    ensures Ref.From(w, Wakeup(stale))
         == w.(d := Runs.BodyStep(Runs.WakeStep(w.d, ss, 0, Runs.Got(HDR_LEN)), ss, Runs.Got(BUF_LEN), stale))
  {
    hide Sys.WorldOk, Runs.WakeStep, Runs.BodyStep;
    var es := Wakeup(stale);
    Sys.OkInRange(w);
    Ref.FromOne(w, es[0]);
    var w1 := Ref.From(w, [es[0]]);
    Ref.FromOne(w1, es[1]);
    Ref.FromAppend(w, [es[0]], [es[1]]);
    assert es == [es[0]] + [es[1]];
  }

  /** In this run the daemon logs one line, which nobody sent, for a connection on which one other message was sent
      whole: its records are no prefix of those of the messages sent whole. */
  lemma PrefixFails(me: Identity, stale: Stale)
    ensures var w := Sys.Run([me], Events(stale));
            && |w.chans| == |w.d.taps| == 1
            && w.d.taps[0].out == [Lie(me)]
            && Records(me, WholeWhats(w.chans[0].pieces)) == [RecordOf(me, SECOND)]
            && !(w.d.taps[0].out <= Records(me, WholeWhats(w.chans[0].pieces)))
  {
    hide Connects, Tears, SendsOn, Daemon, Sent2, Sys.Run, Ref.From;
    ClientTears(me);
    Ref.RunAppend([me], Connects() + Tears() + SendsOn(), Daemon(stale));
    DaemonMisreads(me, stale);
    Sent2Torn(me);
    SecondOnly(me);
  }

  lemma SecondOnly(me: Identity)
    ensures Records(me, [Reg(me.pid, me.name), Log(SECOND)]) == [RecordOf(me, SECOND)] != [Lie(me)]
    ensures !([Lie(me)] <= [RecordOf(me, SECOND)])
  {
    NoRecord(me);
    assert [Reg(me.pid, me.name), Log(SECOND)][..1] == [Reg(me.pid, me.name)];
    assert Lie(me).text[0] != SECOND.text[0];
    assert [Lie(me)][0] != [RecordOf(me, SECOND)][0];
  }
}
