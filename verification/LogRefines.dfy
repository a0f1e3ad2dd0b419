/** The step system and the code it is made of: a call of the library that nothing interrupts does in steps what
    the call does at once, and the two reads of a wakeup do what the daemon's receive function does. */
module LogRefines {
  import opened Basics
  import opened Wire
  import Pl2rl
  import opened Pl2rlFacts
  import Pl2rld
  import Runs = Pl2rldRuns
  import opened LogProtocol

  // ---------------------------------------------------------------- runs from a given state

  ghost function From(w: World, es: seq<Event>): (r: World)
    requires WorldOk(w)
    ensures WorldOk(r) && InRange(r)
    decreases |es|
  {
    OkInRange(w);
    if es == [] then w
    else
      NextKeepsOk(w, es[0]);
      From(Next(w, es[0]), es[1..])
  }

  lemma {:induction false} FromAppend(w: World, a: seq<Event>, b: seq<Event>)
    requires WorldOk(w)
    ensures From(w, a + b) == From(From(w, a), b)
    decreases |a|
  {
    OkInRange(w);
    if a == [] {
      assert a + b == b;
    } else {
      NextKeepsOk(w, a[0]);
      assert (a + b)[1..] == a[1..] + b;
      FromAppend(Next(w, a[0]), a[1..], b);
    }
  }

  lemma {:induction false} RunAppend(mes: seq<Identity>, es: seq<Event>, more: seq<Event>)
    ensures Run(mes, es + more) == From(Run(mes, es), more)
  {
    hide Next, WorldOk, InRange;
    if more == [] {
      assert es + more == es;
    } else {
      var front, e := more[..|more| - 1], more[|more| - 1];
      RunAppend(mes, es, front);
      assert (es + more)[..|es + more| - 1] == es + front;
      assert more == front + [e];
      FromAppend(Run(mes, es), front, [e]);
      FromOne(From(Run(mes, es), front), e);
    }
  }

  lemma FromOne(w: World, e: Event)
    requires WorldOk(w)
    ensures InRange(w) && From(w, [e]) == Next(w, e)
  {
    OkInRange(w);
    NextKeepsOk(w, e);
    assert [e][1..] == [];
  }

  // ---------------------------------------------------------------- one send

  /** The outcomes that a send uses up. */
  function Spent(c: Chan, tries: nat, os: Pl2rl.Script): seq<Pl2rl.Outcome>
    requires Pl2rl.Sending(c) && 0 < tries <= Pl2rl.RETRIES
    decreases tries
  {
    var o := os[Pl2rl.RETRIES - tries];
    var (c', p) := Pl2rl.AttemptOnce(c, tries, o);
    [o] + (if p.More? then Spent(c', p.tries, os) else [])
  }

  function Sends(p: nat, os: seq<Pl2rl.Outcome>): (es: seq<Event>)
    ensures |es| == |os|
  {
    if os == [] then [] else [SendCall(p, os[0])] + Sends(p, os[1..])
  }

  /** How often has been tried is forgotten at the end of a send. */
  lemma FinishForgets(w: World, p: nat, r: Pl2rl.Progress, tries: nat)
    requires p < |w.procs| && w.procs[p].pc.Busy? && 0 <= w.procs[p].fd < |w.chans|
    requires w.chans[w.procs[p].fd].pieces != []
    ensures var w' := w.(procs := w.procs[p := w.procs[p].(pc := Busy(tries, w.procs[p].pc.next))]);
            Finish(w', p, r) == Finish(w, p, r)
  {
    var proc := w.procs[p];
    var proc' := proc.(pc := Busy(tries, proc.pc.next));
    Twice(w.procs, p, proc', proc.(fd := -1, lastAttempt := 0, pc := Idle));
    Twice(w.procs, p, proc', proc.(pc := Idle));
    Twice(w.procs, p, proc', proc.(pc := Busy(Pl2rl.RETRIES, None)));
  }

  lemma Twice<T>(s: seq<T>, i: nat, x: T, y: T)
    requires i < |s|
    ensures s[i := x][i := y] == s[i := y]
  {
  }

  /** The steps of a send amount to the whole send. */
  lemma {:induction false} SendSteps(w: World, p: nat, os: Pl2rl.Script)
    requires WorldOk(w) && p < |w.procs| && w.procs[p].pc.Busy?
    requires 0 <= w.procs[p].fd < |w.chans| && Pl2rl.Sending(w.chans[w.procs[p].fd])
    requires 0 < w.procs[p].pc.tries <= Pl2rl.RETRIES
    ensures var fd := w.procs[p].fd; var tries := w.procs[p].pc.tries; var c := w.chans[fd];
            var (d, r) := Pl2rl.SendLoop(c, tries, os);
            && d.pieces != [] && !r.More?
            && From(w, Sends(p, Spent(c, tries, os))) == Finish(w.(chans := w.chans[fd := d]), p, r)
    decreases w.procs[p].pc.tries
  {
    hide WorldOk, Finish, Pl2rl.Advance, Pl2rl.SendOnce;
    OkInRange(w);
    var proc := w.procs[p];
    var fd, tries := proc.fd, proc.pc.tries;
    var c := w.chans[fd];
    var o := os[Pl2rl.RETRIES - tries];
    var e := SendCall(p, o);
    var (c', r) := Pl2rl.AttemptOnce(c, tries, o);
    NextKeepsOk(w, e);
    var w1 := Next(w, e);
    SentPieces(c, tries, o);
    var spent := Spent(c, tries, os);
    assert Sends(p, spent) == [e] + Sends(p, spent[1..]);
    assert From(w, Sends(p, spent)) == From(w1, Sends(p, spent[1..]));
    if r.More? {
      SendSteps(w1, p, os);
      var d := Pl2rl.SendLoop(c', r.tries, os).0;
      Twice(w.chans, fd, c', d);
      FinishForgets(w.(chans := w.chans[fd := d]), p, Pl2rl.SendLoop(c', r.tries, os).1, r.tries);
      assert spent[1..] == Spent(c', r.tries, os);
    } else {
      assert spent[1..] == [];
    }
  }

  lemma SentPieces(c: Chan, tries: nat, o: Pl2rl.Outcome)
    requires Pl2rl.Sending(c) && 0 < tries
    ensures |Pl2rl.AttemptOnce(c, tries, o).0.pieces| == |c.pieces|
    ensures Pl2rl.Last(Pl2rl.AttemptOnce(c, tries, o).0).what == Pl2rl.Last(c).what
  {
  }

  // ---------------------------------------------------------------- one call

  /** A process as a client on its own: every connection of the world is taken for its own. */
  function AsClient(w: World, p: nat): Pl2rl.Client
    requires p < |w.procs|
  {
    Pl2rl.Client(w.procs[p].fd, w.procs[p].lastAttempt, w.chans)
  }

  /** The world when that client is in state `s`, between two calls. */
  function WithClient(w: World, p: nat, s: Pl2rl.Client): World
    requires p < |w.procs|
  {
    var dialled := |w.chans| < |s.chans|;
    World(w.procs[p := Proc(w.procs[p].me, s.fd, s.lastAttempt, Idle)], s.chans,
          if dialled then w.owners + [p] else w.owners,
          if dialled then w.d.(taps := w.d.taps + [Runs.NEW_TAP]) else w.d)
  }

  function DialOf(a: Pl2rl.Attempt): Dial {
    if a.Connected? then Up else Down
  }

  /** The steps of a send of `x` on a connection that stands at `c`. */
  function SendEvents(p: nat, c: Chan, x: What, os: Pl2rl.Script): seq<Event> {
    if FrameOf(x) == [] then [] else Sends(p, Spent(Pl2rl.Begin(c, x, FrameOf(x)), Pl2rl.RETRIES, os))
  }

  function Sent(c: Chan, x: What, os: Pl2rl.Script): (Chan, Pl2rl.Progress)
    requires FrameOf(x) != []
  {
    Pl2rl.SendLoop(Pl2rl.Begin(c, x, FrameOf(x)), Pl2rl.RETRIES, os)
  }

  /** A send of a LOG frame on the open connection, once it has begun. */
  lemma LogSend(w: World, p: nat, m: Message, os: Pl2rl.Script)
    requires WorldOk(w) && p < |w.procs| && w.procs[p].pc.Idle? && 0 <= w.procs[p].fd < |w.chans|
    requires LogLength(m) <= BUF_LEN
    ensures WorldOk(StartLog(w, p, m))
    ensures From(StartLog(w, p, m), SendEvents(p, w.chans[w.procs[p].fd], Log(m), os))
         == WithClient(w, p, Pl2rl.SendFrame(AsClient(w, p), Log(m), os).0)
  {
    hide WorldOk, FrameOf, Pl2rl.Advance;
    Pl2rl.FrameIsSomething(Log(m));
    StartLogKeepsOk(w, p, m);
    var proc := w.procs[p];
    var w1, c := StartLog(w, p, m), Pl2rl.Begin(w.chans[proc.fd], Log(m), FrameOf(Log(m)));
    SendSteps(w1, p, os);
    var (d, r) := Pl2rl.SendLoop(c, Pl2rl.RETRIES, os);
    LastWhat(c, Pl2rl.RETRIES, os);
    Twice(w.chans, proc.fd, c, d);
    Twice(w.procs, p, w1.procs[p], proc.(pc := Idle));
    Twice(w.procs, p, w1.procs[p], proc.(fd := -1, lastAttempt := 0, pc := Idle));
  }

  lemma {:induction false} LastWhat(c: Chan, tries: nat, os: Pl2rl.Script)
    requires Pl2rl.Sending(c) && 0 < tries <= Pl2rl.RETRIES
    ensures var (d, r) := Pl2rl.SendLoop(c, tries, os);
            !r.More? && d.pieces != [] && Pl2rl.Last(d).what == Pl2rl.Last(c).what
    decreases tries
  {
    var (c', p) := Pl2rl.AttemptOnce(c, tries, os[Pl2rl.RETRIES - tries]);
    SentPieces(c, tries, os[Pl2rl.RETRIES - tries]);
    if p.More? { LastWhat(c', p.tries, os); }
  }

  /** The steps of a connection attempt after its dial: the send of the REGISTER frame. */
  function DialEvents(w: World, p: nat, now: int, a: Pl2rl.Attempt): seq<Event>
    requires p < |w.procs|
  {
    var proc := w.procs[p];
    if proc.fd < 0 && !Pl2rl.Blocked(proc.lastAttempt, now) && a.Connected? then
      SendEvents(p, Pl2rl.NO_CHAN, Register(proc.me), a.os)
    else []
  }

  /** The REGISTER frame, sent on the new connection. */
  lemma RegSend(w: World, p: nat, now: int, next: Option<Message>, os: Pl2rl.Script)
    requires WorldOk(w) && InRange(w) && p < |w.procs| && w.procs[p].pc.Idle? && w.procs[p].fd < 0
    requires !Pl2rl.Blocked(w.procs[p].lastAttempt, now) && FrameOf(Register(w.procs[p].me)) != []
    ensures var x := Register(w.procs[p].me); var w1 := DialNow(w, p, now, Up, next);
            var (c, r) := Sent(Pl2rl.NO_CHAN, x, os);
            && WorldOk(w1) && !r.More? && c.pieces != [] && Pl2rl.Last(c).what == x
            && From(w1, SendEvents(p, Pl2rl.NO_CHAN, x, os)) == Finish(w1.(chans := w.chans + [c]), p, r)
  {
    hide WorldOk, FrameOf, Pl2rl.Advance, Finish;
    var x := Register(w.procs[p].me);
    DialKeepsOk(w, p, now, Up, next);
    var w1, b := DialNow(w, p, now, Up, next), Pl2rl.Begin(Pl2rl.NO_CHAN, x, FrameOf(x));
    SendSteps(w1, p, os);
    LastWhat(b, Pl2rl.RETRIES, os);
    assert w1.chans[|w.chans| := Sent(Pl2rl.NO_CHAN, x, os).0] == w.chans + [Sent(Pl2rl.NO_CHAN, x, os).0];
  }

  /** A connection attempt in steps is the attempt at once; a message that waits for it is started if the
      registration went out. */
  lemma DialSteps(w: World, p: nat, now: int, a: Pl2rl.Attempt, next: Option<Message>)
    requires WorldOk(w) && InRange(w) && p < |w.procs| && w.procs[p].pc.Idle? && w.procs[p].fd < 0
    ensures WorldOk(DialNow(w, p, now, DialOf(a), next))
    ensures var (s, up) := Pl2rl.ConnectNow(AsClient(w, p), w.procs[p].me, now, a);
            && |w.chans| <= |s.chans| && (up ==> 0 <= s.fd < |s.chans|)
            && From(DialNow(w, p, now, DialOf(a), next), DialEvents(w, p, now, a))
               == if up && next.Some? then StartLog(WithClient(w, p, s), p, next.value) else WithClient(w, p, s)
  {
    hide WorldOk, FrameOf, Pl2rl.Advance, Pl2rl.SendLoop;
    var proc := w.procs[p];
    DialKeepsOk(w, p, now, DialOf(a), next);
    if !Pl2rl.Blocked(proc.lastAttempt, now) && a.Connected? {
      Pl2rl.FrameIsSomething(Register(proc.me));
      RegSend(w, p, now, next, a.os);
      RegEnds(w, p, now, next, a.os);
    }
  }

  /** The end of the REGISTER frame, in both forms. */
  lemma RegEnds(w: World, p: nat, now: int, next: Option<Message>, os: Pl2rl.Script)
    requires InRange(w) && p < |w.procs| && w.procs[p].fd < 0 && FrameOf(Register(w.procs[p].me)) != []
    requires !Pl2rl.Blocked(w.procs[p].lastAttempt, now)
    requires var x := Register(w.procs[p].me); var (c, r) := Sent(Pl2rl.NO_CHAN, x, os);
             !r.More? && c.pieces != [] && Pl2rl.Last(c).what == x
    ensures var x := Register(w.procs[p].me); var (c, r) := Sent(Pl2rl.NO_CHAN, x, os);
            var (s, up) := Pl2rl.ConnectNow(AsClient(w, p), w.procs[p].me, now, Pl2rl.Connected(os));
            && |s.chans| == |w.chans| + 1 && (up ==> s.fd == |w.chans|)
            && Finish(DialNow(w, p, now, Up, next).(chans := w.chans + [c]), p, r)
               == if up && next.Some? then StartLog(WithClient(w, p, s), p, next.value) else WithClient(w, p, s)
  {
    hide FrameOf, Pl2rl.SendLoop;
    var proc := w.procs[p];
    var x := Register(proc.me);
    var (c, r) := Sent(Pl2rl.NO_CHAN, x, os);
    var w1 := DialNow(w, p, now, Up, next);
    var b := Pl2rl.Begin(Pl2rl.NO_CHAN, x, FrameOf(x));
    assert (w.chans + [Pl2rl.NO_CHAN])[|w.chans|] == Pl2rl.NO_CHAN;
    assert (w.chans + [Pl2rl.NO_CHAN])[|w.chans| := c] == w.chans + [c];
    var up := proc.(fd := |w.chans|, lastAttempt := 0, pc := Idle);
    var down := proc.(fd := -1, lastAttempt := 0, pc := Idle);
    Twice(w.procs, p, w1.procs[p], up);
    Twice(w.procs, p, w1.procs[p], down);
    Twice(w.procs, p, w1.procs[p], up.(pc := Busy(Pl2rl.RETRIES, None)));
    Twice(w.procs, p, up, up);
    Twice(w.procs, p, up, up.(pc := Busy(Pl2rl.RETRIES, None)));
  }

  lemma Same(w: World, p: nat)
    requires p < |w.procs| && w.procs[p].pc.Idle?
    ensures WithClient(w, p, AsClient(w, p)) == w
  {
  }

  lemma Compose(w: World, p: nat, s: Pl2rl.Client, t: Pl2rl.Client)
    requires p < |w.procs| && |w.chans| <= |s.chans| == |t.chans|
    ensures AsClient(WithClient(w, p, s), p) == s
    ensures WithClient(WithClient(w, p, s), p, t) == WithClient(w, p, t)
  {
    Twice(w.procs, p, WithClient(w, p, s).procs[p], WithClient(w, p, t).procs[p]);
  }

  /** The LOG frame of a call on an open connection, if the message is not too long. */
  lemma LogEnds(w: World, p: nat, m: Message, os: Pl2rl.Script)
    requires WorldOk(w) && p < |w.procs| && w.procs[p].pc.Idle? && 0 <= w.procs[p].fd < |w.chans|
    ensures WorldOk(StartLog(w, p, m))
    ensures var s := AsClient(w, p);
            From(StartLog(w, p, m), if LogLength(m) <= BUF_LEN then SendEvents(p, s.chans[s.fd], Log(m), os) else [])
            == WithClient(w, p, if LogLength(m) <= BUF_LEN then Pl2rl.SendFrame(s, Log(m), os).0 else s)
  {
    hide WorldOk, FrameOf, Pl2rl.SendFrame, SendEvents;
    StartLogKeepsOk(w, p, m);
    if LogLength(m) <= BUF_LEN { LogSend(w, p, m, os); }
  }

  lemma SendKeepsCount(s: Pl2rl.Client, x: What, os: Pl2rl.Script)
    requires Pl2rl.Consistent(s)
    ensures |Pl2rl.SendFrame(s, x, os).0.chans| == |s.chans|
  {
  }

  /** The steps of a whole call of pl2rl_log that nothing interrupts. */
  function LogEvents(w: World, p: nat, now: int, a: Pl2rl.Attempt, m: Message, os: Pl2rl.Script): seq<Event>
    requires p < |w.procs| && Pl2rl.Consistent(AsClient(w, p))
  {
    var me, s := w.procs[p].me, AsClient(w, p);
    var (t, up) := if s.fd < 0 then Pl2rl.ConnectNow(s, me, now, a) else (s, true);
    [Event.LogCall(p, now, DialOf(a), m)] + DialEvents(w, p, now, a)
    + if up && LogLength(m) <= BUF_LEN then SendEvents(p, t.chans[t.fd], Log(m), os) else []
  }

  /** The call up to the point where the message is to be sent. */
  lemma UptoMessage(w: World, p: nat, now: int, a: Pl2rl.Attempt, m: Message)
    requires WorldOk(w) && InRange(w) && p < |w.procs| && w.procs[p].pc.Idle? && Pl2rl.Consistent(AsClient(w, p))
    ensures var s := AsClient(w, p);
            var (t, up) := if s.fd < 0 then Pl2rl.ConnectNow(s, w.procs[p].me, now, a) else (s, true);
            var w2 := WithClient(w, p, t);
            && |w.chans| <= |t.chans| && AsClient(w2, p) == t && WorldOk(w2)
            && (up ==> 0 <= t.fd < |t.chans|)
            && From(w, [Event.LogCall(p, now, DialOf(a), m)] + DialEvents(w, p, now, a))
               == if up then StartLog(w2, p, m) else w2
  {
    hide WorldOk, FrameOf, From, DialNow, StartLog, Pl2rl.ConnectNow, SendEvents;
    var first, dial := Event.LogCall(p, now, DialOf(a), m), DialEvents(w, p, now, a);
    FromOne(w, first);
    FromAppend(w, [first], dial);
    FromNone(w);
    if w.procs[p].fd < 0 {
      DialSteps(w, p, now, a, Some(m));
      DialSteps(w, p, now, a, None);
      var t := Pl2rl.ConnectNow(AsClient(w, p), w.procs[p].me, now, a).0;
      Compose(w, p, t, t);
      assert Next(w, first) == DialNow(w, p, now, DialOf(a), Some(m));
    } else {
      Same(w, p);
      StartLogKeepsOk(w, p, m);
      FromNone(StartLog(w, p, m));
      assert Next(w, first) == StartLog(w, p, m);
    }
  }

  lemma FromNone(w: World)
    requires WorldOk(w)
    ensures From(w, []) == w
  {
  }

  /** In steps a call does to the process, its connections and the daemon's new connections what it does at once. */
  lemma LogCallRefines(w: World, p: nat, now: int, a: Pl2rl.Attempt, m: Message, os: Pl2rl.Script)
    requires WorldOk(w) && p < |w.procs| && w.procs[p].pc.Idle? && Pl2rl.Consistent(AsClient(w, p))
    ensures From(w, LogEvents(w, p, now, a, m, os))
         == WithClient(w, p, Pl2rl.LogMessage(AsClient(w, p), w.procs[p].me, now, a, m, os))
  {
    hide WorldOk, FrameOf, From, DialEvents, StartLog, Pl2rl.SendFrame, Pl2rl.ConnectNow, SendEvents, WithClient;
    OkInRange(w);
    var s := AsClient(w, p);
    var (t, up) := if s.fd < 0 then Pl2rl.ConnectNow(s, w.procs[p].me, now, a) else (s, true);
    var upto := [Event.LogCall(p, now, DialOf(a), m)] + DialEvents(w, p, now, a);
    var send := if up && LogLength(m) <= BUF_LEN then SendEvents(p, t.chans[t.fd], Log(m), os) else [];
    var w2 := WithClient(w, p, t);
    UptoMessage(w, p, now, a, m);
    FromAppend(w, upto, send);
    FromNone(w2);
    if up {
      IdleAgain(w, p, t);
      LogEnds(w2, p, m, os);
      SendKeepsCount(t, Log(m), os);
      Compose(w, p, t, Pl2rl.SendFrame(t, Log(m), os).0);
      Compose(w, p, t, t);
    }
  }

  lemma IdleAgain(w: World, p: nat, s: Pl2rl.Client)
    requires p < |w.procs|
    ensures |WithClient(w, p, s).procs| == |w.procs| && WithClient(w, p, s).procs[p].pc.Idle?
    ensures WithClient(w, p, s).procs[p].fd == s.fd && WithClient(w, p, s).chans == s.chans
  {
  }

  /** The same for pl2rl_init. */
  lemma InitCallRefines(w: World, p: nat, now: int, a: Pl2rl.Attempt)
    requires WorldOk(w) && p < |w.procs| && w.procs[p].pc.Idle? && Pl2rl.Consistent(AsClient(w, p))
    ensures From(w, [Event.InitCall(p, now, DialOf(a))] + DialEvents(w, p, now, a))
         == WithClient(w, p, Pl2rl.ConnectNow(AsClient(w, p), w.procs[p].me, now, a).0)
  {
    hide WorldOk, FrameOf, From, DialNow, Pl2rl.ConnectNow, SendEvents;
    OkInRange(w);
    var first, dial := Event.InitCall(p, now, DialOf(a)), DialEvents(w, p, now, a);
    FromOne(w, first);
    FromAppend(w, [first], dial);
    FromNone(w);
    if w.procs[p].fd < 0 {
      DialSteps(w, p, now, a, None);
      assert Next(w, first) == DialNow(w, p, now, DialOf(a), None);
    } else {
      Same(w, p);
      StaysUp(AsClient(w, p), w.procs[p].me, now, a);
    }
  }

  lemma StaysUp(s: Pl2rl.Client, me: Identity, now: int, a: Pl2rl.Attempt)
    requires Pl2rl.Consistent(s) && 0 <= s.fd
    ensures Pl2rl.ConnectNow(s, me, now, a) == (s, true)
  {
  }
}
