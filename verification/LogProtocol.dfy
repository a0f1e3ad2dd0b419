/** The whole logging system: any number of client processes, each with its own connections, and one
    daemon.  Every system call is a step of its own, so a send can stop after any number of bytes, a
    read can return any part of what is there, and the steps of all processes interleave freely. */
module LogProtocol {
  import opened Basics
  import opened Wire
  import Pl2rl
  import opened Pl2rlFacts
  import Pl2rld
  import Pl2rldRuns

  type Identity = Pl2rl.Identity
  type Chan = Pl2rl.Chan
  type Piece = Pl2rl.Piece
  type Record = Pl2rld.Record
  type Buffer = Pl2rld.Buffer

  /** What a process is in the middle of: a send with `tries` attempts left, and the message that is
      to be logged once the REGISTER frame being sent is out. */
  datatype Pc = Idle | Busy(tries: nat, next: Option<Message>)

  datatype Proc = Proc(me: Identity, fd: int, lastAttempt: int, pc: Pc)

  /** `owners[c]` is the process that opened connection `c`. */
  datatype World = World(procs: seq<Proc>, chans: seq<Chan>, owners: seq<nat>, d: Pl2rldRuns.State)

  /** The outcome of the calls that set a connection up. */
  datatype Dial = Down | Up

  datatype Event =
    | InitCall(p: nat, now: int, dial: Dial)
    | LogCall(p: nat, now: int, dial: Dial, m: Message)
    | SendCall(p: nat, o: Pl2rl.Outcome)
    | DaemonCall(step: Pl2rldRuns.Step)

  function Streams(chans: seq<Chan>): (ss: seq<seq<byte>>)
    ensures |ss| == |chans| && forall c :: 0 <= c < |chans| ==> ss[c] == chans[c].stream
  {
    seq(|chans|, c requires 0 <= c < |chans| => chans[c].stream)
  }

  function Register(me: Identity): What {
    Reg(me.pid, me.name)
  }

  // ---------------------------------------------------------------- steps

  predicate InRange(w: World) {
    && |w.owners| == |w.chans| == |w.d.taps|
    && (forall p :: 0 <= p < |w.procs| ==> -1 <= w.procs[p].fd < |w.chans|)
    && (forall p :: 0 <= p < |w.procs| && w.procs[p].pc.Busy? ==>
          0 <= w.procs[p].fd && Pl2rl.Sending(w.chans[w.procs[p].fd]) && 0 < w.procs[p].pc.tries)
    && (forall c :: 0 <= c < |w.chans| ==> w.d.taps[c].rd <= |w.chans[c].stream|)
  }

  function DialNow(w: World, p: nat, now: int, dial: Dial, next: Option<Message>): World
    requires InRange(w) && p < |w.procs|
  {
    var proc := w.procs[p];
    if Pl2rl.Blocked(proc.lastAttempt, now) then w
    else if dial.Down? then w.(procs := w.procs[p := proc.(lastAttempt := now)])
    else
      World(w.procs[p := proc.(fd := |w.chans|, lastAttempt := 0, pc := Busy(Pl2rl.RETRIES, next))],
            w.chans + [Pl2rl.Begin(Pl2rl.NO_CHAN, Register(proc.me), FrameOf(Register(proc.me)))],
            w.owners + [p],
            w.d.(taps := w.d.taps + [Pl2rldRuns.NEW_TAP]))
  }

  function StartLog(w: World, p: nat, m: Message): World
    requires p < |w.procs| && 0 <= w.procs[p].fd < |w.chans|
  {
    var proc := w.procs[p];
    if LogLength(m) > BUF_LEN then w.(procs := w.procs[p := proc.(pc := Idle)])
    else
      w.(procs := w.procs[p := proc.(pc := Busy(Pl2rl.RETRIES, None))],
         chans := w.chans[proc.fd := Pl2rl.Begin(w.chans[proc.fd], Log(m), FrameOf(Log(m)))])
  }

  /** The end of a send of process `p`, with what it came to on the connection. */
  function Finish(w: World, p: nat, r: Pl2rl.Progress): World
    requires p < |w.procs| && w.procs[p].pc.Busy? && 0 <= w.procs[p].fd < |w.chans|
    requires w.chans[w.procs[p].fd].pieces != []
  {
    var proc := w.procs[p];
    var closed := proc.(fd := -1, lastAttempt := 0, pc := Idle);
    match r
    case Sent(_) =>
      if proc.pc.next.Some? then StartLog(w, p, proc.pc.next.value)
      else w.(procs := w.procs[p := proc.(pc := Idle)])
    case Broken(_) => w.(procs := w.procs[p := closed])
    case _ =>
      w.(procs := w.procs[p := if Pl2rl.Last(w.chans[proc.fd]).what.Reg? then closed else proc.(pc := Idle)])
  }

  function Attempt(w: World, p: nat, o: Pl2rl.Outcome): World
    requires InRange(w) && p < |w.procs| && w.procs[p].pc.Busy?
  {
    var proc := w.procs[p];
    var (c, r) := Pl2rl.AttemptOnce(w.chans[proc.fd], proc.pc.tries, o);
    var w' := w.(chans := w.chans[proc.fd := c]);
    if r.More? then w'.(procs := w.procs[p := proc.(pc := Busy(r.tries, proc.pc.next))]) else Finish(w', p, r)
  }

  function Next(w: World, e: Event): World
    requires InRange(w)
  {
    match e
    case InitCall(p, now, dial) =>
      if p < |w.procs| && w.procs[p].pc.Idle? && w.procs[p].fd < 0 then DialNow(w, p, now, dial, None) else w
    case LogCall(p, now, dial, m) =>
      if p < |w.procs| && w.procs[p].pc.Idle? then
        if w.procs[p].fd < 0 then DialNow(w, p, now, dial, Some(m)) else StartLog(w, p, m)
      else w
    case SendCall(p, o) => if p < |w.procs| && w.procs[p].pc.Busy? then Attempt(w, p, o) else w
    case DaemonCall(step) => w.(d := Pl2rldRuns.Next(w.d, Streams(w.chans), step))
  }

  // ---------------------------------------------------------------- what every step keeps

  function OwnerOf(w: World, c: nat): Identity
    requires c < |w.owners| && w.owners[c] < |w.procs|
  {
    w.procs[w.owners[c]].me
  }

  ghost predicate ProcOk(w: World, p: nat)
    requires p < |w.procs| && |w.owners| == |w.chans|
  {
    var proc := w.procs[p];
    && -1 <= proc.fd < |w.chans|
    && (0 <= proc.fd ==> w.owners[proc.fd] == p)
    && (proc.pc.Idle? && 0 <= proc.fd ==> Ready(w.chans[proc.fd]))
    && (proc.pc.Busy? ==>
          && 0 <= proc.fd && Pl2rl.Sending(w.chans[proc.fd]) && 0 < proc.pc.tries <= Pl2rl.RETRIES
          && (Pl2rl.Last(w.chans[proc.fd]).what.Log? ==> proc.pc.next.None?))
  }

  ghost predicate WriterOk(w: World) {
    && |w.owners| == |w.chans| == |w.d.taps|
    && (forall c :: 0 <= c < |w.chans| ==> w.owners[c] < |w.procs| && ChanOk(w.chans[c], OwnerOf(w, c)))
    && (forall p :: 0 <= p < |w.procs| ==> ProcOk(w, p))
  }

  ghost predicate WorldOk(w: World) {
    WriterOk(w) && Pl2rldRuns.Ok(w.d, Streams(w.chans)) && Pl2rldRuns.Untouched(w.d)
  }

  lemma OkInRange(w: World)
    requires WorldOk(w)
    ensures InRange(w)
  {
    forall c | 0 <= c < |w.chans|
      ensures w.d.taps[c].rd <= |w.chans[c].stream|
    {
      assert Pl2rldRuns.TapOk(w.d.taps[c], c, Streams(w.chans)[c]);
    }
    forall p | 0 <= p < |w.procs|
      ensures -1 <= w.procs[p].fd < |w.chans|
      ensures w.procs[p].pc.Busy? ==>
                0 <= w.procs[p].fd && Pl2rl.Sending(w.chans[w.procs[p].fd]) && 0 < w.procs[p].pc.tries
    {
      assert ProcOk(w, p);
    }
  }

  /** A process that changes its own state and its own connection leaves the others in order. */
  lemma OwnStep(w: World, p: nat, proc: Proc, c: Chan)
    requires WorldOk(w) && p < |w.procs| && 0 <= w.procs[p].fd < |w.chans| && proc.me == w.procs[p].me
    requires ChanOk(c, proc.me) && w.chans[w.procs[p].fd].stream <= c.stream
    requires proc.fd == -1 || proc.fd == w.procs[p].fd
    requires proc.fd < 0 ==> proc.pc.Idle?
    requires proc.pc.Idle? && 0 <= proc.fd ==> Ready(c)
    requires proc.pc.Busy? ==> Pl2rl.Sending(c) && 0 < proc.pc.tries <= Pl2rl.RETRIES
                               && (Pl2rl.Last(c).what.Log? ==> proc.pc.next.None?)
    ensures WorldOk(w.(procs := w.procs[p := proc], chans := w.chans[w.procs[p].fd := c]))
  {
    hide ChanOk, Ready;
    var fd := w.procs[p].fd;
    var w' := w.(procs := w.procs[p := proc], chans := w.chans[fd := c]);
    assert ProcOk(w, p);
    forall q | 0 <= q < |w'.procs|
      ensures ProcOk(w', q)
    {
      assert ProcOk(w, q);
    }
    forall x | 0 <= x < |w'.chans|
      ensures w'.owners[x] < |w'.procs| && ChanOk(w'.chans[x], OwnerOf(w', x))
    {
      assert w.owners[x] < |w.procs| && ChanOk(w.chans[x], OwnerOf(w, x));
    }
    Pl2rldRuns.GrowthKeepsOk(w.d, Streams(w.chans), Streams(w'.chans));
  }

  /** A process that leaves its connections alone. */
  lemma QuietStep(w: World, p: nat, proc: Proc)
    requires WorldOk(w) && p < |w.procs| && proc.me == w.procs[p].me && proc.fd < 0 && proc.pc.Idle?
    requires proc.fd == -1
    ensures WorldOk(w.(procs := w.procs[p := proc]))
  {
    var w' := w.(procs := w.procs[p := proc]);
    forall q | 0 <= q < |w'.procs|
      ensures ProcOk(w', q)
    {
      assert ProcOk(w, q);
    }
    forall x | 0 <= x < |w'.chans|
      ensures w'.owners[x] < |w'.procs| && ChanOk(w'.chans[x], OwnerOf(w', x))
    {
      assert w.owners[x] < |w.procs| && ChanOk(w.chans[x], OwnerOf(w, x));
    }
  }

  lemma StartLogKeepsOk(w: World, p: nat, m: Message)
    requires WorldOk(w) && p < |w.procs| && 0 <= w.procs[p].fd && w.procs[p].pc.Idle?
    ensures w.procs[p].fd < |w.chans| && WorldOk(StartLog(w, p, m))
  {
    assert ProcOk(w, p);
    var proc := w.procs[p];
    var c := w.chans[proc.fd];
    assert w.owners[proc.fd] < |w.procs| && ChanOk(c, OwnerOf(w, proc.fd));
    if LogLength(m) > BUF_LEN {
      OwnStep(w, p, proc.(pc := Idle), c);
      assert w.chans[proc.fd := c] == w.chans;
    } else {
      BeginKeepsOk(c, proc.me, Log(m));
      OwnStep(w, p, proc.(pc := Busy(Pl2rl.RETRIES, None)), Pl2rl.Begin(c, Log(m), FrameOf(Log(m))));
    }
  }

  lemma NoChanOk(me: Identity)
    ensures ChanOk(Pl2rl.NO_CHAN, me)
  {
    assert Bytes([]) == [];
  }

  lemma {:induction false} DialKeepsOk(w: World, p: nat, now: int, dial: Dial, next: Option<Message>)
    requires WorldOk(w) && InRange(w) && p < |w.procs| && w.procs[p].fd < 0 && w.procs[p].pc.Idle?
    ensures WorldOk(DialNow(w, p, now, dial, next))
  {
    var proc := w.procs[p];
    assert ProcOk(w, p);
    if Pl2rl.Blocked(proc.lastAttempt, now) {
    } else if dial.Down? {
      QuietStep(w, p, proc.(lastAttempt := now));
    } else {
      hide ChanOk, FrameOf;
      NoChanOk(proc.me);
      BeginKeepsOk(Pl2rl.NO_CHAN, proc.me, Register(proc.me));
      var w' := DialNow(w, p, now, dial, next);
      forall q | 0 <= q < |w'.procs|
        ensures ProcOk(w', q)
      {
        assert ProcOk(w, q);
      }
      forall x | 0 <= x < |w'.chans|
        ensures w'.owners[x] < |w'.procs| && ChanOk(w'.chans[x], OwnerOf(w', x))
      {
        if x < |w.chans| { assert w.owners[x] < |w.procs| && ChanOk(w.chans[x], OwnerOf(w, x)); }
      }
      Pl2rldRuns.NewConnectionKeepsOk(w.d, Streams(w.chans));
      assert Streams(w'.chans) == Streams(w.chans) + [[]];
    }
  }

  lemma AttemptKeepsOk(w: World, p: nat, o: Pl2rl.Outcome)
    requires WorldOk(w) && InRange(w) && p < |w.procs| && w.procs[p].pc.Busy?
    ensures WorldOk(Attempt(w, p, o))
  {
    var proc := w.procs[p];
    assert ProcOk(w, p);
    var c := w.chans[proc.fd];
    assert w.owners[proc.fd] < |w.procs| && ChanOk(c, OwnerOf(w, proc.fd));
    var (c', r) := Pl2rl.AttemptOnce(c, proc.pc.tries, o);
    AdvanceKeepsOk(c, proc.me, r);
    var closed := proc.(fd := -1, lastAttempt := 0, pc := Idle);
    assert |c'.pieces| == |c.pieces| && Pl2rl.Last(c').what == Pl2rl.Last(c).what;
    assert |c.pieces| == 1 <==> Pl2rl.Last(c).what.Reg?;
    assert forall i :: 0 <= i < |c.pieces| - 1 ==> c'.pieces[i] == c.pieces[i];
    match r
    case More(_, tries) => OwnStep(w, p, proc.(pc := Busy(tries, proc.pc.next)), c');
    case Sent(_) =>
      OwnStep(w, p, proc.(pc := Idle), c');
      if proc.pc.next.Some? {
        var w1 := w.(procs := w.procs[p := proc.(pc := Idle)], chans := w.chans[proc.fd := c']);
        StartLogKeepsOk(w1, p, proc.pc.next.value);
        var w2 := w.(chans := w.chans[proc.fd := c']);
        SameStart(w1, w2, p, proc.pc.next.value);
      }
    case GaveUp(_) => OwnStep(w, p, if Pl2rl.Last(c').what.Reg? then closed else proc.(pc := Idle), c');
    case Broken(_) => OwnStep(w, p, closed, c');
  }

  lemma SameStart(w1: World, w2: World, p: nat, m: Message)
    requires p < |w1.procs| && w1 == w2.(procs := w1.procs) && |w2.procs| == |w1.procs|
    requires w1.procs == w2.procs[p := w2.procs[p].(pc := Idle)] && 0 <= w1.procs[p].fd < |w1.chans|
    ensures StartLog(w1, p, m) == StartLog(w2, p, m)
  {
  }

  lemma {:induction false} NextKeepsOk(w: World, e: Event)
    requires WorldOk(w) && InRange(w)
    ensures WorldOk(Next(w, e))
  {
    match e
    case InitCall(p, now, dial) =>
      if p < |w.procs| && w.procs[p].pc.Idle? && w.procs[p].fd < 0 { DialKeepsOk(w, p, now, dial, None); }
    case LogCall(p, now, dial, m) =>
      if p < |w.procs| && w.procs[p].pc.Idle? {
        if w.procs[p].fd < 0 { DialKeepsOk(w, p, now, dial, Some(m)); } else { StartLogKeepsOk(w, p, m); }
      }
    case SendCall(p, o) => if p < |w.procs| && w.procs[p].pc.Busy? { AttemptKeepsOk(w, p, o); }
    case DaemonCall(step) =>
      Pl2rldRuns.NextKeepsOk(w.d, Streams(w.chans), step);
      DaemonKeepsWriters(w, Pl2rldRuns.Next(w.d, Streams(w.chans), step));
  }

  lemma DaemonKeepsWriters(w: World, d: Pl2rldRuns.State)
    requires WorldOk(w) && |d.taps| == |w.d.taps|
    ensures WriterOk(w.(d := d))
  {
    forall p | 0 <= p < |w.procs|
      ensures ProcOk(w.(d := d), p)
    {
      assert ProcOk(w, p);
    }
  }

  // ---------------------------------------------------------------- runs

  function Start(mes: seq<Identity>): World {
    World(seq(|mes|, p requires 0 <= p < |mes| => Proc(mes[p], -1, 0, Idle)), [], [],
          Pl2rldRuns.State([], [], Pl2rldRuns.Waiting))
  }

  /** The world after the events `es`, in any order and of any processes. */
  ghost function Run(mes: seq<Identity>, es: seq<Event>): (w: World)
    ensures WorldOk(w) && InRange(w)
  {
    if es == [] then Start(mes)
    else
      var w := Run(mes, es[..|es| - 1]);
      NextKeepsOk(w, es[|es| - 1]);
      OkInRange(Next(w, es[|es| - 1]));
      Next(w, es[|es| - 1])
  }
}
