/** The logging client: one connection at a time to the daemon, non-blocking sends with a fixed
    number of attempts, a mandatory REGISTER frame and a limit on connection attempts.

    A connection is a `Chan`: the bytes the kernel has accepted on it so far, and the history of
    the sends that produced them.  System calls are oracles: their outcomes are parameters. */
module Pl2rl {
  import opened Basics
  import opened Wire

  const RETRIES := 3
  const CONNECT_RATE := 1

  /** One send system call: the kernel has room for `room` more bytes, or EAGAIN, or an error. */
  datatype Outcome = Wrote(room: nat) | Again | Failed

  /** The outcomes of the attempts of one pl2rl_send, first to last. */
  type Script = os: seq<Outcome> | |os| == RETRIES witness [Again, Again, Again]

  /** Where a pl2rl_send stands after an attempt; `w` bytes are written. */
  datatype Progress = More(w: nat, tries: nat) | Sent(w: nat) | GaveUp(w: nat) | Broken(w: nat)

  datatype Fate = InFlight | Whole | GivenUp | Lost

  /** One send on a connection: the first `w` bytes of `frame`, which carries `what`, were accepted. */
  datatype Piece = Piece(what: What, frame: seq<byte>, w: nat, fate: Fate)

  datatype Chan = Chan(stream: seq<byte>, pieces: seq<Piece>)

  const NO_CHAN := Chan([], [])

  // ---------------------------------------------------------------- one attempt, one send

  function SendOnce(len: nat, w: nat, tries: nat, o: Outcome): Progress
    requires w < len && 0 < tries
  {
    match o
    case Failed => Broken(w)
    case Again => if tries == 1 then GaveUp(w) else More(w, tries - 1)
    case Wrote(room) =>
      var w' := w + Min(room, len - w);
      if w' == len then Sent(w') else if tries == 1 then GaveUp(w') else More(w', tries - 1)
  }

  function FateOf(p: Progress): Fate {
    match p
    case More(_, _) => InFlight
    case Sent(_) => Whole
    case GaveUp(_) => GivenUp
    case Broken(_) => Lost
  }

  function Begin(c: Chan, x: What, frame: seq<byte>): Chan {
    c.(pieces := c.pieces + [Piece(x, frame, 0, InFlight)])
  }

  function Last(c: Chan): Piece
    requires c.pieces != []
  {
    c.pieces[|c.pieces| - 1]
  }

  /** The last piece is still being sent. */
  predicate Sending(c: Chan) {
    c.pieces != [] && Last(c).fate == InFlight && Last(c).w < |Last(c).frame|
  }

  /** The effect of one attempt on the connection: the next bytes of the frame are appended. */
  function Advance(c: Chan, p: Progress): Chan
    requires Sending(c) && Last(c).w <= p.w <= |Last(c).frame|
  {
    var last := Last(c);
    Chan(c.stream + last.frame[last.w..p.w],
         c.pieces[|c.pieces| - 1 := last.(w := p.w, fate := FateOf(p))])
  }

  function AttemptOnce(c: Chan, tries: nat, o: Outcome): (r: (Chan, Progress))
    requires Sending(c) && 0 < tries
    ensures r.1.More? ==> Sending(r.0) && r.1.tries == tries - 1 && 0 < r.1.tries && r.1.w == Last(r.0).w
  {
    var p := SendOnce(|Last(c).frame|, Last(c).w, tries, o);
    (Advance(c, p), p)
  }

  /** All the attempts of a pl2rl_send that has `tries` of them left. */
  function SendLoop(c: Chan, tries: nat, os: Script): (Chan, Progress)
    requires Sending(c) && 0 < tries <= RETRIES
    decreases tries
  {
    var (c', p) := AttemptOnce(c, tries, os[RETRIES - tries]);
    if p.More? then SendLoop(c', p.tries, os) else (c', p)
  }

  // ---------------------------------------------------------------- the client's calls

  /** `fd` is the number of the open connection, or -1. */
  datatype Client = Client(fd: int, lastAttempt: int, chans: seq<Chan>)

  datatype Identity = Identity(pid: uint32, name: CText)

  /** What the system calls of one pl2rl_connect do. */
  datatype Attempt = NoSocket | Refused | NoNonBlock | Connected(os: Script)

  ghost predicate Consistent(s: Client) {
    -1 <= s.fd < |s.chans|
  }

  function Disconnected(s: Client): Client {
    if s.fd < 0 then s else s.(fd := -1, lastAttempt := 0)
  }

  /** What one turn of the send loop does to what the whole loop will have done. */
  lemma LoopTurn(c: Chan, tries: nat, os: Script) returns (c': Chan, p: Progress)
    requires Sending(c) && 0 < tries <= RETRIES
    ensures (c', p) == AttemptOnce(c, tries, os[RETRIES - tries])
    ensures p == SendOnce(|Last(c).frame|, Last(c).w, tries, os[RETRIES - tries])
    ensures Last(c').frame == Last(c).frame
    ensures if p.More? then SendLoop(c', p.tries, os) == SendLoop(c, tries, os) && Last(c').w == p.w
            else SendLoop(c, tries, os) == (c', p)
  {
    var r := AttemptOnce(c, tries, os[RETRIES - tries]);
    c', p := r.0, r.1;
  }

  lemma FrameIsSomething(x: What)
    ensures FrameOf(x) != []
  {
  }

  function SendFrame(s: Client, x: What, os: Script): (r: (Client, bool))
    requires Consistent(s)
    ensures Consistent(r.0)
  {
    if s.fd < 0 then (s, false)
    else
      var (c, p) := SendLoop(Begin(s.chans[s.fd], x, FrameOf(x)), RETRIES, os);
      var s' := s.(chans := s.chans[s.fd := c]);
      (if p.Broken? then Disconnected(s') else s', p.Sent?)
  }

  predicate Blocked(lastAttempt: int, now: int) {
    lastAttempt != 0 && now - lastAttempt < CONNECT_RATE
  }

  function ConnectNow(s: Client, me: Identity, now: int, a: Attempt): (r: (Client, bool))
    requires Consistent(s)
    ensures Consistent(r.0) && (r.1 ==> 0 <= r.0.fd)
  {
    if 0 <= s.fd then (s, true)
    else if Blocked(s.lastAttempt, now) then (s, false)
    else
      match a
      case Connected(os) =>
        var s' := Client(|s.chans|, 0, s.chans + [NO_CHAN]);
        var (t, ok) := SendFrame(s', Reg(me.pid, me.name), os);
        if ok then (t, true) else (Disconnected(t), false)
      case _ => (s.(lastAttempt := now), false)
  }

  function LogMessage(s: Client, me: Identity, now: int, a: Attempt, m: Message, os: Script): (r: Client)
    requires Consistent(s)
    ensures Consistent(r)
  {
    var (t, ok) := if s.fd < 0 then ConnectNow(s, me, now, a) else (s, true);
    if !ok || LogLength(m) > BUF_LEN then t else SendFrame(t, Log(m), os).0
  }

  /** The client object: `chans` is what the kernel holds of its connections. */
  class Logger {
    const me: Identity
    var fd: int
    var lastAttempt: int
    var connects: nat            // the number the kernel gives the next connection
    ghost var chans: seq<Chan>

    ghost predicate Valid()
      reads this
    {
      Consistent(State()) && connects == |chans|
    }

    ghost function State(): Client
      reads this
    {
      Client(fd, lastAttempt, chans)
    }

    constructor (me: Identity)
      ensures Valid() && this.me == me && State() == Client(-1, 0, [])
    {
      this.me := me;
      fd, lastAttempt, connects, chans := -1, 0, 0, [];
    }

    method Disconnect()
      requires Valid()
      modifies this
      ensures Valid() && State() == Disconnected(old(State()))
    {
      if fd < 0 { return; }
      lastAttempt, fd := 0, -1;
    }

    method Send(data: seq<byte>, ghost x: What, os: Script) returns (ok: bool)
      requires Valid() && data == FrameOf(x)
      modifies this
      ensures Valid() && (State(), ok) == SendFrame(old(State()), x, os)
    {
      if fd < 0 { return false; }
      FrameIsSomething(x);
      hide FrameOf, Advance, AttemptOnce, SendLoop;
      ghost var c, before := Begin(chans[fd], x, data), chans;
      ghost var whole := SendLoop(c, RETRIES, os);
      chans := before[fd := c];
      var w, tries := 0, RETRIES;
      while tries > 0
        invariant 0 <= w < |data| && 0 <= tries <= RETRIES
        invariant fd == old(fd) && lastAttempt == old(lastAttempt) && Valid()
        invariant chans == before[fd := c]
        invariant if tries == 0 then (c, GaveUp(w)) == whole
                  else Sending(c) && Last(c).frame == data && Last(c).w == w && SendLoop(c, tries, os) == whole
      {
        var ret := os[RETRIES - tries];
        ghost var p;
        c, p := LoopTurn(c, tries, os);
        assert p == SendOnce(|data|, w, tries, ret);
        chans := before[fd := c];
        if ret.Failed? {
          Disconnect();
          return false;
        }
        if ret.Wrote? {
          w := w + Min(ret.room, |data| - w);
          if w == |data| { break; }
        }
        tries := tries - 1;
      }
      if tries == 0 { return false; }
      return true;
    }

    method Connect(now: int, a: Attempt) returns (ok: bool)
      requires Valid()
      modifies this
      ensures Valid() && (State(), ok) == ConnectNow(old(State()), me, now, a)
    {
      if fd >= 0 { return true; }
      if lastAttempt != 0 {
        if now - lastAttempt < CONNECT_RATE { return false; }
      }
      lastAttempt := now;
      if !a.Connected? { return false; }
      lastAttempt := 0;
      fd, connects := connects, connects + 1;
      chans := chans + [NO_CHAN];
      var msg := Le16(TYPE_REGISTER) + Le16(REG_LEN) + Le32(me.pid) + NameField(me.name);
      var sent := Send(msg, Reg(me.pid, me.name), a.os);
      if !sent {
        Disconnect();
        return false;
      }
      return true;
    }

    method Init(now: int, a: Attempt)
      requires Valid()
      modifies this
      ensures Valid() && State() == ConnectNow(old(State()), me, now, a).0
    {
      var _ := Connect(now, a);
    }

    method Log(now: int, a: Attempt, m: Message, os: Script)
      requires Valid()
      modifies this
      ensures Valid() && State() == LogMessage(old(State()), me, now, a, m, os)
    {
      if fd < 0 {
        var up := Connect(now, a);
        if !up { return; }
      }
      if LogLength(m) > BUF_LEN { return; }
      var _ := Send(FrameOf(Wire.Log(m)), Wire.Log(m), os);
    }
  }
}
