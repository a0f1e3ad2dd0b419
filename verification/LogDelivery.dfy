/** What the daemon logs for a connection, compared with what the client sent on it, in every run of
    the whole system. */
module LogDelivery {
  import opened Basics
  import opened Wire
  import Pl2rl
  import opened Pl2rlFacts
  import opened Pl2rld
  import Runs = Pl2rldRuns
  import opened LogProtocol

  // ---------------------------------------------------------------- what ought to be logged

  function RecordOf(me: Identity, m: Message): Record {
    Record(Take(me.name, NAME_LEN - 2), me.pid, m.severity, m.mod, m.text)
  }

  /** The log lines of the messages among `ws`, in order. */
  function Records(me: Identity, ws: seq<What>): seq<Record> {
    if ws == [] then []
    else
      var last := ws[|ws| - 1];
      Records(me, ws[..|ws| - 1]) + (if last.Log? then [RecordOf(me, last.m)] else [])
  }

  /** What was sent whole, in order. */
  function WholeWhats(ps: seq<Piece>): seq<What> {
    if ps == [] then []
    else (if ps[0].fate == Pl2rl.Whole then [ps[0].what] else []) + WholeWhats(ps[1..])
  }

  /** The send stopped inside its frame. */
  predicate Torn(p: Piece) {
    0 < p.w < |p.frame|
  }

  /** What was sent whole before the first send that stopped inside its frame. */
  function CleanWhats(ps: seq<Piece>): seq<What> {
    if ps == [] || Torn(ps[0]) then []
    else (if ps[0].fate == Pl2rl.Whole then [ps[0].what] else []) + CleanWhats(ps[1..])
  }

  /** No send gave up inside its frame and left the connection open. */
  predicate Untorn(ps: seq<Piece>) {
    forall i :: 0 <= i < |ps| && ps[i].fate == Pl2rl.GivenUp ==> ps[i].w == 0
  }

  predicate AllSendable(ws: seq<What>) {
    forall i :: 0 <= i < |ws| ==> Sendable(ws[i])
  }

  function FramesOf(ws: seq<What>): (fs: seq<Frame>)
    requires AllSendable(ws)
    ensures |fs| == |ws|
  {
    if ws == [] then []
    else
      FrameShape(ws[0]);
      [FrameOf(ws[0])] + FramesOf(ws[1..])
  }

  lemma {:induction false} FramesAt(ws: seq<What>, i: nat)
    requires AllSendable(ws) && i < |ws|
    ensures FramesOf(ws)[i] == FrameOf(ws[i])
  {
    if 0 < i { FramesAt(ws[1..], i - 1); }
  }

  lemma {:induction false} FramesTake(ws: seq<What>, n: nat)
    requires AllSendable(ws) && n <= |ws|
    ensures FramesOf(ws[..n]) == FramesOf(ws)[..n]
  {
    forall i | 0 <= i < n
      ensures FramesOf(ws[..n])[i] == FramesOf(ws)[i]
    {
      FramesAt(ws[..n], i);
      FramesAt(ws, i);
    }
  }

  // ---------------------------------------------------------------- the stream and its frames

  ghost predicate AllOk(ps: seq<Piece>) {
    forall i {:trigger PieceOk(ps[i])} :: 0 <= i < |ps| ==> PieceOk(ps[i])
  }

  lemma TailOk(ps: seq<Piece>)
    requires AllOk(ps) && ps != []
    ensures PieceOk(ps[0]) && AllOk(ps[1..])
  {
    forall i | 0 <= i < |ps| - 1
      ensures PieceOk(ps[1..][i])
    {
      assert PieceOk(ps[i + 1]);
    }
  }

  lemma {:induction false} CleanSendable(ps: seq<Piece>)
    requires AllOk(ps)
    ensures AllSendable(CleanWhats(ps))
  {
    if ps != [] {
      TailOk(ps);
      CleanSendable(ps[1..]);
    }
  }

  /** The frames sent whole before the first tear are the front of the stream. */
  lemma {:induction false} CleanIsFront(ps: seq<Piece>)
    requires AllOk(ps)
    ensures AllSendable(CleanWhats(ps)) && Concat(FramesOf(CleanWhats(ps))) <= Bytes(ps)
  {
    CleanSendable(ps);
    if ps != [] && !Torn(ps[0]) {
      TailOk(ps);
      CleanIsFront(ps[1..]);
      FirstPiece(ps);
      if ps[0].fate == Pl2rl.Whole {
        assert CleanWhats(ps)[1..] == CleanWhats(ps[1..]);
        assert Part(ps[0]) == FrameOf(ps[0].what);
      } else {
        assert Part(ps[0]) == [] && CleanWhats(ps) == CleanWhats(ps[1..]);
      }
    }
  }

  /** One frame to come: the last piece, if it is torn. */
  function Rest(ps: seq<Piece>): seq<What> {
    if ps != [] && Torn(ps[|ps| - 1]) then [ps[|ps| - 1].what] else []
  }

  /** Without a tear, the stream is the frames sent whole. */
  lemma {:induction false} WholeStream(ps: seq<Piece>)
    requires AllOk(ps) && forall i :: 0 <= i < |ps| ==> !Torn(ps[i])
    ensures CleanWhats(ps) == WholeWhats(ps) && AllSendable(WholeWhats(ps))
    ensures Bytes(ps) == Concat(FramesOf(WholeWhats(ps)))
  {
    CleanSendable(ps);
    if ps != [] {
      TailOk(ps);
      FirstPiece(ps);
      WholeStream(ps[1..]);
      if ps[0].fate == Pl2rl.Whole {
        assert WholeWhats(ps)[1..] == WholeWhats(ps[1..]);
        assert Part(ps[0]) == FrameOf(ps[0].what);
      } else {
        assert Part(ps[0]) == [] && WholeWhats(ps) == WholeWhats(ps[1..]);
      }
    }
  }

  lemma {:induction false} WholeSnoc(front: seq<Piece>, p: Piece)
    ensures WholeWhats(front + [p]) == WholeWhats(front) + (if p.fate == Pl2rl.Whole then [p.what] else [])
    ensures (forall i :: 0 <= i < |front| ==> !Torn(front[i])) ==>
              CleanWhats(front + [p]) == CleanWhats(front) + CleanWhats([p])
  {
    if front != [] {
      assert (front + [p])[1..] == front[1..] + [p];
      WholeSnoc(front[1..], p);
    }
  }

  lemma {:induction false} FramesAppend(a: seq<What>, b: seq<What>)
    requires AllSendable(a) && AllSendable(b)
    ensures AllSendable(a + b) && FramesOf(a + b) == FramesOf(a) + FramesOf(b)
  {
    assert AllSendable(a + b);
    if a == [] {
      assert a + b == b;
    } else {
      assert (a + b)[1..] == a[1..] + b;
      FramesAppend(a[1..], b);
    }
  }

  /** The stream is some whole frames, and then at most a proper front of one frame more. */
  ghost predicate FrontOf(s: seq<byte>, whole: seq<Frame>, rest: seq<Frame>) {
    && Concat(whole) <= s <= Concat(whole + rest)
    && (rest == [] ==> s == Concat(whole))
    && (rest != [] ==> |s| < |Concat(whole + rest)|)
  }

  /** With no tear but the last, the stream is the frames sent whole and the front of one more. */
  lemma UntornStream(ps: seq<Piece>) returns (rest: seq<What>)
    requires AllOk(ps) && forall i :: 0 <= i < |ps| - 1 ==> !Torn(ps[i])
    ensures CleanWhats(ps) == WholeWhats(ps) && rest == Rest(ps)
    ensures AllSendable(WholeWhats(ps)) && AllSendable(rest)
    ensures FrontOf(Bytes(ps), FramesOf(WholeWhats(ps)), FramesOf(rest))
  {
    rest := Rest(ps);
    if rest == [] {
      WholeAlone(ps);
    } else {
      var front, last := ps[..|ps| - 1], ps[|ps| - 1];
      assert ps == front + [last];
      TornLast(front, last, ps);
    }
  }

  lemma WholeAlone(ps: seq<Piece>)
    requires AllOk(ps) && forall i :: 0 <= i < |ps| ==> !Torn(ps[i])
    ensures CleanWhats(ps) == WholeWhats(ps) && AllSendable(WholeWhats(ps))
    ensures FrontOf(Bytes(ps), FramesOf(WholeWhats(ps)), FramesOf([]))
  {
    WholeStream(ps);
    assert FramesOf(WholeWhats(ps)) + [] == FramesOf(WholeWhats(ps));
  }

  lemma TornLast(front: seq<Piece>, last: Piece, ps: seq<Piece>)
    requires AllOk(ps) && ps == front + [last] && Torn(last) && forall i :: 0 <= i < |front| ==> !Torn(front[i])
    ensures CleanWhats(ps) == WholeWhats(ps)
    ensures AllSendable(WholeWhats(ps)) && AllSendable([last.what])
    ensures FrontOf(Bytes(ps), FramesOf(WholeWhats(ps)), FramesOf([last.what]))
  {
    assert PieceOk(ps[|ps| - 1]);
    forall i | 0 <= i < |front|
      ensures PieceOk(front[i])
    {
      assert PieceOk(ps[i]);
    }
    WholeStream(front);
    WholeSnoc(front, last);
    assert WholeWhats(ps) == WholeWhats(front) && CleanWhats(ps) == CleanWhats(front);
    BytesSnoc(front, last);
    LastFrame(last);
    PartialTail(FramesOf(WholeWhats(front)), FramesOf([last.what]), Part(last));
  }

  lemma PartialTail(whole: seq<Frame>, rest: seq<Frame>, part: seq<byte>)
    requires rest != [] && part <= Concat(rest) && |part| < |Concat(rest)|
    ensures FrontOf(Concat(whole) + part, whole, rest)
  {
    ConcatAppend(whole, rest);
  }

  lemma LastFrame(p: Piece)
    requires PieceOk(p) && Torn(p)
    ensures AllSendable([p.what]) && Part(p) <= Concat(FramesOf([p.what]))
    ensures |Part(p)| < |Concat(FramesOf([p.what]))|
  {
    assert FramesOf([p.what]) == [p.frame];
    assert Concat([p.frame]) == p.frame + [];
  }

  /** Frames read off such a stream are frames sent whole, in order and from the first; and when all
      of it has been read, they are all of them. */
  lemma ParseOfFront(s: seq<byte>, read: seq<Frame>, whole: seq<Frame>, rest: seq<Frame>)
    requires FrontOf(s, whole, rest) && Concat(read) <= s && |rest| <= 1
    ensures read <= whole
    ensures Concat(read) == s ==> read == whole
  {
    UniqueParse(read, whole + rest, Concat(whole + rest));
    if !(read <= whole) {
      assert whole + rest <= read;
      ConcatGrows(whole + rest, read);
      ConcatGrows(whole, read);
    }
    if Concat(read) == s && read != whole {
      ConcatGrows(read, whole);
    }
  }

  // ---------------------------------------------------------------- what the daemon makes of it

  lemma ReactToRegister(v: Entry, b: Buffer, pid: uint32, name: CText)
    requires Front(b) == FrameOf(Reg(pid, name))
    ensures React(v, b) == Keep(Entry(v.fd, pid, Take(name, NAME_LEN - 2), true), [])
  {
    var f := FrameOf(Reg(pid, name));
    FrameShape(Reg(pid, name));
    assert U16(b, 0) == U16(f, 0) && U32(b, 4) == U32(f, 4);
    var n := Take(name, NAME_LEN - 2);
    assert b[8..40] == f[8..] == NameField(name);
    assert b[8..39] == n + Zeros(NAME_LEN - 1 - |n|);
    UptoNulStops(n, Zeros(NAME_LEN - 1 - |n|));
  }

  lemma ReactToLog(v: Entry, b: Buffer, m: Message)
    requires Sendable(Log(m)) && Front(b) == FrameOf(Log(m)) && v.registered
    ensures React(v, b) == Keep(v, [Record(v.name, v.pid, m.severity, m.mod, m.text)])
  {
    var f := FrameOf(Log(m));
    FrameShape(Log(m));
    assert U16(b, 0) == U16(f, 0) && U16(b, 6) == U16(f, 6) && b[4] == f[4] && b[5] == f[5];
    assert b[8..8 + U16(b, 6)] == f[8..] == m.text;
    UptoNulStops(m.text, []);
    assert m.text + [] == m.text;
  }

  /** A history that opens with a REGISTER of `me` and then only logs. */
  ghost predicate Opens(ws: seq<What>, me: Identity) {
    && AllSendable(ws)
    && (ws != [] ==> ws[0] == Register(me))
    && forall i :: 1 <= i < |ws| ==> ws[i].Log?
  }

  /** Handling the frames of `ws` logs exactly the records of `ws`. */
  lemma {:induction false} ReplayIsRecords(c: nat, me: Identity, bufs: seq<Buffer>, ws: seq<What>)
    requires Opens(ws, me) && Runs.Fronts(bufs) == FramesOf(ws)
    ensures Runs.Replay(c, bufs).1 == Records(me, ws)
    ensures ws != [] ==> Runs.Replay(c, bufs).0 == Entry(c, me.pid, Take(me.name, NAME_LEN - 2), true)
  {
    if ws != [] {
      var n := |ws| - 1;
      FramesTake(ws, n);
      assert Runs.Fronts(bufs[..n]) == Runs.Fronts(bufs)[..n];
      ReplayIsRecords(c, me, bufs[..n], ws[..n]);
      FramesAt(ws, n);
      var v := Runs.Replay(c, bufs[..n]).0;
      match ws[n]
      case Reg(pid, name) => ReactToRegister(v, bufs[n], pid, name);
      case Log(m) => ReactToLog(v, bufs[n], m);
    }
  }

  lemma {:induction false} ReplayGrows(c: nat, a: seq<Buffer>, b: seq<Buffer>)
    requires a <= b
    ensures Runs.Replay(c, a).1 <= Runs.Replay(c, b).1
  {
    if a != b { ReplayGrows(c, a, b[..|b| - 1]); }
  }

  lemma {:induction false} RecordsGrow(me: Identity, a: seq<What>, b: seq<What>)
    requires a <= b
    ensures Records(me, a) <= Records(me, b)
  {
    if a != b { RecordsGrow(me, a, b[..|b| - 1]); }
  }

  // ---------------------------------------------------------------- the theorems

  lemma CleanOpens(ps: seq<Piece>, me: Identity)
    requires ChanOk(Pl2rl.Chan(Bytes(ps), ps), me)
    ensures AllOk(ps) && Opens(CleanWhats(ps), me)
  {
    assert AllOk(ps);
    CleanSendable(ps);
    if ps != [] && !Torn(ps[0]) {
      assert PieceOk(ps[0]);
      if ps[0].fate == Pl2rl.Whole {
        CleanLogs(ps[1..]);
      } else {
        assert CleanWhats(ps[1..]) == [];
      }
    }
  }

  lemma {:induction false} CleanLogs(ps: seq<Piece>)
    requires forall i :: 0 <= i < |ps| ==> ps[i].what.Log?
    ensures forall i :: 0 <= i < |CleanWhats(ps)| ==> CleanWhats(ps)[i].Log?
  {
    if ps != [] { CleanLogs(ps[1..]); }
  }

  /** Both ends of one connection, each in the order its own side keeps. */
  ghost predicate EndsOk(ch: Chan, me: Identity, t: Runs.Tap, c: nat) {
    ChanOk(ch, me) && Runs.TapOk(t, c, ch.stream)
  }

  lemma ConnectionOk(w: World, c: nat)
    requires WorldOk(w) && c < |w.chans|
    ensures w.owners[c] < |w.procs| && EndsOk(w.chans[c], OwnerOf(w, c), w.d.taps[c], c)
  {
    assert Runs.TapOk(w.d.taps[c], c, Streams(w.chans)[c]);
  }

  lemma UptoTear(ch: Chan, me: Identity, t: Runs.Tap, c: nat)
    requires EndsOk(ch, me, t, c)
    ensures var expected := Records(me, CleanWhats(ch.pieces));
            t.out <= expected || expected <= t.out
  {
    var ws, bufs := CleanWhats(ch.pieces), t.bufs;
    CleanOpens(ch.pieces, me);
    CleanIsFront(ch.pieces);
    UniqueParse(Runs.Fronts(bufs), FramesOf(ws), ch.stream);
    if |bufs| <= |ws| {
      FramesTake(ws, |bufs|);
      ReplayIsRecords(c, me, bufs, ws[..|bufs|]);
      RecordsGrow(me, ws[..|bufs|], ws);
    } else {
      assert Runs.Fronts(bufs[..|ws|]) == Runs.Fronts(bufs)[..|ws|];
      ReplayIsRecords(c, me, bufs[..|ws|], ws);
      ReplayGrows(c, bufs[..|ws|], bufs);
    }
  }

  /** In every run, whatever is torn: up to the first tear the daemon's records for a connection and
      the messages sent whole on it agree, in order, with every field. */
  lemma {:induction false} RecordsAgreeUptoTear(mes: seq<Identity>, es: seq<Event>, c: nat)
    requires c < |Run(mes, es).chans|
    ensures var w := Run(mes, es);
            && |w.d.taps| == |w.chans| == |w.owners| && w.owners[c] < |w.procs|
            && var expected := Records(OwnerOf(w, c), CleanWhats(w.chans[c].pieces));
            w.d.taps[c].out <= expected || expected <= w.d.taps[c].out
  {
    var w := Run(mes, es);
    ConnectionOk(w, c);
    UptoTear(w.chans[c], OwnerOf(w, c), w.d.taps[c], c);
  }

  /** On an untorn connection the frames handled are frames sent whole, from the first. */
  lemma HandledAreWhole(ch: Chan, me: Identity, t: Runs.Tap, c: nat)
    requires EndsOk(ch, me, t, c) && Untorn(ch.pieces)
    ensures var ws, n := WholeWhats(ch.pieces), |t.bufs|;
            && Opens(ws, me) && AllSendable(Rest(ch.pieces))
            && FrontOf(ch.stream, FramesOf(ws), FramesOf(Rest(ch.pieces)))
            && n <= |ws| && Runs.Fronts(t.bufs) == FramesOf(ws[..n]) == FramesOf(ws)[..n]
            && (Concat(Runs.Fronts(t.bufs)) == ch.stream ==> n == |ws|)
  {
    var ps := ch.pieces;
    CleanOpens(ps, me);
    forall i | 0 <= i < |ps| - 1
      ensures !Torn(ps[i])
    {
      assert PieceOk(ps[i]);
    }
    var _ := UntornStream(ps);
    var ws := WholeWhats(ps);
    ParseOfFront(ch.stream, Runs.Fronts(t.bufs), FramesOf(ws), FramesOf(Rest(ps)));
    FramesTake(ws, |t.bufs|);
  }

  /** The records of an untorn connection are the records of the first frames sent whole. */
  lemma UntornRecords(ch: Chan, me: Identity, t: Runs.Tap, c: nat)
    requires EndsOk(ch, me, t, c) && Untorn(ch.pieces)
    ensures var ws, n := WholeWhats(ch.pieces), |t.bufs|;
            && n <= |ws| && t.out == Records(me, ws[..n]) <= Records(me, ws)
            && (Concat(Runs.Fronts(t.bufs)) == ch.stream ==> n == |ws|)
            && (0 < n ==> Runs.Replay(c, t.bufs).0.registered)
  {
    HandledAreWhole(ch, me, t, c);
    var ws, n := WholeWhats(ch.pieces), |t.bufs|;
    ReplayIsRecords(c, me, t.bufs, ws[..n]);
    RecordsGrow(me, ws[..n], ws);
  }

  /** In every run in which no send gives up inside a frame on the connection, the records emitted for
      it are a prefix of the messages sent whole on it, in order, with every field. */
  lemma {:induction false} RecordsArePrefix(mes: seq<Identity>, es: seq<Event>, c: nat)
    requires c < |Run(mes, es).chans|
    ensures var w := Run(mes, es);
            && |w.d.taps| == |w.chans| == |w.owners| && w.owners[c] < |w.procs|
            && (Untorn(w.chans[c].pieces) ==>
                  w.d.taps[c].out <= Records(OwnerOf(w, c), WholeWhats(w.chans[c].pieces)))
  {
    var w := Run(mes, es);
    ConnectionOk(w, c);
    if Untorn(w.chans[c].pieces) { UntornRecords(w.chans[c], OwnerOf(w, c), w.d.taps[c], c); }
  }

  /** ... and once the daemon has read all there is, they are all of those messages. */
  lemma {:induction false} CaughtUpIsComplete(mes: seq<Identity>, es: seq<Event>, c: nat)
    requires var w := Run(mes, es);
             c < |w.chans| && Untorn(w.chans[c].pieces)
             && Has(w.d.clients, c) && !(w.d.phase.InBody? && w.d.phase.c == c)
             && w.d.taps[c].rd == |w.chans[c].stream|
    ensures var w := Run(mes, es);
            && w.owners[c] < |w.procs|
            && w.d.taps[c].out == Records(OwnerOf(w, c), WholeWhats(w.chans[c].pieces))
  {
    var w := Run(mes, es);
    ConnectionOk(w, c);
    UntornRecords(w.chans[c], OwnerOf(w, c), w.d.taps[c], c);
    Runs.EntryOk(w.d, Streams(w.chans), w.d.clients[IndexOf(w.d.clients, c)]);
    var ws := WholeWhats(w.chans[c].pieces);
    assert ws[..|ws|] == ws;
  }
}
