/** What the daemon makes of a connection on which a send gave up inside its frame.  What is sent next is taken for
    the rest of that frame: from the tear on the stream is parsed by the torn frame's header. */
module LogTear {
  import opened Basics
  import opened Wire
  import Pl2rl
  import opened Pl2rlFacts
  import opened Pl2rld
  import Runs = Pl2rldRuns
  import opened LogProtocol
  import opened LogDelivery

  // ---------------------------------------------------------------- the first tear

  function FirstTear(ps: seq<Piece>): (k: nat)
    ensures k <= |ps| && (forall i :: 0 <= i < k ==> !Torn(ps[i])) && (k < |ps| ==> Torn(ps[k]))
  {
    if ps == [] || Torn(ps[0]) then 0 else 1 + FirstTear(ps[1..])
  }

  /** The bytes that were sent behind the first torn piece. */
  function Behind(ps: seq<Piece>): seq<byte>
    requires FirstTear(ps) < |ps|
  {
    Bytes(ps[FirstTear(ps) + 1..])
  }

  /** The stream from the first torn frame on. */
  function FromTear(ps: seq<Piece>): seq<byte>
    requires FirstTear(ps) < |ps|
  {
    Part(ps[FirstTear(ps)]) + Behind(ps)
  }

  lemma {:induction false} BytesAppend(a: seq<Piece>, b: seq<Piece>)
    ensures Bytes(a + b) == Bytes(a) + Bytes(b)
  {
    if b == [] {
      assert a + b == a && Bytes(b) == [];
    } else {
      var front, last := b[..|b| - 1], b[|b| - 1];
      assert a + b == (a + front) + [last] && b == front + [last];
      BytesAppend(a, front);
      BytesSnoc(a + front, last);
      BytesSnoc(front, last);
      assert Bytes(a) + Bytes(front) + Part(last) == Bytes(a) + (Bytes(front) + Part(last));
    }
  }

  lemma {:induction false} CleanIsBeforeTear(ps: seq<Piece>)
    ensures CleanWhats(ps) == WholeWhats(ps[..FirstTear(ps)])
  {
    if ps != [] && !Torn(ps[0]) {
      CleanIsBeforeTear(ps[1..]);
      assert ps[..FirstTear(ps)][1..] == ps[1..][..FirstTear(ps[1..])];
    }
  }

  lemma {:induction false} WholeAppend(a: seq<Piece>, b: seq<Piece>)
    ensures WholeWhats(a + b) == WholeWhats(a) + WholeWhats(b)
  {
    if a == [] {
      assert a + b == b;
    } else {
      assert (a + b)[1..] == a[1..] + b && (a + b)[0] == a[0];
      WholeAppend(a[1..], b);
      var own := if a[0].fate == Pl2rl.Whole then [a[0].what] else [];
      assert own + WholeWhats(a[1..]) + WholeWhats(b) == own + (WholeWhats(a[1..]) + WholeWhats(b));
    }
  }

  lemma PartsOf(front: seq<Piece>, p: Piece, tail: seq<Piece>)
    requires AllOk(front) && (forall i :: 0 <= i < |front| ==> !Torn(front[i])) && p.fate != Pl2rl.Whole
    ensures var ps := front + ([p] + tail);
            && AllSendable(WholeWhats(front))
            && Bytes(ps) == Concat(FramesOf(WholeWhats(front))) + (Part(p) + Bytes(tail))
            && WholeWhats(ps) == WholeWhats(front) + WholeWhats(tail)
  {
    hide Bytes, Part, PieceOk, Torn;
    WholeStream(front);
    BytesAppend(front, [p] + tail);
    FirstPiece([p] + tail);
    WholeAppend(front, [p] + tail);
    assert ([p] + tail)[1..] == tail;
    assert WholeWhats([p] + tail) == [] + WholeWhats(tail) == WholeWhats(tail);
  }

  /** Up to the first tear the stream is the frames sent whole; then comes the rest. */
  lemma StreamAtTear(ps: seq<Piece>)
    requires AllOk(ps) && FirstTear(ps) < |ps|
    ensures AllSendable(CleanWhats(ps)) && Bytes(ps) == Concat(FramesOf(CleanWhats(ps))) + FromTear(ps)
    ensures WholeWhats(ps) == CleanWhats(ps) + WholeWhats(ps[FirstTear(ps) + 1..])
  {
    hide Bytes, Part, WholeWhats, CleanWhats;
    var k := FirstTear(ps);
    CleanIsBeforeTear(ps);
    assert ps[k].fate != Pl2rl.Whole by { assert PieceOk(ps[k]); }
    FrontOk(ps, k);
    hide PieceOk, AllOk, Torn, FramesOf, FirstTear;
    Around(ps, k);
    PartsOf(ps[..k], ps[k], ps[k + 1..]);
  }

  lemma Around<T>(s: seq<T>, k: nat)
    requires k < |s|
    ensures s == s[..k] + ([s[k]] + s[k + 1..])
  {
  }

  lemma FrontOk(ps: seq<Piece>, k: nat)
    requires AllOk(ps) && k <= |ps|
    ensures AllOk(ps[..k])
  {
    forall i | 0 <= i < k
      ensures PieceOk(ps[..k][i])
    {
      assert PieceOk(ps[i]);
    }
  }

  // ---------------------------------------------------------------- the frame at the tear

  /** Beyond the frames sent whole before the tear, the daemon can only have handled what the stream from the tear
      on says is a frame. */
  lemma FrameAtTear(ch: Chan, me: Identity, t: Runs.Tap, c: nat)
    requires EndsOk(ch, me, t, c) && FirstTear(ch.pieces) < |ch.pieces|
    requires |CleanWhats(ch.pieces)| < |t.bufs|
    ensures var ws, s := CleanWhats(ch.pieces), FromTear(ch.pieces);
            && Opens(ws, me) && Runs.Fronts(t.bufs[..|ws|]) == FramesOf(ws)
            && HDR_LEN <= |s| && HDR_LEN <= U16(s, 2) <= Min(|s|, BUF_LEN)
            && Front(t.bufs[|ws|]) == s[..U16(s, 2)]
  {
    hide Front, CleanWhats, FromTear, ChanOk;
    var ps := ch.pieces;
    CleanOpensOf(ch, me);
    StreamAtTear(ps);
    var ws, s, fs := CleanWhats(ps), FromTear(ps), Runs.Fronts(t.bufs);
    UniqueParse(fs, FramesOf(ws), ch.stream);
    var n := |ws|;
    assert fs[..n] == FramesOf(ws);
    assert Runs.Fronts(t.bufs[..n]) == fs[..n];
    assert fs == fs[..n] + fs[n..];
    ConcatAppend(fs[..n], fs[n..]);
    FrontOfRest(Concat(fs[..n]), s, fs[n..]);
  }

  lemma CleanOpensOf(ch: Chan, me: Identity)
    requires ChanOk(ch, me)
    ensures AllOk(ch.pieces) && ch.stream == Bytes(ch.pieces) && Opens(CleanWhats(ch.pieces), me)
  {
    CleanOpens(ch.pieces, me);
  }

  lemma FrontOfRest(head: seq<byte>, s: seq<byte>, fs: seq<Frame>)
    requires fs != [] && head + Concat(fs) <= head + s
    ensures |fs[0]| <= |s| && fs[0] == s[..|fs[0]|] && U16(s, 2) == |fs[0]|
  {
    var f := fs[0];
    assert Concat(fs) == (head + Concat(fs))[|head|..] && s == (head + s)[|head|..];
    assert Concat(fs) <= s && f <= Concat(fs);
    assert f == s[..|f|];
  }

  /** What is sent behind a tear starts like a LOG frame: with the byte 1. */
  lemma {:induction false} LogStarts(ps: seq<Piece>)
    requires AllOk(ps) && forall i :: 0 <= i < |ps| ==> ps[i].what.Log?
    ensures Bytes(ps) != [] ==> Bytes(ps)[0] == 1
  {
    if ps != [] {
      TailOk(ps);
      LogStarts(ps[1..]);
      FirstPiece(ps);
      assert FrameOf(ps[0].what)[0] == 1;
    }
  }

  lemma TornPiece(ch: Chan, me: Identity)
    requires ChanOk(ch, me) && FirstTear(ch.pieces) < |ch.pieces|
    ensures var ps := ch.pieces; var k := FirstTear(ps);
            && PieceOk(ps[k]) && 0 < ps[k].w < |ps[k].frame| && Part(ps[k]) == ps[k].frame[..ps[k].w]
            && (ps[k].what.Reg? ==> k == 0 && Behind(ps) == [])
            && (ps[k].what.Log? ==> CleanWhats(ps) != [])
            && (Behind(ps) != [] ==> Behind(ps)[0] == 1)
  {
    var ps := ch.pieces;
    var k := FirstTear(ps);
    assert PieceOk(ps[k]);
    var tail := ps[k + 1..];
    forall i | 0 <= i < |tail|
      ensures PieceOk(tail[i])
    {
      assert PieceOk(ps[k + 1 + i]);
    }
    LogStarts(tail);
    if ps[k].what.Reg? {
      assert tail == [] && Bytes([]) == [];
    } else {
      assert PieceOk(ps[0]);
    }
  }

  /** The header of the torn frame is what the daemon goes by: a frame torn behind its header keeps its length; one
      torn before its length field takes it from what follows; and one torn after its first byte can be no frame. */
  lemma TornHeader(ch: Chan, me: Identity, t: Runs.Tap, c: nat)
    requires EndsOk(ch, me, t, c) && FirstTear(ch.pieces) < |ch.pieces|
    requires |CleanWhats(ch.pieces)| < |t.bufs|
    ensures var ps := ch.pieces; var p := ps[FirstTear(ps)]; var s := FromTear(ps);
            && p.what.Log? && 2 <= p.w && HDR_LEN <= |s| && U16(s, 0) == TYPE_LOG
            && (HDR_LEN <= p.w ==> U16(s, 2) == |p.frame|)
  {
    hide ChanOk, Behind, CleanWhats, Front;
    var ps := ch.pieces;
    var p, s := ps[FirstTear(ps)], FromTear(ps);
    TornPiece(ch, me);
    FrameAtTear(ch, me, t, c);
    FrameShape(p.what);
    var b := t.bufs[|CleanWhats(ps)|];
    FrontBytes(b, s);
    HeaderBytes(s, p);
  }

  lemma FrontBytes(b: Buffer, s: seq<byte>)
    requires HDR_LEN <= |s| && HDR_LEN <= U16(s, 2) <= |s| && Front(b) == s[..U16(s, 2)]
    ensures U16(b, 0) == U16(s, 0) && U16(b, 2) == U16(s, 2)
    ensures forall i :: 0 <= i < U16(s, 2) ==> b[i] == s[i]
  {
    assert forall i :: 0 <= i < |Front(b)| ==> Front(b)[i] == b[i];
  }

  lemma HeaderBytes(s: seq<byte>, p: Piece)
    requires PieceOk(p) && 0 < p.w < |p.frame| && p.frame[..p.w] <= s && HDR_LEN <= |s|
    requires |p.frame| == U16(p.frame, 2) && HDR_LEN <= |p.frame|
    requires U16(p.frame, 0) == if p.what.Reg? then TYPE_REGISTER else TYPE_LOG
    requires U16(s, 0) < TYPE_MAX
    requires if p.what.Reg? then s == p.frame[..p.w] else p.w < |s| && s[p.w] == 1
    requires U16(s, 2) <= |s|
    ensures p.what.Log? && 2 <= p.w && U16(s, 0) == TYPE_LOG && (HDR_LEN <= p.w ==> U16(s, 2) == |p.frame|)
  {
    assert forall i :: 0 <= i < p.w ==> s[i] == p.frame[i];
  }

  // ---------------------------------------------------------------- the record that it leads to

  /** The log line of a LOG frame, as it stands in the receive buffer, of a client registered as `me`. */
  function ReadBack(me: Identity, b: Buffer): Record {
    var end := if 8 + U16(b, 6) <= BUF_LEN then 8 + U16(b, 6) else BUF_LEN;
    Record(Take(me.name, NAME_LEN - 2), me.pid, b[4], b[5], UptoNul(b[8..end]))
  }

  /** How many records the messages sent whole before the first tear make. */
  function Before(me: Identity, ps: seq<Piece>): seq<Record> {
    Records(me, CleanWhats(ps))
  }

  /** As long as no more frames are handled than were sent whole before the tear, the records are theirs.  The frame
      after those, if it comes to be handled, is the torn one completed by what was sent next, and the record is what
      that frame reads as. */
  lemma RecordsAtTear(ch: Chan, me: Identity, t: Runs.Tap, c: nat)
    requires EndsOk(ch, me, t, c) && FirstTear(ch.pieces) < |ch.pieces|
    ensures var ps := ch.pieces; var ws := CleanWhats(ps);
            && (|t.bufs| <= |ws| ==> t.out <= Before(me, ps))
            && (|ws| < |t.bufs| ==>
                  && Before(me, ps) + [ReadBack(me, t.bufs[|ws|])] <= t.out
                  && (|t.bufs| == |ws| + 1 ==> t.out == Before(me, ps) + [ReadBack(me, t.bufs[|ws|])]))
  {
    hide ChanOk, FromTear, CleanWhats, React, ReadBack, Front;
    var ps := ch.pieces;
    var ws := CleanWhats(ps);
    if |t.bufs| <= |ws| {
      HandledBeforeTear(ch, me, t, c);
    } else {
      var n := |ws|;
      FrameAtTear(ch, me, t, c);
      TornHeader(ch, me, t, c);
      TornPiece(ch, me);
      var bufs := t.bufs[..n + 1];
      assert bufs[..n] == t.bufs[..n] && bufs[n] == t.bufs[n];
      ReplayIsRecords(c, me, t.bufs[..n], ws);
      FrontBytes(t.bufs[n], FromTear(ps));
      ReactsAsRead(Runs.Replay(c, t.bufs[..n]).0, me, t.bufs[n]);
      ReplayGrows(c, bufs, t.bufs);
      assert |t.bufs| == n + 1 ==> bufs == t.bufs;
    }
  }

  lemma ReactsAsRead(v: Entry, me: Identity, b: Buffer)
    requires v.registered && v.name == Take(me.name, NAME_LEN - 2) && v.pid == me.pid && U16(b, 0) == TYPE_LOG
    ensures React(v, b) == Keep(v, [ReadBack(me, b)])
  {
  }

  lemma HandledBeforeTear(ch: Chan, me: Identity, t: Runs.Tap, c: nat)
    requires EndsOk(ch, me, t, c) && |t.bufs| <= |CleanWhats(ch.pieces)|
    ensures t.out == Records(me, CleanWhats(ch.pieces)[..|t.bufs|]) <= Records(me, CleanWhats(ch.pieces))
  {
    hide ChanOk, CleanWhats;
    CleanOpensOf(ch, me);
    CleanIsFront(ch.pieces);
    var ws, fs := CleanWhats(ch.pieces), Runs.Fronts(t.bufs);
    UniqueParse(fs, FramesOf(ws), ch.stream);
    assert fs == FramesOf(ws)[..|fs|];
    FramesTake(ws, |fs|);
    ReplayIsRecords(c, me, t.bufs, ws[..|fs|]);
    RecordsGrow(me, ws[..|fs|], ws);
  }

  /** What follows the tear has made up a frame: a valid header, and as many bytes as it says. */
  predicate MadeUp(ps: seq<Piece>)
    requires FirstTear(ps) < |ps|
  {
    Runs.FrameAt(FromTear(ps), 0)
  }

  /** When that is, for a tear after `w` bytes: behind the header, when the torn frame's length is reached; inside the
      length field, when the length that it makes with the byte 1, or with two bytes of what follows, is reached;
      after the first byte, and in a REGISTER frame, never. */
  lemma MadeUpIff(ch: Chan, me: Identity)
    requires ChanOk(ch, me) && FirstTear(ch.pieces) < |ch.pieces|
    ensures var ps := ch.pieces; var p, more := ps[FirstTear(ps)], Behind(ps);
            && 0 < p.w < |p.frame|
            && (p.what.Reg? || p.w == 1 ==> !MadeUp(ps))
            && (p.what.Log? && p.w == 2 ==>
                  (MadeUp(ps) <==> 2 <= |more| && HDR_LEN <= U16(more, 0) <= Min(2 + |more|, BUF_LEN)))
            && (p.what.Log? && p.w == 3 ==>
                  3 < |p.frame| && (MadeUp(ps) <==> 1 <= |more| && p.frame[2] + 0x100 <= 3 + |more|))
            && (p.what.Log? && HDR_LEN <= p.w ==> (MadeUp(ps) <==> |p.frame| <= p.w + |more|))
  {
    hide ChanOk, Behind, FrameOf;
    var ps := ch.pieces;
    var p := ps[FirstTear(ps)];
    TornPiece(ch, me);
    FrameShape(p.what);
    HeaderOfTorn(p, Behind(ps));
  }

  lemma HeaderOfTorn(p: Piece, more: seq<byte>)
    requires 0 < p.w < |p.frame| && SelfDelimited(p.frame) && (more != [] ==> more[0] == 1)
    requires U16(p.frame, 0) == if p.what.Reg? then TYPE_REGISTER else TYPE_LOG
    requires p.what.Reg? ==> more == []
    ensures var s := p.frame[..p.w] + more; var up := Runs.FrameAt(s, 0);
            && (p.what.Reg? || p.w == 1 ==> !up)
            && (p.what.Log? && p.w == 2 ==>
                  (up <==> 2 <= |more| && HDR_LEN <= U16(more, 0) <= Min(2 + |more|, BUF_LEN)))
            && (p.what.Log? && p.w == 3 ==> (up <==> 1 <= |more| && p.frame[2] + 0x100 <= 3 + |more|))
            && (p.what.Log? && HDR_LEN <= p.w ==> (up <==> |p.frame| <= p.w + |more|))
  {
    var s := p.frame[..p.w] + more;
    if HDR_LEN <= |s| {
      Runs.HeaderAt(s, 0);
      assert forall i :: 0 <= i < Min(p.w, HDR_LEN) ==> s[i] == p.frame[i];
      assert forall i :: p.w <= i < HDR_LEN ==> s[i] == more[i - p.w];
    }
  }

  /** The threshold: before that no such record is there. */
  lemma NotBeforeMadeUp(ch: Chan, me: Identity, t: Runs.Tap, c: nat)
    requires EndsOk(ch, me, t, c) && FirstTear(ch.pieces) < |ch.pieces| && !MadeUp(ch.pieces)
    ensures |t.bufs| <= |CleanWhats(ch.pieces)|
    ensures t.out <= Records(me, WholeWhats(ch.pieces))
  {
    hide ChanOk, CleanWhats, Behind, FromTear, Front;
    var ps := ch.pieces;
    if |CleanWhats(ps)| < |t.bufs| {
      FrameAtTear(ch, me, t, c);
      FrontBytes(t.bufs[|CleanWhats(ps)|], FromTear(ps));
    }
    PrefixIff(ch, me, t, c);
  }

  /** Exactly when the records of a connection with a tear are a prefix of those of the messages sent whole: as long
      as only the frames before the tear are handled; and once the next one is, only if the record it reads as is by
      chance that of the next message sent whole. */
  lemma PrefixIff(ch: Chan, me: Identity, t: Runs.Tap, c: nat)
    requires EndsOk(ch, me, t, c) && FirstTear(ch.pieces) < |ch.pieces|
    ensures var ps := ch.pieces; var ws, all := CleanWhats(ps), Records(me, WholeWhats(ps));
            var n := |Before(me, ps)|;
            var luck := |ws| < |t.bufs| && n < |all| && all[n] == ReadBack(me, t.bufs[|ws|]);
            && (t.out <= all ==> |t.bufs| <= |ws| || luck)
            && (|t.bufs| <= |ws| || (luck && |t.bufs| == |ws| + 1) ==> t.out <= all)
  {
    hide ChanOk, CleanWhats, ReadBack;
    var ps := ch.pieces;
    CleanOpensOf(ch, me);
    StreamAtTear(ps);
    RecordsGrow(me, CleanWhats(ps), WholeWhats(ps));
    RecordsAtTear(ch, me, t, c);
  }

  // ---------------------------------------------------------------- a tear inside the text

  lemma {:induction false} UptoNulAfter(s: CText, rest: seq<byte>)
    ensures UptoNul(s + rest) == s + UptoNul(rest)
  {
    if s == [] {
      assert s + rest == rest;
    } else {
      assert (s + rest)[1..] == s[1..] + rest;
      UptoNulAfter(s[1..], rest);
    }
  }

  /** A text torn inside comes out with what was sent of it, and behind that the first bytes of what was sent next:
      the byte 1 at least. */
  lemma TornText(ch: Chan, me: Identity, t: Runs.Tap, c: nat)
    requires EndsOk(ch, me, t, c) && FirstTear(ch.pieces) < |ch.pieces|
    requires LOG_LEN <= ch.pieces[FirstTear(ch.pieces)].w && |CleanWhats(ch.pieces)| < |t.bufs|
    ensures var ps := ch.pieces; var p := ps[FirstTear(ps)];
            && p.what.Log? && |p.frame| - p.w <= |Behind(ps)| && LOG_LEN <= p.w < |p.frame|
            && LOG_LEN + |p.what.m.text| == |p.frame|
            && var m, more := p.what.m, UptoNul(Behind(ps)[..|p.frame| - p.w]);
            && more != [] && more[0] == 1
            && ReadBack(me, t.bufs[|CleanWhats(ps)|])
               == Record(Take(me.name, NAME_LEN - 2), me.pid, m.severity, m.mod, m.text[..p.w - LOG_LEN] + more)
  {
    hide ChanOk, CleanWhats, Behind, ReadBack, Front, FrameOf, UptoNul, Take, Runs.TapOk;
    var ps := ch.pieces;
    FrameAtTear(ch, me, t, c);
    TornHeader(ch, me, t, c);
    TornPiece(ch, me);
    FrontBytes(t.bufs[|CleanWhats(ps)|], FromTear(ps));
    TextOfTorn(me, t.bufs[|CleanWhats(ps)|], ps[FirstTear(ps)], Behind(ps));
  }

  lemma TextOfTorn(me: Identity, b: Buffer, p: Piece, behind: seq<byte>)
    requires PieceOk(p) && p.what.Log? && LOG_LEN <= p.w < |p.frame| && (behind != [] ==> behind[0] == 1)
    requires var s := p.frame[..p.w] + behind;
             |p.frame| <= |s| && U16(s, 2) == |p.frame| <= BUF_LEN && forall i :: 0 <= i < |p.frame| ==> b[i] == s[i]
    ensures LOG_LEN + |p.what.m.text| == |p.frame| && |p.frame| - p.w <= |behind|
    ensures var m, more := p.what.m, UptoNul(behind[..|p.frame| - p.w]);
            && more != [] && more[0] == 1
            && ReadBack(me, b)
               == Record(Take(me.name, NAME_LEN - 2), me.pid, m.severity, m.mod, m.text[..p.w - LOG_LEN] + more)
  {
    hide FrameOf;
    var f, m, s := p.frame, p.what.m, p.frame[..p.w] + behind;
    FrameShape(p.what);
    assert forall i :: 0 <= i < LOG_LEN ==> b[i] == f[i];
    assert U16(b, 6) == U16(f, 6) == |m.text|;
    var torn, more := m.text[..p.w - LOG_LEN], behind[..|f| - p.w];
    assert forall i :: 0 <= i < |torn| ==> f[8..][i] == torn[i] == b[8 + i];
    assert b[8..|f|] == torn + more;
    UptoNulAfter(torn, more);
    assert more[0] == 1;
  }

  /** No message among them holds the byte 1 in its text. */
  predicate NoneHasOne(ws: seq<What>) {
    forall i :: 0 <= i < |ws| && ws[i].Log? ==> 1 !in ws[i].m.text
  }

  lemma {:induction false} RecordsHaveNoOne(me: Identity, ws: seq<What>)
    requires NoneHasOne(ws)
    ensures forall i :: 0 <= i < |Records(me, ws)| ==> 1 !in Records(me, ws)[i].text
  {
    if ws != [] { RecordsHaveNoOne(me, ws[..|ws| - 1]); }
  }

  /** For messages of ordinary text, with a tear inside a text: the records are a prefix of those of the messages sent
      whole exactly as long as no frame but those before the tear has been handled. */
  lemma OrdinaryTextIff(ch: Chan, me: Identity, t: Runs.Tap, c: nat)
    requires EndsOk(ch, me, t, c) && FirstTear(ch.pieces) < |ch.pieces|
    requires LOG_LEN <= ch.pieces[FirstTear(ch.pieces)].w && NoneHasOne(WholeWhats(ch.pieces))
    ensures t.out <= Records(me, WholeWhats(ch.pieces)) <==> |t.bufs| <= |CleanWhats(ch.pieces)|
  {
    hide ChanOk, CleanWhats, ReadBack, Behind;
    PrefixIff(ch, me, t, c);
    RecordsHaveNoOne(me, WholeWhats(ch.pieces));
    if |CleanWhats(ch.pieces)| < |t.bufs| {
      TornText(ch, me, t, c);
      var p := ch.pieces[FirstTear(ch.pieces)];
      var more := UptoNul(Behind(ch.pieces)[..|p.frame| - p.w]);
      assert (p.what.m.text[..p.w - LOG_LEN] + more)[p.w - LOG_LEN] == 1;
    }
  }

  // ---------------------------------------------------------------- it does happen

  /** Where the daemon stands once it has handled all frames before the tear. */
  lemma StandsAtTear(ch: Chan, me: Identity, t: Runs.Tap, c: nat)
    requires EndsOk(ch, me, t, c) && FirstTear(ch.pieces) < |ch.pieces| && |t.bufs| == |CleanWhats(ch.pieces)|
    requires t.rd == |Concat(Runs.Fronts(t.bufs))|
    ensures t.rd <= |ch.stream| && ch.stream[t.rd..] == FromTear(ch.pieces)
  {
    hide ChanOk, CleanWhats, FromTear;
    CleanOpensOf(ch, me);
    StreamAtTear(ch.pieces);
    CleanIsFront(ch.pieces);
    var ws, fs := CleanWhats(ch.pieces), Runs.Fronts(t.bufs);
    UniqueParse(fs, FramesOf(ws), ch.stream);
    assert fs == FramesOf(ws);
  }

  /** From the threshold on, the next wakeup whose reads return what is asked for takes the completed frame in, and
      its record is emitted. */
  lemma TearEmits(d: Runs.State, ss: seq<seq<byte>>, c: nat, h: Runs.ReadResult, r: Runs.ReadResult, stale: Stale,
                  ch: Chan, me: Identity)
    requires Runs.Ok(d, ss) && Runs.Untouched(d) && Runs.InStep(d, ss) && d.phase.Waiting?
    requires c < |ss| && Has(d.clients, c) && ChanOk(ch, me) && ch.stream == ss[c]
    requires FirstTear(ch.pieces) < |ch.pieces| && MadeUp(ch.pieces)
    requires |d.taps[c].bufs| == |CleanWhats(ch.pieces)|
    requires h.Got? && HDR_LEN <= h.n && r.Got? && BUF_LEN <= r.n
    ensures var t := Runs.BodyStep(Runs.WakeStep(d, ss, c, h), ss, r, stale).taps[c];
            && |t.bufs| == |CleanWhats(ch.pieces)| + 1
            && t.out == Before(me, ch.pieces) + [ReadBack(me, t.bufs[|CleanWhats(ch.pieces)|])]
  {
    hide ChanOk, CleanWhats, ReadBack, React, Runs.WakeStep, Runs.BodyStep, Runs.FrameAt, FromTear;
    var ps, t := ch.pieces, d.taps[c];
    Runs.EntryOk(d, ss, d.clients[IndexOf(d.clients, c)]);
    assert Runs.TapOk(t, c, ss[c]);
    StandsAtTear(ch, me, t, c);
    FrameFurther(ss[c], t.rd);
    var buf := Runs.ServesFrame(d, ss, c, h, r, stale);
    Runs.WakeKeepsOk(d, ss, c, h);
    Runs.BodyKeepsOk(Runs.WakeStep(d, ss, c, h), ss, r, stale);
    var d2 := Runs.BodyStep(Runs.WakeStep(d, ss, c, h), ss, r, stale);
    assert Runs.TapOk(d2.taps[c], c, ss[c]);
    RecordsAtTear(ch, me, d2.taps[c], c);
  }

  lemma FrameFurther(s: seq<byte>, at: nat)
    requires at <= |s| && Runs.FrameAt(s[at..], 0)
    ensures Runs.FrameAt(s, at)
  {
    assert s[at..][0..HDR_LEN] == s[at..at + HDR_LEN];
  }

  /** In every run of the whole system: what the daemon has logged for a connection with a tear. */
  lemma {:induction false} TearInRuns(mes: seq<Identity>, es: seq<Event>, c: nat)
    requires c < |Run(mes, es).chans| && FirstTear(Run(mes, es).chans[c].pieces) < |Run(mes, es).chans[c].pieces|
    ensures var w := Run(mes, es);
            && |w.d.taps| == |w.chans| == |w.owners| && w.owners[c] < |w.procs|
            && var me, ps, t := OwnerOf(w, c), w.chans[c].pieces, w.d.taps[c];
            && (!MadeUp(ps) || |t.bufs| <= |CleanWhats(ps)| ==> t.out <= Records(me, WholeWhats(ps)))
            && (|CleanWhats(ps)| < |t.bufs| ==> Before(me, ps) + [ReadBack(me, t.bufs[|CleanWhats(ps)|])] <= t.out)
            && (LOG_LEN <= ps[FirstTear(ps)].w && NoneHasOne(WholeWhats(ps)) ==>
                  (t.out <= Records(me, WholeWhats(ps)) <==> |t.bufs| <= |CleanWhats(ps)|))
  {
    hide WorldOk, ReadBack;
    var w := Run(mes, es);
    assert |w.d.taps| == |w.chans| == |w.owners|;
    ConnectionOk(w, c);
    var me, ch, t := OwnerOf(w, c), w.chans[c], w.d.taps[c];
    RecordsAtTear(ch, me, t, c);
    PrefixIff(ch, me, t, c);
    if !MadeUp(ch.pieces) { NotBeforeMadeUp(ch, me, t, c); }
    if LOG_LEN <= ch.pieces[FirstTear(ch.pieces)].w && NoneHasOne(WholeWhats(ch.pieces)) {
      OrdinaryTextIff(ch, me, t, c);
    }
  }
}
