/** How long a log text may be: the client's check of the 16-bit frame length against its buffer, and the
    two reads with which the daemon takes in one frame. */
module LogSize {
  import opened Wire
  import opened Pl2rl
  import opened Pl2rlFacts
  import opened Pl2rld
  import LogDelivery

  const TEXT_MAX := 4088

  /** The state from which the frame is sent, if the client is connected then. */
  function Ensured(s: Client, me: Identity, now: int, a: Attempt): (r: (Client, bool))
    requires Consistent(s)
    ensures Consistent(r.0) && (r.1 ==> 0 <= r.0.fd)
  {
    if s.fd < 0 then ConnectNow(s, me, now, a) else (s, true)
  }

  lemma LastPieceOk(c: Chan, me: Identity)
    requires ChanOk(c, me) && c.pieces != []
    ensures Last(c).frame == FrameOf(Last(c).what)
  {
    assert PieceOk(c.pieces[|c.pieces| - 1]);
  }

  /** The call puts a LOG frame on the connection exactly when there is a connection and the text has at
      most 4088 bytes; the frame's length field then counts all its bytes.  Otherwise the call leaves the
      connections as connecting left them. */
  lemma {:induction false} LogEmitsIff(s: Client, me: Identity, now: int, a: Attempt, m: Message, os: Script)
    requires ClientOk(s, me)
    ensures var (c, up) := Ensured(s, me, now, a);
            var t := LogMessage(s, me, now, a, m, os);
            && (up && |m.text| <= TEXT_MAX <==> t.chans != c.chans)
            && (!(up && |m.text| <= TEXT_MAX) ==> t == c)
            && (up && |m.text| <= TEXT_MAX ==>
                  && |t.chans| == |c.chans|
                  && |t.chans[c.fd].pieces| == |c.chans[c.fd].pieces| + 1
                  && t.chans[c.fd].pieces[..|c.chans[c.fd].pieces|] == c.chans[c.fd].pieces
                  && Last(t.chans[c.fd]).what == Log(m)
                  && Last(t.chans[c.fd]).frame == FrameOf(Log(m))
                  && U16(FrameOf(Log(m)), 2) == |FrameOf(Log(m))| == LOG_LEN + |m.text| <= BUF_LEN)
  {
    hide FrameOf, ConnectNow, SendFrame, ChanOk;
    ConnectKeepsOk(s, me, now, a);
    var (c, up) := Ensured(s, me, now, a);
    if up && |m.text| <= TEXT_MAX {
      SendKeepsOk(c, me, Log(m), os);
      FrameShape(Log(m));
      var t := SendFrame(c, Log(m), os).0;
      LastPieceOk(t.chans[c.fd], me);
    }
  }

  /** A frame of a text that long arrives whole in two reads, and is logged with all its fields. */
  lemma LogDecodes(v: Entry, m: Message, stale: Stale)
    requires v.registered && |m.text| <= TEXT_MAX
    ensures var f := FrameOf(Log(m));
            && HDR_LEN <= |f|
            && Recv(v, Data(f[..HDR_LEN]), Data(f[HDR_LEN..]), stale)
               == Keep(v, [Record(v.name, v.pid, m.severity, m.mod, m.text)])
  {
    hide FrameOf, React;
    var f := FrameOf(Log(m));
    FrameShape(Log(m));
    var hdr := f[..HDR_LEN];
    assert U16(hdr, 0) == U16(f, 0) && U16(hdr, 2) == U16(f, 2);
    var b := Fill(hdr, f[HDR_LEN..], stale);
    assert Front(b) == f;
    LogDelivery.ReactToLog(v, b, m);
  }
}
