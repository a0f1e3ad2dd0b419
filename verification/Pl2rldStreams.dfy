/** Runs of the daemon on any streams: connections come up at any time, any bytes arrive on them, and the
    daemon's own steps fall in between. */
module Pl2rldStreams {
  import opened Wire
  import opened Pl2rld
  import opened Pl2rldRuns

  datatype Net = Net(d: State, streams: seq<seq<byte>>)

  datatype Event = Connect | Arrive(c: nat, bytes: seq<byte>) | Act(step: Step)

  function NextNet(n: Net, e: Event): Net
    requires InStep(n.d, n.streams)
  {
    match e
    case Connect => Net(n.d.(taps := n.d.taps + [NEW_TAP]), n.streams + [[]])
    case Arrive(c, bytes) => if c < |n.streams| then n.(streams := n.streams[c := n.streams[c] + bytes]) else n
    case Act(step) => n.(d := Next(n.d, n.streams, step))
  }

  ghost predicate NetOk(n: Net) {
    Ok(n.d, n.streams) && Untouched(n.d)
  }

  lemma OkInStep(n: Net)
    requires NetOk(n)
    ensures InStep(n.d, n.streams)
  {
    forall c | 0 <= c < |n.streams|
      ensures n.d.taps[c].rd <= |n.streams[c]|
    {
      assert TapOk(n.d.taps[c], c, n.streams[c]);
    }
  }

  lemma NextNetKeepsOk(n: Net, e: Event)
    requires NetOk(n) && InStep(n.d, n.streams)
    ensures NetOk(NextNet(n, e))
  {
    match e
    case Connect => NewConnectionKeepsOk(n.d, n.streams);
    case Arrive(c, bytes) => GrowthKeepsOk(n.d, n.streams, NextNet(n, e).streams);
    case Act(step) => NextKeepsOk(n.d, n.streams, step);
  }

  ghost function RunNet(es: seq<Event>): (n: Net)
    ensures NetOk(n) && InStep(n.d, n.streams)
  {
    if es == [] then Net(State([], [], Waiting), [])
    else
      var n := RunNet(es[..|es| - 1]);
      NextNetKeepsOk(n, es[|es| - 1]);
      OkInStep(NextNet(n, es[|es| - 1]));
      NextNet(n, es[|es| - 1])
  }

  /** In every run on any streams: the client list is free of duplicates, and a connection has records only after
      a REGISTER frame was handled on it, at most one for every other frame handled. */
  lemma {:induction false} RecordsAreGatedInRuns(es: seq<Event>, c: nat)
    requires c < |RunNet(es).d.taps|
    ensures var d := RunNet(es).d;
            && Distinct(d.clients)
            && (d.taps[c].out != [] ==> Registers(d.taps[c].bufs))
            && (d.taps[c].bufs != [] ==> |d.taps[c].out| < |d.taps[c].bufs|)
  {
    var n := RunNet(es);
    assert TapOk(n.d.taps[c], c, n.streams[c]);
    RecordsNeedRegister(c, n.d.taps[c].bufs);
  }

  /** The connection was accepted, and its client is off the list again. */
  ghost predicate Removed(n: Net, c: nat) {
    c < |n.d.taps| && n.d.taps[c].accepted && !Has(n.d.clients, c)
  }

  /** However a run goes on after the removal of a client, it stays off the list, nothing is read from it and
      nothing is logged for it. */
  lemma {:induction false} RemovedForGood(es: seq<Event>, more: seq<Event>, c: nat)
    requires Removed(RunNet(es), c)
    ensures Removed(RunNet(es + more), c)
    ensures RunNet(es + more).d.taps[c] == RunNet(es).d.taps[c]
  {
    hide RunNet;
    if more == [] {
      assert es + more == es;
    } else {
      var front, e := more[..|more| - 1], more[|more| - 1];
      RemovedForGood(es, front, c);
      assert es + more == es + front + [e];
      RunNetSnoc(es + front, e);
      StaysRemoved(RunNet(es + front), e, c);
    }
  }

  lemma RunNetSnoc(es: seq<Event>, e: Event)
    ensures RunNet(es + [e]) == NextNet(RunNet(es), e)
  {
    assert (es + [e])[..|es|] == es;
  }

  lemma StaysRemoved(n: Net, e: Event, c: nat)
    requires NetOk(n) && InStep(n.d, n.streams) && Removed(n, c)
    ensures Removed(NextNet(n, e), c) && NextNet(n, e).d.taps[c] == n.d.taps[c]
  {
    hide Next, Ok, Untouched;
    if e.Act? {
      assert |n.streams| == |n.d.taps|;
      RemovalIsFinal(n.d, n.streams, e.step, c);
      SameTaps(n.d, n.streams, e.step);
    }
  }

  lemma SameTaps(d: State, ss: seq<seq<byte>>, step: Step)
    requires InStep(d, ss)
    ensures |Next(d, ss, step).taps| == |d.taps|
  {
  }

  // ---------------------------------------------------------------- who is listed, and who is removed

  /** An accepted connection is listed, unregistered. */
  lemma AcceptLists(es: seq<Event>, c: nat)
    requires var d := RunNet(es).d; d.phase.Waiting? && c < |d.taps| && !d.taps[c].accepted
    ensures var d := RunNet(es + [Act(Accept(c))]).d; d.clients == RunNet(es).d.clients + [Entry(c, 0, [], false)]
  {
    RunNetSnoc(es, Act(Accept(c)));
  }

  /** An error on a connection removes its client, and shutting down removes all. */
  lemma HangupRemoves(es: seq<Event>, c: nat)
    requires var d := RunNet(es).d; d.phase.Waiting? && Has(d.clients, c)
    ensures Removed(RunNet(es + [Act(Hangup(c))]), c)
    ensures RunNet(es + [Act(Shutdown)]).d.clients == []
  {
    hide RunNet, Ok, Untouched;
    var n := RunNet(es);
    RunNetSnoc(es, Act(Hangup(c)));
    RunNetSnoc(es, Act(Shutdown));
    ListedIsAccepted(n, c);
    WithoutKeepsOthers(n.d.clients, c);
  }

  lemma ListedIsAccepted(n: Net, c: nat)
    requires NetOk(n) && Has(n.d.clients, c)
    ensures c < |n.d.taps| == |n.streams| && n.d.taps[c].accepted && Distinct(n.d.clients)
  {
    EntryOk(n.d, n.streams, n.d.clients[IndexOf(n.d.clients, c)]);
  }

  /** In every run on any streams, a wakeup removes its client exactly when its two reads are such that it has to go. */
  lemma WakeupRemovesIff(es: seq<Event>, c: nat, h: ReadResult, r: ReadResult, stale: Stale)
    requires var n := RunNet(es);
             n.d.phase.Waiting? && Has(n.d.clients, c) && c < |n.streams| && Defined(HeaderRead(n.d, n.streams, c, h))
    ensures var n := RunNet(es);
            var hdr, body := HeaderRead(n.d, n.streams, c, h), BodyRead(n.d, n.streams, c, h, r);
            Removed(RunNet(es + [Act(Wake(c, h))] + [Act(Body(r, stale))]), c) <==>
            || hdr.Error?
            || (hdr.Data? && (|hdr.bytes| != 4
                              || 2 <= U16(hdr.bytes, 0)
                              || !body.Data? || |body.bytes| != U16(hdr.bytes, 2) - 4
                              || (U16(hdr.bytes, 0) == 1 && !n.d.clients[IndexOf(n.d.clients, c)].registered)))
  {
    hide React, U16, Ok, RunNet, Recv, WakeStep, BodyStep, Defined;
    var n := RunNet(es);
    var v := n.d.clients[IndexOf(n.d.clients, c)];
    RunNetSnoc(es, Act(Wake(c, h)));
    RunNetSnoc(es + [Act(Wake(c, h))], Act(Body(r, stale)));
    ListedIsAccepted(n, c);
    DefinedIs(HeaderRead(n.d, n.streams, c, h));
    WakeupIsRecv(n.d, n.streams, c, h, r, stale);
    var hdr, body := HeaderRead(n.d, n.streams, c, h), BodyRead(n.d, n.streams, c, h, r);
    GoneIff(v, hdr, body, stale);
    WakeKeepsAccepted(n.d, n.streams, c, h);
    BodyKeepsAccepted(WakeStep(n.d, n.streams, c, h), n.streams, c, r, stale);
    RecvKeepsFd(v, hdr, body, stale);
    ApplyListsIff(n.d.clients, c, Recv(v, hdr, body, stale));
  }

  lemma DefinedIs(h: Read)
    ensures Defined(h) <==> !AfterHeader(h).Overrun?
  {
  }

  lemma WakeKeepsAccepted(d: State, ss: seq<seq<byte>>, c: nat, h: ReadResult)
    requires InStep(d, ss) && c < |d.taps|
    ensures |WakeStep(d, ss, c, h).taps| == |d.taps| && WakeStep(d, ss, c, h).taps[c].accepted == d.taps[c].accepted
  {
  }

  lemma BodyKeepsAccepted(d: State, ss: seq<seq<byte>>, c: nat, r: ReadResult, stale: Stale)
    requires InStep(d, ss) && c < |d.taps|
    ensures |BodyStep(d, ss, r, stale).taps| == |d.taps|
    ensures BodyStep(d, ss, r, stale).taps[c].accepted == d.taps[c].accepted
  {
    hide React;
  }

  lemma RecvKeepsFd(v: Entry, h: Read, r: Read, stale: Stale)
    ensures var e := Recv(v, h, r, stale); e.Keep? ==> e.v.fd == v.fd
  {
  }

  lemma ApplyListsIff(vs: seq<Entry>, c: nat, e: Effect)
    requires Distinct(vs) && Has(vs, c) && (e.Keep? ==> e.v.fd == c)
    ensures Has(Apply(vs, c, e), c) <==> e.Keep?
  {
    WithoutKeepsOthers(vs, c);
    if e.Keep? { assert Apply(vs, c, e)[IndexOf(vs, c)].fd == c; }
  }

  /** A client whose stream is at its end goes at the next wakeup that reads it. */
  lemma EndOfStreamRemoves(es: seq<Event>, c: nat, k: nat)
    requires var n := RunNet(es);
             n.d.phase.Waiting? && Has(n.d.clients, c) && c < |n.streams| && n.d.taps[c].rd == |n.streams[c]|
    ensures Removed(RunNet(es + [Act(Wake(c, Got(k)))]), c)
  {
    hide RunNet, React;
    var n := RunNet(es);
    RunNetSnoc(es, Act(Wake(c, Got(k))));
    ListedIsAccepted(n, c);
    WithoutKeepsOthers(n.d.clients, c);
  }
}
