/** The connector: initialisation cleans both tables, and every later OVSDB event adds or deletes one
    rule or one reservation.  Over whole runs the tables hold what the events leave. */
module Connector {
  import opened Text
  import opened DmTable
  import opened DmScan
  import PF = PortForward
  import RS = Reservation

  /** The answers of the other side to the calls of one event. */
  datatype Add = Add(added: Row, addOk: bool, setOk: bool)
  datatype Del = Del(getOk: bool, delOk: bool)

  datatype Event =
    | RuleAdd(c: PF.Config, add: Add)
    | RuleDel(c: PF.Config, del: Del)
    | LeaseAdd(l: RS.Lease, add: Add)
    | LeaseDel(l: RS.Lease, del: Del)

  datatype Tables = Tables(mappings: seq<Row>, reservations: seq<Row>)

  ghost predicate Ok(ts: Tables) {
    PF.TableOk(ts.mappings) && RS.TableOk(ts.reservations)
  }

  /** The row that the other side creates is well laid out, has a new number, and the number fits the
      buffers of the connector. */
  ghost predicate Enabled(ts: Tables, e: Event) {
    match e
    case RuleAdd(_, a) => PF.TableOk(ts.mappings + [a.added]) && a.added.idx < 1_000_000
    case LeaseAdd(_, a) => RS.TableOk(ts.reservations + [a.added]) && a.added.idx < 10
    case _ => true
  }

  function Added(rows: seq<Row>, a: Add, filled: Row): seq<Row> {
    if !a.addOk then rows else if !a.setOk then rows + [a.added] else rows + [filled]
  }

  function Step(ts: Tables, e: Event): Tables {
    match e
    case RuleAdd(c, a) => ts.(mappings := Added(ts.mappings, a, PF.NewRow(PF.PATH, a.added, c)))
    case RuleDel(c, d) => if d.getOk && d.delOk then ts.(mappings := PF.Delete(ts.mappings, PF.Wanted(c))) else ts
    case LeaseAdd(l, a) => ts.(reservations := Added(ts.reservations, a, RS.NewRow(RS.PATH, a.added, l)))
    case LeaseDel(l, d) => if d.getOk && d.delOk then ts.(reservations := RS.Delete(ts.reservations, l)) else ts
  }

  class Connector {
    const mappings: Table
    const reservations: Table

    constructor (mappings: Table, reservations: Table)
      ensures this.mappings == mappings && this.reservations == reservations
    {
      this.mappings, this.reservations := mappings, reservations;
    }

    ghost function View(): Tables
      reads mappings, reservations
    {
      Tables(mappings.rows, reservations.rows)
    }

    ghost predicate Valid()
      reads mappings, reservations
    {
      mappings != reservations && mappings.path == PF.PATH && reservations.path == RS.PATH && Ok(View())
    }

    /** `busOk`: the bus and the component came up. */
    method Init(busOk: bool, staticOk: bool, staticRefuses: set<nat>, natOk: bool, natRefuses: set<nat>)
      returns (ret: bool)
      requires Valid()
      modifies mappings, reservations
      ensures Valid() && ret == busOk
      ensures View() == if !busOk then old(View()) else Tables(
                          if natOk then Refused(old(mappings.rows), natRefuses) else old(mappings.rows),
                          if staticOk then Refused(old(reservations.rows), staticRefuses) else old(reservations.rows))
    {
      if !busOk { return false; }
      PF.OkIsPlain(mappings.rows);
      RS.OkIsPlain(reservations.rows);
      RefusedKeepsOk(View(), natRefuses, staticRefuses);
      CleanDm(reservations, staticOk, staticRefuses);
      CleanDm(mappings, natOk, natRefuses);
      return true;
    }

    method PortforwardAdd(c: PF.Config, a: Add) returns (ret: bool)
      requires Valid() && Enabled(View(), RuleAdd(c, a))
      modifies mappings
      ensures Valid() && ret && View() == Step(old(View()), RuleAdd(c, a))
    {
      var _ := PF.PortforwardAdd(mappings, c, a.added, a.addOk, a.setOk);
      return true;
    }

    method PortforwardDel(c: PF.Config, d: Del) returns (ret: bool)
      requires Valid()
      modifies mappings
      ensures Valid() && ret && View() == Step(old(View()), RuleDel(c, d))
    {
      PF.DeleteKeepsOk(mappings.rows, PF.Wanted(c));
      var _ := PF.PortforwardDel(mappings, c, d.getOk, d.delOk);
      return true;
    }

    method DhcpReservationAdd(l: RS.Lease, a: Add) returns (ret: bool)
      requires Valid() && Enabled(View(), LeaseAdd(l, a))
      modifies reservations
      ensures Valid() && ret && View() == Step(old(View()), LeaseAdd(l, a))
    {
      var _ := RS.ReservationAdd(reservations, l, a.added, a.addOk, a.setOk);
      return true;
    }

    method DhcpReservationDel(l: RS.Lease, d: Del) returns (ret: bool)
      requires Valid()
      modifies reservations
      ensures Valid() && ret && View() == Step(old(View()), LeaseDel(l, d))
    {
      RS.DeleteKeepsOk(reservations.rows, l);
      var _ := RS.ReservationDel(reservations, l, d.getOk, d.delOk);
      return true;
    }
  }

  lemma RefusedKeepsOk(ts: Tables, natRefuses: set<nat>, staticRefuses: set<nat>)
    requires Ok(ts)
    ensures PF.TableOk(Refused(ts.mappings, natRefuses)) && RS.TableOk(Refused(ts.reservations, staticRefuses))
  {
    RefusedAre(ts.mappings, natRefuses);
    RefusedAre(ts.reservations, staticRefuses);
    var ns, ss := Refused(ts.mappings, natRefuses), Refused(ts.reservations, staticRefuses);
    forall i | 0 <= i < |ns|
      ensures PF.Layout(ns[i])
    {
      var j :| 0 <= j < |ts.mappings| && ts.mappings[j] == ns[i];
      assert PF.Layout(ts.mappings[j]);
    }
    forall i | 0 <= i < |ss|
      ensures RS.Layout(ss[i])
    {
      var j :| 0 <= j < |ts.reservations| && ts.reservations[j] == ss[i];
      assert RS.Layout(ts.reservations[j]);
    }
  }

  // ---------------------------------------------------------------- whole runs

  ghost predicate EnabledRun(ts: Tables, es: seq<Event>) {
    es != [] ==> EnabledRun(ts, es[..|es| - 1]) && Enabled(Run(ts, es[..|es| - 1]), es[|es| - 1])
  }

  function Run(ts: Tables, es: seq<Event>): Tables {
    if es == [] then ts else Step(Run(ts, es[..|es| - 1]), es[|es| - 1])
  }

  lemma {:induction false} RunKeepsOk(ts: Tables, es: seq<Event>)
    requires Ok(ts) && EnabledRun(ts, es)
    ensures Ok(Run(ts, es))
  {
    if es != [] {
      RunKeepsOk(ts, es[..|es| - 1]);
      StepKeepsOk(Run(ts, es[..|es| - 1]), es[|es| - 1]);
    }
  }

  lemma StepKeepsOk(ts: Tables, e: Event)
    requires Ok(ts) && Enabled(ts, e)
    ensures Ok(Step(ts, e))
  {
    match e
    case RuleAdd(c, a) => PF.AddKeepsOk(ts.mappings, a.added, c);
    case RuleDel(c, d) => PF.DeleteKeepsOk(ts.mappings, PF.Wanted(c));
    case LeaseAdd(l, a) => RS.AddKeepsOk(ts.reservations, a.added, l);
    case LeaseDel(l, d) => RS.DeleteKeepsOk(ts.reservations, l);
  }

  /** What an event does to the multiset of rules: an add puts the rule of its configuration in, or, when
      the values cannot be set, whatever rule the created row came with; a delete takes one equal rule out
      if there is one; a call that fails does nothing. */
  function RuleEffect(before: multiset<PF.Rule>, e: Event): multiset<PF.Rule> {
    match e
    case RuleAdd(c, a) =>
      if !a.addOk then before else before + multiset{if a.setOk then PF.Stored(c) else PF.RuleOf(a.added)}
    case RuleDel(c, d) => if d.getOk && d.delOk then before - multiset{PF.Wanted(c)} else before
    case _ => before
  }

  function LeaseEffect(before: multiset<RS.Lease>, e: Event): multiset<RS.Lease> {
    match e
    case LeaseAdd(l, a) =>
      if !a.addOk then before else before + multiset{if a.setOk then l else RS.LeaseOf(a.added)}
    case LeaseDel(l, d) => if d.getOk && d.delOk then before - multiset{l} else before
    case _ => before
  }

  function RuleLedger(start: multiset<PF.Rule>, es: seq<Event>): multiset<PF.Rule> {
    if es == [] then start else RuleEffect(RuleLedger(start, es[..|es| - 1]), es[|es| - 1])
  }

  function LeaseLedger(start: multiset<RS.Lease>, es: seq<Event>): multiset<RS.Lease> {
    if es == [] then start else LeaseEffect(LeaseLedger(start, es[..|es| - 1]), es[|es| - 1])
  }

  /** Over every run, whatever calls fail in it, the tables track the history of events. */
  lemma {:induction false} TablesTrackHistory(ts: Tables, es: seq<Event>)
    requires EnabledRun(ts, es)
    ensures PF.RuleSet(Run(ts, es).mappings) == RuleLedger(PF.RuleSet(ts.mappings), es)
    ensures RS.LeaseSet(Run(ts, es).reservations) == LeaseLedger(RS.LeaseSet(ts.reservations), es)
  {
    hide PF.RuleSet, RS.LeaseSet, Step, Enabled;
    if es != [] {
      TablesTrackHistory(ts, es[..|es| - 1]);
      StepTracks(Run(ts, es[..|es| - 1]), es[|es| - 1]);
    }
  }

  lemma StepTracks(ts: Tables, e: Event)
    requires Enabled(ts, e)
    ensures PF.RuleSet(Step(ts, e).mappings) == RuleEffect(PF.RuleSet(ts.mappings), e)
    ensures RS.LeaseSet(Step(ts, e).reservations) == LeaseEffect(RS.LeaseSet(ts.reservations), e)
  {
    hide PF.RuleSet, RS.LeaseSet, PF.Delete, RS.Delete, PF.NewRow, RS.NewRow;
    match e
    case RuleAdd(c, a) =>
      assert PF.Layout((ts.mappings + [a.added])[|ts.mappings|]);
      PF.NewRowHoldsRule(PF.PATH, a.added, c);
      PF.RuleSetAppend(ts.mappings, PF.NewRow(PF.PATH, a.added, c));
      PF.RuleSetAppend(ts.mappings, a.added);
    case RuleDel(c, d) => PF.RuleSetDelete(ts.mappings, PF.Wanted(c));
    case LeaseAdd(l, a) =>
      assert RS.Layout((ts.reservations + [a.added])[|ts.reservations|]);
      RS.NewRowHoldsLease(RS.PATH, a.added, l);
      RS.LeaseSetAppend(ts.reservations, RS.NewRow(RS.PATH, a.added, l));
      RS.LeaseSetAppend(ts.reservations, a.added);
    case LeaseDel(l, d) => RS.LeaseSetDelete(ts.reservations, l);
  }

  /** Every bus call of the run succeeds. */
  predicate AllSucceed(es: seq<Event>) {
    forall i :: 0 <= i < |es| ==>
      match es[i]
      case RuleAdd(_, a) => a.addOk && a.setOk
      case LeaseAdd(_, a) => a.addOk && a.setOk
      case RuleDel(_, d) => d.getOk && d.delOk
      case LeaseDel(_, d) => d.getOk && d.delOk
  }

  /** The adds and the deletes, each counted as its configuration says. */
  function RuleHistory(es: seq<Event>): multiset<PF.Rule> {
    if es == [] then multiset{}
    else
      var before := RuleHistory(es[..|es| - 1]);
      match es[|es| - 1]
      case RuleAdd(c, _) => before + multiset{PF.Stored(c)}
      case RuleDel(c, _) => before - multiset{PF.Wanted(c)}
      case _ => before
  }

  function LeaseHistory(es: seq<Event>): multiset<RS.Lease> {
    if es == [] then multiset{}
    else
      var before := LeaseHistory(es[..|es| - 1]);
      match es[|es| - 1]
      case LeaseAdd(l, _) => before + multiset{l}
      case LeaseDel(l, _) => before - multiset{l}
      case _ => before
  }

  lemma {:induction false} LedgerOfSuccess(es: seq<Event>)
    requires AllSucceed(es)
    ensures RuleLedger(multiset{}, es) == RuleHistory(es) && LeaseLedger(multiset{}, es) == LeaseHistory(es)
  {
    if es != [] {
      var front := es[..|es| - 1];
      assert forall i :: 0 <= i < |front| ==> front[i] == es[i];
      LedgerOfSuccess(front);
    }
  }

  /** Whatever the tables held before, after an initialisation that could delete every row and any
      events whose bus calls succeed, both tables hold exactly the adds minus the matched deletes. */
  lemma CleanStartTracksHistory(initial: Tables, es: seq<Event>)
    requires EnabledRun(Tables(Refused(initial.mappings, {}), Refused(initial.reservations, {})), es) && AllSucceed(es)
    ensures var ts := Run(Tables(Refused(initial.mappings, {}), Refused(initial.reservations, {})), es);
            PF.RuleSet(ts.mappings) == RuleHistory(es) && RS.LeaseSet(ts.reservations) == LeaseHistory(es)
  {
    RefusedAre(initial.mappings, {});
    RefusedAre(initial.reservations, {});
    TablesTrackHistory(Tables([], []), es);
    LedgerOfSuccess(es);
    assert PF.Rules([]) == [] && RS.Leases([]) == [];
  }
}
