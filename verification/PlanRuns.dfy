/** What the graft of a plan promises over the rest of the run, and that it is itself a run. */
module PlanRuns {
  import opened Values
  import opened Nets
  import opened Scheduling
  import opened PlanGraft
  import opened PlanNodes
  import opened PlanShape
  import opened GraphRuns

  // ---- After the graft ----

  /** A step of a grafted plan only ever reads finished work, whatever happens after the graft: at any later moment at
      which its node is ready, the node a reference of it stands for is terminal, unless that is a compute node whose
      dependents were redirected before. */
  lemma ReadyReadsDoneLater(p: Plan, k: nat, s: Seg, nets: seq<Net>, events: seq<Event>, i: nat, j: nat)
    requires p.Ok() && ClosedNet(p.net) && k < FirstHole(p.Ids())
    requires s in RefsOfFields(p.steps[k].params) && Matchable(p.Sc(), s) && Target(p.Sc(), p.Ids()[k], s.name).Pick?
    requires GraphRun(nets, events) && i <= j < |nets| && nets[i] == p.After() && IsReady(nets[j], p.Ids()[k])
    ensures var d := Target(p.Sc(), p.Ids()[k], s.name).id;
      Done(nets[j], d) || (IsCompute(nets[i], d) && TakenBetween(events, i, j, d))
  {
    var own, d := p.Ids()[k], Target(p.Sc(), p.Ids()[k], s.name).id;
    WiredStep(p, k);
    assert d in Implied(p.Sc(), own, RefsOfFields(p.steps[k].params));
    assert d in p.After().nodes[own].deps;
    hide *;
    GraftAcyclicIff(p);
    Waiting(nets[i], own, d);
    WaitStays(nets, events, i, j, own, d);
    if WaitsFor(nets[j], own, d) { ReadyWaitsDone(nets[j], own, d); }
  }

  /** Redirections come when the node has finished. Then the node a reference stands for is terminal whenever its reader
      is ready, unless it was redirected and, later, set back. */
  lemma ReadyReadsDoneUnlessSetBack(p: Plan, k: nat, s: Seg, nets: seq<Net>, events: seq<Event>, i: nat, j: nat)
    requires p.Ok() && ClosedNet(p.net) && k < FirstHole(p.Ids())
    requires s in RefsOfFields(p.steps[k].params) && Matchable(p.Sc(), s) && Target(p.Sc(), p.Ids()[k], s.name).Pick?
    requires GraphRun(nets, events) && i <= j < |nets| && nets[i] == p.After() && IsReady(nets[j], p.Ids()[k])
    requires var d := Target(p.Sc(), p.Ids()[k], s.name).id;
      forall m :: i <= m < j && Takes(events[m], d) ==> Done(nets[m], d)
    ensures var d := Target(p.Sc(), p.Ids()[k], s.name).id;
      Done(nets[j], d) || exists m :: i <= m < j && Takes(events[m], d) && SetBackBetween(events, m + 1, j, d)
  {
    var d := Target(p.Sc(), p.Ids()[k], s.name).id;
    hide *;
    ReadyReadsDoneLater(p, k, s, nets, events, i, j);
    if !Done(nets[j], d) { TakenThenSetBack(nets, events, i, j, d); }
  }

  lemma TakenThenSetBack(nets: seq<Net>, events: seq<Event>, i: nat, j: nat, d: Id)
    requires GraphRun(nets, events) && i <= j < |nets| && TakenBetween(events, i, j, d) && !Done(nets[j], d)
    requires forall m :: i <= m < j && Takes(events[m], d) ==> Done(nets[m], d)
    ensures exists m :: i <= m < j && Takes(events[m], d) && SetBackBetween(events, m + 1, j, d)
  {
    hide Happens, NetOk;
    var m :| i <= m < j && Takes(events[m], d);
    if !SetBackBetween(events, m, j, d) {
      DoneStays(nets, events, m, j, d);
    } else {
      var b :| m <= b < j && SetsBack(events[b], d);
      assert b != m;
      assert SetBackBetween(events, m + 1, j, d);
    }
  }

  lemma Waiting(net: Net, w: Id, d: Id)
    requires ClosedNet(net) && w in net.nodes && d in net.nodes[w].deps
    ensures WaitsFor(net, w, d)
  {}

  lemma ReadyWaitsDone(net: Net, w: Id, d: Id)
    requires WaitsFor(net, w, d) && IsReady(net, w)
    ensures Done(net, d)
  {}

  // ---- The graft as a run ----

  /** Some run of additions and wirings leads from one graph to the other. */
  ghost predicate LeadsTo(net: Net, net': Net) {
    exists nets, events :: Builds(nets, events) && nets[0] == net && nets[|events|] == net'
  }

  ghost predicate Builds(nets: seq<Net>, events: seq<Event>) {
    GraphRun(nets, events) && forall k :: 0 <= k < |events| ==> events[k].Add? || events[k].WireUp?
  }

  lemma LeadsNext(net: Net, net': Net, e: Event, net'': Net)
    requires LeadsTo(net, net') && Happens(net', e, net'') && (e.Add? || e.WireUp?)
    ensures LeadsTo(net, net'')
  {
    hide Happens, NetOk;
    var nets, events :| Builds(nets, events) && nets[0] == net && nets[|events|] == net';
    var nets', events' := nets + [net''], events + [e];
    forall k | 0 <= k < |events'| ensures Happens(nets'[k], events'[k], nets'[k + 1]) {
      if k < |events| { assert Happens(nets[k], events[k], nets[k + 1]); }
    }
    assert Builds(nets', events') && nets'[0] == net && nets'[|events'|] == net'';
  }

  lemma {:induction false} AddedLeads(net: Net, reg: Registry, steps: seq<PlanStep>, n: nat)
    requires NetOk(net) && n <= |steps|
    ensures LeadsTo(net, Added(net, reg, steps, n))
  {
    if n == 0 {
      var none: seq<Event> := [];
      assert Builds([net], none) && [net][|none|] == net;
    } else {
      AddedLeads(net, reg, steps, n - 1);
      hide LeadsTo, NetOk;
      if Accepted(reg, steps[n - 1]) {
        LeadsNext(net, Added(net, reg, steps, n - 1), Add(TaskOf(reg, steps[n - 1]), []), Added(net, reg, steps, n));
      }
    }
  }

  /** A node that has not been wired yet waits for nothing. */
  lemma NotWiredYet(p: Plan, n: nat)
    requires p.Ok() && n < FirstHole(p.Ids())
    ensures var before, own := Wired(p.Sc(), p.steps, n), p.Ids()[n];
      && own != "" && own in before.nodes && before.nodes[own].deps == []
      && Wired(p.Sc(), p.steps, n + 1) == WithInfo(before, own, Wiring(p.Sc(), own, p.steps[n], before.nodes[own]))
  {
    PlanIsMade(p.net, p.reg, p.steps, p.wide, p.paid);
    NoHoleBefore(p.Ids(), n);
    forall j | 0 <= j < n ensures p.Ids()[j] != "" { NoHoleBefore(p.Ids(), j); }
    hide NetOk, Wired, Wiring, Added;
    WiredAt(p.Sc(), p.steps, n);
    NotYetWired(p.Sc(), p.steps, n);
    MadeNode(p, n);
    NextWired(p.Sc(), p.steps, n);
  }

  lemma {:induction false} WiredLeads(p: Plan, n: nat)
    requires p.Ok() && n <= FirstHole(p.Ids())
    ensures LeadsTo(p.net, Wired(p.Sc(), p.steps, n))
  {
    if n == 0 {
      AddedLeads(p.net, p.reg, p.steps, p.paid);
      hide LeadsTo;
    } else {
      hide *;
      WiredLeads(p, n - 1);
      NotWiredYet(p, n - 1);
      var before, own := Wired(p.Sc(), p.steps, n - 1), p.Ids()[n - 1];
      WireHappens(p.Sc(), own, p.steps[n - 1], before);
      LeadsNext(p.net, before, WireEvent(p.Sc(), own, p.steps[n - 1]), Wired(p.Sc(), p.steps, n));
    }
  }

  ghost function WireEvent(sc: Scope, own: Id, step: PlanStep): Event
    requires Counts(step.dependsOn)
  {
    WireUp(own, Obj(MapFields(Rewriter(sc, own), step.params)), StepDeps(sc, own, step))
  }

  lemma WireHappens(sc: Scope, own: Id, step: PlanStep, net: Net)
    requires Counts(step.dependsOn) && own in net.nodes && net.nodes[own].deps == []
    ensures WireEvent(sc, own, step).WireUp?
    ensures Happens(net, WireEvent(sc, own, step), WithInfo(net, own, Wiring(sc, own, step, net.nodes[own])))
  {
    hide StepDeps, MapFields;
    assert [] + StepDeps(sc, own, step) == StepDeps(sc, own, step);
  }

  /** Grafting a plan is a run of the graph's own operations, so all that is proved of runs holds across grafts. */
  lemma GraftIsRun(p: Plan)
    requires p.Ok()
    ensures LeadsTo(p.net, p.After())
  {
    hide LeadsTo;
    WiredLeads(p, FirstHole(p.Ids()));
  }
}
