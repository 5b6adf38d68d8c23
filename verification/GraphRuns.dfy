/** Whole runs: every operation that changes the graph, in any order, and what the late graft promises across them. */
module GraphRuns {
  import opened Digraph
  import opened Values
  import opened Nets
  import opened Budgets
  import opened Scheduling
  import opened Rewiring
  import opened LateGraft
  import opened LateGraftLaws

  /** What can happen to the graph during a run. A node may be set to any state, back to pending included. */
  datatype Event =
    | Add(task: Task, deps: seq<Id>)
    | NextRound
    | SetTo(id: Id, state: NodeState)
    | Note(id: Id, outcome: Outcome)
    | Adopt(parent: Id, child: Id)
    | WireUp(id: Id, params: Val, more: seq<Id>)
    | Prune(root: Id)
    | GateOn(gate: Id)
    | SkipPending
    | WaitLateOn(parent: Id, child: Id, field: string)
    | RedirectTo(gone: Id, repl: seq<Id>)
    | Supersede
    | RunGraft(arch: Id, plan: Blueprint, limits: Limits, settings: Settings, spent: Counts)

  ghost predicate Happens(net: Net, e: Event, net': Net) {
    match e
    case Add(task, deps) => net' == WithNode(net, NewInfo(task, deps))
    case NextRound => net' == net.(round := net.round + 1)
    case SetTo(id, state) => net' == WithState(net, id, state)
    case Note(id, outcome) => id in net.nodes && net' == WithInfo(net, id, net.nodes[id].(outcome := outcome))
    case Adopt(parent, child) => net' == WithChild(net, parent, child)
    case WireUp(id, params, more) =>
      id in net.nodes && net' == WithInfo(net, id, Wire(net.nodes[id], params, net.nodes[id].deps + more))
    case Prune(root) => net' == Pruned(net, root)
    case GateOn(gate) => net' == Gated(net, gate)
    case SkipPending => net' == Updated(net, Skip, PendingIds(net, net.nodes.Keys))
    case WaitLateOn(parent, child, field) => net' == WaitedLate(net, parent, child, field)
    case RedirectTo(gone, repl) => IsCompute(net, gone) && net' == Redirected(net, gone, repl)
    case Supersede => net' == Superseded(net)
    case RunGraft(arch, plan, limits, settings, spent) => net' == GraftRun(limits, settings, net, spent, arch, plan).net
  }

  predicate IsCompute(net: Net, id: Id) {
    id in net.nodes && net.nodes[id].task.kind == Compute
  }

  ghost predicate GraphRun(nets: seq<Net>, events: seq<Event>) {
    && |nets| == |events| + 1 && NetOk(nets[0])
    && forall i :: 0 <= i < |events| ==> Happens(nets[i], events[i], nets[i + 1])
  }

  // ---- What no event ever takes away ----

  /** Only redirecting dependents away from a node, a compute node, takes dependencies on it away. */
  predicate Takes(e: Event, d: Id) {
    e.RedirectTo? && e.gone == d
  }

  /** A node never goes, never changes its kind, never has its flag lowered, and loses no dependency that the event
      does not take. */
  ghost predicate Lasts(net: Net, net': Net, e: Event, id: Id)
    requires id in net.nodes
  {
    && id in net'.nodes && net'.nodes[id].task.kind == net.nodes[id].task.kind
    && (net.nodes[id].runGrafted ==> net'.nodes[id].runGrafted)
    && (forall d :: d in net.nodes[id].deps && !Takes(e, d) ==> d in net'.nodes[id].deps)
  }

  lemma GraftOk(l: Limits, s: Settings, net: Net, spent: Counts, arch: Id, plan: Blueprint)
    requires NetOk(net)
    ensures NetOk(GraftRun(l, s, net, spent, arch, plan).net)
  {
    OnlyWhenResolved(l, s, net, spent, arch, plan);
    if arch in net.nodes { FlagKeepsShape(net, arch); }
    if Due(net, arch, plan) {
      OutcomeOk(WithRunGrafted(net, arch), arch, CoderChildren(net, arch), Before(l, s, net, spent, arch, plan),
                GraftRun(l, s, net, spent, arch, plan));
    }
    hide GraftRun, Due, NetOk, Before, CoderChildren, ComesTo;
  }

  lemma OutcomeOk(base: Net, arch: Id, coders: seq<Id>, all: Progress, r: Progress)
    requires ComesTo(base, arch, coders, all, r)
    ensures NetOk(r.net)
  {
    UpdateOk(all.net, AlsoWait(IdSet(coders), all.grafted), all.net.nodes.Keys);
  }

  lemma GraftLasts(l: Limits, s: Settings, net: Net, spent: Counts, arch: Id, plan: Blueprint, id: Id)
    requires NetOk(net) && id in net.nodes
    ensures Lasts(net, GraftRun(l, s, net, spent, arch, plan).net, RunGraft(arch, plan, l, s, spent), id)
  {
    hide GraftRun, ComesTo, Before, NewTools, Held, NetOk, CoderChildren, AllResolved;
    var r := GraftRun(l, s, net, spent, arch, plan);
    OnlyWhenResolved(l, s, net, spent, arch, plan);
    if Due(net, arch, plan) {
      WaitersHeld(l, s, net, spent, arch, plan, id);
      FlagKept(WithRunGrafted(net, arch), arch, CoderChildren(net, arch), Before(l, s, net, spent, arch, plan), r, id);
      HeldLasts(net, r.net, RunGraft(arch, plan, l, s, spent), r.grafted, WaitsOnCoder(net, arch, id), id);
    }
  }

  lemma HeldLasts(net: Net, net': Net, e: Event, grafted: seq<Id>, waits: bool, id: Id)
    requires id in net.nodes && Held(net, net', grafted, waits, id)
    requires net.nodes[id].runGrafted ==> net'.nodes[id].runGrafted
    ensures Lasts(net, net', e, id)
  {
    forall d | d in net.nodes[id].deps ensures d in net'.nodes[id].deps {}
  }

  lemma FlagKept(base: Net, arch: Id, coders: seq<Id>, all: Progress, r: Progress, id: Id)
    requires ComesTo(base, arch, coders, all, r) && id in base.nodes
    ensures base.nodes[id].runGrafted ==> id in r.net.nodes && r.net.nodes[id].runGrafted
  {
    assert id in all.net.nodes && all.net.nodes[id].runGrafted == base.nodes[id].runGrafted;
    hide Grown, NetOk;
  }

  lemma EventOk(net: Net, e: Event, net': Net)
    requires NetOk(net) && Happens(net, e, net')
    ensures NetOk(net')
  {
    match e
    case Add(task, deps) => WithNodeOk(net, NewInfo(task, deps));
    case WireUp(x, params, more) => InfoOk(net, x, Wire(net.nodes[x], params, net.nodes[x].deps + more));
    case Prune(root) => UpdateOk(net, Skip, Doomed(net, root));
    case GateOn(gate) => UpdateOk(net, Gate(gate), net.nodes.Keys);
    case SkipPending => UpdateOk(net, Skip, PendingIds(net, net.nodes.Keys));
    case WaitLateOn(parent, child, field) => UpdateOk(net, WaitLate(parent, child, field), net.nodes.Keys);
    case RedirectTo(gone, repl) => UpdateOk(net, Redirect(gone, repl), net.nodes.Keys);
    case Supersede => UpdateOk(net, MarkFixed, FixedFailures(net));
    case RunGraft(arch, plan, limits, settings, spent) => GraftOk(limits, settings, net, spent, arch, plan);
    case _ =>
  }

  lemma ChangeLasts(net: Net, f: (Id, Info) -> Info, ids: set<Id>, e: Event, id: Id)
    requires id in net.nodes
    requires var now := f(id, net.nodes[id]);
      && now.task.kind == net.nodes[id].task.kind && (net.nodes[id].runGrafted ==> now.runGrafted)
      && forall d :: d in net.nodes[id].deps && !Takes(e, d) ==> d in now.deps
    ensures Lasts(net, Updated(net, f, ids), e, id)
  {}

  lemma EventLasts(net: Net, e: Event, net': Net, id: Id)
    requires NetOk(net) && Happens(net, e, net') && id in net.nodes
    ensures Lasts(net, net', e, id)
  {
    match e
    case Add(task, deps) => FreshName(net);
    case Prune(root) =>
      hide NetOk, GraftRun, Doomed, Lasts, Updated;
      ChangeLasts(net, Skip, Doomed(net, root), e, id);
    case GateOn(gate) =>
      hide NetOk, GraftRun, Lasts, Updated;
      ChangeLasts(net, Gate(gate), net.nodes.Keys, e, id);
    case SkipPending =>
      hide NetOk, GraftRun, Lasts, Updated;
      ChangeLasts(net, Skip, PendingIds(net, net.nodes.Keys), e, id);
    case WaitLateOn(parent, child, field) =>
      hide NetOk, GraftRun, Lasts, Updated;
      ChangeLasts(net, WaitLate(parent, child, field), net.nodes.Keys, e, id);
    case RedirectTo(gone, repl) =>
      hide NetOk, GraftRun, Lasts, Updated;
      ChangeLasts(net, Redirect(gone, repl), net.nodes.Keys, e, id);
    case Supersede =>
      hide NetOk, GraftRun, FixedFailures, Lasts, Updated;
      ChangeLasts(net, MarkFixed, FixedFailures(net), e, id);
    case RunGraft(arch, plan, limits, settings, spent) => GraftLasts(limits, settings, net, spent, arch, plan, id);
    case _ => hide NetOk, GraftRun;
  }

  // ---- Across a run ----

  lemma {:induction false} RunOk(nets: seq<Net>, events: seq<Event>, i: nat)
    requires GraphRun(nets, events) && i < |nets|
    ensures NetOk(nets[i])
  {
    hide NetOk, Happens;
    if i > 0 {
      RunOk(nets, events, i - 1);
      EventOk(nets[i - 1], events[i - 1], nets[i]);
    }
  }

  lemma {:induction false} FlagStaysUp(nets: seq<Net>, events: seq<Event>, i: nat, j: nat, arch: Id)
    requires GraphRun(nets, events) && i <= j < |nets| && arch in nets[i].nodes && nets[i].nodes[arch].runGrafted
    ensures arch in nets[j].nodes && nets[j].nodes[arch].runGrafted
    decreases j
  {
    hide NetOk, Happens;
    if i < j {
      FlagStaysUp(nets, events, i, j - 1, arch);
      RunOk(nets, events, j - 1);
      EventLasts(nets[j - 1], events[j - 1], nets[j], arch);
    }
  }

  ghost predicate WaitsFor(net: Net, w: Id, d: Id) {
    w in net.nodes && d in net.nodes && d in net.nodes[w].deps
  }

  /** Some event from i on, before j, takes dependencies on d away. */
  ghost predicate TakenBetween(events: seq<Event>, i: nat, j: nat, d: Id)
    requires j <= |events|
  {
    exists k :: i <= k < j && Takes(events[k], d)
  }

  lemma {:induction false} WaitStays(nets: seq<Net>, events: seq<Event>, i: nat, j: nat, w: Id, d: Id)
    requires GraphRun(nets, events) && i <= j < |nets| && WaitsFor(nets[i], w, d)
    ensures w in nets[j].nodes && d in nets[j].nodes && IsCompute(nets[j], d) == IsCompute(nets[i], d)
    ensures WaitsFor(nets[j], w, d) || (IsCompute(nets[i], d) && TakenBetween(events, i, j, d))
    decreases j
  {
    hide NetOk, Happens;
    if i < j {
      WaitStays(nets, events, i, j - 1, w, d);
      RunOk(nets, events, j - 1);
      EventLasts(nets[j - 1], events[j - 1], nets[j], w);
      EventLasts(nets[j - 1], events[j - 1], nets[j], d);
      if Takes(events[j - 1], d) { TakesCompute(nets[j - 1], events[j - 1], nets[j], d); }
    }
  }

  lemma TakesCompute(net: Net, e: Event, net': Net, d: Id)
    requires Happens(net, e, net') && Takes(e, d)
    ensures IsCompute(net, d)
  {}

  /** A finished node is only ever set back by hand. */
  predicate SetsBack(e: Event, d: Id) {
    e.SetTo? && e.id == d && !Terminal(e.state)
  }

  lemma EventKeepsDone(net: Net, e: Event, net': Net, d: Id)
    requires NetOk(net) && Happens(net, e, net') && Done(net, d) && !SetsBack(e, d)
    ensures Done(net', d)
  {
    match e
    case Add(task, deps) => FreshName(net);
    case RunGraft(arch, plan, limits, settings, spent) =>
      hide GraftRun, NetOk, Before, CoderChildren, AllResolved, ComesTo;
      OnlyWhenResolved(limits, settings, net, spent, arch, plan);
      if Due(net, arch, plan) { WaitersHeld(limits, settings, net, spent, arch, plan, d); }
    case _ => hide NetOk, GraftRun;
  }

  ghost predicate SetBackBetween(events: seq<Event>, i: nat, j: nat, d: Id)
    requires j <= |events|
  {
    exists k :: i <= k < j && SetsBack(events[k], d)
  }

  lemma {:induction false} DoneStays(nets: seq<Net>, events: seq<Event>, i: nat, j: nat, d: Id)
    requires GraphRun(nets, events) && i <= j < |nets| && Done(nets[i], d) && !SetBackBetween(events, i, j, d)
    ensures Done(nets[j], d)
    decreases j
  {
    hide NetOk, Happens;
    if i < j {
      DoneStays(nets, events, i, j - 1, d);
      RunOk(nets, events, j - 1);
      EventKeepsDone(nets[j - 1], events[j - 1], nets[j], d);
    }
  }

  ghost predicate GraftsAt(nets: seq<Net>, events: seq<Event>, i: nat, arch: Id) {
    && i < |events| && i + 1 < |nets| && events[i].RunGraft? && events[i].arch == arch
    && Due(nets[i], arch, events[i].plan)
  }

  ghost function NewNodes(nets: seq<Net>, events: seq<Event>, i: nat): seq<Id>
    requires i < |events| && i < |nets| && events[i].RunGraft?
  {
    GraftRun(events[i].limits, events[i].settings, nets[i], events[i].spent, events[i].arch, events[i].plan).grafted
  }

  /** An architect's run and check nodes are created at most once: after the call that was due, every further call
      leaves the graph as it is, whatever happened in between. */
  lemma RunNodesOnce(nets: seq<Net>, events: seq<Event>, i: nat, j: nat, arch: Id)
    requires GraphRun(nets, events) && GraftsAt(nets, events, i, arch) && i < j < |events|
    requires events[j].RunGraft? && events[j].arch == arch
    ensures nets[j + 1] == nets[j] && NewNodes(nets, events, j) == []
  {
    var e := events[i];
    RunOk(nets, events, i);
    assert Happens(nets[i], events[i], nets[i + 1]) && Happens(nets[j], events[j], nets[j + 1]);
    FlagRaised(e.limits, e.settings, nets[i], e.spent, arch, e.plan);
    FlagStaysUp(nets, events, i + 1, j, arch);
    FlagStops(events[j].limits, events[j].settings, nets[j], events[j].spent, arch, events[j].plan);
  }

  /** From the graft on, a node that was waiting for a coder does not become ready before every run and check node
      is terminal: no later event takes those dependencies away. */
  lemma HeldUntilDone(nets: seq<Net>, events: seq<Event>, i: nat, j: nat, arch: Id, w: Id)
    requires GraphRun(nets, events) && GraftsAt(nets, events, i, arch) && i < j < |nets|
    requires WaitsOnCoder(nets[i], arch, w) && IsReady(nets[j], w)
    ensures forall g :: g in NewNodes(nets, events, i) ==> Done(nets[j], g)
  {
    var e := events[i];
    RunOk(nets, events, i);
    assert Happens(nets[i], events[i], nets[i + 1]);
    WaitersHeld(e.limits, e.settings, nets[i], e.spent, arch, e.plan, w);
    forall g | g in NewNodes(nets, events, i) ensures Done(nets[j], g) {
      assert WaitsFor(nets[i + 1], w, g);
      WaitStays(nets, events, i + 1, j, w, g);
    }
  }

  /** A run node only ever appears after every coder has resolved. */
  lemma NewNodesMeanResolved(nets: seq<Net>, events: seq<Event>, i: nat)
    requires GraphRun(nets, events) && i < |events| && events[i].RunGraft? && NewNodes(nets, events, i) != []
    ensures GraftsAt(nets, events, i, events[i].arch)
    ensures AllResolved(nets[i], CoderChildren(nets[i], events[i].arch))
  {
    var e := events[i];
    RunOk(nets, events, i);
    OnlyWhenResolved(e.limits, e.settings, nets[i], e.spent, e.arch, e.plan);
    hide GraftRun, CoderChildren, AllResolved, NetOk, Happens;
  }

  /** The promise ends there: a node added after the graft that depends on a resolved coder is ready at once, with
      the run nodes still pending. */
  lemma LatecomerIsReady(net: Net, task: Task, coder: Id)
    requires NetOk(net) && coder in net.nodes && net.nodes[coder].state == Resolved
    ensures var net' := WithNode(net, NewInfo(task, [coder]));
      && Happens(net, Add(task, [coder]), net') && IsReady(net', NodeName(|net.order| + 1))
      && forall g :: g in net.nodes && net.nodes[g].state == Pending ==> !Done(net', g)
  {
    FreshName(net);
  }

  // ---- Keeping the graph acyclic ----

  /** What an event must respect. The late graft, pruning, skipping and state changes need nothing. */
  ghost predicate Respects(net: Net, e: Event) {
    match e
    case Add(task, deps) => forall d :: d in deps ==> d in net.nodes
    case WireUp(id, params, more) => forall d :: d in more ==> d in net.nodes && !Reaches(Waits(net), d, id)
    case GateOn(gate) => gate in net.nodes && forall x :: x in Gateable(net, gate) ==> !Reaches(Waits(net), gate, x)
    case WaitLateOn(parent, child, field) =>
      child in net.nodes && forall x :: x in LateReaders(net, parent, child, field) ==> !Reaches(Waits(net), child, x)
    case RedirectTo(gone, repl) =>
      forall n :: n in repl ==> n in net.nodes && LeadsToNone(net, gone, repl, n)
    case _ => true
  }

  /** No dependent is reached from the node along the edges a redirection leaves. */
  ghost predicate LeadsToNone(net: Net, gone: Id, repl: seq<Id>, n: Id) {
    forall w :: w in Dependents(net, gone, repl) ==> !Reaches(KeptWaits(net, gone, repl), n, w)
  }

  ghost predicate Sound(net: Net) {
    NetOk(net) && ClosedNet(net) && Acyclic(Waits(net))
  }

  lemma SameDeps(net: Net, net': Net)
    requires Sound(net) && NetOk(net') && net'.nodes.Keys == net.nodes.Keys
    requires forall id :: id in net.nodes ==> net'.nodes[id].deps == net.nodes[id].deps
    ensures Sound(net')
  {
    assert Waits(net') == Waits(net);
  }

  /** Edges that only lead to nodes of the graph keep it closed. */
  lemma StaysClosed(net: Net, net': Net, sources: set<Id>, targets: set<Id>)
    requires ClosedNet(net) && net'.nodes.Keys == net.nodes.Keys && targets <= net.nodes.Keys
    requires Waits(net') <= Waits(net) + Fan(sources, targets)
    ensures ClosedNet(net')
  {
    forall id, d | id in net'.nodes && d in net'.nodes[id].deps ensures d in net'.nodes {
      assert (id, d) in Waits(net');
    }
  }

  lemma WireSound(net: Net, id: Id, params: Val, more: seq<Id>)
    requires Sound(net) && id in net.nodes && forall d :: d in more ==> d in net.nodes && !Reaches(Waits(net), d, id)
    ensures Sound(WithInfo(net, id, Wire(net.nodes[id], params, net.nodes[id].deps + more)))
  {
    var net' := WithInfo(net, id, Wire(net.nodes[id], params, net.nodes[id].deps + more));
    InfoOk(net, id, Wire(net.nodes[id], params, net.nodes[id].deps + more));
    assert Waits(net') == Waits(net) + Fan({id}, IdSet(more));
    FanAcyclic(Waits(net), {id}, IdSet(more));
    StaysClosed(net, net', {id}, IdSet(more));
  }

  lemma GateSound(net: Net, gate: Id)
    requires Sound(net) && gate in net.nodes && forall x :: x in Gateable(net, gate) ==> !Reaches(Waits(net), gate, x)
    ensures Sound(Gated(net, gate))
  {
    UpdateOk(net, Gate(gate), net.nodes.Keys);
    GateAcyclicIff(net, gate);
    GatedWaits(net, gate);
    StaysClosed(net, Gated(net, gate), Gateable(net, gate), {gate});
  }

  lemma WaitLateSound(net: Net, parent: Id, child: Id, field: string)
    requires Sound(net) && child in net.nodes
    requires forall x :: x in LateReaders(net, parent, child, field) ==> !Reaches(Waits(net), child, x)
    ensures Sound(WaitedLate(net, parent, child, field))
  {
    UpdateOk(net, WaitLate(parent, child, field), net.nodes.Keys);
    WaitLateAcyclicIff(net, parent, child, field);
    WaitedLateWaits(net, parent, child, field);
    StaysClosed(net, WaitedLate(net, parent, child, field), LateReaders(net, parent, child, field), {child});
  }

  lemma RedirectSound(net: Net, gone: Id, repl: seq<Id>)
    requires Sound(net)
    requires forall n :: n in repl ==> n in net.nodes && LeadsToNone(net, gone, repl, n)
    ensures Sound(Redirected(net, gone, repl))
  {
    UpdateOk(net, Redirect(gone, repl), net.nodes.Keys);
    RedirectAcyclicIff(net, gone, repl);
    RedirectedWaits(net, gone, repl);
    StaysClosed(net, Redirected(net, gone, repl), Dependents(net, gone, repl), IdSet(repl));
  }

  /** One event keeps the graph closed and acyclic. */
  lemma EventSound(net: Net, e: Event, net': Net)
    requires Sound(net) && Respects(net, e) && Happens(net, e, net')
    ensures Sound(net')
  {
    hide Acyclic, NetOk, ClosedNet, GraftRun;
    EventOk(net, e, net');
    match e
    case Add(task, deps) => AddKeepsShape(net, NewInfo(task, deps));
    case WireUp(id, params, more) => WireSound(net, id, params, more);
    case GateOn(gate) => GateSound(net, gate);
    case WaitLateOn(parent, child, field) => WaitLateSound(net, parent, child, field);
    case RedirectTo(gone, repl) => RedirectSound(net, gone, repl);
    case RunGraft(arch, plan, limits, settings, spent) => GraftRunAcyclic(limits, settings, net, spent, arch, plan);
    case _ =>
      assert net'.nodes.Keys == net.nodes.Keys;
      SameDeps(net, net');
  }

  /** Every run whose events respect the graph they meet stays closed and acyclic from end to end, so at no point is
      it stuck: something pending and nothing running means something ready. */
  lemma {:induction false} RunStaysSound(nets: seq<Net>, events: seq<Event>, i: nat)
    requires GraphRun(nets, events) && Sound(nets[0]) && i < |nets|
    requires forall k :: 0 <= k < |events| ==> Respects(nets[k], events[k])
    ensures Sound(nets[i])
    ensures InState(nets[i], Pending) != {} && InState(nets[i], Running) == {} ==> ReadyIds(nets[i]) != []
  {
    hide Sound, Happens, Respects, ReadyIds;
    if i > 0 {
      RunStaysSound(nets, events, i - 1);
      EventSound(nets[i - 1], events[i - 1], nets[i]);
    }
    SoundNotStuck(nets[i]);
  }

  lemma SoundNotStuck(net: Net)
    requires Sound(net)
    ensures InState(net, Pending) != {} && InState(net, Running) == {} ==> ReadyIds(net) != []
  {
    if InState(net, Pending) != {} && InState(net, Running) == {} { NoDeadlock(net); }
  }
}
