/** What the late graft guarantees of one call: when it happens, what it touches, and the graph's shape. */
module LateGraftLaws {
  import opened Digraph
  import opened Nets
  import opened Budgets
  import opened Scheduling
  import opened LateGraft
  import Rewiring

  // ---- What has been grafted so far ----

  /** The k-th grafted node: pending tool work of this architect that waits for earlier grafted nodes only. */
  ghost predicate NewWork(p: Progress, arch: Id, k: nat)
    requires k < |p.grafted|
  {
    var id := p.grafted[k];
    && id in p.net.nodes
    && p.net.nodes[id].state == Pending && !p.net.nodes[id].runGrafted
    && p.net.nodes[id].task.kind == Tool && p.net.nodes[id].task.spawnedBy == arch
    && forall d :: d in p.net.nodes[id].deps ==> d in p.grafted[..k]
  }

  ghost predicate Grown(net: Net, arch: Id, p: Progress) {
    && NetOk(net) && NetOk(p.net) && arch in net.nodes
    && p.net.order == net.order + p.grafted && p.net.round == net.round
    && OldKept(net, arch, p)
    && forall k :: 0 <= k < |p.grafted| ==> NewWork(p, arch, k)
  }

  /** Nothing that was there changes, but for the architect's list of children. */
  ghost predicate OldKept(net: Net, arch: Id, p: Progress) {
    forall id :: id in net.nodes ==>
      && id in p.net.nodes
      && p.net.nodes[id] == if id == arch then net.nodes[id].(children := net.nodes[id].children + p.grafted) else net.nodes[id]
  }

  /** Either nothing was done, not even a charge made, or some node was grafted. */
  ghost predicate Advances(p: Progress, q: Progress) {
    q == p || p.grafted < q.grafted
  }

  /** Later grafting leaves the earlier grafted nodes alone. */
  ghost predicate Keeps(p: Progress, q: Progress) {
    && p.grafted <= q.grafted
    && forall id :: id in p.grafted ==> id in p.net.nodes && id in q.net.nodes && q.net.nodes[id] == p.net.nodes[id]
  }

  /** One more node: fresh, last, and its parent's youngest child; nothing else moves. */
  ghost predicate OneMore(p: Progress, arch: Id, info: Info, q: Progress)
    requires arch in p.net.nodes
  {
    var id := NodeName(|p.net.order| + 1);
    && NetOk(q.net) && id !in p.net.nodes && q.grafted == p.grafted + [id]
    && q.net.order == p.net.order + [id] && q.net.round == p.net.round
    && q.net.nodes.Keys == p.net.nodes.Keys + {id}
    && q.net.nodes[id] == info.(round := p.net.round)
    && (forall x :: x in p.net.nodes && x != arch ==> q.net.nodes[x] == p.net.nodes[x])
    && q.net.nodes[arch] == p.net.nodes[arch].(children := p.net.nodes[arch].children + [id])
  }

  lemma AddUnderIs(p: Progress, arch: Id, task: Task, deps: seq<Id>)
    requires NetOk(p.net) && arch in p.net.nodes
    ensures OneMore(p, arch, NewInfo(task, deps), AddUnder(p, arch, task, deps))
  {
    AddUnderOk(p, arch, task, deps);
    FreshName(p.net);
    hide NetOk, NodeName;
  }

  lemma AddUnderOk(p: Progress, arch: Id, task: Task, deps: seq<Id>)
    requires NetOk(p.net)
    ensures NetOk(AddUnder(p, arch, task, deps).net)
  {
    var more := WithNode(p.net, NewInfo(task, deps));
    WithNodeOk(p.net, NewInfo(task, deps));
    ChildOk(more, arch, NodeName(|p.net.order| + 1));
    hide NetOk, WithNode, WithChild, NodeName;
  }

  lemma ChildOk(net: Net, parent: Id, child: Id)
    requires NetOk(net)
    ensures NetOk(WithChild(net, parent, child))
  {}

  /** A grafted node is none the run already had, and no other grafted one. */
  lemma InNet(net: Net, arch: Id, p: Progress, k: nat)
    requires Grown(net, arch, p) && k < |p.grafted|
    ensures p.grafted[k] !in net.nodes && p.grafted[k] in p.net.nodes
    ensures forall j :: 0 <= j < k ==> p.grafted[j] != p.grafted[k]
  {
    NewName(net, p.net, p.grafted, k);
    forall j | 0 <= j < k ensures p.grafted[j] != p.grafted[k] {
      assert p.net.order[|net.order| + j] == p.grafted[j] && p.net.order[|net.order| + k] == p.grafted[k];
      OrderDistinct(p.net, |net.order| + j, |net.order| + k);
    }
  }

  lemma NewName(net: Net, net': Net, more: seq<Id>, k: nat)
    requires NetOk(net) && NetOk(net') && net'.order == net.order + more && k < |more|
    ensures more[k] !in net.nodes && more[k] in net'.nodes
  {
    assert net'.order[|net.order| + k] == more[k];
    if more[k] in net.nodes {
      var m :| 0 <= m < |net.order| && net.order[m] == more[k];
      OrderDistinct(net', m, |net.order| + k);
    }
  }

  lemma GraftedAreNew(net: Net, arch: Id, p: Progress)
    requires Grown(net, arch, p)
    ensures forall id :: id in p.grafted ==> id in p.net.nodes && id !in net.nodes
    ensures forall id :: id in p.net.nodes && id !in net.nodes ==> id in p.grafted
  {
    forall id | id in p.grafted ensures id in p.net.nodes && id !in net.nodes {
      var k :| 0 <= k < |p.grafted| && p.grafted[k] == id;
      InNet(net, arch, p, k);
    }
  }

  lemma AddUnderKeeps(net: Net, arch: Id, p: Progress, task: Task, deps: seq<Id>)
    requires Grown(net, arch, p)
    ensures Keeps(p, AddUnder(p, arch, task, deps))
  {
    GraftedAreNew(net, arch, p);
    assert arch in net.nodes && arch in p.net.nodes && NetOk(p.net);
    hide Grown, AddUnder, NetOk;
    AddUnderIs(p, arch, task, deps);
  }

  lemma AddUnderGrows(net: Net, arch: Id, p: Progress, task: Task, deps: seq<Id>)
    requires Grown(net, arch, p) && task.kind == Tool && task.spawnedBy == arch
    requires forall d :: d in deps ==> d in p.grafted
    ensures Grown(net, arch, AddUnder(p, arch, task, deps)) && Advances(p, AddUnder(p, arch, task, deps))
  {
    hide AddUnder, NetOk;
    var q := AddUnder(p, arch, task, deps);
    AddUnderIs(p, arch, task, deps);
    GraftedAreNew(net, arch, p);
    forall k | 0 <= k < |q.grafted| ensures NewWork(q, arch, k) {
      if k < |p.grafted| {
        assert NewWork(p, arch, k) && q.grafted[k] == p.grafted[k] && q.grafted[..k] == p.grafted[..k];
        assert p.grafted[k] in p.grafted;
      } else {
        assert q.grafted[..k] == p.grafted;
      }
    }
    OldStillKept(net, arch, p, NewInfo(task, deps), q);
    OrderGrows(net, arch, p, NewInfo(task, deps), q);
    hide OldKept, NewWork, OneMore;
  }

  lemma OrderGrows(net: Net, arch: Id, p: Progress, info: Info, q: Progress)
    requires arch in p.net.nodes && OneMore(p, arch, info, q) && p.net.order == net.order + p.grafted
    ensures NetOk(q.net) && q.net.round == p.net.round
    ensures q.net.order == net.order + q.grafted && Advances(p, q)
  {}

  lemma OldStillKept(net: Net, arch: Id, p: Progress, info: Info, q: Progress)
    requires arch in net.nodes && arch in p.net.nodes && OldKept(net, arch, p) && OneMore(p, arch, info, q)
    ensures OldKept(net, arch, q)
  {
    hide NetOk;
    var id := NodeName(|p.net.order| + 1);
    assert (net.nodes[arch].children + p.grafted) + [id] == net.nodes[arch].children + (p.grafted + [id]);
  }

  lemma TryAddGrows(l: Limits, net: Net, arch: Id, p: Progress, task: Task)
    requires Grown(net, arch, p) && task.kind == Tool && task.spawnedBy == arch
    ensures Grown(net, arch, TryAdd(l, p, arch, task)) && Advances(p, TryAdd(l, p, arch, task))
  {
    hide Grown, AddUnder;
    if Affords(l, p, task.tool) { AddUnderGrows(net, arch, p, task, []); }
  }

  lemma CoderGrows(l: Limits, s: Settings, net: Net, arch: Id, p: Progress, child: Id)
    requires Grown(net, arch, p)
    ensures var q := GraftService(l, s, GraftExec(l, s, p, arch, child), arch, child);
      Grown(net, arch, q) && Advances(p, q)
  {
    hide Grown, TryAdd, ExecCommand, ServiceOf;
    if child in p.net.nodes {
      TryAddGrows(l, net, arch, p, ExecTask(s, arch, p.net.nodes[child].task.tag, ExecCommand(p.net.nodes[child].task.params)));
    }
    var q := GraftExec(l, s, p, arch, child);
    if child in q.net.nodes {
      var svc := ServiceOf(q.net.nodes[child].task.params);
      if svc.Entry? { TryAddGrows(l, net, arch, q, CoderService(s, arch, q.net.nodes[child].task.tag, svc.value)); }
    }
  }

  lemma {:induction false} CodersGrow(l: Limits, s: Settings, net: Net, arch: Id, p: Progress, children: seq<Id>)
    requires Grown(net, arch, p)
    ensures Grown(net, arch, GraftCoders(l, s, p, arch, children)) && Advances(p, GraftCoders(l, s, p, arch, children))
    decreases children
  {
    hide Grown, GraftService, GraftExec;
    if children != [] {
      CoderGrows(l, s, net, arch, p, children[0]);
      var q := GraftService(l, s, GraftExec(l, s, p, arch, children[0]), arch, children[0]);
      CodersGrow(l, s, net, arch, q, children[1..]);
    }
  }

  lemma {:induction false} ServicesGrow(l: Limits, net: Net, arch: Id, p: Progress, services: seq<Service>, already: seq<Id>)
    requires Grown(net, arch, p)
    ensures var q := GraftServices(l, p, arch, services, already); Grown(net, arch, q) && Advances(p, q)
    decreases services
  {
    hide Grown, AddUnder, Affords, AlreadyServed;
    if services != [] {
      if services[0].command == "" || AlreadyServed(p.net, already, ServiceName(services[0])) {
        ServicesGrow(l, net, arch, p, services[1..], already);
      } else if Affords(l, p, "service") {
        AddUnderGrows(net, arch, p, TopService(arch, services[0]), []);
        ServicesGrow(l, net, arch, AddUnder(p, arch, TopService(arch, services[0]), []), services[1..], already);
      }
    }
  }

  ghost predicate ChecksFrom(p: Progress, q: Progress, prior: seq<Id>) {
    && p.grafted <= q.grafted
    && forall k :: |p.grafted| <= k < |q.grafted| ==> q.grafted[k] in q.net.nodes && q.net.nodes[q.grafted[k]].deps == prior
  }

  lemma {:induction false} ChecksGrow(l: Limits, s: Settings, net: Net, arch: Id, p: Progress, checks: seq<Check>, prior: seq<Id>,
                                      made: nat)
    requires Grown(net, arch, p) && prior <= p.grafted
    ensures Grown(net, arch, GraftChecks(l, s, p, arch, checks, prior, made))
    ensures ChecksFrom(p, GraftChecks(l, s, p, arch, checks, prior, made), prior)
    ensures Keeps(p, GraftChecks(l, s, p, arch, checks, prior, made))
    ensures Advances(p, GraftChecks(l, s, p, arch, checks, prior, made))
    decreases checks
  {
    hide Grown, AddUnder, Affords, ChecksFrom, Keeps;
    if checks == [] || (checks[0].command != "" && !Affords(l, p, "bash")) {
      NoChecks(net, arch, p, prior);
    } else if checks[0].command == "" {
      ChecksGrow(l, s, net, arch, p, checks[1..], prior, made);
    } else {
      var task := CheckTask(s, arch, checks[0], made);
      var q := AddUnder(p, arch, task, prior);
      AddUnderGrows(net, arch, p, task, prior);
      AddUnderKeeps(net, arch, p, task, prior);
      ChecksGrow(l, s, net, arch, q, checks[1..], prior, made + 1);
      ArchThere(net, arch, p);
      OneCheck(net, arch, p, task, prior, GraftChecks(l, s, q, arch, checks[1..], prior, made + 1));
    }
  }

  lemma ArchThere(net: Net, arch: Id, p: Progress)
    requires Grown(net, arch, p)
    ensures arch in p.net.nodes
  {}

  lemma NoChecks(net: Net, arch: Id, p: Progress, prior: seq<Id>)
    requires Grown(net, arch, p)
    ensures ChecksFrom(p, p, prior) && Keeps(p, p)
  {
    forall id | id in p.grafted ensures id in p.net.nodes {
      var k :| 0 <= k < |p.grafted| && p.grafted[k] == id;
      assert NewWork(p, arch, k);
    }
  }

  lemma OneCheck(net: Net, arch: Id, p: Progress, task: Task, prior: seq<Id>, r: Progress)
    requires Grown(net, arch, p) && arch in p.net.nodes
    requires var q := AddUnder(p, arch, task, prior); Keeps(p, q) && ChecksFrom(q, r, prior) && Keeps(q, r)
    ensures ChecksFrom(p, r, prior) && Keeps(p, r)
  {
    hide NetOk, AddUnder;
    var q := AddUnder(p, arch, task, prior);
    AddUnderIs(p, arch, task, prior);
    var id := NodeName(|p.net.order| + 1);
    assert q.grafted[|p.grafted|] == id && id in q.grafted;
    assert q.net.nodes[id].deps == prior;
    forall x | x in p.grafted ensures x in q.grafted {}
    hide Grown, OneMore;
  }

  // ---- The whole graft ----

  lemma NothingGrown(net: Net, arch: Id, spent: Counts)
    requires NetOk(net) && arch in net.nodes
    ensures Grown(net, arch, Progress(net, spent, []))
  {}

  /** Everything before the waiters are moved: the run nodes, then the checks, each waiting for every run node. */
  lemma AllGrows(l: Limits, s: Settings, net: Net, spent: Counts, arch: Id, children: seq<Id>, plan: Blueprint)
    requires NetOk(net) && arch in net.nodes && plan.Blueprint?
    ensures var run := RunPart(l, s, Progress(net, spent, []), arch, children, plan.services);
      var all := GraftChecks(l, s, run, arch, plan.checks, run.grafted, 0);
      Grown(net, arch, run) && Grown(net, arch, all) && ChecksFrom(run, all, run.grafted)
        && Advances(Progress(net, spent, []), all)
  {
    hide Grown, ChecksFrom, Keeps, GraftCoders, GraftServices, GraftChecks;
    var p := Progress(net, spent, []);
    NothingGrown(net, arch, spent);
    CodersGrow(l, s, net, arch, p, children);
    var tasks := GraftCoders(l, s, p, arch, children);
    ServicesGrow(l, net, arch, tasks, plan.services, tasks.grafted);
    var run := GraftServices(l, tasks, arch, plan.services, tasks.grafted);
    ChecksGrow(l, s, net, arch, run, plan.checks, run.grafted, 0);
  }

  /** What a graft that creates nodes comes to: `base` is the graph with the flag set, `all` the same graph with the
      new nodes in it, and whoever waited for a coder now also waits for every one of them. */
  ghost predicate ComesTo(base: Net, arch: Id, coders: seq<Id>, all: Progress, r: Progress) {
    && Grown(base, arch, all) && r.grafted == all.grafted && r.spent == all.spent
    && r.net == if all.grafted == [] then all.net else AlsoWaited(all.net, IdSet(coders), all.grafted)
  }

  ghost function Before(l: Limits, s: Settings, net: Net, spent: Counts, arch: Id, plan: Blueprint): Progress
    requires arch in net.nodes && plan.Blueprint?
  {
    var run := RunPart(l, s, Progress(WithRunGrafted(net, arch), spent, []), arch, CoderChildren(net, arch), plan.services);
    GraftChecks(l, s, run, arch, plan.checks, run.grafted, 0)
  }

  predicate Due(net: Net, arch: Id, plan: Blueprint) {
    && arch in net.nodes && !net.nodes[arch].runGrafted && plan.Blueprint?
    && CoderChildren(net, arch) != [] && AllResolved(net, CoderChildren(net, arch))
  }

  lemma WhenDue(l: Limits, s: Settings, net: Net, spent: Counts, arch: Id, plan: Blueprint)
    requires Due(net, arch, plan)
    ensures GraftRun(l, s, net, spent, arch, plan)
      == GraftAll(l, s, Progress(WithRunGrafted(net, arch), spent, []), arch, CoderChildren(net, arch), plan)
  {
    assert AllTerminal(net, CoderChildren(net, arch));
    hide GraftAll, CoderChildren;
  }

  lemma WhenNotDue(l: Limits, s: Settings, net: Net, spent: Counts, arch: Id, plan: Blueprint)
    requires !Due(net, arch, plan)
    ensures var r := GraftRun(l, s, net, spent, arch, plan);
      && r.grafted == [] && r.spent == spent
      && (r.net == net || (arch in net.nodes && r.net == WithRunGrafted(net, arch)))
  {
    hide GraftAll, CoderChildren, AllTerminal, WithRunGrafted;
  }

  lemma BeforeGrown(l: Limits, s: Settings, net: Net, spent: Counts, arch: Id, plan: Blueprint)
    requires NetOk(net) && arch in net.nodes && plan.Blueprint?
    ensures var base, all := WithRunGrafted(net, arch), Before(l, s, net, spent, arch, plan);
      NetOk(base) && Grown(base, arch, all) && Advances(Progress(base, spent, []), all)
  {
    InfoOk(net, arch, net.nodes[arch].(runGrafted := true));
    hide NetOk, Grown, RunPart, GraftChecks, Advances;
    AllGrows(l, s, WithRunGrafted(net, arch), spent, arch, CoderChildren(net, arch), plan);
  }

  /** The run nodes are created only when every coder has resolved, and only by a call that finds the architect's
      flag down and leaves it up; every other call adds no node, rewires none and charges nothing. */
  lemma OnlyWhenResolved(l: Limits, s: Settings, net: Net, spent: Counts, arch: Id, plan: Blueprint)
    requires NetOk(net)
    ensures var r := GraftRun(l, s, net, spent, arch, plan);
      if Due(net, arch, plan) then
        ComesTo(WithRunGrafted(net, arch), arch, CoderChildren(net, arch), Before(l, s, net, spent, arch, plan), r)
      else r.grafted == []
    ensures var r := GraftRun(l, s, net, spent, arch, plan);
      r.grafted == [] ==> r.spent == spent && (r.net == net || (arch in net.nodes && r.net == WithRunGrafted(net, arch)))
  {
    hide GraftRun, Grown, NetOk, AllResolved, GraftChecks, RunPart, AlsoWaited, CoderChildren, WithRunGrafted;
    if Due(net, arch, plan) {
      WhenDue(l, s, net, spent, arch, plan);
      BeforeGrown(l, s, net, spent, arch, plan);
    } else {
      WhenNotDue(l, s, net, spent, arch, plan);
    }
  }

  /** A flag that is up stays up, and stops every later call. */
  lemma FlagStops(l: Limits, s: Settings, net: Net, spent: Counts, arch: Id, plan: Blueprint)
    requires arch in net.nodes && net.nodes[arch].runGrafted
    ensures GraftRun(l, s, net, spent, arch, plan) == Progress(net, spent, [])
  {}

  lemma FlagRaised(l: Limits, s: Settings, net: Net, spent: Counts, arch: Id, plan: Blueprint)
    requires NetOk(net) && Due(net, arch, plan)
    ensures var r := GraftRun(l, s, net, spent, arch, plan); arch in r.net.nodes && r.net.nodes[arch].runGrafted
  {
    hide GraftRun, Grown, NetOk, Before, CoderChildren, ComesTo;
    OnlyWhenResolved(l, s, net, spent, arch, plan);
    FlagSurvives(WithRunGrafted(net, arch), arch, CoderChildren(net, arch), Before(l, s, net, spent, arch, plan),
                 GraftRun(l, s, net, spent, arch, plan));
  }

  lemma FlagSurvives(base: Net, arch: Id, coders: seq<Id>, all: Progress, r: Progress)
    requires ComesTo(base, arch, coders, all, r) && arch in base.nodes && base.nodes[arch].runGrafted
    ensures arch in r.net.nodes && r.net.nodes[arch].runGrafted
  {
    assert arch in all.net.nodes && all.net.nodes[arch].runGrafted;
    hide Grown, NetOk;
  }

  ghost predicate CodersFinished(net: Net, arch: Id) {
    && CoderChildren(net, arch) != []
    && forall c :: c in CoderChildren(net, arch) ==> c in net.nodes && Terminal(net.nodes[c].state)
  }

  /** A call raises the flag exactly when the architect has coders and all of them have finished, well or badly. */
  lemma FlagRaisedIff(l: Limits, s: Settings, net: Net, spent: Counts, arch: Id, plan: Blueprint)
    requires NetOk(net) && arch in net.nodes
    ensures var r := GraftRun(l, s, net, spent, arch, plan);
      && arch in r.net.nodes
      && (r.net.nodes[arch].runGrafted <==> net.nodes[arch].runGrafted || CodersFinished(net, arch))
  {
    var coders := CoderChildren(net, arch);
    if Due(net, arch, plan) {
      assert forall c :: c in coders ==> c in net.nodes && Terminal(net.nodes[c].state);
      hide GraftRun, NetOk, CoderChildren;
      FlagRaised(l, s, net, spent, arch, plan);
    } else {
      hide GraftAll, CoderChildren;
    }
  }

  // ---- The shape of the graph ----

  ghost function NewEdges(all: Progress): set<(Id, Id)> {
    set e | e in Waits(all.net) && e.0 in all.grafted
  }

  lemma NewEdgesFall(base: Net, arch: Id, all: Progress, x: Id, y: Id)
    requires Grown(base, arch, all) && (x, y) in NewEdges(all)
    ensures y in all.grafted && PlaceOf(all.grafted, y) < PlaceOf(all.grafted, x)
  {
    var k := PlaceOf(all.grafted, x);
    assert NewWork(all, arch, k);
    var j :| 0 <= j < k && all.grafted[j] == y;
    var j' := PlaceOf(all.grafted, y);
    if j < j' { InNet(base, arch, all, j'); } else if j' < j { InNet(base, arch, all, j); }
  }

  lemma SplitEdges(base: Net, arch: Id, all: Progress)
    requires Grown(base, arch, all)
    ensures Waits(all.net) == Waits(base) + NewEdges(all)
  {
    GraftedAreNew(base, arch, all);
    forall x, y ensures (x, y) in Waits(all.net) <==> (x, y) in Waits(base) + NewEdges(all) {}
  }

  /** The new nodes lean only on each other, so they close no cycle. */
  lemma NewNodesAcyclic(base: Net, arch: Id, all: Progress)
    requires Grown(base, arch, all) && ClosedNet(base) && Acyclic(Waits(base))
    ensures ClosedNet(all.net) && Acyclic(Waits(all.net))
    ensures forall x, y :: (x, y) in Waits(all.net) && x in all.grafted ==> y in all.grafted
  {
    GraftedAreNew(base, arch, all);
    SplitEdges(base, arch, all);
    var top := IdSet(all.grafted);
    forall x, y | (x, y) in NewEdges(all) ensures y in all.grafted && PlaceOf(all.grafted, y) < PlaceOf(all.grafted, x) {
      NewEdgesFall(base, arch, all, x, y);
    }
    RankedAcyclic(Within(NewEdges(all), top), (x: Id) => PlaceOf(all.grafted, x));
    LayerAcyclic(Waits(base), NewEdges(all), top);
    forall id, d | id in all.net.nodes && d in all.net.nodes[id].deps ensures d in all.net.nodes {
      assert (id, d) in Waits(all.net);
    }
  }

  /** The late graft never makes a cycle: no condition on what waits for what is needed. */
  lemma GraftRunAcyclic(l: Limits, s: Settings, net: Net, spent: Counts, arch: Id, plan: Blueprint)
    requires NetOk(net) && ClosedNet(net) && Acyclic(Waits(net))
    ensures var r := GraftRun(l, s, net, spent, arch, plan);
      NetOk(r.net) && ClosedNet(r.net) && Acyclic(Waits(r.net))
  {
    OnlyWhenResolved(l, s, net, spent, arch, plan);
    var r := GraftRun(l, s, net, spent, arch, plan);
    if arch in net.nodes { FlagKeepsShape(net, arch); }
    if Due(net, arch, plan) {
      WaitingAcyclic(WithRunGrafted(net, arch), arch, CoderChildren(net, arch), Before(l, s, net, spent, arch, plan), r);
    }
  }

  lemma FlagKeepsShape(net: Net, arch: Id)
    requires NetOk(net) && arch in net.nodes
    ensures NetOk(WithRunGrafted(net, arch)) && Waits(WithRunGrafted(net, arch)) == Waits(net)
    ensures ClosedNet(net) ==> ClosedNet(WithRunGrafted(net, arch))
  {
    InfoOk(net, arch, net.nodes[arch].(runGrafted := true));
    assert WithRunGrafted(net, arch).nodes.Keys == net.nodes.Keys;
  }

  lemma WaitingAcyclic(base: Net, arch: Id, coders: seq<Id>, all: Progress, r: Progress)
    requires ComesTo(base, arch, coders, all, r) && ClosedNet(base) && Acyclic(Waits(base))
    ensures NetOk(r.net) && ClosedNet(r.net) && Acyclic(Waits(r.net))
  {
    NewNodesAcyclic(base, arch, all);
    GraftedAreNew(base, arch, all);
    var after, ids := IdSet(coders), all.grafted;
    forall w, n | w in Rewiring.Waiters(all.net, after, ids) && n in ids ensures !Reaches(Waits(all.net), n, w) {
      NeverOutside(Waits(all.net), ids, n, w);
    }
    Rewiring.AlsoWaitAcyclicIff(all.net, after, ids);
    MovingKeepsClosed(all.net, after, ids);
    UpdateOk(all.net, AlsoWait(after, ids), all.net.nodes.Keys);
    hide Acyclic, NetOk, ClosedNet, Grown;
  }

  lemma NeverOutside(e: set<(Id, Id)>, ids: seq<Id>, n: Id, w: Id)
    requires (forall x, y :: (x, y) in e && x in ids ==> y in ids) && n in ids && w !in ids
    ensures !Reaches(e, n, w)
  {
    if Reaches(e, n, w) {
      var p :| Walk(e, n, w, p);
      StaysIn(e, IdSet(ids), n, w, p);
    }
  }

  lemma MovingKeepsClosed(net: Net, after: set<Id>, ids: seq<Id>)
    requires ClosedNet(net) && forall n :: n in ids ==> n in net.nodes
    ensures ClosedNet(AlsoWaited(net, after, ids))
  {
    Rewiring.AlsoWaitedWaits(net, after, ids);
    var net' := AlsoWaited(net, after, ids);
    forall id, d | id in net'.nodes && d in net'.nodes[id].deps ensures d in net'.nodes {
      assert (id, d) in Waits(net');
    }
  }

  // ---- Who waits for the new nodes ----

  /** A pending node that waited for a coder. */
  predicate WaitsOnCoder(net: Net, arch: Id, w: Id) {
    IsPending(net, w) && WaitsOnAny(net.nodes[w], IdSet(CoderChildren(net, arch)))
  }

  /** Whoever waited for a coder now waits for every new node as well; nobody loses a dependency or changes state. */
  ghost predicate Held(net: Net, net': Net, grafted: seq<Id>, waits: bool, w: Id)
    requires w in net.nodes
  {
    && w in net'.nodes && net'.nodes[w].state == net.nodes[w].state && net'.nodes[w].task == net.nodes[w].task
    && net.nodes[w].deps <= net'.nodes[w].deps
    && if waits then forall g :: g in grafted ==> g in net'.nodes[w].deps else net'.nodes[w].deps == net.nodes[w].deps
  }

  /** The new nodes: pending tool work that was not there before. */
  ghost predicate NewTools(net: Net, net': Net, grafted: seq<Id>) {
    forall g :: g in grafted ==>
      g in net'.nodes && g !in net.nodes && net'.nodes[g].task.kind == Tool && net'.nodes[g].state == Pending
  }

  lemma OutcomeHolds(base: Net, arch: Id, coders: seq<Id>, all: Progress, r: Progress, w: Id)
    requires ComesTo(base, arch, coders, all, r) && w in base.nodes
    ensures Held(base, r.net, r.grafted, IsPending(base, w) && WaitsOnAny(base.nodes[w], IdSet(coders)), w)
  {
    GraftedAreNew(base, arch, all);
    assert w in all.net.nodes && all.net.nodes[w].deps == base.nodes[w].deps && w !in all.grafted;
    hide Grown, NetOk;
  }

  lemma OutcomeAdds(base: Net, arch: Id, coders: seq<Id>, all: Progress, r: Progress)
    requires ComesTo(base, arch, coders, all, r)
    ensures NewTools(base, r.net, r.grafted)
  {
    GraftedAreNew(base, arch, all);
    forall g | g in r.grafted
      ensures g in r.net.nodes && g !in base.nodes && r.net.nodes[g].task.kind == Tool && r.net.nodes[g].state == Pending
    {
      assert NewWork(all, arch, PlaceOf(all.grafted, g));
    }
  }

  lemma WaitersHeld(l: Limits, s: Settings, net: Net, spent: Counts, arch: Id, plan: Blueprint, w: Id)
    requires NetOk(net) && Due(net, arch, plan) && w in net.nodes
    ensures var r := GraftRun(l, s, net, spent, arch, plan);
      Held(net, r.net, r.grafted, WaitsOnCoder(net, arch, w), w) && NewTools(net, r.net, r.grafted)
  {
    OnlyWhenResolved(l, s, net, spent, arch, plan);
    ArchThereWhenDue(net, arch, plan);
    var r, base, all := GraftRun(l, s, net, spent, arch, plan), WithRunGrafted(net, arch), Before(l, s, net, spent, arch, plan);
    var coders := CoderChildren(net, arch);
    hide GraftRun, Before, NetOk, CoderChildren, ComesTo, Held, NewTools;
    assert w in base.nodes;
    OutcomeHolds(base, arch, coders, all, r, w);
    OutcomeAdds(base, arch, coders, all, r);
    FlagAside(net, arch, r, IdSet(coders), w);
  }

  lemma ArchThereWhenDue(net: Net, arch: Id, plan: Blueprint)
    requires Due(net, arch, plan)
    ensures arch in net.nodes
  {}

  /** Raising the flag changes nothing these facts speak of. */
  lemma FlagAside(net: Net, arch: Id, r: Progress, coders: set<Id>, w: Id)
    requires arch in net.nodes && w in net.nodes
    requires var base := WithRunGrafted(net, arch);
      Held(base, r.net, r.grafted, IsPending(base, w) && WaitsOnAny(base.nodes[w], coders), w) && NewTools(base, r.net, r.grafted)
    ensures Held(net, r.net, r.grafted, IsPending(net, w) && WaitsOnAny(net.nodes[w], coders), w)
    ensures NewTools(net, r.net, r.grafted)
  {}

  lemma ChecksInOutcome(base: Net, arch: Id, coders: seq<Id>, run: Progress, all: Progress, r: Progress, c: Id)
    requires ComesTo(base, arch, coders, all, r) && ChecksFrom(run, all, run.grafted)
    requires c in r.grafted && c !in run.grafted
    ensures c in r.net.nodes && r.net.nodes[c].deps == run.grafted
  {
    var k := PlaceOf(all.grafted, c);
    assert forall j :: 0 <= j < |run.grafted| ==> run.grafted[j] == all.grafted[j];
    assert all.grafted[k] in all.net.nodes && all.net.nodes[c].deps == run.grafted;
    hide Grown, ChecksFrom;
  }

  /** Every check waits for all that runs: each grafted node is a run node or waits for every run node. */
  lemma ChecksLast(l: Limits, s: Settings, net: Net, spent: Counts, arch: Id, plan: Blueprint, c: Id)
    requires NetOk(net) && Due(net, arch, plan)
    requires c in GraftRun(l, s, net, spent, arch, plan).grafted
    ensures var run := RunPart(l, s, Progress(WithRunGrafted(net, arch), spent, []), arch, CoderChildren(net, arch), plan.services);
      var r := GraftRun(l, s, net, spent, arch, plan);
      && run.grafted <= r.grafted && c in r.net.nodes
      && (c in run.grafted || r.net.nodes[c].deps == run.grafted)
  {
    OnlyWhenResolved(l, s, net, spent, arch, plan);
    ArchThereWhenDue(net, arch, plan);
    WaitersHeld(l, s, net, spent, arch, plan, arch);
    InfoOk(net, arch, net.nodes[arch].(runGrafted := true));
    var base, coders := WithRunGrafted(net, arch), CoderChildren(net, arch);
    hide GraftRun, RunPart, GraftChecks, NetOk, Grown, CoderChildren, ComesTo;
    AllGrows(l, s, base, spent, arch, coders, plan);
    var run := RunPart(l, s, Progress(base, spent, []), arch, coders, plan.services);
    var all, r := Before(l, s, net, spent, arch, plan), GraftRun(l, s, net, spent, arch, plan);
    SameGrafted(base, arch, coders, all, r);
    if c !in run.grafted { ChecksInOutcome(base, arch, coders, run, all, r, c); }
  }

  lemma SameGrafted(base: Net, arch: Id, coders: seq<Id>, all: Progress, r: Progress)
    requires ComesTo(base, arch, coders, all, r)
    ensures r.grafted == all.grafted
  {}
}
