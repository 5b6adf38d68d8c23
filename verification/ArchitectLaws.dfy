/** What grafting an architect's plan guarantees: no cycle under any condition, and whoever waited for the architect
    waits for everything grafted. */
module ArchitectLaws {
  import opened Digraph
  import opened Nets
  import opened Budgets
  import opened Scheduling
  import opened LateGraft
  import opened ArchitectGraft
  import opened LateGraftLaws
  import Rewiring
  import TaskDeps

  // ---- New nodes that wait for the given old ones and for each other only ----

  /** The k-th new node: pending, behind earlier new nodes and some of the roots. */
  ghost predicate Job(p: Progress, roots: set<Id>, k: nat)
    requires k < |p.grafted|
  {
    var id := p.grafted[k];
    && id in p.net.nodes && p.net.nodes[id].state == Pending
    && forall d :: d in p.net.nodes[id].deps ==> d in roots || d in p.grafted[..k]
  }

  ghost predicate Chained(net: Net, roots: set<Id>, arch: Id, p: Progress) {
    && NetOk(net) && NetOk(p.net) && arch in net.nodes && roots <= net.nodes.Keys
    && p.net.order == net.order + p.grafted
    && OldKept(net, arch, p)
    && forall k :: 0 <= k < |p.grafted| ==> Job(p, roots, k)
  }

  lemma NewOnes(net: Net, roots: set<Id>, arch: Id, p: Progress)
    requires Chained(net, roots, arch, p)
    ensures forall id :: id in p.grafted ==> id in p.net.nodes && id !in net.nodes
    ensures forall id :: id in p.net.nodes && id !in net.nodes ==> id in p.grafted
    ensures forall i, j :: 0 <= i < j < |p.grafted| ==> p.grafted[i] != p.grafted[j]
  {
    hide OldKept, Job, NetOk;
    forall k | 0 <= k < |p.grafted| ensures p.grafted[k] in p.net.nodes && p.grafted[k] !in net.nodes {
      NewName(net, p.net, p.grafted, k);
    }
    forall i, j | 0 <= i < j < |p.grafted| ensures p.grafted[i] != p.grafted[j] {
      OrderDistinct(p.net, |net.order| + i, |net.order| + j);
      assert p.net.order[|net.order| + i] == p.grafted[i] && p.net.order[|net.order| + j] == p.grafted[j];
    }
    NothingElse(net, p);
  }

  lemma NothingElse(net: Net, p: Progress)
    requires NetOk(net) && NetOk(p.net) && p.net.order == net.order + p.grafted
    ensures forall id :: id in p.net.nodes && id !in net.nodes ==> id in p.grafted
  {}

  lemma AddChained(net: Net, roots: set<Id>, arch: Id, p: Progress, task: Task, deps: seq<Id>)
    requires Chained(net, roots, arch, p) && forall d :: d in deps ==> d in roots || d in p.grafted
    ensures Chained(net, roots, arch, AddUnder(p, arch, task, deps))
  {
    var q := AddUnder(p, arch, task, deps);
    NewOnes(net, roots, arch, p);
    hide AddUnder, NetOk;
    AddUnderIs(p, arch, task, deps);
    OldStillKept(net, arch, p, NewInfo(task, deps), q);
    OrderGrows(net, arch, p, NewInfo(task, deps), q);
    hide OldKept;
    forall k | 0 <= k < |q.grafted| ensures Job(q, roots, k) { NextJob(roots, arch, p, NewInfo(task, deps), q, k); }
  }

  lemma NextJob(roots: set<Id>, arch: Id, p: Progress, info: Info, q: Progress, k: nat)
    requires arch in p.net.nodes && OneMore(p, arch, info, q) && info.state == Pending && k <= |p.grafted|
    requires (forall d :: d in info.deps ==> d in roots || d in p.grafted) && (k < |p.grafted| ==> Job(p, roots, k))
    ensures k < |q.grafted| && Job(q, roots, k)
  {
    hide NetOk;
    if k < |p.grafted| {
      assert q.grafted[k] == p.grafted[k] && q.grafted[..k] == p.grafted[..k];
    } else {
      assert q.grafted[..k] == p.grafted;
    }
  }

  lemma NothingYet(net: Net, roots: set<Id>, arch: Id, spent: Counts)
    requires NetOk(net) && arch in net.nodes && roots <= net.nodes.Keys
    ensures Chained(net, roots, arch, Progress(net, spent, []))
  {}

  lemma {:induction false} SetupChained(l: Limits, net: Net, arch: Id, p: Progress, commands: seq<string>, k: nat)
    requires Chained(net, {arch}, arch, p)
    ensures Chained(net, {arch}, arch, SetupFrom(l, p, arch, commands, k))
    decreases commands
  {
    hide Chained, AddUnder, Affords;
    if commands != [] && Affords(l, p, "bash") {
      AddChained(net, {arch}, arch, p, SetupTask(arch, k, commands[0]), [Last(arch, p.grafted)]);
      SetupChained(l, net, arch, AddUnder(p, arch, SetupTask(arch, k, commands[0]), [Last(arch, p.grafted)]), commands[1..], k + 1);
    }
  }


  /** All coders wait for the last setup command alone. */
  ghost predicate Behind(p: Progress, last: Id) {
    forall g :: g in p.grafted ==> g in p.net.nodes && p.net.nodes[g].deps == [last]
  }

  lemma {:induction false} CodersChained(l: Limits, net: Net, arch: Id, spent: Counts, boss: Task, works: seq<Work>, last: Id, n: nat)
    requires NetOk(net) && arch in net.nodes && last in net.nodes && n <= |works|
    ensures var r := Coders(l, Progress(net, spent, []), arch, boss, works, last, n);
      Chained(net, {last}, arch, r) && Behind(r, last)
  {
    hide Chained, AddUnder;
    if n == 0 {
      NothingYet(net, {last}, arch, spent);
    } else {
      CodersChained(l, net, arch, spent, boss, works, last, n - 1);
      var p := Coders(l, Progress(net, spent, []), arch, boss, works, last, n - 1);
      var task := CoderTask(arch, boss, n - 1, works[n - 1]);
      AddChained(net, {last}, arch, p, task, [last]);
      OneMoreBehind(net, arch, p, task, last);
      SpentAside(net, {last}, arch, AddUnder(p, arch, task, [last]), AddCoder(l, p, arch, task, last));
    }
  }

  lemma OneMoreBehind(net: Net, arch: Id, p: Progress, task: Task, last: Id)
    requires Chained(net, {last}, arch, p) && Behind(p, last)
    ensures Behind(AddUnder(p, arch, task, [last]), last)
  {
    NewOnes(net, {last}, arch, p);
    hide AddUnder, NetOk, OldKept, Job;
    AddUnderIs(p, arch, task, [last]);
  }

  lemma SpentAside(net: Net, roots: set<Id>, arch: Id, p: Progress, q: Progress)
    requires Chained(net, roots, arch, p) && q.net == p.net && q.grafted == p.grafted
    ensures Chained(net, roots, arch, q)
  {
    hide NetOk;
    forall k | 0 <= k < |q.grafted| ensures Job(q, roots, k) { assert Job(p, roots, k); }
    assert OldKept(net, arch, q);
  }

  /** The coders do not depend on what was grafted before. */
  lemma {:induction false} CodersShift(l: Limits, p: Progress, arch: Id, boss: Task, works: seq<Work>, last: Id, n: nat)
    requires n <= |works|
    ensures var r, q := Coders(l, p, arch, boss, works, last, n), Coders(l, p.(grafted := []), arch, boss, works, last, n);
      r.net == q.net && r.spent == q.spent && r.grafted == p.grafted + q.grafted
  {
    if n > 0 {
      CodersShift(l, p, arch, boss, works, last, n - 1);
      hide AddCoder;
      CoderShift(l, Coders(l, p, arch, boss, works, last, n - 1), Coders(l, p.(grafted := []), arch, boss, works, last, n - 1),
                 arch, CoderTask(arch, boss, n - 1, works[n - 1]), last, p.grafted);
    }
  }

  lemma CoderShift(l: Limits, p: Progress, q: Progress, arch: Id, task: Task, last: Id, before: seq<Id>)
    requires p.net == q.net && p.spent == q.spent && p.grafted == before + q.grafted
    ensures var r, r' := AddCoder(l, p, arch, task, last), AddCoder(l, q, arch, task, last);
      r.net == r'.net && r.spent == r'.spent && r.grafted == before + r'.grafted
  {
    hide Charged, Grants, WithNode, WithChild;
  }

  // ---- The shape of the graph ----

  lemma ChainedEdges(net: Net, roots: set<Id>, arch: Id, p: Progress)
    requires Chained(net, roots, arch, p)
    ensures Waits(p.net) == Waits(net) + NewEdges(p)
    ensures forall x, y :: (x, y) in NewEdges(p) ==>
      x in p.grafted && (y in roots || (y in p.grafted && PlaceOf(p.grafted, y) < PlaceOf(p.grafted, x)))
  {
    NewOnes(net, roots, arch, p);
    hide NetOk;
    forall x, y ensures (x, y) in Waits(p.net) <==> (x, y) in Waits(net) + NewEdges(p) {}
    forall x, y | (x, y) in NewEdges(p)
      ensures y in roots || (y in p.grafted && PlaceOf(p.grafted, y) < PlaceOf(p.grafted, x))
    {
      assert Job(p, roots, PlaceOf(p.grafted, x));
      if y !in roots { var j :| 0 <= j < PlaceOf(p.grafted, x) && p.grafted[j] == y; }
    }
  }

  lemma ChainedAcyclic(net: Net, roots: set<Id>, arch: Id, p: Progress)
    requires Chained(net, roots, arch, p) && ClosedNet(net) && Acyclic(Waits(net))
    ensures ClosedNet(p.net) && Acyclic(Waits(p.net))
  {
    ChainedEdges(net, roots, arch, p);
    NewOnes(net, roots, arch, p);
    assert roots <= net.nodes.Keys && forall id :: id in net.nodes ==> id in p.net.nodes;
    hide Chained;
    var top := IdSet(p.grafted);
    RankedAcyclic(Within(NewEdges(p), top), (x: Id) => PlaceOf(p.grafted, x));
    LayerAcyclic(Waits(net), NewEdges(p), top);
    forall id, d | id in p.net.nodes && d in p.net.nodes[id].deps ensures d in p.net.nodes {
      assert (id, d) in Waits(p.net);
    }
  }

  ghost function OrderEdges(ids: seq<Id>, edges: seq<TaskDeps.Edge>): set<(Id, Id)>
    requires Inside(edges, |ids|)
  {
    set k | 0 <= k < |edges| :: (ids[edges[k].0], ids[edges[k].1])
  }

  /** Only dependencies change, and they gain exactly the ordering edges. */
  ghost predicate SameButDeps(net: Net, net': Net) {
    && net'.order == net.order && net'.nodes.Keys == net.nodes.Keys
    && forall id :: id in net.nodes ==> net'.nodes[id].state == net.nodes[id].state
  }

  lemma {:induction false} OrderedWaits(net: Net, ids: seq<Id>, edges: seq<TaskDeps.Edge>)
    requires Inside(edges, |ids|) && forall id :: id in ids ==> id in net.nodes
    ensures SameButDeps(net, Ordered(net, ids, edges))
    ensures Waits(Ordered(net, ids, edges)) == Waits(net) + OrderEdges(ids, edges)
    ensures forall id :: id in net.nodes && id !in ids ==> Ordered(net, ids, edges).nodes[id] == net.nodes[id]
  {
    if edges != [] {
      var init, e := edges[..|edges| - 1], edges[|edges| - 1];
      OrderedWaits(net, ids, init);
      var before := Ordered(net, ids, init);
      assert ids[e.0] in ids;
      DepWaits(before, ids[e.0], ids[e.1]);
      hide Ordered, WithDep, Waits;
      OrderEdgesNext(ids, edges);
    }
  }

  lemma OrderEdgesNext(ids: seq<Id>, edges: seq<TaskDeps.Edge>)
    requires edges != [] && Inside(edges, |ids|)
    ensures var e := edges[|edges| - 1];
      OrderEdges(ids, edges) == OrderEdges(ids, edges[..|edges| - 1]) + {(ids[e.0], ids[e.1])}
  {
    var init := edges[..|edges| - 1];
    forall x ensures x in OrderEdges(ids, edges) <==> x in OrderEdges(ids, init) || x == (ids[edges[|edges| - 1].0], ids[edges[|edges| - 1].1]) {
      if k :| 0 <= k < |edges| && x == (ids[edges[k].0], ids[edges[k].1]) {
        if k < |init| { assert init[k] == edges[k]; }
      }
      if k :| 0 <= k < |init| && x == (ids[init[k].0], ids[init[k].1]) { assert edges[k] == init[k]; }
    }
  }

  lemma DepWaits(net: Net, id: Id, d: Id)
    requires id in net.nodes
    ensures SameButDeps(net, WithDep(net, id, d)) && Waits(WithDep(net, id, d)) == Waits(net) + {(id, d)}
    ensures forall x :: x in net.nodes && x != id ==> WithDep(net, id, d).nodes[x] == net.nodes[x]
  {
    var net' := WithDep(net, id, d);
    forall x, y ensures (x, y) in Waits(net') <==> (x, y) in Waits(net) + {(id, d)} {}
  }

  /** The coders in the order that can be honoured make no cycle, and neither does the graph below them. */
  lemma OrderedAcyclic(net: Net, last: Id, arch: Id, p: Progress, edges: seq<TaskDeps.Edge>)
    requires Chained(net, {last}, arch, p) && Behind(p, last) && ClosedNet(net) && Acyclic(Waits(net))
    requires Inside(edges, |p.grafted|) && Acyclic(TaskDeps.EdgeSet(edges))
    ensures var r := Ordered(p.net, p.grafted, edges); ClosedNet(r) && Acyclic(Waits(r))
  {
    assert last in net.nodes;
    hide *;
    var ids, order := p.grafted, OrderEdges(p.grafted, edges);
    NewOnes(net, {last}, arch, p);
    OrderedWaits(p.net, ids, edges);
    ChainedEdges(net, {last}, arch, p);
    ChainedAcyclic(net, {last}, arch, p);
    OnlyLast(p, last);
    OrderClosed(p.net, ids, edges);
    OldEdgesBelow(net, ids);
    OrderAcyclic(ids, edges);
    OrderSources(ids, edges);
    TopInside(NewEdges(p), order, ids, last);
    SubgraphAcyclic(Within(NewEdges(p) + order, IdSet(ids)), order);
    LayerAcyclic(Waits(net), NewEdges(p) + order, IdSet(ids));
    Grouped(Waits(net), NewEdges(p), order);
  }

  lemma Grouped(a: set<(Id, Id)>, b: set<(Id, Id)>, c: set<(Id, Id)>)
    ensures a + b + c == a + (b + c)
  {}

  lemma OrderSources(ids: seq<Id>, edges: seq<TaskDeps.Edge>)
    requires Inside(edges, |ids|)
    ensures forall x, y :: (x, y) in OrderEdges(ids, edges) ==> x in ids && y in ids
  {}

  lemma TopInside(added: set<(Id, Id)>, order: set<(Id, Id)>, ids: seq<Id>, last: Id)
    requires forall x, y :: (x, y) in added ==> x in ids && y == last
    requires forall x, y :: (x, y) in order ==> x in ids && y in ids
    requires last !in ids
    ensures Within(added + order, IdSet(ids)) <= order
    ensures forall x, y :: (x, y) in added + order ==> x in IdSet(ids)
  {}

  lemma OrderAcyclic(ids: seq<Id>, edges: seq<TaskDeps.Edge>)
    requires Inside(edges, |ids|) && Acyclic(TaskDeps.EdgeSet(edges))
    requires forall i, j :: 0 <= i < j < |ids| ==> ids[i] != ids[j]
    ensures Acyclic(OrderEdges(ids, edges))
  {
    hide Acyclic;
    forall x, y | (x, y) in OrderEdges(ids, edges) ensures (PlaceOf(ids, x), PlaceOf(ids, y)) in TaskDeps.EdgeSet(edges) {
      var k :| 0 <= k < |edges| && (x, y) == (ids[edges[k].0], ids[edges[k].1]);
      SamePlace(ids, edges[k].0);
      SamePlace(ids, edges[k].1);
      assert edges[k] in edges;
    }
    HomomorphismAcyclic(OrderEdges(ids, edges), TaskDeps.EdgeSet(edges), (x: Id) => PlaceOf(ids, x));
  }

  lemma SamePlace(ids: seq<Id>, k: int)
    requires 0 <= k < |ids| && forall i, j :: 0 <= i < j < |ids| ==> ids[i] != ids[j]
    ensures PlaceOf(ids, ids[k]) == k
  {}

  lemma OnlyLast(p: Progress, last: Id)
    requires Behind(p, last)
    ensures forall x, y :: (x, y) in NewEdges(p) ==> x in p.grafted && y == last
  {}

  lemma OldEdgesBelow(net: Net, ids: seq<Id>)
    requires ClosedNet(net) && forall id :: id in ids ==> id !in net.nodes
    ensures forall x, y :: (x, y) in Waits(net) ==> x !in IdSet(ids) && y !in IdSet(ids)
  {}

  lemma OrderClosed(net: Net, ids: seq<Id>, edges: seq<TaskDeps.Edge>)
    requires ClosedNet(net) && Inside(edges, |ids|) && forall id :: id in ids ==> id in net.nodes
    ensures ClosedNet(Ordered(net, ids, edges))
  {
    var r := Ordered(net, ids, edges);
    OrderedWaits(net, ids, edges);
    forall id, d | id in r.nodes && d in r.nodes[id].deps ensures d in r.nodes {
      assert (id, d) in Waits(r);
      if k :| 0 <= k < |edges| && (id, d) == (ids[edges[k].0], ids[edges[k].1]) { assert ids[edges[k].1] in ids; }
    }
  }

  // ---- The whole graft ----

  /** Everything grafted, in order, before anyone is moved behind it: new pending nodes over the graph as it was, which
      lead out of themselves only through the architect. */
  ghost predicate Stacked(net: Net, arch: Id, grafted: seq<Id>, r: Net) {
    && NetOk(r) && ClosedNet(r) && Acyclic(Waits(r))
    && Extends(net, r)
    && (forall g :: g in grafted ==> g in r.nodes && g !in net.nodes && r.nodes[g].state == Pending)
    && (forall x, y :: (x, y) in Waits(r) && x in grafted ==> y == arch || y in grafted)
  }

  lemma LastThere(net: Net, arch: Id, p: Progress)
    requires Chained(net, {arch}, arch, p)
    ensures Last(arch, p.grafted) in p.net.nodes && arch in p.net.nodes
    ensures Last(arch, p.grafted) == arch || Last(arch, p.grafted) in p.grafted
  {
    NewOnes(net, {arch}, arch, p);
    if p.grafted != [] { assert p.grafted[|p.grafted| - 1] in p.grafted; }
  }

  lemma SetupReady(l: Limits, net: Net, spent: Counts, arch: Id, commands: seq<string>)
    requires NetOk(net) && ClosedNet(net) && Acyclic(Waits(net)) && arch in net.nodes
    ensures var p := Setup(l, net, spent, arch, commands);
      Chained(net, {arch}, arch, p) && NetOk(p.net) && ClosedNet(p.net) && Acyclic(Waits(p.net))
  {
    hide NetOk, Acyclic;
    NothingYet(net, {arch}, arch, spent);
    SetupChained(l, net, arch, Progress(net, spent, []), commands, 0);
    ChainedAcyclic(net, {arch}, arch, Setup(l, net, spent, arch, commands));
  }

  /** Two layers on top of each other: the setup chain, then the ordered coders. */
  lemma Layers(net: Net, arch: Id, setup: Progress, coders: Progress, r: Net, edges: seq<TaskDeps.Edge>)
    requires Chained(net, {arch}, arch, setup) && Chained(setup.net, {Last(arch, setup.grafted)}, arch, coders)
    requires Inside(edges, |coders.grafted|) && r == Ordered(coders.net, coders.grafted, edges)
    requires Behind(coders, Last(arch, setup.grafted)) && ClosedNet(r) && Acyclic(Waits(r))
    ensures Stacked(net, arch, setup.grafted + coders.grafted, r)
  {
    var last := Last(arch, setup.grafted);
    hide *;
    NewOnes(setup.net, {last}, arch, coders);
    ChainedEdges(net, {arch}, arch, setup);
    ChainedEdges(setup.net, {last}, arch, coders);
    OrderedWaits(coders.net, coders.grafted, edges);
    OrderSources(coders.grafted, edges);
    OnlyLast(coders, last);
    LastThere(net, arch, setup);
    LayerNodes(net, arch, setup, coders, r);
    OldSources(net, {arch}, arch, setup);
    NoSources(setup.net, coders.grafted);
    LeadOut(Waits(net), NewEdges(setup), NewEdges(coders), OrderEdges(coders.grafted, edges), arch, last, setup.grafted, coders.grafted);
    StackedIs(net, arch, setup.grafted + coders.grafted, r);
  }

  lemma StackedIs(net: Net, arch: Id, grafted: seq<Id>, r: Net)
    requires NetOk(r) && ClosedNet(r) && Acyclic(Waits(r))
    requires Extends(net, r)
    requires forall g :: g in grafted ==> g in r.nodes && g !in net.nodes && r.nodes[g].state == Pending
    requires forall x, y :: (x, y) in Waits(r) && x in grafted ==> y == arch || y in grafted
    ensures Stacked(net, arch, grafted, r)
  {
    hide NetOk, ClosedNet, Acyclic, Waits;
  }

  lemma OldSources(net: Net, roots: set<Id>, arch: Id, p: Progress)
    requires Chained(net, roots, arch, p)
    ensures forall x, y :: (x, y) in Waits(net) ==> x !in p.grafted
  {
    NewOnes(net, roots, arch, p);
    hide Chained;
  }

  lemma NoSources(net: Net, ids: seq<Id>)
    requires forall id :: id in ids ==> id !in net.nodes
    ensures forall x, y :: (x, y) in Waits(net) ==> x !in ids
  {}

  lemma LeadOut(was: set<(Id, Id)>, chain: set<(Id, Id)>, added: set<(Id, Id)>, order: set<(Id, Id)>, arch: Id, last: Id,
                setup: seq<Id>, coders: seq<Id>)
    requires forall x, y :: (x, y) in was ==> x !in setup
    requires forall x, y :: (x, y) in was + chain ==> x !in coders
    requires forall x, y :: (x, y) in chain ==> y == arch || y in setup
    requires forall x, y :: (x, y) in added ==> y == last
    requires forall x, y :: (x, y) in order ==> y in coders
    requires last == arch || last in setup
    ensures forall x, y :: (x, y) in was + chain + added + order && x in setup + coders ==> y == arch || y in setup + coders
  {}

  lemma AllPending(net: Net, roots: set<Id>, arch: Id, p: Progress)
    requires Chained(net, roots, arch, p)
    ensures forall g :: g in p.grafted ==> g in p.net.nodes && g !in net.nodes && p.net.nodes[g].state == Pending
  {
    NewOnes(net, roots, arch, p);
    forall g | g in p.grafted ensures g in p.net.nodes && p.net.nodes[g].state == Pending {
      assert Job(p, roots, PlaceOf(p.grafted, g));
    }
  }

  /** The second graph has the nodes of the first, in the same state and waiting for the same. */
  ghost predicate Extends(net: Net, net': Net) {
    forall id :: id in net.nodes ==> id in net'.nodes && net'.nodes[id].state == net.nodes[id].state && net'.nodes[id].deps == net.nodes[id].deps
  }

  lemma ChainExtends(net: Net, roots: set<Id>, arch: Id, p: Progress)
    requires Chained(net, roots, arch, p)
    ensures Extends(net, p.net)
  {
    hide NetOk, Job;
  }

  lemma OrderedKeepsOk(net: Net, r: Net)
    requires NetOk(net) && SameButDeps(net, r)
    ensures NetOk(r)
  {}

  lemma LayerNodes(net: Net, arch: Id, setup: Progress, coders: Progress, r: Net)
    requires Chained(net, {arch}, arch, setup) && Chained(setup.net, {Last(arch, setup.grafted)}, arch, coders)
    requires SameButDeps(coders.net, r)
    requires forall id :: id in coders.net.nodes && id !in coders.grafted ==> r.nodes[id] == coders.net.nodes[id]
    ensures NetOk(r) && Extends(net, r)
    ensures forall g :: g in setup.grafted + coders.grafted ==> g in r.nodes && g !in net.nodes && r.nodes[g].state == Pending
  {
    var last := Last(arch, setup.grafted);
    hide *;
    OkAfter(setup.net, {last}, arch, coders);
    OrderedKeepsOk(coders.net, r);
    AllPending(net, {arch}, arch, setup);
    AllPending(setup.net, {last}, arch, coders);
    ChainExtends(net, {arch}, arch, setup);
    ChainExtends(setup.net, {last}, arch, coders);
    TwoLayers(net, setup.net, coders.net, r, setup.grafted, coders.grafted);
  }

  lemma OkAfter(net: Net, roots: set<Id>, arch: Id, p: Progress)
    requires Chained(net, roots, arch, p)
    ensures NetOk(p.net)
  {}

  lemma TwoLayers(net: Net, mid: Net, top: Net, r: Net, low: seq<Id>, high: seq<Id>)
    requires Extends(net, mid) && Extends(mid, top) && SameButDeps(top, r)
    requires forall id :: id in top.nodes && id !in high ==> r.nodes[id] == top.nodes[id]
    requires forall g :: g in low ==> g in mid.nodes && g !in net.nodes && mid.nodes[g].state == Pending
    requires forall g :: g in high ==> g in top.nodes && g !in mid.nodes && top.nodes[g].state == Pending
    ensures Extends(net, r)
    ensures forall g :: g in low + high ==> g in r.nodes && g !in net.nodes && r.nodes[g].state == Pending
  {}

  lemma AllStacked(l: Limits, net: Net, spent: Counts, arch: Id, commands: seq<string>, works: seq<Work>)
    requires NetOk(net) && ClosedNet(net) && Acyclic(Waits(net)) && arch in net.nodes
    ensures Stacked(net, arch, Made(l, net, spent, arch, commands, works).grafted, InOrder(l, net, spent, arch, commands, works))
  {
    hide *;
    var setup := Setup(l, net, spent, arch, commands);
    var last, boss, edges := Last(arch, setup.grafted), net.nodes[arch].task, Honoured(works);
    SetupReady(l, net, spent, arch, commands);
    LastThere(net, arch, setup);
    CodersChained(l, setup.net, arch, setup.spent, boss, works, last, |works|);
    HonouredInside(works);
    var coders := Coders(l, Progress(setup.net, setup.spent, []), arch, boss, works, last, |works|);
    OrderedAcyclic(setup.net, last, arch, coders, edges);
    Layers(net, arch, setup, coders, Ordered(coders.net, coders.grafted, edges), edges);
    MadeIs(l, net, spent, arch, commands, works);
  }

  lemma MadeIs(l: Limits, net: Net, spent: Counts, arch: Id, commands: seq<string>, works: seq<Work>)
    requires arch in net.nodes
    ensures var setup := Setup(l, net, spent, arch, commands);
      var coders := Coders(l, Progress(setup.net, setup.spent, []), arch, net.nodes[arch].task, works, Last(arch, setup.grafted), |works|);
      && Inside(Honoured(works), |coders.grafted|)
      && Made(l, net, spent, arch, commands, works).grafted == setup.grafted + coders.grafted
      && InOrder(l, net, spent, arch, commands, works) == Ordered(coders.net, coders.grafted, Honoured(works))
  {
    var setup := Setup(l, net, spent, arch, commands);
    hide Setup, Coders, Ordered, Honoured;
    HonouredInside(works);
    CodersShift(l, setup, arch, net.nodes[arch].task, works, Last(arch, setup.grafted), |works|);
    assert Progress(setup.net, setup.spent, []) == setup.(grafted := []);
    var made := Made(l, net, spent, arch, commands, works);
    assert made.grafted[|setup.grafted|..]
      == Coders(l, setup.(grafted := []), arch, net.nodes[arch].task, works, Last(arch, setup.grafted), |works|).grafted;
  }

  /** What leads out of a set only through one node leads there first. */
  lemma {:induction false} LeavesThrough(e: set<(Id, Id)>, ids: seq<Id>, gate: Id, n: Id, w: Id, path: seq<Id>)
    requires forall x, y :: (x, y) in e && x in ids ==> y == gate || y in ids
    requires Walk(e, n, w, path) && n in ids && w !in ids
    ensures Reaches(e, gate, w)
    decreases |path|
  {
    assert (path[0], path[1]) in e && Walk(e, path[1], w, path[1..]);
    if path[1] in ids { LeavesThrough(e, ids, gate, path[1], w, path[1..]); }
  }

  /** Moving the architect's dependents behind what was grafted closes no cycle: it would have been one before. */
  lemma RedirectStacked(net: Net, arch: Id, grafted: seq<Id>, r: Net)
    requires Stacked(net, arch, grafted, r)
    ensures var r' := Redirected(r, arch, grafted); NetOk(r') && ClosedNet(r') && Acyclic(Waits(r'))
  {
    forall w, n | w in Rewiring.Dependents(r, arch, grafted) && n in grafted ensures !Reaches(Rewiring.KeptWaits(r, arch, grafted), n, w) {
      if Reaches(Rewiring.KeptWaits(r, arch, grafted), n, w) {
        ReachesMonotone(Rewiring.KeptWaits(r, arch, grafted), Waits(r), n, w);
        var path :| Walk(Waits(r), n, w, path);
        LeavesThrough(Waits(r), grafted, arch, n, w, path);
        StepThenReach(Waits(r), w, arch, w);
      }
    }
    Rewiring.RedirectAcyclicIff(r, arch, grafted);
    Rewiring.RedirectedWaits(r, arch, grafted);
    UpdateOk(r, Redirect(arch, grafted), r.nodes.Keys);
    var r' := Redirected(r, arch, grafted);
    hide Acyclic, NetOk;
    forall id, d | id in r'.nodes && d in r'.nodes[id].deps ensures d in r'.nodes {
      assert (id, d) in Waits(r');
    }
  }

  /** The whole follow-up keeps the graph closed and acyclic, whatever the tasks ask for, whatever the budget refuses and
      whoever waits for the architect. */
  lemma FollowUpAcyclic(l: Limits, net: Net, spent: Counts, arch: Id, commands: seq<string>, works: seq<Work>)
    requires NetOk(net) && ClosedNet(net) && Acyclic(Waits(net)) && arch in net.nodes
    ensures var r := FollowUp(l, net, spent, arch, commands, works);
      NetOk(r.net) && ClosedNet(r.net) && Acyclic(Waits(r.net))
  {
    hide *;
    AllStacked(l, net, spent, arch, commands, works);
    RedirectStacked(net, arch, Made(l, net, spent, arch, commands, works).grafted, InOrder(l, net, spent, arch, commands, works));
    FollowUpIs(l, net, spent, arch, commands, works);
    StackedSound(net, arch, Made(l, net, spent, arch, commands, works).grafted, InOrder(l, net, spent, arch, commands, works));
  }

  lemma StackedSound(net: Net, arch: Id, grafted: seq<Id>, r: Net)
    requires Stacked(net, arch, grafted, r)
    ensures NetOk(r) && ClosedNet(r) && Acyclic(Waits(r))
    ensures forall w :: IsPending(net, w) ==> IsPending(r, w)
  {
    hide Acyclic, ClosedNet, NetOk;
  }

  /** Afterwards no pending node that waited for the architect is ready before everything grafted is terminal. */
  lemma DependentsMoved(l: Limits, net: Net, spent: Counts, arch: Id, commands: seq<string>, works: seq<Work>, w: Id)
    requires NetOk(net) && ClosedNet(net) && Acyclic(Waits(net)) && arch in net.nodes
    requires IsPending(net, w) && arch in net.nodes[w].deps
    ensures var r := FollowUp(l, net, spent, arch, commands, works);
      && IsPending(r.net, w) && (forall g :: g in r.grafted ==> g in r.net.nodes[w].deps)
      && (IsReady(r.net, w) ==> forall g :: g in r.grafted ==> Done(r.net, g))
  {
    hide *;
    AllStacked(l, net, spent, arch, commands, works);
    FollowUpIs(l, net, spent, arch, commands, works);
    StackedSound(net, arch, Made(l, net, spent, arch, commands, works).grafted, InOrder(l, net, spent, arch, commands, works));
    Moved(net, arch, Made(l, net, spent, arch, commands, works).grafted, InOrder(l, net, spent, arch, commands, works), w);
  }

  lemma Moved(net: Net, arch: Id, grafted: seq<Id>, r: Net, w: Id)
    requires Stacked(net, arch, grafted, r) && IsPending(net, w) && arch in net.nodes[w].deps
    ensures var r' := Redirected(r, arch, grafted);
      && IsPending(r', w) && (forall g :: g in grafted ==> g in r'.nodes[w].deps)
      && (IsReady(r', w) ==> forall g :: g in grafted ==> Done(r', g))
  {
    assert Redirected(r, arch, grafted).nodes[w] == Redirect(arch, grafted)(w, r.nodes[w]);
    hide Acyclic, NetOk;
  }

  /** The coders among what was grafted. */
  function CoderIds(l: Limits, net: Net, spent: Counts, arch: Id, commands: seq<string>, works: seq<Work>): (ids: seq<Id>)
    requires arch in net.nodes
    ensures |ids| == |works|
  {
    Made(l, net, spent, arch, commands, works).grafted[|Setup(l, net, spent, arch, commands).grafted|..]
  }

  /** Every task has its coder, and one waits for another exactly when that was asked for and could be honoured. */
  lemma CodersWait(l: Limits, net: Net, spent: Counts, arch: Id, commands: seq<string>, works: seq<Work>, i: nat, j: nat)
    requires NetOk(net) && ClosedNet(net) && Acyclic(Waits(net)) && arch in net.nodes && i < |works| && j < |works|
    ensures var ids, r := CoderIds(l, net, spent, arch, commands, works), FollowUp(l, net, spent, arch, commands, works);
      && ids[i] in r.grafted && ids[i] in r.net.nodes
      && (ids[j] in r.net.nodes[ids[i]].deps <==> (i, j) in Honoured(works))
  {
    hide *;
    var setup := Setup(l, net, spent, arch, commands);
    var last, edges := Last(arch, setup.grafted), Honoured(works);
    SetupReady(l, net, spent, arch, commands);
    LastThere(net, arch, setup);
    CodersChained(l, setup.net, arch, setup.spent, net.nodes[arch].task, works, last, |works|);
    HonouredInside(works);
    var coders := Coders(l, Progress(setup.net, setup.spent, []), arch, net.nodes[arch].task, works, last, |works|);
    MadeIs(l, net, spent, arch, commands, works);
    FollowUpIs(l, net, spent, arch, commands, works);
    CoderIdsAre(l, net, spent, arch, commands, works);
    assert coders.grafted[i] in coders.grafted && coders.grafted[j] in coders.grafted;
    CoderWaits(setup.net, last, arch, coders, edges, i, j);
    Untouched(InOrder(l, net, spent, arch, commands, works), arch, Made(l, net, spent, arch, commands, works).grafted, coders.grafted[i]);
  }

  lemma CoderIdsAre(l: Limits, net: Net, spent: Counts, arch: Id, commands: seq<string>, works: seq<Work>)
    requires arch in net.nodes
    ensures CoderIds(l, net, spent, arch, commands, works)
      == Made(l, net, spent, arch, commands, works).grafted[|Setup(l, net, spent, arch, commands).grafted|..]
  {}

  lemma CoderWaits(net: Net, last: Id, arch: Id, p: Progress, edges: seq<TaskDeps.Edge>, i: nat, j: nat)
    requires Chained(net, {last}, arch, p) && Behind(p, last) && Inside(edges, |p.grafted|) && last in net.nodes
    requires i < |p.grafted| && j < |p.grafted| && ClosedNet(net)
    ensures var r := Ordered(p.net, p.grafted, edges);
      p.grafted[i] in r.nodes && (p.grafted[j] in r.nodes[p.grafted[i]].deps <==> (i, j) in edges)
  {
    hide *;
    var ids, r := p.grafted, Ordered(p.net, p.grafted, edges);
    assert ids[i] in ids && ids[j] in ids;
    NewOnes(net, {last}, arch, p);
    OrderedWaits(p.net, ids, edges);
    ChainedEdges(net, {last}, arch, p);
    OnlyLast(p, last);
    OldEdgesBelow(net, ids);
    OrderEdgeIff(ids, edges, i, j);
    KeysSame(p.net, r);
    WaitsIff(r, ids[i], ids[j]);
    NoSources(net, ids);
    assert ids[j] != last;
  }

  lemma KeysSame(net: Net, net': Net)
    requires SameButDeps(net, net')
    ensures net'.nodes.Keys == net.nodes.Keys
  {}

  lemma WaitsIff(net: Net, x: Id, y: Id)
    requires x in net.nodes
    ensures (x, y) in Waits(net) <==> y in net.nodes[x].deps
  {}

  lemma OrderEdgeIff(ids: seq<Id>, edges: seq<TaskDeps.Edge>, i: nat, j: nat)
    requires Inside(edges, |ids|) && i < |ids| && j < |ids|
    requires forall x, y :: 0 <= x < y < |ids| ==> ids[x] != ids[y]
    ensures (ids[i], ids[j]) in OrderEdges(ids, edges) <==> (i, j) in edges
  {
    if (i, j) in edges {
      var k :| 0 <= k < |edges| && edges[k] == (i, j);
      assert (ids[i], ids[j]) == (ids[edges[k].0], ids[edges[k].1]);
    }
    if (ids[i], ids[j]) in OrderEdges(ids, edges) {
      var k :| 0 <= k < |edges| && (ids[i], ids[j]) == (ids[edges[k].0], ids[edges[k].1]);
      assert edges[k] == (i, j) && edges[k] in edges;
    }
  }

  lemma Untouched(net: Net, arch: Id, grafted: seq<Id>, id: Id)
    requires id in net.nodes && id in grafted
    ensures id in Redirected(net, arch, grafted).nodes && Redirected(net, arch, grafted).nodes[id] == net.nodes[id]
  {}
}
