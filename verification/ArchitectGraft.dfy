/** Grafting an architect's plan (agent/scheduler.go, the follow-up of a finished compute node): a chain of setup
    commands, a coder for every task behind it, the ordering edges that can be honoured, and whoever waited for the
    architect moved behind all of them. */
module ArchitectGraft {
  import opened Decimal
  import opened Digraph
  import opened Values
  import opened Nets
  import opened Budgets
  import opened LateGraft
  import TaskDeps
  import Graphs

  datatype Work = Work(tool: string, tag: string, params: Val, dependsOn: seq<int>)

  // ---- The graft as a function ----

  function SetupTask(arch: Id, k: nat, command: string): Task {
    BashTask(arch, "setup_" + Numeral(k), [Field("command", Plain(command))])
  }

  function CoderTask(arch: Id, boss: Task, k: nat, w: Work): Task {
    Task(Compute, w.tool, if w.tag == "" then boss.tag + "_" + Numeral(k) else w.tag, boss.source, arch, w.params, [])
  }

  /** What the next setup command waits for. */
  function Last(arch: Id, grafted: seq<Id>): Id {
    if grafted == [] then arch else grafted[|grafted| - 1]
  }

  /** The setup commands from the k-th on: each behind the one before, up to the first the budget refuses. */
  function SetupFrom(l: Limits, p: Progress, arch: Id, commands: seq<string>, k: nat): Progress
    decreases commands
  {
    if commands == [] || !Affords(l, p, "bash") then p
    else SetupFrom(l, AddUnder(p, arch, SetupTask(arch, k, commands[0]), [Last(arch, p.grafted)]), arch, commands[1..], k + 1)
  }

  /** A coder is charged to the budget when that grants it, and made all the same when it does not. */
  function AddCoder(l: Limits, p: Progress, arch: Id, task: Task, last: Id): Progress {
    AddUnder(p, arch, task, [last]).(spent := Charged(p.spent, "compute", true, Grants(l, p.spent, "compute", true)))
  }

  function Coders(l: Limits, p: Progress, arch: Id, boss: Task, works: seq<Work>, last: Id, n: nat): (r: Progress)
    requires n <= |works|
    ensures p.grafted <= r.grafted && |r.grafted| == |p.grafted| + n
  {
    if n == 0 then p
    else AddCoder(l, Coders(l, p, arch, boss, works, last, n - 1), arch, CoderTask(arch, boss, n - 1, works[n - 1]), last)
  }

  function WithDep(net: Net, id: Id, d: Id): Net {
    if id in net.nodes then WithInfo(net, id, net.nodes[id].(deps := net.nodes[id].deps + [d])) else net
  }

  predicate Inside(edges: seq<TaskDeps.Edge>, n: nat) {
    forall k :: 0 <= k < |edges| ==> 0 <= edges[k].0 < n && 0 <= edges[k].1 < n
  }

  function Ordered(net: Net, ids: seq<Id>, edges: seq<TaskDeps.Edge>): Net
    requires Inside(edges, |ids|)
  {
    if edges == [] then net
    else
      var e := edges[|edges| - 1];
      WithDep(Ordered(net, ids, edges[..|edges| - 1]), ids[e.0], ids[e.1])
  }

  function Asked(works: seq<Work>): (r: seq<seq<int>>)
    ensures |r| == |works|
  {
    seq(|works|, k requires 0 <= k < |works| => works[k].dependsOn)
  }

  function AllLive(n: nat): seq<bool> {
    seq(n, k => true)
  }

  /** The ordering edges that can be honoured. */
  ghost function Honoured(works: seq<Work>): (r: seq<TaskDeps.Edge>) {
    TaskDeps.Kept(|works|, AllLive(|works|), TaskDeps.Requests(Asked(works), AllLive(|works|), |works|))
  }

  /** And a sentence for each request that cannot. */
  ghost function Unhonoured(works: seq<Work>): seq<TaskDeps.Refusal> {
    TaskDeps.Dropped(|works|, AllLive(|works|), TaskDeps.Requests(Asked(works), AllLive(|works|), |works|))
  }

  lemma HonouredInside(works: seq<Work>)
    ensures Inside(Honoured(works), |works|) && Acyclic(TaskDeps.EdgeSet(Honoured(works)))
  {
    var live := AllLive(|works|);
    var rs := TaskDeps.Requests(Asked(works), live, |works|);
    TaskDeps.KeptAreRequests(|works|, live, rs);
    TaskDeps.KeptAcyclic(|works|, live, rs);
    AskersInside(Asked(works), live, |works|);
    var edges := Honoured(works);
    forall k | 0 <= k < |edges| ensures 0 <= edges[k].0 < |works| && 0 <= edges[k].1 < |works| {
      assert edges[k] in edges;
    }
  }

  lemma {:induction false} AskersInside(deps: seq<seq<int>>, live: seq<bool>, n: nat)
    requires n <= |deps|
    ensures forall r :: r in TaskDeps.Requests(deps, live, n) ==> 0 <= r.0 < n
  {
    if n > 0 { AskersInside(deps, live, n - 1); }
  }

  function Setup(l: Limits, net: Net, spent: Counts, arch: Id, commands: seq<string>): Progress {
    SetupFrom(l, Progress(net, spent, []), arch, commands, 0)
  }

  /** Setup chain and coders, not yet ordered. */
  function Made(l: Limits, net: Net, spent: Counts, arch: Id, commands: seq<string>, works: seq<Work>): (r: Progress)
    requires arch in net.nodes
    ensures var setup := Setup(l, net, spent, arch, commands);
      setup.grafted <= r.grafted && |r.grafted| == |setup.grafted| + |works|
  {
    var setup := Setup(l, net, spent, arch, commands);
    Coders(l, setup, arch, net.nodes[arch].task, works, Last(arch, setup.grafted), |works|)
  }

  ghost function InOrder(l: Limits, net: Net, spent: Counts, arch: Id, commands: seq<string>, works: seq<Work>): Net
    requires arch in net.nodes
  {
    HonouredInside(works);
    var made := Made(l, net, spent, arch, commands, works);
    Ordered(made.net, made.grafted[|Setup(l, net, spent, arch, commands).grafted|..], Honoured(works))
  }

  ghost function FollowUp(l: Limits, net: Net, spent: Counts, arch: Id, commands: seq<string>, works: seq<Work>): Progress
    requires arch in net.nodes
  {
    var made := Made(l, net, spent, arch, commands, works);
    if made.grafted == [] then made
    else made.(net := Redirected(InOrder(l, net, spent, arch, commands, works), arch, made.grafted))
  }

  // ---- The graft as it is carried out ----

  method GraftSetup(g: Graphs.Graph, b: Budget, arch: Id, commands: seq<string>, ghost p: Progress) returns (grafted: seq<Id>)
    requires At(g, b, p) && p.grafted == []
    modifies g, g.nodes.Values, b
    ensures var q := SetupFrom(b.limits, p, arch, commands, 0); At(g, b, q) && grafted == q.grafted
    ensures fresh(g.nodes.Values - old(g.nodes.Values))
  {
    hide At, AddUnder, Affords;
    grafted := [];
    ghost var q := p;
    for k := 0 to |commands|
      invariant At(g, b, q) && grafted == q.grafted
      invariant SetupFrom(b.limits, q, arch, commands[k..], k) == SetupFrom(b.limits, p, arch, commands, 0)
      invariant fresh(g.nodes.Values - old(g.nodes.Values))
    {
      assert commands[k..][1..] == commands[k + 1..];
      var task, last := SetupTask(arch, k, commands[k]), Last(arch, grafted);
      var granted, id := AddNodeUnder(g, b, arch, task, [last], q);
      if !granted { return; }
      NewGrafted(q, arch, task, [last]);
      grafted := grafted + [id];
      q := AddUnder(q, arch, task, [last]);
    }
  }

  method GraftCoder(g: Graphs.Graph, b: Budget, arch: Id, task: Task, last: Id, ghost p: Progress) returns (id: Id)
    requires At(g, b, p)
    modifies g, g.nodes.Values, b
    ensures At(g, b, AddCoder(b.limits, p, arch, task, last)) && id == NodeName(|p.net.order| + 1)
    ensures fresh(g.nodes.Values - old(g.nodes.Values))
  {
    hide Graphs.Graph.Valid, NetOk, WithNode, WithChild, Grants;
    var granted := b.TrySpawnNode("compute", true);
    var n := new Graphs.Node(task, [last]);
    id := g.AddNode(n);
    g.AddChild(arch, id);
  }

  method GraftCoders(g: Graphs.Graph, b: Budget, arch: Id, boss: Task, works: seq<Work>, setup: seq<Id>, ghost p: Progress)
    returns (grafted: seq<Id>)
    requires At(g, b, p) && setup == p.grafted
    modifies g, g.nodes.Values, b
    ensures var q := Coders(b.limits, p, arch, boss, works, Last(arch, setup), |works|); At(g, b, q) && grafted == q.grafted
    ensures fresh(g.nodes.Values - old(g.nodes.Values))
  {
    hide At, AddUnder, Charged, Grants;
    grafted := setup;
    var last := Last(arch, setup);
    for k := 0 to |works|
      invariant At(g, b, Coders(b.limits, p, arch, boss, works, last, k))
      invariant grafted == Coders(b.limits, p, arch, boss, works, last, k).grafted
      invariant fresh(g.nodes.Values - old(g.nodes.Values))
    {
      ghost var q := Coders(b.limits, p, arch, boss, works, last, k);
      var id := GraftCoder(g, b, arch, CoderTask(arch, boss, k, works[k]), last, q);
      NewGrafted(q, arch, CoderTask(arch, boss, k, works[k]), [last]);
      grafted := grafted + [id];
    }
  }

  method AddDep(g: Graphs.Graph, id: Id, d: Id)
    requires g.Valid()
    modifies g`net, g.nodes.Values
    ensures g.Valid() && g.net == WithDep(old(g.net), id, d)
  {
    if id in g.nodes { g.SetNodeDeps(id, g.nodes[id].deps + [d]); }
  }

  method OrderCoders(g: Graphs.Graph, ids: seq<Id>, edges: seq<TaskDeps.Edge>)
    requires g.Valid() && Inside(edges, |ids|)
    modifies g`net, g.nodes.Values
    ensures g.Valid() && g.net == Ordered(old(g.net), ids, edges)
  {
    ghost var was := g.net;
    hide Graphs.Graph.Valid, WithDep;
    for k := 0 to |edges|
      invariant g.Valid() && g.net == Ordered(was, ids, edges[..k])
    {
      assert edges[..k + 1][..k] == edges[..k];
      AddDep(g, ids[edges[k].0], ids[edges[k].1]);
    }
    assert edges[..|edges|] == edges;
  }

  method MakeAll(g: Graphs.Graph, b: Budget, arch: Id, boss: Task, commands: seq<string>, works: seq<Work>,
                 ghost net: Net, ghost spent: Counts)
    returns (setup: seq<Id>, grafted: seq<Id>)
    requires At(g, b, Progress(net, spent, [])) && arch in net.nodes && boss == net.nodes[arch].task
    modifies g, g.nodes.Values, b
    ensures At(g, b, Made(b.limits, net, spent, arch, commands, works))
    ensures setup == Setup(b.limits, net, spent, arch, commands).grafted
    ensures grafted == Made(b.limits, net, spent, arch, commands, works).grafted
    ensures fresh(g.nodes.Values - old(g.nodes.Values))
  {
    hide At, SetupFrom, Coders;
    setup := GraftSetup(g, b, arch, commands, Progress(net, spent, []));
    grafted := GraftCoders(g, b, arch, boss, works, setup, Setup(b.limits, net, spent, arch, commands));
  }

  lemma Read(g: Graphs.Graph, b: Budget, p: Progress)
    requires At(g, b, p)
    ensures g.Valid() && g.net == p.net && b.View() == p.spent
  {}

  method MakeInOrder(g: Graphs.Graph, b: Budget, arch: Id, boss: Task, commands: seq<string>, works: seq<Work>,
                     ghost net: Net, ghost spent: Counts)
    returns (grafted: seq<Id>, dropped: seq<TaskDeps.Refusal>)
    requires At(g, b, Progress(net, spent, [])) && arch in net.nodes && boss == net.nodes[arch].task
    modifies g, g.nodes.Values, b
    ensures At(g, b, Made(b.limits, net, spent, arch, commands, works).(net := InOrder(b.limits, net, spent, arch, commands, works)))
    ensures grafted == Made(b.limits, net, spent, arch, commands, works).grafted
    ensures dropped == Unhonoured(works)
    ensures fresh(g.nodes.Values - old(g.nodes.Values))
  {
    hide *;
    var edges;
    edges, dropped := ResolveOrder(works);
    var setup;
    setup, grafted := MakeAll(g, b, arch, boss, commands, works, net, spent);
    InOrderIs(b.limits, net, spent, arch, commands, works);
    OrderMade(g, b, grafted[|setup|..], edges, Made(b.limits, net, spent, arch, commands, works));
  }

  method OrderMade(g: Graphs.Graph, b: Budget, ids: seq<Id>, edges: seq<TaskDeps.Edge>, ghost made: Progress)
    requires At(g, b, made) && Inside(edges, |ids|)
    modifies g`net, g.nodes.Values
    ensures At(g, b, made.(net := Ordered(made.net, ids, edges)))
    ensures g.nodes == old(g.nodes)
  {
    hide Graphs.Graph.Valid, Ordered, NetOk;
    OrderCoders(g, ids, edges);
  }

  method ResolveOrder(works: seq<Work>) returns (edges: seq<TaskDeps.Edge>, dropped: seq<TaskDeps.Refusal>)
    ensures edges == Honoured(works) && dropped == Unhonoured(works)
  {
    edges, dropped := TaskDeps.Resolve(Asked(works), AllLive(|works|));
  }

  lemma InOrderIs(l: Limits, net: Net, spent: Counts, arch: Id, commands: seq<string>, works: seq<Work>)
    requires arch in net.nodes
    ensures var made := Made(l, net, spent, arch, commands, works);
      var ids := made.grafted[|Setup(l, net, spent, arch, commands).grafted|..];
      Inside(Honoured(works), |ids|) && InOrder(l, net, spent, arch, commands, works) == Ordered(made.net, ids, Honoured(works))
  {
    HonouredInside(works);
    hide Made, Setup, Ordered, Honoured;
  }

  /** The whole follow-up. */
  method GraftPlan(g: Graphs.Graph, b: Budget, arch: Id, commands: seq<string>, works: seq<Work>)
    returns (grafted: seq<Id>, dropped: seq<TaskDeps.Refusal>)
    requires g.Valid() && arch in g.nodes
    modifies g, g.nodes.Values, b
    ensures arch in old(g.net).nodes
    ensures g.Valid() && g.net == FollowUp(b.limits, old(g.net), old(b.View()), arch, commands, works).net
    ensures b.View() == FollowUp(b.limits, old(g.net), old(b.View()), arch, commands, works).spent
    ensures grafted == FollowUp(b.limits, old(g.net), old(b.View()), arch, commands, works).grafted
    ensures dropped == Unhonoured(works)
  {
    ghost var net, spent := g.net, b.View();
    var boss := g.nodes[arch].task;
    assert boss == net.nodes[arch].task && At(g, b, Progress(net, spent, []));
    hide *;
    grafted, dropped := MakeInOrder(g, b, arch, boss, commands, works, net, spent);
    FollowUpIs(b.limits, net, spent, arch, commands, works);
    MoveBehind(g, b, arch, grafted,
               Made(b.limits, net, spent, arch, commands, works).(net := InOrder(b.limits, net, spent, arch, commands, works)));
    Read(g, b, FollowUp(b.limits, net, spent, arch, commands, works));
  }

  method MoveBehind(g: Graphs.Graph, b: Budget, arch: Id, grafted: seq<Id>, ghost p: Progress)
    requires At(g, b, p)
    modifies g`net, g.nodes.Values
    ensures At(g, b, if grafted == [] then p else p.(net := Redirected(p.net, arch, grafted)))
  {
    hide Graphs.Graph.Valid, Redirected, NetOk;
    if grafted != [] { g.RewriteDependents(arch, grafted); }
  }

  lemma FollowUpIs(l: Limits, net: Net, spent: Counts, arch: Id, commands: seq<string>, works: seq<Work>)
    requires arch in net.nodes
    ensures var r, made := FollowUp(l, net, spent, arch, commands, works), Made(l, net, spent, arch, commands, works);
      && r.grafted == made.grafted && r.spent == made.spent
      && r.net == if r.grafted == [] then InOrder(l, net, spent, arch, commands, works)
        else Redirected(InOrder(l, net, spent, arch, commands, works), arch, made.grafted)
  {
    hide Setup, Coders, Redirected;
    if works == [] { NoneHonoured(works); }
  }

  lemma NoneHonoured(works: seq<Work>)
    requires works == []
    ensures Honoured(works) == []
  {}
}
