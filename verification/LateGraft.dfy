/** Grafting what runs and checks the coders' output, once they have produced it (agent/architect_graft.go). */
module LateGraft {
  import opened Decimal
  import opened Values
  import opened Nets
  import opened Budgets
  import Graphs

  datatype Service = Service(name: string, command: string, workdir: string, port: int)

  datatype Check = Check(name: string, command: string)

  /** The architect's reply, read back from its result. */
  datatype Blueprint = Unreadable | Blueprint(services: seq<Service>, checks: seq<Check>)

  /** The operator's command timeout in seconds, how a check's name is made a tag, and which JSON numbers are positive. */
  datatype Settings = Settings(timeout: int, sanitize: string -> string, positive: string -> bool)

  // ---- Reading a coder's parameters ----

  datatype Entry = NoEntry | Entry(value: Val)

  function EntryAt(fields: seq<Field>, key: string): Entry {
    if fields == [] then NoEntry else if fields[0].key == key then Entry(fields[0].value) else EntryAt(fields[1..], key)
  }

  function FieldAt(v: Val, key: string): Entry {
    if v.Obj? then EntryAt(v.fields, key) else NoEntry
  }

  /** A string field, "" when there is none or it is not a string. */
  function TextAt(v: Val, key: string): string {
    match FieldAt(v, key)
    case Entry(Str(t)) => Spelled(t)
    case _ => ""
  }

  function Plain(s: string): Val {
    Str([Lit(s)])
  }

  function ServiceOf(params: Val): Entry {
    var e := FieldAt(params, "service");
    if e.Entry? && e.value.Obj? then e else NoEntry
  }

  /** The command a coder wants run once, "" when there is none or it is the one it declares as a service. */
  function ExecCommand(params: Val): string {
    var exec := TextAt(params, "execute");
    var svc := ServiceOf(params);
    if svc.Entry? && TextAt(svc.value, "command") == exec then "" else exec
  }

  function BashTask(arch: Id, tag: string, params: seq<Field>): Task {
    Task(Tool, "bash", tag, "builtin", arch, Obj(params), [])
  }

  function ExecTask(s: Settings, arch: Id, tag: string, command: string): Task {
    BashTask(arch, tag + "_exec",
             [Field("command", Plain(command))] + if s.timeout > 0 then [Field("timeout_sec", Scalar(Numeral(s.timeout)))] else [])
  }

  function ServiceTask(arch: Id, name: string, command: string, workdir: string, port: seq<Field>): Task {
    var params := [Field("action", Plain("start")), Field("command", Plain(command)), Field("name", Plain(name))];
    Task(Tool, "service", name, "builtin", arch,
         Obj(params + (if workdir != "" then [Field("workdir", Plain(workdir))] else []) + port), [])
  }

  function CoderService(s: Settings, arch: Id, tag: string, svc: Val): Task {
    var name := TextAt(svc, "name");
    var port := FieldAt(svc, "port");
    ServiceTask(arch, if name == "" then tag + "_svc" else name, TextAt(svc, "command"), TextAt(svc, "workdir"),
                if port.Entry? && port.value.Scalar? && s.positive(port.value.raw) then [Field("port", port.value)] else [])
  }

  function TopService(arch: Id, svc: Service): Task {
    ServiceTask(arch, ServiceName(svc), svc.command, svc.workdir,
                if svc.port > 0 then [Field("port", Scalar(Numeral(svc.port)))] else [])
  }

  function ServiceName(svc: Service): string {
    if svc.name == "" then "service" else svc.name
  }

  function CheckTask(s: Settings, arch: Id, c: Check, made: nat): Task {
    var tag := "verify_" + s.sanitize(c.name);
    BashTask(arch, if tag == "verify_" then tag + Numeral(made) else tag,
             [Field("command", Plain("sleep 3 && " + c.command)), Field("timeout_sec", Scalar("20"))])
  }

  // ---- The graft as a function ----

  /** The graph, what has been spent, and the nodes grafted so far. */
  datatype Progress = Progress(net: Net, spent: Counts, grafted: seq<Id>)

  function AddUnder(p: Progress, arch: Id, task: Task, deps: seq<Id>): Progress {
    var id := NodeName(|p.net.order| + 1);
    Progress(WithChild(WithNode(p.net, NewInfo(task, deps)), arch, id), Charged(p.spent, task.tool, false, true), p.grafted + [id])
  }

  predicate Affords(l: Limits, p: Progress, tool: string) {
    Grants(l, p.spent, tool, false)
  }

  function TryAdd(l: Limits, p: Progress, arch: Id, task: Task): Progress {
    if Affords(l, p, task.tool) then AddUnder(p, arch, task, []) else p
  }

  /** graftTaskExec. */
  function GraftExec(l: Limits, s: Settings, p: Progress, arch: Id, child: Id): Progress {
    if child !in p.net.nodes || ExecCommand(p.net.nodes[child].task.params) == "" then p
    else TryAdd(l, p, arch, ExecTask(s, arch, p.net.nodes[child].task.tag, ExecCommand(p.net.nodes[child].task.params)))
  }

  /** graftTaskService. */
  function GraftService(l: Limits, s: Settings, p: Progress, arch: Id, child: Id): Progress {
    if child !in p.net.nodes then p
    else
      var svc := ServiceOf(p.net.nodes[child].task.params);
      if svc.NoEntry? || TextAt(svc.value, "command") == "" then p
      else TryAdd(l, p, arch, CoderService(s, arch, p.net.nodes[child].task.tag, svc.value))
  }

  function GraftCoders(l: Limits, s: Settings, p: Progress, arch: Id, children: seq<Id>): Progress
    decreases children
  {
    if children == [] then p
    else GraftCoders(l, s, GraftService(l, s, GraftExec(l, s, p, arch, children[0]), arch, children[0]), arch, children[1..])
  }

  /** A service of that name was grafted for one of the coders. */
  predicate AlreadyServed(net: Net, already: seq<Id>, name: string) {
    exists g :: g in already && ServesName(net, g, name)
  }

  predicate ServesName(net: Net, g: Id, name: string) {
    g in net.nodes && net.nodes[g].task.tool == "service" && net.nodes[g].task.tag == name
  }

  /** graftTopLevelServices: stops at the first one the budget refuses. */
  function GraftServices(l: Limits, p: Progress, arch: Id, services: seq<Service>, already: seq<Id>): Progress
    decreases services
  {
    if services == [] then p
    else if services[0].command == "" || AlreadyServed(p.net, already, ServiceName(services[0])) then
      GraftServices(l, p, arch, services[1..], already)
    else if !Affords(l, p, "service") then p
    else GraftServices(l, AddUnder(p, arch, TopService(arch, services[0]), []), arch, services[1..], already)
  }

  /** graftValidation: every check waits for every run node. */
  function GraftChecks(l: Limits, s: Settings, p: Progress, arch: Id, checks: seq<Check>, prior: seq<Id>, made: nat): Progress
    decreases checks
  {
    if checks == [] then p
    else if checks[0].command == "" then GraftChecks(l, s, p, arch, checks[1..], prior, made)
    else if !Affords(l, p, "bash") then p
    else GraftChecks(l, s, AddUnder(p, arch, CheckTask(s, arch, checks[0], made), prior), arch, checks[1..], prior, made + 1)
  }

  predicate IsCoder(net: Net, arch: Id, c: Id) {
    c in net.nodes && net.nodes[c].task.kind == Compute && net.nodes[c].task.spawnedBy == arch
  }

  function CoderTest(net: Net, arch: Id): Id -> bool {
    (c: Id) => IsCoder(net, arch, c)
  }

  function CoderChildren(net: Net, arch: Id): (r: seq<Id>)
    ensures forall c :: c in r ==> IsCoder(net, arch, c)
  {
    if arch in net.nodes then Select(net.nodes[arch].children, CoderTest(net, arch)) else []
  }

  function WithRunGrafted(net: Net, arch: Id): Net
    requires arch in net.nodes
  {
    WithInfo(net, arch, net.nodes[arch].(runGrafted := true))
  }

  /** All the run nodes: per coder, then the architect's own services. */
  function RunPart(l: Limits, s: Settings, p: Progress, arch: Id, children: seq<Id>, services: seq<Service>): Progress {
    var tasks := GraftCoders(l, s, p, arch, children);
    GraftServices(l, tasks, arch, services, tasks.grafted)
  }

  /** The graft proper: run nodes, then checks, then whoever waited for a coder waits for all of them. */
  function GraftAll(l: Limits, s: Settings, p: Progress, arch: Id, children: seq<Id>, plan: Blueprint): Progress
    requires plan.Blueprint?
  {
    var run := RunPart(l, s, p, arch, children, plan.services);
    var all := GraftChecks(l, s, run, arch, plan.checks, run.grafted, 0);
    if all.grafted == [] then all else all.(net := AlsoWaited(all.net, IdSet(children), all.grafted))
  }

  predicate AllTerminal(net: Net, ids: seq<Id>) {
    forall c :: c in ids ==> Done(net, c)
  }

  predicate AllResolved(net: Net, ids: seq<Id>) {
    forall c :: c in ids ==> c in net.nodes && net.nodes[c].state == Resolved
  }

  /** graftArchitectRunNodes. */
  function GraftRun(l: Limits, s: Settings, net: Net, spent: Counts, arch: Id, plan: Blueprint): Progress {
    var children := CoderChildren(net, arch);
    if arch !in net.nodes || net.nodes[arch].runGrafted || children == [] || !AllTerminal(net, children) then Progress(net, spent, [])
    else
      var p := Progress(WithRunGrafted(net, arch), spent, []);
      if !AllResolved(net, children) || plan.Unreadable? then p else GraftAll(l, s, p, arch, children, plan)
  }

  // ---- The graft as it is carried out ----

  ghost predicate At(g: Graphs.Graph, b: Budget, p: Progress)
    reads g, g.nodes.Values, b
  {
    g.Valid() && g.net == p.net && b.View() == p.spent
  }

  /** One node, its child edge, one budget charge. */
  method AddNodeUnder(g: Graphs.Graph, b: Budget, arch: Id, task: Task, deps: seq<Id>, ghost p: Progress)
    returns (granted: bool, id: Id)
    requires At(g, b, p)
    modifies g, g.nodes.Values, b
    ensures granted == Affords(b.limits, p, task.tool)
    ensures granted ==> At(g, b, AddUnder(p, arch, task, deps)) && id == NodeName(|p.net.order| + 1)
    ensures !granted ==> At(g, b, p)
    ensures fresh(g.nodes.Values - old(g.nodes.Values))
  {
    hide Graphs.Graph.Valid, NetOk, WithNode, WithChild, Grants;
    id := "";
    granted := b.TrySpawnNode(task.tool, false);
    if !granted { return; }
    var n := new Graphs.Node(task, deps);
    id := g.AddNode(n);
    g.AddChild(arch, id);
  }

  method TryAddNode(g: Graphs.Graph, b: Budget, arch: Id, task: Task, grafted0: seq<Id>, ghost p: Progress)
    returns (grafted: seq<Id>)
    requires At(g, b, p) && grafted0 == p.grafted
    modifies g, g.nodes.Values, b
    ensures At(g, b, TryAdd(b.limits, p, arch, task)) && grafted == TryAdd(b.limits, p, arch, task).grafted
    ensures fresh(g.nodes.Values - old(g.nodes.Values))
  {
    hide At;
    grafted := grafted0;
    var granted, id := AddNodeUnder(g, b, arch, task, [], p);
    if granted { grafted := grafted + [id]; }
  }

  lemma Reading(g: Graphs.Graph, b: Budget, p: Progress, id: Id)
    requires At(g, b, p)
    ensures NetOk(p.net) && g.order == p.net.order
    ensures id in g.nodes <==> id in p.net.nodes
    ensures id in g.nodes ==> g.nodes[id].View() == p.net.nodes[id]
  {}

  method GraftTask(g: Graphs.Graph, b: Budget, s: Settings, arch: Id, child: Id, grafted0: seq<Id>, ghost p: Progress)
    returns (grafted: seq<Id>)
    requires At(g, b, p) && grafted0 == p.grafted
    modifies g, g.nodes.Values, b
    ensures var q := GraftService(b.limits, s, GraftExec(b.limits, s, p, arch, child), arch, child);
      At(g, b, q) && grafted == q.grafted
    ensures fresh(g.nodes.Values - old(g.nodes.Values))
  {
    hide At, TryAdd;
    grafted := grafted0;
    Reading(g, b, p, child);
    if child !in g.nodes { return; }
    var tag, params := g.nodes[child].task.tag, g.nodes[child].task.params;
    ghost var q := GraftExec(b.limits, s, p, arch, child);
    if ExecCommand(params) != "" {
      grafted := TryAddNode(g, b, arch, ExecTask(s, arch, tag, ExecCommand(params)), grafted, p);
    }
    TaskKept(b.limits, s, p, arch, child);
    var svc := ServiceOf(params);
    if svc.NoEntry? || TextAt(svc.value, "command") == "" { return; }
    grafted := TryAddNode(g, b, arch, CoderService(s, arch, tag, svc.value), grafted, q);
  }

  lemma TaskKept(l: Limits, s: Settings, p: Progress, arch: Id, child: Id)
    requires NetOk(p.net) && child in p.net.nodes
    ensures var q := GraftExec(l, s, p, arch, child);
      child in q.net.nodes && q.net.nodes[child].task == p.net.nodes[child].task
  {
    FreshName(p.net);
  }

  method GraftTasks(g: Graphs.Graph, b: Budget, s: Settings, arch: Id, children: seq<Id>, ghost p: Progress)
    returns (grafted: seq<Id>)
    requires At(g, b, p) && p.grafted == []
    modifies g, g.nodes.Values, b
    ensures var q := GraftCoders(b.limits, s, p, arch, children); At(g, b, q) && grafted == q.grafted
    ensures fresh(g.nodes.Values - old(g.nodes.Values))
  {
    hide At, GraftExec, GraftService;
    grafted := [];
    ghost var q := p;
    for k := 0 to |children|
      invariant At(g, b, q) && grafted == q.grafted
      invariant GraftCoders(b.limits, s, q, arch, children[k..]) == GraftCoders(b.limits, s, p, arch, children)
      invariant fresh(g.nodes.Values - old(g.nodes.Values))
    {
      assert children[k..][1..] == children[k + 1..];
      grafted := GraftTask(g, b, s, arch, children[k], grafted, q);
      q := GraftService(b.limits, s, GraftExec(b.limits, s, q, arch, children[k]), arch, children[k]);
    }
  }

  method FindServed(g: Graphs.Graph, b: Budget, already: seq<Id>, name: string, ghost p: Progress) returns (dup: bool)
    requires At(g, b, p)
    ensures dup == AlreadyServed(p.net, already, name)
  {
    hide At;
    for k := 0 to |already|
      invariant forall j :: 0 <= j < k ==> !ServesName(p.net, already[j], name)
    {
      Reading(g, b, p, already[k]);
      if already[k] in g.nodes {
        var task := g.nodes[already[k]].task;
        if task.tool == "service" && task.tag == name {
          assert already[k] in already && ServesName(p.net, already[k], name);
          return true;
        }
      }
    }
    return false;
  }

  method GraftTopServices(g: Graphs.Graph, b: Budget, arch: Id, services: seq<Service>, already: seq<Id>, ghost p: Progress)
    returns (grafted: seq<Id>)
    requires At(g, b, p) && already == p.grafted
    modifies g, g.nodes.Values, b
    ensures var q := GraftServices(b.limits, p, arch, services, already); At(g, b, q) && grafted == q.grafted
    ensures fresh(g.nodes.Values - old(g.nodes.Values))
  {
    hide At, AddUnder, Affords, AlreadyServed;
    grafted := already;
    ghost var q := p;
    for k := 0 to |services|
      invariant At(g, b, q) && grafted == q.grafted
      invariant GraftServices(b.limits, q, arch, services[k..], already) == GraftServices(b.limits, p, arch, services, already)
      invariant fresh(g.nodes.Values - old(g.nodes.Values))
    {
      assert services[k..][1..] == services[k + 1..];
      var svc := services[k];
      if svc.command == "" { continue; }
      var dup := FindServed(g, b, already, ServiceName(svc), q);
      if dup { continue; }
      var granted, id := AddNodeUnder(g, b, arch, TopService(arch, svc), [], q);
      if !granted { return; }
      NewGrafted(q, arch, TopService(arch, svc), []);
      grafted := grafted + [id];
      q := AddUnder(q, arch, TopService(arch, svc), []);
    }
  }

  lemma NewGrafted(p: Progress, arch: Id, task: Task, deps: seq<Id>)
    ensures AddUnder(p, arch, task, deps).grafted == p.grafted + [NodeName(|p.net.order| + 1)]
  {}

  method GraftValidation(g: Graphs.Graph, b: Budget, s: Settings, arch: Id, checks: seq<Check>, prior: seq<Id>, ghost p: Progress)
    returns (grafted: seq<Id>)
    requires At(g, b, p) && prior == p.grafted
    modifies g, g.nodes.Values, b
    ensures var q := GraftChecks(b.limits, s, p, arch, checks, prior, 0); At(g, b, q) && grafted == q.grafted
    ensures fresh(g.nodes.Values - old(g.nodes.Values))
  {
    hide At, AddUnder, Affords;
    grafted := prior;
    var made := 0;
    ghost var q := p;
    for k := 0 to |checks|
      invariant At(g, b, q) && grafted == q.grafted
      invariant GraftChecks(b.limits, s, q, arch, checks[k..], prior, made) == GraftChecks(b.limits, s, p, arch, checks, prior, 0)
      invariant fresh(g.nodes.Values - old(g.nodes.Values))
    {
      assert checks[k..][1..] == checks[k + 1..];
      if checks[k].command == "" { continue; }
      var task := CheckTask(s, arch, checks[k], made);
      var granted, id := AddNodeUnder(g, b, arch, task, prior, q);
      if !granted { return; }
      NewGrafted(q, arch, task, prior);
      grafted, made := grafted + [id], made + 1;
      q := AddUnder(q, arch, task, prior);
    }
  }

  method FindCoders(g: Graphs.Graph, b: Budget, arch: Id, ghost p: Progress) returns (coders: seq<Id>)
    requires At(g, b, p)
    ensures coders == CoderChildren(p.net, arch)
  {
    Reading(g, b, p, arch);
    hide At;
    if arch !in g.nodes { return []; }
    var children := g.nodes[arch].children;
    coders := [];
    for k := 0 to |children|
      invariant coders == Select(children[..k], CoderTest(p.net, arch))
    {
      SelectNext(children, k, CoderTest(p.net, arch));
      Reading(g, b, p, children[k]);
      if children[k] in g.nodes {
        var task := g.nodes[children[k]].task;
        if task.kind == Compute && task.spawnedBy == arch { coders := coders + [children[k]]; }
      }
    }
    assert children[..|children|] == children;
  }

  /** The scan over the coders: is one still at work, has one failed? */
  method Settled(g: Graphs.Graph, b: Budget, coders: seq<Id>, ghost p: Progress) returns (settled: bool, failed: bool)
    requires At(g, b, p) && forall c :: c in coders ==> c in p.net.nodes
    ensures settled == AllTerminal(p.net, coders)
    ensures settled ==> failed == !AllResolved(p.net, coders)
  {
    hide At;
    settled, failed := true, false;
    for k := 0 to |coders|
      invariant forall j :: 0 <= j < k ==> Done(p.net, coders[j])
      invariant failed <==> exists j :: 0 <= j < k && p.net.nodes[coders[j]].state != Resolved
    {
      Reading(g, b, p, coders[k]);
      assert coders[k] in coders;
      var state := g.nodes[coders[k]].state;
      if !Terminal(state) {
        assert !Done(p.net, coders[k]);
        return false, failed;
      }
      if state != Resolved { failed := true; }
    }
  }

  /** agent/architect_graft.go, graftArchitectRunNodes. */
  method GraftArchitectRunNodes(g: Graphs.Graph, b: Budget, s: Settings, arch: Id, plan: Blueprint) returns (grafted: seq<Id>)
    requires g.Valid()
    modifies g, g.nodes.Values, b
    ensures g.Valid() && g.net == GraftRun(b.limits, s, old(g.net), old(b.View()), arch, plan).net
    ensures b.View() == GraftRun(b.limits, s, old(g.net), old(b.View()), arch, plan).spent
    ensures grafted == GraftRun(b.limits, s, old(g.net), old(b.View()), arch, plan).grafted
  {
    hide GraftAll, AllTerminal, AllResolved, CoderChildren, NetOk;
    ghost var was := Progress(g.net, b.View(), []);
    Reading(g, b, was, arch);
    if arch !in g.nodes || g.nodes[arch].runGrafted { return []; }
    var coders := FindCoders(g, b, arch, was);
    if coders == [] { return []; }
    var settled, failed := Settled(g, b, coders, was);
    if !settled { return []; }
    g.MarkRunGrafted(arch);
    if failed || plan == Unreadable { return []; }
    grafted := CarryOut(g, b, s, arch, coders, plan, Progress(g.net, b.View(), []));
  }

  method CarryOut(g: Graphs.Graph, b: Budget, s: Settings, arch: Id, coders: seq<Id>, plan: Blueprint, ghost p: Progress)
    returns (grafted: seq<Id>)
    requires At(g, b, p) && p.grafted == [] && plan.Blueprint?
    modifies g, g.nodes.Values, b
    ensures At(g, b, GraftAll(b.limits, s, p, arch, coders, plan))
    ensures grafted == GraftAll(b.limits, s, p, arch, coders, plan).grafted
  {
    hide GraftCoders, GraftServices, GraftChecks, AlsoWaited;
    grafted := GraftTasks(g, b, s, arch, coders, p);
    ghost var tasks := GraftCoders(b.limits, s, p, arch, coders);
    grafted := GraftTopServices(g, b, arch, plan.services, grafted, tasks);
    ghost var run := GraftServices(b.limits, tasks, arch, plan.services, tasks.grafted);
    grafted := GraftValidation(g, b, s, arch, plan.checks, grafted, run);
    if grafted == [] { return; }
    var waited := g.AlsoWaitFor(coders, grafted);
  }
}
