/** What the late graft puts into the graph: exactly which commands, services and checks, in which order, and which of them
    the budget keeps out. */
module LateGraftWork {
  import opened Decimal
  import opened Values
  import opened Nets
  import opened Budgets
  import opened LateGraft
  import opened LateGraftLaws

  // ---- What a coder's parameters ask for ----

  /** The first field of that name holds w. */
  ghost predicate Holds(v: Val, key: string, w: Val) {
    v.Obj? && FirstHolds(v.fields, key, w)
  }

  /** Its text, "" when it holds none. */
  ghost function Says(v: Val, key: string): string {
    if t :| Holds(v, key, Str(t)) then Spelled(t) else ""
  }

  ghost predicate Declares(params: Val, svc: Val) {
    Holds(params, "service", svc) && svc.Obj?
  }

  /** What runs once: the command the coder wants run, unless it declares the same one as a service. */
  ghost function RunOnce(s: Settings, arch: Id, tag: string, params: Val): seq<Task> {
    var command := Says(params, "execute");
    if command == "" || (exists svc :: Declares(params, svc) && Says(svc, "command") == command) then []
    else
      [Task(Tool, "bash", tag + "_exec", "builtin", arch,
            Obj([Field("command", Str([Lit(command)]))]
                + if s.timeout > 0 then [Field("timeout_sec", Scalar(Numeral(s.timeout)))] else []), [])]
  }

  ghost function Started(arch: Id, name: string, command: string, workdir: string, port: seq<Field>): Task {
    Task(Tool, "service", name, "builtin", arch,
         Obj([Field("action", Str([Lit("start")])), Field("command", Str([Lit(command)])), Field("name", Str([Lit(name)]))]
             + (if workdir == "" then [] else [Field("workdir", Str([Lit(workdir)]))]) + port), [])
  }

  ghost function PortOf(s: Settings, svc: Val): seq<Field> {
    if raw :| Holds(svc, "port", Scalar(raw)) then (if s.positive(raw) then [Field("port", Scalar(raw))] else []) else []
  }

  /** What keeps running: the service the coder declares, when that has a command. */
  ghost function KeepRunning(s: Settings, arch: Id, tag: string, params: Val): seq<Task> {
    if svc :| Declares(params, svc) then
      if Says(svc, "command") == "" then []
      else [Started(arch, if Says(svc, "name") == "" then tag + "_svc" else Says(svc, "name"), Says(svc, "command"),
                    Says(svc, "workdir"), PortOf(s, svc))]
    else []
  }

  ghost function CoderWork(s: Settings, arch: Id, task: Task): seq<Task> {
    RunOnce(s, arch, task.tag, task.params) + KeepRunning(s, arch, task.tag, task.params)
  }

  ghost function CodersWork(s: Settings, net: Net, arch: Id, coders: seq<Id>): seq<Task>
    requires forall c :: c in coders ==> c in net.nodes
  {
    if coders == [] then [] else CoderWork(s, arch, net.nodes[coders[0]].task) + CodersWork(s, net, arch, coders[1..])
  }

  // ---- What the architect's reply asks for ----

  ghost predicate Taken(made: seq<Task>, name: string) {
    exists t :: t in made && t.tool == "service" && t.tag == name
  }

  /** The architect's own services that have a command and a name no coder's service took. */
  ghost function ServiceWork(arch: Id, services: seq<Service>, made: seq<Task>): seq<Task> {
    if services == [] then []
    else
      var svc, rest := services[0], ServiceWork(arch, services[1..], made);
      var name := if svc.name == "" then "service" else svc.name;
      if svc.command == "" || Taken(made, name) then rest
      else [Started(arch, name, svc.command, svc.workdir, if svc.port > 0 then [Field("port", Scalar(Numeral(svc.port)))] else [])] + rest
  }

  /** The checks that have a command, the first of them being the k-th. */
  ghost function CheckWork(s: Settings, arch: Id, checks: seq<Check>, k: nat): seq<Task> {
    if checks == [] then []
    else if checks[0].command == "" then CheckWork(s, arch, checks[1..], k)
    else
      var name := s.sanitize(checks[0].name);
      [Task(Tool, "bash", if name == "" then "verify_" + Numeral(k) else "verify_" + name, "builtin", arch,
            Obj([Field("command", Str([Lit("sleep 3 && " + checks[0].command)])), Field("timeout_sec", Scalar("20"))]), [])]
      + CheckWork(s, arch, checks[1..], k + 1)
  }

  // ---- What the budget lets through ----

  function SpentOn(c: Counts, made: seq<Task>): Counts
    decreases made
  {
    if made == [] then c else SpentOn(Charged(c, made[0].tool, false, true), made[1..])
  }

  /** Each piece of work that has room when its turn comes. */
  ghost function Afforded(l: Limits, c: Counts, wanted: seq<Task>): seq<Task>
    decreases wanted
  {
    if wanted == [] then []
    else if Grants(l, c, wanted[0].tool, false) then [wanted[0]] + Afforded(l, Charged(c, wanted[0].tool, false, true), wanted[1..])
    else Afforded(l, c, wanted[1..])
  }

  /** All pieces of work up to the first that has none. */
  ghost function UntilRefused(l: Limits, c: Counts, wanted: seq<Task>): seq<Task>
    decreases wanted
  {
    if wanted == [] || !Grants(l, c, wanted[0].tool, false) then []
    else [wanted[0]] + UntilRefused(l, Charged(c, wanted[0].tool, false, true), wanted[1..])
  }

  lemma {:induction false} SpentOnBoth(c: Counts, a: seq<Task>, b: seq<Task>)
    ensures SpentOn(c, a + b) == SpentOn(SpentOn(c, a), b)
    decreases |a|
  {
    hide Charged;
    if a == [] {
      assert a + b == b;
    } else {
      assert (a + b)[0] == a[0] && (a + b)[1..] == a[1..] + b;
      SpentOnBoth(Charged(c, a[0].tool, false, true), a[1..], b);
    }
  }

  lemma {:induction false} AffordedBoth(l: Limits, c: Counts, a: seq<Task>, b: seq<Task>)
    ensures Afforded(l, c, a + b) == Afforded(l, c, a) + Afforded(l, SpentOn(c, Afforded(l, c, a)), b)
    decreases |a|
  {
    hide Charged, Grants;
    if a == [] {
      assert a + b == b;
    } else {
      assert (a + b)[0] == a[0] && (a + b)[1..] == a[1..] + b;
      var next := Charged(c, a[0].tool, false, true);
      if Grants(l, c, a[0].tool, false) {
        AffordedBoth(l, next, a[1..], b);
        var rest := Afforded(l, next, a[1..]);
        assert ([a[0]] + rest)[1..] == rest;
      } else {
        AffordedBoth(l, c, a[1..], b);
      }
    }
  }

  // ---- Reading a coder's parameters ----

  lemma {:induction false} EntryHolds(fields: seq<Field>, key: string)
    ensures forall w :: FirstHolds(fields, key, w) <==> EntryAt(fields, key) == Entry(w)
  {
    if fields != [] {
      EntryHolds(fields[1..], key);
      forall w ensures FirstHolds(fields, key, w) <==> EntryAt(fields, key) == Entry(w) { HoldsNext(fields, key, w); }
    }
  }

  lemma FieldHolds(v: Val, key: string)
    ensures forall w :: Holds(v, key, w) <==> FieldAt(v, key) == Entry(w)
  {
    if v.Obj? { EntryHolds(v.fields, key); }
  }

  lemma TextSays(v: Val, key: string)
    ensures TextAt(v, key) == Says(v, key)
  {
    FieldHolds(v, key);
    hide Holds, FieldAt;
  }

  lemma ServiceDeclared(params: Val)
    ensures forall svc :: Declares(params, svc) <==> ServiceOf(params) == Entry(svc)
  {
    FieldHolds(params, "service");
    hide Holds, FieldAt;
  }

  lemma ExecIsRunOnce(s: Settings, arch: Id, tag: string, params: Val)
    ensures RunOnce(s, arch, tag, params) == if ExecCommand(params) == "" then [] else [ExecTask(s, arch, tag, ExecCommand(params))]
  {
    TextSays(params, "execute");
    ServiceDeclared(params);
    var svc := ServiceOf(params);
    if svc.Entry? { TextSays(svc.value, "command"); }
    hide Says, Declares, TextAt, ServiceOf;
  }

  lemma ServiceKeepsRunning(s: Settings, arch: Id, tag: string, params: Val)
    ensures var svc := ServiceOf(params);
      KeepRunning(s, arch, tag, params) ==
        if svc.NoEntry? || TextAt(svc.value, "command") == "" then [] else [CoderService(s, arch, tag, svc.value)]
  {
    ServiceDeclared(params);
    var svc := ServiceOf(params);
    if svc.Entry? {
      TextSays(svc.value, "command");
      TextSays(svc.value, "name");
      TextSays(svc.value, "workdir");
      PortIs(s, svc.value);
    }
    hide Says, Declares, TextAt, ServiceOf, FieldAt, PortOf;
  }

  lemma PortIs(s: Settings, svc: Val)
    ensures var port := FieldAt(svc, "port");
      PortOf(s, svc) == if port.Entry? && port.value.Scalar? && s.positive(port.value.raw) then [Field("port", port.value)] else []
  {
    FieldHolds(svc, "port");
    hide Holds, FieldAt;
  }

  // ---- Progress ----

  ghost function TasksOf(net: Net, ids: seq<Id>): seq<Task>
    requires forall id :: id in ids ==> id in net.nodes
  {
    seq(|ids|, k requires 0 <= k < |ids| => assert ids[k] in ids; net.nodes[ids[k]].task)
  }

  /** From p to q: the given work, one node for each piece in order, and what it costs; all that was there keeps its own. */
  ghost predicate Grafts(p: Progress, made: seq<Task>, q: Progress) {
    && q.spent == SpentOn(p.spent, made) && p.grafted <= q.grafted && |q.grafted| == |p.grafted| + |made|
    && (forall k :: 0 <= k < |made| ==> RunsAt(q, |p.grafted| + k, made[k]))
    && forall id :: id in p.net.nodes ==> id in q.net.nodes && q.net.nodes[id].task == p.net.nodes[id].task
  }

  ghost predicate RunsAt(q: Progress, k: nat, task: Task) {
    k < |q.grafted| && q.grafted[k] in q.net.nodes && q.net.nodes[q.grafted[k]].task == task
  }

  lemma NothingGrafts(p: Progress)
    ensures Grafts(p, [], p)
  {}

  lemma GraftsBoth(p: Progress, a: seq<Task>, q: Progress, b: seq<Task>, r: Progress)
    requires Grafts(p, a, q) && Grafts(q, b, r)
    ensures Grafts(p, a + b, r)
  {
    SpentOnBoth(p.spent, a, b);
    hide SpentOn;
    forall k | 0 <= k < |a + b| ensures RunsAt(r, |p.grafted| + k, (a + b)[k]) {
      if k < |a| {
        assert RunsAt(q, |p.grafted| + k, a[k]) && r.grafted[|p.grafted| + k] == q.grafted[|p.grafted| + k];
      } else {
        assert RunsAt(r, |q.grafted| + (k - |a|), b[k - |a|]);
      }
    }
  }

  lemma OneMoreGrafts(p: Progress, arch: Id, task: Task, deps: seq<Id>, q: Progress)
    requires arch in p.net.nodes && OneMore(p, arch, NewInfo(task, deps), q) && q.spent == Charged(p.spent, task.tool, false, true)
    ensures Grafts(p, [task], q)
  {
    hide NetOk, NodeName, Charged;
    assert [task][1..] == [];
    assert SpentOn(p.spent, [task]) == SpentOn(q.spent, []);
    assert RunsAt(q, |p.grafted|, task);
  }

  lemma AddGrafts(net: Net, arch: Id, p: Progress, task: Task, deps: seq<Id>)
    requires Grown(net, arch, p)
    ensures Grafts(p, [task], AddUnder(p, arch, task, deps))
  {
    ArchThere(net, arch, p);
    assert NetOk(p.net);
    AddUnderIs(p, arch, task, deps);
    SpentOne(p, arch, task, deps);
    hide *;
    OneMoreGrafts(p, arch, task, deps, AddUnder(p, arch, task, deps));
  }

  lemma SpentOne(p: Progress, arch: Id, task: Task, deps: seq<Id>)
    ensures AddUnder(p, arch, task, deps).spent == Charged(p.spent, task.tool, false, true)
  {}

  /** Trying one piece of work. */
  lemma TryGrafts(l: Limits, net: Net, arch: Id, p: Progress, task: Task)
    requires Grown(net, arch, p)
    ensures Grafts(p, Afforded(l, p.spent, [task]), TryAdd(l, p, arch, task))
  {
    AffordedOne(l, p.spent, task);
    hide Grown, Grafts, AddUnder, Afforded, Grants;
    NothingGrafts(p);
    AddGrafts(net, arch, p, task, []);
  }

  lemma AffordedOne(l: Limits, c: Counts, task: Task)
    ensures Afforded(l, c, [task]) == if Grants(l, c, task.tool, false) then [task] else []
    ensures Afforded(l, c, []) == []
  {
    assert [task][1..] == [];
  }

  /** Trying at most one. */
  lemma TryAtMostOne(l: Limits, net: Net, arch: Id, p: Progress, wanted: seq<Task>, q: Progress)
    requires Grown(net, arch, p) && |wanted| <= 1 && (forall t :: t in wanted ==> t.kind == Tool && t.spawnedBy == arch)
    requires q == if wanted == [] then p else TryAdd(l, p, arch, wanted[0])
    ensures Grafts(p, Afforded(l, p.spent, wanted), q) && Grown(net, arch, q)
  {
    hide Grown, Grafts, TryAdd;
    if wanted == [] {
      NothingGrafts(p);
    } else {
      assert wanted == [wanted[0]] && wanted[0] in wanted;
      TryGrafts(l, net, arch, p, wanted[0]);
      TryAddGrows(l, net, arch, p, wanted[0]);
    }
  }

  /** One coder: what runs once, then what keeps running. */
  lemma CoderGrafts(l: Limits, s: Settings, net: Net, arch: Id, p: Progress, child: Id)
    requires Grown(net, arch, p) && child in p.net.nodes
    ensures var q := GraftService(l, s, GraftExec(l, s, p, arch, child), arch, child);
      Grafts(p, Afforded(l, p.spent, CoderWork(s, arch, p.net.nodes[child].task)), q) && Grown(net, arch, q)
  {
    var task := p.net.nodes[child].task;
    var once, on := RunOnce(s, arch, task.tag, task.params), KeepRunning(s, arch, task.tag, task.params);
    var mid := GraftExec(l, s, p, arch, child);
    var end := GraftService(l, s, mid, arch, child);
    ExecIsRunOnce(s, arch, task.tag, task.params);
    ServiceKeepsRunning(s, arch, task.tag, task.params);
    OwnWork(s, arch, task);
    ExecTries(l, s, p, arch, child);
    hide Grown, Grafts, TryAdd, RunOnce, KeepRunning, Afforded;
    TryAtMostOne(l, net, arch, p, once, mid);
    TaskStays(p, Afforded(l, p.spent, once), mid, child);
    ServiceTries(l, s, mid, arch, child);
    TryAtMostOne(l, net, arch, mid, on, end);
    GraftsBoth(p, Afforded(l, p.spent, once), mid, Afforded(l, mid.spent, on), end);
    SpentIs(p, Afforded(l, p.spent, once), mid);
    AffordedBoth(l, p.spent, once, on);
  }

  lemma SpentIs(p: Progress, made: seq<Task>, q: Progress)
    requires Grafts(p, made, q)
    ensures q.spent == SpentOn(p.spent, made)
  {}

  lemma TaskStays(p: Progress, made: seq<Task>, q: Progress, id: Id)
    requires Grafts(p, made, q) && id in p.net.nodes
    ensures id in q.net.nodes && q.net.nodes[id].task == p.net.nodes[id].task
  {}

  lemma OwnWork(s: Settings, arch: Id, task: Task)
    ensures forall t :: t in RunOnce(s, arch, task.tag, task.params) ==> t.kind == Tool && t.spawnedBy == arch
    ensures forall t :: t in KeepRunning(s, arch, task.tag, task.params) ==> t.kind == Tool && t.spawnedBy == arch
  {
    hide Says, Declares, PortOf;
  }

  lemma ExecTries(l: Limits, s: Settings, p: Progress, arch: Id, child: Id)
    requires child in p.net.nodes
    ensures var task := p.net.nodes[child].task;
      GraftExec(l, s, p, arch, child) ==
        if ExecCommand(task.params) == "" then p else TryAdd(l, p, arch, ExecTask(s, arch, task.tag, ExecCommand(task.params)))
  {}

  lemma ServiceTries(l: Limits, s: Settings, p: Progress, arch: Id, child: Id)
    requires child in p.net.nodes
    ensures var task := p.net.nodes[child].task;
      var svc := ServiceOf(task.params);
      GraftService(l, s, p, arch, child) ==
        if svc.NoEntry? || TextAt(svc.value, "command") == "" then p else TryAdd(l, p, arch, CoderService(s, arch, task.tag, svc.value))
  {}

  lemma {:induction false} CodersGraft(l: Limits, s: Settings, net: Net, arch: Id, p: Progress, children: seq<Id>)
    requires Grown(net, arch, p) && forall c :: c in children ==> c in net.nodes
    ensures var q := GraftCoders(l, s, p, arch, children);
      Grafts(p, Afforded(l, p.spent, CodersWork(s, net, arch, children)), q) && Grown(net, arch, q)
    decreases children
  {
    if children == [] {
      AffordedOne(l, p.spent, Task(Tool, "", "", "", "", Scalar(""), []));
      hide Grown;
      NothingGrafts(p);
    } else {
      OldTask(net, arch, p, children[0]);
      hide Grown, Grafts, CoderWork, Afforded, GraftExec, GraftService;
      CoderGrafts(l, s, net, arch, p, children[0]);
      var q := GraftService(l, s, GraftExec(l, s, p, arch, children[0]), arch, children[0]);
      CodersGraft(l, s, net, arch, q, children[1..]);
      var first, rest := CoderWork(s, arch, net.nodes[children[0]].task), CodersWork(s, net, arch, children[1..]);
      SpentIs(p, Afforded(l, p.spent, first), q);
      GraftsBoth(p, Afforded(l, p.spent, first), q, Afforded(l, q.spent, rest), GraftCoders(l, s, q, arch, children[1..]));
      AffordedBoth(l, p.spent, first, rest);
    }
  }

  lemma OldTask(net: Net, arch: Id, p: Progress, id: Id)
    requires Grown(net, arch, p) && id in net.nodes
    ensures id in p.net.nodes && p.net.nodes[id].task == net.nodes[id].task
  {}

  // ---- The architect's own services, and the checks ----

  /** The listed nodes run the listed work. */
  ghost predicate Running(net: Net, ids: seq<Id>, made: seq<Task>) {
    |ids| == |made| && forall k :: 0 <= k < |ids| ==> ids[k] in net.nodes && net.nodes[ids[k]].task == made[k]
  }

  lemma ServedIff(net: Net, already: seq<Id>, made: seq<Task>, name: string)
    requires Running(net, already, made)
    ensures AlreadyServed(net, already, name) <==> Taken(made, name)
  {
    if g :| g in already && ServesName(net, g, name) {
      var k :| 0 <= k < |already| && already[k] == g;
      assert made[k] in made;
    }
    if t :| t in made && t.tool == "service" && t.tag == name {
      var k :| 0 <= k < |made| && made[k] == t;
      assert already[k] in already && ServesName(net, already[k], name);
    }
  }

  lemma StillRunning(p: Progress, more: seq<Task>, q: Progress, ids: seq<Id>, made: seq<Task>)
    requires Grafts(p, more, q) && Running(p.net, ids, made)
    ensures Running(q.net, ids, made)
  {}

  lemma GraftedRuns(p: Progress, made: seq<Task>, q: Progress)
    requires Grafts(p, made, q) && p.grafted == []
    ensures Running(q.net, q.grafted, made)
  {
    forall k | 0 <= k < |q.grafted| ensures q.grafted[k] in q.net.nodes && q.net.nodes[q.grafted[k]].task == made[k] {
      assert RunsAt(q, |p.grafted| + k, made[k]);
    }
  }

  lemma RefusedNone(l: Limits, c: Counts, wanted: seq<Task>)
    requires wanted == [] || !Grants(l, c, wanted[0].tool, false)
    ensures UntilRefused(l, c, wanted) == []
  {}

  lemma NotRefused(l: Limits, c: Counts, task: Task, rest: seq<Task>)
    requires Grants(l, c, task.tool, false)
    ensures UntilRefused(l, c, [task] + rest) == [task] + UntilRefused(l, Charged(c, task.tool, false, true), rest)
  {
    assert ([task] + rest)[1..] == rest;
  }

  /** One piece of work that has room, then the rest. */
  lemma ThenRest(l: Limits, net: Net, arch: Id, p: Progress, task: Task, deps: seq<Id>, rest: seq<Task>, r: Progress)
    requires Grown(net, arch, p) && Grants(l, p.spent, task.tool, false)
    requires var q := AddUnder(p, arch, task, deps); Grafts(q, UntilRefused(l, q.spent, rest), r)
    ensures Grafts(p, UntilRefused(l, p.spent, [task] + rest), r)
  {
    hide *;
    var q := AddUnder(p, arch, task, deps);
    AddGrafts(net, arch, p, task, deps);
    SpentOne(p, arch, task, deps);
    NotRefused(l, p.spent, task, rest);
    GraftsBoth(p, [task], q, UntilRefused(l, q.spent, rest), r);
  }

  lemma TopIsStarted(arch: Id, svc: Service)
    ensures var name := if svc.name == "" then "service" else svc.name;
      TopService(arch, svc)
        == Started(arch, name, svc.command, svc.workdir, if svc.port > 0 then [Field("port", Scalar(Numeral(svc.port)))] else [])
      && ServiceName(svc) == name && TopService(arch, svc).tool == "service"
      && TopService(arch, svc).kind == Tool && TopService(arch, svc).spawnedBy == arch
  {}

  lemma {:induction false} ServicesGraft(l: Limits, net: Net, arch: Id, p: Progress, services: seq<Service>, already: seq<Id>, made: seq<Task>)
    requires Grown(net, arch, p) && Running(p.net, already, made)
    ensures Grafts(p, UntilRefused(l, p.spent, ServiceWork(arch, services, made)), GraftServices(l, p, arch, services, already))
    decreases services
  {
    hide Grown, Grafts, UntilRefused, AddUnder, Grants, AlreadyServed, Taken, Running, TopService, Started;
    if services == [] {
      RefusedNone(l, p.spent, []);
      NothingGrafts(p);
    } else {
      TopIsStarted(arch, services[0]);
      ServedIff(p.net, already, made, ServiceName(services[0]));
      if services[0].command == "" || AlreadyServed(p.net, already, ServiceName(services[0])) {
        ServicesGraft(l, net, arch, p, services[1..], already, made);
      } else if Affords(l, p, "service") {
        var task := TopService(arch, services[0]);
        var q := AddUnder(p, arch, task, []);
        AddUnderGrows(net, arch, p, task, []);
        AddGrafts(net, arch, p, task, []);
        StillRunning(p, [task], q, already, made);
        ServicesGraft(l, net, arch, q, services[1..], already, made);
        ThenRest(l, net, arch, p, task, [], ServiceWork(arch, services[1..], made), GraftServices(l, q, arch, services[1..], already));
      } else {
        RefusedNone(l, p.spent, ServiceWork(arch, services, made));
        NothingGrafts(p);
      }
    }
  }

  lemma CheckIs(s: Settings, arch: Id, c: Check, k: nat)
    ensures var name := s.sanitize(c.name);
      CheckTask(s, arch, c, k)
        == Task(Tool, "bash", if name == "" then "verify_" + Numeral(k) else "verify_" + name, "builtin", arch,
                Obj([Field("command", Str([Lit("sleep 3 && " + c.command)])), Field("timeout_sec", Scalar("20"))]), [])
  {
    var name := s.sanitize(c.name);
    assert |"verify_" + name| == 7 + |name|;
    if name == "" { assert "verify_" + name == "verify_"; }
  }

  lemma {:induction false} ChecksGraft(l: Limits, s: Settings, net: Net, arch: Id, p: Progress, checks: seq<Check>, prior: seq<Id>, k: nat)
    requires Grown(net, arch, p) && prior <= p.grafted
    ensures Grafts(p, UntilRefused(l, p.spent, CheckWork(s, arch, checks, k)), GraftChecks(l, s, p, arch, checks, prior, k))
    decreases checks
  {
    hide Grown, Grafts, UntilRefused, AddUnder, Grants, CheckTask;
    if checks == [] {
      RefusedNone(l, p.spent, []);
      NothingGrafts(p);
    } else if checks[0].command == "" {
      ChecksGraft(l, s, net, arch, p, checks[1..], prior, k);
    } else {
      CheckIs(s, arch, checks[0], k);
      var task := CheckTask(s, arch, checks[0], k);
      if Affords(l, p, "bash") {
        var q := AddUnder(p, arch, task, prior);
        AddUnderGrows(net, arch, p, task, prior);
        GrownPrior(p, arch, task, prior);
        ChecksGraft(l, s, net, arch, q, checks[1..], prior, k + 1);
        ThenRest(l, net, arch, p, task, prior, CheckWork(s, arch, checks[1..], k + 1), GraftChecks(l, s, q, arch, checks[1..], prior, k + 1));
      } else {
        RefusedNone(l, p.spent, CheckWork(s, arch, checks, k));
        NothingGrafts(p);
      }
    }
  }

  lemma GrownPrior(p: Progress, arch: Id, task: Task, deps: seq<Id>)
    ensures p.grafted <= AddUnder(p, arch, task, deps).grafted
  {}

  // ---- The whole call ----

  /** What a due call wants done for the coders, and what of it there was room for; and so on for the rest. */
  ghost predicate CallMakes(l: Limits, s: Settings, net: Net, spent: Counts, arch: Id, coders: seq<Id>, plan: Blueprint, r: Progress)
    requires (forall c :: c in coders ==> c in net.nodes) && plan.Blueprint?
  {
    var tasks := Afforded(l, spent, CodersWork(s, net, arch, coders));
    var c1 := SpentOn(spent, tasks);
    var services := UntilRefused(l, c1, ServiceWork(arch, plan.services, tasks));
    var c2 := SpentOn(c1, services);
    var checks := UntilRefused(l, c2, CheckWork(s, arch, plan.checks, 0));
    Running(r.net, r.grafted, tasks + services + checks) && r.spent == SpentOn(c2, checks)
  }

  lemma AllGraft(l: Limits, s: Settings, net: Net, spent: Counts, arch: Id, coders: seq<Id>, plan: Blueprint)
    requires NetOk(net) && arch in net.nodes && plan.Blueprint? && forall c :: c in coders ==> c in net.nodes
    ensures var run := RunPart(l, s, Progress(net, spent, []), arch, coders, plan.services);
      CallMakes(l, s, net, spent, arch, coders, plan, GraftChecks(l, s, run, arch, plan.checks, run.grafted, 0))
  {
    var p := Progress(net, spent, []);
    var a := GraftCoders(l, s, p, arch, coders);
    var b := GraftServices(l, a, arch, plan.services, a.grafted);
    var c := GraftChecks(l, s, b, arch, plan.checks, b.grafted, 0);
    assert b == RunPart(l, s, p, arch, coders, plan.services);
    var tasks := Afforded(l, spent, CodersWork(s, net, arch, coders));
    hide Grown, Grafts, GraftCoders, GraftServices, GraftChecks, RunPart, Afforded, UntilRefused, CodersWork, ServiceWork, CheckWork, Running;
    NothingGrown(net, arch, spent);
    CodersGraft(l, s, net, arch, p, coders);
    GraftedRuns(p, tasks, a);
    SpentIs(p, tasks, a);
    ServicesGraft(l, net, arch, a, plan.services, a.grafted, tasks);
    ServicesGrow(l, net, arch, a, plan.services, a.grafted);
    var services := UntilRefused(l, a.spent, ServiceWork(arch, plan.services, tasks));
    SpentIs(a, services, b);
    ChecksGraft(l, s, net, arch, b, plan.checks, b.grafted, 0);
    var checks := UntilRefused(l, b.spent, CheckWork(s, arch, plan.checks, 0));
    SpentIs(b, checks, c);
    GraftsBoth(p, tasks, a, services, b);
    GraftsBoth(p, tasks + services, b, checks, c);
    GraftedRuns(p, tasks + services + checks, c);
  }

  /** The children an architect's coders are: compute nodes it spawned, in order. */
  lemma CodersAre(net: Net, arch: Id, c: Id)
    ensures c in CoderChildren(net, arch) <==>
      arch in net.nodes && c in net.nodes[arch].children && c in net.nodes && net.nodes[c].task.kind == Compute
        && net.nodes[c].task.spawnedBy == arch
  {}

  lemma AlsoRunning(net: Net, after: set<Id>, ids: seq<Id>, made: seq<Task>)
    requires Running(net, ids, made)
    ensures Running(AlsoWaited(net, after, ids), ids, made)
  {}

  lemma FlagAsideTasks(s: Settings, net: Net, arch: Id, coders: seq<Id>)
    requires arch in net.nodes && forall c :: c in coders ==> c in net.nodes
    ensures CodersWork(s, WithRunGrafted(net, arch), arch, coders) == CodersWork(s, net, arch, coders)
    decreases coders
  {
    hide CoderWork;
    if coders != [] { FlagAsideTasks(s, net, arch, coders[1..]); }
  }

  /** Exactly what a due call makes, in order: per coder the command to run once and then its service, each when there is
      room; then the architect's services and then the checks, up to the first there is no room for. */
  lemma DueCallMakes(l: Limits, s: Settings, net: Net, spent: Counts, arch: Id, plan: Blueprint)
    requires NetOk(net) && Due(net, arch, plan)
    ensures forall c :: c in CoderChildren(net, arch) ==> c in net.nodes
    ensures CallMakes(l, s, net, spent, arch, CoderChildren(net, arch), plan, GraftRun(l, s, net, spent, arch, plan))
  {
    var base, coders := WithRunGrafted(net, arch), CoderChildren(net, arch);
    assert forall c :: c in coders ==> c in net.nodes && c in base.nodes;
    FlagAsideTasks(s, net, arch, coders);
    InfoOk(net, arch, net.nodes[arch].(runGrafted := true));
    hide GraftRun, CoderChildren, NetOk, CallMakes, GraftChecks, RunPart, AlsoWaited, CodersWork, Running;
    AllGraft(l, s, base, spent, arch, coders, plan);
    WhenDue(l, s, net, spent, arch, plan);
    MovedMakes(l, s, net, base, spent, arch, coders, plan, Before(l, s, net, spent, arch, plan), GraftRun(l, s, net, spent, arch, plan));
  }

  lemma MovedMakes(l: Limits, s: Settings, net: Net, base: Net, spent: Counts, arch: Id, coders: seq<Id>, plan: Blueprint, all: Progress, r: Progress)
    requires (forall c :: c in coders ==> c in net.nodes && c in base.nodes) && plan.Blueprint?
    requires CodersWork(s, base, arch, coders) == CodersWork(s, net, arch, coders)
    requires CallMakes(l, s, base, spent, arch, coders, plan, all)
    requires r == if all.grafted == [] then all else all.(net := AlsoWaited(all.net, IdSet(coders), all.grafted))
    ensures CallMakes(l, s, net, spent, arch, coders, plan, r)
  {
    hide Running, Afforded, UntilRefused, CodersWork, ServiceWork, CheckWork, SpentOn, AlsoWaited;
    var tasks := Afforded(l, spent, CodersWork(s, net, arch, coders));
    var services := UntilRefused(l, SpentOn(spent, tasks), ServiceWork(arch, plan.services, tasks));
    var checks := UntilRefused(l, SpentOn(SpentOn(spent, tasks), services), CheckWork(s, arch, plan.checks, 0));
    AlsoRunning(all.net, IdSet(coders), all.grafted, tasks + services + checks);
  }

  // ---- With room for everything ----

  ghost predicate HasRoom(l: Limits, c: Counts, wanted: seq<Task>)
    decreases wanted
  {
    wanted == [] || (Grants(l, c, wanted[0].tool, false) && HasRoom(l, Charged(c, wanted[0].tool, false, true), wanted[1..]))
  }

  lemma {:induction false} RoomForAll(l: Limits, c: Counts, wanted: seq<Task>)
    requires HasRoom(l, c, wanted)
    ensures Afforded(l, c, wanted) == wanted == UntilRefused(l, c, wanted)
    decreases wanted
  {
    hide Grants, Charged;
    if wanted != [] { RoomForAll(l, Charged(c, wanted[0].tool, false, true), wanted[1..]); }
  }

  lemma {:induction false} RoomSplits(l: Limits, c: Counts, a: seq<Task>, b: seq<Task>)
    requires HasRoom(l, c, a + b)
    ensures HasRoom(l, c, a) && HasRoom(l, SpentOn(c, a), b)
    decreases |a|
  {
    hide Grants, Charged;
    if a == [] {
      assert a + b == b;
    } else {
      assert (a + b)[0] == a[0] && (a + b)[1..] == a[1..] + b;
      RoomSplits(l, Charged(c, a[0].tool, false, true), a[1..], b);
    }
  }

  /** When there is room for all of it, all of it is made and nothing else. */
  lemma WithRoomAllMade(l: Limits, s: Settings, net: Net, spent: Counts, arch: Id, plan: Blueprint)
    requires NetOk(net) && Due(net, arch, plan) && forall c :: c in CoderChildren(net, arch) ==> c in net.nodes
    requires var tasks := CodersWork(s, net, arch, CoderChildren(net, arch));
      HasRoom(l, spent, tasks + ServiceWork(arch, plan.services, tasks) + CheckWork(s, arch, plan.checks, 0))
    ensures var tasks, r := CodersWork(s, net, arch, CoderChildren(net, arch)), GraftRun(l, s, net, spent, arch, plan);
      Running(r.net, r.grafted, tasks + ServiceWork(arch, plan.services, tasks) + CheckWork(s, arch, plan.checks, 0))
  {
    var tasks := CodersWork(s, net, arch, CoderChildren(net, arch));
    var services, checks := ServiceWork(arch, plan.services, tasks), CheckWork(s, arch, plan.checks, 0);
    DueCallMakes(l, s, net, spent, arch, plan);
    hide GraftRun, CoderChildren, NetOk, HasRoom, Afforded, UntilRefused, SpentOn, Running, CodersWork, ServiceWork, CheckWork;
    RoomSplits(l, spent, tasks + services, checks);
    RoomSplits(l, spent, tasks, services);
    SpentOnBoth(spent, tasks, services);
    RoomForAll(l, spent, tasks);
    RoomForAll(l, SpentOn(spent, tasks), services);
    RoomForAll(l, SpentOn(SpentOn(spent, tasks), services), checks);
  }

  // ---- What the new nodes wait for ----

  ghost predicate Free(p: Progress) {
    forall g :: g in p.grafted ==> g in p.net.nodes && p.net.nodes[g].deps == []
  }

  lemma AddFree(net: Net, arch: Id, p: Progress, task: Task)
    requires Grown(net, arch, p) && Free(p)
    ensures Free(AddUnder(p, arch, task, []))
  {
    GraftedAreNew(net, arch, p);
    ArchThere(net, arch, p);
    assert NetOk(p.net);
    AddUnderIs(p, arch, task, []);
    hide Grown, AddUnder, NetOk, NodeName;
  }

  lemma TryFree(l: Limits, net: Net, arch: Id, p: Progress, task: Task)
    requires Grown(net, arch, p) && Free(p) && task.kind == Tool && task.spawnedBy == arch
    ensures Free(TryAdd(l, p, arch, task)) && Grown(net, arch, TryAdd(l, p, arch, task))
  {
    hide Grown, Free, AddUnder, Grants;
    AddFree(net, arch, p, task);
    TryAddGrows(l, net, arch, p, task);
  }

  lemma CoderFree(l: Limits, s: Settings, net: Net, arch: Id, p: Progress, child: Id)
    requires Grown(net, arch, p) && Free(p)
    ensures Free(GraftService(l, s, GraftExec(l, s, p, arch, child), arch, child))
  {
    hide Grown, Free, TryAdd, ExecCommand, ServiceOf;
    if child in p.net.nodes {
      TryFree(l, net, arch, p, ExecTask(s, arch, p.net.nodes[child].task.tag, ExecCommand(p.net.nodes[child].task.params)));
    }
    var q := GraftExec(l, s, p, arch, child);
    if child in q.net.nodes {
      var svc := ServiceOf(q.net.nodes[child].task.params);
      if svc.Entry? { TryFree(l, net, arch, q, CoderService(s, arch, q.net.nodes[child].task.tag, svc.value)); }
    }
  }

  lemma {:induction false} CodersFree(l: Limits, s: Settings, net: Net, arch: Id, p: Progress, children: seq<Id>)
    requires Grown(net, arch, p) && Free(p)
    ensures Free(GraftCoders(l, s, p, arch, children))
    decreases children
  {
    hide Grown, Free, GraftService, GraftExec;
    if children != [] {
      CoderFree(l, s, net, arch, p, children[0]);
      CoderGrows(l, s, net, arch, p, children[0]);
      CodersFree(l, s, net, arch, GraftService(l, s, GraftExec(l, s, p, arch, children[0]), arch, children[0]), children[1..]);
    }
  }

  lemma {:induction false} ServicesFree(l: Limits, net: Net, arch: Id, p: Progress, services: seq<Service>, already: seq<Id>)
    requires Grown(net, arch, p) && Free(p)
    ensures Free(GraftServices(l, p, arch, services, already))
    decreases services
  {
    hide Grown, Free, AddUnder, Affords, AlreadyServed;
    if services != [] {
      if services[0].command == "" || AlreadyServed(p.net, already, ServiceName(services[0])) {
        ServicesFree(l, net, arch, p, services[1..], already);
      } else if Affords(l, p, "service") {
        AddFree(net, arch, p, TopService(arch, services[0]));
        AddUnderGrows(net, arch, p, TopService(arch, services[0]), []);
        ServicesFree(l, net, arch, AddUnder(p, arch, TopService(arch, services[0]), []), services[1..], already);
      }
    }
  }

  /** The first n new nodes wait for nothing, the others for exactly those. */
  ghost predicate FirstThenRest(net: Net, grafted: seq<Id>, n: nat) {
    n <= |grafted| && forall k :: 0 <= k < |grafted| ==>
      grafted[k] in net.nodes && net.nodes[grafted[k]].deps == if k < n then [] else grafted[..n]
  }

  lemma {:induction false} CountMade(l: Limits, s: Settings, net: Net, spent: Counts, arch: Id, coders: seq<Id>, plan: Blueprint)
    requires NetOk(net) && arch in net.nodes && plan.Blueprint? && forall c :: c in coders ==> c in net.nodes
    ensures var tasks := Afforded(l, spent, CodersWork(s, net, arch, coders));
      var services := UntilRefused(l, SpentOn(spent, tasks), ServiceWork(arch, plan.services, tasks));
      |RunPart(l, s, Progress(net, spent, []), arch, coders, plan.services).grafted| == |tasks| + |services|
  {
    var p := Progress(net, spent, []);
    var tasks := Afforded(l, spent, CodersWork(s, net, arch, coders));
    hide Grown, GraftCoders, GraftServices, Afforded, UntilRefused, CodersWork, ServiceWork, Running;
    NothingGrown(net, arch, spent);
    CodersGraft(l, s, net, arch, p, coders);
    var a := GraftCoders(l, s, p, arch, coders);
    GraftedRuns(p, tasks, a);
    ServicesGraft(l, net, arch, a, plan.services, a.grafted, tasks);
  }

  lemma AllWaits(l: Limits, s: Settings, net: Net, spent: Counts, arch: Id, coders: seq<Id>, plan: Blueprint)
    requires NetOk(net) && arch in net.nodes && plan.Blueprint?
    ensures var run := RunPart(l, s, Progress(net, spent, []), arch, coders, plan.services);
      var all := GraftChecks(l, s, run, arch, plan.checks, run.grafted, 0);
      FirstThenRest(all.net, all.grafted, |run.grafted|)
  {
    var p := Progress(net, spent, []);
    var tasks := GraftCoders(l, s, p, arch, coders);
    var run := GraftServices(l, tasks, arch, plan.services, tasks.grafted);
    hide Grown, GraftCoders, GraftServices, GraftChecks, ChecksFrom, Keeps;
    NothingGrown(net, arch, spent);
    CodersFree(l, s, net, arch, p, coders);
    CodersGrow(l, s, net, arch, p, coders);
    ServicesFree(l, net, arch, tasks, plan.services, tasks.grafted);
    ServicesGrow(l, net, arch, tasks, plan.services, tasks.grafted);
    ChecksGrow(l, s, net, arch, run, plan.checks, run.grafted, 0);
    RunThenChecks(run, GraftChecks(l, s, run, arch, plan.checks, run.grafted, 0));
  }

  lemma RunThenChecks(run: Progress, all: Progress)
    requires Free(run) && ChecksFrom(run, all, run.grafted) && Keeps(run, all)
    ensures FirstThenRest(all.net, all.grafted, |run.grafted|)
  {
    forall k | 0 <= k < |all.grafted|
      ensures all.grafted[k] in all.net.nodes
      ensures all.net.nodes[all.grafted[k]].deps == if k < |run.grafted| then [] else all.grafted[..|run.grafted|]
    {
      if k < |run.grafted| { assert all.grafted[k] == run.grafted[k] && run.grafted[k] in run.grafted; }
    }
  }

  lemma AlsoFirstThenRest(net: Net, after: set<Id>, ids: seq<Id>, n: nat)
    requires FirstThenRest(net, ids, n)
    ensures FirstThenRest(AlsoWaited(net, after, ids), ids, n)
  {
    forall k | 0 <= k < |ids| ensures AlsoWaited(net, after, ids).nodes[ids[k]] == net.nodes[ids[k]] {
      assert ids[k] in ids && ids[k] in net.nodes;
    }
  }

  lemma MovedWaits(all: Progress, coders: seq<Id>, n: nat)
    requires FirstThenRest(all.net, all.grafted, n)
    ensures var r := if all.grafted == [] then all else all.(net := AlsoWaited(all.net, IdSet(coders), all.grafted));
      FirstThenRest(r.net, r.grafted, n)
  {
    AlsoFirstThenRest(all.net, IdSet(coders), all.grafted, n);
    hide FirstThenRest, AlsoWaited;
  }

  lemma BaseWaits(l: Limits, s: Settings, net: Net, spent: Counts, arch: Id, coders: seq<Id>, plan: Blueprint)
    requires NetOk(net) && arch in net.nodes && plan.Blueprint? && forall c :: c in coders ==> c in net.nodes
    ensures var tasks, r := Afforded(l, spent, CodersWork(s, net, arch, coders)), GraftAll(l, s, Progress(net, spent, []), arch, coders, plan);
      var services := UntilRefused(l, SpentOn(spent, tasks), ServiceWork(arch, plan.services, tasks));
      FirstThenRest(r.net, r.grafted, |tasks| + |services|)
  {
    AllWaits(l, s, net, spent, arch, coders, plan);
    CountMade(l, s, net, spent, arch, coders, plan);
    var run := RunPart(l, s, Progress(net, spent, []), arch, coders, plan.services);
    MovedWaits(GraftChecks(l, s, run, arch, plan.checks, run.grafted, 0), coders, |run.grafted|);
    hide NetOk, GraftChecks, RunPart, AlsoWaited, CodersWork, Afforded, UntilRefused, ServiceWork, SpentOn, FirstThenRest, IdSet;
  }

  lemma FlagOk(net: Net, arch: Id)
    requires NetOk(net) && arch in net.nodes
    ensures NetOk(WithRunGrafted(net, arch)) && WithRunGrafted(net, arch).nodes.Keys == net.nodes.Keys
  {
    InfoOk(net, arch, net.nodes[arch].(runGrafted := true));
    hide NetOk;
  }

  lemma DueIs(net: Net, arch: Id, plan: Blueprint)
    requires Due(net, arch, plan)
    ensures arch in net.nodes && plan.Blueprint?
  {}

  /** What runs waits for nothing; each check waits for all that runs and for nothing else. */
  lemma DueCallWaits(l: Limits, s: Settings, net: Net, spent: Counts, arch: Id, plan: Blueprint)
    requires NetOk(net) && Due(net, arch, plan) && forall c :: c in CoderChildren(net, arch) ==> c in net.nodes
    ensures var tasks, r := Afforded(l, spent, CodersWork(s, net, arch, CoderChildren(net, arch))), GraftRun(l, s, net, spent, arch, plan);
      var services := UntilRefused(l, SpentOn(spent, tasks), ServiceWork(arch, plan.services, tasks));
      FirstThenRest(r.net, r.grafted, |tasks| + |services|)
  {
    hide *;
    DueIs(net, arch, plan);
    FlagOk(net, arch);
    FlagAsideTasks(s, net, arch, CoderChildren(net, arch));
    WhenDue(l, s, net, spent, arch, plan);
    BaseWaits(l, s, WithRunGrafted(net, arch), spent, arch, CoderChildren(net, arch), plan);
  }
}
