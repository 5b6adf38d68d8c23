/** What grafting an architect's plan puts into the graph: which commands, which coders, and what each of them waits for
    first. */
module ArchitectWork {
  import opened Decimal
  import opened Values
  import opened Nets
  import opened Budgets
  import opened Scheduling
  import opened Digraph
  import opened LateGraft
  import opened ArchitectGraft
  import opened LateGraftLaws
  import opened ArchitectLaws
  import TaskDeps

  /** The counts after n spawns of a tool. */
  function SpawnedTimes(c: Counts, tool: string, n: nat): Counts {
    if n == 0 then c else Charged(SpawnedTimes(c, tool, n - 1), tool, false, true)
  }

  lemma {:induction false} OneMoreBefore(c: Counts, tool: string, n: nat)
    ensures SpawnedTimes(Charged(c, tool, false, true), tool, n) == SpawnedTimes(c, tool, n + 1)
  {
    hide Charged;
    if n > 0 { OneMoreBefore(c, tool, n - 1); }
  }

  /** A builtin bash node of the architect that runs the command, behind one node. */
  ghost predicate SetupNode(net: Net, id: Id, arch: Id, k: nat, command: string, behind: Id) {
    && id in net.nodes
    && net.nodes[id].task == Task(Tool, "bash", "setup_" + Numeral(k), "builtin", arch, Obj([Field("command", Str([Lit(command)]))]), [])
    && net.nodes[id].state == Pending && net.nodes[id].deps == [behind]
  }

  /** A coder for the piece of work, behind one node first of all. */
  ghost predicate CoderNode(net: Net, id: Id, arch: Id, boss: Task, k: nat, w: Work, behind: Id) {
    && id in net.nodes && net.nodes[id].state == Pending
    && net.nodes[id].task.kind == Compute && net.nodes[id].task.tool == w.tool && net.nodes[id].task.params == w.params
    && net.nodes[id].task.tag == (if w.tag != "" then w.tag else boss.tag + "_" + Numeral(k))
    && net.nodes[id].task.source == boss.source && net.nodes[id].task.spawnedBy == arch && net.nodes[id].task.addresses == []
    && net.nodes[id].deps != [] && net.nodes[id].deps[0] == behind
  }

  /** The nodes of the first graph are in the second, with the same work, state and dependencies. */
  ghost predicate Carries(net: Net, net': Net) {
    forall id :: id in net.nodes ==>
      && id in net'.nodes && net'.nodes[id].task == net.nodes[id].task
      && net'.nodes[id].state == net.nodes[id].state && net'.nodes[id].deps == net.nodes[id].deps
  }

  lemma OneMoreCarries(p: Progress, arch: Id, info: Info, q: Progress)
    requires arch in p.net.nodes && OneMore(p, arch, info, q)
    ensures Carries(p.net, q.net) && p.grafted < q.grafted && |q.grafted| == |p.grafted| + 1
    ensures var id := q.grafted[|p.grafted|]; id in q.net.nodes && q.net.nodes[id] == info.(round := p.net.round)
  {
    hide NetOk, NodeName;
  }

  lemma ArchInside(net: Net, roots: set<Id>, arch: Id, p: Progress)
    requires Chained(net, roots, arch, p)
    ensures arch in p.net.nodes && NetOk(p.net)
  {}

  lemma AddCarries(net: Net, roots: set<Id>, arch: Id, p: Progress, task: Task, deps: seq<Id>)
    requires Chained(net, roots, arch, p)
    ensures var q := AddUnder(p, arch, task, deps);
      && Carries(p.net, q.net) && p.grafted < q.grafted && |q.grafted| == |p.grafted| + 1
      && q.grafted[|p.grafted|] in q.net.nodes
      && q.net.nodes[q.grafted[|p.grafted|]] == NewInfo(task, deps).(round := p.net.round)
  {
    hide *;
    ArchInside(net, roots, arch, p);
    AddUnderIs(p, arch, task, deps);
    OneMoreCarries(p, arch, NewInfo(task, deps), AddUnder(p, arch, task, deps));
  }

  // ---- The setup chain ----

  ghost predicate SetupRow(net: Net, arch: Id, grafted: seq<Id>, from: nat, k: nat, commands: seq<string>, m: nat)
    requires from + m <= |grafted| && m <= |commands|
  {
    forall i :: 0 <= i < m ==>
      SetupNode(net, grafted[from + i], arch, k + i, commands[i], if from + i == 0 then arch else grafted[from + i - 1])
  }

  /** The first m commands: each had room when its turn came, and the next had none. */
  ghost predicate UpToRefusal(l: Limits, spent: Counts, tool: string, n: nat, m: nat) {
    && m <= n && (forall i :: 0 <= i < m ==> Grants(l, SpawnedTimes(spent, tool, i), tool, false))
    && (m < n ==> !Grants(l, SpawnedTimes(spent, tool, m), tool, false))
  }

  ghost predicate SetupDone(l: Limits, p: Progress, arch: Id, commands: seq<string>, k: nat, m: nat, r: Progress) {
    && UpToRefusal(l, p.spent, "bash", |commands|, m) && r.spent == SpawnedTimes(p.spent, "bash", m)
    && p.grafted <= r.grafted && |r.grafted| == |p.grafted| + m && Carries(p.net, r.net)
    && SetupRow(r.net, arch, r.grafted, |p.grafted|, k, commands, m)
  }

  lemma {:induction false} SetupMakes(l: Limits, net: Net, arch: Id, p: Progress, commands: seq<string>, k: nat) returns (m: nat)
    requires Chained(net, {arch}, arch, p)
    ensures SetupDone(l, p, arch, commands, k, m, SetupFrom(l, p, arch, commands, k))
    decreases commands
  {
    hide *;
    if commands == [] || !Affords(l, p, "bash") {
      m := 0;
      NothingSetUp(l, p, arch, commands, k);
    } else {
      var task, last := SetupTask(arch, k, commands[0]), Last(arch, p.grafted);
      var q := AddUnder(p, arch, task, [last]);
      LastWithin(arch, p.grafted);
      AddChained(net, {arch}, arch, p, task, [last]);
      AddCarries(net, {arch}, arch, p, task, [last]);
      var rest := SetupMakes(l, net, arch, q, commands[1..], k + 1);
      m := rest + 1;
      NewSetup(p, arch, k, commands[0], q);
      SetupIs(l, p, arch, commands, k);
      SetupStep(l, p, q, arch, commands, k, rest, SetupFrom(l, q, arch, commands[1..], k + 1));
    }
  }

  lemma NothingSetUp(l: Limits, p: Progress, arch: Id, commands: seq<string>, k: nat)
    requires commands == [] || !Affords(l, p, "bash")
    ensures SetupDone(l, p, arch, commands, k, 0, SetupFrom(l, p, arch, commands, k))
  {}

  lemma LastWithin(arch: Id, grafted: seq<Id>)
    ensures Last(arch, grafted) in {arch} || Last(arch, grafted) in grafted
  {}

  lemma NewSetup(p: Progress, arch: Id, k: nat, command: string, q: Progress)
    requires q == AddUnder(p, arch, SetupTask(arch, k, command), [Last(arch, p.grafted)])
    requires |q.grafted| == |p.grafted| + 1 && q.grafted[|p.grafted|] in q.net.nodes
    requires q.net.nodes[q.grafted[|p.grafted|]] == NewInfo(SetupTask(arch, k, command), [Last(arch, p.grafted)]).(round := p.net.round)
    ensures SetupNode(q.net, q.grafted[|p.grafted|], arch, k, command, Last(arch, p.grafted))
    ensures q.spent == Charged(p.spent, "bash", false, true)
  {
    hide Last, Charged, WithNode, WithChild;
  }

  lemma SetupIs(l: Limits, p: Progress, arch: Id, commands: seq<string>, k: nat)
    requires commands != [] && Affords(l, p, "bash")
    ensures Grants(l, p.spent, "bash", false)
    ensures SetupFrom(l, p, arch, commands, k)
      == SetupFrom(l, AddUnder(p, arch, SetupTask(arch, k, commands[0]), [Last(arch, p.grafted)]), arch, commands[1..], k + 1)
  {}

  lemma SetupStep(l: Limits, p: Progress, q: Progress, arch: Id, commands: seq<string>, k: nat, m: nat, r: Progress)
    requires commands != [] && Grants(l, p.spent, "bash", false) && q.spent == Charged(p.spent, "bash", false, true)
    requires Carries(p.net, q.net) && |q.grafted| == |p.grafted| + 1 && p.grafted <= q.grafted
    requires SetupNode(q.net, q.grafted[|p.grafted|], arch, k, commands[0], Last(arch, p.grafted))
    requires SetupDone(l, q, arch, commands[1..], k + 1, m, r)
    ensures SetupDone(l, p, arch, commands, k, m + 1, r)
  {
    hide Grants, Charged;
    OneMoreBefore(p.spent, "bash", m);
    forall i | 0 <= i < m + 1 ensures Grants(l, SpawnedTimes(p.spent, "bash", i), "bash", false) {
      if i > 0 { OneMoreBefore(p.spent, "bash", i - 1); }
    }
    var from := |p.grafted|;
    hide SpawnedTimes;
    forall i | 0 <= i < m + 1
      ensures SetupNode(r.net, r.grafted[from + i], arch, k + i, commands[i], if from + i == 0 then arch else r.grafted[from + i - 1])
    {
      if i == 0 {
        assert r.grafted[from] == q.grafted[from];
      } else {
        assert commands[i] == commands[1..][i - 1] && from + 1 + (i - 1) == from + i;
        assert SetupNode(r.net, r.grafted[|q.grafted| + (i - 1)], arch, k + 1 + (i - 1), commands[1..][i - 1],
                         r.grafted[|q.grafted| + (i - 1) - 1]);
      }
    }
  }

  // ---- The coders ----

  /** The counts after n coders: each charged when there was room for it. */
  function CoderSpent(l: Limits, c: Counts, n: nat): Counts {
    if n == 0 then c
    else Charged(CoderSpent(l, c, n - 1), "compute", true, Grants(l, CoderSpent(l, c, n - 1), "compute", true))
  }

  ghost predicate CoderRow(net: Net, arch: Id, boss: Task, ids: seq<Id>, from: nat, works: seq<Work>, behind: Id, n: nat)
    requires n <= |works| && from + n <= |ids|
  {
    forall i :: 0 <= i < n ==> CoderNode(net, ids[from + i], arch, boss, i, works[i], behind)
  }

  lemma NewCoder(net: Net, arch: Id, boss: Task, k: nat, w: Work, last: Id, id: Id, round: nat)
    requires id in net.nodes && net.nodes[id] == NewInfo(CoderTask(arch, boss, k, w), [last]).(round := round)
    ensures CoderNode(net, id, arch, boss, k, w, last)
  {}

  lemma CoderCarried(net: Net, net': Net, arch: Id, boss: Task, ids: seq<Id>, ids': seq<Id>, works: seq<Work>, behind: Id, n: nat)
    requires n <= |works| && n <= |ids| && ids <= ids' && CoderRow(net, arch, boss, ids, 0, works, behind, n) && Carries(net, net')
    ensures CoderRow(net', arch, boss, ids', 0, works, behind, n)
  {
    forall i | 0 <= i < n ensures CoderNode(net', ids'[0 + i], arch, boss, i, works[i], behind) {
      assert CoderNode(net, ids[0 + i], arch, boss, i, works[i], behind);
    }
  }

  lemma CarriesOn(a: Net, b: Net, c: Net)
    requires Carries(a, b) && Carries(b, c)
    ensures Carries(a, c)
  {}

  lemma CarriesItself(net: Net)
    ensures Carries(net, net)
  {}

  lemma {:induction false} CodersMake(l: Limits, net: Net, arch: Id, spent: Counts, boss: Task, works: seq<Work>, last: Id, n: nat)
    requires NetOk(net) && arch in net.nodes && last in net.nodes && n <= |works|
    ensures var r := Coders(l, Progress(net, spent, []), arch, boss, works, last, n);
      && |r.grafted| == n && r.spent == CoderSpent(l, spent, n) && Carries(net, r.net)
      && CoderRow(r.net, arch, boss, r.grafted, 0, works, last, n)
  {
    hide *;
    CodersStart(l, Progress(net, spent, []), arch, boss, works, last);
    SpentStart(l, spent);
    if n == 0 {
      CarriesItself(net);
      NoRow(net, arch, boss, works, last);
    } else {
      CodersMake(l, net, arch, spent, boss, works, last, n - 1);
      CodersChained(l, net, arch, spent, boss, works, last, n - 1);
      var p, task := Coders(l, Progress(net, spent, []), arch, boss, works, last, n - 1), CoderTask(arch, boss, n - 1, works[n - 1]);
      var q := AddUnder(p, arch, task, [last]);
      AddCarries(net, {last}, arch, p, task, [last]);
      CarriesOn(net, p.net, q.net);
      CoderCarried(p.net, q.net, arch, boss, p.grafted, q.grafted, works, last, n - 1);
      NewCoder(q.net, arch, boss, n - 1, works[n - 1], last, q.grafted[n - 1], p.net.round);
      RowNext(q.net, arch, boss, q.grafted, works, last, n - 1);
      CodersNext(l, Progress(net, spent, []), arch, boss, works, last, n - 1);
      SpentNext(l, spent, n - 1);
    }
  }

  lemma NoRow(net: Net, arch: Id, boss: Task, works: seq<Work>, last: Id)
    ensures CoderRow(net, arch, boss, [], 0, works, last, 0)
  {}

  lemma RowNext(net: Net, arch: Id, boss: Task, ids: seq<Id>, works: seq<Work>, last: Id, n: nat)
    requires n < |works| && n < |ids| && CoderRow(net, arch, boss, ids, 0, works, last, n)
    requires CoderNode(net, ids[n], arch, boss, n, works[n], last)
    ensures CoderRow(net, arch, boss, ids, 0, works, last, n + 1)
  {
    hide CoderNode;
  }

  lemma CodersStart(l: Limits, p: Progress, arch: Id, boss: Task, works: seq<Work>, last: Id)
    ensures Coders(l, p, arch, boss, works, last, 0) == p
  {}

  lemma CodersNext(l: Limits, p: Progress, arch: Id, boss: Task, works: seq<Work>, last: Id, n: nat)
    requires n < |works|
    ensures var before, r := Coders(l, p, arch, boss, works, last, n), Coders(l, p, arch, boss, works, last, n + 1);
      var q := AddUnder(before, arch, CoderTask(arch, boss, n, works[n]), [last]);
      && r.net == q.net && r.grafted == q.grafted
      && r.spent == Charged(before.spent, "compute", true, Grants(l, before.spent, "compute", true))
  {
    hide AddUnder, Charged, Grants, CoderTask;
  }

  lemma SpentStart(l: Limits, c: Counts)
    ensures CoderSpent(l, c, 0) == c
  {}

  lemma SpentNext(l: Limits, c: Counts, n: nat)
    ensures CoderSpent(l, c, n + 1)
      == Charged(CoderSpent(l, c, n), "compute", true, Grants(l, CoderSpent(l, c, n), "compute", true))
  {
    hide Charged, Grants;
  }

  // ---- The whole graft ----

  /** Ordering and moving add dependencies at the end of a coder's and leave the other grafted nodes alone. */
  lemma {:induction false} OrderedKeeps(net: Net, ids: seq<Id>, edges: seq<TaskDeps.Edge>, id: Id)
    requires Inside(edges, |ids|) && id in net.nodes
    ensures var r := Ordered(net, ids, edges);
      && id in r.nodes && r.nodes[id].task == net.nodes[id].task && r.nodes[id].state == net.nodes[id].state
      && net.nodes[id].deps <= r.nodes[id].deps && (id !in ids ==> r.nodes[id].deps == net.nodes[id].deps)
  {
    if edges != [] {
      OrderedKeeps(net, ids, edges[..|edges| - 1], id);
      assert ids[edges[|edges| - 1].0] in ids;
    }
  }

  lemma SetupStays(net: Net, net': Net, id: Id, arch: Id, k: nat, command: string, behind: Id)
    requires SetupNode(net, id, arch, k, command, behind) && id in net'.nodes && net'.nodes[id].task == net.nodes[id].task
    requires net'.nodes[id].state == net.nodes[id].state && net'.nodes[id].deps == net.nodes[id].deps
    ensures SetupNode(net', id, arch, k, command, behind)
  {}

  lemma CoderStays(net: Net, net': Net, id: Id, arch: Id, boss: Task, k: nat, w: Work, behind: Id)
    requires CoderNode(net, id, arch, boss, k, w, behind) && id in net'.nodes && net'.nodes[id].task == net.nodes[id].task
    requires net'.nodes[id].state == net.nodes[id].state && net.nodes[id].deps <= net'.nodes[id].deps
    ensures CoderNode(net', id, arch, boss, k, w, behind)
  {}

  /** The node as the whole graft leaves it. */
  lemma FinalNode(l: Limits, net: Net, spent: Counts, arch: Id, commands: seq<string>, works: seq<Work>, coders: Progress, id: Id)
    requires arch in net.nodes && Inside(Honoured(works), |coders.grafted|)
    requires InOrder(l, net, spent, arch, commands, works) == Ordered(coders.net, coders.grafted, Honoured(works))
    requires id in coders.net.nodes && id in FollowUp(l, net, spent, arch, commands, works).grafted
    ensures var r := FollowUp(l, net, spent, arch, commands, works).net;
      && id in r.nodes && r.nodes[id].task == coders.net.nodes[id].task && r.nodes[id].state == coders.net.nodes[id].state
      && coders.net.nodes[id].deps <= r.nodes[id].deps && (id !in coders.grafted ==> r.nodes[id].deps == coders.net.nodes[id].deps)
  {
    hide *;
    FollowUpIs(l, net, spent, arch, commands, works);
    OrderedKeeps(coders.net, coders.grafted, Honoured(works), id);
    Untouched(InOrder(l, net, spent, arch, commands, works), arch, Made(l, net, spent, arch, commands, works).grafted, id);
  }

  /** Exactly what an architect's plan becomes: the commands up to the first the budget refuses, each a bash node behind the
      one before, the first behind the architect; then a coder for every piece of work, whatever the budget says, first of
      all behind the last command, or behind the architect when there is none. */
  lemma FollowUpMakes(l: Limits, net: Net, spent: Counts, arch: Id, commands: seq<string>, works: seq<Work>) returns (m: nat)
    requires NetOk(net) && ClosedNet(net) && Acyclic(Waits(net)) && arch in net.nodes
    ensures UpToRefusal(l, spent, "bash", |commands|, m)
    ensures var r := FollowUp(l, net, spent, arch, commands, works);
      && |r.grafted| == m + |works| && r.spent == CoderSpent(l, SpawnedTimes(spent, "bash", m), |works|)
      && SetupRow(r.net, arch, r.grafted, 0, 0, commands, m)
      && CoderRow(r.net, arch, net.nodes[arch].task, r.grafted, m, works, if m == 0 then arch else r.grafted[m - 1], |works|)
  {
    hide *;
    var setup, boss := Setup(l, net, spent, arch, commands), net.nodes[arch].task;
    NothingYet(net, {arch}, arch, spent);
    m := SetupMakes(l, net, arch, Progress(net, spent, []), commands, 0);
    SetupFacts(l, net, spent, arch, commands, m);
    SetupReady(l, net, spent, arch, commands);
    LastThere(net, arch, setup);
    var last := Last(arch, setup.grafted);
    CodersMake(l, setup.net, arch, setup.spent, boss, works, last, |works|);
    CodersChained(l, setup.net, arch, setup.spent, boss, works, last, |works|);
    var coders := Coders(l, Progress(setup.net, setup.spent, []), arch, boss, works, last, |works|);
    NewOnes(setup.net, {last}, arch, coders);
    NewOnes(net, {arch}, arch, setup);
    MadeIs(l, net, spent, arch, commands, works);
    FollowUpIs(l, net, spent, arch, commands, works);
    MadeSpent(l, net, spent, arch, commands, works);
    var r := FollowUp(l, net, spent, arch, commands, works);
    assert r.grafted == setup.grafted + coders.grafted;
    forall id | id in r.grafted ensures id in coders.net.nodes { ThereStill(setup.net, coders.net, setup.grafted, coders.grafted, id); }
    SetupRowFinal(l, net, spent, arch, commands, works, setup, coders, m);
    CoderRowFinal(l, net, spent, arch, commands, works, setup, coders, m, last);
    LastIs(arch, setup.grafted);
  }

  lemma LastIs(arch: Id, grafted: seq<Id>)
    ensures Last(arch, grafted) == if |grafted| == 0 then arch else grafted[|grafted| - 1]
  {}

  lemma ThereStill(net: Net, net': Net, low: seq<Id>, high: seq<Id>, id: Id)
    requires Carries(net, net') && id in low + high
    requires (forall g :: g in low ==> g in net.nodes) && (forall g :: g in high ==> g in net'.nodes)
    ensures id in net'.nodes
  {}

  lemma SetupFacts(l: Limits, net: Net, spent: Counts, arch: Id, commands: seq<string>, m: nat)
    requires SetupDone(l, Progress(net, spent, []), arch, commands, 0, m, SetupFrom(l, Progress(net, spent, []), arch, commands, 0))
    ensures m <= |commands| && UpToRefusal(l, spent, "bash", |commands|, m)
    ensures var p := Setup(l, net, spent, arch, commands);
      |p.grafted| == m && p.spent == SpawnedTimes(spent, "bash", m) && SetupRow(p.net, arch, p.grafted, 0, 0, commands, m)
  {
    hide SetupFrom, SpawnedTimes, SetupRow;
  }

  lemma MadeSpent(l: Limits, net: Net, spent: Counts, arch: Id, commands: seq<string>, works: seq<Work>)
    requires arch in net.nodes
    ensures var setup := Setup(l, net, spent, arch, commands);
      var coders := Coders(l, Progress(setup.net, setup.spent, []), arch, net.nodes[arch].task, works, Last(arch, setup.grafted), |works|);
      FollowUp(l, net, spent, arch, commands, works).spent == coders.spent
  {
    var setup := Setup(l, net, spent, arch, commands);
    hide Setup, Coders, Ordered, Honoured, Redirected;
    CodersShift(l, setup, arch, net.nodes[arch].task, works, Last(arch, setup.grafted), |works|);
    assert Progress(setup.net, setup.spent, []) == setup.(grafted := []);
  }

  lemma SetupRowFinal(l: Limits, net: Net, spent: Counts, arch: Id, commands: seq<string>, works: seq<Work>,
                      setup: Progress, coders: Progress, m: nat)
    requires arch in net.nodes && m <= |commands| && |setup.grafted| == m && SetupRow(setup.net, arch, setup.grafted, 0, 0, commands, m)
    requires Inside(Honoured(works), |coders.grafted|)
    requires InOrder(l, net, spent, arch, commands, works) == Ordered(coders.net, coders.grafted, Honoured(works))
    requires FollowUp(l, net, spent, arch, commands, works).grafted == setup.grafted + coders.grafted
    requires Carries(setup.net, coders.net) && forall g :: g in coders.grafted ==> g !in setup.net.nodes
    ensures SetupRow(FollowUp(l, net, spent, arch, commands, works).net, arch, setup.grafted + coders.grafted, 0, 0, commands, m)
  {
    var r, all := FollowUp(l, net, spent, arch, commands, works), setup.grafted + coders.grafted;
    hide FollowUp, InOrder, Ordered, Honoured, SetupNode;
    forall i | 0 <= i < m
      ensures SetupNode(r.net, all[0 + i], arch, 0 + i, commands[i], if 0 + i == 0 then arch else all[0 + i - 1])
    {
      var id := setup.grafted[i];
      assert SetupNode(setup.net, setup.grafted[0 + i], arch, 0 + i, commands[i], if 0 + i == 0 then arch else setup.grafted[0 + i - 1]);
      assert all[i] == id && id in all;
      FinalNode(l, net, spent, arch, commands, works, coders, id);
      InSetup(setup.net, id, arch, i, commands[i], if i == 0 then arch else setup.grafted[i - 1]);
      SetupStays(setup.net, r.net, id, arch, i, commands[i], if i == 0 then arch else setup.grafted[i - 1]);
    }
  }

  lemma InSetup(net: Net, id: Id, arch: Id, k: nat, command: string, behind: Id)
    requires SetupNode(net, id, arch, k, command, behind)
    ensures id in net.nodes
  {}

  lemma InCoders(net: Net, id: Id, arch: Id, boss: Task, k: nat, w: Work, behind: Id)
    requires CoderNode(net, id, arch, boss, k, w, behind)
    ensures id in net.nodes
  {}

  lemma CoderRowFinal(l: Limits, net: Net, spent: Counts, arch: Id, commands: seq<string>, works: seq<Work>,
                      setup: Progress, coders: Progress, m: nat, last: Id)
    requires arch in net.nodes && |setup.grafted| == m && |coders.grafted| == |works|
    requires CoderRow(coders.net, arch, net.nodes[arch].task, coders.grafted, 0, works, last, |works|)
    requires Inside(Honoured(works), |coders.grafted|)
    requires InOrder(l, net, spent, arch, commands, works) == Ordered(coders.net, coders.grafted, Honoured(works))
    requires FollowUp(l, net, spent, arch, commands, works).grafted == setup.grafted + coders.grafted
    ensures CoderRow(FollowUp(l, net, spent, arch, commands, works).net, arch, net.nodes[arch].task, setup.grafted + coders.grafted, m,
                     works, last, |works|)
  {
    var r, all, boss := FollowUp(l, net, spent, arch, commands, works), setup.grafted + coders.grafted, net.nodes[arch].task;
    hide FollowUp, InOrder, Ordered, Honoured, CoderNode;
    forall i | 0 <= i < |works| ensures CoderNode(r.net, all[m + i], arch, boss, i, works[i], last) {
      var id := coders.grafted[i];
      assert CoderNode(coders.net, coders.grafted[0 + i], arch, boss, i, works[i], last);
      assert all[m + i] == id && id in all;
      InCoders(coders.net, id, arch, boss, i, works[i], last);
      FinalNode(l, net, spent, arch, commands, works, coders, id);
      CoderStays(coders.net, r.net, id, arch, boss, i, works[i], last);
    }
  }
}
