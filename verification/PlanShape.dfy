/** What grafting a plan guarantees: meaning, order, and when the graph stays acyclic. */
module PlanShape {
  import opened Values
  import opened Nets
  import opened Names
  import opened Templates
  import opened PlanGraft
  import opened PlanNodes
  import opened Digraph
  import opened Scheduling
  import Budgets

  /** A plan grafted onto a graph, with as many steps paid for as the budget allowed. */
  datatype Plan = Plan(net: Net, reg: Registry, steps: seq<PlanStep>, wide: char -> bool, paid: nat) {
    ghost predicate Ok() {
      NetOk(net) && paid <= |steps| && DepsCount(steps)
    }

    ghost function Ids(): (ids: seq<Id>)
      ensures |ids| == |steps|
    {
      PlanIds(|net.order|, reg, steps, paid)
    }

    ghost function Sc(): Scope
      requires Ok()
    {
      PlanScope(net, reg, steps, wide, paid)
    }

    /** The graph after the graft. */
    ghost function After(): Net
      requires Ok()
    {
      Grafted(net, reg, steps, wide, paid)
    }
  }

  /** The node of a wired step, as the graft leaves it. */
  lemma WiredStep(p: Plan, k: nat)
    requires p.Ok()
    requires k < FirstHole(p.Ids())
    ensures var sc := p.Sc();
      && sc.ids[k] != "" && sc.ids[k] in sc.net.nodes && sc.ids[k] in p.After().nodes
      && p.After().nodes[sc.ids[k]] == Wiring(sc, sc.ids[k], p.steps[k], sc.net.nodes[sc.ids[k]])
  {
    var sc := p.Sc();
    PlanIsMade(p.net, p.reg, p.steps, p.wide, p.paid);
    hide PlanMade;
    forall j | 0 <= j < FirstHole(sc.ids) ensures sc.ids[j] != "" { NoHoleBefore(sc.ids, j); }
    WiredAt(sc, p.steps, FirstHole(sc.ids));
    assert IsWired(sc, p.steps, p.After(), k);
  }

  lemma PlanScopeOk(p: Plan)
    requires p.Ok()
    ensures ScopeOk(p.Sc())
  {
    var sc := p.Sc();
    AddedOk(p.net, p.reg, p.steps, p.paid);
    forall id | id in sc.net.nodes ensures GoodId(id) {
      var i :| 0 <= i < |sc.net.order| && sc.net.order[i] == id;
      NodeNameGood(i + 1);
    }
    forall k | 0 <= k < |sc.ids| && sc.ids[k] != "" ensures GoodId(sc.ids[k]) {
      NodeNameGood(|p.net.order| + AcceptedUpTo(p.reg, p.steps, k) + 1);
    }
  }

  /** Meaning survives the graft: when a wired step fires, whatever the graph holds by then, substituting its
      rewritten parameters gives what reading the plan's own references would. */
  lemma GraftPreservesMeaning(p: Plan, k: nat,
                              later: Net, codec: Codec)
    requires p.Ok()
    requires k < FirstHole(p.Ids())
    ensures var sc := p.Sc();
      && sc.ids[k] in p.After().nodes
      && var params := p.After().nodes[sc.ids[k]].task.params;
      && params.Obj?
      && Substitution(later, codec, params.fields) == Direct(sc, sc.ids[k], later, codec, p.steps[k].params)
  {
    var sc := p.Sc();
    WiredStep(p, k);
    PlanScopeOk(p);
    MeaningPreserved(sc, sc.ids[k], later, codec, p.steps[k].params);
  }

  // ---- What a step waits for ----

  /** Step j is named by the step: listed, or read through a reference. */
  ghost predicate NamesStep(steps: seq<PlanStep>, wide: char -> bool, step: PlanStep, j: int) {
    j in step.dependsOn || ReadsStep(steps, wide, step, j)
  }

  ghost predicate ReadsStep(steps: seq<PlanStep>, wide: char -> bool, step: PlanStep, j: int) {
    exists s :: s in RefsOfFields(step.params) && s.Ref? && s.kind == StepRef && Spellable(s.name, wide)
      && StepIndexFor(s.name, Tags(steps)) == At(j)
  }

  ghost predicate ReadsOlder(net: Net, steps: seq<PlanStep>, wide: char -> bool, step: PlanStep, d: Id) {
    exists s :: s in RefsOfFields(step.params) && s.Ref? && s.kind == StepRef && Spellable(s.name, wide)
      && StepIndexFor(s.name, Tags(steps)).Nothing? && Finished(net, s.name) == Pick(d)
  }

  /** The plan's own relation: wired step i waits for step j. */
  ghost function PlanWaits(ids: seq<Id>, steps: seq<PlanStep>, wide: char -> bool): set<(int, int)>
    requires |ids| == |steps|
  {
    set i, j | 0 <= i < FirstHole(ids) && 0 <= j < |ids| && ids[j] != "" && i != j && NamesStep(steps, wide, steps[i], j) :: (i, j)
  }

  /** A wired step waits for exactly the other steps it names that have a node, and for the earlier rounds' steps
      it reads by name. A node reference the planner wrote out itself adds no dependency. */
  lemma WaitsExactly(p: Plan, k: nat, d: Id)
    requires p.Ok()
    requires k < FirstHole(p.Ids())
    ensures var ids := p.Ids();
      && ids[k] in p.After().nodes
      && (d in p.After().nodes[ids[k]].deps <==>
        (exists j :: (k, j) in PlanWaits(ids, p.steps, p.wide) && ids[j] == d) || ReadsOlder(p.net, p.steps, p.wide, p.steps[k], d))
  {
    var sc := p.Sc();
    var own := sc.ids[k];
    WiredStep(p, k);
    PlanIsMade(p.net, p.reg, p.steps, p.wide, p.paid);
    hide Grafted, PlanMade, NetOk;
    var listed, implied := Listed(sc.ids, own, p.steps[k].dependsOn), Implied(sc, own, RefsOfFields(p.steps[k].params));
    assert d in listed + Nets.Missing(listed, implied) <==> d in listed || d in implied;
    if d in listed {
      var j :| j in p.steps[k].dependsOn && 0 <= j < |sc.ids| && sc.ids[j] == d && d != "" && d != own;
      assert (k, j) in PlanWaits(sc.ids, p.steps, p.wide);
    }
    if d in implied {
      ImpliedNamed(p, k, d);
    }
    if j :| (k, j) in PlanWaits(sc.ids, p.steps, p.wide) && sc.ids[j] == d {
      NamedImplied(p, k, j);
    }
    if ReadsOlder(p.net, p.steps, p.wide, p.steps[k], d) {
      OlderImplied(p, k, d);
    }
  }

  lemma NotATag(steps: seq<PlanStep>, name: string)
    requires StepIndexFor(name, Tags(steps)).Nothing?
    ensures name !in Tags(steps)
  {
    assert Tags(steps)[0..] == Tags(steps);
  }

  lemma ImpliedNamed(p: Plan, k: nat, d: Id)
    requires p.Ok() && k < FirstHole(p.Ids())
    requires var sc := p.Sc();
      d in Implied(sc, sc.ids[k], RefsOfFields(p.steps[k].params))
    ensures var ids := p.Ids();
      (exists j :: (k, j) in PlanWaits(ids, p.steps, p.wide) && ids[j] == d) || ReadsOlder(p.net, p.steps, p.wide, p.steps[k], d)
  {
    var sc := p.Sc();
    var own := sc.ids[k];
    var s :| s in RefsOfFields(p.steps[k].params) && Matchable(sc, s) && Target(sc, own, s.name) == Pick(d);
    match StepIndexFor(s.name, sc.tags)
    case At(j) =>
      assert ReadsStep(p.steps, p.wide, p.steps[k], j);
      assert (k, j) in PlanWaits(sc.ids, p.steps, p.wide);
    case Nothing =>
      NotATag(p.steps, s.name);
      ReachesBack(p.net, p.reg, p.steps, p.paid, s.name);
  }

  lemma NamedImplied(p: Plan, k: nat, j: int)
    requires p.Ok() && k < FirstHole(p.Ids())
    requires (k, j) in PlanWaits(p.Ids(), p.steps, p.wide)
    ensures var sc := p.Sc();
      && sc.ids[k] != ""
      && (sc.ids[j] in Listed(sc.ids, sc.ids[k], p.steps[k].dependsOn)
        || sc.ids[j] in Implied(sc, sc.ids[k], RefsOfFields(p.steps[k].params)))
  {
    var sc := p.Sc();
    NoHoleBefore(sc.ids, k);
    if sc.ids[j] == sc.ids[k] { IdsDistinct(|p.net.order|, p.reg, p.steps, p.paid, j, k); }
    if j !in p.steps[k].dependsOn {
      var s :| s in RefsOfFields(p.steps[k].params) && s.Ref? && s.kind == StepRef && Spellable(s.name, p.wide)
        && StepIndexFor(s.name, Tags(p.steps)) == At(j);
      assert Matchable(sc, s) && Target(sc, sc.ids[k], s.name) == Pick(sc.ids[j]);
    }
  }

  lemma OlderImplied(p: Plan, k: nat, d: Id)
    requires p.Ok() && k < FirstHole(p.Ids())
    requires ReadsOlder(p.net, p.steps, p.wide, p.steps[k], d)
    ensures var sc := p.Sc();
      d in Implied(sc, sc.ids[k], RefsOfFields(p.steps[k].params))
  {
    var sc := p.Sc();
    var s :| s in RefsOfFields(p.steps[k].params) && s.Ref? && s.kind == StepRef && Spellable(s.name, p.wide)
      && StepIndexFor(s.name, Tags(p.steps)).Nothing? && Finished(p.net, s.name) == Pick(d);
    NotATag(p.steps, s.name);
    ReachesBack(p.net, p.reg, p.steps, p.paid, s.name);
    assert Matchable(sc, s) && Target(sc, sc.ids[k], s.name) == Pick(d);
  }

  /** A step only ever reads finished work: once its node is ready, every step it refers to by name is terminal,
      as long as nothing has taken a dependency away from it. */
  lemma ReadyReadsDone(p: Plan, k: nat, later: Net, s: Seg)
    requires p.Ok()
    requires k < FirstHole(p.Ids())
    requires var sc := p.Sc();
      && s in RefsOfFields(p.steps[k].params) && Matchable(sc, s) && Target(sc, sc.ids[k], s.name).Pick?
    requires var own := p.Ids()[k];
      && IsReady(later, own) && own in p.After().nodes
      && forall d :: d in p.After().nodes[own].deps ==> d in later.nodes[own].deps
    ensures var sc := p.Sc();
      Done(later, Target(sc, sc.ids[k], s.name).id)
  {
    var sc := p.Sc();
    WiredStep(p, k);
    assert Target(sc, sc.ids[k], s.name).id in Implied(sc, sc.ids[k], RefsOfFields(p.steps[k].params));
  }

  lemma PlanWired(p: Plan)
    requires p.Ok()
    ensures PlanMade(p.Sc(), p.steps) && WiredTo(p.Sc(), p.steps, p.After(), FirstHole(p.Ids()))
    ensures forall j :: 0 <= j < FirstHole(p.Ids()) ==> p.Ids()[j] != ""
    ensures NetOk(p.After()) && p.After().order == p.Sc().net.order
  {
    hide NetOk, WiredTo;
    PlanIsMade(p.net, p.reg, p.steps, p.wide, p.paid);
    forall j | 0 <= j < FirstHole(p.Ids()) ensures p.Ids()[j] != "" { NoHoleBefore(p.Ids(), j); }
    WiredAt(p.Sc(), p.steps, FirstHole(p.Ids()));
    WiredKeeps(p.Sc(), p.steps, FirstHole(p.Ids()));
  }

  lemma UnwiredNode(p: Plan, k: nat)
    requires p.Ok() && FirstHole(p.Ids()) <= k < |p.steps| && p.Ids()[k] != ""
    ensures p.Ids()[k] in p.Sc().net.nodes && p.Ids()[k] in p.After().nodes
    ensures p.After().nodes[p.Ids()[k]] == p.Sc().net.nodes[p.Ids()[k]]
  {
    PlanWired(p);
    forall j | 0 <= j < FirstHole(p.Ids()) ensures p.Ids()[j] != p.Ids()[k] {}
    assert p.Ids()[k] !in p.Ids()[..FirstHole(p.Ids())];
  }

  /** A step behind a hole keeps its node but is never wired: it waits for nothing, and if it refers to any step
      it is refused whenever it fires. */
  lemma BehindAHole(p: Plan, k: nat, later: Net, codec: Codec)
    requires p.Ok() && FirstHole(p.Ids()) <= k < |p.steps| && p.Ids()[k] != ""
    ensures var own := p.Ids()[k];
      && own in p.After().nodes && p.After().nodes[own].deps == []
      && p.After().nodes[own].task.params == Obj(p.steps[k].params)
    ensures (exists s :: s in RefsOfFields(p.steps[k].params) && IsStepReference(s)) ==>
      Substitution(later, codec, p.steps[k].params) == Refused(StepReference)
  {
    hide NetOk, SubFields, Grafted, FirstFailure;
    UnwiredNode(p, k);
    MadeNode(p, k);
  }

  lemma MadeNode(p: Plan, k: nat)
    requires p.Ok() && k < |p.steps| && p.Ids()[k] != ""
    ensures p.Ids()[k] in p.Sc().net.nodes && p.Ids()[k] !in p.net.nodes
    ensures p.Sc().net.nodes[p.Ids()[k]].deps == [] && p.Sc().net.nodes[p.Ids()[k]].task.params == Obj(p.steps[k].params)
  {
    hide NetOk, Grafted;
    AddedAt(p.net, p.reg, p.steps, p.paid, k);
  }

  // ---- Which nodes there are, and what they are there to do ----

  /** A step has a node exactly when the budget paid for it and its tool is the engine's own, unnamed or registered. */
  lemma HasNodeIff(p: Plan, k: nat)
    requires p.Ok() && k < |p.steps|
    ensures p.Ids()[k] != "" <==>
      k < p.paid && (p.steps[k].tool == "compute" || p.steps[k].tool == "" || p.reg.knows(p.steps[k].tool))
  {}

  /** The node, wired or not, does what its step says: nothing of the step's tool, name or origin is lost or swapped. */
  lemma NodeDoesStep(p: Plan, k: nat)
    requires p.Ok() && k < |p.steps| && p.Ids()[k] != ""
    ensures p.Ids()[k] in p.After().nodes
    ensures var info, step := p.After().nodes[p.Ids()[k]], p.steps[k];
      && info.task.tool == step.tool && info.task.tag == step.tag && info.task.source == p.reg.source(step.tool)
      && info.task.spawnedBy == "" && info.task.addresses == []
      && info.task.kind == (if step.tool == "compute" then Compute else Tool)
      && info.state == Pending && info.round == p.net.round && info.children == [] && !info.runGrafted && !info.superseded
      && info.outcome.result == [] && info.outcome.body == NoBody && info.outcome.err == ""
  {
    AsMade(p, k);
    hide NetOk, Grafted;
    var params, deps := OnlyWired(p, k);
  }

  lemma AsMade(p: Plan, k: nat)
    requires p.Ok() && k < |p.steps| && p.Ids()[k] != ""
    ensures p.Ids()[k] in p.Sc().net.nodes
    ensures p.Sc().net.nodes[p.Ids()[k]] == NewInfo(TaskOf(p.reg, p.steps[k]), []).(round := p.net.round)
  {
    hide NetOk, Grafted;
    AddedAt(p.net, p.reg, p.steps, p.paid, k);
  }

  /** From first pass to last, only the parameters and the dependencies of a new node change. */
  lemma OnlyWired(p: Plan, k: nat) returns (params: Val, deps: seq<Id>)
    requires p.Ok() && k < |p.steps| && p.Ids()[k] != ""
    ensures p.Ids()[k] in p.After().nodes && p.Ids()[k] in p.Sc().net.nodes
    ensures p.After().nodes[p.Ids()[k]] == Wire(p.Sc().net.nodes[p.Ids()[k]], params, deps)
  {
    hide NetOk, Grafted, PlanIds, StepDeps, MapFields;
    if k < FirstHole(p.Ids()) {
      WiredStep(p, k);
      params, deps := Obj(MapFields(Rewriter(p.Sc(), p.Ids()[k]), p.steps[k].params)), StepDeps(p.Sc(), p.Ids()[k], p.steps[k]);
    } else {
      UnwiredNode(p, k);
      params, deps := p.Sc().net.nodes[p.Ids()[k]].task.params, p.Sc().net.nodes[p.Ids()[k]].deps;
    }
  }

  /** The budget pays for the most steps it has room for, and charges exactly those. */
  lemma PaidIsMost(l: Budgets.Limits, c: Budgets.Counts, n: nat, m: nat)
    requires m < n
    ensures Paid(l, c, n) <= n && (m < Paid(l, c, n) <==> c.nodes + m < l.maxNodes)
  {}

  // ---- The shape of the graph ----

  lemma NewNodes(p: Plan)
    requires p.Ok()
    ensures NetOk(p.Sc().net) && p.net.order <= p.Sc().net.order
    ensures forall id :: id in p.net.nodes ==> id in p.Sc().net.nodes && p.Sc().net.nodes[id] == p.net.nodes[id]
    ensures forall id :: id in p.Sc().net.nodes && id !in p.net.nodes ==> id != "" && id in p.Ids()
    ensures forall k :: 0 <= k < |p.steps| && p.Ids()[k] != "" ==> p.Ids()[k] in p.Sc().net.nodes && p.Ids()[k] !in p.net.nodes
  {
    hide NetOk, Added;
    AddedOk(p.net, p.reg, p.steps, p.paid);
    forall k | 0 <= k < |p.steps| && p.Ids()[k] != "" ensures p.Ids()[k] in p.Sc().net.nodes && p.Ids()[k] !in p.net.nodes {
      MadeNode(p, k);
    }
    forall id | id in p.Sc().net.nodes && id !in p.net.nodes ensures id != "" && id in p.Ids() {
      AddedOnly(p.net, p.reg, p.steps, p.paid, id);
    }
  }

  /** The graft touches no node the run already had, and adds only the plan's. */
  lemma OldUntouched(p: Plan)
    requires p.Ok()
    ensures NetOk(p.After()) && p.net.order <= p.After().order
    ensures forall id :: id in p.net.nodes ==> id in p.After().nodes && p.After().nodes[id] == p.net.nodes[id]
    ensures forall id :: id in p.After().nodes && id !in p.net.nodes ==> id != "" && id in p.Ids()
    ensures forall k :: 0 <= k < |p.steps| && p.Ids()[k] != "" ==> p.Ids()[k] in p.After().nodes && p.Ids()[k] !in p.net.nodes
  {
    PlanWired(p);
    NewNodes(p);
    hide NetOk, PlanMade, Grafted, PlanScope, PlanIds;
    forall id | id in p.net.nodes ensures id !in p.Ids()[..FirstHole(p.Ids())] {}
  }

  ghost function NewWaits(net: Net, after: Net): set<(Id, Id)> {
    set e | e in Waits(after) && e.0 !in net.nodes
  }

  /** Edges among the new nodes are exactly the plan's own relation, step for node. */
  lemma NewWaitsAre(p: Plan, x: Id, y: Id)
    requires p.Ok()
    requires var after := p.After(); (x, y) in NewWaits(p.net, after)
    ensures var ids := p.Ids();
      y in p.After().nodes
      && (y !in p.net.nodes ==> (PlaceOf(ids, x), PlaceOf(ids, y)) in PlanWaits(ids, p.steps, p.wide))
  {
    var ids := p.Ids();
    OldUntouched(p);
    var i := PlaceOf(ids, x);
    if i < FirstHole(ids) {
      WaitsExactly(p, i, y);
      if j :| (i, j) in PlanWaits(ids, p.steps, p.wide) && ids[j] == y {
        IdsDistinct(|p.net.order|, p.reg, p.steps, p.paid, j, PlaceOf(ids, y));
      } else {
        OlderExists(p.net, p.steps, p.wide, p.steps[i], y);
      }
    } else {
      BehindAHole(p, i, p.net, AnyCodec());
    }
  }

  ghost function AnyCodec(): Codec {
    Codec(t => Str(t), t => false, v => [], (id, path, v) => v)
  }

  lemma OlderExists(net: Net, steps: seq<PlanStep>, wide: char -> bool, step: PlanStep, d: Id)
    requires ReadsOlder(net, steps, wide, step, d)
    ensures d in net.nodes
  {
    var s :| s in RefsOfFields(step.params) && s.Ref? && s.kind == StepRef && Spellable(s.name, wide)
      && StepIndexFor(s.name, Tags(steps)).Nothing? && Finished(net, s.name) == Pick(d);
    assert Named(net, s.name, d);
  }

  lemma PlanWaitsInGraph(p: Plan, i: int, j: int)
    requires p.Ok()
    requires (i, j) in PlanWaits(p.Ids(), p.steps, p.wide)
    ensures var ids := p.Ids();
      (ids[i], ids[j]) in Waits(p.After())
  {
    WaitsExactly(p, i, p.Ids()[j]);
  }

  /** Grafting a plan keeps the graph closed, and acyclic exactly when it was acyclic and the plan is: the wiring
      adds no cycle that is not one of the plan's own. */
  lemma GraftAcyclicIff(p: Plan)
    requires p.Ok() && ClosedNet(p.net)
    ensures ClosedNet(p.After())
    ensures Acyclic(Waits(p.After())) <==>
      Acyclic(Waits(p.net)) && Acyclic(PlanWaits(p.Ids(), p.steps, p.wide))
  {
    var after, ids := p.After(), p.Ids();
    var plan := PlanWaits(ids, p.steps, p.wide);
    OldUntouched(p);
    var high, top := NewWaits(p.net, after), after.nodes.Keys - p.net.nodes.Keys;
    forall x, y | (x, y) in high
      ensures y in after.nodes && (y !in p.net.nodes ==> (PlaceOf(ids, x), PlaceOf(ids, y)) in plan)
    {
      NewWaitsAre(p, x, y);
    }
    SplitWaits(p.net, after);
    if Acyclic(Waits(p.net)) && Acyclic(plan) {
      HomomorphismAcyclic(Within(high, top), plan, (x: Id) => PlaceOf(ids, x));
      LayerAcyclic(Waits(p.net), high, top);
    }
    if Acyclic(Waits(after)) {
      SubgraphAcyclic(Waits(p.net), Waits(after));
      forall i, j | (i, j) in plan ensures (IdAt(ids, i), IdAt(ids, j)) in Waits(after) {
        PlanWaitsInGraph(p, i, j);
      }
      HomomorphismAcyclic(plan, Waits(after), (i: int) => IdAt(ids, i));
    }
  }

  function IdAt(ids: seq<Id>, i: int): Id {
    if 0 <= i < |ids| then ids[i] else ""
  }

  lemma SplitWaits(net: Net, after: Net)
    requires ClosedNet(net) && forall id :: id in net.nodes ==> id in after.nodes && after.nodes[id] == net.nodes[id]
    requires forall x, y :: (x, y) in NewWaits(net, after) ==> y in after.nodes
    ensures Waits(after) == Waits(net) + NewWaits(net, after)
    ensures ClosedNet(after)
    ensures forall x, y :: (x, y) in Waits(net) ==> x in net.nodes && y in net.nodes
  {
    forall id, d | id in after.nodes && d in after.nodes[id].deps ensures d in after.nodes {
      if id !in net.nodes { assert (id, d) in NewWaits(net, after); }
    }
    forall x, y ensures (x, y) in Waits(after) <==> (x, y) in Waits(net) + NewWaits(net, after) {}
  }
}
