/** Grafting a plan (agent/executive.go, planStepsToNodes): a node for every step the budget pays for, then the
    wiring of each to the steps it names. */
module PlanNodes {
  import opened Values
  import opened Nets
  import opened Names
  import opened Templates
  import opened PlanGraft
  import Graphs
  import Budgets

  /** The tool registry: which tools exist and where each comes from. */
  datatype Registry = Registry(knows: string -> bool, source: string -> string)

  predicate Accepted(reg: Registry, step: PlanStep) {
    step.tool == "compute" || step.tool == "" || reg.knows(step.tool)
  }

  function TaskOf(reg: Registry, step: PlanStep): Task {
    Task(if step.tool == "compute" then Compute else Tool, step.tool, step.tag, reg.source(step.tool), "", Obj(step.params), [])
  }

  // ---- First pass: the nodes ----

  /** How many of n steps the node budget pays for; an unknown tool is paid for too. */
  function Paid(l: Budgets.Limits, c: Budgets.Counts, n: nat): nat {
    if c.nodes >= l.maxNodes then 0 else if l.maxNodes - c.nodes < n then l.maxNodes - c.nodes else n
  }

  function AcceptedUpTo(reg: Registry, steps: seq<PlanStep>, n: nat): (r: nat)
    requires n <= |steps|
    ensures r <= n
  {
    if n == 0 then 0 else AcceptedUpTo(reg, steps, n - 1) + if Accepted(reg, steps[n - 1]) then 1 else 0
  }

  /** The id of every step's node, "" for the steps that have none. */
  function PlanIds(first: nat, reg: Registry, steps: seq<PlanStep>, paid: nat): (r: seq<Id>)
    ensures |r| == |steps|
  {
    seq(|steps|, k requires 0 <= k < |steps| =>
      if k < paid && Accepted(reg, steps[k]) then NodeName(first + AcceptedUpTo(reg, steps, k) + 1) else "")
  }

  function Added(net: Net, reg: Registry, steps: seq<PlanStep>, n: nat): Net
    requires n <= |steps|
  {
    if n == 0 then net
    else if Accepted(reg, steps[n - 1]) then WithNode(Added(net, reg, steps, n - 1), NewInfo(TaskOf(reg, steps[n - 1]), []))
    else Added(net, reg, steps, n - 1)
  }

  lemma {:induction false} CountGrows(reg: Registry, steps: seq<PlanStep>, i: nat, j: nat)
    requires i < j <= |steps| && Accepted(reg, steps[i])
    ensures AcceptedUpTo(reg, steps, i) < AcceptedUpTo(reg, steps, j)
  {
    if i + 1 < j { CountGrows(reg, steps, i, j - 1); }
  }

  /** Different steps have different nodes. */
  lemma IdsDistinct(first: nat, reg: Registry, steps: seq<PlanStep>, paid: nat, i: nat, j: nat)
    requires i < |steps| && j < |steps|
    requires PlanIds(first, reg, steps, paid)[i] == PlanIds(first, reg, steps, paid)[j] != ""
    ensures i == j
  {
    NodeNameInjective(first + AcceptedUpTo(reg, steps, i) + 1, first + AcceptedUpTo(reg, steps, j) + 1);
    if i < j { CountGrows(reg, steps, i, j); } else if j < i { CountGrows(reg, steps, j, i); }
  }

  lemma {:induction false} AddedOk(net: Net, reg: Registry, steps: seq<PlanStep>, n: nat)
    requires NetOk(net) && n <= |steps|
    ensures NetOk(Added(net, reg, steps, n)) && Added(net, reg, steps, n).round == net.round
    ensures |Added(net, reg, steps, n).order| == |net.order| + AcceptedUpTo(reg, steps, n)
    ensures net.order <= Added(net, reg, steps, n).order
    ensures forall id :: id in net.nodes ==> id in Added(net, reg, steps, n).nodes && Added(net, reg, steps, n).nodes[id] == net.nodes[id]
  {
    if n > 0 {
      AddedOk(net, reg, steps, n - 1);
      var before := Added(net, reg, steps, n - 1);
      if Accepted(reg, steps[n - 1]) {
        WithNodeOk(before, NewInfo(TaskOf(reg, steps[n - 1]), []));
        Nets.FreshName(before);
      }
    }
  }

  /** The node a step was given. */
  ghost predicate HasNode(net: Net, reg: Registry, steps: seq<PlanStep>, n: nat, k: nat)
    requires k < n <= |steps|
  {
    var id := NodeName(|net.order| + AcceptedUpTo(reg, steps, k) + 1);
    && id in Added(net, reg, steps, n).nodes && id !in net.nodes
    && Added(net, reg, steps, n).nodes[id] == NewInfo(TaskOf(reg, steps[k]), []).(round := net.round)
  }

  lemma AddedMore(net: Net, reg: Registry, steps: seq<PlanStep>, n: nat)
    requires NetOk(net) && n < |steps|
    ensures var before, after := Added(net, reg, steps, n).nodes, Added(net, reg, steps, n + 1).nodes;
      forall id :: id in before ==> id in after && after[id] == before[id]
  {
    AddedOk(net, reg, steps, n);
    hide NetOk, AcceptedUpTo;
    Nets.FreshName(Added(net, reg, steps, n));
  }

  lemma AddedLast(net: Net, reg: Registry, steps: seq<PlanStep>, n: nat)
    requires NetOk(net) && n < |steps| && Accepted(reg, steps[n])
    ensures HasNode(net, reg, steps, n + 1, n)
  {
    AddedOk(net, reg, steps, n);
    hide NetOk, AcceptedUpTo;
    Nets.FreshName(Added(net, reg, steps, n));
  }

  lemma {:induction false} AddedAt(net: Net, reg: Registry, steps: seq<PlanStep>, n: nat, k: nat)
    requires NetOk(net) && k < n <= |steps| && Accepted(reg, steps[k])
    ensures HasNode(net, reg, steps, n, k)
  {
    hide NetOk, Added, AcceptedUpTo;
    if k < n - 1 {
      AddedAt(net, reg, steps, n - 1, k);
      AddedMore(net, reg, steps, n - 1);
      assert Added(net, reg, steps, n) == Added(net, reg, steps, n - 1 + 1);
    } else {
      AddedLast(net, reg, steps, k);
    }
  }

  /** Nothing else is added. */
  lemma {:induction false} AddedOnly(net: Net, reg: Registry, steps: seq<PlanStep>, n: nat, id: Id)
    requires NetOk(net) && n <= |steps| && id in Added(net, reg, steps, n).nodes && id !in net.nodes
    ensures exists k :: 0 <= k < n && PlanIds(|net.order|, reg, steps, n)[k] == id && Accepted(reg, steps[k])
  {
    if n > 0 {
      AddedOk(net, reg, steps, n - 1);
      var ids, ids' := PlanIds(|net.order|, reg, steps, n - 1), PlanIds(|net.order|, reg, steps, n);
      if id in Added(net, reg, steps, n - 1).nodes {
        AddedOnly(net, reg, steps, n - 1, id);
        var k :| 0 <= k < n - 1 && ids[k] == id && Accepted(reg, steps[k]);
        assert ids'[k] == id;
      } else {
        assert ids'[n - 1] == id;
      }
    }
  }

  /** Passes over one step. */
  method CreateOne(g: Graphs.Graph, b: Budgets.Budget, reg: Registry, steps: seq<PlanStep>, k: nat, ids0: seq<Id>,
                   ghost was: Net)
    returns (granted: bool, ids: seq<Id>)
    requires g.Valid() && NetOk(was) && k < |steps|
    requires g.net == Added(was, reg, steps, k) && ids0 == PlanIds(|was.order|, reg, steps, k)
    modifies g, b
    ensures granted == (old(b.View()).nodes < b.limits.maxNodes)
    ensures b.View() == old(b.View()).(nodes := old(b.View()).nodes + if granted then 1 else 0)
    ensures g.Valid() && g.net == Added(was, reg, steps, if granted then k + 1 else k)
    ensures ids == PlanIds(|was.order|, reg, steps, if granted then k + 1 else k)
    ensures fresh(g.nodes.Values - old(g.nodes.Values))
  {
    hide Added, PlanIds, NetOk, Graphs.Graph.Valid;
    ids := ids0;
    granted := b.TrySpawnNode("", false);
    if !granted { return; }
    AddedOk(was, reg, steps, k);
    NextId(was, reg, steps, k);
    NextAdded(was, reg, steps, k);
    if Accepted(reg, steps[k]) {
      var n := new Graphs.Node(TaskOf(reg, steps[k]), []);
      var id := g.AddNode(n);
      ids := ids[k := id];
    }
  }

  lemma NextAdded(was: Net, reg: Registry, steps: seq<PlanStep>, k: nat)
    requires k < |steps|
    ensures Added(was, reg, steps, k + 1) == if Accepted(reg, steps[k])
      then WithNode(Added(was, reg, steps, k), NewInfo(TaskOf(reg, steps[k]), [])) else Added(was, reg, steps, k)
  {}

  lemma NextId(was: Net, reg: Registry, steps: seq<PlanStep>, k: nat)
    requires NetOk(was) && k < |steps|
    ensures var ids := PlanIds(|was.order|, reg, steps, k);
      && |ids| == |steps|
      && PlanIds(|was.order|, reg, steps, k + 1) == if Accepted(reg, steps[k])
        then ids[k := NodeName(|Added(was, reg, steps, k).order| + 1)] else ids
  {
    AddedOk(was, reg, steps, k);
  }

  method CreateNodes(g: Graphs.Graph, b: Budgets.Budget, reg: Registry, steps: seq<PlanStep>)
    returns (ids: seq<Id>, made: nat)
    requires g.Valid()
    modifies g, b
    ensures made == Paid(b.limits, old(b.View()), |steps|)
    ensures b.View() == old(b.View()).(nodes := old(b.View()).nodes + made)
    ensures g.Valid() && g.net == Added(old(g.net), reg, steps, made)
    ensures ids == PlanIds(|old(g.net).order|, reg, steps, made)
    ensures fresh(g.nodes.Values - old(g.nodes.Values))
  {
    ghost var was, spent := g.net, b.View();
    ids, made := seq(|steps|, k => ""), 0;
    assert ids == PlanIds(|was.order|, reg, steps, 0);
    while made < |steps|
      invariant made <= Paid(b.limits, spent, |steps|)
      invariant b.View() == spent.(nodes := spent.nodes + made)
      invariant g.Valid() && NetOk(was) && g.net == Added(was, reg, steps, made)
      invariant ids == PlanIds(|was.order|, reg, steps, made)
      invariant fresh(g.nodes.Values - old(g.nodes.Values))
    {
      hide Added, PlanIds, NetOk;
      var granted;
      granted, ids := CreateOne(g, b, reg, steps, made, ids, was);
      if !granted { break; }
      made := made + 1;
    }
  }

  // ---- What FinishedStep finds does not depend on wiring ----

  lemma {:induction false} NewestSame(net: Net, net': Net, ids: seq<Id>, p: Id -> bool, p': Id -> bool)
    requires forall id :: id in ids ==> (p(id) <==> p'(id))
    requires forall id :: id in ids && p(id) ==>
      id in net.nodes && id in net'.nodes && net.nodes[id].round == net'.nodes[id].round
    ensures Newest(net, ids, p) == Newest(net', ids, p')
  {
    if ids != [] {
      var last, init := ids[|ids| - 1], ids[..|ids| - 1];
      assert ids == init + [last];
      NewestSame(net, net', init, p, p');
    }
  }

  ghost predicate FindsSame(net: Net, net': Net) {
    forall name :: Finished(net, name) == Finished(net', name)
  }

  /** Rewiring a node changes nothing FinishedStep looks at. */
  lemma WireFindsSame(net: Net, id: Id, params: Val, deps: seq<Id>)
    requires id in net.nodes
    ensures FindsSame(net, WithInfo(net, id, Wire(net.nodes[id], params, deps)))
  {
    var net' := WithInfo(net, id, Wire(net.nodes[id], params, deps));
    forall name ensures Finished(net, name) == Finished(net', name) {
      NewestSame(net, net', net.order, ByNameResolved(net, name), ByNameResolved(net', name));
      NewestSame(net, net', net.order, ByName(net, name), ByName(net', name));
    }
  }

  lemma {:induction false} NewestSkips(net: Net, ids: seq<Id>, more: seq<Id>, p: Id -> bool)
    requires forall id :: id in ids + more && p(id) ==> id in net.nodes
    requires forall id :: id in more ==> !p(id)
    ensures forall id :: id in ids && p(id) ==> id in net.nodes
    ensures Newest(net, ids + more, p) == Newest(net, ids, p)
  {
    forall id | id in ids ensures id in ids + more {}
    if more == [] {
      assert ids + more == ids;
    } else {
      var init := more[..|more| - 1];
      assert (ids + more)[..|ids + more| - 1] == ids + init;
      assert more[|more| - 1] in more;
      forall id | id in ids + init ensures id in ids + more {}
      NewestSkips(net, ids, init, p);
    }
  }

  lemma NewOnesNamed(net: Net, reg: Registry, steps: seq<PlanStep>, n: nat, id: Id)
    requires NetOk(net) && n <= |steps| && id in Added(net, reg, steps, n).nodes && id !in net.nodes
    ensures Added(net, reg, steps, n).nodes[id].task.tag in Tags(steps)
  {
    AddedOnly(net, reg, steps, n, id);
    var k :| 0 <= k < n && PlanIds(|net.order|, reg, steps, n)[k] == id && Accepted(reg, steps[k]);
    AddedAt(net, reg, steps, n, k);
    assert Tags(steps)[k] == steps[k].tag;
  }

  lemma LaterIsNew(net: Net, net': Net, more: seq<Id>)
    requires NetOk(net) && NetOk(net') && net'.order == net.order + more
    ensures forall id :: id in more ==> id in net'.nodes && id !in net.nodes
    ensures forall id :: id in net.order ==> id in net.nodes
  {
    forall id | id in more ensures id in net'.nodes && id !in net.nodes {
      var i :| 0 <= i < |more| && more[i] == id;
      assert net'.order[|net.order| + i] == id;
      if id in net.nodes {
        var m :| 0 <= m < |net.order| && net.order[m] == id;
        OrderDistinct(net', m, |net.order| + i);
      }
    }
  }

  lemma NewestLonger(net: Net, net': Net, ids: seq<Id>, more: seq<Id>, p: Id -> bool, p': Id -> bool)
    requires forall id :: id in ids ==> id in net.nodes && id in net'.nodes && net'.nodes[id] == net.nodes[id]
    requires forall id :: id in more ==> id in net'.nodes && !p'(id)
    requires forall id :: id in ids ==> (p(id) <==> p'(id))
    ensures forall id :: id in ids + more ==> id in net'.nodes
    ensures Newest(net', ids + more, p') == Newest(net, ids, p)
  {
    NewestSkips(net', ids, more, p');
    NewestSame(net', net, ids, p', p);
  }

  /** A longer graph whose further nodes have other names finds the same. */
  lemma LongerFindsSame(net: Net, net': Net, name: string)
    requires NetOk(net) && NetOk(net') && net.order <= net'.order
    requires forall id :: id in net.nodes ==> net'.nodes[id] == net.nodes[id]
    requires forall id :: id in net'.nodes && id !in net.nodes ==> net'.nodes[id].task.tag != name
    ensures Finished(net', name) == Finished(net, name)
  {
    var more := net'.order[|net.order|..];
    assert net'.order == net.order + more;
    LaterIsNew(net, net', more);
    OtherNames(net, net', more, name);
    hide *;
    NewestLonger(net, net', net.order, more, ByNameResolved(net, name), ByNameResolved(net', name));
    NewestLonger(net, net', net.order, more, ByName(net, name), ByName(net', name));
    FinishedIs(net, name);
    FinishedIs(net', name);
  }

  lemma OtherNames(net: Net, net': Net, more: seq<Id>, name: string)
    requires forall id :: id in net.nodes ==> id in net'.nodes && net'.nodes[id] == net.nodes[id]
    requires forall id :: id in net'.nodes && id !in net.nodes ==> net'.nodes[id].task.tag != name
    requires forall id :: id in more ==> id in net'.nodes && id !in net.nodes
    requires forall id :: id in net.order ==> id in net.nodes
    ensures forall id :: id in more ==> !ByName(net', name)(id) && !ByNameResolved(net', name)(id)
    ensures forall id :: id in net.order ==>
      && (ByName(net, name)(id) <==> ByName(net', name)(id)) && (ByNameResolved(net, name)(id) <==> ByNameResolved(net', name)(id))
    ensures forall id :: id in net.order ==> id in net.nodes && id in net'.nodes && net'.nodes[id] == net.nodes[id]
  {}

  lemma FinishedIs(net: Net, name: string)
    ensures forall id :: ByName(net, name)(id) || ByNameResolved(net, name)(id) ==> id in net.nodes
    ensures var resolved := Newest(net, net.order, ByNameResolved(net, name));
      Finished(net, name) == if name == "" then NoPick
        else if resolved.Pick? then resolved else Newest(net, net.order, ByName(net, name))
  {
    hide Newest;
  }

  /** A name that no step of the plan has is found among the nodes the run already had: the value an earlier round
      produced, never one of the plan's own. */
  lemma ReachesBack(net: Net, reg: Registry, steps: seq<PlanStep>, n: nat, name: string)
    requires NetOk(net) && n <= |steps| && name !in Tags(steps)
    ensures Finished(Added(net, reg, steps, n), name) == Finished(net, name)
  {
    AddedOk(net, reg, steps, n);
    forall id | id in Added(net, reg, steps, n).nodes && id !in net.nodes
      ensures Added(net, reg, steps, n).nodes[id].task.tag != name
    {
      NewOnesNamed(net, reg, steps, n, id);
    }
    LongerFindsSame(net, Added(net, reg, steps, n), name);
  }

  // ---- Second pass: one step ----

  predicate Counts(deps: seq<int>) {
    forall k :: 0 <= k < |deps| ==> deps[k] >= 0
  }

  /** The listed dependencies that have a node, in order. */
  function Listed(ids: seq<Id>, own: Id, deps: seq<int>): (r: seq<Id>)
    requires Counts(deps)
    ensures forall id :: id in r <==> exists d :: d in deps && 0 <= d < |ids| && ids[d] == id && id != "" && id != own
  {
    if deps == [] then []
    else
      var last, init := deps[|deps| - 1], deps[..|deps| - 1];
      assert deps == init + [last];
      Listed(ids, own, init) + if last < |ids| && ids[last] != "" && ids[last] != own then [ids[last]] else []
  }

  ghost predicate DepsCount(steps: seq<PlanStep>) {
    forall k :: 0 <= k < |steps| ==> Counts(steps[k].dependsOn)
  }

  ghost function StepDeps(sc: Scope, own: Id, step: PlanStep): seq<Id>
    requires Counts(step.dependsOn)
  {
    var listed := Listed(sc.ids, own, step.dependsOn);
    listed + Nets.Missing(listed, Implied(sc, own, RefsOfFields(step.params)))
  }

  /** What one reference adds. */
  function OneImplied(sc: Scope, own: Id, s: Seg): seq<Id> {
    if Matchable(sc, s) && Target(sc, own, s.name).Pick? then [Target(sc, own, s.name).id] else []
  }

  lemma ImpliedFront(sc: Scope, own: Id, refs: seq<Seg>)
    requires refs != []
    ensures Implied(sc, own, refs) == OneImplied(sc, own, refs[0]) + Implied(sc, own, refs[1..])
  {
    hide Matchable, Target;
  }

  lemma {:induction false} ImpliedConcat(sc: Scope, own: Id, a: seq<Seg>, b: seq<Seg>)
    ensures Implied(sc, own, a + b) == Implied(sc, own, a) + Implied(sc, own, b)
    decreases |a|
  {
    hide *;
    if a == [] {
      assert a + b == b;
      NothingImplied(sc, own);
    } else {
      assert (a + b)[1..] == a[1..] + b && (a + b)[0] == a[0];
      ImpliedConcat(sc, own, a[1..], b);
      ImpliedFront(sc, own, a + b);
      ImpliedFront(sc, own, a);
    }
  }

  lemma NothingImplied(sc: Scope, own: Id)
    ensures Implied(sc, own, []) == []
  {}

  lemma {:induction false} RefsUpTo(t: Text, k: nat)
    requires k < |t|
    ensures RefsOfText(t[..k + 1]) == RefsOfText(t[..k]) + if t[k].Ref? then [t[k]] else []
  {
    assert t[..k + 1] == t[..k] + [t[k]];
    OneRef(t[k]);
    RefsConcat(t[..k], [t[k]]);
  }

  /** nodeForRef and the guards before it, on one reference. */
  method FindTarget(g: Graphs.Graph, ghost sc: Scope, ids: seq<Id>, tags: seq<string>, own: Id, name: string)
    returns (target: Pick)
    requires g.Valid() && FindsSame(g.net, sc.net) && sc.ids == ids && sc.tags == tags
    ensures target == Target(sc, own, name)
  {
    match StepIndexFor(name, tags)
    case At(idx) =>
      if idx < 0 || idx >= |ids| || ids[idx] == "" || ids[idx] == own { return NoPick; }
      return Pick(ids[idx]);
    case Nothing =>
      var round;
      target, round := g.FinishedStep(name);
  }

  lemma ImpliedOne(sc: Scope, own: Id, s: Seg)
    ensures Implied(sc, own, if s.Ref? then [s] else []) == OneImplied(sc, own, s)
  {
    assert [s][1..] == [];
  }

  lemma TextNext(sc: Scope, own: Id, t: Text, k: nat)
    requires k < |t|
    ensures MapText(Rewriter(sc, own), t[..k + 1]) == MapText(Rewriter(sc, own), t[..k]) + [RewriteSeg(sc, own, t[k])]
    ensures Implied(sc, own, RefsOfText(t[..k + 1])) == Implied(sc, own, RefsOfText(t[..k])) + OneImplied(sc, own, t[k])
  {
    hide Implied, RefsOfText, Target, RewriteSeg, Matchable;
    RefsUpTo(t, k);
    ImpliedConcat(sc, own, RefsOfText(t[..k]), if t[k].Ref? then [t[k]] else []);
    ImpliedOne(sc, own, t[k]);
  }

  method RewriteString(g: Graphs.Graph, ghost sc: Scope, ids: seq<Id>, tags: seq<string>, wide: char -> bool, own: Id, t: Text)
    returns (out: Text, implied: seq<Id>)
    requires g.Valid() && FindsSame(g.net, sc.net) && sc.ids == ids && sc.tags == tags && sc.wide == wide
    ensures out == MapText(Rewriter(sc, own), t) && implied == Implied(sc, own, RefsOfText(t))
  {
    hide Graphs.Graph.Valid, FindsSame, Target;
    out, implied := [], [];
    for k := 0 to |t|
      invariant out == MapText(Rewriter(sc, own), t[..k])
      invariant implied == Implied(sc, own, RefsOfText(t[..k]))
    {
      hide Implied, RefsOfText;
      TextNext(sc, own, t, k);
      var s := t[k];
      if s.Ref? && s.kind == StepRef && Spellable(s.name, wide) {
        var target := FindTarget(g, sc, ids, tags, own, s.name);
        if target.Pick? {
          s := Ref(NodeRef, target.id, s.path);
          implied := implied + [target.id];
        }
      }
      out := out + [s];
    }
    assert t[..|t|] == t;
  }

  /** rewriteStepTemplates: the walk over a step's parameters. */
  method RewriteWalk(g: Graphs.Graph, ghost sc: Scope, ids: seq<Id>, tags: seq<string>, wide: char -> bool, own: Id, v: Val)
    returns (w: Val, implied: seq<Id>)
    requires g.Valid() && FindsSame(g.net, sc.net) && sc.ids == ids && sc.tags == tags && sc.wide == wide
    ensures w == MapVal(Rewriter(sc, own), v) && implied == Implied(sc, own, RefsOf(v))
    decreases v, 1
  {
    hide Graphs.Graph.Valid, FindsSame;
    match v
    case Str(t) =>
      var out;
      out, implied := RewriteString(g, sc, ids, tags, wide, own, t);
      w := Str(out);
    case Scalar(_) =>
      w, implied := v, [];
    case Arr(items) =>
      var out;
      out, implied := RewriteWalkItems(g, sc, ids, tags, wide, own, items);
      w := Arr(out);
    case Obj(fields) =>
      var out;
      out, implied := RewriteWalkFields(g, sc, ids, tags, wide, own, fields);
      w := Obj(out);
  }

  lemma FieldsNext(sc: Scope, own: Id, fields: seq<Field>, i: nat)
    requires i < |fields|
    ensures MapFields(Rewriter(sc, own), fields[i..])
      == [Field(fields[i].key, MapVal(Rewriter(sc, own), fields[i].value))] + MapFields(Rewriter(sc, own), fields[i + 1..])
    ensures Implied(sc, own, RefsOfFields(fields[i..]))
      == Implied(sc, own, RefsOf(fields[i].value)) + Implied(sc, own, RefsOfFields(fields[i + 1..]))
  {
    ImpliedConcat(sc, own, RefsOf(fields[i].value), RefsOfFields(fields[i + 1..]));
    assert fields[i..][1..] == fields[i + 1..];
  }

  lemma ItemsNext(sc: Scope, own: Id, items: seq<Val>, i: nat)
    requires i < |items|
    ensures MapItems(Rewriter(sc, own), items[i..]) == [MapVal(Rewriter(sc, own), items[i])] + MapItems(Rewriter(sc, own), items[i + 1..])
    ensures Implied(sc, own, RefsOfItems(items[i..]))
      == Implied(sc, own, RefsOf(items[i])) + Implied(sc, own, RefsOfItems(items[i + 1..]))
  {
    ImpliedConcat(sc, own, RefsOf(items[i]), RefsOfItems(items[i + 1..]));
    assert items[i..][1..] == items[i + 1..];
  }

  lemma NothingToWalk(sc: Scope, own: Id)
    ensures MapItems(Rewriter(sc, own), []) == [] && Implied(sc, own, RefsOfItems([])) == []
    ensures MapFields(Rewriter(sc, own), []) == [] && Implied(sc, own, RefsOfFields([])) == []
  {}

  method RewriteWalkItems(g: Graphs.Graph, ghost sc: Scope, ids: seq<Id>, tags: seq<string>, wide: char -> bool, own: Id, all: seq<Val>)
    returns (out: seq<Val>, implied: seq<Id>)
    requires g.Valid() && FindsSame(g.net, sc.net) && sc.ids == ids && sc.tags == tags && sc.wide == wide
    ensures out == MapItems(Rewriter(sc, own), all) && implied == Implied(sc, own, RefsOfItems(all))
    decreases all, 0
  {
    hide *;
    NothingToWalk(sc, own);
    out, implied := [], [];
    assert all[0..] == all;
    for i := 0 to |all|
      invariant out + MapItems(Rewriter(sc, own), all[i..]) == MapItems(Rewriter(sc, own), all)
      invariant implied + Implied(sc, own, RefsOfItems(all[i..])) == Implied(sc, own, RefsOfItems(all))
    {
      ItemsNext(sc, own, all, i);
      var x, more := RewriteWalk(g, sc, ids, tags, wide, own, all[i]);
      out, implied := out + [x], implied + more;
    }
    assert all[|all|..] == [];
  }

  method RewriteWalkFields(g: Graphs.Graph, ghost sc: Scope, ids: seq<Id>, tags: seq<string>, wide: char -> bool, own: Id, all: seq<Field>)
    returns (out: seq<Field>, implied: seq<Id>)
    requires g.Valid() && FindsSame(g.net, sc.net) && sc.ids == ids && sc.tags == tags && sc.wide == wide
    ensures out == MapFields(Rewriter(sc, own), all) && implied == Implied(sc, own, RefsOfFields(all))
    decreases all, 0
  {
    hide *;
    NothingToWalk(sc, own);
    out, implied := [], [];
    assert all[0..] == all;
    for i := 0 to |all|
      invariant out + MapFields(Rewriter(sc, own), all[i..]) == MapFields(Rewriter(sc, own), all)
      invariant implied + Implied(sc, own, RefsOfFields(all[i..])) == Implied(sc, own, RefsOfFields(all))
    {
      FieldsNext(sc, own, all, i);
      var x, more := RewriteWalk(g, sc, ids, tags, wide, own, all[i].value);
      out, implied := out + [Field(all[i].key, x)], implied + more;
    }
    assert all[|all|..] == [];
  }

  // ---- Second pass: the whole plan ----

  /** A step's node with its parameters rewritten and its dependencies set. */
  ghost function Wiring(sc: Scope, own: Id, step: PlanStep, info: Info): Info
    requires Counts(step.dependsOn)
  {
    Wire(info, Obj(MapFields(Rewriter(sc, own), step.params)), StepDeps(sc, own, step))
  }

  /** The first n steps wired. */
  ghost function Wired(sc: Scope, steps: seq<PlanStep>, n: nat): Net
    requires n <= |steps| == |sc.ids| && DepsCount(steps)
  {
    if n == 0 then sc.net
    else
      var net, own := Wired(sc, steps, n - 1), sc.ids[n - 1];
      if own !in net.nodes then net
      else WithInfo(net, own, Wiring(sc, own, steps[n - 1], net.nodes[own]))
  }

  /** The plan's nodes as the first pass leaves them: every id names a node with its step's name. */
  ghost predicate PlanMade(sc: Scope, steps: seq<PlanStep>) {
    && |sc.ids| == |steps| && sc.tags == Tags(steps) && NetOk(sc.net) && DepsCount(steps)
    && (forall k :: 0 <= k < |steps| && sc.ids[k] != "" ==>
      sc.ids[k] in sc.net.nodes && sc.net.nodes[sc.ids[k]].task.tag == steps[k].tag)
    && (forall i, j :: 0 <= i < |steps| && 0 <= j < |steps| && sc.ids[i] == sc.ids[j] != "" ==> i == j)
  }

  /** The second pass stops at the first step without a node. */
  function FirstHole(ids: seq<Id>): (n: nat)
    ensures n <= |ids| && "" !in ids[..n] && (n < |ids| ==> ids[n] == "")
  {
    if ids == [] || ids[0] == "" then 0
    else
      var n := FirstHole(ids[1..]);
      assert ids[..n + 1] == [ids[0]] + ids[1..][..n];
      n + 1
  }

  lemma NoHoleBefore(ids: seq<Id>, k: nat)
    requires k < FirstHole(ids)
    ensures ids[k] != ""
  {
    assert ids[k] in ids[..FirstHole(ids)];
  }

  lemma WireKeeps(sc: Scope, net: Net, own: Id, step: PlanStep)
    requires Counts(step.dependsOn) && NetOk(net) && own in net.nodes
    ensures var net' := WithInfo(net, own, Wiring(sc, own, step, net.nodes[own]));
      NetOk(net') && FindsSame(net, net') && net'.nodes.Keys == net.nodes.Keys && net'.order == net.order && net'.round == net.round
  {
    InfoOk(net, own, Wiring(sc, own, step, net.nodes[own]));
    WireFindsSame(net, own, Obj(MapFields(Rewriter(sc, own), step.params)), StepDeps(sc, own, step));
  }

  lemma {:induction false} WiredKeeps(sc: Scope, steps: seq<PlanStep>, n: nat)
    requires |steps| == |sc.ids| && NetOk(sc.net) && DepsCount(steps) && n <= |steps|
    ensures NetOk(Wired(sc, steps, n)) && FindsSame(Wired(sc, steps, n), sc.net)
    ensures Wired(sc, steps, n).nodes.Keys == sc.net.nodes.Keys && Wired(sc, steps, n).order == sc.net.order
    ensures Wired(sc, steps, n).round == sc.net.round
  {
    hide NetOk, FindsSame, Wiring, WithInfo;
    if n > 0 {
      WiredKeeps(sc, steps, n - 1);
      var net, own := Wired(sc, steps, n - 1), sc.ids[n - 1];
      if own in net.nodes { WireKeeps(sc, net, own, steps[n - 1]); }
      FindsSameChain(Wired(sc, steps, n), net, sc.net);
    } else {
      FindsItself(sc.net);
    }
  }

  lemma FindsItself(net: Net)
    ensures FindsSame(net, net)
  {}

  lemma FindsSameChain(a: Net, b: Net, c: Net)
    requires (a == b || FindsSame(b, a)) && FindsSame(b, c)
    ensures FindsSame(a, c)
  {}

  ghost predicate IsWired(sc: Scope, steps: seq<PlanStep>, net: Net, k: nat)
    requires |steps| == |sc.ids| && DepsCount(steps) && k < |steps|
  {
    var own := sc.ids[k];
    && own in sc.net.nodes && own in net.nodes
    && net.nodes[own] == Wiring(sc, own, steps[k], sc.net.nodes[own])
  }

  ghost predicate WiredTo(sc: Scope, steps: seq<PlanStep>, net: Net, n: nat)
    requires |steps| == |sc.ids| && DepsCount(steps) && n <= |steps|
  {
    && net.nodes.Keys == sc.net.nodes.Keys
    && (forall k :: 0 <= k < n ==> IsWired(sc, steps, net, k))
    && (forall id :: id in sc.net.nodes && id !in sc.ids[..n] ==> net.nodes[id] == sc.net.nodes[id])
  }

  lemma OneMoreWired(sc: Scope, steps: seq<PlanStep>, net: Net, n: nat)
    requires |steps| == |sc.ids| && DepsCount(steps) && n < |steps| && WiredTo(sc, steps, net, n)
    requires sc.ids[n] in sc.net.nodes && sc.ids[n] !in sc.ids[..n]
    ensures sc.ids[n] in net.nodes
    ensures WiredTo(sc, steps, WithInfo(net, sc.ids[n], Wiring(sc, sc.ids[n], steps[n], net.nodes[sc.ids[n]])), n + 1)
  {
    hide Wiring;
    var own := sc.ids[n];
    var net' := WithInfo(net, own, Wiring(sc, own, steps[n], net.nodes[own]));
    assert sc.ids[..n + 1] == sc.ids[..n] + [own];
    forall k | 0 <= k < n ensures IsWired(sc, steps, net', k) {
      assert IsWired(sc, steps, net, k) && sc.ids[k] in sc.ids[..n];
    }
  }

  lemma NotYetWired(sc: Scope, steps: seq<PlanStep>, n: nat)
    requires PlanMade(sc, steps) && n < |steps| && sc.ids[n] != ""
    ensures sc.ids[n] in sc.net.nodes && sc.ids[n] !in sc.ids[..n]
  {}

  lemma NothingWired(sc: Scope, steps: seq<PlanStep>)
    requires PlanMade(sc, steps)
    ensures |steps| == |sc.ids| && DepsCount(steps) && Wired(sc, steps, 0) == sc.net
    ensures WiredTo(sc, steps, sc.net, 0)
  {}

  lemma NextWired(sc: Scope, steps: seq<PlanStep>, n: nat)
    requires |steps| == |sc.ids| && DepsCount(steps) && n < |steps| && sc.ids[n] in Wired(sc, steps, n).nodes
    ensures var net, own := Wired(sc, steps, n), sc.ids[n];
      Wired(sc, steps, n + 1) == WithInfo(net, own, Wiring(sc, own, steps[n], net.nodes[own]))
  {}

  /** Each wired step has its rewritten parameters and dependencies; every other node is untouched. */
  lemma {:induction false} WiredAt(sc: Scope, steps: seq<PlanStep>, n: nat)
    requires PlanMade(sc, steps) && n <= |steps| && forall k :: 0 <= k < n ==> sc.ids[k] != ""
    ensures |steps| == |sc.ids| && DepsCount(steps) && WiredTo(sc, steps, Wired(sc, steps, n), n)
  {
    hide *;
    NothingWired(sc, steps);
    if n > 0 {
      WiredAt(sc, steps, n - 1);
      NotYetWired(sc, steps, n - 1);
      OneMoreWired(sc, steps, Wired(sc, steps, n - 1), n - 1);
      NextWired(sc, steps, n - 1);
    }
  }

  /** What a reference stands for is never the step itself. */
  lemma NeverOwn(sc: Scope, steps: seq<PlanStep>, k: nat, name: string)
    requires PlanMade(sc, steps) && k < |steps| && sc.ids[k] != ""
    ensures Target(sc, sc.ids[k], name) != Pick(sc.ids[k])
  {
    assert sc.tags[0..] == sc.tags && sc.tags[k] == steps[k].tag;
    if StepIndexFor(name, sc.tags).Nothing? && Finished(sc.net, name).Pick? {
      assert Named(sc.net, name, Finished(sc.net, name).id);
    }
  }

  lemma {:induction false} ListedNext(ids: seq<Id>, own: Id, deps: seq<int>, k: nat)
    requires Counts(deps) && k < |deps|
    ensures Counts(deps[..k]) && Counts(deps[..k + 1])
    ensures Listed(ids, own, deps[..k + 1]) == Listed(ids, own, deps[..k])
      + if deps[k] < |ids| && ids[deps[k]] != "" && ids[deps[k]] != own then [ids[deps[k]]] else []
  {
    assert deps[..k + 1][..k] == deps[..k];
  }

  method ListDeps(ids: seq<Id>, own: Id, deps: seq<int>) returns (listed: seq<Id>)
    requires Counts(deps)
    ensures listed == Listed(ids, own, deps)
  {
    listed := [];
    for k := 0 to |deps|
      invariant Counts(deps[..k]) && listed == Listed(ids, own, deps[..k])
    {
      ListedNext(ids, own, deps, k);
      var d := deps[k];
      if d < |ids| && ids[d] != "" && ids[d] != own { listed := listed + [ids[d]]; }
    }
    assert deps[..|deps|] == deps;
  }

  /** What rewriteStepTemplates found, behind what the plan listed. */
  method AddImplied(listed: seq<Id>, own: Id, implied: seq<Id>) returns (deps: seq<Id>)
    requires own !in implied
    ensures deps == listed + Nets.Missing(listed, implied)
  {
    deps := listed;
    for k := 0 to |implied|
      invariant deps == listed + Nets.Missing(listed, implied[..k])
    {
      Graphs.MissingNext(listed, implied, k);
      assert implied[k] in implied;
      if implied[k] == own { continue; }
      if implied[k] !in deps { deps := deps + [implied[k]]; }
    }
    assert implied[..|implied|] == implied;
  }

  method WireOne(g: Graphs.Graph, ghost sc: Scope, steps: seq<PlanStep>, ids: seq<Id>, wide: char -> bool, k: nat)
    requires g.Valid() && PlanMade(sc, steps) && sc.ids == ids && sc.wide == wide
    requires k < |steps| && ids[k] != "" && g.net == Wired(sc, steps, k)
    modifies g`net, g.nodes.Values
    ensures g.Valid() && g.net == Wired(sc, steps, k + 1)
  {
    hide Graphs.Graph.Valid, StepDeps, MapFields, Implied, Listed;
    WiredKeeps(sc, steps, k);
    var own := ids[k];
    assert own in g.net.nodes;
    forall name ensures Target(sc, own, name) != Pick(own) { NeverOwn(sc, steps, k, name); }
    var listed := ListDeps(ids, own, steps[k].dependsOn);
    var params, implied := RewriteWalkFields(g, sc, ids, Tags(steps), wide, own, steps[k].params);
    var deps := AddImplied(listed, own, implied);
    StepDepsAre(sc, own, steps[k]);
    Held(g, own);
    g.SetNodeWiring(own, Obj(params), deps);
  }

  lemma StepDepsAre(sc: Scope, own: Id, step: PlanStep)
    requires Counts(step.dependsOn)
    ensures var listed := Listed(sc.ids, own, step.dependsOn);
      StepDeps(sc, own, step) == listed + Nets.Missing(listed, Implied(sc, own, RefsOfFields(step.params)))
  {}

  lemma Held(g: Graphs.Graph, id: Id)
    requires g.Valid() && id in g.net.nodes
    ensures id in g.nodes
  {}

  // ---- Both passes ----

  ghost function PlanScope(net: Net, reg: Registry, steps: seq<PlanStep>, wide: char -> bool, paid: nat): Scope
    requires paid <= |steps|
  {
    Scope(Added(net, reg, steps, paid), PlanIds(|net.order|, reg, steps, paid), Tags(steps), wide)
  }

  ghost function Grafted(net: Net, reg: Registry, steps: seq<PlanStep>, wide: char -> bool, paid: nat): Net
    requires paid <= |steps| && DepsCount(steps)
  {
    var sc := PlanScope(net, reg, steps, wide, paid);
    Wired(sc, steps, FirstHole(sc.ids))
  }

  lemma PlanIsMade(net: Net, reg: Registry, steps: seq<PlanStep>, wide: char -> bool, paid: nat)
    requires NetOk(net) && paid <= |steps| && DepsCount(steps)
    ensures PlanMade(PlanScope(net, reg, steps, wide, paid), steps)
  {
    var sc := PlanScope(net, reg, steps, wide, paid);
    AddedOk(net, reg, steps, paid);
    forall k | 0 <= k < |steps| && sc.ids[k] != ""
      ensures sc.ids[k] in sc.net.nodes && sc.net.nodes[sc.ids[k]].task.tag == steps[k].tag
    {
      AddedAt(net, reg, steps, paid, k);
    }
    forall i, j | 0 <= i < |steps| && 0 <= j < |steps| && sc.ids[i] == sc.ids[j] != "" ensures i == j {
      IdsDistinct(|net.order|, reg, steps, paid, i, j);
    }
  }

  lemma HoleAt(ids: seq<Id>, k: nat)
    requires k <= FirstHole(ids) && k < |ids|
    ensures ids[k] != "" <==> k < FirstHole(ids)
  {
    if k < FirstHole(ids) { NoHoleBefore(ids, k); }
  }

  method WireAll(g: Graphs.Graph, ghost sc: Scope, steps: seq<PlanStep>, ids: seq<Id>, wide: char -> bool, made: nat)
    requires g.Valid() && PlanMade(sc, steps) && sc.ids == ids && sc.wide == wide && g.net == sc.net
    requires forall k :: made <= k < |ids| ==> ids[k] == ""
    modifies g`net, g.nodes.Values
    ensures |steps| == |ids| && DepsCount(steps)
    ensures g.Valid() && g.net == Wired(sc, steps, FirstHole(ids))
  {
    hide *;
    NothingWired(sc, steps);
    var k := 0;
    while k < |steps|
      invariant g.Valid() && k <= FirstHole(ids) && g.net == Wired(sc, steps, k)
    {
      HoleAt(ids, k);
      if k >= made || ids[k] == "" { break; }
      WireOne(g, sc, steps, ids, wide, k);
      k := k + 1;
    }
  }

  /** agent/executive.go, planStepsToNodes. */
  method PlanStepsToNodes(g: Graphs.Graph, b: Budgets.Budget, reg: Registry, steps: seq<PlanStep>, wide: char -> bool)
    returns (ids: seq<Id>)
    requires g.Valid() && DepsCount(steps)
    modifies g, g.nodes.Values, b
    ensures g.Valid()
    ensures ids == PlanIds(|old(g.net).order|, reg, steps, Paid(b.limits, old(b.View()), |steps|))
    ensures b.View() == old(b.View()).(nodes := old(b.View()).nodes + Paid(b.limits, old(b.View()), |steps|))
    ensures g.net == Grafted(old(g.net), reg, steps, wide, Paid(b.limits, old(b.View()), |steps|))
  {
    ghost var was := g.net;
    var made;
    ids, made := CreateNodes(g, b, reg, steps);
    PlanIsMade(was, reg, steps, wide, made);
    WireAll(g, PlanScope(was, reg, steps, wide, made), steps, ids, wide, made);
  }
}
