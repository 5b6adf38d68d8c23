/** The shared graph (agent/dag.go, Graph): nodes mutated in place, kept equal to a Net value. */
module Graphs {
  import opened Values
  import opened Nets
  import Digraph

  class Node {
    var id: Id
    var task: Task
    var outcome: Outcome
    var state: NodeState
    var round: nat
    var deps: seq<Id>
    var children: seq<Id>
    var runGrafted: bool
    var superseded: bool

    ghost function View(): Info
      reads this
    {
      Info(task, outcome, state, round, deps, children, runGrafted, superseded)
    }

    constructor (task: Task, deps: seq<Id>)
      ensures View() == NewInfo(task, deps)
    {
      this.id, this.task, this.outcome, this.state, this.round := "", task, Outcome([], NoBody, ""), Pending, 0;
      this.deps, this.children, this.runGrafted, this.superseded := deps, [], false, false;
    }
  }

  class Graph {
    var nodes: map<Id, Node>
    var order: seq<Id>
    var counter: nat
    var round: nat
    ghost var net: Net  // the graph as a value

    ghost predicate Valid()
      reads this, nodes.Values
    {
      && counter == |order| && order == net.order && round == net.round
      && NetOk(net)
      && nodes.Keys == net.nodes.Keys
      && forall id :: id in nodes ==> nodes[id].id == id && nodes[id].View() == net.nodes[id]
    }

    constructor ()
      ensures Valid() && net == EMPTY && nodes == map[]
    {
      nodes, order, counter, round, net := map[], [], 0, 0, EMPTY;
    }

    // ---- Adding ----

    /** agent/dag.go, AddNode. */
    method AddNode(n: Node) returns (id: Id)
      requires Valid() && n !in nodes.Values
      modifies this, n
      ensures Valid() && net == WithNode(old(net), old(n.View()))
      ensures id == NodeName(|old(net).order| + 1) && id !in old(nodes) && nodes == old(nodes)[id := n]
    {
      ghost var info := n.View();
      FreshName(net);
      id := NodeName(counter + 1);
      Stamp(n, id);
      Insert(n, id, info);
    }

    method Stamp(n: Node, id: Id)
      requires Valid() && n !in nodes.Values
      modifies n
      ensures Valid() && n.id == id && n.View() == old(n.View()).(state := Pending, round := round)
    {
      n.id := id;
      n.state := Pending;
      n.round := round;
      forall x | x in nodes ensures nodes[x].View() == net.nodes[x] { assert nodes[x] != n; }
    }

    method Insert(n: Node, id: Id, ghost info: Info)
      requires Valid() && id !in nodes && id == NodeName(counter + 1) && n.id == id
      requires n.View() == info.(state := Pending, round := round)
      modifies this
      ensures Valid() && net == WithNode(old(net), info) && nodes == old(nodes)[id := n]
    {
      WithNodeOk(net, info);
      net := WithNode(net, info);
      counter := counter + 1;
      nodes := nodes[id := n];
      order := order + [id];
    }

    /** agent/dag.go, BeginRound. */
    method BeginRound()
      requires Valid()
      modifies this
      ensures Valid() && net == old(net).(round := old(net).round + 1) && nodes == old(nodes)
    {
      round := round + 1;
      net := net.(round := round);
    }

    // ---- One node at a time ----

    method SetNodeState(id: Id, s: NodeState)
      requires Valid() && id in nodes
      modifies this`net, nodes[id]
      ensures Valid() && net == WithInfo(old(net), id, old(net).nodes[id].(state := s))
    {
      var n := nodes[id];
      n.state := s;
      net := WithInfo(net, id, net.nodes[id].(state := s));
      forall x | x in nodes ensures nodes[x].id == x && nodes[x].View() == net.nodes[x] {
        if x != id { assert nodes[x] != n; }
      }
    }

    method SetNodeDeps(id: Id, deps: seq<Id>)
      requires Valid() && id in nodes
      modifies this`net, nodes[id]
      ensures Valid() && net == WithInfo(old(net), id, old(net).nodes[id].(deps := deps))
    {
      var n := nodes[id];
      n.deps := deps;
      net := WithInfo(net, id, net.nodes[id].(deps := deps));
      forall x | x in nodes ensures nodes[x].id == x && nodes[x].View() == net.nodes[x] {
        if x != id { assert nodes[x] != n; }
      }
    }

    method SetNodeChildren(id: Id, children: seq<Id>)
      requires Valid() && id in nodes
      modifies this`net, nodes[id]
      ensures Valid() && net == WithInfo(old(net), id, old(net).nodes[id].(children := children))
    {
      var n := nodes[id];
      n.children := children;
      net := WithInfo(net, id, net.nodes[id].(children := children));
      forall x | x in nodes ensures nodes[x].id == x && nodes[x].View() == net.nodes[x] {
        if x != id { assert nodes[x] != n; }
      }
    }

    method MarkSuperseded(id: Id)
      requires Valid() && id in nodes
      modifies this`net, nodes[id]
      ensures Valid() && net == WithInfo(old(net), id, old(net).nodes[id].(superseded := true))
    {
      var n := nodes[id];
      n.superseded := true;
      net := WithInfo(net, id, net.nodes[id].(superseded := true));
      forall x | x in nodes ensures nodes[x].id == x && nodes[x].View() == net.nodes[x] {
        if x != id { assert nodes[x] != n; }
      }
    }

    method MarkRunGrafted(id: Id)
      requires Valid() && id in nodes
      modifies this`net, nodes[id]
      ensures Valid() && net == WithInfo(old(net), id, old(net).nodes[id].(runGrafted := true))
    {
      var n := nodes[id];
      n.runGrafted := true;
      net := WithInfo(net, id, net.nodes[id].(runGrafted := true));
      forall x | x in nodes ensures nodes[x].id == x && nodes[x].View() == net.nodes[x] {
        if x != id { assert nodes[x] != n; }
      }
    }

    /** The wiring of a freshly added node: its rewritten parameters and what it waits for. */
    method SetNodeWiring(id: Id, params: Val, deps: seq<Id>)
      requires Valid() && id in nodes
      modifies this`net, nodes[id]
      ensures Valid()
      ensures net == WithInfo(old(net), id, Wire(old(net).nodes[id], params, deps))
    {
      var n := nodes[id];
      n.task := n.task.(params := params);
      n.deps := deps;
      net := WithInfo(net, id, Wire(net.nodes[id], params, deps));
      forall x | x in nodes ensures nodes[x].id == x && nodes[x].View() == net.nodes[x] {
        if x != id { assert nodes[x] != n; }
      }
    }

    /** agent/dag.go, SetState. */
    method SetState(id: Id, s: NodeState)
      requires Valid()
      modifies this`net, nodes.Values
      ensures Valid() && net == WithState(old(net), id, s)
    {
      if id in nodes { SetNodeState(id, s); }
    }

    /** agent/dag.go, AddChild. */
    method AddChild(parent: Id, child: Id)
      requires Valid()
      modifies this`net, nodes.Values
      ensures Valid() && net == WithChild(old(net), parent, child)
    {
      if parent in nodes { SetNodeChildren(parent, nodes[parent].children + [child]); }
    }

    // ---- Looking ----

    /** agent/dag.go, ReadyNodes. */
    method ReadyNodes() returns (ready: seq<Id>)
      requires Valid()
      ensures ready == ReadyIds(net)
    {
      ready := [];
      ghost var now := net;
      for i := 0 to |order|
        invariant ready == Select(order[..i], id => IsReady(now, id))
      {
        var id := order[i];
        SelectNext(order, i, id => IsReady(now, id));
        var fires := Fires(id);
        if fires { ready := ready + [id]; }
      }
      assert order[..|order|] == order;
    }

    method Fires(id: Id) returns (fires: bool)
      requires Valid()
      ensures fires == IsReady(net, id)
    {
      if id !in nodes || nodes[id].state != Pending { return false; }
      var deps := nodes[id].deps;
      for k := 0 to |deps|
        invariant forall j :: 0 <= j < k ==> Done(net, deps[j])
      {
        if deps[k] !in nodes || !Terminal(nodes[deps[k]].state) {
          assert !Done(net, deps[k]);
          return false;
        }
      }
      return true;
    }

    /** agent/dag.go, AllDone. */
    method IsAllDone() returns (done: bool)
      requires Valid()
      ensures done == AllDone(net)
    {
      var todo := nodes.Keys;
      while todo != {}
        invariant todo <= nodes.Keys
        invariant forall id :: id in nodes && id !in todo ==> Terminal(net.nodes[id].state)
        decreases todo
      {
        var id :| id in todo;
        todo := todo - {id};
        if nodes[id].state == Pending || nodes[id].state == Running { return false; }
      }
      return true;
    }

    // ---- Changing many nodes, in whatever order the map is walked ----

    /** The nodes outside `todo` have been changed by f, the others not yet. */
    ghost predicate Partly(was: Net, f: (Id, Info) -> Info, todo: set<Id>)
      reads this, nodes.Values
    {
      && Valid() && todo <= nodes.Keys && was.nodes.Keys == nodes.Keys
      && net == Updated(was, f, was.nodes.Keys - todo)
    }

    lemma NoneYet(f: (Id, Info) -> Info)
      requires Valid()
      ensures Partly(net, f, nodes.Keys) && net.nodes.Keys == nodes.Keys
      ensures Changed(net, f, net.nodes.Keys - nodes.Keys) == {}
    {
      UpdateNone(net, f);
    }

    lemma AllOfThem(was: Net, f: (Id, Info) -> Info)
      requires Partly(was, f, {})
      ensures Valid() && net == Updated(was, f, was.nodes.Keys)
      ensures Changed(was, f, was.nodes.Keys - {}) == Changed(was, f, was.nodes.Keys)
    {
      assert was.nodes.Keys - {} == was.nodes.Keys;
    }

    /** agent/dag.go, GatePending. */
    method GatePending(gate: Id) returns (gated: nat)
      requires Valid()
      modifies this`net, nodes.Values
      ensures Valid() && net == Gated(old(net), gate)
      ensures gated == |Changed(old(net), Gate(gate), old(net).nodes.Keys)|
    {
      ghost var was := net;
      var todo := nodes.Keys;
      gated := 0;
      assert Gated(was, gate) == Updated(was, Gate(gate), was.nodes.Keys);
      hide *;
      NoneYet(Gate(gate));
      while todo != {}
        invariant Partly(was, Gate(gate), todo) && todo <= nodes.Keys
        invariant gated == |Changed(was, Gate(gate), was.nodes.Keys - todo)|
        decreases todo
      {
        var id :| id in todo;
        var changed := GateOne(id, gate, was, todo);
        if changed { gated := gated + 1; }
        todo := todo - {id};
      }
      AllOfThem(was, Gate(gate));
    }

    method GateOne(id: Id, gate: Id, ghost was: Net, ghost todo: set<Id>) returns (changed: bool)
      requires Partly(was, Gate(gate), todo) && id in todo
      modifies this`net, nodes[id]
      ensures Partly(was, Gate(gate), todo - {id})
      ensures |Changed(was, Gate(gate), was.nodes.Keys - (todo - {id}))|
        == |Changed(was, Gate(gate), was.nodes.Keys - todo)| + if changed then 1 else 0
    {
      UpdateOne(was, Gate(gate), todo, id);
      SameInfo(net, id);
      var n := nodes[id];
      changed := n.state == Pending && id != gate && gate !in n.deps;
      if changed { SetNodeDeps(id, n.deps + [gate]); }
    }

    /** agent/dag.go, AlsoWaitFor. */
    method AlsoWaitFor(afterIds: seq<Id>, newIds: seq<Id>) returns (changed: set<Id>)
      requires Valid()
      modifies this`net, nodes.Values
      ensures Valid() && net == AlsoWaited(old(net), IdSet(afterIds), newIds)
      ensures changed == Changed(old(net), AlsoWait(IdSet(afterIds), newIds), old(net).nodes.Keys)
    {
      var after := IdSet(afterIds);
      ghost var was := net;
      var todo := nodes.Keys;
      changed := {};
      assert AlsoWaited(was, after, newIds) == Updated(was, AlsoWait(after, newIds), was.nodes.Keys);
      hide *;
      NoneYet(AlsoWait(after, newIds));
      while todo != {}
        invariant Partly(was, AlsoWait(after, newIds), todo) && todo <= nodes.Keys
        invariant changed == Changed(was, AlsoWait(after, newIds), was.nodes.Keys - todo)
        decreases todo
      {
        var id :| id in todo;
        var added := WaitForNew(id, after, newIds, was, todo);
        changed := changed + if added then {id} else {};
        todo := todo - {id};
      }
      AllOfThem(was, AlsoWait(after, newIds));
    }

    method WaitForNew(id: Id, after: set<Id>, newIds: seq<Id>, ghost was: Net, ghost todo: set<Id>) returns (added: bool)
      requires Partly(was, AlsoWait(after, newIds), todo) && id in todo
      modifies this`net, nodes[id]
      ensures Partly(was, AlsoWait(after, newIds), todo - {id})
      ensures Changed(was, AlsoWait(after, newIds), was.nodes.Keys - (todo - {id}))
        == Changed(was, AlsoWait(after, newIds), was.nodes.Keys - todo) + if added then {id} else {}
    {
      UpdateOne(was, AlsoWait(after, newIds), todo, id);
      SameInfo(net, id);
      var n := nodes[id];
      if n.state != Pending || id in newIds { return false; }
      if forall d | d in n.deps :: d !in after { return false; }
      assert WaitsOnAny(net.nodes[id], after);
      var deps;
      deps, added := AppendMissing(n.deps, newIds);
      SetNodeDeps(id, deps);
    }

    /** agent/dag.go, WaitAlsoOn. */
    method WaitAlsoOn(parent: Id, child: Id, field: string) returns (waited: set<Id>)
      requires Valid()
      modifies this`net, nodes.Values
      ensures Valid() && net == WaitedLate(old(net), parent, child, field)
      ensures waited == Changed(old(net), WaitLate(parent, child, field), old(net).nodes.Keys)
    {
      ghost var was := net;
      var todo := nodes.Keys;
      waited := {};
      assert WaitedLate(was, parent, child, field) == Updated(was, WaitLate(parent, child, field), was.nodes.Keys);
      hide *;
      NoneYet(WaitLate(parent, child, field));
      while todo != {}
        invariant Partly(was, WaitLate(parent, child, field), todo) && todo <= nodes.Keys
        invariant waited == Changed(was, WaitLate(parent, child, field), was.nodes.Keys - todo)
        decreases todo
      {
        var id :| id in todo;
        var added := WaitLateOne(id, parent, child, field, was, todo);
        waited := waited + if added then {id} else {};
        todo := todo - {id};
      }
      AllOfThem(was, WaitLate(parent, child, field));
    }

    method WaitLateOne(id: Id, parent: Id, child: Id, field: string, ghost was: Net, ghost todo: set<Id>)
      returns (added: bool)
      requires Partly(was, WaitLate(parent, child, field), todo) && id in todo
      modifies this`net, nodes[id]
      ensures Partly(was, WaitLate(parent, child, field), todo - {id})
      ensures Changed(was, WaitLate(parent, child, field), was.nodes.Keys - (todo - {id}))
        == Changed(was, WaitLate(parent, child, field), was.nodes.Keys - todo) + if added then {id} else {}
    {
      UpdateOne(was, WaitLate(parent, child, field), todo, id);
      SameInfo(net, id);
      var n := nodes[id];
      if id == child || n.state != Pending || parent !in n.deps { return false; }
      if child in n.deps { return false; }
      added := Reads(n.task.params, parent, field);
      if added { SetNodeDeps(id, n.deps + [child]); }
    }

    /** agent/utils.go, rewriteDependentsMultiExcluding. */
    method RewriteDependents(gone: Id, repl: seq<Id>)
      requires Valid()
      modifies this`net, nodes.Values
      ensures Valid() && net == Redirected(old(net), gone, repl)
    {
      ghost var was := net;
      var todo := nodes.Keys;
      assert Redirected(was, gone, repl) == Updated(was, Redirect(gone, repl), was.nodes.Keys);
      hide *;
      NoneYet(Redirect(gone, repl));
      while todo != {}
        invariant Partly(was, Redirect(gone, repl), todo) && todo <= nodes.Keys
        decreases todo
      {
        var id :| id in todo;
        RedirectOne(id, gone, repl, was, todo);
        todo := todo - {id};
      }
      AllOfThem(was, Redirect(gone, repl));
    }

    method RedirectOne(id: Id, gone: Id, repl: seq<Id>, ghost was: Net, ghost todo: set<Id>)
      requires Partly(was, Redirect(gone, repl), todo) && id in todo
      modifies this`net, nodes[id]
      ensures Partly(was, Redirect(gone, repl), todo - {id})
    {
      UpdateOne(was, Redirect(gone, repl), todo, id);
      SameInfo(net, id);
      if nodes[id].state != Pending || id in repl { return; }
      var newDeps := ReplaceFirst(nodes[id].deps, gone, repl);
      SetNodeDeps(id, newDeps);
    }

    /** agent/dag.go, SkipAllPending. */
    method SkipAllPending() returns (count: nat)
      requires Valid()
      modifies this`net, nodes.Values
      ensures Valid() && net == Updated(old(net), Skip, PendingIds(old(net), old(net).nodes.Keys))
      ensures count == |PendingIds(old(net), old(net).nodes.Keys)|
    {
      ghost var was := net;
      var todo := nodes.Keys;
      count := 0;
      assert nodes.Keys == was.nodes.Keys;
      PendingNone(was);
      hide *;
      while todo != {}
        invariant todo <= nodes.Keys && was.nodes.Keys == nodes.Keys
        invariant Valid() && net == Updated(was, Skip, PendingIds(was, was.nodes.Keys - todo))
        invariant count == |PendingIds(was, was.nodes.Keys - todo)|
        decreases todo
      {
        var id :| id in todo;
        PendingOne(was, todo, id);
        var skipped := SkipIfPending(id);
        if skipped { count := count + 1; }
        todo := todo - {id};
      }
      assert was.nodes.Keys - todo == was.nodes.Keys;
    }

    method SkipIfPending(id: Id) returns (skipped: bool)
      requires Valid() && id in nodes
      modifies this`net, nodes[id]
      ensures Valid() && skipped == IsPending(old(net), id)
      ensures net == if skipped then WithInfo(old(net), id, old(net).nodes[id].(state := Skipped)) else old(net)
    {
      skipped := nodes[id].state == Pending;
      if skipped { SetNodeState(id, Skipped); }
    }

    // ---- Pruning ----

    /** agent/dag.go, PruneBranch: breadth first from the root, through whatever order the map is walked in. */
    method PruneBranch(root: Id) returns (tags: seq<string>, ghost skipped: seq<Id>)
      requires Valid()
      modifies this`net, nodes.Values
      ensures Valid() && net == Pruned(old(net), root)
      ensures IdSet(skipped) == Doomed(old(net), root) && |skipped| == |Doomed(old(net), root)|
      ensures tags == TagsOf(old(net), skipped)
    {
      ghost var was := net;
      ghost var p := Progress({}, {}, []);
      assert Updated(was, Skip, {}).nodes == was.nodes;
      tags, p := PruneLoop(was, root, p);
      PruneComplete(was, root, p);
      skipped := p.skipped;
    }

    method PruneLoop(ghost was: Net, root: Id, ghost p0: Progress) returns (tags: seq<string>, ghost p: Progress)
      requires PruneAt(was, root, p0, [root], [])
      requires p0.s <= was.nodes.Keys
      modifies this`net, nodes.Values
      ensures PruneAt(was, root, p, [], tags)
    {
      hide PruneAt;
      var queue := [root];
      tags, p := [], p0;
      while queue != []
        invariant PruneAt(was, root, p, queue, tags) && p.s <= was.nodes.Keys
        decreases |was.nodes.Keys - p.s|, |queue|
      {
        tags, queue, p := PruneFrom(was, root, tags, queue, p);
      }
    }

    ghost predicate PruneAt(was: Net, root: Id, p: Progress, queue: seq<Id>, tags: seq<string>)
      reads this, nodes.Values
    {
      && Valid() && was.nodes.Keys == nodes.Keys
      && Pruning(was, root, p, queue)
      && net == Updated(was, Skip, p.s) && tags == TagsOf(was, p.skipped)
    }

    /** One turn of the queue: every pending node that waits for its head is skipped and queued. */
    method PruneFrom(ghost was: Net, ghost root: Id, tags0: seq<string>, queue0: seq<Id>, ghost p0: Progress)
      returns (tags: seq<string>, queue: seq<Id>, ghost p: Progress)
      requires queue0 != [] && PruneAt(was, root, p0, queue0, tags0) && p0.s <= was.nodes.Keys
      modifies this`net, nodes.Values
      ensures PruneAt(was, root, p, queue, tags) && p.s <= was.nodes.Keys
      ensures |was.nodes.Keys - p.s| < |was.nodes.Keys - p0.s| || (p.s == p0.s && |queue| < |queue0|)
    {
      TurnStarts(was, root, p0, queue0);
      tags, queue, p := TurnLoop(was, root, queue0[0], tags0, queue0[1..], p0);
      TurnEnds(was, root, queue0[0], p, queue);
      p := p.(done := p.done + {queue0[0]});
      if p.s != p0.s { SmallerRest(was.nodes.Keys, p0.s, p.s); }
    }

    method TurnLoop(ghost was: Net, ghost root: Id, current: Id, tags0: seq<string>, queue0: seq<Id>, ghost p0: Progress)
      returns (tags: seq<string>, queue: seq<Id>, ghost p: Progress)
      requires TurnAt(was, root, current, p0, queue0, tags0, nodes.Keys) && p0.s <= was.nodes.Keys == nodes.Keys
      modifies this`net, nodes.Values
      ensures TurnAt(was, root, current, p, queue, tags, {})
      ensures p0.s <= p.s <= was.nodes.Keys && (p.s == p0.s ==> queue == queue0)
    {
      hide TurnAt;
      tags, queue, p := tags0, queue0, p0;
      var todo := nodes.Keys;
      while todo != {}
        invariant TurnAt(was, root, current, p, queue, tags, todo) && todo <= nodes.Keys == was.nodes.Keys
        invariant p0.s <= p.s <= was.nodes.Keys && (p.s == p0.s ==> queue == queue0)
        decreases todo
      {
        var id :| id in todo;
        tags, queue, p := TurnOne(was, root, current, tags, queue, p, todo, id);
        todo := todo - {id};
      }
    }

    ghost predicate TurnAt(was: Net, root: Id, current: Id, p: Progress, queue: seq<Id>, tags: seq<string>, todo: set<Id>)
      reads this, nodes.Values
    {
      && Valid() && todo <= nodes.Keys && was.nodes.Keys == nodes.Keys
      && Turning(was, root, current, p, queue, todo)
      && net == Updated(was, Skip, p.s) && tags == TagsOf(was, p.skipped)
    }

    method TurnOne(ghost was: Net, ghost root: Id, current: Id, tags0: seq<string>, queue0: seq<Id>, ghost p0: Progress,
                   ghost todo: set<Id>, id: Id)
      returns (tags: seq<string>, queue: seq<Id>, ghost p: Progress)
      requires TurnAt(was, root, current, p0, queue0, tags0, todo) && id in todo
      modifies this`net, nodes[id]
      ensures TurnAt(was, root, current, p, queue, tags, todo - {id})
      ensures (p == p0 && queue == queue0) || (p.s == p0.s + {id} && id !in p0.s)
    {
      hide Turning, Doomed, TagsOf, Updated;
      tags, queue, p := tags0, queue0, p0;
      var n := nodes[id];
      if n.state == Pending && current in n.deps {
        TurnSkip(was, root, current, p0, queue0, todo, id);
        SkipMore(was, p0.s, id);
        TagsNext(was, p0.s, p0.skipped, id);
        SetNodeState(id, Skipped);
        tags, queue := tags + [n.task.tag], queue + [id];
        p := Progress(p.s + {id}, p.done, p.skipped + [id]);
      } else {
        TurnPass(was, root, current, p0, queue0, todo, id);
      }
    }

    // ---- Superseding failures ----

    /** agent/dag.go, SupersedeFailuresIfDebugSucceeded. */
    method SupersedeFailures() returns (marked: nat, newlyFixed: seq<Id>)
      requires Valid()
      modifies this`net, nodes.Values
      ensures Valid() && net == Superseded(old(net))
      ensures marked == |FixedFailures(old(net))|
      ensures forall d :: d in newlyFixed ==> FixLanded(old(net), d)
      ensures forall i :: 0 <= i < |newlyFixed| ==> FixesAnother(old(net), newlyFixed, i, FixedFailures(old(net)))
      ensures forall f :: f in FixedFailures(old(net)) ==> AnnouncedBy(old(net), newlyFixed, f)
    {
      ghost var was := net;
      ghost var m;
      assert Updated(was, MarkFixed, {}).nodes == was.nodes;
      marked, newlyFixed, m := MarkLoop(was);
      MarksComplete(was, m, newlyFixed);
    }

    ghost predicate MarkAt(was: Net, m: set<Id>, marked: nat, fixed: seq<Id>, todo: set<Id>)
      reads this, nodes.Values
    {
      && MarkedTo(was, m, marked) && todo <= nodes.Keys
      && Marking(was, m, fixed, todo)
    }

    method MarkLoop(ghost was: Net) returns (marked: nat, newlyFixed: seq<Id>, ghost m: set<Id>)
      requires MarkAt(was, {}, 0, [], nodes.Keys)
      modifies this`net, nodes.Values
      ensures MarkAt(was, m, marked, newlyFixed, {})
    {
      hide MarkAt;
      marked, newlyFixed, m := 0, [], {};
      var todo := nodes.Keys;
      while todo != {}
        invariant MarkAt(was, m, marked, newlyFixed, todo) && todo <= nodes.Keys
        decreases todo
      {
        var dbg :| dbg in todo;
        marked, newlyFixed, m := MarkFor(was, dbg, m, marked, newlyFixed, todo);
        todo := todo - {dbg};
      }
    }

    method MarkFor(ghost was: Net, dbg: Id, ghost m0: set<Id>, marked0: nat, fixed0: seq<Id>, ghost todo: set<Id>)
      returns (marked: nat, newlyFixed: seq<Id>, ghost m: set<Id>)
      requires MarkAt(was, m0, marked0, fixed0, todo) && dbg in todo
      modifies this`net, nodes.Values
      ensures MarkAt(was, m, marked, newlyFixed, todo - {dbg})
    {
      hide Marking, OpenAddresses, FixLanded, Updated, NetOk;
      marked, newlyFixed, m := marked0, fixed0, m0;
      var landed := Landed(dbg);
      MarksDontMatter(was, m0, dbg);
      if landed {
        marked, m := MarkAddresses(was, dbg, m0, marked0);
        if marked > marked0 { newlyFixed := fixed0 + [dbg]; }
        AfterMarks(was, dbg, m0, marked0, m, marked, fixed0, todo);
      } else {
        MarkingPassed(was, dbg, m0, fixed0, todo);
      }
    }

    /** The scan over a debugger's children. */
    method Landed(dbg: Id) returns (landed: bool)
      requires Valid() && dbg in nodes
      ensures landed == FixLanded(net, dbg)
    {
      if nodes[dbg].task.kind != MicroPlanner { return false; }
      if nodes[dbg].task.addresses == [] || nodes[dbg].children == [] { return false; }
      var children := nodes[dbg].children;
      assert children == net.nodes[dbg].children;
      var anyFailed, sawRealFix := false, false;
      for k := 0 to |children|
        invariant forall c :: c in children[..k] && c in net.nodes ==> Terminal(net.nodes[c].state)
        invariant anyFailed <==> exists c :: c in children[..k] && FailedFix(net, c)
        invariant sawRealFix <==> exists c :: c in children[..k] && RealFix(net, c)
      {
        var c := children[k];
        forall x ensures x in children[..k + 1] <==> x in children[..k] || x == c {}
        if c !in nodes { continue; }
        assert nodes[c].View() == net.nodes[c];
        if !Terminal(nodes[c].state) { return false; }
        if Validator(nodes[c].task) { continue; }
        assert RealFix(net, c);
        sawRealFix := true;
        if nodes[c].state == Failed {
          assert FailedFix(net, c);
          anyFailed := true;
        }
      }
      assert children[..|children|] == children;
      landed := !anyFailed && sawRealFix;
    }

    ghost predicate MarkedTo(was: Net, m: set<Id>, marked: nat)
      reads this, nodes.Values
    {
      && Valid() && was.nodes.Keys == nodes.Keys
      && net == Updated(was, MarkFixed, m) && marked == |m|
    }

    method MarkAddresses(ghost was: Net, dbg: Id, ghost m0: set<Id>, marked0: nat)
      returns (marked: nat, ghost m: set<Id>)
      requires MarkedTo(was, m0, marked0) && dbg in nodes
      modifies this`net, nodes.Values
      ensures MarkedTo(was, m, marked)
      ensures m == m0 + OpenAddresses(was, was.nodes[dbg].task.addresses)
    {
      marked, m := marked0, m0;
      var addresses := nodes[dbg].task.addresses;
      assert addresses == was.nodes[dbg].task.addresses && addresses[..|addresses|] == addresses;
      hide MarkedTo, OpenAddresses, IsOpenFailure;
      NoAddress(was, m0, addresses);
      for k := 0 to |addresses|
        invariant MarkedTo(was, m, marked)
        invariant m == m0 + OpenAddresses(was, addresses[..k])
      {
        NextAddress(was, m0, addresses, k);
        marked, m := MarkOne(was, addresses[k], m, marked);
      }
    }

    method MarkOne(ghost was: Net, f: Id, ghost m1: set<Id>, marked1: nat) returns (marked: nat, ghost m: set<Id>)
      requires MarkedTo(was, m1, marked1)
      modifies this`net, nodes.Values
      ensures MarkedTo(was, m, marked) && m == m1 + if IsOpenFailure(was, f) then {f} else {}
    {
      OpenNow(was, m1, f);
      marked, m := marked1, m1;
      if f in nodes && nodes[f].state == Failed && !nodes[f].superseded {
        assert nodes[f].View() == net.nodes[f];
        MarkMore(was, m1, f);
        MarkSuperseded(f);
        marked, m := marked1 + 1, m1 + {f};
      } else {
        assert f in nodes ==> nodes[f].View() == net.nodes[f];
      }
    }

    // ---- Finding a finished step by name ----

    method Consider(name: string, id: Id, any0: Pick, resolved0: Pick) returns (any: Pick, resolved: Pick)
      requires Valid() && (any0.Pick? ==> any0.id in nodes) && (resolved0.Pick? ==> resolved0.id in nodes)
      ensures any == Newer(net, any0, id, Named(net, name, id))
      ensures resolved == Newer(net, resolved0, id, NamedResolved(net, name, id))
    {
      any, resolved := any0, resolved0;
      if id !in nodes || nodes[id].task.tag != name { return; }
      assert nodes[id].View() == net.nodes[id];
      if nodes[id].task.kind != Tool && nodes[id].task.kind != Compute { return; }
      if any0 == NoPick || nodes[id].round >= nodes[any0.id].round { any := Pick(id); }
      if nodes[id].state == Resolved && (resolved0 == NoPick || nodes[id].round >= nodes[resolved0.id].round) {
        resolved := Pick(id);
      }
    }

    /** agent/dag.go, FinishedStep. */
    method FinishedStep(name: string) returns (found: Pick, foundRound: nat)
      requires Valid()
      ensures found == Finished(net, name)
      ensures found.Pick? ==> found.id in net.nodes && foundRound == net.nodes[found.id].round
    {
      if name == "" { return NoPick, 0; }
      ghost var now := net;
      var bestResolved, bestAny := NoPick, NoPick;
      for k := 0 to |order|
        invariant bestAny == Newest(now, order[..k], ByName(now, name))
        invariant bestResolved == Newest(now, order[..k], ByNameResolved(now, name))
      {
        NewestNext(now, order, k, ByName(now, name));
        NewestNext(now, order, k, ByNameResolved(now, name));
        bestAny, bestResolved := Consider(name, order[k], bestAny, bestResolved);
      }
      assert order[..|order|] == order;
      found := if bestResolved.Pick? then bestResolved else bestAny;
      foundRound := if found.Pick? then nodes[found.id].round else 0;
    }
  }

  lemma SmallerRest(all: set<Id>, before: set<Id>, s: set<Id>)
    requires before <= s <= all && s != before
    ensures |all - s| < |all - before|
  {
    var x :| x in s && x !in before;
    assert all - s <= all - before - {x};
    Digraph.SubsetSize(all - s, all - before - {x});
  }

  lemma SkipMore(was: Net, s: set<Id>, id: Id)
    requires id in was.nodes && id !in s
    ensures Updated(was, Skip, s + {id}) == WithInfo(Updated(was, Skip, s), id, Updated(was, Skip, s).nodes[id].(state := Skipped))
  {
    assert Updated(was, Skip, s + {id}).nodes
      == Updated(was, Skip, s).nodes[id := Updated(was, Skip, s).nodes[id].(state := Skipped)];
  }

  /** What is missing with one more id looked at. */
  lemma {:induction false} MissingNext(deps: seq<Id>, newIds: seq<Id>, k: nat)
    requires k < |newIds|
    ensures var before := Missing(deps, newIds[..k]);
      Missing(deps, newIds[..k + 1]) == before + if newIds[k] in deps + before then [] else [newIds[k]]
    decreases k
  {
    hide *;
    if k == 0 {
      MissingFirst(deps, newIds[..1]);
      MissingNone(deps, newIds[..1][1..]);
      MissingNone(deps + [newIds[0]], newIds[..1][1..]);
      MissingNone(deps, newIds[..0]);
    } else {
      MissingFirst(deps, newIds[..k]);
      MissingFirst(deps, newIds[..k + 1]);
      assert newIds[..k][1..] == newIds[1..][..k - 1] && newIds[..k + 1][1..] == newIds[1..][..k];
      if newIds[0] in deps {
        MissingNext(deps, newIds[1..], k - 1);
      } else {
        MissingNext(deps + [newIds[0]], newIds[1..], k - 1);
        MissingBehind(deps, newIds[0], Missing(deps + [newIds[0]], newIds[1..][..k - 1]), newIds[k]);
      }
    }
  }

  lemma MissingNone(deps: seq<Id>, none: seq<Id>)
    requires none == []
    ensures Missing(deps, none) == []
  {}

  lemma MissingFirst(deps: seq<Id>, newIds: seq<Id>)
    requires newIds != []
    ensures Missing(deps, newIds)
      == if newIds[0] in deps then Missing(deps, newIds[1..]) else [newIds[0]] + Missing(deps + [newIds[0]], newIds[1..])
  {}

  lemma MissingBehind(deps: seq<Id>, first: Id, rest: seq<Id>, last: Id)
    ensures last in deps + ([first] + rest) <==> last in deps + [first] + rest
    ensures [first] + (rest + [last]) == ([first] + rest) + [last] && [first] + (rest + []) == ([first] + rest) + []
  {}

  method AppendMissing(deps0: seq<Id>, newIds: seq<Id>) returns (deps: seq<Id>, added: bool)
    ensures deps == deps0 + Missing(deps0, newIds) && added == (deps != deps0)
  {
    deps, added := deps0, false;
    for k := 0 to |newIds|
      invariant deps == deps0 + Missing(deps0, newIds[..k]) && added == (deps != deps0)
    {
      MissingNext(deps0, newIds, k);
      if newIds[k] !in deps {
        deps := deps + [newIds[k]];
        added := true;
      }
    }
    assert newIds[..|newIds|] == newIds;
  }

  lemma {:induction false} FirstMention(deps: seq<Id>, gone: Id, repl: seq<Id>, i: nat)
    requires i <= |deps| && gone !in deps[..i]
    ensures i < |deps| && deps[i] == gone ==> Replaced(deps, gone, repl) == deps[..i] + repl + deps[i + 1..]
    ensures i == |deps| ==> Replaced(deps, gone, repl) == deps
  {
    if i > 0 {
      var rest := deps[1..];
      assert deps == [deps[0]] + rest && deps[..i] == [deps[0]] + rest[..i - 1];
      FirstMention(rest, gone, repl, i - 1);
      if i < |deps| && deps[i] == gone {
        assert rest[i..] == deps[i + 1..];
        assert [deps[0]] + (rest[..i - 1] + repl + rest[i..]) == deps[..i] + repl + deps[i + 1..];
      }
    } else if deps != [] && deps[0] == gone {
      assert deps[..0] + repl + deps[1..] == repl + deps[1..];
    }
  }

  method ReplaceFirst(deps: seq<Id>, gone: Id, repl: seq<Id>) returns (r: seq<Id>)
    ensures r == Replaced(deps, gone, repl)
  {
    hide Replaced;
    for i := 0 to |deps|
      invariant gone !in deps[..i]
    {
      FirstMention(deps, gone, repl, i);
      if deps[i] == gone {
        return deps[..i] + repl + deps[i + 1..];
      }
      assert deps[..i + 1] == deps[..i] + [deps[i]];
    }
    FirstMention(deps, gone, repl, |deps|);
    r := deps;
  }

  // ---- The state of a prune ----

  /** s: skipped so far; done: taken from the queue; skipped: s in the order it grew. */
  datatype Progress = Progress(s: set<Id>, done: set<Id>, skipped: seq<Id>)

  ghost predicate Pruning(was: Net, root: Id, p: Progress, queue: seq<Id>) {
    && p.s <= Doomed(was, root)
    && (forall id :: id in queue ==> id == root || id in p.s)
    && (forall id :: (id == root || id in p.s) && id !in queue ==> id in p.done)
    && (forall id, d :: (id, d) in PendingWaits(was) && d in p.done ==> id in p.s)
    && IdSet(p.skipped) == p.s && |p.skipped| == |p.s|
  }

  /** In the middle of a turn: nodes outside `todo` have been looked at. */
  ghost predicate Turning(was: Net, root: Id, current: Id, p: Progress, queue: seq<Id>, todo: set<Id>) {
    && (current == root || current in p.s) && p.s <= Doomed(was, root)
    && (forall id :: id in queue ==> id == root || id in p.s)
    && (forall id :: (id == root || id in p.s) && id !in queue ==> id in p.done || id == current)
    && (forall id, d :: (id, d) in PendingWaits(was) && (d in p.done || (d == current && id !in todo)) ==> id in p.s)
    && IdSet(p.skipped) == p.s && |p.skipped| == |p.s|
  }

  lemma TurnStarts(was: Net, root: Id, p: Progress, queue: seq<Id>)
    requires queue != [] && Pruning(was, root, p, queue)
    ensures Turning(was, root, queue[0], p, queue[1..], was.nodes.Keys)
  {
    forall id | id in queue ensures id == queue[0] || id in queue[1..] {}
    forall id | id in queue[1..] ensures id in queue {}
  }

  lemma TurnSkip(was: Net, root: Id, current: Id, p: Progress, queue: seq<Id>, todo: set<Id>, id: Id)
    requires Turning(was, root, current, p, queue, todo) && id in todo && id in was.nodes
    requires IsPending(Updated(was, Skip, p.s), id) && current in Updated(was, Skip, p.s).nodes[id].deps
    ensures id !in p.s
    ensures Turning(was, root, current, Progress(p.s + {id}, p.done, p.skipped + [id]), queue + [id], todo - {id})
  {
    assert (id, current) in PendingWaits(was);
    DoomedClosed(was, root);
    assert IdSet(p.skipped + [id]) == p.s + {id};
  }

  lemma TurnPass(was: Net, root: Id, current: Id, p: Progress, queue: seq<Id>, todo: set<Id>, id: Id)
    requires Turning(was, root, current, p, queue, todo) && id in todo && id in was.nodes
    requires !(IsPending(Updated(was, Skip, p.s), id) && current in Updated(was, Skip, p.s).nodes[id].deps)
    ensures Turning(was, root, current, p, queue, todo - {id})
  {}

  lemma TurnEnds(was: Net, root: Id, current: Id, p: Progress, queue: seq<Id>)
    requires Turning(was, root, current, p, queue, {})
    ensures Pruning(was, root, p.(done := p.done + {current}), queue)
  {}

  lemma PruneComplete(was: Net, root: Id, p: Progress)
    requires Pruning(was, root, p, [])
    ensures p.s == Doomed(was, root)
  {
    DoomedLeast(was, root, p.s);
  }

  // ---- The state of superseding ----

  /** m: marked so far; fixed: the debuggers that marked something; outside todo every debugger was looked at. */
  ghost predicate Marking(was: Net, m: set<Id>, fixed: seq<Id>, todo: set<Id>) {
    m <= FixedFailures(was) && LookedAt(was, m, todo) && Announced(was, m, fixed)
  }

  ghost predicate LookedAt(was: Net, m: set<Id>, todo: set<Id>) {
    forall d :: d in was.nodes && d !in todo && FixLanded(was, d) ==> OpenAddresses(was, was.nodes[d].task.addresses) <= m
  }

  ghost predicate Announced(was: Net, m: set<Id>, fixed: seq<Id>) {
    && (forall d :: d in fixed ==> d in was.nodes && FixLanded(was, d) && OpenAddresses(was, was.nodes[d].task.addresses) <= m)
    && (forall i :: 0 <= i < |fixed| ==> FixesAnother(was, fixed, i, m))
    && (forall f :: f in m ==> AnnouncedBy(was, fixed, f))
  }

  lemma MarkingDone(was: Net, dbg: Id, m0: set<Id>, m: set<Id>, fixed: seq<Id>, todo: set<Id>)
    requires Marking(was, m0, fixed, todo) && dbg in was.nodes && FixLanded(was, dbg)
    requires m == m0 + OpenAddresses(was, was.nodes[dbg].task.addresses)
    ensures Marking(was, m, if m != m0 then fixed + [dbg] else fixed, todo - {dbg})
  {
    OnlyFixed(was, dbg, m0, m);
    MoreLookedAt(was, dbg, m0, m, todo);
    if m != m0 { DebuggerFixes(was, dbg, m0, m, fixed); }
  }

  lemma AfterMarks(was: Net, dbg: Id, m0: set<Id>, marked0: nat, m: set<Id>, marked: nat, fixed: seq<Id>, todo: set<Id>)
    requires Marking(was, m0, fixed, todo) && dbg in was.nodes && FixLanded(was, dbg)
    requires m == m0 + OpenAddresses(was, was.nodes[dbg].task.addresses) && marked0 == |m0| && marked == |m|
    ensures Marking(was, m, if marked > marked0 then fixed + [dbg] else fixed, todo - {dbg})
  {
    GrowthCounts(m0, m);
    MarkingDone(was, dbg, m0, m, fixed, todo);
  }

  lemma MarkingPassed(was: Net, dbg: Id, m: set<Id>, fixed: seq<Id>, todo: set<Id>)
    requires Marking(was, m, fixed, todo) && !FixLanded(was, dbg)
    ensures Marking(was, m, fixed, todo - {dbg})
  {
    hide FixLanded, OpenAddresses, Announced;
  }

  lemma OnlyFixed(was: Net, dbg: Id, m0: set<Id>, m: set<Id>)
    requires m0 <= FixedFailures(was) && dbg in was.nodes && FixLanded(was, dbg)
    requires m == m0 + OpenAddresses(was, was.nodes[dbg].task.addresses)
    ensures m <= FixedFailures(was)
  {}

  lemma MoreLookedAt(was: Net, dbg: Id, m0: set<Id>, m: set<Id>, todo: set<Id>)
    requires LookedAt(was, m0, todo) && dbg in was.nodes
    requires m == m0 + OpenAddresses(was, was.nodes[dbg].task.addresses)
    ensures LookedAt(was, m, todo - {dbg})
  {
    hide FixLanded, OpenAddresses;
  }

  lemma DebuggerFixes(was: Net, dbg: Id, m0: set<Id>, m: set<Id>, fixed: seq<Id>)
    requires dbg in was.nodes && FixLanded(was, dbg) && Announced(was, m0, fixed)
    requires m0 < m == m0 + OpenAddresses(was, was.nodes[dbg].task.addresses)
    ensures Announced(was, m, fixed + [dbg])
  {
    hide FixLanded, FixesAnother, AnnouncedBy, OpenAddresses;
    forall f | f in m ensures AnnouncedBy(was, fixed + [dbg], f) {
      AnnounceMore(was, dbg, fixed, f, f in m0);
    }
    forall i | 0 <= i < |fixed + [dbg]| ensures FixesAnother(was, fixed + [dbg], i, m) {
      if i < |fixed| { FixesMore(was, fixed, dbg, i, m0, m); } else { FixesNew(was, fixed, dbg, m0, m); }
    }
  }

  lemma AnnounceMore(was: Net, dbg: Id, fixed: seq<Id>, f: Id, before: bool)
    requires before ==> AnnouncedBy(was, fixed, f)
    requires !before ==> dbg in was.nodes && f in OpenAddresses(was, was.nodes[dbg].task.addresses)
    ensures AnnouncedBy(was, fixed + [dbg], f)
  {
    if before {
      var d :| d in fixed && Addresses(was, d, f);
      assert d in fixed + [dbg];
    } else {
      assert dbg in fixed + [dbg] && Addresses(was, dbg, f);
    }
  }

  lemma FixesMore(was: Net, fixed: seq<Id>, dbg: Id, i: nat, m0: set<Id>, m: set<Id>)
    requires i < |fixed| && FixesAnother(was, fixed, i, m0) && m0 <= m
    ensures FixesAnother(was, fixed + [dbg], i, m)
  {
    var f :| f in m0 && Addresses(was, fixed[i], f) && !AnnouncedBy(was, fixed[..i], f);
    assert (fixed + [dbg])[..i] == fixed[..i] && f in m;
  }

  lemma FixesNew(was: Net, fixed: seq<Id>, dbg: Id, m0: set<Id>, m: set<Id>)
    requires dbg in was.nodes && m0 < m == m0 + OpenAddresses(was, was.nodes[dbg].task.addresses)
    requires forall d :: d in fixed ==> d in was.nodes && OpenAddresses(was, was.nodes[d].task.addresses) <= m0
    ensures FixesAnother(was, fixed + [dbg], |fixed|, m)
  {
    var f :| f in m && f !in m0;
    assert Addresses(was, dbg, f) && IsOpenFailure(was, f);
    assert (fixed + [dbg])[..|fixed|] == fixed && (fixed + [dbg])[|fixed|] == dbg;
  }

  lemma MarksComplete(was: Net, m: set<Id>, fixed: seq<Id>)
    requires Marking(was, m, fixed, {})
    ensures m == FixedFailures(was)
  {
    forall f | f in FixedFailures(was) ensures f in m {
      var d :| d in was.nodes && FixLanded(was, d) && f in was.nodes[d].task.addresses;
      assert f in OpenAddresses(was, was.nodes[d].task.addresses);
    }
  }

  lemma NoAddress(was: Net, m0: set<Id>, addresses: seq<Id>)
    ensures m0 == m0 + OpenAddresses(was, addresses[..0])
  {}

  lemma NextAddress(was: Net, m0: set<Id>, addresses: seq<Id>, k: nat)
    requires k < |addresses|
    ensures m0 + OpenAddresses(was, addresses[..k + 1])
      == m0 + OpenAddresses(was, addresses[..k]) + if IsOpenFailure(was, addresses[k]) then {addresses[k]} else {}
  {
    assert addresses[..k + 1] == addresses[..k] + [addresses[k]];
  }

  lemma GrowthCounts(m0: set<Id>, m: set<Id>)
    requires m0 <= m
    ensures |m| > |m0| <==> m != m0
  {
    if m != m0 {
      var x :| x in m && x !in m0;
      Digraph.SubsetSize(m0, m - {x});
    }
  }

  lemma MarkMore(was: Net, m: set<Id>, f: Id)
    requires f in was.nodes
    ensures Updated(was, MarkFixed, m + {f})
      == WithInfo(Updated(was, MarkFixed, m), f, Updated(was, MarkFixed, m).nodes[f].(superseded := true))
  {
    assert Updated(was, MarkFixed, m + {f}).nodes
      == Updated(was, MarkFixed, m).nodes[f := Updated(was, MarkFixed, m).nodes[f].(superseded := true)];
  }
}
