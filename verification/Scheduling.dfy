/** Running the graph: a driver that only fires ready nodes never deadlocks and always finishes. */
module Scheduling {
  import opened Digraph
  import opened Nets

  /** Every dependency names a node of the graph. */
  ghost predicate ClosedNet(net: Net) {
    forall id, d :: id in net.nodes && d in net.nodes[id].deps ==> d in net.nodes
  }

  ghost function InState(net: Net, s: NodeState): set<Id> {
    set id | id in net.nodes && net.nodes[id].state == s
  }

  /** A graph whose dependencies exist and are acyclic is never stuck: with something pending and nothing
      running, some node is ready. */
  lemma NoDeadlock(net: Net)
    requires NetOk(net) && ClosedNet(net) && Acyclic(Waits(net))
    requires InState(net, Pending) != {} && InState(net, Running) == {}
    ensures ReadyIds(net) != []
  {
    var x := Sink(Waits(net), InState(net, Pending));
    forall d | d in net.nodes[x].deps ensures Done(net, d) {
      assert (x, d) in Waits(net);
      assert d !in InState(net, Pending) && d !in InState(net, Running);
    }
    assert IsReady(net, x) && x in net.order;
    assert x in ReadyIds(net);
  }

  /** Both hypotheses are needed: a node that waits for itself, or for a node that does not exist, is never
      ready, whatever else finishes. */
  lemma NeverReady(net: Net, id: Id)
    requires id in net.nodes && net.nodes[id].state == Pending
    requires id in net.nodes[id].deps || exists d :: d in net.nodes[id].deps && d !in net.nodes
    ensures id !in ReadyIds(net)
  {
    assert !Done(net, id);
    if d :| d in net.nodes[id].deps && d !in net.nodes { assert !Done(net, d); }
  }

  // ---- A driver that fires ready nodes and waits for them ----

  datatype Move = Fire(id: Id) | Finish(id: Id, how: NodeState)

  ghost predicate Drives(net: Net, m: Move, net': Net) {
    match m
    case Fire(id) => id in ReadyIds(net) && net' == WithState(net, id, Running)
    case Finish(id, how) => id in InState(net, Running) && Terminal(how) && net' == WithState(net, id, how)
  }

  ghost predicate DriverRun(nets: seq<Net>, moves: seq<Move>) {
    && |nets| == |moves| + 1
    && forall i :: 0 <= i < |moves| ==> Drives(nets[i], moves[i], nets[i + 1])
  }

  /** Moves still to be made: two for every pending node, one for every running one. */
  ghost function Work(net: Net): nat {
    2 * |InState(net, Pending)| + |InState(net, Running)|
  }

  lemma FireSets(net: Net, id: Id)
    requires IsPending(net, id)
    ensures InState(WithState(net, id, Running), Pending) == InState(net, Pending) - {id}
    ensures InState(WithState(net, id, Running), Running) == InState(net, Running) + {id}
  {}

  lemma FinishSets(net: Net, id: Id, how: NodeState)
    requires id in InState(net, Running) && Terminal(how)
    ensures InState(WithState(net, id, how), Pending) == InState(net, Pending)
    ensures InState(WithState(net, id, how), Running) == InState(net, Running) - {id}
  {}

  lemma MoveShrinksWork(net: Net, m: Move, net': Net)
    requires Drives(net, m, net')
    ensures Work(net') == Work(net) - 1
  {
    match m
    case Fire(id) => FireSets(net, id);
    case Finish(id, how) => FinishSets(net, id, how);
  }

  lemma MoveKeepsShape(net: Net, m: Move, net': Net)
    requires Drives(net, m, net') && NetOk(net)
    ensures NetOk(net') && Waits(net') == Waits(net) && net'.nodes.Keys == net.nodes.Keys
    ensures ClosedNet(net) ==> ClosedNet(net')
  {
    assert net'.nodes.Keys == net.nodes.Keys;
    assert forall id :: id in net.nodes ==> net'.nodes[id].deps == net.nodes[id].deps;
  }

  lemma {:induction false} RunKeepsShape(nets: seq<Net>, moves: seq<Move>, i: nat)
    requires DriverRun(nets, moves) && NetOk(nets[0]) && i < |nets|
    ensures NetOk(nets[i]) && Waits(nets[i]) == Waits(nets[0]) && nets[i].nodes.Keys == nets[0].nodes.Keys
    ensures ClosedNet(nets[0]) ==> ClosedNet(nets[i])
    ensures Work(nets[i]) + i == Work(nets[0])
  {
    if i > 0 {
      RunKeepsShape(nets, moves, i - 1);
      hide NetOk, Waits, ClosedNet, Work, Drives;
      MoveKeepsShape(nets[i - 1], moves[i - 1], nets[i]);
      MoveShrinksWork(nets[i - 1], moves[i - 1], nets[i]);
    }
  }

  lemma WorkBound(net: Net)
    ensures Work(net) <= 2 * |net.nodes|
    ensures Work(net) == 0 <==> AllDone(net)
  {
    var p, r := InState(net, Pending), InState(net, Running);
    assert |p + r| == |p| + |r| && p + r <= net.nodes.Keys;
    SubsetSize(p + r, net.nodes.Keys);
    if Work(net) == 0 {
      forall id | id in net.nodes ensures Terminal(net.nodes[id].state) {
        assert id !in p && id !in r;
      }
    }
    if AllDone(net) { assert p == {} && r == {}; }
  }

  lemma SomeMove(net: Net)
    requires NetOk(net) && ClosedNet(net) && Acyclic(Waits(net)) && !AllDone(net)
    ensures exists m, net' :: Drives(net, m, net')
  {
    if id :| id in InState(net, Running) {
      assert Drives(net, Finish(id, Resolved), WithState(net, id, Resolved));
    } else {
      var id :| id in net.nodes && !Terminal(net.nodes[id].state);
      assert id !in InState(net, Running) && id in InState(net, Pending);
      assert InState(net, Running) == {};
      NoDeadlock(net);
      var x := ReadyIds(net)[0];
      assert Drives(net, Fire(x), WithState(net, x, Running));
    }
  }

  /** Every run of the driver is bounded by two moves a node; and one that can go no further is complete: every
      node is terminal, and exactly the work there was has been done. */
  lemma DriverFinishes(nets: seq<Net>, moves: seq<Move>)
    requires DriverRun(nets, moves) && NetOk(nets[0]) && ClosedNet(nets[0]) && Acyclic(Waits(nets[0]))
    ensures |moves| <= Work(nets[0]) <= 2 * |nets[0].nodes|
    ensures (forall m, net' :: !Drives(nets[|moves|], m, net')) <==> |moves| == Work(nets[0])
    ensures |moves| == Work(nets[0]) <==> AllDone(nets[|moves|])
  {
    RunKeepsShape(nets, moves, |moves|);
    WorkBound(nets[0]);
    WorkBound(nets[|moves|]);
    if |moves| == Work(nets[0]) {
      forall m, net' ensures !Drives(nets[|moves|], m, net') {
        if Drives(nets[|moves|], m, net') { MoveShrinksWork(nets[|moves|], m, net'); }
      }
    } else {
      SomeMove(nets[|moves|]);
    }
  }

  // ---- What a cycle does ----

  /** A set of nodes each of which waits for another of the set. */
  ghost predicate Stuck(net: Net, s: set<Id>) {
    forall id :: id in s ==> IsPending(net, id) && WaitsOnAny(net.nodes[id], s)
  }

  lemma StuckNotReady(net: Net, s: set<Id>, id: Id)
    requires Stuck(net, s) && id in s
    ensures id !in ReadyIds(net)
  {
    var d :| d in net.nodes[id].deps && d in s;
    assert IsPending(net, d) && !Done(net, d);
  }

  lemma StuckStays(net: Net, m: Move, net': Net, s: set<Id>)
    requires Drives(net, m, net') && Stuck(net, s)
    ensures Stuck(net', s)
  {
    forall id | id in s ensures IsPending(net', id) && WaitsOnAny(net'.nodes[id], s) {
      StuckNotReady(net, s, id);
      assert net'.nodes[id].deps == net.nodes[id].deps;
    }
  }

  lemma {:induction false} StuckForever(nets: seq<Net>, moves: seq<Move>, s: set<Id>, i: nat)
    requires DriverRun(nets, moves) && i < |nets| && Stuck(nets[0], s)
    ensures Stuck(nets[i], s)
  {
    hide Stuck, Drives;
    if i > 0 {
      StuckForever(nets, moves, s, i - 1);
      StuckStays(nets[i - 1], moves[i - 1], nets[i], s);
    }
  }

  lemma CycleStuck(net: Net, x: Id, p: seq<Id>)
    requires Walk(PendingWaits(net), x, x, p) && |p| >= 2
    ensures Stuck(net, IdSet(p)) && x in IdSet(p)
  {
    var s := IdSet(p);
    forall id | id in s ensures IsPending(net, id) && WaitsOnAny(net.nodes[id], s) {
      var k :| 0 <= k < |p| && p[k] == id;
      var j := if k == |p| - 1 then 0 else k;
      assert p[j] == id && (p[j], p[j + 1]) in PendingWaits(net);
      assert p[j + 1] in s;
    }
  }

  lemma StuckMember(net: Net, s: set<Id>, x: Id)
    requires Stuck(net, s) && x in s
    ensures IsPending(net, x) && !AllDone(net)
  {}

  lemma WalkStarves(nets: seq<Net>, moves: seq<Move>, x: Id, i: nat, p: seq<Id>)
    requires DriverRun(nets, moves) && i < |nets| && Walk(PendingWaits(nets[0]), x, x, p) && |p| >= 2
    ensures IsPending(nets[i], x) && !AllDone(nets[i])
  {
    hide *;
    CycleStuck(nets[0], x, p);
    StuckForever(nets, moves, IdSet(p), i);
    StuckMember(nets[i], IdSet(p), x);
  }

  /** Pending nodes on a cycle are never fired by any run, and no run that holds one ever finishes. */
  lemma CycleStarves(nets: seq<Net>, moves: seq<Move>, x: Id, i: nat)
    requires DriverRun(nets, moves) && i < |nets| && Leads(PendingWaits(nets[0]), x, x)
    ensures IsPending(nets[i], x) && !AllDone(nets[i])
  {
    hide DriverRun, Walk, IsPending, AllDone, PendingWaits;
    var p :| Walk(PendingWaits(nets[0]), x, x, p) && |p| >= 2;
    WalkStarves(nets, moves, x, i, p);
  }
}
