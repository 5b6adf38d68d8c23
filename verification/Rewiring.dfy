/** What each operation that rewrites dependencies mid-run does to the graph's shape. */
module Rewiring {
  import opened Digraph
  import opened Nets
  import opened Scheduling

  // ---- Adding a node ----

  /** A node added over existing nodes keeps the graph closed and acyclic. */
  lemma AddKeepsShape(net: Net, info: Info)
    requires NetOk(net) && ClosedNet(net) && Acyclic(Waits(net))
    requires forall d :: d in info.deps ==> d in net.nodes
    ensures ClosedNet(WithNode(net, info)) && Acyclic(Waits(WithNode(net, info)))
  {
    FreshName(net);
    var id := NodeName(|net.order| + 1);
    var high := Fan({id}, IdSet(info.deps));
    assert Waits(WithNode(net, info)) == Waits(net) + high;
    assert Within(high, {id}) == {};
    RankedAcyclic(Within(high, {id}), (x: Id) => 0);
    LayerAcyclic(Waits(net), high, {id});
  }

  // ---- Gating ----

  ghost function Gateable(net: Net, gate: Id): set<Id> {
    set id | id in net.nodes && IsPending(net, id) && id != gate
  }

  lemma GatedWaits(net: Net, gate: Id)
    ensures Waits(Gated(net, gate)) == Waits(net) + Fan(Gateable(net, gate), {gate})
  {
    var after := Gated(net, gate);
    forall id, d ensures (id, d) in Waits(after) <==> (id, d) in Waits(net) + Fan(Gateable(net, gate), {gate}) {
      if id in net.nodes { assert after.nodes[id] == Gate(gate)(id, net.nodes[id]); }
    }
  }

  /** Gating leaves the graph acyclic exactly when the gate does not itself wait, however indirectly, for a
      pending node. */
  lemma GateAcyclicIff(net: Net, gate: Id)
    requires Acyclic(Waits(net))
    ensures Acyclic(Waits(Gated(net, gate))) <==> forall x :: x in Gateable(net, gate) ==> !Reaches(Waits(net), gate, x)
  {
    GatedWaits(net, gate);
    FanAcyclic(Waits(net), Gateable(net, gate), {gate});
  }

  /** While the gate is not terminal nothing else becomes ready. */
  lemma GateHolds(net: Net, gate: Id, id: Id)
    requires id in ReadyIds(Gated(net, gate)) && id != gate
    ensures Done(net, gate)
  {
    var after := Gated(net, gate);
    assert after.nodes[id] == Gate(gate)(id, net.nodes[id]);
    assert gate in after.nodes[id].deps;
    assert Done(after, gate);
    assert after.nodes[gate] == Gate(gate)(gate, net.nodes[gate]);
  }

  /** A gate that waits for nothing, as the scheduler's reflection nodes, is always safe. */
  lemma FreeGateAcyclic(net: Net, gate: Id)
    requires Acyclic(Waits(net)) && (gate in net.nodes ==> net.nodes[gate].deps == [])
    ensures Acyclic(Waits(Gated(net, gate)))
  {
    forall x | x in Gateable(net, gate) ensures !Reaches(Waits(net), gate, x) {
      DeadEnd(Waits(net), gate, x);
    }
    GateAcyclicIff(net, gate);
  }

  // ---- Waiting for grafted nodes ----

  /** The nodes AlsoWaitFor touches. */
  ghost function Waiters(net: Net, after: set<Id>, newIds: seq<Id>): set<Id> {
    set id | id in net.nodes && IsPending(net, id) && id !in newIds && WaitsOnAny(net.nodes[id], after)
  }

  lemma AlsoWaitedWaits(net: Net, after: set<Id>, newIds: seq<Id>)
    ensures Waits(AlsoWaited(net, after, newIds)) == Waits(net) + Fan(Waiters(net, after, newIds), IdSet(newIds))
  {
    var net' := AlsoWaited(net, after, newIds);
    forall id, d
      ensures (id, d) in Waits(net') <==> (id, d) in Waits(net) + Fan(Waiters(net, after, newIds), IdSet(newIds))
    {
      if id in net.nodes { assert net'.nodes[id] == AlsoWait(after, newIds)(id, net.nodes[id]); }
    }
  }

  /** Making the waiters wait for the new nodes too is safe exactly when no new node waits for a waiter. */
  lemma AlsoWaitAcyclicIff(net: Net, after: set<Id>, newIds: seq<Id>)
    requires Acyclic(Waits(net))
    ensures Acyclic(Waits(AlsoWaited(net, after, newIds))) <==>
      forall w, n :: w in Waiters(net, after, newIds) && n in newIds ==> !Reaches(Waits(net), n, w)
  {
    AlsoWaitedWaits(net, after, newIds);
    FanAcyclic(Waits(net), Waiters(net, after, newIds), IdSet(newIds));
  }

  ghost function LateReaders(net: Net, parent: Id, child: Id, field: string): set<Id> {
    set id | id in net.nodes && IsPending(net, id) && id != child && parent in net.nodes[id].deps
      && Reads(net.nodes[id].task.params, parent, field)
  }

  lemma WaitedLateWaits(net: Net, parent: Id, child: Id, field: string)
    ensures Waits(WaitedLate(net, parent, child, field)) == Waits(net) + Fan(LateReaders(net, parent, child, field), {child})
  {
    var net' := WaitedLate(net, parent, child, field);
    forall id, d
      ensures (id, d) in Waits(net') <==> (id, d) in Waits(net) + Fan(LateReaders(net, parent, child, field), {child})
    {
      if id in net.nodes { assert net'.nodes[id] == WaitLate(parent, child, field)(id, net.nodes[id]); }
    }
  }

  /** WaitAlsoOn: every reader of the late field ends up behind the child, and the graph stays acyclic exactly
      when the child does not wait for one of those readers. */
  lemma WaitLateAcyclicIff(net: Net, parent: Id, child: Id, field: string)
    requires Acyclic(Waits(net))
    ensures Acyclic(Waits(WaitedLate(net, parent, child, field))) <==>
      forall x :: x in LateReaders(net, parent, child, field) ==> !Reaches(Waits(net), child, x)
    ensures forall x :: x in LateReaders(net, parent, child, field) && x in ReadyIds(WaitedLate(net, parent, child, field)) ==>
      Done(net, child)
  {
    WaitedLateWaits(net, parent, child, field);
    FanAcyclic(Waits(net), LateReaders(net, parent, child, field), {child});
    var net' := WaitedLate(net, parent, child, field);
    forall x | x in LateReaders(net, parent, child, field) && x in ReadyIds(net') ensures Done(net, child) {
      assert net'.nodes[x] == WaitLate(parent, child, field)(x, net.nodes[x]);
      assert child in net'.nodes[x].deps && Done(net', child);
      assert net'.nodes[child] == WaitLate(parent, child, field)(child, net.nodes[child]);
    }
  }

  // ---- Redirecting dependents ----

  ghost function Dependents(net: Net, gone: Id, repl: seq<Id>): set<Id> {
    set id | id in net.nodes && IsPending(net, id) && id !in repl && gone in net.nodes[id].deps
  }

  predicate MentionedOnce(deps: seq<Id>, d: Id) {
    forall j, k :: 0 <= j < k < |deps| && deps[j] == d ==> deps[k] != d
  }

  /** The edges a redirection leaves: only a dependent's single mention of the node goes. */
  ghost function KeptWaits(net: Net, gone: Id, repl: seq<Id>): set<(Id, Id)> {
    set e | e in Waits(net) && !(e.1 == gone && e.0 in Dependents(net, gone, repl) && MentionedOnce(net.nodes[e.0].deps, gone))
  }

  lemma {:induction false} ReplacedAt(deps: seq<Id>, gone: Id, repl: seq<Id>, i: nat)
    requires i < |deps| && deps[i] == gone && gone !in deps[..i]
    ensures Replaced(deps, gone, repl) == deps[..i] + repl + deps[i + 1..]
  {
    if i > 0 {
      assert deps[0] in deps[..i] && deps[1..][..i - 1] == deps[..i][1..];
      ReplacedAt(deps[1..], gone, repl, i - 1);
      assert [deps[0]] + deps[1..][..i - 1] == deps[..i] && deps[1..][i..] == deps[i + 1..];
    }
  }

  lemma {:induction false} ReplacedNone(deps: seq<Id>, gone: Id, repl: seq<Id>)
    requires gone !in deps
    ensures Replaced(deps, gone, repl) == deps
  {
    if deps != [] { ReplacedNone(deps[1..], gone, repl); }
  }

  lemma {:induction false} FirstMention(deps: seq<Id>, gone: Id) returns (i: nat)
    requires gone in deps
    ensures i < |deps| && deps[i] == gone && gone !in deps[..i]
  {
    if deps[0] == gone {
      i := 0;
    } else {
      assert deps == [deps[0]] + deps[1..];
      i := FirstMention(deps[1..], gone);
      assert deps[..i + 1] == [deps[0]] + deps[1..][..i];
      i := i + 1;
    }
  }

  lemma ReplacedHolds(deps: seq<Id>, gone: Id, repl: seq<Id>)
    requires gone in deps
    ensures forall d :: d in Replaced(deps, gone, repl) <==>
      d in repl || (d in deps && !(d == gone && MentionedOnce(deps, gone)))
  {
    var i := FirstMention(deps, gone);
    ReplacedAt(deps, gone, repl, i);
    hide Replaced;
    assert deps == deps[..i] + [gone] + deps[i + 1..];
    if gone !in deps[i + 1..] {
      forall j, k | 0 <= j < k < |deps| && deps[j] == gone ensures deps[k] != gone {
        assert k > i && deps[k] == deps[i + 1..][k - i - 1];
      }
    } else {
      var k :| 0 <= k < |deps[i + 1..]| && deps[i + 1..][k] == gone;
      assert deps[i + 1 + k] == gone;
    }
  }

  lemma RedirectedWaits(net: Net, gone: Id, repl: seq<Id>)
    ensures Waits(Redirected(net, gone, repl)) == KeptWaits(net, gone, repl) + Fan(Dependents(net, gone, repl), IdSet(repl))
  {
    var net' := Redirected(net, gone, repl);
    forall id, d
      ensures (id, d) in Waits(net') <==> (id, d) in KeptWaits(net, gone, repl) + Fan(Dependents(net, gone, repl), IdSet(repl))
    {
      if id in net.nodes {
        assert net'.nodes[id] == Redirect(gone, repl)(id, net.nodes[id]);
        if gone in net.nodes[id].deps { ReplacedHolds(net.nodes[id].deps, gone, repl); } else { ReplacedNone(net.nodes[id].deps, gone, repl); }
      }
    }
  }

  /** Pointing dependents at the nodes that replace what they waited for keeps the graph acyclic exactly when no
      replacement leads to a dependent along the edges that stay. */
  lemma RedirectAcyclicIff(net: Net, gone: Id, repl: seq<Id>)
    requires Acyclic(Waits(net))
    ensures Acyclic(Waits(Redirected(net, gone, repl))) <==>
      forall w, n :: w in Dependents(net, gone, repl) && n in repl ==> !Reaches(KeptWaits(net, gone, repl), n, w)
  {
    RedirectedWaits(net, gone, repl);
    SubgraphAcyclic(KeptWaits(net, gone, repl), Waits(net));
    FanAcyclic(KeptWaits(net, gone, repl), Dependents(net, gone, repl), IdSet(repl));
  }

  // ---- Pruning ----

  /** Pruning changes no dependency, and leaves no pending node waiting for the root or for a skipped node. */
  lemma PruneKeepsShape(net: Net, root: Id)
    ensures Waits(Pruned(net, root)) == Waits(net)
    ensures forall id, d :: IsPending(Pruned(net, root), id) && d in net.nodes[id].deps ==>
      d != root && d !in Doomed(net, root)
  {
    var net' := Pruned(net, root);
    assert forall id :: id in net.nodes ==> net'.nodes[id].deps == net.nodes[id].deps;
    assert net'.nodes.Keys == net.nodes.Keys;
    DoomedClosed(net, root);
    forall id, d | IsPending(net', id) && d in net.nodes[id].deps ensures d != root && d !in Doomed(net, root) {
      assert IsPending(net, id) && (id, d) in PendingWaits(net);
    }
  }
}
