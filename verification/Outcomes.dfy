/** What each bulk operation on the graph does to each node, field by field. */
module Outcomes {
  import opened Values
  import opened Nets
  import Rewiring

  /** Pruning: a pending node from which pending nodes lead to the root is skipped, and that is all. */
  lemma PrunedNode(net: Net, root: Id, id: Id)
    requires id in net.nodes
    ensures var r := Pruned(net, root);
      && r.nodes.Keys == net.nodes.Keys && r.order == net.order && r.round == net.round
      && r.nodes[id] == if id in Doomed(net, root) then net.nodes[id].(state := Skipped) else net.nodes[id]
  {}

  lemma AllSkippedNode(net: Net, id: Id)
    requires id in net.nodes
    ensures var r := Updated(net, Skip, PendingIds(net, net.nodes.Keys));
      && r.nodes.Keys == net.nodes.Keys && r.order == net.order && r.round == net.round
      && r.nodes[id] == if net.nodes[id].state == Pending then net.nodes[id].(state := Skipped) else net.nodes[id]
  {}

  /** Gating: every pending node but the gate waits for it last of all, unless it did before. */
  lemma GatedNode(net: Net, gate: Id, id: Id)
    requires id in net.nodes
    ensures var r, was := Gated(net, gate), net.nodes[id];
      && r.nodes.Keys == net.nodes.Keys && r.order == net.order && r.round == net.round
      && r.nodes[id] ==
        if was.state == Pending && id != gate && gate !in was.deps then was.(deps := was.deps + [gate]) else was
  {}

  /** Some of the new ids, each once, in the order in which they first stand there. */
  ghost predicate InOrderOnce(more: seq<Id>, newIds: seq<Id>) {
    forall i, j :: 0 <= i < j < |more| ==> more[i] != more[j] && ComesFirst(newIds, more[i], more[j])
  }

  ghost predicate ComesFirst(ids: seq<Id>, a: Id, b: Id) {
    forall k :: 0 <= k < |ids| && ids[k] == b ==> a in ids[..k]
  }

  lemma {:induction false} MissingInOrder(deps: seq<Id>, newIds: seq<Id>)
    ensures InOrderOnce(Missing(deps, newIds), newIds)
    decreases newIds
  {
    if newIds != [] {
      var first, rest := newIds[0], newIds[1..];
      var next := if first in deps then Missing(deps, rest) else Missing(deps + [first], rest);
      MissingInOrder(if first in deps then deps else deps + [first], rest);
      var more := Missing(deps, newIds);
      forall i, j | 0 <= i < j < |more| ensures more[i] != more[j] && ComesFirst(newIds, more[i], more[j]) {
        if first in deps {
          LaterOn(newIds, more[i], more[j]);
          assert more[j] in more;
        } else if i == 0 {
          assert more[j] == next[j - 1] && next[j - 1] in next;
        } else {
          assert more[i] == next[i - 1] && more[j] == next[j - 1] && next[j - 1] in next;
          LaterOn(newIds, more[i], more[j]);
        }
      }
    }
  }

  lemma LaterOn(ids: seq<Id>, a: Id, b: Id)
    requires ids != [] && ids[0] != b && ComesFirst(ids[1..], a, b)
    ensures ComesFirst(ids, a, b)
  {
    forall k | 0 <= k < |ids| && ids[k] == b ensures a in ids[..k] {
      assert ids[1..][k - 1] == b && ids[1..][..k - 1] == ids[..k][1..];
    }
  }

  /** Waiting for new nodes too: whoever is pending, is none of them and waits for one of the given ids gets behind its
      dependencies each new id it lacks, once and in order. */
  lemma AlsoWaitedNode(net: Net, after: set<Id>, newIds: seq<Id>, id: Id)
    requires id in net.nodes
    ensures var r, was := AlsoWaited(net, after, newIds), net.nodes[id];
      && r.nodes.Keys == net.nodes.Keys && r.order == net.order && r.round == net.round
      && (if was.state == Pending && id !in newIds && (exists d :: d in was.deps && d in after) then
            exists more :: GainsAll(was.deps, more, newIds) && r.nodes[id] == was.(deps := was.deps + more)
          else r.nodes[id] == was)
  {
    MissingInOrder(net.nodes[id].deps, newIds);
    assert GainsAll(net.nodes[id].deps, Missing(net.nodes[id].deps, newIds), newIds);
  }

  ghost predicate GainsAll(deps: seq<Id>, more: seq<Id>, newIds: seq<Id>) {
    (forall d :: d in more <==> d in newIds && d !in deps) && InOrderOnce(more, newIds)
  }

  // ---- Late fields ----

  lemma {:induction false} SegmentIs(path: string, field: string)
    ensures FirstSegment(path) == field <==> '.' !in field && (path == field || field + "." <= path)
  {
    if path != "" && path[0] != '.' {
      var rest := path[1..];
      if field == "" {
        assert FirstSegment(path)[0] == path[0];
      } else {
        SegmentIs(rest, field[1..]);
        assert field == [field[0]] + field[1..] && path == [path[0]] + rest;
        assert field[0] == path[0] ==> (path == field <==> rest == field[1..]);
        if field[0] == path[0] { Fronts(field, path); }
        assert path == field || field + "." <= path ==> field[0] == path[0];
      }
    } else {
      if field == "" {
        assert path == "" || path[0] == '.';
        assert "" + "." == ".";
      } else {
        if path == field || field + "." <= path { assert path[0] == field[0] && field[0] in field; }
      }
    }
  }

  lemma Fronts(field: string, path: string)
    requires field != "" && path != "" && field[0] == path[0]
    ensures field + "." <= path <==> field[1..] + "." <= path[1..]
  {
    assert field + "." == [field[0]] + (field[1..] + ".");
    assert path == [path[0]] + path[1..];
  }

  /** A reference to the parent whose path is the late field or goes on from it with a dot. */
  ghost predicate LooksAt(params: Val, parent: Id, field: string) {
    '.' !in field && exists r :: r in RefsOf(params) && LooksInto(r, parent, field)
  }

  predicate LooksInto(r: Seg, parent: Id, field: string) {
    r.Ref? && r.kind == NodeRef && r.name == parent && r.path != "" && (r.path == field || field + "." <= r.path)
  }

  lemma ReadsIff(params: Val, parent: Id, field: string)
    ensures Reads(params, parent, field) <==> LooksAt(params, parent, field)
  {
    forall r | r in RefsOf(params) && r.Ref?
      ensures FirstSegment(r.path) == field <==> '.' !in field && (r.path == field || field + "." <= r.path)
    {
      SegmentIs(r.path, field);
    }
  }

  /** Waiting for a late field: whoever is pending, depends on the parent and looks at that field waits for the child too. */
  lemma WaitedLateNode(net: Net, parent: Id, child: Id, field: string, id: Id)
    requires id in net.nodes
    ensures var r, was := WaitedLate(net, parent, child, field), net.nodes[id];
      && r.nodes.Keys == net.nodes.Keys && r.order == net.order && r.round == net.round
      && r.nodes[id] ==
        if was.state == Pending && id != child && parent in was.deps && child !in was.deps && LooksAt(was.task.params, parent, field)
        then was.(deps := was.deps + [child]) else was
  {
    ReadsIff(net.nodes[id].task.params, parent, field);
    hide Reads, LooksAt;
  }

  // ---- Redirecting ----

  /** The first mention of the node gives way to the replacements where it stood. */
  ghost predicate GivesWay(deps: seq<Id>, gone: Id, repl: seq<Id>, deps': seq<Id>) {
    exists a, b :: deps == a + [gone] + b && gone !in a && deps' == a + repl + b
  }

  lemma RedirectedNode(net: Net, gone: Id, repl: seq<Id>, id: Id)
    requires id in net.nodes
    ensures var r, was := Redirected(net, gone, repl), net.nodes[id];
      && r.nodes.Keys == net.nodes.Keys && r.order == net.order && r.round == net.round && id in r.nodes
      && r.nodes[id] == was.(deps := r.nodes[id].deps)
      && (if was.state == Pending && id !in repl && gone in was.deps then GivesWay(was.deps, gone, repl, r.nodes[id].deps)
          else r.nodes[id].deps == was.deps)
  {
    var deps := net.nodes[id].deps;
    if gone in deps {
      var i := Rewiring.FirstMention(deps, gone);
      Rewiring.ReplacedAt(deps, gone, repl, i);
      assert deps == deps[..i] + [gone] + deps[i + 1..];
      assert GivesWay(deps, gone, repl, Replaced(deps, gone, repl));
    } else {
      Rewiring.ReplacedNone(deps, gone, repl);
    }
  }

  // ---- Superseding ----

  /** A check, re-grafted by the engine: it may fail without the fix having failed. */
  predicate EngineCheck(task: Task) {
    task.source == "builtin" && ((|task.tag| >= 7 && task.tag[..7] == "verify_") || (|task.tag| >= 11 && task.tag[..11] == "revalidate_"))
  }

  /** The debugger was sent for the failure, its children have all finished, and what of them is no check is there and did
      not fail. */
  ghost predicate FixedBy(net: Net, d: Id, f: Id) {
    && d in net.nodes && net.nodes[d].task.kind == MicroPlanner && f in net.nodes[d].task.addresses
    && (forall c :: c in net.nodes[d].children && c in net.nodes ==>
      && (net.nodes[c].state == Resolved || net.nodes[c].state == Failed || net.nodes[c].state == Skipped)
      && (net.nodes[c].state == Failed ==> EngineCheck(net.nodes[c].task)))
    && (exists c :: c in net.nodes[d].children && c in net.nodes && !EngineCheck(net.nodes[c].task))
  }

  lemma CheckIs(task: Task)
    ensures Validator(task) <==> EngineCheck(task)
  {
    assert |"verify_"| == 7 && |"revalidate_"| == 11;
  }

  lemma FixedIs(net: Net, d: Id, f: Id)
    ensures FixedBy(net, d, f) <==> d in net.nodes && FixLanded(net, d) && f in net.nodes[d].task.addresses
  {
    forall c | c in net.nodes ensures Validator(net.nodes[c].task) <==> EngineCheck(net.nodes[c].task) { CheckIs(net.nodes[c].task); }
    hide Validator, EngineCheck;
    if d in net.nodes && FixLanded(net, d) {
      var c :| c in net.nodes[d].children && RealFix(net, c);
      assert c in net.nodes && !EngineCheck(net.nodes[c].task);
    }
    if FixedBy(net, d, f) {
      var c :| c in net.nodes[d].children && c in net.nodes && !EngineCheck(net.nodes[c].task);
      assert RealFix(net, c);
    }
  }

  /** A failed node is marked exactly when it was, or some debugger has fixed it; no other field of any node changes. */
  lemma SupersededNode(net: Net, f: Id)
    requires f in net.nodes
    ensures var r, was := Superseded(net), net.nodes[f];
      && r.nodes.Keys == net.nodes.Keys && r.order == net.order && r.round == net.round
      && r.nodes[f] ==
        was.(superseded := was.superseded || (was.state == Failed && exists d :: FixedBy(net, d, f)))
  {
    forall d ensures FixedBy(net, d, f) <==> d in net.nodes && FixLanded(net, d) && f in net.nodes[d].task.addresses { FixedIs(net, d, f); }
    hide FixedBy, FixLanded;
  }
}
