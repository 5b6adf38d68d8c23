/** Arcs of a run: what each planning round produced (agent/dag.go, StepResults and Arcs). */
module Rounds {
  import opened Values
  import opened Nets
  import opened Graphs

  datatype StepResult = StepResult(nodeId: Id, tool: string, name: string, params: Val, body: Body, err: string)

  /** A step of a plan that has something to report; round -1 stands for every round. */
  predicate IsStep(net: Net, id: Id, round: int) {
    && id in net.nodes
    && (net.nodes[id].task.kind == Tool || net.nodes[id].task.kind == Compute)
    && (net.nodes[id].state == Resolved || net.nodes[id].state == Failed)
    && (round < 0 || net.nodes[id].round == round)
  }

  function StepTest(net: Net, round: int): Id -> bool {
    (id: Id) => IsStep(net, id, round)
  }

  /** A step the planner left unnamed goes by its id. */
  function ResultOf(id: Id, info: Info): StepResult {
    StepResult(id, info.task.tool, if info.task.tag == "" then id else info.task.tag, info.task.params,
               info.outcome.body, info.outcome.err)
  }

  function ResultsOf(net: Net, ids: seq<Id>): seq<StepResult>
    requires forall id :: id in ids ==> id in net.nodes
  {
    seq(|ids|, i requires 0 <= i < |ids| => assert ids[i] in ids; ResultOf(ids[i], net.nodes[ids[i]]))
  }

  function StepIds(net: Net, round: int): seq<Id> {
    Select(net.order, StepTest(net, round))
  }

  function Results(net: Net, round: int): seq<StepResult> {
    ResultsOf(net, StepIds(net, round))
  }

  function ArcsUpTo(net: Net, rounds: nat): seq<seq<StepResult>> {
    if rounds == 0 then []
    else
      var last := Results(net, rounds - 1);
      ArcsUpTo(net, rounds - 1) + (if last == [] then [] else [last])
  }

  function Flatten<T>(ss: seq<seq<T>>): seq<T> {
    if ss == [] then [] else Flatten(ss[..|ss| - 1]) + ss[|ss| - 1]
  }

  // ---- The two readers ----

  /** agent/dag.go, StepResults. */
  method ReadStepResults(g: Graph, round: int) returns (out: seq<StepResult>)
    requires g.Valid()
    ensures out == Results(g.net, round)
  {
    var ids := FindSteps(g, round);
    out := Report(g, ids);
  }

  method FindSteps(g: Graph, round: int) returns (ids: seq<Id>)
    requires g.Valid()
    ensures ids == StepIds(g.net, round)
  {
    ids := [];
    ghost var order := g.net.order;
    assert g.order == order;
    hide Graph.Valid, StepTest;
    for k := 0 to |g.order|
      invariant ids == Select(order[..k], StepTest(g.net, round))
    {
      SelectNext(order, k, StepTest(g.net, round));
      var counts := CountsAsStep(g, g.order[k], round);
      if counts { ids := ids + [g.order[k]]; }
    }
    assert order[..|order|] == order;
  }

  method Report(g: Graph, ids: seq<Id>) returns (out: seq<StepResult>)
    requires g.Valid() && forall id :: id in ids ==> id in g.net.nodes
    ensures out == ResultsOf(g.net, ids)
  {
    out := [];
    for k := 0 to |ids|
      invariant out == ResultsOf(g.net, ids)[..k]
    {
      assert ids[k] in ids && g.nodes[ids[k]].View() == g.net.nodes[ids[k]];
      var n := g.nodes[ids[k]];
      var name := n.task.tag;
      if name == "" { name := ids[k]; }
      out := out + [StepResult(ids[k], n.task.tool, name, n.task.params, n.outcome.body, n.outcome.err)];
    }
  }

  method CountsAsStep(g: Graph, id: Id, round: int) returns (counts: bool)
    requires g.Valid()
    ensures counts == StepTest(g.net, round)(id)
  {
    if id !in g.nodes { return false; }
    var n := g.nodes[id];
    assert n.View() == g.net.nodes[id];
    if n.task.kind != Tool && n.task.kind != Compute { return false; }
    if n.state != Resolved && n.state != Failed { return false; }
    if round >= 0 && n.round != round { return false; }
    return true;
  }

  /** agent/dag.go, Arcs. */
  method ReadArcs(g: Graph) returns (arcs: seq<seq<StepResult>>)
    requires g.Valid()
    ensures arcs == ArcsUpTo(g.net, g.net.round + 1)
  {
    arcs := [];
    for round := 0 to g.round + 1
      invariant arcs == ArcsUpTo(g.net, round)
    {
      var steps := ReadStepResults(g, round);
      if |steps| > 0 { arcs := arcs + [steps]; }
    }
  }

  // ---- Runs: nodes are added, rounds begin, nodes change but keep their round ----

  datatype Event = Added(info: Info) | RoundBegan | Altered(id: Id, info: Info)

  ghost predicate Happens(net: Net, e: Event, net': Net) {
    match e
    case Added(info) => net' == WithNode(net, info)
    case RoundBegan => net' == net.(round := net.round + 1)
    case Altered(id, info) => id in net.nodes && info.round == net.nodes[id].round && net' == WithInfo(net, id, info)
  }

  ghost predicate History(nets: seq<Net>, events: seq<Event>) {
    && |nets| == |events| + 1 && nets[0] == EMPTY
    && forall i :: 0 <= i < |events| ==> Happens(nets[i], events[i], nets[i + 1])
  }

  /** The round a node was added in, 0 for an id the graph does not hold. */
  function RoundOf(net: Net, id: Id): nat {
    if id in net.nodes then net.nodes[id].round else 0
  }

  ghost predicate RoundsSorted(net: Net) {
    && (forall i, j :: 0 <= i < j < |net.order| ==> RoundOf(net, net.order[i]) <= RoundOf(net, net.order[j]))
    && (forall i :: 0 <= i < |net.order| ==> RoundOf(net, net.order[i]) <= net.round)
  }

  lemma HappensKeepsSorted(net: Net, e: Event, net': Net)
    requires NetOk(net) && RoundsSorted(net) && Happens(net, e, net')
    ensures NetOk(net') && RoundsSorted(net')
  {
    match e
    case Added(info) => AddedKeepsSorted(net, info, net');
    case RoundBegan => assert forall id :: RoundOf(net', id) == RoundOf(net, id);
    case Altered(id, info) =>
      InfoOk(net, id, info);
      hide NetOk;
      assert forall x :: RoundOf(net', x) == RoundOf(net, x);
  }

  lemma AddedKeepsSorted(net: Net, info: Info, net': Net)
    requires NetOk(net) && RoundsSorted(net) && Happens(net, Added(info), net')
    ensures NetOk(net') && RoundsSorted(net')
  {
    WithNodeOk(net, info);
    FreshName(net);
    var last := |net.order|;
    forall i | 0 <= i < last ensures RoundOf(net', net'.order[i]) == RoundOf(net, net.order[i]) {
      assert net.order[i] in net.nodes;
    }
    assert RoundOf(net', net'.order[last]) == net.round;
  }

  lemma {:induction false} HistorySorted(nets: seq<Net>, events: seq<Event>, i: nat)
    requires History(nets, events) && i < |nets|
    ensures NetOk(nets[i]) && RoundsSorted(nets[i])
  {
    if i > 0 {
      HistorySorted(nets, events, i - 1);
      HappensKeepsSorted(nets[i - 1], events[i - 1], nets[i]);
    }
  }

  // ---- Nothing is lost, repeated or reordered between rounds ----

  function IdsUpTo(net: Net, ids: seq<Id>, rounds: nat): seq<Id> {
    if rounds == 0 then [] else IdsUpTo(net, ids, rounds - 1) + Select(ids, StepTest(net, rounds - 1))
  }

  lemma {:induction false} IdsUpToNext(net: Net, ids: seq<Id>, last: Id, rounds: nat)
    requires rounds <= RoundOf(net, last)
    ensures IdsUpTo(net, ids + [last], rounds) == IdsUpTo(net, ids, rounds)
  {
    if rounds > 0 {
      IdsUpToNext(net, ids, last, rounds - 1);
      SelectAppend(ids, last, StepTest(net, rounds - 1));
      assert !StepTest(net, rounds - 1)(last);
      hide Select, StepTest;
    }
  }

  lemma SelectAppend(ids: seq<Id>, last: Id, p: Id -> bool)
    ensures Select(ids + [last], p) == Select(ids, p) + if p(last) then [last] else []
  {
    assert (ids + [last])[..|ids|] == ids;
  }

  lemma {:induction false} SelectNone(ids: seq<Id>, p: Id -> bool)
    requires forall id :: id in ids ==> !p(id)
    ensures Select(ids, p) == []
  {
    if ids != [] {
      forall id | id in ids[..|ids| - 1] ensures id in ids {}
      SelectNone(ids[..|ids| - 1], p);
    }
  }

  lemma NoneSoLate(net: Net, ids: seq<Id>, low: nat, round: nat)
    requires low <= round && forall id :: id in ids ==> RoundOf(net, id) < low
    ensures Select(ids, StepTest(net, round)) == []
  {
    forall id | id in ids ensures !StepTest(net, round)(id) {}
    SelectNone(ids, StepTest(net, round));
  }

  lemma {:induction false} NoLaterIds(net: Net, ids: seq<Id>, low: nat, high: nat)
    requires low <= high && forall id :: id in ids ==> RoundOf(net, id) < low
    ensures IdsUpTo(net, ids, high) == IdsUpTo(net, ids, low)
    decreases high
  {
    hide *;
    if low < high {
      NoLaterIds(net, ids, low, high - 1);
      NoneSoLate(net, ids, low, high - 1);
      UpToLast(net, ids, high - 1);
    }
  }

  ghost predicate SortedIds(net: Net, ids: seq<Id>) {
    forall i, j :: 0 <= i < j < |ids| ==> RoundOf(net, ids[i]) <= RoundOf(net, ids[j])
  }

  lemma {:induction false} RoundsPartition(net: Net, ids: seq<Id>, rounds: nat)
    requires SortedIds(net, ids) && forall id :: id in ids ==> RoundOf(net, id) < rounds
    ensures IdsUpTo(net, ids, rounds) == Select(ids, StepTest(net, -1))
    decreases |ids|
  {
    if ids == [] {
      NoLaterIds(net, ids, 0, rounds);
    } else {
      hide *;
      var last, init := ids[|ids| - 1], ids[..|ids| - 1];
      var q := RoundOf(net, last);
      assert ids == init + [last];
      LastIsLatest(net, ids);
      RoundsPartition(net, init, q + 1);
      PartitionNext(net, init, last);
      NoLaterIds(net, ids, q + 1, rounds);
    }
  }

  lemma LastIsLatest(net: Net, ids: seq<Id>)
    requires SortedIds(net, ids) && ids != []
    ensures SortedIds(net, ids[..|ids| - 1])
    ensures forall id :: id in ids ==> RoundOf(net, id) < RoundOf(net, ids[|ids| - 1]) + 1
    ensures forall id :: id in ids[..|ids| - 1] ==> id in ids
  {
    forall id | id in ids ensures RoundOf(net, id) <= RoundOf(net, ids[|ids| - 1]) {
      var k :| 0 <= k < |ids| && ids[k] == id;
    }
  }

  /** The last id falls in its own round, so it ends both lists. */
  lemma PartitionNext(net: Net, init: seq<Id>, last: Id)
    ensures var q := RoundOf(net, last);
      IdsUpTo(net, init, q + 1) == Select(init, StepTest(net, -1)) ==>
        IdsUpTo(net, init + [last], q + 1) == Select(init + [last], StepTest(net, -1))
  {
    hide *;
    if IdsUpTo(net, init, RoundOf(net, last) + 1) == Select(init, StepTest(net, -1)) {
      BothEnd(net, init, last, RoundOf(net, last), StepTest(net, RoundOf(net, last)), StepTest(net, -1));
    }
  }

  lemma BothEnd(net: Net, init: seq<Id>, last: Id, q: nat, own: Id -> bool, every: Id -> bool)
    requires q == RoundOf(net, last) && own == StepTest(net, q) && every == StepTest(net, -1)
    requires IdsUpTo(net, init, q + 1) == Select(init, every)
    ensures IdsUpTo(net, init + [last], q + 1) == Select(init + [last], every)
  {
    assert own(last) == every(last);
    hide *;
    var end: seq<Id> := if every(last) then [last] else [];
    IdsUpToNext(net, init, last, q);
    SelectAppend(init, last, own);
    SelectAppend(init, last, every);
    UpToLast(net, init, q);
    UpToLast(net, init + [last], q);
    assert (IdsUpTo(net, init, q) + Select(init, own)) + end == IdsUpTo(net, init, q) + (Select(init, own) + end);
  }

  lemma UpToLast(net: Net, ids: seq<Id>, q: nat)
    ensures IdsUpTo(net, ids, q + 1) == IdsUpTo(net, ids, q) + Select(ids, StepTest(net, q))
  {}

  lemma ResultsConcat(net: Net, a: seq<Id>, b: seq<Id>)
    requires forall id :: id in a + b ==> id in net.nodes
    ensures (forall id :: id in a ==> id in net.nodes) && (forall id :: id in b ==> id in net.nodes)
    ensures ResultsOf(net, a + b) == ResultsOf(net, a) + ResultsOf(net, b)
  {
    forall id | id in a ensures id in a + b {}
    forall id | id in b ensures id in a + b {}
  }

  lemma {:induction false} ArcsFlatten(net: Net, rounds: nat)
    ensures forall id :: id in IdsUpTo(net, net.order, rounds) ==> id in net.nodes
    ensures Flatten(ArcsUpTo(net, rounds)) == ResultsOf(net, IdsUpTo(net, net.order, rounds))
  {
    if rounds > 0 {
      ArcsFlatten(net, rounds - 1);
      var before, last := ArcsUpTo(net, rounds - 1), Results(net, rounds - 1);
      ResultsConcat(net, IdsUpTo(net, net.order, rounds - 1), StepIds(net, rounds - 1));
      var ids := IdsUpTo(net, net.order, rounds - 1);
      assert IdsUpTo(net, net.order, rounds) == ids + StepIds(net, rounds - 1);
      if last != [] {
        assert (before + [last])[..|before|] == before;
      } else {
        assert before + [] == before && ResultsOf(net, ids) + last == ResultsOf(net, ids);
      }
    }
  }

  /** In every run, concatenating the arcs gives back all step results: no step lost, repeated or reordered. */
  lemma ArcsComplete(nets: seq<Net>, events: seq<Event>, i: nat)
    requires History(nets, events) && i < |nets|
    ensures Flatten(ArcsUpTo(nets[i], nets[i].round + 1)) == Results(nets[i], -1)
  {
    var net := nets[i];
    HistorySorted(nets, events, i);
    ArcsFlatten(net, net.round + 1);
    forall id | id in net.order ensures RoundOf(net, id) < net.round + 1 {
      var k :| 0 <= k < |net.order| && net.order[k] == id;
    }
    RoundsPartition(net, net.order, net.round + 1);
  }

  lemma {:induction false} NewestIsLast(net: Net, ids: seq<Id>, p: Id -> bool, k: nat)
    requires SortedIds(net, ids) && k < |ids| && p(ids[k]) && forall j :: k < j < |ids| ==> !p(ids[j])
    requires forall id :: id in ids && p(id) ==> id in net.nodes
    ensures Newest(net, ids, p) == Pick(ids[k])
    decreases |ids|
  {
    var init := ids[..|ids| - 1];
    assert ids[k] in ids;
    if k == |ids| - 1 {
      var best := Newest(net, init, p);
      if best.Pick? {
        var j :| 0 <= j < |init| && init[j] == best.id;
        assert RoundOf(net, ids[j]) <= RoundOf(net, ids[k]);
        assert best.id in ids;
      }
    } else {
      forall id | id in init ensures id in ids {}
      NewestIsLast(net, init, p, k);
    }
  }

  ghost predicate Resolvable(net: Net, name: string) {
    exists j :: 0 <= j < |net.order| && NamedResolved(net, name, net.order[j])
  }

  /** A name always resolves to the step of that name added last among the resolved ones; only when none
      resolved, to the last of that name. */
  lemma FinishedIsLast(nets: seq<Net>, events: seq<Event>, i: nat, name: string, k: nat)
    requires History(nets, events) && i < |nets| && name != ""
    requires PassesLast(nets[i], if Resolvable(nets[i], name) then ByNameResolved(nets[i], name) else ByName(nets[i], name), k)
    ensures Finished(nets[i], name) == Pick(nets[i].order[k])
  {
    var net := nets[i];
    HistorySorted(nets, events, i);
    if j :| 0 <= j < |net.order| && NamedResolved(net, name, net.order[j]) {
      NewestIsLast(net, net.order, ByNameResolved(net, name), k);
    } else {
      NewestIsLast(net, net.order, ByName(net, name), k);
    }
  }

  // ---- What is reported ----

  /** A tool or compute step that has finished, resolved or failed, of that round, or of any when the round is negative. */
  ghost predicate Reportable(net: Net, id: Id, round: int) {
    && id in net.nodes && (net.nodes[id].task.kind == Tool || net.nodes[id].task.kind == Compute)
    && (net.nodes[id].state == Resolved || net.nodes[id].state == Failed)
    && (round >= 0 ==> net.nodes[id].round == round)
  }

  /** The report of one node: its tool, its name or else its id, what it was called with, what came back. */
  ghost predicate Tells(net: Net, id: Id, r: StepResult) {
    && id in net.nodes && r.nodeId == id && r.tool == net.nodes[id].task.tool && r.params == net.nodes[id].task.params
    && (net.nodes[id].task.tag == "" ==> r.name == id) && (net.nodes[id].task.tag != "" ==> r.name == net.nodes[id].task.tag)
    && r.body == net.nodes[id].outcome.body && r.err == net.nodes[id].outcome.err
  }

  /** The places of the order at which a reportable node stands. */
  ghost function Places(net: Net, ids: seq<Id>, round: int): (r: seq<nat>)
    ensures forall i :: i in r <==> 0 <= i < |ids| && Reportable(net, ids[i], round)
    ensures forall a, b :: 0 <= a < b < |r| ==> r[a] < r[b]
  {
    if ids == [] then []
    else
      var last := |ids| - 1;
      var before := Places(net, ids[..last], round);
      assert forall a :: 0 <= a < |before| ==> before[a] in before;
      before + if Reportable(net, ids[last], round) then [last] else []
  }

  lemma {:induction false} SelectPlaces(net: Net, ids: seq<Id>, round: int)
    ensures |Select(ids, StepTest(net, round))| == |Places(net, ids, round)|
    ensures forall k :: 0 <= k < |Places(net, ids, round)| ==>
      Places(net, ids, round)[k] < |ids| && ids[Places(net, ids, round)[k]] == Select(ids, StepTest(net, round))[k]
  {
    if ids != [] {
      var init, last := ids[..|ids| - 1], ids[|ids| - 1];
      SelectPlaces(net, init, round);
      assert StepTest(net, round)(last) <==> Reportable(net, last, round);
      hide StepTest, Reportable;
    }
  }

  /** The step results of a round, or of all: one for every reportable node, in the order they were added. */
  lemma ResultsTell(net: Net, round: int)
    ensures |Results(net, round)| == |Places(net, net.order, round)|
    ensures forall k :: 0 <= k < |Results(net, round)| ==>
      var at := Places(net, net.order, round)[k]; at < |net.order| && Tells(net, net.order[at], Results(net, round)[k])
  {
    SelectPlaces(net, net.order, round);
    hide Places, StepTest;
  }

  ghost function Reporting(net: Net, rounds: nat): seq<nat> {
    if rounds == 0 then []
    else Reporting(net, rounds - 1) + if Results(net, rounds - 1) != [] then [rounds - 1] else []
  }

  /** The rounds that have something to report, in order. */
  lemma {:induction false} ReportingAre(net: Net, rounds: nat)
    ensures forall q :: q in Reporting(net, rounds) <==> 0 <= q < rounds && Results(net, q) != []
    ensures forall a, b :: 0 <= a < b < |Reporting(net, rounds)| ==> Reporting(net, rounds)[a] < Reporting(net, rounds)[b]
  {
    hide Results;
    if rounds > 0 {
      ReportingAre(net, rounds - 1);
      var before := Reporting(net, rounds - 1);
      assert forall a :: 0 <= a < |before| ==> before[a] in before;
    }
  }

  ghost function ResultsAt(net: Net, rounds: seq<nat>): seq<seq<StepResult>> {
    seq(|rounds|, k requires 0 <= k < |rounds| => Results(net, rounds[k]))
  }

  lemma OneMoreAt(net: Net, rounds: seq<nat>, q: nat)
    ensures ResultsAt(net, rounds + [q]) == ResultsAt(net, rounds) + [Results(net, q)]
  {
    hide Results;
  }

  /** The arcs are what those rounds report, in order. */
  lemma {:induction false} ArcsByRound(net: Net, rounds: nat)
    ensures ArcsUpTo(net, rounds) == ResultsAt(net, Reporting(net, rounds))
  {
    if rounds > 0 {
      hide *;
      ArcsByRound(net, rounds - 1);
      NextRound(net, rounds - 1);
      OneMoreAt(net, Reporting(net, rounds - 1), rounds - 1);
    }
  }

  lemma NextRound(net: Net, q: nat)
    ensures Reporting(net, q + 1) == Reporting(net, q) + if Results(net, q) == [] then [] else [q]
    ensures ArcsUpTo(net, q + 1) == ArcsUpTo(net, q) + if Results(net, q) == [] then [] else [Results(net, q)]
  {
    hide Results;
  }

  // ---- What a name finds ----

  ghost predicate Called(net: Net, id: Id, name: string) {
    id in net.nodes && net.nodes[id].task.tag == name && (net.nodes[id].task.kind == Tool || net.nodes[id].task.kind == Compute)
  }

  /** Of the nodes so called, the one added last among the resolved, or among all when none is; nothing when there is none. */
  ghost predicate Found(net: Net, name: string, p: Pick) {
    match p
    case NoPick => name == "" || forall id :: id in net.order ==> !Called(net, id, name)
    case Pick(id) =>
      name != "" && exists k :: LastCalled(net, name, k) && net.order[k] == id
  }

  ghost predicate LastCalled(net: Net, name: string, k: int) {
    && 0 <= k < |net.order| && Called(net, net.order[k], name)
    && (if net.nodes[net.order[k]].state == Resolved then
          forall j :: k < j < |net.order| && Called(net, net.order[j], name) ==> net.nodes[net.order[j]].state != Resolved
        else forall j :: 0 <= j < |net.order| && Called(net, net.order[j], name) ==> j <= k && net.nodes[net.order[j]].state != Resolved)
  }

  lemma {:induction false} LastSuch(ids: seq<Id>, p: Id -> bool) returns (k: nat)
    requires exists j :: 0 <= j < |ids| && p(ids[j])
    ensures k < |ids| && p(ids[k]) && forall j :: k < j < |ids| ==> !p(ids[j])
  {
    if p(ids[|ids| - 1]) {
      k := |ids| - 1;
    } else {
      var init := ids[..|ids| - 1];
      var j :| 0 <= j < |ids| && p(ids[j]);
      assert init[j] == ids[j];
      k := LastSuch(init, p);
      assert forall j :: k < j < |init| ==> init[j] == ids[j];
    }
  }

  lemma CalledIs(net: Net, name: string)
    ensures forall id :: ByName(net, name)(id) <==> Called(net, id, name)
    ensures forall id :: ByNameResolved(net, name)(id) <==> Called(net, id, name) && net.nodes[id].state == Resolved
    ensures forall id :: NamedResolved(net, name, id) <==> ByNameResolved(net, name)(id)
  {}

  ghost predicate PassesLast(net: Net, p: Id -> bool, k: int) {
    0 <= k < |net.order| && p(net.order[k]) && forall j :: k < j < |net.order| ==> !p(net.order[j])
  }

  /** The place a name leads to: that of the last resolved step so called, or of the last so called when none resolved. */
  lemma LastPlace(net: Net, name: string) returns (k: nat)
    requires exists j :: 0 <= j < |net.order| && Called(net, net.order[j], name)
    ensures LastCalled(net, name, k)
    ensures PassesLast(net, if Resolvable(net, name) then ByNameResolved(net, name) else ByName(net, name), k)
  {
    CalledIs(net, name);
    hide ByName, ByNameResolved, Called, NamedResolved;
    if Resolvable(net, name) {
      k := LastSuch(net.order, ByNameResolved(net, name));
      assert PassesLast(net, ByNameResolved(net, name), k);
    } else {
      k := LastSuch(net.order, ByName(net, name));
      assert PassesLast(net, ByName(net, name), k);
      assert forall j :: 0 <= j < |net.order| ==> !ByNameResolved(net, name)(net.order[j]);
    }
  }

  /** In every run a name finds that node, and nothing only when there is none. */
  lemma FinishedFinds(nets: seq<Net>, events: seq<Event>, i: nat, name: string)
    requires History(nets, events) && i < |nets|
    ensures Found(nets[i], name, Finished(nets[i], name))
  {
    var net := nets[i];
    if name != "" && exists j :: 0 <= j < |net.order| && Called(net, net.order[j], name) {
      hide *;
      var k := LastPlace(net, name);
      PlaceInside(net, name, k);
      FinishedIsLast(nets, events, i, name, k);
      FoundAt(net, name, k);
    } else {
      NoneCalled(net, name);
    }
  }

  lemma PlaceInside(net: Net, name: string, k: nat)
    requires LastCalled(net, name, k)
    ensures k < |net.order|
  {}

  lemma FoundAt(net: Net, name: string, k: nat)
    requires name != "" && LastCalled(net, name, k)
    ensures Found(net, name, Pick(net.order[k]))
  {
    hide LastCalled;
  }

  lemma NoneCalled(net: Net, name: string)
    requires name == "" || !exists j :: 0 <= j < |net.order| && Called(net, net.order[j], name)
    ensures Found(net, name, Finished(net, name))
  {
    CalledIs(net, name);
    hide ByName, ByNameResolved, Newest, Called;
    if name != "" {
      forall id | id in net.order ensures !Called(net, id, name) {
        var j :| 0 <= j < |net.order| && net.order[j] == id;
      }
    }
  }
}
