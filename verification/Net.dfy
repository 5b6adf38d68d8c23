/** The run's dependency graph as a value: nodes by id, the order they were added, the planning round. */
module Nets {
  import opened Decimal
  import opened Digraph
  import opened Values

  type Id = string

  datatype Kind =
    | Tool | Compute | Executive | MicroPlanner | Aggregator | Actuator | Reflection
    | Observer | Interjection | Holmes | Chat | GroupReview

  datatype NodeState = Pending | Running | Resolved | Failed | Skipped

  predicate Terminal(s: NodeState) {
    s == Resolved || s == Failed || s == Skipped
  }

  /** A node's typed output: what it returns for a field path, "" being all of it. */
  datatype Body = NoBody | Body(fields: map<string, Val>)

  /** What a node is there to do. */
  datatype Task = Task(kind: Kind, tool: string, tag: string, source: string, spawnedBy: Id, params: Val, addresses: seq<Id>)

  /** What it produced: its text, its typed output, its error. */
  datatype Outcome = Outcome(result: Text, body: Body, err: string)

  datatype Info = Info(
    task: Task, outcome: Outcome, state: NodeState, round: nat,
    deps: seq<Id>, children: seq<Id>, runGrafted: bool, superseded: bool)

  datatype Net = Net(nodes: map<Id, Info>, order: seq<Id>, round: nat)

  function NodeName(k: nat): Id {
    "n" + Numeral(k)
  }

  lemma NodeNameInjective(a: nat, b: nat)
    requires NodeName(a) == NodeName(b)
    ensures a == b
  {
    assert NodeName(a)[1..] == Numeral(a) && NodeName(b)[1..] == Numeral(b);
    NumeralInjective(a, b);
  }

  /** Ids are numbered in the order nodes were added, and no node is ever lost. */
  ghost predicate NetOk(net: Net) {
    && (forall i :: 0 <= i < |net.order| ==> net.order[i] == NodeName(i + 1))
    && (forall id :: id in net.nodes <==> id in net.order)
  }

  const EMPTY: Net := Net(map[], [], 0)

  // ---- Reading the graph ----

  function IdSet(ids: seq<Id>): set<Id> {
    set id | id in ids
  }

  /** A position at which a listed id stands. */
  ghost function PlaceOf(ids: seq<Id>, id: Id): (k: int)
    ensures id in ids ==> 0 <= k < |ids| && ids[k] == id
  {
    if id in ids then var k :| 0 <= k < |ids| && ids[k] == id; k else -1
  }

  function Select(ids: seq<Id>, p: Id -> bool): (r: seq<Id>)
    ensures forall id :: id in r <==> id in ids && p(id)
  {
    if ids == [] then []
    else
      assert ids == ids[..|ids| - 1] + [ids[|ids| - 1]];
      Select(ids[..|ids| - 1], p) + (if p(ids[|ids| - 1]) then [ids[|ids| - 1]] else [])
  }

  lemma SelectNext(ids: seq<Id>, i: nat, p: Id -> bool)
    requires i < |ids|
    ensures Select(ids[..i + 1], p) == Select(ids[..i], p) + if p(ids[i]) then [ids[i]] else []
  {
    assert ids[..i + 1][..i] == ids[..i];
  }

  predicate IsPending(net: Net, id: Id) {
    id in net.nodes && net.nodes[id].state == Pending
  }

  predicate Done(net: Net, id: Id) {
    id in net.nodes && Terminal(net.nodes[id].state)
  }

  predicate IsReady(net: Net, id: Id) {
    IsPending(net, id) && forall d :: d in net.nodes[id].deps ==> Done(net, d)
  }

  function ReadyIds(net: Net): seq<Id> {
    Select(net.order, id => IsReady(net, id))
  }

  predicate IsOpenFailure(net: Net, id: Id) {
    id in net.nodes && net.nodes[id].state == Failed && !net.nodes[id].superseded
  }

  function FailedIds(net: Net): seq<Id> {
    Select(net.order, id => IsOpenFailure(net, id))
  }

  predicate AllDone(net: Net) {
    forall id :: id in net.nodes ==> Terminal(net.nodes[id].state)
  }

  /** Who waits for whom: an edge from every node to each of its dependencies. */
  ghost function Waits(net: Net): set<(Id, Id)> {
    set id, d | id in net.nodes && d in net.nodes[id].deps :: (id, d)
  }

  // ---- Changing it ----

  /** The same change applied to every node of a set. */
  function Updated(net: Net, f: (Id, Info) -> Info, ids: set<Id>): Net {
    net.(nodes := map id | id in net.nodes :: if id in ids then f(id, net.nodes[id]) else net.nodes[id])
  }

  /** The nodes a change actually changes. */
  ghost function Changed(net: Net, f: (Id, Info) -> Info, ids: set<Id>): set<Id> {
    set id | id in ids && id in net.nodes && f(id, net.nodes[id]) != net.nodes[id]
  }

  /** Dealing with one more node of those still to do. */
  lemma UpdateOne(net: Net, f: (Id, Info) -> Info, todo: set<Id>, id: Id)
    requires id in todo && todo <= net.nodes.Keys
    ensures var part := Updated(net, f, net.nodes.Keys - todo);
      && part.nodes[id] == net.nodes[id]
      && WithInfo(part, id, f(id, net.nodes[id])) == Updated(net, f, net.nodes.Keys - (todo - {id}))
    ensures Changed(net, f, net.nodes.Keys - (todo - {id}))
      == Changed(net, f, net.nodes.Keys - todo) + if f(id, net.nodes[id]) != net.nodes[id] then {id} else {}
    ensures |Changed(net, f, net.nodes.Keys - (todo - {id}))|
      == |Changed(net, f, net.nodes.Keys - todo)| + if f(id, net.nodes[id]) != net.nodes[id] then 1 else 0
  {
    var part := Updated(net, f, net.nodes.Keys - todo);
    assert part.nodes[id := f(id, net.nodes[id])] == Updated(net, f, net.nodes.Keys - (todo - {id})).nodes;
    assert Changed(net, f, net.nodes.Keys - (todo - {id}))
      == Changed(net, f, net.nodes.Keys - todo) + if f(id, net.nodes[id]) != net.nodes[id] then {id} else {};
  }

  lemma UpdateNone(net: Net, f: (Id, Info) -> Info)
    ensures Updated(net, f, net.nodes.Keys - net.nodes.Keys) == net
    ensures Changed(net, f, net.nodes.Keys - net.nodes.Keys) == {}
  {
    assert Updated(net, f, net.nodes.Keys - net.nodes.Keys).nodes == net.nodes;
  }

  /** A change to nodes keeps the graph well formed. */
  lemma UpdateOk(net: Net, f: (Id, Info) -> Info, ids: set<Id>)
    requires NetOk(net)
    ensures NetOk(Updated(net, f, ids))
  {}

  function WithNode(net: Net, info: Info): Net {
    var id := NodeName(|net.order| + 1);
    Net(net.nodes[id := info.(state := Pending, round := net.round)], net.order + [id], net.round)
  }

  lemma FreshName(net: Net)
    requires NetOk(net)
    ensures NodeName(|net.order| + 1) !in net.nodes
  {
    var id := NodeName(|net.order| + 1);
    forall i | 0 <= i < |net.order| ensures net.order[i] != id {
      if net.order[i] == id { NodeNameInjective(i + 1, |net.order| + 1); }
    }
  }

  lemma OrderDistinct(net: Net, i: nat, j: nat)
    requires NetOk(net) && i < j < |net.order|
    ensures net.order[i] != net.order[j]
  {
    if net.order[i] == net.order[j] { NodeNameInjective(i + 1, j + 1); }
  }

  lemma WithNodeOk(net: Net, info: Info)
    requires NetOk(net)
    ensures NetOk(WithNode(net, info))
  {
    FreshName(net);
    var net' := WithNode(net, info);
    forall i | 0 <= i < |net.order| ensures net'.order[i] == net.order[i] && net'.nodes[net.order[i]] == net.nodes[net.order[i]] {
      assert net.order[i] in net.nodes;
    }
  }

  function NewInfo(task: Task, deps: seq<Id>): Info {
    Info(task, Outcome([], NoBody, ""), Pending, 0, deps, [], false, false)
  }

  function WithInfo(net: Net, id: Id, info: Info): Net {
    net.(nodes := net.nodes[id := info])
  }

  function Wire(info: Info, params: Val, deps: seq<Id>): Info {
    info.(task := info.task.(params := params), deps := deps)
  }

  lemma InfoOk(net: Net, id: Id, info: Info)
    requires NetOk(net) && id in net.nodes
    ensures NetOk(WithInfo(net, id, info))
  {}

  lemma SameInfo(net: Net, id: Id)
    requires id in net.nodes
    ensures WithInfo(net, id, net.nodes[id]) == net
  {
    assert WithInfo(net, id, net.nodes[id]).nodes == net.nodes;
  }

  function WithState(net: Net, id: Id, s: NodeState): Net {
    if id in net.nodes then net.(nodes := net.nodes[id := net.nodes[id].(state := s)]) else net
  }

  function WithChild(net: Net, parent: Id, child: Id): Net {
    if parent in net.nodes then
      net.(nodes := net.nodes[parent := net.nodes[parent].(children := net.nodes[parent].children + [child])])
    else net
  }

  function Skip(id: Id, info: Info): Info {
    info.(state := Skipped)
  }

  function PendingIds(net: Net, ids: set<Id>): set<Id> {
    set id | id in ids && IsPending(net, id)
  }

  lemma PendingOne(net: Net, todo: set<Id>, id: Id)
    requires id in todo && todo <= net.nodes.Keys
    ensures var before, after := PendingIds(net, net.nodes.Keys - todo), PendingIds(net, net.nodes.Keys - (todo - {id}));
      && Updated(net, Skip, before).nodes[id] == net.nodes[id]
      && IsPending(Updated(net, Skip, before), id) == IsPending(net, id)
      && |after| == |before| + (if IsPending(net, id) then 1 else 0)
      && Updated(net, Skip, after) == if IsPending(net, id)
        then WithInfo(Updated(net, Skip, before), id, net.nodes[id].(state := Skipped)) else Updated(net, Skip, before)
  {
    var before, after := PendingIds(net, net.nodes.Keys - todo), PendingIds(net, net.nodes.Keys - (todo - {id}));
    if IsPending(net, id) {
      assert after == before + {id};
      assert Updated(net, Skip, after).nodes == Updated(net, Skip, before).nodes[id := net.nodes[id].(state := Skipped)];
    } else {
      assert after == before;
    }
  }

  lemma PendingNone(net: Net)
    ensures PendingIds(net, net.nodes.Keys - net.nodes.Keys) == {} && Updated(net, Skip, {}) == net
  {
    assert Updated(net, Skip, {}).nodes == net.nodes;
  }

  function TagOf(net: Net, id: Id): string {
    if id in net.nodes then net.nodes[id].task.tag else ""
  }

  function TagsOf(net: Net, ids: seq<Id>): seq<string> {
    seq(|ids|, i requires 0 <= i < |ids| => TagOf(net, ids[i]))
  }

  lemma TagsNext(net: Net, s: set<Id>, ids: seq<Id>, id: Id)
    requires id in net.nodes
    ensures TagsOf(net, ids + [id]) == TagsOf(net, ids) + [Updated(net, Skip, s).nodes[id].task.tag]
  {}

  /** GatePending: every pending node except the gate waits for the gate too. */
  function Gate(gate: Id): (Id, Info) -> Info {
    (id: Id, info: Info) =>
      if info.state == Pending && id != gate && gate !in info.deps then info.(deps := info.deps + [gate]) else info
  }

  function Gated(net: Net, gate: Id): Net {
    Updated(net, Gate(gate), net.nodes.Keys)
  }

  /** The new ids a node still lacks, in order, each once. */
  function Missing(deps: seq<Id>, newIds: seq<Id>): (r: seq<Id>)
    ensures forall d :: d in r <==> d in newIds && d !in deps
    decreases newIds
  {
    if newIds == [] then []
    else if newIds[0] in deps then Missing(deps, newIds[1..])
    else [newIds[0]] + Missing(deps + [newIds[0]], newIds[1..])
  }

  predicate WaitsOnAny(info: Info, after: set<Id>) {
    exists d :: d in info.deps && d in after
  }

  /** AlsoWaitFor: every pending node that waits on one of `after` waits for all the new nodes too. */
  function AlsoWait(after: set<Id>, newIds: seq<Id>): (Id, Info) -> Info {
    (id: Id, info: Info) =>
      if info.state == Pending && id !in newIds && WaitsOnAny(info, after)
      then info.(deps := info.deps + Missing(info.deps, newIds)) else info
  }

  function AlsoWaited(net: Net, after: set<Id>, newIds: seq<Id>): Net {
    Updated(net, AlsoWait(after, newIds), net.nodes.Keys)
  }

  /** A ${node.<parent>.<field>…} reference in the parameters. */
  predicate Reads(params: Val, parent: Id, field: string) {
    exists r :: r in RefsOf(params) && r.Ref? && r.kind == NodeRef && r.name == parent && r.path != "" && FirstSegment(r.path) == field
  }

  function FirstSegment(path: string): string {
    if path == "" || path[0] == '.' then "" else [path[0]] + FirstSegment(path[1..])
  }

  /** WaitAlsoOn: every pending node that depends on `parent` and reads its late field waits for `child` too. */
  function WaitLate(parent: Id, child: Id, field: string): (Id, Info) -> Info {
    (id: Id, info: Info) =>
      if id != child && info.state == Pending && parent in info.deps && child !in info.deps && Reads(info.task.params, parent, field)
      then info.(deps := info.deps + [child]) else info
  }

  function WaitedLate(net: Net, parent: Id, child: Id, field: string): Net {
    Updated(net, WaitLate(parent, child, field), net.nodes.Keys)
  }

  /** rewriteDependentsMultiExcluding: the first mention of `old` gives way to the replacements. */
  function Replaced(deps: seq<Id>, gone: Id, repl: seq<Id>): (r: seq<Id>)
    ensures forall d :: d in deps && d != gone ==> d in r
    ensures gone in deps ==> forall d :: d in repl ==> d in r
    ensures forall d :: d in r ==> d in deps || d in repl
  {
    if deps == [] then []
    else if deps[0] == gone then repl + deps[1..]
    else [deps[0]] + Replaced(deps[1..], gone, repl)
  }

  function Redirect(gone: Id, repl: seq<Id>): (Id, Info) -> Info {
    (id: Id, info: Info) =>
      if info.state == Pending && id !in repl then info.(deps := Replaced(info.deps, gone, repl)) else info
  }

  function Redirected(net: Net, gone: Id, repl: seq<Id>): Net {
    Updated(net, Redirect(gone, repl), net.nodes.Keys)
  }

  // ---- Pruning ----

  /** The waits of nodes that are still pending. */
  ghost function PendingWaits(net: Net): set<(Id, Id)> {
    set e | e in Waits(net) && IsPending(net, e.0)
  }

  /** The pending nodes from which a chain of pending nodes, each waiting for the next, leads to root. */
  ghost function Doomed(net: Net, root: Id): set<Id> {
    set id | id in net.nodes && IsPending(net, id) && Leads(PendingWaits(net), id, root)
  }

  ghost function Pruned(net: Net, root: Id): Net {
    Updated(net, Skip, Doomed(net, root))
  }

  /** A set that holds every pending node waiting for root or for a member. */
  ghost predicate SkipsAll(net: Net, root: Id, s: set<Id>) {
    forall id, d :: (id, d) in PendingWaits(net) && (d == root || d in s) ==> id in s
  }

  lemma DoomedClosed(net: Net, root: Id)
    ensures SkipsAll(net, root, Doomed(net, root))
  {
    forall id, d | (id, d) in PendingWaits(net) && (d == root || d in Doomed(net, root))
      ensures id in Doomed(net, root)
    {
      if d == root { EdgeLeads(PendingWaits(net), id, d); } else {
        LeadsReaches(PendingWaits(net), d, root);
        StepThenReach(PendingWaits(net), id, d, root);
      }
    }
  }

  /** The doomed nodes are the least such set. */
  lemma DoomedLeast(net: Net, root: Id, s: set<Id>)
    requires SkipsAll(net, root, s)
    ensures Doomed(net, root) <= s
  {
    forall id | id in Doomed(net, root) ensures id in s {
      var p :| Walk(PendingWaits(net), id, root, p) && |p| >= 2;
      DoomedWalk(net, root, s, id, p);
    }
  }

  lemma {:induction false} DoomedWalk(net: Net, root: Id, s: set<Id>, id: Id, p: seq<Id>)
    requires SkipsAll(net, root, s) && Walk(PendingWaits(net), id, root, p) && |p| >= 2
    ensures id in s
    decreases |p|
  {
    assert (p[0], p[1]) in PendingWaits(net);
    if |p| > 2 {
      assert Walk(PendingWaits(net), p[1], root, p[1..]);
      DoomedWalk(net, root, s, p[1], p[1..]);
    }
  }

  // ---- Failures that a debugger has fixed ----

  predicate Validator(task: Task) {
    task.source == "builtin" && ("revalidate_" <= task.tag || "verify_" <= task.tag)
  }

  /** The debugger's children are all terminal, one of them is a real fix, and no real fix failed. */
  predicate FixLanded(net: Net, dbg: Id) {
    && dbg in net.nodes
    && net.nodes[dbg].task.kind == MicroPlanner
    && net.nodes[dbg].task.addresses != [] && net.nodes[dbg].children != []
    && (forall c :: c in net.nodes[dbg].children && c in net.nodes ==>
      Terminal(net.nodes[c].state) && !FailedFix(net, c))
    && (exists c :: c in net.nodes[dbg].children && RealFix(net, c))
  }

  predicate RealFix(net: Net, c: Id) {
    c in net.nodes && !Validator(net.nodes[c].task)
  }

  /** The open failures that a debugger whose fix landed was sent to address. */
  ghost function FixedFailures(net: Net): set<Id> {
    set f | f in net.nodes && IsOpenFailure(net, f) && Addressed(net, f)
  }

  ghost predicate Addressed(net: Net, f: Id) {
    exists d :: d in net.nodes && FixLanded(net, d) && f in net.nodes[d].task.addresses
  }

  ghost predicate Addresses(net: Net, d: Id, f: Id) {
    d in net.nodes && f in net.nodes[d].task.addresses
  }

  /** One of the debuggers addresses the failure. */
  ghost predicate AnnouncedBy(net: Net, fixed: seq<Id>, f: Id) {
    exists d :: d in fixed && Addresses(net, d, f)
  }

  /** The i-th debugger addresses a failure of the set that none before it addresses. */
  ghost predicate FixesAnother(net: Net, fixed: seq<Id>, i: nat, fs: set<Id>)
    requires i < |fixed|
  {
    exists f :: f in fs && Addresses(net, fixed[i], f) && !AnnouncedBy(net, fixed[..i], f)
  }

  /** Then no debugger occurs twice. */
  lemma AnnouncedOnce(net: Net, fixed: seq<Id>, fs: set<Id>, i: nat, j: nat)
    requires forall k :: 0 <= k < |fixed| ==> FixesAnother(net, fixed, k, fs)
    requires i < j < |fixed|
    ensures fixed[i] != fixed[j]
  {
    assert FixesAnother(net, fixed, j, fs);
    assert fixed[..j][i] == fixed[i];
  }

  predicate FailedFix(net: Net, c: Id) {
    c in net.nodes && !Validator(net.nodes[c].task) && net.nodes[c].state == Failed
  }

  ghost function OpenAddresses(net: Net, addresses: seq<Id>): set<Id> {
    set f | f in addresses && IsOpenFailure(net, f)
  }

  function MarkFixed(id: Id, info: Info): Info {
    info.(superseded := true)
  }

  ghost function Superseded(net: Net): Net {
    Updated(net, MarkFixed, FixedFailures(net))
  }

  lemma OpenNow(net: Net, m: set<Id>, f: Id)
    ensures IsOpenFailure(Updated(net, MarkFixed, m), f) <==> IsOpenFailure(net, f) && f !in m
  {}

  lemma MarksDontMatter(net: Net, ids: set<Id>, d: Id)
    ensures FixLanded(Updated(net, MarkFixed, ids), d) == FixLanded(net, d)
  {
    var net' := Updated(net, MarkFixed, ids);
    assert net'.nodes.Keys == net.nodes.Keys;
    if FixLanded(net, d) {
      var c :| c in net.nodes[d].children && RealFix(net, c);
      assert c in net'.nodes[d].children && RealFix(net', c);
    }
  }

  /** A second call right after the first marks nothing. */
  lemma SupersedeIdempotent(net: Net)
    ensures FixedFailures(Superseded(net)) == {}
    ensures Superseded(Superseded(net)) == Superseded(net)
  {
    var net' := Superseded(net);
    forall f | f in net'.nodes && IsOpenFailure(net', f) ensures !Addressed(net', f) {
      forall d | d in net'.nodes && FixLanded(net', d) ensures f !in net'.nodes[d].task.addresses {
        MarksDontMatter(net, FixedFailures(net), d);
        assert IsOpenFailure(net, f) && f !in FixedFailures(net);
      }
    }
    assert FixedFailures(net') == {};
    assert Superseded(net').nodes == net'.nodes;
  }

  lemma {:induction false} SelectSplit(ids: seq<Id>, p: Id -> bool, q: Id -> bool, s: set<Id>)
    requires forall i, j :: 0 <= i < j < |ids| ==> ids[i] != ids[j]
    requires forall id :: id in ids ==> (q(id) <==> p(id) && id !in s)
    requires forall id :: id in s ==> id in ids && p(id)
    ensures |Select(ids, p)| == |Select(ids, q)| + |s|
    decreases |ids|
  {
    if ids != [] {
      var last, init := ids[|ids| - 1], ids[..|ids| - 1];
      assert ids == init + [last];
      SelectSplit(init, p, q, s - {last});
      if last !in s { assert s - {last} == s; }
    } else {
      forall x ensures x !in s {}
      assert s == {};
    }
  }

  /** One call shortens the list of open failures by exactly the number it marks. */
  lemma SupersedeConserves(net: Net)
    requires NetOk(net)
    ensures |FailedIds(net)| == |FailedIds(Superseded(net))| + |FixedFailures(net)|
  {
    var net' := Superseded(net);
    forall i, j | 0 <= i < j < |net.order| ensures net.order[i] != net.order[j] { OrderDistinct(net, i, j); }
    SelectSplit(net.order, id => IsOpenFailure(net, id), id => IsOpenFailure(net', id), FixedFailures(net));
  }

  // ---- Finding a finished step by name ----

  predicate Named(net: Net, name: string, id: Id) {
    && id in net.nodes && net.nodes[id].task.tag == name
    && (net.nodes[id].task.kind == Tool || net.nodes[id].task.kind == Compute)
  }

  predicate NamedResolved(net: Net, name: string, id: Id) {
    Named(net, name, id) && net.nodes[id].state == Resolved
  }

  function ByName(net: Net, name: string): Id -> bool {
    (id: Id) => Named(net, name, id)
  }

  function ByNameResolved(net: Net, name: string): Id -> bool {
    (id: Id) => NamedResolved(net, name, id)
  }

  datatype Pick = NoPick | Pick(id: Id)

  function Newer(net: Net, best: Pick, id: Id, ok: bool): Pick
    requires ok ==> id in net.nodes
    requires best.Pick? ==> best.id in net.nodes
  {
    if ok && (best.NoPick? || net.nodes[id].round >= net.nodes[best.id].round) then Pick(id) else best
  }

  lemma NewestNext(net: Net, ids: seq<Id>, k: nat, p: Id -> bool)
    requires k < |ids| && forall id :: id in ids && p(id) ==> id in net.nodes
    ensures Newest(net, ids[..k + 1], p) == Newer(net, Newest(net, ids[..k], p), ids[k], p(ids[k]))
  {
    assert ids[..k + 1][..k] == ids[..k];
    assert ids[k] in ids;
  }

  /** The newest of the given nodes that satisfies p: highest round, and the last of those. */
  function Newest(net: Net, ids: seq<Id>, p: Id -> bool): (r: Pick)
    requires forall id :: id in ids && p(id) ==> id in net.nodes
    ensures r.Pick? ==> r.id in ids && p(r.id)
    ensures r.NoPick? ==> forall id :: id in ids ==> !p(id)
  {
    if ids == [] then NoPick
    else
      var last, init := ids[|ids| - 1], ids[..|ids| - 1];
      assert ids == init + [last];
      Newer(net, Newest(net, init, p), last, p(last))
  }

  /** FinishedStep: the newest resolved step of that name, else the newest of that name, else nothing. */
  function Finished(net: Net, name: string): Pick {
    if name == "" then NoPick
    else
      var resolved := Newest(net, net.order, ByNameResolved(net, name));
      if resolved.Pick? then resolved else Newest(net, net.order, ByName(net, name))
  }
}
