/** Which of an architect's ordering requests between its tasks can be honoured (agent/architect_graft.go). */
module TaskDeps {
  import opened Digraph

  type Edge = (int, int)  // (from, to): task `from` waits for task `to`

  /** One sentence per request that is not honoured. */
  datatype Refusal =
    | OnItself(task: int)
    | NoSuchTask(task: int, named: int)
    | NoNode(task: int, named: int)
    | AlreadyWaits(task: int, named: int)

  datatype Verdict = Keep | Drop(why: Refusal)

  predicate LiveAt(live: seq<bool>, i: int) {
    0 <= i < |live| && live[i]
  }

  function EdgeSet(edges: seq<Edge>): set<Edge> {
    set e | e in edges
  }

  ghost function Judge(n: nat, live: seq<bool>, kept: set<Edge>, request: Edge): Verdict {
    var (i, j) := request;
    if j == i then Drop(OnItself(i))
    else if j < 0 || j >= n then Drop(NoSuchTask(i, j))
    else if !LiveAt(live, j) then Drop(NoNode(i, j))
    else if Reaches(kept, j, i) then Drop(AlreadyWaits(i, j))
    else Keep
  }

  // ---- The requests, in the order they are taken, and what is decided about each ----

  function Asked(i: int, deps: seq<int>): seq<Edge> {
    seq(|deps|, k requires 0 <= k < |deps| => (i, deps[k]))
  }

  function Requests(deps: seq<seq<int>>, live: seq<bool>, n: nat): seq<Edge>
    requires n <= |deps|
  {
    if n == 0 then []
    else Requests(deps, live, n - 1) + (if LiveAt(live, n - 1) then Asked(n - 1, deps[n - 1]) else [])
  }

  ghost function Kept(n: nat, live: seq<bool>, requests: seq<Edge>): (edges: seq<Edge>)
  {
    if requests == [] then []
    else
      var r := requests[|requests| - 1];
      var kept := Kept(n, live, requests[..|requests| - 1]);
      if Judge(n, live, EdgeSet(kept), r).Keep? then kept + [r] else kept
  }

  ghost function Dropped(n: nat, live: seq<bool>, requests: seq<Edge>): (dropped: seq<Refusal>)
  {
    if requests == [] then []
    else
      var r := requests[|requests| - 1];
      var before := requests[..|requests| - 1];
      match Judge(n, live, EdgeSet(Kept(n, live, before)), r)
      case Keep => Dropped(n, live, before)
      case Drop(why) => Dropped(n, live, before) + [why]
  }

  // ---- The stack search ----

  ghost function MatrixEdges(follows: array2<bool>): set<Edge>
    reads follows
  {
    set a, b | 0 <= a < follows.Length0 && 0 <= b < follows.Length1 && follows[a, b] :: (a, b)
  }

  method Search(follows: array2<bool>, from: int, to: int) returns (found: bool)
    requires follows.Length0 == follows.Length1 && 0 <= from < follows.Length0
    ensures found <==> Reaches(MatrixEdges(follows), from, to)
  {
    var n := follows.Length0;
    ghost var e := MatrixEdges(follows);
    var seen := new bool[n](_ => false);
    ghost var unseen := set x: int | 0 <= x < n && !seen[x];
    var stack := [from];
    ReachesRefl(e, from);
    while |stack| > 0
      invariant e == MatrixEdges(follows)
      invariant forall x :: x in stack ==> 0 <= x < n && Reaches(e, from, x)
      invariant forall x :: 0 <= x < n ==> (x in unseen <==> !seen[x])
      invariant from in stack || seen[from]
      invariant 0 <= to < n ==> !seen[to]
      invariant forall x, y :: 0 <= x < n && seen[x] && (x, y) in e ==> y in stack || seen[y]
      decreases |unseen|, |stack|
    {
      var cur := stack[|stack| - 1];
      ghost var whole := stack;
      assert cur in whole;
      stack := stack[..|stack| - 1];
      forall x | x in whole ensures x == cur || x in stack {}
      forall x | x in stack ensures x in whole {}
      if cur == to { return true; }
      if seen[cur] { continue; }
      seen[cur] := true;
      unseen := unseen - {cur};
      stack := PushAll(follows, from, cur, stack);
    }
    if Reaches(e, from, to) {
      ghost var p :| Walk(e, from, to, p);
      ghost var closed := set x: int | 0 <= x < n && seen[x];
      StaysIn(e, closed, from, to, p);
    }
    return false;
  }

  method PushAll(follows: array2<bool>, ghost from: int, cur: int, stack0: seq<int>) returns (stack: seq<int>)
    requires follows.Length0 == follows.Length1 && 0 <= cur < follows.Length0
    requires Reaches(MatrixEdges(follows), from, cur)
    requires forall x :: x in stack0 ==> 0 <= x < follows.Length0 && Reaches(MatrixEdges(follows), from, x)
    ensures forall x :: x in stack <==> x in stack0 || (cur, x) in MatrixEdges(follows)
    ensures forall x :: x in stack ==> 0 <= x < follows.Length0 && Reaches(MatrixEdges(follows), from, x)
  {
    stack := stack0;
    for next := 0 to follows.Length0
      invariant forall x :: x in stack <==> x in stack0 || (0 <= x < next && follows[cur, x])
      invariant forall x :: x in stack ==> 0 <= x < follows.Length0 && Reaches(MatrixEdges(follows), from, x)
    {
      if follows[cur, next] {
        EdgeLeads(MatrixEdges(follows), cur, next);
        LeadsReaches(MatrixEdges(follows), cur, next);
        ReachTransitive(MatrixEdges(follows), from, cur, next);
        stack := stack + [next];
      }
    }
  }

  // ---- The resolver ----

  /** agent/architect_graft.go, resolveTaskDeps. */
  method Resolve(deps: seq<seq<int>>, live: seq<bool>) returns (edges: seq<Edge>, dropped: seq<Refusal>)
    ensures edges == Kept(|deps|, live, Requests(deps, live, |deps|))
    ensures dropped == Dropped(|deps|, live, Requests(deps, live, |deps|))
  {
    var n := |deps|;
    var follows := new bool[n, n]((_, _) => false);
    edges, dropped := [], [];
    for i := 0 to n
      invariant edges == Kept(n, live, Requests(deps, live, i))
      invariant dropped == Dropped(n, live, Requests(deps, live, i))
      invariant MatrixEdges(follows) == EdgeSet(edges)
    {
      if i >= |live| || !live[i] {
        assert Requests(deps, live, i + 1) == Requests(deps, live, i);
        continue;
      }
      edges, dropped := ResolveTask(follows, live, i, deps[i], Requests(deps, live, i), edges, dropped);
    }
  }

  /** The requests of one live task, taken in order. */
  method ResolveTask(follows: array2<bool>, live: seq<bool>, i: int, deps: seq<int>, ghost before: seq<Edge>,
                     edges0: seq<Edge>, dropped0: seq<Refusal>)
    returns (edges: seq<Edge>, dropped: seq<Refusal>)
    requires follows.Length0 == follows.Length1 && 0 <= i < follows.Length0
    requires edges0 == Kept(follows.Length0, live, before) && dropped0 == Dropped(follows.Length0, live, before)
    requires MatrixEdges(follows) == EdgeSet(edges0)
    modifies follows
    ensures edges == Kept(follows.Length0, live, before + Asked(i, deps))
    ensures dropped == Dropped(follows.Length0, live, before + Asked(i, deps))
    ensures MatrixEdges(follows) == EdgeSet(edges)
  {
    edges, dropped := edges0, dropped0;
    assert before + Asked(i, deps[..0]) == before;
    for k := 0 to |deps|
      invariant edges == Kept(follows.Length0, live, before + Asked(i, deps[..k]))
      invariant dropped == Dropped(follows.Length0, live, before + Asked(i, deps[..k]))
      invariant MatrixEdges(follows) == EdgeSet(edges)
    {
      NextRequest(before, i, deps, k);
      var verdict := Decide(follows, live, i, deps[k]);
      match verdict
      case Drop(why) =>
        dropped := dropped + [why];
      case Keep =>
        Follow(follows, i, deps[k]);
        edges := edges + [(i, deps[k])];
    }
    assert deps[..|deps|] == deps;
  }

  method Follow(follows: array2<bool>, i: int, j: int)
    requires 0 <= i < follows.Length0 && 0 <= j < follows.Length1
    modifies follows
    ensures MatrixEdges(follows) == old(MatrixEdges(follows)) + {(i, j)}
  {
    follows[i, j] := true;
  }

  method Decide(follows: array2<bool>, live: seq<bool>, i: int, j: int) returns (verdict: Verdict)
    requires follows.Length0 == follows.Length1 && 0 <= i < follows.Length0
    ensures verdict == Judge(follows.Length0, live, MatrixEdges(follows), (i, j))
  {
    if j == i { return Drop(OnItself(i)); }
    if j < 0 || j >= follows.Length0 { return Drop(NoSuchTask(i, j)); }
    if j >= |live| || !live[j] { return Drop(NoNode(i, j)); }
    var closes := Search(follows, j, i);
    return if closes then Drop(AlreadyWaits(i, j)) else Keep;
  }

  lemma NextRequest(before: seq<Edge>, i: int, deps: seq<int>, k: nat)
    requires k < |deps|
    ensures var rs := before + Asked(i, deps[..k + 1]);
            rs[|rs| - 1] == (i, deps[k]) && rs[..|rs| - 1] == before + Asked(i, deps[..k])
  {}

  // ---- What the decisions amount to ----

  predicate WellFormed(n: nat, live: seq<bool>, r: Edge) {
    r.0 != r.1 && 0 <= r.1 < n && LiveAt(live, r.1)
  }

  lemma {:induction false} KeptAreRequests(n: nat, live: seq<bool>, rs: seq<Edge>)
    ensures forall e :: e in Kept(n, live, rs) ==> e in rs && WellFormed(n, live, e)
  {
    if rs != [] { KeptAreRequests(n, live, rs[..|rs| - 1]); }
  }

  /** The edges honoured never form a cycle. */
  lemma {:induction false} KeptAcyclic(n: nat, live: seq<bool>, rs: seq<Edge>)
    ensures Acyclic(EdgeSet(Kept(n, live, rs)))
  {
    if rs == [] {
      RankedAcyclic(EdgeSet(Kept(n, live, rs)), (x: int) => 0);
    } else {
      var before := rs[..|rs| - 1];
      var kept, r := EdgeSet(Kept(n, live, before)), rs[|rs| - 1];
      KeptAcyclic(n, live, before);
      if Judge(n, live, kept, r).Keep? {
        FanAcyclic(kept, {r.0}, {r.1});
        assert EdgeSet(Kept(n, live, rs)) == kept + Fan({r.0}, {r.1});
      }
    }
  }

  lemma {:induction false} KeptGrows(n: nat, live: seq<bool>, rs: seq<Edge>, k: nat)
    requires k <= |rs|
    ensures EdgeSet(Kept(n, live, rs[..k])) <= EdgeSet(Kept(n, live, rs))
    decreases |rs|
  {
    if k == |rs| {
      assert rs[..k] == rs;
    } else {
      KeptGrows(n, live, rs[..|rs| - 1], k);
      assert rs[..|rs| - 1][..k] == rs[..k];
    }
  }

  /** Maximality: a well-formed request that was not honoured would close a cycle with the edges kept. */
  lemma {:induction false} KeptMaximal(n: nat, live: seq<bool>, rs: seq<Edge>, r: Edge)
    requires r in rs && WellFormed(n, live, r)
    ensures var kept := EdgeSet(Kept(n, live, rs));
            r in kept <==> Acyclic(kept + {r})
  {
    var kept := EdgeSet(Kept(n, live, rs));
    KeptAcyclic(n, live, rs);
    if r in kept {
      assert kept + {r} == kept;
    } else {
      var k :| 0 <= k < |rs| && rs[k] == r;
      var before := EdgeSet(Kept(n, live, rs[..k]));
      KeptGrows(n, live, rs, k);
      KeptGrows(n, live, rs, k + 1);
      assert rs[..k + 1][..k] == rs[..k];
      assert Judge(n, live, before, r).Drop?;
      ReachesMonotone(before, kept + {r}, r.1, r.0);
      StepThenReach(kept + {r}, r.0, r.1, r.0);
    }
  }

  ghost function WellFormedRequests(n: nat, live: seq<bool>, rs: seq<Edge>): set<Edge> {
    set r | r in rs && WellFormed(n, live, r)
  }

  /** When the well-formed requests are already acyclic, every one of them is honoured; and only then. */
  lemma KeptAllIff(n: nat, live: seq<bool>, rs: seq<Edge>)
    ensures EdgeSet(Kept(n, live, rs)) == WellFormedRequests(n, live, rs)
      <==> Acyclic(WellFormedRequests(n, live, rs))
  {
    var kept, asked := EdgeSet(Kept(n, live, rs)), WellFormedRequests(n, live, rs);
    KeptAcyclic(n, live, rs);
    KeptAreRequests(n, live, rs);
    if Acyclic(asked) {
      forall r | r in asked ensures r in kept {
        KeptMaximal(n, live, rs, r);
        SubgraphAcyclic(kept + {r}, asked);
      }
    }
  }

  /** Every request of a live task is answered once: kept or named among the dropped. */
  lemma {:induction false} EveryRequestAnswered(n: nat, live: seq<bool>, rs: seq<Edge>)
    ensures |Kept(n, live, rs)| + |Dropped(n, live, rs)| == |rs|
    ensures forall r :: r in rs ==> r in Kept(n, live, rs) || exists d :: d in Dropped(n, live, rs) && Names(d, r)
  {
    if rs != [] {
      var before, r := rs[..|rs| - 1], rs[|rs| - 1];
      EveryRequestAnswered(n, live, before);
      var verdict := Judge(n, live, EdgeSet(Kept(n, live, before)), r);
      assert forall q :: q in rs ==> q in before || q == r;
      forall q | q in rs
        ensures q in Kept(n, live, rs) || exists d :: d in Dropped(n, live, rs) && Names(d, q)
      {
        if q in before {
          if d :| d in Dropped(n, live, before) && Names(d, q) { assert d in Dropped(n, live, rs); }
        } else if verdict.Drop? {
          assert verdict.why in Dropped(n, live, rs) && Names(verdict.why, r);
        }
      }
    }
  }

  predicate Names(d: Refusal, r: Edge) {
    match d
    case OnItself(i) => r == (i, i)
    case NoSuchTask(i, j) => r == (i, j)
    case NoNode(i, j) => r == (i, j)
    case AlreadyWaits(i, j) => r == (i, j)
  }

  ghost predicate Truthful(d: Refusal, n: nat, live: seq<bool>, rs: seq<Edge>, kept: set<Edge>) {
    match d
    case OnItself(i) => (i, i) in rs
    case NoSuchTask(i, j) => (i, j) in rs && i != j && !(0 <= j < n)
    case NoNode(i, j) => (i, j) in rs && i != j && 0 <= j < n && !LiveAt(live, j)
    case AlreadyWaits(i, j) => ((i, j) in rs && WellFormed(n, live, (i, j)) && Reaches(kept, j, i))
  }

  lemma TruthGrows(d: Refusal, n: nat, live: seq<bool>, before: seq<Edge>, rs: seq<Edge>, kept: set<Edge>, kept': set<Edge>)
    requires Truthful(d, n, live, before, kept) && before <= rs && kept <= kept'
    ensures Truthful(d, n, live, rs, kept')
  {
    forall q | q in before ensures q in rs {}
    if d.AlreadyWaits? { ReachesMonotone(kept, kept', d.named, d.task); }
  }

  /** The reason given is the true one: only well-formed requests are refused for the cycle they would close. */
  lemma {:induction false} RefusalsAreTrue(n: nat, live: seq<bool>, rs: seq<Edge>)
    ensures forall d :: d in Dropped(n, live, rs) ==> Truthful(d, n, live, rs, EdgeSet(Kept(n, live, rs)))
  {
    if rs != [] {
      var before, r := rs[..|rs| - 1], rs[|rs| - 1];
      RefusalsAreTrue(n, live, before);
      var kept, kept' := EdgeSet(Kept(n, live, before)), EdgeSet(Kept(n, live, rs));
      forall d | d in Dropped(n, live, rs)
        ensures Truthful(d, n, live, rs, kept')
      {
        if d in Dropped(n, live, before) {
          TruthGrows(d, n, live, before, rs, kept, kept');
        } else {
          assert r in rs && r == (r.0, r.1) && Judge(n, live, kept, r) == Drop(d);
          if d.AlreadyWaits? { ReachesMonotone(kept, kept', d.named, d.task); }
        }
      }
    }
  }

  // ---- What is asked ----

  /** How many dependencies the live tasks before the n-th list. */
  function Listed(deps: seq<seq<int>>, live: seq<bool>, n: nat): nat
    requires n <= |deps|
  {
    if n == 0 then 0 else Listed(deps, live, n - 1) + if LiveAt(live, n - 1) then |deps[n - 1]| else 0
  }

  lemma {:induction false} RequestCount(deps: seq<seq<int>>, live: seq<bool>, n: nat)
    requires n <= |deps|
    ensures |Requests(deps, live, n)| == Listed(deps, live, n)
  {
    if n > 0 { RequestCount(deps, live, n - 1); }
  }

  /** The requests are every listed dependency of every live task, each once: task by task, in the order of its list. */
  lemma {:induction false} RequestAt(deps: seq<seq<int>>, live: seq<bool>, n: nat, i: nat, k: nat)
    requires i < n <= |deps| && LiveAt(live, i) && k < |deps[i]|
    ensures |Requests(deps, live, n)| == Listed(deps, live, n)
    ensures Listed(deps, live, i) + k < Listed(deps, live, n)
    ensures Requests(deps, live, n)[Listed(deps, live, i) + k] == (i, deps[i][k])
  {
    RequestCount(deps, live, n);
    RequestCount(deps, live, n - 1);
    if i < n - 1 { RequestAt(deps, live, n - 1, i, k); }
  }
}
