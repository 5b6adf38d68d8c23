/** Cycle breaking in a parsed plan: a depth-first walk that drops every dependency pointing back at a step
    still being walked (agent/executive.go, breakCycles). */
module Cycles {
  import opened Digraph

  type Deps = seq<seq<int>>  // Deps[i] lists the positions step i depends on

  datatype Mark = Unvisited | Visiting | Visited

  /** The dependencies that name a step of the plan. */
  ghost function PlanEdges(deps: Deps): set<(int, int)> {
    set i, d | 0 <= i < |deps| && d in deps[i] && 0 <= d < |deps| :: (i, d)
  }

  /** The dependencies of step v that survive: in range, and not among the removed ones; order kept. */
  ghost function Cleaned(ds: seq<int>, n: nat, v: int, removed: set<(int, int)>): (r: seq<int>)
    ensures forall d :: d in r <==> d in ds && 0 <= d < n && (v, d) !in removed
  {
    if ds == [] then []
    else
      var d := ds[|ds| - 1];
      var before := Cleaned(ds[..|ds| - 1], n, v, removed);
      assert ds == ds[..|ds| - 1] + [d];
      if 0 <= d < n && (v, d) !in removed then before + [d] else before
  }

  lemma {:induction false} CleanedAgrees(ds: seq<int>, n: nat, v: int, removed: set<(int, int)>, removed': set<(int, int)>)
    requires forall d :: d in ds && 0 <= d < n ==> ((v, d) in removed <==> (v, d) in removed')
    ensures Cleaned(ds, n, v, removed) == Cleaned(ds, n, v, removed')
  {
    if ds != [] {
      forall d | d in ds[..|ds| - 1] ensures d in ds {}
      CleanedAgrees(ds[..|ds| - 1], n, v, removed, removed');
    }
  }

  /** Proof bookkeeping: the steps being walked, outermost first; the dependencies the walk went down; when each
      visited step finished; what was dropped. */
  datatype Book = Book(path: seq<int>, walked: set<(int, int)>, rank: map<int, nat>, clock: nat, removed: set<(int, int)>)

  /** The state of the walk over a plan with dependencies `orig`, whose edges are e. */
  ghost predicate Inv(e: set<(int, int)>, orig: Deps, deps: Deps, state: seq<Mark>, hasCycle: bool, b: Book) {
    && |deps| == |state| == |orig|
    && PathInv(e, state, b)
    && DepsInv(orig, deps, state, b)
    && Ranked(deps, state, b)
    && (forall r :: r in b.removed ==> RemovedOk(e, state, b.path, b.walked, r))
    && (hasCycle <==> b.removed != {})
  }

  /** While its source is being walked, so is the target of a dropped dependency, further out on the path. */
  ghost predicate Inside(path: seq<int>, r: (int, int)) {
    exists p, q :: 0 <= p <= q < |path| && path[p] == r.1 && path[q] == r.0
  }

  ghost predicate RemovedOk(e: set<(int, int)>, state: seq<Mark>, path: seq<int>, walked: set<(int, int)>, r: (int, int)) {
    && r in e && Reaches(walked, r.1, r.0)
    && 0 <= r.0 < |state| && state[r.0] != Unvisited
    && 0 <= r.1 < |state| && state[r.1] != Unvisited
    && (state[r.0] == Visiting ==> Inside(path, r))
  }

  ghost predicate PathInv(e: set<(int, int)>, state: seq<Mark>, b: Book) {
    && OnPath(state, b.path)
    && (forall k :: 0 <= k < |b.path| - 1 ==> (b.path[k], b.path[k + 1]) in b.walked)
    && b.walked <= e && b.walked !! b.removed
    && AllGoneDown(state, b)
  }

  ghost predicate OnPath(state: seq<Mark>, path: seq<int>) {
    && (forall v :: v in path <==> 0 <= v < |state| && state[v] == Visiting)
    && (forall j, k :: 0 <= j < k < |path| ==> path[j] != path[k])
  }

  ghost predicate AllGoneDown(state: seq<Mark>, b: Book) {
    forall w :: w in b.walked ==> GoneDown(state, b.path, w)
  }

  /** The target of a dependency the walk went down has finished, or is the next step on the path. */
  ghost predicate GoneDown(state: seq<Mark>, path: seq<int>, w: (int, int)) {
    && 0 <= w.1 < |state| && state[w.1] != Unvisited
    && (state[w.1] == Visiting ==> exists k :: 0 <= k < |path| - 1 && path[k] == w.0 && path[k + 1] == w.1)
  }

  /** Step i joins the path. */
  ghost function Entered(b: Book, i: int): Book {
    b.(path := b.path + [i], walked := b.walked + if b.path == [] then {} else {(b.path[|b.path| - 1], i)})
  }

  ghost predicate DepsInv(orig: Deps, deps: Deps, state: seq<Mark>, b: Book)
    requires |deps| == |state| == |orig|
  {
    forall v :: 0 <= v < |orig| ==>
      deps[v] == if state[v] == Visited then Cleaned(orig[v], |orig|, v, b.removed) else orig[v]
  }

  ghost predicate Ranked(deps: Deps, state: seq<Mark>, b: Book)
    requires |deps| == |state|
  {
    && (forall v :: v in b.rank <==> 0 <= v < |state| && state[v] == Visited)
    && (forall v :: v in b.rank ==> b.rank[v] < b.clock)
    && (forall v, d :: v in b.rank && d in deps[v] ==> d in b.rank && b.rank[d] < b.rank[v])
  }

  /** The dependency is one of the plan, and the plan leads from its target back to its source. */
  ghost predicate OnCycle(e: set<(int, int)>, r: (int, int)) {
    r in e && Reaches(e, r.1, r.0)
  }

  ghost predicate Extends(state: seq<Mark>, b: Book, state': seq<Mark>, b': Book) {
    && |state| == |state'| && b'.path == b.path && b.clock <= b'.clock
    && (forall v :: v in b.rank ==> v in b'.rank && b'.rank[v] == b.rank[v])
    && (forall v :: 0 <= v < |state| && state[v] != Unvisited ==> state'[v] == state[v])
    && b.removed <= b'.removed
    && (forall e :: e in b'.removed && e !in b.removed && 0 <= e.0 < |state| ==> state[e.0] == Unvisited)
  }

  ghost function Fresh(state: seq<Mark>): set<int> {
    set v: int | 0 <= v < |state| && state[v] == Unvisited
  }

  lemma FreshShrinks(state: seq<Mark>, state': seq<Mark>, i: int)
    requires |state| == |state'| && 0 <= i < |state| && state[i] == Unvisited && state'[i] != Unvisited
    requires forall v :: 0 <= v < |state| && state[v] != Unvisited ==> state'[v] != Unvisited
    ensures |Fresh(state')| < |Fresh(state)|
  {
    assert Fresh(state') <= Fresh(state) - {i};
    SubsetSize(Fresh(state'), Fresh(state) - {i});
  }

  /** Step i is being walked and its first k dependencies have been dealt with. */
  ghost predicate Walking(e: set<(int, int)>, orig: Deps, deps: Deps, state: seq<Mark>, hasCycle: bool, b: Book,
                          s0: seq<Mark>, b0: Book, i: int, k: int, newDeps: seq<int>) {
    && Inv(e, orig, deps, state, hasCycle, b)
    && Extends(s0, b0, state, b.(path := b0.path)) && b.path == b0.path + [i]
    && 0 <= i < |orig| && s0[i] == Unvisited && 0 <= k <= |orig[i]|
    && newDeps == Cleaned(orig[i][..k], |orig|, i, b.removed)
    && (forall d :: d in newDeps ==> d in b.rank)
  }

  method Dfs(ghost e: set<(int, int)>, ghost orig: Deps, deps: array<seq<int>>, state: array<Mark>,
             hasCycle0: bool, i: int, ghost b0: Book)
    returns (hasCycle: bool, ghost b: Book)
    requires Inv(e, orig, deps[..], state[..], hasCycle0, b0)
    requires 0 <= i < |orig| && state[i] == Unvisited
    requires b0.path != [] ==> (b0.path[|b0.path| - 1], i) in e
    requires e == PlanEdges(orig)
    modifies deps, state
    ensures Inv(e, orig, deps[..], state[..], hasCycle, b)
    ensures Extends(old(state[..]), b0, state[..], b) && state[i] == Visited
    decreases |Fresh(state[..])|, 1
  {
    ghost var s0 := state[..];
    assert i !in b0.path && deps.Length == state.Length == |orig|;
    hide *;
    state[i] := Visiting;
    hasCycle, b := hasCycle0, Entered(b0, i);
    var newDeps: seq<int> := [];
    var ds := deps[i];
    EnterKeeps(e, orig, deps[..], s0, state[..], hasCycle, b0, i);
    for k := 0 to |ds|
      invariant Walking(e, orig, deps[..], state[..], hasCycle, b, s0, b0, i, k, newDeps)
      invariant ds == orig[i]
    {
      var dep := ds[k];
      if dep < 0 || dep >= deps.Length {
        SkipStep(e, orig, deps[..], state[..], hasCycle, b, s0, b0, i, k, newDeps);
        continue;
      }
      if state[dep] == Visiting {
        RemoveStep(e, orig, deps[..], state[..], hasCycle, b, s0, b0, i, k, newDeps);
        b := b.(removed := b.removed + {(i, dep)});
        hasCycle := true;
        continue;
      }
      if state[dep] == Unvisited {
        hasCycle, b := Descend(e, orig, deps, state, hasCycle, dep, b, s0, b0, i, k, newDeps);
      }
      KeepStep(e, orig, deps[..], state[..], hasCycle, b, s0, b0, i, k, newDeps);
      newDeps := newDeps + [dep];
    }
    FinishKeeps(e, orig, deps[..], state[..], hasCycle, b, s0, b0, i, newDeps);
    b := b.(path := b0.path, rank := b.rank[i := b.clock], clock := b.clock + 1);
    ghost var d2, s2 := deps[..], state[..];
    deps[i] := newDeps;
    state[i] := Visited;
    assert deps[..] == d2[i := newDeps] && state[..] == s2[i := Visited];
  }

  /** The recursive call, seen from the step it is made for: what was collected for that step so far stands. */
  method Descend(ghost e: set<(int, int)>, ghost orig: Deps, deps: array<seq<int>>, state: array<Mark>,
                 hasCycle1: bool, dep: int, ghost b1: Book,
                 ghost s0: seq<Mark>, ghost b0: Book, ghost i: int, ghost k: int, ghost newDeps: seq<int>)
    returns (hasCycle: bool, ghost b: Book)
    requires Walking(e, orig, deps[..], state[..], hasCycle1, b1, s0, b0, i, k, newDeps)
    requires k < |orig[i]| && dep == orig[i][k] && 0 <= dep < |orig| && state[dep] == Unvisited
    requires e == PlanEdges(orig)
    modifies deps, state
    ensures Walking(e, orig, deps[..], state[..], hasCycle, b, s0, b0, i, k, newDeps)
    ensures state[dep] == Visited
    decreases |Fresh(s0)|, 0
  {
    assert i in b1.path;
    FreshShrinks(s0, state[..], i);
    ghost var s1 := state[..];
    hasCycle, b := Dfs(e, orig, deps, state, hasCycle1, dep, b1);
    CleanedAgrees(orig[i][..k], |orig|, i, b1.removed, b.removed);
    ExtendsTwice(s0, b0, s1, b1, state[..], b);
  }

  lemma ExtendsTwice(s0: seq<Mark>, b0: Book, s1: seq<Mark>, b1: Book, s2: seq<Mark>, b2: Book)
    requires Extends(s0, b0, s1, b1.(path := b0.path)) && Extends(s1, b1, s2, b2)
    ensures Extends(s0, b0, s2, b2.(path := b0.path))
  {}

  lemma EnterKeeps(e: set<(int, int)>, orig: Deps, deps: Deps, s0: seq<Mark>, s1: seq<Mark>, hasCycle: bool, b0: Book, i: int)
    requires Inv(e, orig, deps, s0, hasCycle, b0) && 0 <= i < |orig| && s0[i] == Unvisited && s1 == s0[i := Visiting]
    requires b0.path != [] ==> (b0.path[|b0.path| - 1], i) in e
    ensures Walking(e, orig, deps, s1, hasCycle, Entered(b0, i), s0, b0, i, 0, [])
    ensures deps[i] == orig[i]
  {
    EnterPath(e, s0, b0, i);
    forall r | r in b0.removed ensures RemovedOk(e, s1, Entered(b0, i).path, Entered(b0, i).walked, r) {
      EnterRemoved(e, s0, b0, i, r);
    }
    assert Inv(e, orig, deps, s1, hasCycle, Entered(b0, i));
  }

  lemma EnterGone(state: seq<Mark>, b: Book, i: int, w: (int, int))
    requires GoneDown(state, b.path, w) && 0 <= i < |state| && state[i] == Unvisited
    ensures GoneDown(state[i := Visiting], Entered(b, i).path, w)
  {
    if state[w.1] == Visiting {
      var k :| 0 <= k < |b.path| - 1 && b.path[k] == w.0 && b.path[k + 1] == w.1;
      assert Entered(b, i).path[k] == w.0 && Entered(b, i).path[k + 1] == w.1;
    }
  }

  lemma EnterOnPath(state: seq<Mark>, path: seq<int>, i: int)
    requires OnPath(state, path) && 0 <= i < |state| && state[i] == Unvisited
    ensures OnPath(state[i := Visiting], path + [i])
  {
    assert i !in path;
    forall v ensures v in path + [i] <==> v in path || v == i {}
  }

  lemma EnterPath(e: set<(int, int)>, state: seq<Mark>, b: Book, i: int)
    requires PathInv(e, state, b) && 0 <= i < |state| && state[i] == Unvisited
    requires forall r :: r in b.removed ==> RemovedOk(e, state, b.path, b.walked, r)
    requires b.path != [] ==> (b.path[|b.path| - 1], i) in e
    ensures PathInv(e, state[i := Visiting], Entered(b, i))
  {
    var b' := Entered(b, i);
    assert b.path != [] ==> (b.path[|b.path| - 1], i) !in b.removed;
    hide OnPath, GoneDown, RemovedOk;
    EnterOnPath(state, b.path, i);
    forall k | 0 <= k < |b'.path| - 1 ensures (b'.path[k], b'.path[k + 1]) in b'.walked {}
    forall w | w in b'.walked ensures GoneDown(state[i := Visiting], b'.path, w) {
      if w in b.walked { EnterGone(state, b, i, w); } else { JustEntered(state, b, i); }
    }
  }

  lemma JustEntered(state: seq<Mark>, b: Book, i: int)
    requires b.path != [] && 0 <= i < |state|
    ensures GoneDown(state[i := Visiting], Entered(b, i).path, (b.path[|b.path| - 1], i))
  {
    var k := |b.path| - 1;
    assert Entered(b, i).path[k] == b.path[k] && Entered(b, i).path[k + 1] == i;
  }

  lemma EnterRemoved(e: set<(int, int)>, state: seq<Mark>, b: Book, i: int, r: (int, int))
    requires RemovedOk(e, state, b.path, b.walked, r) && 0 <= i < |state| && state[i] == Unvisited
    ensures RemovedOk(e, state[i := Visiting], Entered(b, i).path, Entered(b, i).walked, r)
  {
    ReachesMonotone(b.walked, Entered(b, i).walked, r.1, r.0);
    if state[r.0] == Visiting {
      var p, q :| 0 <= p <= q < |b.path| && b.path[p] == r.1 && b.path[q] == r.0;
      assert Entered(b, i).path[p] == r.1 && Entered(b, i).path[q] == r.0;
    }
  }

  lemma SkipStep(e: set<(int, int)>, orig: Deps, deps: Deps, state: seq<Mark>, hasCycle: bool, b: Book,
                 s0: seq<Mark>, b0: Book, i: int, k: int, newDeps: seq<int>)
    requires Walking(e, orig, deps, state, hasCycle, b, s0, b0, i, k, newDeps) && k < |orig[i]|
    requires !(0 <= orig[i][k] < |orig|)
    ensures Walking(e, orig, deps, state, hasCycle, b, s0, b0, i, k + 1, newDeps)
  {
    assert orig[i][..k + 1][..k] == orig[i][..k];
  }

  lemma KeepStep(e: set<(int, int)>, orig: Deps, deps: Deps, state: seq<Mark>, hasCycle: bool, b: Book,
                 s0: seq<Mark>, b0: Book, i: int, k: int, newDeps: seq<int>)
    requires Walking(e, orig, deps, state, hasCycle, b, s0, b0, i, k, newDeps) && k < |orig[i]|
    requires 0 <= orig[i][k] < |orig| && state[orig[i][k]] == Visited
    ensures Walking(e, orig, deps, state, hasCycle, b, s0, b0, i, k + 1, newDeps + [orig[i][k]])
  {
    assert orig[i][..k + 1][..k] == orig[i][..k];
    NotRemoved(e, orig, deps, state, hasCycle, b, s0, b0, i, k, newDeps);
  }

  /** A kept dependency has finished, so the same dependency was never dropped for this step. */
  lemma NotRemoved(e: set<(int, int)>, orig: Deps, deps: Deps, state: seq<Mark>, hasCycle: bool, b: Book,
                   s0: seq<Mark>, b0: Book, i: int, k: int, newDeps: seq<int>)
    requires Walking(e, orig, deps, state, hasCycle, b, s0, b0, i, k, newDeps) && k < |orig[i]|
    requires 0 <= orig[i][k] < |orig| && state[orig[i][k]] == Visited
    ensures (i, orig[i][k]) !in b.removed
  {
    assert i in b.path && orig[i][k] !in b.path;
  }

  lemma RemoveStep(e: set<(int, int)>, orig: Deps, deps: Deps, state: seq<Mark>, hasCycle: bool, b: Book,
                 s0: seq<Mark>, b0: Book, i: int, k: int, newDeps: seq<int>)
    requires Walking(e, orig, deps, state, hasCycle, b, s0, b0, i, k, newDeps) && k < |orig[i]|
    requires 0 <= orig[i][k] < |orig| && state[orig[i][k]] == Visiting && e == PlanEdges(orig)
    ensures Walking(e, orig, deps, state, true, b.(removed := b.removed + {(i, orig[i][k])}), s0, b0, i, k + 1, newDeps)
  {
    assert (i, orig[i][k]) in e;
    hide Inv, Extends, Cleaned, PlanEdges;
    RemoveKeeps(e, orig, deps, state, hasCycle, b, i, orig[i][k]);
    RemoveExtends(s0, b0, state, b, i, orig[i][k]);
    NotYetKept(e, orig, deps, state, hasCycle, b, s0, b0, i, k, newDeps);
  }

  lemma RemoveExtends(s0: seq<Mark>, b0: Book, state: seq<Mark>, b: Book, i: int, dep: int)
    requires Extends(s0, b0, state, b.(path := b0.path)) && 0 <= i < |s0| && s0[i] == Unvisited
    ensures Extends(s0, b0, state, b.(path := b0.path, removed := b.removed + {(i, dep)}))
  {}

  /** What was collected so far is not touched by dropping a dependency on a step still being walked. */
  lemma NotYetKept(e: set<(int, int)>, orig: Deps, deps: Deps, state: seq<Mark>, hasCycle: bool, b: Book,
                   s0: seq<Mark>, b0: Book, i: int, k: int, newDeps: seq<int>)
    requires Walking(e, orig, deps, state, hasCycle, b, s0, b0, i, k, newDeps) && k < |orig[i]|
    requires 0 <= orig[i][k] < |orig| && state[orig[i][k]] == Visiting
    ensures newDeps == Cleaned(orig[i][..k + 1], |orig|, i, b.removed + {(i, orig[i][k])})
  {
    var ds, d := orig[i][..k], orig[i][k];
    assert d !in b.rank;
    assert newDeps == Cleaned(ds, |orig|, i, b.removed) && d !in newDeps;
    hide Walking, Inv;
    KeptWithout(ds, |orig|, i, d, b.removed);
    assert orig[i][..k + 1] == ds + [d];
  }

  lemma KeptWithout(ds: seq<int>, n: nat, i: int, d: int, removed: set<(int, int)>)
    requires d !in Cleaned(ds, n, i, removed)
    ensures Cleaned(ds + [d], n, i, removed + {(i, d)}) == Cleaned(ds, n, i, removed)
  {
    assert (ds + [d])[..|ds|] == ds;
    CleanedAgrees(ds, n, i, removed, removed + {(i, d)});
  }

  lemma DepsSurvive(orig: Deps, deps: Deps, state: seq<Mark>, b: Book, i: int, dep: int)
    requires |deps| == |state| == |orig| && DepsInv(orig, deps, state, b)
    requires 0 <= i < |orig| && state[i] == Visiting
    ensures DepsInv(orig, deps, state, b.(removed := b.removed + {(i, dep)}))
  {
    forall v | 0 <= v < |orig| && state[v] == Visited
      ensures Cleaned(orig[v], |orig|, v, b.removed) == Cleaned(orig[v], |orig|, v, b.removed + {(i, dep)})
    {
      CleanedAgrees(orig[v], |orig|, v, b.removed, b.removed + {(i, dep)});
    }
  }

  /** The step being walked points back into the path: the walk itself leads from there to here. */
  lemma BackEdge(e: set<(int, int)>, state: seq<Mark>, b: Book, i: int, dep: int)
    requires PathInv(e, state, b) && b.path != [] && b.path[|b.path| - 1] == i
    requires 0 <= dep < |state| && state[dep] == Visiting && (i, dep) in e
    ensures RemovedOk(e, state, b.path, b.walked, (i, dep)) && (i, dep) !in b.walked
  {
    assert dep in b.path && i in b.path;
    var m :| 0 <= m < |b.path| && b.path[m] == dep;
    assert Walk(b.walked, dep, i, b.path[m..]);
  }

  lemma RemoveKeeps(e: set<(int, int)>, orig: Deps, deps: Deps, state: seq<Mark>, hasCycle: bool, b: Book, i: int, dep: int)
    requires Inv(e, orig, deps, state, hasCycle, b) && (i, dep) in e
    requires 0 <= i < |orig| && 0 <= dep < |orig| && state[dep] == Visiting
    requires b.path != [] && b.path[|b.path| - 1] == i
    ensures Inv(e, orig, deps, state, true, b.(removed := b.removed + {(i, dep)}))
  {
    assert i in b.path && state[i] == Visiting;
    BackEdge(e, state, b, i, dep);
    DepsSurvive(orig, deps, state, b, i, dep);
    RemovePath(e, state, b, (i, dep));
    hide PathInv, DepsInv, RemovedOk;
  }

  lemma RemovePath(e: set<(int, int)>, state: seq<Mark>, b: Book, r: (int, int))
    requires PathInv(e, state, b) && r !in b.walked
    ensures PathInv(e, state, b.(removed := b.removed + {r}))
  {}

  lemma FinishGone(state: seq<Mark>, path: seq<int>, outer: seq<int>, i: int, w: (int, int))
    requires GoneDown(state, path, w) && 0 <= i < |state| && path == outer + [i]
    ensures GoneDown(state[i := Visited], outer, w)
  {
    if w.1 != i && state[w.1] == Visiting {
      var k :| 0 <= k < |path| - 1 && path[k] == w.0 && path[k + 1] == w.1;
      assert outer[k] == w.0 && outer[k + 1] == w.1;
    }
  }

  lemma FinishOnPath(state: seq<Mark>, path: seq<int>, outer: seq<int>, i: int)
    requires OnPath(state, path) && 0 <= i < |state| && path == outer + [i] && i !in outer
    ensures OnPath(state[i := Visited], outer)
  {
    forall v ensures v in outer <==> v in path && v != i {}
    forall j, k | 0 <= j < k < |outer| ensures outer[j] != outer[k] {
      assert outer[j] == path[j] && outer[k] == path[k];
    }
  }

  lemma FinishPath(e: set<(int, int)>, state: seq<Mark>, b: Book, outer: seq<int>, i: int)
    requires PathInv(e, state, b) && 0 <= i < |state| && b.path == outer + [i] && i !in outer
    ensures PathInv(e, state[i := Visited], b.(path := outer))
  {
    hide OnPath, GoneDown;
    FinishOnPath(state, b.path, outer, i);
    forall k | 0 <= k < |outer| - 1 ensures (outer[k], outer[k + 1]) in b.walked {
      assert outer[k] == b.path[k] && outer[k + 1] == b.path[k + 1];
    }
    forall w | w in b.walked ensures GoneDown(state[i := Visited], outer, w) {
      FinishGone(state, b.path, outer, i, w);
    }
  }

  lemma FinishRemoved(e: set<(int, int)>, state: seq<Mark>, path: seq<int>, walked: set<(int, int)>, outer: seq<int>, i: int,
                      r: (int, int))
    requires RemovedOk(e, state, path, walked, r) && 0 <= i < |state| && path == outer + [i]
    ensures RemovedOk(e, state[i := Visited], outer, walked, r)
  {
    if r.0 != i && state[r.0] == Visiting {
      var p, q :| 0 <= p <= q < |path| && path[p] == r.1 && path[q] == r.0;
      assert outer[p] == r.1 && outer[q] == r.0;
    }
  }

  lemma FinishDeps(orig: Deps, deps: Deps, state: seq<Mark>, b: Book, i: int, newDeps: seq<int>)
    requires |deps| == |state| == |orig| && DepsInv(orig, deps, state, b) && Ranked(deps, state, b)
    requires 0 <= i < |orig| && state[i] == Visiting && newDeps == Cleaned(orig[i], |orig|, i, b.removed)
    requires forall d :: d in newDeps ==> d in b.rank
    ensures DepsInv(orig, deps[i := newDeps], state[i := Visited], b)
    ensures Ranked(deps[i := newDeps], state[i := Visited], b.(rank := b.rank[i := b.clock], clock := b.clock + 1))
  {}

  lemma FinishExtends(s0: seq<Mark>, b0: Book, state: seq<Mark>, b: Book, i: int)
    requires Extends(s0, b0, state, b.(path := b0.path)) && 0 <= i < |s0| && s0[i] == Unvisited && i !in b.rank
    requires forall v :: v in b0.rank ==> v in b.rank
    ensures Extends(s0, b0, state[i := Visited], b.(path := b0.path, rank := b.rank[i := b.clock], clock := b.clock + 1))
  {}

  lemma FinishKeeps(e: set<(int, int)>, orig: Deps, deps: Deps, state: seq<Mark>, hasCycle: bool, b: Book,
                    s0: seq<Mark>, b0: Book, i: int, newDeps: seq<int>)
    requires 0 <= i < |orig| && i !in b0.path
    requires Walking(e, orig, deps, state, hasCycle, b, s0, b0, i, |orig[i]|, newDeps)
    ensures Inv(e, orig, deps[i := newDeps], state[i := Visited], hasCycle,
                b.(path := b0.path, rank := b.rank[i := b.clock], clock := b.clock + 1))
    ensures Extends(s0, b0, state[i := Visited], b.(path := b0.path, rank := b.rank[i := b.clock], clock := b.clock + 1))
  {
    hide *;
    WalkedThrough(e, orig, deps, state, hasCycle, b, s0, b0, i, newDeps);
    FinishDeps(orig, deps, state, b, i, newDeps);
    FinishExtends(s0, b0, state, b, i);
    FinishPath(e, state, b, b0.path, i);
    forall r | r in b.removed ensures RemovedOk(e, state[i := Visited], b0.path, b.walked, r) {
      FinishRemoved(e, state, b.path, b.walked, b0.path, i, r);
    }
    Finished(e, orig, deps[i := newDeps], state[i := Visited], hasCycle, b, b0.path, b.rank[i := b.clock]);
  }

  /** What is known when all dependencies of step i have been dealt with. */
  lemma WalkedThrough(e: set<(int, int)>, orig: Deps, deps: Deps, state: seq<Mark>, hasCycle: bool, b: Book,
                      s0: seq<Mark>, b0: Book, i: int, newDeps: seq<int>)
    requires 0 <= i < |orig| && Walking(e, orig, deps, state, hasCycle, b, s0, b0, i, |orig[i]|, newDeps)
    ensures |deps| == |state| == |orig| == |s0| && b.path == b0.path + [i] && s0[i] == Unvisited
    ensures PathInv(e, state, b) && DepsInv(orig, deps, state, b) && Ranked(deps, state, b)
    ensures hasCycle <==> b.removed != {}
    ensures forall r :: r in b.removed ==> RemovedOk(e, state, b.path, b.walked, r)
    ensures Extends(s0, b0, state, b.(path := b0.path)) && forall v :: v in b0.rank ==> v in b.rank
    ensures state[i] == Visiting && i !in b.rank
    ensures newDeps == Cleaned(orig[i], |orig|, i, b.removed) && forall d :: d in newDeps ==> d in b.rank
  {
    assert orig[i][..|orig[i]|] == orig[i];
    hide Cleaned, RemovedOk, AllGoneDown, DepsInv;
    assert i in b.path;
  }

  lemma Finished(e: set<(int, int)>, orig: Deps, deps: Deps, state: seq<Mark>, hasCycle: bool, b: Book, outer: seq<int>, rank: map<int, nat>)
    requires |deps| == |state| == |orig| && (hasCycle <==> b.removed != {})
    requires PathInv(e, state, b.(path := outer)) && DepsInv(orig, deps, state, b)
    requires Ranked(deps, state, b.(rank := rank, clock := b.clock + 1))
    requires forall r :: r in b.removed ==> RemovedOk(e, state, outer, b.walked, r)
    ensures Inv(e, orig, deps, state, hasCycle, b.(path := outer, rank := rank, clock := b.clock + 1))
  {
    hide OnPath, GoneDown, RemovedOk, Cleaned;
  }

  /** No step is being walked: the state between two calls from the outer loop. */
  ghost predicate Between(e: set<(int, int)>, orig: Deps, deps: Deps, state: seq<Mark>, hasCycle: bool, b: Book) {
    Inv(e, orig, deps, state, hasCycle, b) && b.path == []
  }

  method Root(ghost e: set<(int, int)>, ghost orig: Deps, deps: array<seq<int>>, state: array<Mark>,
              hasCycle0: bool, i: int, ghost b0: Book)
    returns (hasCycle: bool, ghost b: Book)
    requires Between(e, orig, deps[..], state[..], hasCycle0, b0) && e == PlanEdges(orig)
    requires 0 <= i < |orig| && state[i] == Unvisited
    modifies deps, state
    ensures Between(e, orig, deps[..], state[..], hasCycle, b) && state[i] == Visited
    ensures forall v :: 0 <= v < state.Length && old(state[v]) == Visited ==> state[v] == Visited
  {
    ghost var s0 := state[..];
    hasCycle, b := Dfs(e, orig, deps, state, hasCycle0, i, b0);
    assert forall v :: 0 <= v < state.Length && s0[v] == Visited ==> state[..][v] == Visited;
  }

  /** agent/executive.go, breakCycles: the plan is left acyclic, nothing but out-of-range positions and
      dependencies lying on a cycle is dropped, none of those could be put back, and a cycle is reported exactly
      when there was one. */
  method BreakCycles(deps: array<seq<int>>) returns (hasCycle: bool, ghost removed: set<(int, int)>)
    modifies deps
    ensures forall i :: 0 <= i < deps.Length ==> deps[i] == Cleaned(old(deps[i]), deps.Length, i, removed)
    ensures forall r :: r in removed ==> OnCycle(PlanEdges(old(deps[..])), r)
    ensures forall r :: r in removed ==> Reaches(PlanEdges(deps[..]), r.1, r.0)
    ensures Acyclic(PlanEdges(deps[..]))
    ensures hasCycle <==> !Acyclic(PlanEdges(old(deps[..])))
    ensures hasCycle <==> removed != {}
  {
    var n := deps.Length;
    ghost var orig := deps[..];
    ghost var e := PlanEdges(orig);
    var state := new Mark[n](_ => Unvisited);
    hasCycle := false;
    ghost var b := Book([], {}, map[], 0, {});
    NothingVisited(orig, state[..], b);
    for i := 0 to n
      invariant Between(e, orig, deps[..], state[..], hasCycle, b)
      invariant forall k :: 0 <= k < i ==> state[k] == Visited
    {
      if state[i] == Unvisited {
        hasCycle, b := Root(e, orig, deps, state, hasCycle, i, b);
      }
    }
    removed := b.removed;
    AllVisited(orig, deps[..], state[..], hasCycle, b);
  }

  lemma NothingVisited(orig: Deps, state: seq<Mark>, b: Book)
    requires |state| == |orig| && b == Book([], {}, map[], 0, {})
    requires forall v :: 0 <= v < |orig| ==> state[v] == Unvisited
    ensures Between(PlanEdges(orig), orig, orig, state, false, b)
  {}

  lemma AllVisited(orig: Deps, deps: Deps, state: seq<Mark>, hasCycle: bool, b: Book)
    requires Between(PlanEdges(orig), orig, deps, state, hasCycle, b)
    requires forall v :: 0 <= v < |orig| ==> state[v] == Visited
    ensures forall i :: 0 <= i < |orig| ==> deps[i] == Cleaned(orig[i], |orig|, i, b.removed)
    ensures forall r :: r in b.removed ==> OnCycle(PlanEdges(orig), r)
    ensures forall r :: r in b.removed ==> Reaches(PlanEdges(deps), r.1, r.0)
    ensures Acyclic(PlanEdges(deps))
    ensures hasCycle <==> !Acyclic(PlanEdges(orig))
    ensures hasCycle <==> b.removed != {}
  {
    assert b.walked <= PlanEdges(deps);
    forall r | r in b.removed ensures OnCycle(PlanEdges(orig), r) && Reaches(PlanEdges(deps), r.1, r.0) {
      ReachesMonotone(b.walked, PlanEdges(deps), r.1, r.0);
      ReachesMonotone(b.walked, PlanEdges(orig), r.1, r.0);
    }
    RankedAcyclic(PlanEdges(deps), v => if v in b.rank then b.rank[v] else 0);
    if hasCycle {
      var r :| r in b.removed;
      StepThenReach(PlanEdges(orig), r.0, r.1, r.0);
    } else {
      SubgraphAcyclic(PlanEdges(orig), PlanEdges(deps));
    }
  }
}
