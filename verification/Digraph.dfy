/** Finite directed graphs as edge sets: walks, cycles, ranks, and what adding edges does to them. */
module Digraph {

  ghost predicate Walk<T(!new)>(e: set<(T, T)>, a: T, b: T, p: seq<T>) {
    && |p| >= 1 && p[0] == a && p[|p| - 1] == b
    && forall i :: 0 <= i < |p| - 1 ==> (p[i], p[i + 1]) in e
  }

  /** b can be reached from a, by zero or more edges. */
  ghost predicate Reaches<T(!new)>(e: set<(T, T)>, a: T, b: T) {
    exists p :: Walk(e, a, b, p)
  }

  /** b can be reached from a by at least one edge. */
  ghost predicate Leads<T(!new)>(e: set<(T, T)>, a: T, b: T) {
    exists p :: Walk(e, a, b, p) && |p| >= 2
  }

  ghost predicate Acyclic<T(!new)>(e: set<(T, T)>) {
    forall a :: !Leads(e, a, a)
  }

  // ---- Walks ----

  lemma WalkConcat<T(!new)>(e: set<(T, T)>, a: T, b: T, c: T, p: seq<T>, q: seq<T>)
    requires Walk(e, a, b, p) && Walk(e, b, c, q)
    ensures Walk(e, a, c, p + q[1..])
  {
    var r := p + q[1..];
    forall i | 0 <= i < |r| - 1
      ensures (r[i], r[i + 1]) in e
    {
      if i >= |p| - 1 {
        assert r[i + 1] == q[i + 1 - |p| + 1];
        assert r[i] == q[i - |p| + 1];
      }
    }
  }

  lemma ReachesRefl<T(!new)>(e: set<(T, T)>, a: T)
    ensures Reaches(e, a, a)
  {
    assert Walk(e, a, a, [a]);
  }

  lemma EdgeLeads<T(!new)>(e: set<(T, T)>, a: T, b: T)
    requires (a, b) in e
    ensures Leads(e, a, b)
  {
    assert Walk(e, a, b, [a, b]);
  }

  lemma StepThenReach<T(!new)>(e: set<(T, T)>, a: T, b: T, c: T)
    requires (a, b) in e && Reaches(e, b, c)
    ensures Leads(e, a, c)
  {
    var q :| Walk(e, b, c, q);
    WalkConcat(e, a, b, c, [a, b], q);
    assert |[a, b] + q[1..]| >= 2;
  }

  lemma ReachTransitive<T(!new)>(e: set<(T, T)>, a: T, b: T, c: T)
    requires Reaches(e, a, b) && Reaches(e, b, c)
    ensures Reaches(e, a, c)
    ensures Leads(e, a, b) || Leads(e, b, c) ==> Leads(e, a, c)
  {
    var p :| Walk(e, a, b, p);
    var q :| Walk(e, b, c, q);
    WalkConcat(e, a, b, c, p, q);
    if Leads(e, a, b) {
      var p' :| Walk(e, a, b, p') && |p'| >= 2;
      WalkConcat(e, a, b, c, p', q);
    } else if Leads(e, b, c) {
      var q' :| Walk(e, b, c, q') && |q'| >= 2;
      WalkConcat(e, a, b, c, p, q');
    }
  }

  lemma LeadsReaches<T(!new)>(e: set<(T, T)>, a: T, b: T)
    requires Leads(e, a, b)
    ensures Reaches(e, a, b)
    ensures exists m :: (a, m) in e && Reaches(e, m, b)
  {
    var p :| Walk(e, a, b, p) && |p| >= 2;
    assert Walk(e, p[1], b, p[1..]);
  }

  lemma DeadEnd<T(!new)>(e: set<(T, T)>, a: T, b: T)
    requires forall m :: (a, m) !in e
    ensures Reaches(e, a, b) <==> a == b
  {
    ReachesRefl(e, a);
    if Reaches(e, a, b) && a != b {
      var p :| Walk(e, a, b, p);
      assert |p| >= 2;
      assert Leads(e, a, b);
      LeadsReaches(e, a, b);
    }
  }

  lemma ReachesMonotone<T(!new)>(e: set<(T, T)>, f: set<(T, T)>, a: T, b: T)
    requires e <= f
    ensures Reaches(e, a, b) ==> Reaches(f, a, b)
    ensures Leads(e, a, b) ==> Leads(f, a, b)
  {
    if Reaches(e, a, b) {
      var p :| Walk(e, a, b, p);
      assert Walk(f, a, b, p);
    }
    if Leads(e, a, b) {
      var p :| Walk(e, a, b, p) && |p| >= 2;
      assert Walk(f, a, b, p);
    }
  }

  lemma NoCycle<T(!new)>(e: set<(T, T)>, a: T, p: seq<T>)
    requires Acyclic(e) && |p| >= 2
    ensures !Walk(e, a, a, p)
  {
    assert !Leads(e, a, a);
  }

  lemma SubgraphAcyclic<T(!new)>(e: set<(T, T)>, f: set<(T, T)>)
    requires e <= f && Acyclic(f)
    ensures Acyclic(e)
  {
    forall a ensures !Leads(e, a, a) { ReachesMonotone(e, f, a, a); }
  }

  // ---- Ranks ----

  lemma {:induction false} RankFalls<T(!new)>(e: set<(T, T)>, rank: T -> int, a: T, b: T, p: seq<T>)
    requires forall x, y :: (x, y) in e ==> rank(y) < rank(x)
    requires Walk(e, a, b, p) && |p| >= 2
    ensures rank(b) < rank(a)
    decreases |p|
  {
    assert (p[0], p[1]) in e;
    if |p| > 2 {
      assert Walk(e, p[1], b, p[1..]);
      RankFalls(e, rank, p[1], b, p[1..]);
    }
  }

  lemma RankedAcyclic<T(!new)>(e: set<(T, T)>, rank: T -> int)
    requires forall x, y :: (x, y) in e ==> rank(y) < rank(x)
    ensures Acyclic(e)
  {
    forall a ensures !Leads(e, a, a) {
      if Leads(e, a, a) {
        var p :| Walk(e, a, a, p) && |p| >= 2;
        RankFalls(e, rank, a, a, p);
      }
    }
  }

  lemma {:induction false} SubsetSize<T>(a: set<T>, b: set<T>)
    requires a <= b
    ensures |a| <= |b|
    decreases |a|
  {
    if a != {} {
      var x :| x in a;
      SubsetSize(a - {x}, b - {x});
    }
  }

  lemma {:induction false} Pigeonhole<T(!new)>(p: seq<T>, s: set<T>) returns (i: nat, j: nat)
    requires |p| > |s| && forall k :: 0 <= k < |p| ==> p[k] in s
    ensures i < j < |p| && p[i] == p[j]
    decreases |s|
  {
    var x := p[|p| - 1];
    if k :| 0 <= k < |p| - 1 && p[k] == x {
      return k, |p| - 1;
    }
    i, j := Pigeonhole(p[..|p| - 1], s - {x});
  }

  ghost predicate HasNext<T(!new)>(e: set<(T, T)>, s: set<T>, x: T) {
    exists y :: y in s && (x, y) in e
  }

  lemma {:induction false} LongWalk<T(!new)>(e: set<(T, T)>, s: set<T>, a: T, n: nat) returns (p: seq<T>)
    requires a in s && forall x :: x in s ==> HasNext(e, s, x)
    ensures |p| == n + 1 && Walk(e, a, p[n], p) && forall k :: 0 <= k <= n ==> p[k] in s
    decreases n
  {
    if n == 0 {
      p := [a];
    } else {
      var y :| y in s && (a, y) in e;
      var q := LongWalk(e, s, y, n - 1);
      p := [a] + q;
    }
  }

  /** In an acyclic graph every nonempty finite node set has a member with no edge back into the set. */
  lemma Sink<T(!new)>(e: set<(T, T)>, s: set<T>) returns (x: T)
    requires Acyclic(e) && s != {}
    ensures x in s && forall y :: y in s ==> (x, y) !in e
  {
    if x' :| x' in s && !HasNext(e, s, x') {
      return x';
    }
    var a :| a in s;
    var p := LongWalk(e, s, a, |s|);
    var i, j := Pigeonhole(p, s);
    NoCycle(e, p[i], p[i..j + 1]);
    assert false;
  }

  /** A walk that does not keep to the given edges has one that is not among them. */
  lemma SomeOutside<T(!new)>(e: set<(T, T)>, good: set<(T, T)>, a: T, b: T, path: seq<T>) returns (out: (T, T))
    requires Walk(e, a, b, path) && !Walk(good, a, b, path)
    ensures out in e && out !in good && Reaches(e, a, out.0) && Reaches(e, out.1, b)
  {
    var k :| 0 <= k < |path| - 1 && (path[k], path[k + 1]) !in good;
    out := (path[k], path[k + 1]);
    assert Walk(e, a, path[k], path[..k + 1]);
    assert Walk(e, path[k + 1], b, path[k + 1..]);
  }

  /** Where some edges are known to make no cycle, there is none exactly when none of the others leads back. */
  lemma OutsideAcyclicIff<T(!new)>(e: set<(T, T)>, good: set<(T, T)>)
    requires Acyclic(good)
    ensures Acyclic(e) <==> forall x :: x in e && x !in good ==> !Reaches(e, x.1, x.0)
  {
    if x :| x in e && x !in good && Reaches(e, x.1, x.0) {
      StepThenReach(e, x.0, x.1, x.0);
    } else {
      forall v ensures !Leads(e, v, v) {
        if Leads(e, v, v) {
          var path :| Walk(e, v, v, path) && |path| >= 2;
          NoCycle(good, v, path);
          var x := SomeOutside(e, good, v, v, path);
          ReachTransitive(e, x.1, v, x.0);
        }
      }
    }
  }

  // ---- Adding edges ----

  function Fan<T>(a: set<T>, b: set<T>): set<(T, T)> {
    set x, y | x in a && y in b :: (x, y)
  }

  lemma {:induction false} FirstNewSource<T(!new)>(e: set<(T, T)>, a: set<T>, b: set<T>, x: T, z: T, p: seq<T>) returns (y: T)
    requires Walk(e + Fan(a, b), x, z, p) && z in a
    ensures y in a && Reaches(e, x, y)
    decreases |p|
  {
    if |p| == 1 || x in a {
      ReachesRefl(e, x);
      y := x;
    } else {
      assert (p[0], p[1]) in e;
      assert Walk(e + Fan(a, b), p[1], z, p[1..]);
      y := FirstNewSource(e, a, b, p[1], z, p[1..]);
      StepThenReach(e, x, p[1], y);
      LeadsReaches(e, x, y);
    }
  }

  /** Adding every edge of a x b keeps a graph acyclic exactly when no member of b reaches one of a. */
  lemma FanAcyclic<T(!new)>(e: set<(T, T)>, a: set<T>, b: set<T>)
    requires Acyclic(e)
    ensures Acyclic(e + Fan(a, b)) <==> forall x, y :: x in a && y in b ==> !Reaches(e, y, x)
  {
    var f := e + Fan(a, b);
    if x, y :| x in a && y in b && Reaches(e, y, x) {
      ReachesMonotone(e, f, y, x);
      assert (x, y) in f;
      StepThenReach(f, x, y, x);
    } else {
      forall v ensures !Leads(f, v, v) {
        if Leads(f, v, v) {
          var p :| Walk(f, v, v, p) && |p| >= 2;
          FanCycle(e, a, b, v, p);
        }
      }
    }
  }

  lemma FanCycle<T(!new)>(e: set<(T, T)>, a: set<T>, b: set<T>, v: T, p: seq<T>)
    requires Acyclic(e) && Walk(e + Fan(a, b), v, v, p) && |p| >= 2
    ensures exists x, y :: x in a && y in b && Reaches(e, y, x)
  {
    var f := e + Fan(a, b);
    if i :| 0 <= i < |p| - 1 && (p[i], p[i + 1]) !in e {
      assert (p[i], p[i + 1]) in f;
      assert Walk(f, p[i + 1], v, p[i + 1..]);
      assert Walk(f, v, p[i], p[..i + 1]);
      WalkConcat(f, p[i + 1], v, p[i], p[i + 1..], p[..i + 1]);
      var y := FirstNewSource(e, a, b, p[i + 1], p[i], p[i + 1..] + p[..i + 1][1..]);
    } else {
      NoCycle(e, v, p);
    }
  }

  /** A graph whose edges all map onto edges of an acyclic graph is acyclic. */
  lemma HomomorphismAcyclic<S(!new), T(!new)>(e: set<(S, S)>, f: set<(T, T)>, h: S -> T)
    requires Acyclic(f) && forall x, y :: (x, y) in e ==> (h(x), h(y)) in f
    ensures Acyclic(e)
  {
    forall a ensures !Leads(e, a, a) {
      if Leads(e, a, a) {
        var p :| Walk(e, a, a, p) && |p| >= 2;
        var q := seq(|p|, i requires 0 <= i < |p| => h(p[i]));
        NoCycle(f, h(a), q);
      }
    }
  }

  lemma {:induction false} StaysIn<T(!new)>(e: set<(T, T)>, s: set<T>, a: T, b: T, p: seq<T>)
    requires forall x, y :: (x, y) in e && x in s ==> y in s
    requires Walk(e, a, b, p) && a in s
    ensures forall i :: 0 <= i < |p| ==> p[i] in s
    decreases |p|
  {
    if |p| > 1 {
      assert (p[0], p[1]) in e;
      assert Walk(e, p[1], b, p[1..]);
      StaysIn(e, s, p[1], b, p[1..]);
    }
  }

  /** The edges that end in the set. */
  function Within<T>(e: set<(T, T)>, s: set<T>): set<(T, T)> {
    set p | p in e && p.1 in s
  }

  /** Work laid on top: `low` mentions no node of `top`, and `high` leaves only from `top`. The union is
      acyclic as soon as `low` is and the part of `high` inside `top` is. */
  lemma LayerAcyclic<T(!new)>(low: set<(T, T)>, high: set<(T, T)>, top: set<T>)
    requires forall x, y :: (x, y) in low ==> x !in top && y !in top
    requires forall x, y :: (x, y) in high ==> x in top
    requires Acyclic(low) && Acyclic(Within(high, top))
    ensures Acyclic(low + high)
  {
    var e := low + high;
    var inner := Within(high, top);
    forall v ensures !Leads(e, v, v) {
      if Leads(e, v, v) {
        var p :| Walk(e, v, v, p) && |p| >= 2;
        if k :| 0 <= k < |p| && p[k] !in top {
          var below := (set q | q in low :: q.1) + {p[k]};
          var q := p[k..] + p[..k + 1][1..];
          assert Walk(e, p[k], v, p[k..]);
          assert Walk(e, v, p[k], p[..k + 1]);
          WalkConcat(e, p[k], v, p[k], p[k..], p[..k + 1]);
          assert |q| == |p|;
          StaysIn(e, below, p[k], p[k], q);
          NoCycle(low, p[k], q);
        } else {
          NoCycle(inner, v, p);
        }
      }
    }
  }
}
