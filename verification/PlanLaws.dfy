/** What the plan clean-up keeps, and what it does not: order, references, and the way back into a cycle. */
module PlanLaws {
  import opened Values
  import opened Decimal
  import opened Names
  import opened Cycles
  import opened Digraph
  import opened PlanGraft
  import opened PlanCleanup

  // ---- Dropping duplicates ----

  /** The step a position of the deduplicated plan came from. */
  lemma CameFrom(steps: seq<PlanStep>, wide: char -> bool, k: nat)
    requires var keys := Keys(steps, wide); k < |Kept(keys, |keys|)|
    ensures var keys := Keys(steps, wide);
      && |Deduplicated(steps, wide)| == |Kept(keys, |keys|)|
      && Deduplicated(steps, wide)[k].tag == steps[InKept(keys, k)].tag
      && Deduplicated(steps, wide)[k].tool == steps[InKept(keys, k)].tool
  {
    var keys := Keys(steps, wide);
    if |Kept(keys, |keys|)| == |steps| {
      AnyDropped(steps, wide);
      AllStay(keys);
    }
  }

  lemma AllStay(keys: seq<Key>)
    requires |Kept(keys, |keys|)| == |keys|
    ensures forall i :: 0 <= i < |keys| ==> !Dropped(keys, i) && Kept(keys, |keys|)[i] == i
  {
    if i :| 0 <= i < |keys| && Dropped(keys, i) { OneLess(keys, |keys|, i); }
    AllKept(keys, |keys|);
  }

  /** A step stays exactly when no earlier step calls the same tool on the same first reference, and then it is at
      the position that counts the steps staying before it; so the ones that stay keep their order. */
  lemma StaysAt(steps: seq<PlanStep>, wide: char -> bool, i: nat)
    requires i < |steps|
    ensures var keys := Keys(steps, wide);
      && (Survives(keys, i) <==> keys[i] == NoKey || keys[i] !in keys[..i])
      && (Survives(keys, i) ==> |Kept(keys, i)| < |Deduplicated(steps, wide)| && InKept(keys, |Kept(keys, i)|) == i)
  {
    var keys := Keys(steps, wide);
    if Survives(keys, i) {
      NewIndexInverse(keys, i);
      CameFrom(steps, wide, |Kept(keys, i)|);
    }
  }

  /** A dependency of a step that stays survives exactly when the step it names does, and then names it still. */
  lemma DependencyFollows(steps: seq<PlanStep>, wide: char -> bool, k: nat, e: int)
    requires var keys := Keys(steps, wide); k < |Kept(keys, |keys|)|
    requires forall i, d :: 0 <= i < |steps| && d in steps[i].dependsOn ==> Links(|steps|, i, d)
    ensures |Deduplicated(steps, wide)| == |Kept(Keys(steps, wide), |steps|)|
    ensures var keys := Keys(steps, wide);
      e in Deduplicated(steps, wide)[k].dependsOn <==>
        0 <= e < |Kept(keys, |keys|)| && InKept(keys, e) in steps[InKept(keys, k)].dependsOn
  {
    var keys := Keys(steps, wide);
    var kept, i := Kept(keys, |keys|), InKept(keys, k);
    CameFrom(steps, wide, k);
    if |kept| == |steps| {
      AllStay(keys);
    } else {
      var now := NewIndexes(keys, |keys|);
      assert Deduplicated(steps, wide)[k].dependsOn == Remapped(steps[i].dependsOn, now);
      if e in Remapped(steps[i].dependsOn, now) {
        var o :| o in steps[i].dependsOn && o in now && now[o] == e;
        NewIndexInverse(keys, o);
      }
      if 0 <= e < |kept| && InKept(keys, e) in steps[i].dependsOn {
        OldIndexInverse(keys, e);
        assert InKept(keys, e) in now && now[InKept(keys, e)] == e;
      }
    }
  }

  ghost function OldPosition(keys: seq<Key>, k: int): int {
    if 0 <= k < |Kept(keys, |keys|)| then InKept(keys, k) else -1
  }

  lemma EdgeFollows(steps: seq<PlanStep>, wide: char -> bool, k: int, e: int)
    requires WellOrdered(steps) && 0 <= k < |Deduplicated(steps, wide)| && e in Deduplicated(steps, wide)[k].dependsOn
    ensures Links(|Deduplicated(steps, wide)|, k, e)
    ensures (OldPosition(Keys(steps, wide), k), OldPosition(Keys(steps, wide), e)) in PlanEdges(DepsOf(steps))
  {
    var keys := Keys(steps, wide);
    if |Kept(keys, |keys|)| == |steps| { AllStay(keys); }
    DependencyFollows(steps, wide, k, e);
    hide Deduplicated, Keys, Kept, Acyclic;
    assert InKept(keys, e) in DepsOf(steps)[InKept(keys, k)];
    assert InKept(keys, k) != InKept(keys, e);
  }

  /** Dropping duplicates keeps a plan in range, free of self-dependencies and acyclic. */
  lemma DedupWellOrdered(steps: seq<PlanStep>, wide: char -> bool)
    requires WellOrdered(steps)
    ensures WellOrdered(Deduplicated(steps, wide))
  {
    hide Deduplicated, Keys, Kept, Links;
    var keys, r := Keys(steps, wide), Deduplicated(steps, wide);
    forall k, e | 0 <= k < |r| && e in r[k].dependsOn ensures Links(|r|, k, e) {
      EdgeFollows(steps, wide, k, e);
    }
    forall k, e | (k, e) in PlanEdges(DepsOf(r))
      ensures (OldPosition(keys, k), OldPosition(keys, e)) in PlanEdges(DepsOf(steps))
    {
      EdgeFollows(steps, wide, k, e);
    }
    HomomorphismAcyclic(PlanEdges(DepsOf(r)), PlanEdges(DepsOf(steps)), (k: int) => OldPosition(keys, k));
  }

  /** The clean-up composes: whatever was dropped to break the cycles, the plan that comes out is in order. */
  lemma CleanPlanOrdered(steps: seq<PlanStep>, wide: char -> bool, removed: set<(int, int)>, r: seq<PlanStep>)
    requires CleanedTo(steps, wide, removed, r)
    ensures WellOrdered(r)
  {
    DedupWellOrdered(Unlooped(Linked(steps, wide), removed), wide);
  }

  // ---- A plan in order ----

  /** What a step refers to is among its dependencies. */
  ghost predicate ReadsListed(steps: seq<PlanStep>, wide: char -> bool) {
    forall i, d :: 0 <= i < |steps| && RefersTo(Tags(steps), wide, i, RefsOfFields(steps[i].params), d) ==> d in steps[i].dependsOn
  }

  lemma {:induction false} ValidSame(n: nat, i: int, deps: seq<int>)
    requires forall d :: d in deps ==> Links(n, i, d)
    ensures ValidDeps(n, i, deps) == deps
  {
    if deps != [] {
      assert deps == deps[..|deps| - 1] + [deps[|deps| - 1]];
      ValidSame(n, i, deps[..|deps| - 1]);
    }
  }

  lemma {:induction false} RefsSame(tags: seq<string>, wide: char -> bool, i: int, deps: seq<int>, refs: seq<Seg>)
    requires forall d :: RefersTo(tags, wide, i, refs, d) ==> d in deps
    ensures WithRefs(tags, wide, i, deps, refs) == deps
  {
    if refs != [] {
      var last, init := refs[|refs| - 1], refs[..|refs| - 1];
      assert refs == init + [last];
      forall d | RefersTo(tags, wide, i, init, d) ensures RefersTo(tags, wide, i, refs, d) {}
      RefsSame(tags, wide, i, deps, init);
      if StepMatch(wide, last) && StepIndexFor(last.name, tags).At? && Links(|tags|, i, StepIndexFor(last.name, tags).index) {
        assert RefersTo(tags, wide, i, refs, StepIndexFor(last.name, tags).index);
      }
    }
  }

  lemma {:induction false} NoneRemoved(ds: seq<int>, n: nat, v: int)
    requires forall k :: 0 <= k < |ds| ==> 0 <= ds[k] < n
    ensures Cleaned(ds, n, v, {}) == ds
  {
    if ds != [] {
      hide *;
      NoneRemoved(ds[..|ds| - 1], n, v);
      LastKept(ds, n, v);
    }
  }

  lemma LastKept(ds: seq<int>, n: nat, v: int)
    requires ds != [] && 0 <= ds[|ds| - 1] < n
    ensures var init, last := ds[..|ds| - 1], ds[|ds| - 1];
      Cleaned(ds, n, v, {}) == Cleaned(init, n, v, {}) + [last] && ds == init + [last]
  {
  }

  /** A plan in order whose reads are listed goes through linking and cycle breaking unchanged. */
  lemma InOrderUnchanged(steps: seq<PlanStep>, wide: char -> bool)
    requires WellOrdered(steps) && ReadsListed(steps, wide)
    ensures Linked(steps, wide) == steps && Unlooped(steps, {}) == steps && BreaksCycles(steps, {})
    ensures CleanedTo(steps, wide, {}, Deduplicated(steps, wide))
  {
    hide Acyclic, Deduplicated, Linked, Unlooped;
    forall i | 0 <= i < |steps| ensures StepUnchanged(steps, wide, i) { StaysSame(steps, wide, i); }
    AllUnchanged(steps, wide);
  }

  ghost predicate StepUnchanged(steps: seq<PlanStep>, wide: char -> bool, i: nat)
    requires i < |steps|
  {
    LinkedDeps(steps, wide, i) == steps[i].dependsOn == Cleaned(steps[i].dependsOn, |steps|, i, {})
  }

  lemma StaysSame(steps: seq<PlanStep>, wide: char -> bool, i: nat)
    requires WellOrdered(steps) && ReadsListed(steps, wide) && i < |steps|
    ensures StepUnchanged(steps, wide, i)
  {
    var deps := steps[i].dependsOn;
    forall d | d in deps ensures Links(|steps|, i, d) {}
    forall d | RefersTo(Tags(steps), wide, i, RefsOfFields(steps[i].params), d) ensures d in deps {}
    forall k | 0 <= k < |deps| ensures 0 <= deps[k] < |steps| { assert deps[k] in deps; }
    assert LinkedDeps(steps, wide, i) == WithRefs(Tags(steps), wide, i, ValidDeps(|steps|, i, deps), RefsOfFields(steps[i].params));
    hide *;
    ValidSame(|steps|, i, deps);
    RefsSame(Tags(steps), wide, i, deps, RefsOfFields(steps[i].params));
    NoneRemoved(deps, |steps|, i);
    UnchangedIs(steps, wide, i);
  }

  lemma UnchangedIs(steps: seq<PlanStep>, wide: char -> bool, i: nat)
    requires i < |steps|
    ensures StepUnchanged(steps, wide, i) <==>
      LinkedDeps(steps, wide, i) == steps[i].dependsOn && Cleaned(steps[i].dependsOn, |steps|, i, {}) == steps[i].dependsOn
  {
    hide LinkedDeps, Cleaned;
  }

  lemma AllUnchanged(steps: seq<PlanStep>, wide: char -> bool)
    requires forall i :: 0 <= i < |steps| ==> StepUnchanged(steps, wide, i)
    ensures Linked(steps, wide) == steps && Unlooped(steps, {}) == steps
  {
    hide LinkedDeps, Cleaned;
    forall i | 0 <= i < |steps| ensures Linked(steps, wide)[i] == steps[i] && Unlooped(steps, {})[i] == steps[i] {
      assert StepUnchanged(steps, wide, i);
    }
  }

  // ---- References across the renumbering ----

  /** The reference, read against the deduplicated plan, finds the step that was at position j. */
  ghost predicate StillFinds(steps: seq<PlanStep>, wide: char -> bool, name: string, j: int) {
    var keys := Keys(steps, wide);
    exists k :: 0 <= k < |Kept(keys, |keys|)| && StepIndexFor(name, Tags(Deduplicated(steps, wide))) == At(k) && InKept(keys, k) == j
  }

  /** Once anything is dropped, a reference still finds its step exactly when that step stayed: a position is
      renumbered and a name is stable, but one that named a dropped step is left as written, and from then on finds
      another step or none. */
  lemma ReferenceFollowsIff(steps: seq<PlanStep>, wide: char -> bool, s: Seg, j: int)
    requires |steps| <= MAX_INT64 && StepMatch(wide, s) && StepIndexFor(s.name, Tags(steps)) == At(j)
    requires |Deduplicated(steps, wide)| < |steps|
    ensures var keys := Keys(steps, wide);
      StillFinds(steps, wide, RenumberSeg(wide, NewIndexes(keys, |keys|), s).name, j) <==> Survives(keys, j)
  {
    var keys := Keys(steps, wide);
    var name' := RenumberSeg(wide, NewIndexes(keys, |keys|), s).name;
    if Survives(keys, j) {
      NewIndexInverse(keys, j);
      var k := |Kept(keys, j)|;
      assert InKept(keys, k) == j;
      if Atoi(s.name).Number? {
        AtoiNumeral(k);
      } else {
        TagFollows(steps, wide, s.name, j);
      }
      assert StepIndexFor(name', Tags(Deduplicated(steps, wide))) == At(k);
    }
  }

  lemma TagFollows(steps: seq<PlanStep>, wide: char -> bool, name: string, j: int)
    requires FirstTag(Tags(steps), name, 0) == At(j) && Survives(Keys(steps, wide), j)
    ensures FirstTag(Tags(Deduplicated(steps, wide)), name, 0) == At(|Kept(Keys(steps, wide), j)|)
  {
    var keys, r := Keys(steps, wide), Deduplicated(steps, wide);
    var kept, k := Kept(keys, |keys|), |Kept(keys, j)|;
    NewIndexInverse(keys, j);
    CameFrom(steps, wide, k);
    assert Tags(r)[k] == name;
    forall m | 0 <= m < k ensures Tags(r)[m] != name {
      CameFrom(steps, wide, m);
      assert kept[m] < kept[k] == j;
      assert Tags(steps)[kept[m]] in Tags(steps)[0..j];
    }
    FirstIs(Tags(r), name, 0, k);
  }
}
