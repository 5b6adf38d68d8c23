/** When grafting a plan that was cleaned and filtered leaves the graph acyclic: what a step still reads is made a
    dependency again, whether the clean-up had dropped it, renumbered past it or merged it in, or the filter had moved
    another step to its position. */
module PlanCycles {
  import opened Values
  import opened Decimal
  import opened Names
  import opened Nets
  import opened Cycles
  import opened Digraph
  import opened PlanGraft
  import opened PlanCleanup
  import opened PlanFilter
  import opened PlanNodes
  import opened PlanShape
  import opened Scheduling

  /** Linking touches nothing but dependencies, and leaves a step waiting for each other step of the plan that it lists or
      that one of its references finds. */
  lemma LinkedIff(steps: seq<PlanStep>, wide: char -> bool, i: nat, d: int)
    requires i < |steps|
    ensures var r := Linked(steps, wide)[i];
      && r.tool == steps[i].tool && r.tag == steps[i].tag && r.params == steps[i].params
      && (d in r.dependsOn <==> 0 <= d < |steps| && d != i && (d in steps[i].dependsOn || ReadsStep(steps, wide, steps[i], d)))
  {
    if RefersTo(Tags(steps), wide, i, RefsOfFields(steps[i].params), d) { assert ReadsStep(steps, wide, steps[i], d); }
  }

  // ---- Waits that were not dependencies ----

  /** What wired steps wait for without having listed it in the plan that was filtered. */
  ghost function Strays(p: Plan, clean: seq<PlanStep>, keep: PlanStep -> bool): set<(int, int)> {
    set e | e in PlanWaits(p.Ids(), p.steps, p.wide) && !AsBefore(clean, keep, e)
  }

  /** Whatever plan in order is filtered and grafted (so every plan the clean-up leaves, duplicates merged, steps dropped
      and steps without a node included), the graph is acyclic exactly when it was and no wait that was not a listed
      dependency leads back. */
  lemma StrayReadsIff(p: Plan, clean: seq<PlanStep>, keep: PlanStep -> bool)
    requires p.Ok() && ClosedNet(p.net) && WellOrdered(clean) && p.steps == Filtered(clean, keep)
    ensures Acyclic(Waits(p.After())) <==>
      Acyclic(Waits(p.net)) && forall e :: e in Strays(p, clean, keep) ==> !Reaches(PlanWaits(p.Ids(), p.steps, p.wide), e.1, e.0)
  {
    GraftAcyclicIff(p);
    var plan := PlanWaits(p.Ids(), p.steps, p.wide);
    var good := set e | e in plan && AsBefore(clean, keep, e);
    AsBeforeAcyclic(clean, keep, good);
    hide AsBefore, PlanWaits;
    OutsideAcyclicIff(plan, good);
  }

  // ---- Where they come from ----

  lemma AllMade(ids: seq<Id>)
    requires forall k :: 0 <= k < |ids| ==> ids[k] != ""
    ensures FirstHole(ids) == |ids|
  {}

  /** What a step refers to, the clean-up had made a dependency: only breaking a cycle can have taken it away. */
  lemma ReadOrRemoved(raw: seq<PlanStep>, wide: char -> bool, removed: set<(int, int)>, i: int, j: int)
    requires var steps := Unlooped(Linked(raw, wide), removed);
      0 <= i < |steps| && Links(|steps|, i, j) && ReadsStep(steps, wide, steps[i], j)
    ensures var steps := Unlooped(Linked(raw, wide), removed);
      (i, j) in PlanEdges(DepsOf(steps)) <==> (i, j) !in removed
  {
    var linked := Linked(raw, wide);
    var steps := Unlooped(linked, removed);
    assert Tags(steps) == Tags(raw) && steps[i].params == raw[i].params;
    assert RefersTo(Tags(raw), wide, i, RefsOfFields(raw[i].params), j);
    assert j in LinkedDeps(raw, wide, i) && linked[i].dependsOn == LinkedDeps(raw, wide, i);
    assert DepsOf(steps)[i] == Cycles.Cleaned(linked[i].dependsOn, |linked|, i, removed);
  }

  /** Without duplicates, a stray wait is a dependency that was dropped to break a cycle, or its target is not where it
      was: some earlier step was filtered out. */
  lemma StrayIsRemovedOrMoved(p: Plan, raw: seq<PlanStep>, removed: set<(int, int)>, keep: PlanStep -> bool, e: (int, int))
    requires var clean := Unlooped(Linked(raw, p.wide), removed);
      p.Ok() && p.steps == Filtered(clean, keep) && e in Strays(p, clean, keep)
    ensures var clean := Unlooped(Linked(raw, p.wide), removed);
      && 0 <= OldPlace(clean, keep, e.0) < |clean| && 0 <= OldPlace(clean, keep, e.1) < |clean|
      && ((OldPlace(clean, keep, e.0), OldPlace(clean, keep, e.1)) in removed || !AllStay(clean, keep, e.1 + 1))
  {
    var clean := Unlooped(Linked(raw, p.wide), removed);
    hide *;
    StrayPlaces(p, clean, keep, e);
    if AllStay(clean, keep, e.1 + 1) { StayedIsRemoved(p, raw, removed, keep, e); }
  }

  lemma StrayPlaces(p: Plan, clean: seq<PlanStep>, keep: PlanStep -> bool, e: (int, int))
    requires p.Ok() && p.steps == Filtered(clean, keep) && e in Strays(p, clean, keep)
    ensures 0 <= e.0 < |p.steps| && 0 <= e.1 < |p.steps| && |p.steps| == |Origins(clean, keep)| <= |clean|
    ensures 0 <= OldPlace(clean, keep, e.0) < |clean| && p.steps[e.0] == clean[OldPlace(clean, keep, e.0)]
    ensures 0 <= OldPlace(clean, keep, e.1) < |clean|
  {
    var r := Origins(clean, keep);
    FilteredAt(clean, keep);
    hide Filtered, Origins, PlanIds, ReadsStep, FirstHole;
    assert r[e.0] in r && r[e.1] in r;
    Spread(r, 0, |r| - 1);
    assert r[|r| - 1] in r;
  }

  lemma StayedIsRemoved(p: Plan, raw: seq<PlanStep>, removed: set<(int, int)>, keep: PlanStep -> bool, e: (int, int))
    requires var clean := Unlooped(Linked(raw, p.wide), removed);
      && p.Ok() && p.steps == Filtered(clean, keep) && |p.steps| == |Origins(clean, keep)| && e in Strays(p, clean, keep)
      && OldPlace(clean, keep, e.0) < |clean| && p.steps[e.0] == clean[OldPlace(clean, keep, e.0)]
      && 0 <= e.1 < |clean| && AllStay(clean, keep, e.1 + 1)
    ensures var clean := Unlooped(Linked(raw, p.wide), removed);
      (OldPlace(clean, keep, e.0), OldPlace(clean, keep, e.1)) in removed
  {
    var clean := Unlooped(Linked(raw, p.wide), removed);
    var i := OldPlace(clean, keep, e.0);
    StaysInPlace(clean, keep, e.1);
    hide Filtered, Origins, Linked, Unlooped, PlanIds, ReadsStep, FirstHole;
    assert DepsOf(clean)[i] == clean[i].dependsOn;
    if e.1 !in clean[i].dependsOn {
      ReadBefore(clean, keep, p.wide, e.0, e.1);
      ReadOrRemoved(raw, p.wide, removed, i, e.1);
    }
  }

  /** A step read by one that stays, at a place where nothing moved, was read by it before. */
  lemma ReadBefore(clean: seq<PlanStep>, keep: PlanStep -> bool, wide: char -> bool, i: int, j: int)
    requires |Filtered(clean, keep)| == |Origins(clean, keep)| && 0 <= i < |Filtered(clean, keep)|
    requires OldPlace(clean, keep, i) < |clean| && Filtered(clean, keep)[i] == clean[OldPlace(clean, keep, i)]
    requires 0 <= j < |clean| && AllStay(clean, keep, j + 1)
    requires ReadsStep(Filtered(clean, keep), wide, Filtered(clean, keep)[i], j)
    ensures ReadsStep(clean, wide, clean[OldPlace(clean, keep, i)], j)
  {
    var kept := Filtered(clean, keep);
    var s :| s in RefsOfFields(kept[i].params) && s.Ref? && s.kind == StepRef && Spellable(s.name, wide)
      && StepIndexFor(s.name, Tags(kept)) == At(j);
    SameFront(clean, keep, j);
    if Atoi(s.name).NotANumber? {
      forall k | 0 <= k < j ensures Tags(clean)[k] != s.name { assert Tags(kept)[k] in Tags(kept)[0..j]; }
      FirstIs(Tags(clean), s.name, 0, j);
    }
  }

  lemma SameFront(clean: seq<PlanStep>, keep: PlanStep -> bool, j: nat)
    requires j < |clean| && AllStay(clean, keep, j + 1)
    ensures j < |Filtered(clean, keep)| && forall k :: 0 <= k <= j ==> Filtered(clean, keep)[k] == clean[k]
  {
    FilteredAt(clean, keep);
    forall k | 0 <= k <= j ensures k < |Filtered(clean, keep)| && Filtered(clean, keep)[k] == clean[k] {
      StaysInPlace(clean, keep, k);
    }
  }

  /** Grafting a cleaned plan with nothing deduplicated or filtered out. */
  ghost predicate GraftsClean(p: Plan, raw: seq<PlanStep>, removed: set<(int, int)>) {
    && p.Ok() && ClosedNet(p.net)
    && BreaksCycles(Linked(raw, p.wide), removed) && p.steps == Unlooped(Linked(raw, p.wide), removed)
  }

  ghost predicate EveryStepMade(p: Plan) {
    forall k :: 0 <= k < |p.steps| ==> p.Ids()[k] != ""
  }

  /** Wired, and the step it reads has a node. */
  ghost predicate StillRead(p: Plan, r: (int, int)) {
    && 0 <= r.0 < FirstHole(p.Ids()) && 0 <= r.1 < |p.steps| && p.Ids()[r.1] != ""
    && ReadsStep(p.steps, p.wide, p.steps[r.0], r.1)
  }

  lemma RemovedLink(p: Plan, raw: seq<PlanStep>, removed: set<(int, int)>)
    requires GraftsClean(p, raw, removed)
    ensures forall r :: r in removed ==> 0 <= r.0 < |p.steps| && Links(|p.steps|, r.0, r.1)
    ensures forall r :: r in removed ==> Reaches(PlanEdges(DepsOf(p.steps)), r.1, r.0)
    ensures WellOrdered(p.steps)
  {
    forall r | r in removed ensures 0 <= r.0 < |p.steps| && Links(|p.steps|, r.0, r.1) {
      assert OnCycle(PlanEdges(DepsOf(Linked(raw, p.wide))), r);
      assert r.1 in LinkedDeps(raw, p.wide, r.0);
    }
  }

  function All(): PlanStep -> bool {
    (step: PlanStep) => true
  }

  lemma {:induction false} NothingFiltered(steps: seq<PlanStep>)
    ensures Filtered(steps, All()) == steps
  {
    if steps != [] { NothingFiltered(steps[..|steps| - 1]); }
  }

  lemma AsListed(steps: seq<PlanStep>, e: (int, int))
    requires 0 <= e.0 < |steps| && 0 <= e.1 < |steps|
    ensures AsBefore(steps, All(), e) <==> e.1 in steps[e.0].dependsOn
  {
    StaysInPlace(steps, All(), e.0);
    StaysInPlace(steps, All(), e.1);
    assert DepsOf(steps)[e.0] == steps[e.0].dependsOn;
  }

  /** Where nothing was deduplicated or filtered out, the stray waits are the dependencies dropped to break cycles that
      are still read. */
  lemma StraysAreRemoved(p: Plan, raw: seq<PlanStep>, removed: set<(int, int)>, r: (int, int))
    requires GraftsClean(p, raw, removed)
    ensures r in Strays(p, p.steps, All()) <==> r in removed && StillRead(p, r)
  {
    RemovedLink(p, raw, removed);
    hide BreaksCycles, WellOrdered, ReadsStep, PlanIds, OnCycle, AsBefore;
    if r in Strays(p, p.steps, All()) || (r in removed && StillRead(p, r)) {
      AsListed(p.steps, r);
      ReadOrRemoved(raw, p.wide, removed, r.0, r.1);
      assert DepsOf(p.steps)[r.0] == p.steps[r.0].dependsOn;
    }
  }

  /** Breaking the cycles of a plan does not keep the graph acyclic: the graph is acyclic exactly when no dropped
      dependency that its step still reads through a reference leads back, because wiring puts those back. When every
      step has a node they all lead back. */
  lemma BrokenCycleComesBackIff(p: Plan, raw: seq<PlanStep>, removed: set<(int, int)>)
    requires GraftsClean(p, raw, removed)
    ensures Acyclic(Waits(p.After())) <==>
      Acyclic(Waits(p.net)) && forall r :: r in removed && StillRead(p, r) ==> !Reaches(PlanWaits(p.Ids(), p.steps, p.wide), r.1, r.0)
    ensures EveryStepMade(p) ==>
      (Acyclic(Waits(p.After())) <==> Acyclic(Waits(p.net)) && forall r :: r in removed ==> !StillRead(p, r))
  {
    RemovedLink(p, raw, removed);
    forall r ensures r in Strays(p, p.steps, All()) <==> r in removed && StillRead(p, r) { StraysAreRemoved(p, raw, removed, r); }
    NothingFiltered(p.steps);
    StrayReadsIff(p, p.steps, All());
    hide Strays, StillRead, GraftsClean, Acyclic, WellOrdered;
    if EveryStepMade(p) {
      DepsInPlan(p);
      forall r | r in removed ensures Reaches(PlanWaits(p.Ids(), p.steps, p.wide), r.1, r.0) {
        ReachesMonotone(PlanEdges(DepsOf(p.steps)), PlanWaits(p.Ids(), p.steps, p.wide), r.1, r.0);
      }
    }
  }

  lemma DepsInPlan(p: Plan)
    requires p.Ok() && EveryStepMade(p) && WellOrdered(p.steps)
    ensures PlanEdges(DepsOf(p.steps)) <= PlanWaits(p.Ids(), p.steps, p.wide)
  {
    AllMade(p.Ids());
    hide PlanIds;
    forall i, j | (i, j) in PlanEdges(DepsOf(p.steps)) ensures (i, j) in PlanWaits(p.Ids(), p.steps, p.wide) {
      assert j in p.steps[i].dependsOn;
    }
  }
}
