/** Dropping the steps that cannot run (agent/executive.go, validatePlanSteps; agent/dispatcher_validation.go,
    validatePlanWiring), between the clean-up and the graft. What stays moves up, and nothing is renumbered. */
module PlanFilter {
  import opened Values
  import opened Decimal
  import opened Names
  import opened Cycles
  import opened Digraph
  import opened PlanGraft
  import opened PlanCleanup
  import opened PlanNodes

  // ---- Which steps stay ----

  predicate HasTaskFiles(params: seq<Field>) {
    exists f :: f in params && f.key == "task_files" && f.value.Arr? && f.value.items != []
  }

  predicate ReadsAnything(params: seq<Field>) {
    exists s :: s in RefsOfFields(params) && s.Ref? && s.name != ""
  }

  /** A compute or edit_file that declares a dependency has to read something. */
  predicate WellFed(step: PlanStep) {
    || step.dependsOn == []
    || (step.tool != "compute" && step.tool != "edit_file")
    || (step.tool == "edit_file" && HasTaskFiles(step.params))
    || ReadsAnything(step.params)
  }

  function Known(reg: Registry): PlanStep -> bool {
    (step: PlanStep) => reg.knows(step.tool)
  }

  function Fed(): PlanStep -> bool {
    (step: PlanStep) => WellFed(step)
  }

  function Runnable(reg: Registry): PlanStep -> bool {
    (step: PlanStep) => reg.knows(step.tool) && WellFed(step)
  }

  // ---- The filter ----

  function Filtered(steps: seq<PlanStep>, keep: PlanStep -> bool): seq<PlanStep> {
    if steps == [] then []
    else
      var last, init := steps[|steps| - 1], steps[..|steps| - 1];
      Filtered(init, keep) + if keep(last) then [last] else []
  }

  /** Where the steps that stay were. */
  function Origins(steps: seq<PlanStep>, keep: PlanStep -> bool): (r: seq<nat>)
    ensures forall i :: i in r <==> 0 <= i < |steps| && keep(steps[i])
    ensures forall a, b :: 0 <= a < b < |r| ==> r[a] < r[b]
  {
    if steps == [] then []
    else
      var last, init := steps[|steps| - 1], steps[..|steps| - 1];
      var before := Origins(init, keep);
      assert forall a :: 0 <= a < |before| ==> before[a] in before;
      before + if keep(last) then [|init|] else []
  }

  lemma {:induction false} FilteredAt(steps: seq<PlanStep>, keep: PlanStep -> bool)
    ensures |Filtered(steps, keep)| == |Origins(steps, keep)|
    ensures forall k :: 0 <= k < |Origins(steps, keep)| ==>
      Origins(steps, keep)[k] < |steps| && Filtered(steps, keep)[k] == steps[Origins(steps, keep)[k]]
  {
    if steps != [] {
      FilteredAt(steps[..|steps| - 1], keep);
      var r := Origins(steps, keep);
      forall k | 0 <= k < |r| ensures r[k] < |steps| { assert r[k] in r; }
    }
  }

  lemma {:induction false} FilteredTwice(steps: seq<PlanStep>, reg: Registry)
    ensures Filtered(Filtered(steps, Known(reg)), Fed()) == Filtered(steps, Runnable(reg))
  {
    if steps != [] {
      var last, init := steps[|steps| - 1], steps[..|steps| - 1];
      FilteredTwice(init, reg);
      var known := Filtered(init, Known(reg));
      assert (known + [last])[..|known|] == known && known + [] == known;
    }
  }

  /** The steps that stay, moved to the front of the array. */
  method Compact(a: array<PlanStep>, n: nat, keep: PlanStep -> bool) returns (m: nat)
    requires n <= a.Length
    modifies a
    ensures m <= n && a[..m] == Filtered(old(a[..n]), keep)
  {
    m := 0;
    for i := 0 to n
      invariant m <= i && a[..m] == Filtered(old(a[..i]), keep)
      invariant forall k :: i <= k < n ==> a[k] == old(a[k])
    {
      ghost var was := old(a[..]);
      assert was[..i + 1][..i] == was[..i] && old(a[..i]) == was[..i] && old(a[..i + 1]) == was[..i + 1];
      if keep(a[i]) {
        a[m] := a[i];
        m := m + 1;
      }
    }
  }

  datatype Checked = Conversational | NothingWired | Checked(steps: seq<PlanStep>)

  /** agent/executive.go, validatePlanSteps: its two loops over the plan, in place. */
  method ValidatePlanSteps(a: array<PlanStep>, reg: Registry) returns (r: Checked)
    modifies a
    ensures r.Conversational? <==> forall k :: 0 <= k < a.Length ==> !reg.knows(old(a[k]).tool)
    ensures r.NothingWired? <==>
      !r.Conversational? && forall k :: 0 <= k < a.Length ==> !Runnable(reg)(old(a[k]))
    ensures r.Checked? ==> r.steps == Filtered(old(a[..]), Runnable(reg)) && r.steps != []
  {
    ghost var was := a[..];
    var n := Compact(a, a.Length, Known(reg));
    assert old(a[..a.Length]) == was;
    NoneLeftIff(was, Known(reg));
    NoneLeftIff(was, Runnable(reg));
    if n == 0 { return Conversational; }
    n := Compact(a, n, Fed());
    FilteredTwice(was, reg);
    if n == 0 { return NothingWired; }
    r := Checked(a[..n]);
  }

  lemma NoneLeftIff(steps: seq<PlanStep>, keep: PlanStep -> bool)
    ensures Filtered(steps, keep) == [] <==> forall k :: 0 <= k < |steps| ==> !keep(steps[k])
  {
    FilteredAt(steps, keep);
    var r := Origins(steps, keep);
    if r != [] { assert r[0] in r; }
    if k :| 0 <= k < |steps| && keep(steps[k]) { assert k in r; }
  }

  /** The step asks for the output of others and reads nothing: a computation that would have to invent its input. */
  ghost predicate Starved(step: PlanStep) {
    && step.dependsOn != [] && (step.tool == "compute" || step.tool == "edit_file")
    && (forall s :: s in RefsOfFields(step.params) && s.Ref? ==> s.name == "")
    && (step.tool == "edit_file" ==> forall f :: f in step.params && f.key == "task_files" && f.value.Arr? ==> f.value.items == [])
  }

  /** Exactly the steps that call a known tool and are not starved stay. */
  lemma StaysIff(steps: seq<PlanStep>, reg: Registry, i: nat)
    requires i < |steps|
    ensures i in Origins(steps, Runnable(reg)) <==> reg.knows(steps[i].tool) && !Starved(steps[i])
  {
    assert |"compute"| == 7 && |"edit_file"| == 9;
  }

  // ---- What a position names afterwards ----

  /** The first n steps all stay. */
  ghost predicate AllStay(steps: seq<PlanStep>, keep: PlanStep -> bool, n: int) {
    forall e :: 0 <= e < n <= |steps| ==> keep(steps[e])
  }

  /** At that position of the filtered plan is the step that was at j. */
  ghost predicate FindsAt(steps: seq<PlanStep>, keep: PlanStep -> bool, at: int, j: int) {
    0 <= at < |Origins(steps, keep)| && Origins(steps, keep)[at] == j
  }

  lemma {:induction false} Spread(r: seq<nat>, a: nat, b: nat)
    requires a <= b < |r| && forall x, y :: 0 <= x < y < |r| ==> r[x] < r[y]
    ensures r[b] - r[a] >= b - a
    decreases b - a
  {
    if a < b { Spread(r, a, b - 1); }
  }

  lemma {:induction false} StaysInPlace(steps: seq<PlanStep>, keep: PlanStep -> bool, d: nat)
    requires d < |steps| && AllStay(steps, keep, d + 1)
    ensures FindsAt(steps, keep, d, d)
  {
    var r := Origins(steps, keep);
    assert d in r;
    var k :| 0 <= k < |r| && r[k] == d;
    Spread(r, 0, k);
    if k < d {
      StaysInPlace(steps, keep, k);
    }
  }

  /** A position still names its step exactly when that step and every earlier one stays. */
  lemma PositionFollowsIff(steps: seq<PlanStep>, keep: PlanStep -> bool, d: nat)
    requires d < |steps|
    ensures FindsAt(steps, keep, d, d) <==> AllStay(steps, keep, d + 1)
  {
    if FindsAt(steps, keep, d, d) {
      var r := Origins(steps, keep);
      forall e | 0 <= e <= d ensures keep(steps[e]) {
        Spread(r, e, d);
        Spread(r, 0, e);
        assert r[e] in r;
      }
    }
    if AllStay(steps, keep, d + 1) { StaysInPlace(steps, keep, d); }
  }

  /** The reference, read against the filtered plan, finds the step that was at position j. */
  ghost predicate StillFinds(steps: seq<PlanStep>, keep: PlanStep -> bool, name: string, j: int) {
    exists k :: StepIndexFor(name, Tags(Filtered(steps, keep))) == At(k) && FindsAt(steps, keep, k, j)
  }

  /** A reference by name still finds its step exactly when that stays; one by position only when every earlier step
      does too, for nothing renumbers it. */
  lemma ReferenceFollowsIff(steps: seq<PlanStep>, keep: PlanStep -> bool, name: string, j: nat)
    requires j < |steps| && StepIndexFor(name, Tags(steps)) == At(j)
    ensures StillFinds(steps, keep, name, j) <==>
      if Atoi(name).Number? then AllStay(steps, keep, j + 1) else keep(steps[j])
  {
    var r, kept := Origins(steps, keep), Filtered(steps, keep);
    if Atoi(name).Number? {
      PositionFollowsIff(steps, keep, j);
      assert StepIndexFor(name, Tags(kept)) == At(j);
    } else {
      if keep(steps[j]) { NameFollows(steps, keep, name, j); }
      if StillFinds(steps, keep, name, j) {
        var k :| StepIndexFor(name, Tags(kept)) == At(k) && FindsAt(steps, keep, k, j);
        assert r[k] in r;
      }
    }
  }

  lemma NameFollows(steps: seq<PlanStep>, keep: PlanStep -> bool, name: string, j: nat)
    requires j < |steps| && FirstTag(Tags(steps), name, 0) == At(j) && keep(steps[j]) && Atoi(name).NotANumber?
    ensures StillFinds(steps, keep, name, j)
  {
    var r, kept := Origins(steps, keep), Filtered(steps, keep);
    FilteredAt(steps, keep);
    assert j in r;
    var k :| 0 <= k < |r| && r[k] == j;
    forall m | 0 <= m < k ensures Tags(kept)[m] != name {
      assert r[m] < r[k];
      assert Tags(steps)[r[m]] in Tags(steps)[0..j];
    }
    FirstIs(Tags(kept), name, 0, k);
    assert FindsAt(steps, keep, k, j);
  }

  // ---- Whether the plan is still in order ----

  ghost function OldPlace(steps: seq<PlanStep>, keep: PlanStep -> bool, k: int): int {
    if 0 <= k < |Origins(steps, keep)| then Origins(steps, keep)[k] else -1
  }

  /** The edge joins two steps of which the one listed the other before the filter. */
  ghost predicate AsBefore(steps: seq<PlanStep>, keep: PlanStep -> bool, e: (int, int)) {
    (OldPlace(steps, keep, e.0), OldPlace(steps, keep, e.1)) in PlanEdges(DepsOf(steps))
  }

  /** Edges that are as before make no cycle. */
  lemma AsBeforeAcyclic(steps: seq<PlanStep>, keep: PlanStep -> bool, edges: set<(int, int)>)
    requires WellOrdered(steps) && forall e :: e in edges ==> AsBefore(steps, keep, e)
    ensures Acyclic(edges)
  {
    forall x, y | (x, y) in edges ensures (OldPlace(steps, keep, x), OldPlace(steps, keep, y)) in PlanEdges(DepsOf(steps)) {
      assert AsBefore(steps, keep, (x, y));
    }
    HomomorphismAcyclic(edges, PlanEdges(DepsOf(steps)), (k: int) => OldPlace(steps, keep, k));
  }

  ghost predicate InRange(steps: seq<PlanStep>) {
    forall k, d :: 0 <= k < |steps| && d in steps[k].dependsOn ==> Links(|steps|, k, d)
  }

  /** A plan in order stays so exactly when no position falls off the end or onto its own step, and none that now
      names another step leads back. */
  lemma FilteredOrderedIff(steps: seq<PlanStep>, keep: PlanStep -> bool)
    requires WellOrdered(steps)
    ensures var kept := Filtered(steps, keep);
      var edges := PlanEdges(DepsOf(kept));
      WellOrdered(kept) <==>
        InRange(kept) && forall e :: e in edges && !AsBefore(steps, keep, e) ==> !Reaches(edges, e.1, e.0)
  {
    var edges := PlanEdges(DepsOf(Filtered(steps, keep)));
    var good := set e | e in edges && AsBefore(steps, keep, e);
    AsBeforeAcyclic(steps, keep, good);
    hide AsBefore, PlanEdges;
    OutsideAcyclicIff(edges, good);
  }

  /** In particular when no step lists a dropped step or one behind it. */
  lemma FollowedOrdered(steps: seq<PlanStep>, keep: PlanStep -> bool)
    requires WellOrdered(steps)
    requires forall i, d :: 0 <= i < |steps| && keep(steps[i]) && d in steps[i].dependsOn ==> AllStay(steps, keep, d + 1)
    ensures WellOrdered(Filtered(steps, keep))
  {
    var r, kept := Origins(steps, keep), Filtered(steps, keep);
    FilteredAt(steps, keep);
    forall k, d | 0 <= k < |kept| && d in kept[k].dependsOn ensures Links(|kept|, k, d) && AsBefore(steps, keep, (k, d)) {
      assert r[k] in r;
      PositionFollowsIff(steps, keep, d);
      assert d in DepsOf(steps)[r[k]];
    }
    FilteredOrderedIff(steps, keep);
  }
}
