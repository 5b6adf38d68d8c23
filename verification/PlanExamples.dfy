/** Plans that come out of the clean-up in order and leave the graph cyclic all the same. */
module PlanExamples {
  import opened Values
  import opened Decimal
  import opened Nets
  import opened Names
  import opened Cycles
  import opened Digraph
  import opened PlanGraft
  import opened PlanCleanup
  import opened PlanNodes
  import opened PlanShape
  import opened PlanLaws
  import opened PlanCycles
  import opened PlanFilter
  import opened Scheduling
  import Templates

  // ---- Two steps that read each other ----

  const EACH_OTHER: seq<PlanStep> := [
    PlanStep("bash", "a", [Field("command", Str([Ref(StepRef, "b", "output")]))], []),
    PlanStep("bash", "b", [Field("command", Str([Ref(StepRef, "a", "output")]))], [])]

  lemma TwoNames(tags: seq<string>)
    requires tags == ["a", "b"]
    ensures StepIndexFor("a", tags) == At(0) && StepIndexFor("b", tags) == At(1)
  {
    NotNumeric("a");
    NotNumeric("b");
    assert "a"[0] != "b"[0];
    FirstIs(tags, "a", 0, 0);
    FirstIs(tags, "b", 0, 1);
  }

  lemma EachReadsTheOther(wide: char -> bool, steps: seq<PlanStep>)
    requires |steps| == 2 && Tags(steps) == Tags(EACH_OTHER)
    requires steps[0].params == EACH_OTHER[0].params && steps[1].params == EACH_OTHER[1].params
    ensures ReadsStep(steps, wide, steps[0], 1) && ReadsStep(steps, wide, steps[1], 0)
  {
    var a, b := Ref(StepRef, "a", "output"), Ref(StepRef, "b", "output");
    assert Tags(EACH_OTHER) == ["a", "b"];
    TwoNames(Tags(steps));
    Templates.OneRef(a);
    Templates.OneRef(b);
    assert RefsOfFields(steps[0].params) == [b] && RefsOfFields(steps[1].params) == [a];
    assert b in RefsOfFields(steps[0].params) && a in RefsOfFields(steps[1].params);
  }

  lemma EachOtherCycles(wide: char -> bool)
    ensures !Acyclic(PlanEdges(DepsOf(Linked(EACH_OTHER, wide))))
  {
    var linked := Linked(EACH_OTHER, wide);
    assert Tags(linked) == Tags(EACH_OTHER);
    EachReadsTheOther(wide, linked);
    Linking(EACH_OTHER, wide, 0, 1);
    Linking(EACH_OTHER, wide, 1, 0);
    var edges := PlanEdges(DepsOf(linked));
    hide PlanEdges, ReadsStep;
    EdgeLeads(edges, 1, 0);
    LeadsReaches(edges, 1, 0);
    StepThenReach(edges, 0, 1, 0);
  }

  /** Two steps that read each other pass the clean-up and still leave the graph cyclic. */
  lemma CycleComesBackExample(p: Plan, removed: set<(int, int)>)
    requires GraftsClean(p, EACH_OTHER, removed) && EveryStepMade(p)
    ensures !Acyclic(Waits(p.After()))
  {
    BrokenCycleComesBackIff(p, EACH_OTHER, removed);
    EachOtherCycles(p.wide);
    var r :| r in removed;
    RemovedIsRead(p.wide, removed, r);
    RemovedLink(p, EACH_OTHER, removed);
    AllMade(p.Ids());
    assert StillRead(p, r);
  }

  lemma RemovedIsRead(wide: char -> bool, removed: set<(int, int)>, r: (int, int))
    requires var linked := Linked(EACH_OTHER, wide); OnCycle(PlanEdges(DepsOf(linked)), r)
    ensures var steps := Unlooped(Linked(EACH_OTHER, wide), removed);
      0 <= r.0 < |steps| && ReadsStep(steps, wide, steps[r.0], r.1)
  {
    var steps := Unlooped(Linked(EACH_OTHER, wide), removed);
    assert r.1 in LinkedDeps(EACH_OTHER, wide, r.0);
    assert Tags(steps) == Tags(EACH_OTHER);
    EachReadsTheOther(wide, steps);
    hide ReadsStep;
  }

  lemma Linking(raw: seq<PlanStep>, wide: char -> bool, i: int, j: int)
    requires 0 <= i < |raw| && Links(|raw|, i, j) && ReadsStep(Linked(raw, wide), wide, Linked(raw, wide)[i], j)
    ensures (i, j) in PlanEdges(DepsOf(Linked(raw, wide)))
  {
    assert Tags(Linked(raw, wide)) == Tags(raw);
    assert RefersTo(Tags(raw), wide, i, RefsOfFields(raw[i].params), j);
    assert j in DepsOf(Linked(raw, wide))[i];
  }

  const ANY_TOOL: Registry := Registry(t => true, t => "")

  /** The plan as the clean-up leaves it when it drops the second step's dependency. */
  ghost function Broken(wide: char -> bool): seq<PlanStep> {
    Unlooped(Linked(EACH_OTHER, wide), {(1, 0)})
  }

  lemma LinkedEachOther(wide: char -> bool)
    ensures DepsOf(Linked(EACH_OTHER, wide)) == [[1], [0]]
  {
    var a, b := Ref(StepRef, "a", "output"), Ref(StepRef, "b", "output");
    assert Tags(EACH_OTHER) == ["a", "b"];
    TwoNames(Tags(EACH_OTHER));
    Templates.OneRef(a);
    Templates.OneRef(b);
    assert RefsOfFields(EACH_OTHER[0].params) == [b] && RefsOfFields(EACH_OTHER[1].params) == [a];
    OneLink(Tags(EACH_OTHER), wide, 0, b, 1);
    OneLink(Tags(EACH_OTHER), wide, 1, a, 0);
  }

  lemma OneLink(tags: seq<string>, wide: char -> bool, i: int, s: Seg, d: int)
    requires StepMatch(wide, s) && StepIndexFor(s.name, tags) == At(d) && Links(|tags|, i, d)
    ensures WithRefs(tags, wide, i, [], [s]) == [d]
  {
    assert [s][..0] == [];
    assert WithRefs(tags, wide, i, [], []) == [];
  }

  lemma UnloopedDeps(steps: seq<PlanStep>, removed: set<(int, int)>, i: nat)
    requires i < |steps|
    ensures DepsOf(Unlooped(steps, removed))[i] == Cycles.Cleaned(DepsOf(steps)[i], |steps|, i, removed)
  {
    hide Cycles.Cleaned;
  }

  lemma CleanedOne(d: int, n: nat, v: int, removed: set<(int, int)>)
    ensures Cycles.Cleaned([d], n, v, removed) == if 0 <= d < n && (v, d) !in removed then [d] else []
  {
    assert [d][..0] == [];
  }

  lemma BrokenDeps(wide: char -> bool)
    ensures DepsOf(Broken(wide)) == [[1], []]
  {
    var linked := Linked(EACH_OTHER, wide);
    assert Broken(wide) == Unlooped(linked, {(1, 0)}) && |linked| == 2;
    hide *;
    LinkedEachOther(wide);
    UnloopedDeps(linked, {(1, 0)}, 0);
    UnloopedDeps(linked, {(1, 0)}, 1);
    CleanedOne(1, 2, 0, {(1, 0)});
    CleanedOne(0, 2, 1, {(1, 0)});
    OfTwo(DepsOf(Broken(wide)), [1], []);
  }

  lemma OfTwo(deps: Deps, a: seq<int>, b: seq<int>)
    requires |deps| == 2 && deps[0] == a && deps[1] == b
    ensures deps == [a, b]
  {}

  lemma OneWayLeft()
    ensures OnCycle(PlanEdges([[1], [0]]), (1, 0)) && !Acyclic(PlanEdges([[1], [0]]))
    ensures Reaches(PlanEdges([[1], []]), 0, 1) && Acyclic(PlanEdges([[1], []]))
  {
    var before, after := PlanEdges([[1], [0]]), PlanEdges([[1], []]);
    assert (0, 1) in before && (1, 0) in before && (0, 1) in after;
    RankedAcyclic(after, (i: int) => -i);
    hide PlanEdges;
    EdgeLeads(before, 0, 1);
    LeadsReaches(before, 0, 1);
    StepThenReach(before, 1, 0, 1);
    EdgeLeads(after, 0, 1);
    LeadsReaches(after, 0, 1);
  }

  lemma BrokenInRange(wide: char -> bool)
    ensures forall i, d :: 0 <= i < |Broken(wide)| && d in Broken(wide)[i].dependsOn ==> Links(|Broken(wide)|, i, d)
  {
    BrokenDeps(wide);
    var steps := Broken(wide);
    assert steps[0].dependsOn == DepsOf(steps)[0] == [1] && steps[1].dependsOn == DepsOf(steps)[1] == [];
    hide Broken;
  }

  lemma BreaksEachOther(wide: char -> bool)
    ensures BreaksCycles(Linked(EACH_OTHER, wide), {(1, 0)})
  {
    assert Broken(wide) == Unlooped(Linked(EACH_OTHER, wide), {(1, 0)});
    hide *;
    LinkedEachOther(wide);
    BrokenDeps(wide);
    BrokenInRange(wide);
    OneWayLeft();
    OneRemoved(Linked(EACH_OTHER, wide), (1, 0));
  }

  lemma OneRemoved(steps: seq<PlanStep>, r: (int, int))
    requires var after := Unlooped(steps, {r});
      && (forall i, d :: 0 <= i < |after| && d in after[i].dependsOn ==> Links(|after|, i, d))
      && Acyclic(PlanEdges(DepsOf(after))) && Reaches(PlanEdges(DepsOf(after)), r.1, r.0)
    requires OnCycle(PlanEdges(DepsOf(steps)), r) && !Acyclic(PlanEdges(DepsOf(steps)))
    ensures BreaksCycles(steps, {r})
  {
    hide Unlooped, PlanEdges, Acyclic, OnCycle, Reaches, DepsOf, Links;
  }

  lemma BrokenSteps(wide: char -> bool)
    ensures var steps := Broken(wide);
      && |steps| == 2 && Tags(steps) == ["a", "b"] && steps[0].tool == steps[1].tool == "bash"
      && steps[0].params == EACH_OTHER[0].params && steps[1].params == EACH_OTHER[1].params
  {}

  lemma LoneKey(tags: seq<string>, wide: char -> bool, params: seq<Field>, name: string, d: int)
    requires params == [Field("command", Str([Ref(StepRef, name, "output")]))]
    requires Spellable(name, wide) && StepIndexFor(name, tags) == At(d)
    ensures KeyOf(tags, wide, "bash", params) == Key("bash", Source(d, "output"))
  {
    assert Templates.LeavesOfFields(params) == [[Ref(StepRef, name, "output")]];
  }

  lemma BrokenKeys(wide: char -> bool)
    ensures var keys := Keys(Broken(wide), wide);
      |keys| == 2 && keys[0] == Key("bash", Source(1, "output")) && keys[1] == Key("bash", Source(0, "output"))
  {
    var steps := Broken(wide);
    BrokenSteps(wide);
    hide Broken, KeyOf, StepIndexFor;
    TwoNames(Tags(steps));
    LoneKey(Tags(steps), wide, steps[0].params, "b", 1);
    LoneKey(Tags(steps), wide, steps[1].params, "a", 0);
  }

  /** It is what the clean-up leaves: nothing is deduplicated. */
  lemma NothingDropped(wide: char -> bool)
    ensures CleanedTo(EACH_OTHER, wide, {(1, 0)}, Broken(wide))
  {
    BreaksEachOther(wide);
    BrokenKeys(wide);
    var keys := Keys(Broken(wide), wide);
    hide Keys, BreaksCycles, Kept, Linked, Unlooped;
    assert keys[..1] == [keys[0]] && keys[..0] == [];
    assert keys[0] != keys[1];
    AllKept(keys, 2);
  }

  lemma BothPaid(wide: char -> bool)
    ensures var p := Plan(EMPTY, ANY_TOOL, Broken(wide), wide, 2);
      p.Ok() && ClosedNet(p.net) && EveryStepMade(p)
  {
    BrokenCounts(wide);
    assert |Broken(wide)| == 2;
    hide Broken;
    TwoPaid(Broken(wide));
  }

  lemma BrokenCounts(wide: char -> bool)
    ensures DepsCount(Broken(wide))
  {
    BrokenDeps(wide);
    hide Broken;
    forall k | 0 <= k < |Broken(wide)| ensures Counts(Broken(wide)[k].dependsOn) {
      assert Broken(wide)[k].dependsOn == DepsOf(Broken(wide))[k];
    }
  }

  lemma TwoPaid(steps: seq<PlanStep>)
    requires |steps| == 2
    ensures forall k :: 0 <= k < 2 ==> PlanIds(0, ANY_TOOL, steps, 2)[k] != ""
  {
    assert Accepted(ANY_TOOL, steps[0]) && Accepted(ANY_TOOL, steps[1]);
  }

  /** So it does happen: on an empty graph with both steps paid for, the cleaned plan is grafted whole and the graph is
      cyclic. */
  lemma CycleComesBackHappens(wide: char -> bool)
    ensures var p := Plan(EMPTY, ANY_TOOL, Broken(wide), wide, 2);
      && CleanedTo(EACH_OTHER, wide, {(1, 0)}, p.steps) && GraftsClean(p, EACH_OTHER, {(1, 0)}) && EveryStepMade(p)
      && !Acyclic(Waits(p.After()))
  {
    assert Broken(wide) == Unlooped(Linked(EACH_OTHER, wide), {(1, 0)});
    BothPaid(wide);
    hide Broken, BreaksCycles, Linked, Unlooped, PlanIds, ClosedNet, Acyclic;
    NothingDropped(wide);
    BreaksEachOther(wide);
    CycleComesBackExample(Plan(EMPTY, ANY_TOOL, Broken(wide), wide, 2), {(1, 0)});
  }

  // ---- A reference that outlives the step it named ----

  const SEARCH: PlanStep := PlanStep("web_search", "", [], [])
  const FETCH: PlanStep := PlanStep("web_fetch", "", [Field("url", Str([Ref(StepRef, "0", "url")]))], [0])
  const USE: PlanStep := PlanStep("bash", "", [Field("text", Str([Ref(StepRef, "3", "content")]))], [3])
  const REPORT: PlanStep := PlanStep("bash", "", [Field("text", Str([Ref(StepRef, "2", "content")]))], [2])

  /** Steps 1 and 3 fetch the same, 2 reads 3, and 4 reads 2. */
  const FETCH_TWICE: seq<PlanStep> := [SEARCH, FETCH, USE, FETCH, REPORT]

  lemma OneRefKey(tags: seq<string>, wide: char -> bool, step: PlanStep, key: string, n: nat, path: string)
    requires n <= MAX_INT64 && step.params == [Field(key, Str([Ref(StepRef, Numeral(n), path)]))]
    ensures KeyOf(tags, wide, step.tool, step.params) == Key(step.tool, Source(n, path))
  {
    AtoiNumeral(n);
    var t := [Ref(StepRef, Numeral(n), path)];
    assert Templates.LeavesOfFields(step.params) == [t];
  }

  lemma ExampleKeys(wide: char -> bool)
    ensures var keys := Keys(FETCH_TWICE, wide);
      && keys[0] == NoKey && keys[1] == keys[3] == Key("web_fetch", Source(0, "url"))
      && keys[2] == Key("bash", Source(3, "content")) && keys[4] == Key("bash", Source(2, "content"))
  {
    assert Numeral(0) == "0" && Numeral(2) == "2" && Numeral(3) == "3";
    OneRefKey(Tags(FETCH_TWICE), wide, FETCH, "url", 0, "url");
    OneRefKey(Tags(FETCH_TWICE), wide, USE, "text", 3, "content");
    OneRefKey(Tags(FETCH_TWICE), wide, REPORT, "text", 2, "content");
  }

  lemma DroppedIs(keys: seq<Key>, i: nat)
    requires i < |keys|
    ensures Dropped(keys, i) <==> keys[i] != NoKey && exists j :: 0 <= j < i && keys[j] == keys[i]
  {
    if j :| 0 <= j < i && keys[j] == keys[i] { assert keys[..i][j] == keys[i]; }
  }

  lemma NoneKept(keys: seq<Key>)
    ensures Kept(keys, 0) == []
  {}

  lemma FourthOfFive(keys: seq<Key>)
    requires |keys| == 5 && keys[0] == NoKey && keys[1] == keys[3] != NoKey
    requires keys[2] != NoKey && keys[2] != keys[1] && keys[4] != keys[1] && keys[4] != keys[2] && keys[4] != NoKey
    ensures Kept(keys, 5) == [0, 1, 2, 4] && Dropped(keys, 3)
  {
    hide *;
    DroppedIs(keys, 0);
    DroppedIs(keys, 1);
    DroppedIs(keys, 2);
    DroppedIs(keys, 3);
    DroppedIs(keys, 4);
    AllButFourth(keys);
  }

  lemma AllButFourth(keys: seq<Key>)
    requires |keys| == 5 && Dropped(keys, 3)
    requires !Dropped(keys, 0) && !Dropped(keys, 1) && !Dropped(keys, 2) && !Dropped(keys, 4)
    ensures Kept(keys, 5) == [0, 1, 2, 4]
  {
    hide *;
    NoneKept(keys);
    NextKept(keys, 0);
    NextKept(keys, 1);
    NextKept(keys, 2);
    NextKept(keys, 3);
    NextKept(keys, 4);
  }

  function ExampleRank(i: int): int {
    if i == 0 then 0 else if i == 2 then 2 else if i == 4 then 3 else 1
  }

  lemma ExampleOrdered()
    ensures WellOrdered(FETCH_TWICE)
  {
    RankedAcyclic(PlanEdges(DepsOf(FETCH_TWICE)), ExampleRank);
    hide Acyclic;
  }

  lemma LoneRefKept(wide: char -> bool, now: map<int, nat>, key: string, n: nat, path: string)
    requires n <= MAX_INT64 && (n in now ==> now[n] == n)
    ensures var fields := [Field(key, Str([Ref(StepRef, Numeral(n), path)]))];
      MapFields(Renumberer(wide, now), fields) == fields
  {
    AtoiNumeral(n);
    var t := [Ref(StepRef, Numeral(n), path)];
    assert MapText(Renumberer(wide, now), t) == t;
  }

  lemma ExampleKept(wide: char -> bool)
    ensures var keys := Keys(FETCH_TWICE, wide);
      && Kept(keys, |keys|) == [0, 1, 2, 4] && 3 !in NewIndexes(keys, |keys|)
      && NewIndexes(keys, |keys|)[2] == 2 && 2 in NewIndexes(keys, |keys|)
  {
    var keys := Keys(FETCH_TWICE, wide);
    ExampleKeys(wide);
    hide Keys;
    FourthOfFive(keys);
    assert Kept(keys, 5)[2] == 2;
    OldIndexInverse(keys, 2);
  }

  /** No focus is merged into the two readers. */
  lemma ExampleSurvivors(wide: char -> bool)
    ensures var keys := Keys(FETCH_TWICE, wide);
      Survivor(FETCH_TWICE, keys, 2) == USE && Survivor(FETCH_TWICE, keys, 4) == REPORT
  {
    ExampleKeys(wide);
    var keys := Keys(FETCH_TWICE, wide);
    hide Keys;
    assert Merged(FETCH_TWICE, keys, 2, 3) == USE.params;
    assert Merged(FETCH_TWICE, keys, 2, 4) == USE.params;
    assert Merged(FETCH_TWICE, keys, 2, 5) == USE.params;
    assert Merged(FETCH_TWICE, keys, 4, 5) == REPORT.params;
  }

  lemma ReaderRenumbered(wide: char -> bool, now: map<int, nat>)
    requires 3 !in now && 2 in now && now[2] == 2
    ensures Renumbered(wide, now, USE) == USE.(dependsOn := []) && Renumbered(wide, now, REPORT) == REPORT
  {
    assert Numeral(2) == "2" && Numeral(3) == "3";
    LoneRefKept(wide, now, "text", 3, "content");
    LoneRefKept(wide, now, "text", 2, "content");
    assert [3][..0] == [] && [2][..0] == [];
    assert Remapped([], now) == [];
    assert Remapped([3], now) == [] && Remapped([2], now) == [] + [now[2]];
    hide Remapped, MapFields;
  }

  /** Both readers come through with their references as written; the first one's dependency is gone. */
  lemma ExampleSteps(wide: char -> bool)
    ensures var r := Deduplicated(FETCH_TWICE, wide);
      && |r| == 4 && r[2] == USE.(dependsOn := []) && r[3] == REPORT
  {
    var keys := Keys(FETCH_TWICE, wide);
    hide Keys, Kept, NewIndexes, Renumbered, Survivor;
    ExampleKept(wide);
    ExampleSurvivors(wide);
    ReaderRenumbered(wide, NewIndexes(keys, |keys|));
    assert InKept(keys, 2) == 2 && InKept(keys, 3) == 4;
  }

  /** Afterwards the reference to the dropped step names the step that reads its own reader: the plan is in order, and
      the two steps read each other. */
  lemma StaleReferenceExample(wide: char -> bool)
    ensures WellOrdered(FETCH_TWICE) && WellOrdered(Deduplicated(FETCH_TWICE, wide))
    ensures var r := Deduplicated(FETCH_TWICE, wide);
      && |r| == 4 && ReadsStep(r, wide, r[2], 3) && 3 !in r[2].dependsOn && 2 in r[3].dependsOn
  {
    ExampleOrdered();
    hide WellOrdered, Deduplicated;
    DedupWellOrdered(FETCH_TWICE, wide);
    ExampleSteps(wide);
    var r := Deduplicated(FETCH_TWICE, wide);
    var s := Ref(StepRef, "3", "content");
    Templates.OneRef(s);
    assert RefsOfFields(r[2].params) == [s];
    assert s in RefsOfFields(r[2].params);
    assert Numeral(3) == "3";
    AtoiNumeral(3);
  }

  /** Grafted whole, that plan leaves the graph cyclic. */
  lemma StaleReferenceCycles(p: Plan)
    requires p.Ok() && ClosedNet(p.net) && p.steps == Deduplicated(FETCH_TWICE, p.wide) && EveryStepMade(p)
    ensures !Acyclic(Waits(p.After()))
  {
    StaleReferenceExample(p.wide);
    StaleStray(p);
    var plan := PlanWaits(p.Ids(), p.steps, p.wide);
    hide *;
    EdgeLeads(plan, 3, 2);
    LeadsReaches(plan, 3, 2);
    StepThenReach(plan, 2, 3, 2);
    NotAcyclic(plan, 2);
    GraftAcyclicIff(p);
  }

  lemma NotAcyclic(edges: set<(int, int)>, a: int)
    requires Leads(edges, a, a)
    ensures !Acyclic(edges)
  {}

  lemma StaleStray(p: Plan)
    requires p.Ok() && p.steps == Deduplicated(FETCH_TWICE, p.wide) && EveryStepMade(p)
    ensures (3, 2) in PlanWaits(p.Ids(), p.steps, p.wide) && (2, 3) in PlanWaits(p.Ids(), p.steps, p.wide)
  {
    StaleReferenceExample(p.wide);
    hide Deduplicated, WellOrdered, ReadsStep, PlanIds;
    AllMade(p.Ids());
    assert NamesStep(p.steps, p.wide, p.steps[2], 3) && NamesStep(p.steps, p.wide, p.steps[3], 2);
  }

  lemma ExampleReads(wide: char -> bool)
    ensures ReadsListed(FETCH_TWICE, wide)
  {
    assert Numeral(0) == "0" && Numeral(2) == "2" && Numeral(3) == "3";
    AtoiNumeral(0);
    AtoiNumeral(2);
    AtoiNumeral(3);
    Templates.OneRef(Ref(StepRef, "0", "url"));
    Templates.OneRef(Ref(StepRef, "2", "content"));
    Templates.OneRef(Ref(StepRef, "3", "content"));
    assert RefsOfFields(FETCH.params) == [Ref(StepRef, "0", "url")];
    assert RefsOfFields(USE.params) == [Ref(StepRef, "3", "content")];
    assert RefsOfFields(REPORT.params) == [Ref(StepRef, "2", "content")];
  }

  lemma ExamplePaid(wide: char -> bool)
    ensures var p := Plan(EMPTY, ANY_TOOL, Deduplicated(FETCH_TWICE, wide), wide, 4);
      p.Ok() && ClosedNet(p.net) && EveryStepMade(p)
  {
    var steps := Deduplicated(FETCH_TWICE, wide);
    ExampleOrdered();
    ExampleSteps(wide);
    hide Deduplicated, Acyclic;
    DedupWellOrdered(FETCH_TWICE, wide);
    AllPaid(steps, wide);
  }

  lemma AllPaid(steps: seq<PlanStep>, wide: char -> bool)
    requires WellOrdered(steps)
    ensures var p := Plan(EMPTY, ANY_TOOL, steps, wide, |steps|);
      p.Ok() && ClosedNet(p.net) && EveryStepMade(p)
  {
    hide Acyclic;
    forall k | 0 <= k < |steps| ensures Counts(steps[k].dependsOn) {
      forall j | 0 <= j < |steps[k].dependsOn| ensures steps[k].dependsOn[j] >= 0 {
        assert steps[k].dependsOn[j] in steps[k].dependsOn;
      }
    }
  }

  lemma ExampleClean(wide: char -> bool)
    ensures CleanedTo(FETCH_TWICE, wide, {}, Deduplicated(FETCH_TWICE, wide))
  {
    hide *;
    ExampleOrdered();
    ExampleReads(wide);
    InOrderUnchanged(FETCH_TWICE, wide);
  }

  /** So it does happen: the clean-up leaves exactly that plan, and grafted onto an empty graph with every step paid for
      it makes a cycle. */
  lemma StaleReferenceHappens(wide: char -> bool)
    ensures var p := Plan(EMPTY, ANY_TOOL, Deduplicated(FETCH_TWICE, wide), wide, 4);
      && p.Ok() && ClosedNet(p.net) && EveryStepMade(p)
      && CleanedTo(FETCH_TWICE, wide, {}, p.steps) && !Acyclic(Waits(p.After()))
  {
    hide *;
    ExampleClean(wide);
    ExamplePaid(wide);
    StaleReferenceCycles(Plan(EMPTY, ANY_TOOL, Deduplicated(FETCH_TWICE, wide), wide, 4));
  }

  // ---- Positions that name another step once one is dropped ----

  function Bash(deps: seq<int>): PlanStep {
    PlanStep("bash", "", [], deps)
  }

  const BASH_ONLY: Registry := Registry(t => t == "bash", t => "")

  /** Step 0 has an unknown tool; 3 waits for 1, 1 for 2, and 2 for 0. */
  const SHIFTED: seq<PlanStep> := [PlanStep("guess", "", [], []), Bash([2]), Bash([0]), Bash([1])]

  function ShiftedRank(i: int): int {
    if i == 0 then 0 else if i == 2 then 1 else if i == 1 then 2 else 3
  }

  lemma ShiftedOrdered(wide: char -> bool)
    ensures WellOrdered(SHIFTED) && ReadsListed(SHIFTED, wide)
  {
    RankedAcyclic(PlanEdges(DepsOf(SHIFTED)), ShiftedRank);
    hide Acyclic;
  }

  lemma NoKeys(steps: seq<PlanStep>, wide: char -> bool)
    requires forall i :: 0 <= i < |steps| ==> steps[i].params == []
    ensures Deduplicated(steps, wide) == steps
  {
    var keys := Keys(steps, wide);
    forall i | 0 <= i < |keys| ensures keys[i] == NoKey { assert Templates.LeavesOfFields(steps[i].params) == []; }
    hide Keys;
    AllKept(keys, |keys|);
  }

  lemma BashRuns(deps: seq<int>)
    ensures Runnable(BASH_ONLY)(Bash(deps))
  {
    var step := Bash(deps);
    assert BASH_ONLY.knows(step.tool);
    assert |step.tool| == 4 && |"compute"| == 7 && |"edit_file"| == 9;
    assert WellFed(step);
  }

  lemma ShiftedFiltered()
    ensures Filtered(SHIFTED, Runnable(BASH_ONLY)) == [Bash([2]), Bash([0]), Bash([1])]
  {
    var keep := Runnable(BASH_ONLY);
    var none: seq<PlanStep> := [];
    FilterNext(none, PlanStep("guess", "", [], []), keep);
    FilterNext([SHIFTED[0]], Bash([2]), keep);
    FilterNext([SHIFTED[0], Bash([2])], Bash([0]), keep);
    FilterNext([SHIFTED[0], Bash([2]), Bash([0])], Bash([1]), keep);
    assert !keep(SHIFTED[0]);
    BashRuns([2]);
    BashRuns([0]);
    BashRuns([1]);
    assert none + [SHIFTED[0]] == [SHIFTED[0]] && [SHIFTED[0]] + [Bash([2])] == [SHIFTED[0], Bash([2])];
    assert [SHIFTED[0], Bash([2])] + [Bash([0])] == [SHIFTED[0], Bash([2]), Bash([0])];
    assert SHIFTED == [SHIFTED[0], Bash([2]), Bash([0])] + [Bash([1])];
  }

  lemma FilterNext(steps: seq<PlanStep>, last: PlanStep, keep: PlanStep -> bool)
    ensures Filtered([], keep) == []
    ensures Filtered(steps + [last], keep) == Filtered(steps, keep) + if keep(last) then [last] else []
  {
    assert (steps + [last])[..|steps|] == steps;
  }

  lemma ThreeInARing(p: Plan)
    requires p.Ok() && p.steps == [Bash([2]), Bash([0]), Bash([1])] && EveryStepMade(p)
    ensures !Acyclic(PlanWaits(p.Ids(), p.steps, p.wide))
  {
    AllMade(p.Ids());
    var plan := PlanWaits(p.Ids(), p.steps, p.wide);
    hide PlanIds, ReadsStep;
    assert (0, 2) in plan && (1, 0) in plan && (2, 1) in plan;
    hide *;
    EdgeLeads(plan, 2, 1);
    LeadsReaches(plan, 2, 1);
    EdgeLeads(plan, 1, 0);
    LeadsReaches(plan, 1, 0);
    ReachTransitive(plan, 2, 1, 0);
    StepThenReach(plan, 0, 2, 0);
    NotAcyclic(plan, 0);
  }

  lemma RingPaid(wide: char -> bool)
    ensures var p := Plan(EMPTY, BASH_ONLY, [Bash([2]), Bash([0]), Bash([1])], wide, 3);
      p.Ok() && ClosedNet(p.net) && EveryStepMade(p)
  {}

  /** The clean-up leaves that plan as it is, without a reference in it. Dropping step 0 moves the others up by one, and
      the three that are grafted wait for each other in a ring. */
  lemma FilteredCycleHappens(wide: char -> bool)
    ensures WellOrdered(SHIFTED) && CleanedTo(SHIFTED, wide, {}, SHIFTED)
    ensures var p := Plan(EMPTY, BASH_ONLY, Filtered(SHIFTED, Runnable(BASH_ONLY)), wide, 3);
      p.Ok() && ClosedNet(p.net) && EveryStepMade(p) && !Acyclic(Waits(p.After()))
  {
    NoKeys(SHIFTED, wide);
    hide *;
    ShiftedOrdered(wide);
    InOrderUnchanged(SHIFTED, wide);
    ShiftedFiltered();
    RingPaid(wide);
    var p := Plan(EMPTY, BASH_ONLY, Filtered(SHIFTED, Runnable(BASH_ONLY)), wide, 3);
    ThreeInARing(p);
    GraftAcyclicIff(p);
  }
}
