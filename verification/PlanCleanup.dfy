/** Cleaning a parsed plan (agent/executive.go, parseExecutiveOutput and deduplicateParamRefSteps): dependencies put
    in range, references made dependencies, cycles broken, duplicate fetches merged and positions renumbered. */
module PlanCleanup {
  import opened Values
  import opened Decimal
  import opened Names
  import opened Cycles
  import opened Digraph
  import opened PlanGraft
  import Templates

  // ---- Linking: valid dependencies, and one for every step a reference names ----

  predicate Links(n: nat, i: int, d: int) {
    0 <= d < n && d != i
  }

  function ValidDeps(n: nat, i: int, deps: seq<int>): (r: seq<int>)
    ensures forall d :: d in r <==> d in deps && Links(n, i, d)
  {
    if deps == [] then []
    else
      var last, init := deps[|deps| - 1], deps[..|deps| - 1];
      assert deps == init + [last];
      ValidDeps(n, i, init) + if Links(n, i, last) then [last] else []
  }

  /** A step reference as the pattern matches it. */
  predicate StepMatch(wide: char -> bool, s: Seg) {
    s.Ref? && s.kind == StepRef && Spellable(s.name, wide)
  }

  ghost predicate RefersTo(tags: seq<string>, wide: char -> bool, i: int, refs: seq<Seg>, d: int) {
    Links(|tags|, i, d) && exists s :: s in refs && StepMatch(wide, s) && StepIndexFor(s.name, tags) == At(d)
  }

  /** The dependencies with those of the references added, each where it is first missed. */
  function WithRefs(tags: seq<string>, wide: char -> bool, i: int, deps: seq<int>, refs: seq<Seg>): (r: seq<int>)
    ensures forall d :: d in r <==> d in deps || RefersTo(tags, wide, i, refs, d)
  {
    if refs == [] then deps
    else
      var last, init := refs[|refs| - 1], refs[..|refs| - 1];
      assert refs == init + [last];
      var before := WithRefs(tags, wide, i, deps, init);
      var found := if StepMatch(wide, last) then StepIndexFor(last.name, tags) else Nothing;
      if found.At? && Links(|tags|, i, found.index) && found.index !in before then before + [found.index] else before
  }

  function LinkedDeps(steps: seq<PlanStep>, wide: char -> bool, i: nat): seq<int>
    requires i < |steps|
  {
    WithRefs(Tags(steps), wide, i, ValidDeps(|steps|, i, steps[i].dependsOn), RefsOfFields(steps[i].params))
  }

  function Linked(steps: seq<PlanStep>, wide: char -> bool): (r: seq<PlanStep>)
    ensures |r| == |steps|
  {
    seq(|steps|, i requires 0 <= i < |steps| => steps[i].(dependsOn := LinkedDeps(steps, wide, i)))
  }

  method LinkStep(steps: seq<PlanStep>, wide: char -> bool, i: nat) returns (deps: seq<int>)
    requires i < |steps|
    ensures deps == LinkedDeps(steps, wide, i)
  {
    var listed, n, tags := steps[i].dependsOn, |steps|, Tags(steps);
    deps := [];
    for k := 0 to |listed|
      invariant deps == ValidDeps(n, i, listed[..k])
    {
      assert listed[..k + 1][..k] == listed[..k];
      var dep := listed[k];
      if dep < 0 || dep >= n { continue; }
      if dep == i { continue; }
      deps := deps + [dep];
    }
    assert listed[..|listed|] == listed;
    ghost var valid := deps;
    var refs := RefsOfFields(steps[i].params);
    for k := 0 to |refs|
      invariant deps == WithRefs(tags, wide, i, valid, refs[..k])
    {
      assert refs[..k + 1][..k] == refs[..k];
      if !StepMatch(wide, refs[k]) { continue; }
      var found := StepIndexFor(refs[k].name, tags);
      if found == Nothing || found.index < 0 || found.index >= n { continue; }
      if found.index == i { continue; }
      if found.index !in deps { deps := deps + [found.index]; }
    }
    assert refs[..|refs|] == refs;
  }

  // ---- Duplicates ----

  /** Which step's output, and which field of it, the first reference found in a step's parameters reads. */
  datatype Source = NoSource | Source(step: int, field: string)

  datatype Key = NoKey | Key(tool: string, source: Source)

  /** Only the first reference of a string is looked at. */
  function LeafSource(tags: seq<string>, wide: char -> bool, t: Text): Source {
    if t == [] then NoSource
    else if !StepMatch(wide, t[0]) then LeafSource(tags, wide, t[1..])
    else
      match StepIndexFor(t[0].name, tags)
      case At(step) => Source(step, t[0].path)
      case Nothing => NoSource
  }

  function FirstSource(tags: seq<string>, wide: char -> bool, leaves: seq<Text>): Source {
    if leaves == [] then NoSource
    else
      var s := LeafSource(tags, wide, leaves[0]);
      if s.Source? then s else FirstSource(tags, wide, leaves[1..])
  }

  function KeyOf(tags: seq<string>, wide: char -> bool, tool: string, params: seq<Field>): Key {
    var s := FirstSource(tags, wide, Templates.LeavesOfFields(params));
    if s.NoSource? then NoKey else Key(tool, s)
  }

  function Keys(steps: seq<PlanStep>, wide: char -> bool): (r: seq<Key>)
    ensures |r| == |steps|
  {
    seq(|steps|, i requires 0 <= i < |steps| => KeyOf(Tags(steps), wide, steps[i].tool, steps[i].params))
  }

  /** A step is dropped when an earlier one calls the same tool on the same field of the same step. */
  predicate Dropped(keys: seq<Key>, i: int) {
    0 <= i < |keys| && keys[i] != NoKey && keys[i] in keys[..i]
  }

  predicate Survives(keys: seq<Key>, i: int) {
    0 <= i < |keys| && !Dropped(keys, i)
  }

  /** The surviving positions among the first n, in order. */
  function Kept(keys: seq<Key>, n: nat): (r: seq<nat>)
    requires n <= |keys|
    ensures |r| <= n
    ensures forall i :: i in r <==> 0 <= i < n && Survives(keys, i)
    ensures forall a, b :: 0 <= a < b < |r| ==> r[a] < r[b]
  {
    if n == 0 then []
    else
      var before := Kept(keys, n - 1);
      assert forall a :: 0 <= a < |before| ==> before[a] in before;
      before + if Survives(keys, n - 1) then [n - 1] else []
  }

  /** Where a surviving step ends up. */
  function NewIndexes(keys: seq<Key>, n: nat): (m: map<int, nat>)
    requires n <= |keys|
    ensures forall i :: i in m <==> 0 <= i < n && Survives(keys, i)
    ensures forall i :: i in m ==> m[i] == |Kept(keys, i)|
  {
    map i: int | 0 <= i < n && Survives(keys, i) :: |Kept(keys, i)|
  }

  lemma {:induction false} KeptGrows(keys: seq<Key>, m: nat, n: nat)
    requires m <= n <= |keys|
    ensures Kept(keys, m) <= Kept(keys, n)
    decreases n
  {
    if m < n {
      KeptGrows(keys, m, n - 1);
      PrefixOfMore(Kept(keys, m), Kept(keys, n - 1), if Survives(keys, n - 1) then [n - 1] else []);
    }
  }

  lemma PrefixOfMore(a: seq<nat>, b: seq<nat>, more: seq<nat>)
    requires a <= b
    ensures a <= b + more
  {}

  /** Old and new positions are inverse to each other. */
  lemma NewIndexInverse(keys: seq<Key>, i: int)
    requires Survives(keys, i)
    ensures var kept := Kept(keys, |keys|);
      |Kept(keys, i)| < |kept| && kept[|Kept(keys, i)|] == i
  {
    KeptGrows(keys, i + 1, |keys|);
    assert Kept(keys, i + 1) == Kept(keys, i) + [i];
  }

  lemma OldIndexInverse(keys: seq<Key>, k: nat)
    requires k < |Kept(keys, |keys|)|
    ensures Survives(keys, Kept(keys, |keys|)[k]) && |Kept(keys, Kept(keys, |keys|)[k])| == k
  {
    var kept := Kept(keys, |keys|);
    assert kept[k] in kept;
    NewIndexInverse(keys, kept[k]);
    var k' := |Kept(keys, kept[k])|;
    assert kept[k'] == kept[k];
  }

  // ---- Merging the focus of a dropped step into the one that stays ----

  datatype Focus = NoFocus | Focus(text: Text)

  function FocusOf(params: seq<Field>): Focus {
    if params == [] then NoFocus
    else if params[0].key == "focus" then (if params[0].value.Str? then Focus(params[0].value.text) else NoFocus)
    else FocusOf(params[1..])
  }

  function WithFocus(params: seq<Field>, text: Text): seq<Field> {
    if params == [] then []
    else if params[0].key == "focus" then [Field("focus", Str(text))] + params[1..]
    else [params[0]] + WithFocus(params[1..], text)
  }

  function MergeFocus(first: seq<Field>, dup: seq<Field>): seq<Field> {
    var a, b := FocusOf(first), FocusOf(dup);
    if a.Focus? && b.Focus? && Spelled(a.text) != Spelled(b.text) then WithFocus(first, a.text + [Lit(", ")] + b.text) else first
  }

  /** The parameters of step k once the first n steps have been looked at: the focus of every duplicate added. */
  function Merged(steps: seq<PlanStep>, keys: seq<Key>, k: nat, n: nat): seq<Field>
    requires k < |steps| == |keys| && n <= |steps|
    decreases n
  {
    if n <= k + 1 then steps[k].params
    else
      var before := Merged(steps, keys, k, n - 1);
      if Survives(keys, k) && keys[k] != NoKey && keys[n - 1] == keys[k] then MergeFocus(before, steps[n - 1].params) else before
  }

  // ---- Renumbering ----

  function Remapped(deps: seq<int>, now: map<int, nat>): (r: seq<int>)
    ensures forall d :: d in r <==> exists o :: o in deps && o in now && now[o] == d
  {
    if deps == [] then []
    else
      var last, init := deps[|deps| - 1], deps[..|deps| - 1];
      assert deps == init + [last];
      Remapped(init, now) + if last in now then [now[last]] else []
  }

  /** A positional reference to a step that stays follows it; every other reference is left as written. */
  function RenumberSeg(wide: char -> bool, now: map<int, nat>, s: Seg): Seg {
    if !StepMatch(wide, s) then s
    else
      match Atoi(s.name)
      case Number(was) => if was in now then Ref(StepRef, Numeral(now[was]), s.path) else s
      case NotANumber => s
  }

  function Renumberer(wide: char -> bool, now: map<int, nat>): Seg -> Seg {
    (s: Seg) => RenumberSeg(wide, now, s)
  }

  function Renumbered(wide: char -> bool, now: map<int, nat>, step: PlanStep): PlanStep {
    step.(dependsOn := Remapped(step.dependsOn, now), params := MapFields(Renumberer(wide, now), step.params))
  }

  function Survivor(steps: seq<PlanStep>, keys: seq<Key>, i: nat): PlanStep
    requires i < |steps| == |keys|
  {
    steps[i].(params := Merged(steps, keys, i, |steps|))
  }

  function Deduplicated(steps: seq<PlanStep>, wide: char -> bool): seq<PlanStep> {
    var keys := Keys(steps, wide);
    var kept := Kept(keys, |keys|);
    if |kept| == |steps| then steps
    else
      var now := NewIndexes(keys, |keys|);
      seq(|kept|, k requires 0 <= k < |kept| => Renumbered(wide, now, Survivor(steps, keys, InKept(keys, k))))
  }

  function InKept(keys: seq<Key>, k: nat): (i: nat)
    requires k < |Kept(keys, |keys|)|
    ensures i == Kept(keys, |keys|)[k] && i < |keys| && Survives(keys, i)
  {
    assert Kept(keys, |keys|)[k] in Kept(keys, |keys|);
    Kept(keys, |keys|)[k]
  }

  // ---- The loops ----

  ghost predicate SeenUpTo(keys: seq<Key>, seen: map<Key, nat>, n: nat)
    requires n <= |keys|
  {
    && (forall key :: key in seen <==> key != NoKey && key in keys[..n])
    && (forall key :: key in seen ==> seen[key] < n && keys[seen[key]] == key && key !in keys[..seen[key]])
  }

  /** The plan once its first n steps have been looked at. */
  ghost predicate MergedUpTo(steps: seq<PlanStep>, keys: seq<Key>, cur: seq<PlanStep>, n: nat)
    requires n <= |steps| == |keys|
  {
    && |cur| == |steps|
    && forall k :: 0 <= k < |steps| ==> cur[k] == steps[k].(params := Merged(steps, keys, k, n))
  }

  /** Looking at one step: a duplicate's focus goes to the step that already reads the same. */
  method LookAt(ghost steps: seq<PlanStep>, ghost keys: seq<Key>, wide: char -> bool, tags: seq<string>,
                cur0: seq<PlanStep>, seen0: map<Key, nat>, i: nat)
    returns (cur: seq<PlanStep>, seen: map<Key, nat>, dropped: bool)
    requires keys == Keys(steps, wide) && tags == Tags(steps) && i < |steps|
    requires MergedUpTo(steps, keys, cur0, i) && SeenUpTo(keys, seen0, i)
    ensures MergedUpTo(steps, keys, cur, i + 1) && SeenUpTo(keys, seen, i + 1) && dropped == Dropped(keys, i)
  {
    cur, seen, dropped := cur0, seen0, false;
    NotTouchedYet(steps, keys, cur, i);
    SeenNext(keys, seen, i);
    var key := KeyOf(tags, wide, cur[i].tool, cur[i].params);
    assert key == keys[i];
    hide KeyOf, Keys, MergeFocus, MergedUpTo, SeenUpTo, Dropped, Merged;
    if key != NoKey {
      if key in seen {
        var first := seen[key];
        dropped := true;
        MergeIntoFirst(steps, keys, cur, first, i);
        cur := cur[first := cur[first].(params := MergeFocus(cur[first].params, cur[i].params))];
      } else {
        seen := seen[key := i];
      }
    }
    if !dropped { NoMerge(steps, keys, cur, i); }
  }

  lemma NotTouchedYet(steps: seq<PlanStep>, keys: seq<Key>, cur: seq<PlanStep>, i: nat)
    requires i < |steps| == |keys| && MergedUpTo(steps, keys, cur, i)
    ensures |cur| == |steps| && cur[i] == steps[i]
  {}

  lemma SeenNext(keys: seq<Key>, seen: map<Key, nat>, i: nat)
    requires i < |keys| && SeenUpTo(keys, seen, i)
    ensures keys[i] == NoKey || keys[i] in seen ==> SeenUpTo(keys, seen, i + 1)
    ensures keys[i] != NoKey && keys[i] !in seen ==> SeenUpTo(keys, seen[keys[i] := i], i + 1)
    ensures keys[i] in seen <==> Dropped(keys, i)
    ensures keys[i] in seen ==>
      var first := seen[keys[i]]; first < i && keys[first] == keys[i] != NoKey && keys[first] !in keys[..first]
  {
    assert keys[..i + 1] == keys[..i] + [keys[i]];
    hide Dropped;
    assert keys[i] in seen <==> Dropped(keys, i) by { DroppedIff(keys, i); }
  }

  lemma DroppedIff(keys: seq<Key>, i: nat)
    requires i < |keys|
    ensures Dropped(keys, i) <==> keys[i] != NoKey && keys[i] in keys[..i]
  {}

  lemma NoMerge(steps: seq<PlanStep>, keys: seq<Key>, cur: seq<PlanStep>, i: nat)
    requires i < |steps| == |keys| && MergedUpTo(steps, keys, cur, i) && !Dropped(keys, i)
    ensures MergedUpTo(steps, keys, cur, i + 1)
  {
    forall k | 0 <= k < |steps| ensures Merged(steps, keys, k, i + 1) == Merged(steps, keys, k, i) {
      if k < i { assert keys[k] in keys[..i]; }
    }
  }

  lemma MergeIntoFirst(steps: seq<PlanStep>, keys: seq<Key>, cur: seq<PlanStep>, first: nat, i: nat)
    requires first < i < |steps| == |keys| && MergedUpTo(steps, keys, cur, i)
    requires keys[i] == keys[first] != NoKey && keys[first] !in keys[..first]
    ensures MergedUpTo(steps, keys, cur[first := cur[first].(params := MergeFocus(cur[first].params, cur[i].params))], i + 1)
  {
    hide MergeFocus;
    HolderSurvives(keys, first);
    forall k | 0 <= k < |steps| && k != first ensures Merged(steps, keys, k, i + 1) == Merged(steps, keys, k, i) {
      if k < i && keys[k] == keys[i] { NotTheHolder(keys, first, k); }
    }
  }

  lemma HolderSurvives(keys: seq<Key>, k: nat)
    requires k < |keys| && keys[k] !in keys[..k]
    ensures Survives(keys, k)
  {}

  lemma NotTheHolder(keys: seq<Key>, first: nat, k: nat)
    requires first < |keys| && k < |keys| && k != first && keys[k] == keys[first] != NoKey && keys[first] !in keys[..first]
    ensures Dropped(keys, k)
  {
    if first < k { assert keys[first] in keys[..k]; }
  }

  ghost function DroppedUpTo(keys: seq<Key>, n: nat): set<int> {
    set i | 0 <= i < n && Dropped(keys, i)
  }

  lemma NothingSeen(steps: seq<PlanStep>, keys: seq<Key>)
    requires |steps| == |keys|
    ensures MergedUpTo(steps, keys, steps, 0) && SeenUpTo(keys, map[], 0) && DroppedUpTo(keys, 0) == {}
  {}

  lemma NextDropped(keys: seq<Key>, i: nat)
    ensures DroppedUpTo(keys, i + 1) == DroppedUpTo(keys, i) + if Dropped(keys, i) then {i as int} else {}
  {}

  method FindDuplicates(steps: seq<PlanStep>, wide: char -> bool) returns (cur: seq<PlanStep>, dropSet: set<int>)
    ensures MergedUpTo(steps, Keys(steps, wide), cur, |steps|)
    ensures dropSet == DroppedUpTo(Keys(steps, wide), |steps|)
  {
    hide *;
    ghost var keys := Keys(steps, wide);
    var tags, seen := Tags(steps), map[];
    cur, dropSet := steps, {};
    NothingSeen(steps, keys);
    for i := 0 to |steps|
      invariant MergedUpTo(steps, keys, cur, i) && SeenUpTo(keys, seen, i)
      invariant dropSet == DroppedUpTo(keys, i)
    {
      var dropped;
      cur, seen, dropped := LookAt(steps, keys, wide, tags, cur, seen, i);
      NextDropped(keys, i);
      if dropped { dropSet := dropSet + {i}; }
    }
  }

  method RemapDeps(deps: seq<int>, now: map<int, nat>) returns (r: seq<int>)
    ensures r == Remapped(deps, now)
  {
    r := [];
    for k := 0 to |deps|
      invariant r == Remapped(deps[..k], now)
    {
      assert deps[..k + 1][..k] == deps[..k];
      if deps[k] in now { r := r + [now[deps[k]]]; }
    }
    assert deps[..|deps|] == deps;
  }

  lemma {:induction false} AllKept(keys: seq<Key>, n: nat)
    requires n <= |keys| && forall i :: 0 <= i < n ==> !Dropped(keys, i)
    ensures |Kept(keys, n)| == n && forall i :: 0 <= i < n ==> Kept(keys, n)[i] == i
  {
    if n > 0 {
      hide *;
      AllKept(keys, n - 1);
      NextKept(keys, n - 1);
      PlusLast(Kept(keys, n - 1), Kept(keys, n), n - 1);
    }
  }

  lemma PlusLast(before: seq<nat>, after: seq<nat>, m: nat)
    requires |before| == m && after == before + [m] && forall i :: 0 <= i < m ==> before[i] == i
    ensures |after| == m + 1 && forall i :: 0 <= i <= m ==> after[i] == i
  {}

  lemma {:induction false} OneLess(keys: seq<Key>, n: nat, i: nat)
    requires i < n <= |keys| && Dropped(keys, i)
    ensures |Kept(keys, n)| < n
  {
    hide Dropped, Kept;
    NextKept(keys, n - 1);
    if i < n - 1 { OneLess(keys, n - 1, i); }
  }

  method RenumberAll(steps: seq<PlanStep>, wide: char -> bool, now: map<int, nat>) returns (r: seq<PlanStep>)
    ensures |r| == |steps| && forall k :: 0 <= k < |r| ==> r[k] == Renumbered(wide, now, steps[k])
  {
    r := steps;
    for k := 0 to |r|
      invariant |r| == |steps|
      invariant forall j :: 0 <= j < k ==> r[j] == Renumbered(wide, now, steps[j])
      invariant forall j :: k <= j < |r| ==> r[j] == steps[j]
    {
      var deps := RemapDeps(r[k].dependsOn, now);
      r := r[k := r[k].(dependsOn := deps, params := MapFields(Renumberer(wide, now), r[k].params))];
    }
  }

  /** agent/executive.go, deduplicateParamRefSteps. */
  method Deduplicate(steps: seq<PlanStep>, wide: char -> bool) returns (r: seq<PlanStep>)
    ensures r == Deduplicated(steps, wide)
  {
    var cur, dropSet := FindDuplicates(steps, wide);
    AnyDropped(steps, wide);
    if dropSet == {} { return steps; }
    var result, now := Rebuild(steps, wide, cur, dropSet);
    r := RenumberAll(result, wide, now);
    hide Keys, Kept, Renumbered, Survivor, DroppedUpTo;
  }

  lemma AnyDropped(steps: seq<PlanStep>, wide: char -> bool)
    ensures var keys := Keys(steps, wide);
      DroppedUpTo(keys, |steps|) == {} <==> |Kept(keys, |keys|)| == |steps|
  {
    var keys := Keys(steps, wide);
    if i :| 0 <= i < |keys| && Dropped(keys, i) {
      assert i in DroppedUpTo(keys, |steps|);
      OneLess(keys, |keys|, i);
    } else {
      AllKept(keys, |keys|);
    }
  }

  /** What has been rebuilt from the first n steps. */
  ghost predicate Rebuilt(keys: seq<Key>, cur: seq<PlanStep>, result: seq<PlanStep>, now: map<int, nat>, n: nat)
    requires n <= |keys| == |cur|
  {
    var kept := Kept(keys, n);
    && now == NewIndexes(keys, n) && |result| == |kept|
    && forall k :: 0 <= k < |result| ==> kept[k] < |cur| && result[k] == cur[kept[k]]
  }

  lemma RebuildOne(keys: seq<Key>, cur: seq<PlanStep>, result: seq<PlanStep>, now: map<int, nat>, i: nat)
    requires i < |keys| == |cur| && Rebuilt(keys, cur, result, now, i)
    ensures Dropped(keys, i) ==> Rebuilt(keys, cur, result, now, i + 1)
    ensures !Dropped(keys, i) ==> Rebuilt(keys, cur, result + [cur[i]], now[i as int := |result|], i + 1)
  {
    hide Kept, NewIndexes, Survives, Dropped;
    NextKept(keys, i);
    NextIndexes(keys, i);
  }

  lemma NextKept(keys: seq<Key>, i: nat)
    requires i < |keys|
    ensures Kept(keys, i + 1) == Kept(keys, i) + if Dropped(keys, i) then [] else [i]
  {}

  lemma NextIndexes(keys: seq<Key>, i: nat)
    requires i < |keys|
    ensures NewIndexes(keys, i + 1)
      == if Dropped(keys, i) then NewIndexes(keys, i) else NewIndexes(keys, i)[i as int := |Kept(keys, i)|]
  {
    hide Kept;
    var m, m' := NewIndexes(keys, i), NewIndexes(keys, i + 1);
    assert forall k :: k in m' <==> k in m || (k == i && !Dropped(keys, i));
  }

  lemma NothingRebuilt(keys: seq<Key>, cur: seq<PlanStep>)
    requires |keys| == |cur|
    ensures Rebuilt(keys, cur, [], map[], 0)
  {
    assert NewIndexes(keys, 0) == map[];
  }

  lemma RebuiltSurvivors(steps: seq<PlanStep>, keys: seq<Key>, cur: seq<PlanStep>, result: seq<PlanStep>, now: map<int, nat>)
    requires |steps| == |keys| == |cur| && MergedUpTo(steps, keys, cur, |steps|) && Rebuilt(keys, cur, result, now, |keys|)
    ensures now == NewIndexes(keys, |keys|) && |result| == |Kept(keys, |keys|)|
    ensures forall k :: 0 <= k < |result| ==> result[k] == Survivor(steps, keys, InKept(keys, k))
  {}

  lemma InDropSet(keys: seq<Key>, i: nat)
    requires i < |keys|
    ensures i in DroppedUpTo(keys, |keys|) <==> Dropped(keys, i)
  {}

  lemma Sizes(steps: seq<PlanStep>, keys: seq<Key>, cur: seq<PlanStep>, n: nat)
    requires n <= |steps| == |keys| && MergedUpTo(steps, keys, cur, n)
    ensures |cur| == |steps|
  {}

  /** The steps that stay, in order, and where each of them is now. */
  method Rebuild(ghost steps: seq<PlanStep>, wide: char -> bool, cur: seq<PlanStep>, dropSet: set<int>)
    returns (result: seq<PlanStep>, now: map<int, nat>)
    requires MergedUpTo(steps, Keys(steps, wide), cur, |steps|)
    requires dropSet == DroppedUpTo(Keys(steps, wide), |steps|)
    ensures var keys := Keys(steps, wide);
      && now == NewIndexes(keys, |keys|) && |result| == |Kept(keys, |keys|)|
      && forall k :: 0 <= k < |result| ==> result[k] == Survivor(steps, keys, InKept(keys, k))
  {
    hide *;
    ghost var keys := Keys(steps, wide);
    Sizes(steps, keys, cur, |steps|);
    result, now := [], map[];
    NothingRebuilt(keys, cur);
    for i := 0 to |cur|
      invariant Rebuilt(keys, cur, result, now, i)
    {
      RebuildOne(keys, cur, result, now, i);
      InDropSet(keys, i);
      if i in dropSet { continue; }
      now := now[i as int := |result|];
      result := result + [cur[i]];
    }
    RebuiltSurvivors(steps, keys, cur, result, now);
  }

  // ---- The whole clean-up ----

  function DepsOf(steps: seq<PlanStep>): (r: Deps)
    ensures |r| == |steps|
  {
    seq(|steps|, i requires 0 <= i < |steps| => steps[i].dependsOn)
  }

  function WithDeps(steps: seq<PlanStep>, deps: Deps): (r: seq<PlanStep>)
    requires |steps| == |deps|
    ensures |r| == |steps| && DepsOf(r) == deps
  {
    seq(|steps|, i requires 0 <= i < |steps| => steps[i].(dependsOn := deps[i]))
  }

  ghost function Unlooped(steps: seq<PlanStep>, removed: set<(int, int)>): (r: seq<PlanStep>)
    ensures |r| == |steps|
  {
    seq(|steps|, i requires 0 <= i < |steps| =>
      steps[i].(dependsOn := Cycles.Cleaned(steps[i].dependsOn, |steps|, i, removed)))
  }

  /** Positions in range, none its own, and no cycle. */
  ghost predicate WellOrdered(steps: seq<PlanStep>) {
    && (forall i, d :: 0 <= i < |steps| && d in steps[i].dependsOn ==> Links(|steps|, i, d))
    && Acyclic(PlanEdges(DepsOf(steps)))
  }

  /** The dropped dependencies lay on cycles and could not be put back; what is left is in order. */
  ghost predicate BreaksCycles(steps: seq<PlanStep>, removed: set<(int, int)>) {
    && (forall r :: r in removed ==> OnCycle(PlanEdges(DepsOf(steps)), r))
    && (forall r :: r in removed ==> Reaches(PlanEdges(DepsOf(Unlooped(steps, removed))), r.1, r.0))
    && WellOrdered(Unlooped(steps, removed))
    && (removed == {} <==> Acyclic(PlanEdges(DepsOf(steps))))
  }

  datatype Result = NoSteps | MissingTool(step: nat) | Ready(steps: seq<PlanStep>)

  method LinkAll(steps: seq<PlanStep>, wide: char -> bool) returns (missing: Found, linked: seq<PlanStep>)
    ensures missing.At? ==> 0 <= missing.index < |steps| && steps[missing.index].tool == ""
    ensures missing.At? ==> forall k :: 0 <= k < missing.index ==> steps[k].tool != ""
    ensures missing.Nothing? ==> (forall k :: 0 <= k < |steps| ==> steps[k].tool != "") && linked == Linked(steps, wide)
  {
    linked := steps;
    for i := 0 to |steps|
      invariant |linked| == |steps| && Tags(linked) == Tags(steps)
      invariant forall k :: 0 <= k < i ==> steps[k].tool != "" && linked[k] == Linked(steps, wide)[k]
      invariant forall k :: i <= k < |steps| ==> linked[k] == steps[k]
    {
      if linked[i].tool == "" { return At(i), linked; }
      SameLinks(steps, linked, wide, i);
      var deps := LinkStep(linked, wide, i);
      linked := linked[i := linked[i].(dependsOn := deps)];
    }
    missing := Nothing;
  }

  /** Linking one step looks at nothing of the others but their names. */
  lemma SameLinks(a: seq<PlanStep>, b: seq<PlanStep>, wide: char -> bool, i: nat)
    requires i < |a| == |b| && Tags(a) == Tags(b) && a[i] == b[i]
    ensures LinkedDeps(a, wide, i) == LinkedDeps(b, wide, i)
  {}

  /** One way to break the cycles of a plan. */
  ghost predicate UnloopedBy(steps: seq<PlanStep>, removed: set<(int, int)>, r: seq<PlanStep>) {
    r == Unlooped(steps, removed) && BreaksCycles(steps, removed)
  }

  method Unloop(steps: seq<PlanStep>) returns (r: seq<PlanStep>)
    requires forall i, d :: 0 <= i < |steps| && d in steps[i].dependsOn ==> Links(|steps|, i, d)
    ensures exists removed :: UnloopedBy(steps, removed, r)
  {
    var deps := new seq<int>[|steps|](i requires 0 <= i < |steps| => steps[i].dependsOn);
    ghost var before := deps[..];
    assert before == DepsOf(steps);
    var hasCycle;
    ghost var removed;
    hasCycle, removed := Cycles.BreakCycles(deps);
    assert deps[..] == DepsOf(Unlooped(steps, removed));
    r := WithDeps(steps, deps[..]);
    assert UnloopedBy(steps, removed, r);
  }

  /** What the clean-up makes of a plan: linked, some choice of dependencies dropped so that no cycle is left, and
      duplicates merged. */
  ghost predicate CleanedTo(steps: seq<PlanStep>, wide: char -> bool, removed: set<(int, int)>, r: seq<PlanStep>) {
    && BreaksCycles(Linked(steps, wide), removed)
    && r == Deduplicated(Unlooped(Linked(steps, wide), removed), wide)
  }

  /** agent/executive.go, parseExecutiveOutput, from the decoded steps on. */
  method CleanPlan(steps: seq<PlanStep>, wide: char -> bool) returns (r: Result)
    ensures r.NoSteps? <==> steps == []
    ensures r.MissingTool? <==> exists k :: 0 <= k < |steps| && steps[k].tool == ""
    ensures r.MissingTool? ==> r.step < |steps| && steps[r.step].tool == "" && forall k :: 0 <= k < r.step ==> steps[k].tool != ""
    ensures r.Ready? ==> exists removed :: CleanedTo(steps, wide, removed, r.steps)
  {
    if steps == [] { return NoSteps; }
    var missing, linked := LinkAll(steps, wide);
    if missing.At? { return MissingTool(missing.index); }
    var unlooped := Unloop(linked);
    var final := Deduplicate(unlooped, wide);
    ghost var removed :| UnloopedBy(linked, removed, unlooped);
    assert CleanedTo(steps, wide, removed, final);
    r := Ready(final);
  }
}
