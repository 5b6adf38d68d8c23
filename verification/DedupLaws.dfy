/** Which steps the removal of duplicates drops, what becomes of their focus, and of references to steps that stay. */
module DedupLaws {
  import opened Values
  import opened Decimal
  import opened Names
  import opened PlanGraft
  import opened PlanCleanup
  import Templates

  // ---- Which step goes ----

  /** The first reference of a text that can be matched stands at k, and reads that path of step d. */
  ghost predicate LeadsWith(tags: seq<string>, wide: char -> bool, t: Text, k: int, d: int, path: string) {
    && 0 <= k < |t| && (forall j :: 0 <= j < k ==> !StepMatch(wide, t[j]))
    && StepMatch(wide, t[k]) && StepIndexFor(t[k].name, tags) == At(d) && t[k].path == path
  }

  /** The first string whose first matched reference names a step stands at a, and reads that path of step d. */
  ghost predicate FirstReads(tags: seq<string>, wide: char -> bool, leaves: seq<Text>, a: int, d: int, path: string) {
    && 0 <= a < |leaves| && (exists k :: LeadsWith(tags, wide, leaves[a], k, d, path))
    && forall b, k, e, p :: 0 <= b < a ==> !LeadsWith(tags, wide, leaves[b], k, e, p)
  }

  /** That is what the step reads first of all, anywhere in its parameters. */
  ghost predicate ReadsFirst(steps: seq<PlanStep>, wide: char -> bool, i: int, d: int, path: string) {
    0 <= i < |steps| && exists a :: FirstReads(Tags(steps), wide, Templates.LeavesOfFields(steps[i].params), a, d, path)
  }

  lemma {:induction false} LeafLeads(tags: seq<string>, wide: char -> bool, t: Text)
    ensures var s := LeafSource(tags, wide, t);
      && (s.Source? ==> exists k :: LeadsWith(tags, wide, t, k, s.step, s.field))
      && (forall k, d, p :: LeadsWith(tags, wide, t, k, d, p) ==> s == Source(d, p))
  {
    if t != [] && !StepMatch(wide, t[0]) {
      LeafLeads(tags, wide, t[1..]);
      var s := LeafSource(tags, wide, t);
      if s.Source? {
        var k :| LeadsWith(tags, wide, t[1..], k, s.step, s.field);
        assert forall j :: 0 <= j < k + 1 ==> !StepMatch(wide, t[j]) by {
          forall j | 0 <= j < k + 1 ensures !StepMatch(wide, t[j]) { if j > 0 { assert t[j] == t[1..][j - 1]; } }
        }
        assert LeadsWith(tags, wide, t, k + 1, s.step, s.field);
      }
      forall k, d, p | LeadsWith(tags, wide, t, k, d, p) ensures s == Source(d, p) {
        assert LeadsWith(tags, wide, t[1..], k - 1, d, p);
      }
    } else if t != [] {
      var s := LeafSource(tags, wide, t);
      if s.Source? { assert LeadsWith(tags, wide, t, 0, s.step, s.field); }
    }
  }

  lemma {:induction false} SourceReads(tags: seq<string>, wide: char -> bool, leaves: seq<Text>)
    ensures var s := FirstSource(tags, wide, leaves);
      && (s.Source? ==> exists a :: FirstReads(tags, wide, leaves, a, s.step, s.field))
      && (forall a, d, p :: FirstReads(tags, wide, leaves, a, d, p) ==> s == Source(d, p))
  {
    if leaves != [] {
      var first, rest := LeafSource(tags, wide, leaves[0]), leaves[1..];
      var s := FirstSource(tags, wide, leaves);
      LeafLeads(tags, wide, leaves[0]);
      SourceReads(tags, wide, rest);
      hide LeadsWith;
      if first.Source? {
        assert FirstReads(tags, wide, leaves, 0, first.step, first.field);
        forall a, d, p | FirstReads(tags, wide, leaves, a, d, p) ensures s == Source(d, p) {}
      } else {
        if s.Source? {
          var a :| FirstReads(tags, wide, rest, a, s.step, s.field);
          Later(tags, wide, leaves, a, s.step, s.field);
        }
        forall a, d, p | FirstReads(tags, wide, leaves, a, d, p) ensures s == Source(d, p) {
          Earlier(tags, wide, leaves, a, d, p);
        }
      }
    }
  }

  lemma Later(tags: seq<string>, wide: char -> bool, leaves: seq<Text>, a: int, d: int, p: string)
    requires leaves != [] && FirstReads(tags, wide, leaves[1..], a, d, p)
    requires forall k, e, q :: !LeadsWith(tags, wide, leaves[0], k, e, q)
    ensures FirstReads(tags, wide, leaves, a + 1, d, p)
  {
    hide LeadsWith;
    forall b, k, e, q | 0 <= b < a + 1 ensures !LeadsWith(tags, wide, leaves[b], k, e, q) {
      if b > 0 { assert leaves[b] == leaves[1..][b - 1]; }
    }
  }

  lemma Earlier(tags: seq<string>, wide: char -> bool, leaves: seq<Text>, a: int, d: int, p: string)
    requires leaves != [] && FirstReads(tags, wide, leaves, a, d, p)
    requires forall k, e, q :: !LeadsWith(tags, wide, leaves[0], k, e, q)
    ensures FirstReads(tags, wide, leaves[1..], a - 1, d, p)
  {
    hide LeadsWith;
    forall b, k, e, q | 0 <= b < a - 1 ensures !LeadsWith(tags, wide, leaves[1..][b], k, e, q) {
      assert leaves[1..][b] == leaves[b + 1];
    }
  }

  lemma KeyReads(steps: seq<PlanStep>, wide: char -> bool, i: nat)
    requires i < |steps|
    ensures var key := Keys(steps, wide)[i];
      && (key.Key? ==> key.tool == steps[i].tool && key.source.Source? && ReadsFirst(steps, wide, i, key.source.step, key.source.field))
      && (forall d, p :: ReadsFirst(steps, wide, i, d, p) ==> key == Key(steps[i].tool, Source(d, p)))
  {
    SourceReads(Tags(steps), wide, Templates.LeavesOfFields(steps[i].params));
    hide FirstReads;
  }

  ghost predicate ReadsTheSame(steps: seq<PlanStep>, wide: char -> bool, i: int, j: int) {
    && 0 <= i < |steps| && 0 <= j < |steps| && steps[i].tool == steps[j].tool
    && exists d, p :: ReadsFirst(steps, wide, i, d, p) && ReadsFirst(steps, wide, j, d, p)
  }

  lemma SameKeyIff(steps: seq<PlanStep>, wide: char -> bool, i: nat, j: nat)
    requires i < |steps| && j < |steps|
    ensures ReadsTheSame(steps, wide, i, j) <==> Keys(steps, wide)[i] == Keys(steps, wide)[j] != NoKey
  {
    KeyReads(steps, wide, i);
    KeyReads(steps, wide, j);
    hide Keys, ReadsFirst;
    var key := Keys(steps, wide)[i];
    if key == Keys(steps, wide)[j] != NoKey {
      assert ReadsFirst(steps, wide, i, key.source.step, key.source.field) && ReadsFirst(steps, wide, j, key.source.step, key.source.field);
    }
  }

  /** A step is dropped exactly when an earlier one calls the same tool and reads the same path of the same step first. */
  lemma DroppedIff(steps: seq<PlanStep>, wide: char -> bool, i: nat)
    requires i < |steps|
    ensures !Survives(Keys(steps, wide), i) <==> exists j :: 0 <= j < i && ReadsTheSame(steps, wide, j, i)
  {
    var keys := Keys(steps, wide);
    forall j | 0 <= j < i ensures ReadsTheSame(steps, wide, j, i) <==> keys[j] == keys[i] != NoKey { SameKeyIff(steps, wide, j, i); }
    hide Keys, ReadsTheSame;
    if !Survives(keys, i) {
      var j :| 0 <= j < |keys[..i]| && keys[..i][j] == keys[i];
      assert ReadsTheSame(steps, wide, j, i);
    }
    if j :| 0 <= j < i && ReadsTheSame(steps, wide, j, i) { assert keys[..i][j] == keys[i]; }
  }

  // ---- What becomes of the focus ----

  lemma {:induction false} FocusIs(params: seq<Field>)
    ensures forall t :: FocusOf(params) == Focus(t) <==> FirstHolds(params, "focus", Str(t))
  {
    if params != [] {
      FocusIs(params[1..]);
      forall t ensures FocusOf(params) == Focus(t) <==> FirstHolds(params, "focus", Str(t)) { HoldsNext(params, "focus", Str(t)); }
    }
  }

  /** Two foci that read differently are joined by a comma; otherwise the first stays as it is. */
  function Joined(a: Focus, b: Focus): Focus {
    if a.NoFocus? || b.NoFocus? || Spelled(a.text) == Spelled(b.text) then a else Focus(a.text + ([Lit(", ")] + b.text))
  }

  lemma {:induction false} WithFocusIs(params: seq<Field>, text: Text)
    ensures |WithFocus(params, text)| == |params|
    ensures forall k :: 0 <= k < |params| ==> WithFocus(params, text)[k].key == params[k].key
    ensures forall k :: 0 <= k < |params| && params[k].key != "focus" ==> WithFocus(params, text)[k] == params[k]
    ensures FocusOf(params).Focus? ==> FocusOf(WithFocus(params, text)) == Focus(text)
  {
    if params != [] {
      WithFocusIs(params[1..], text);
      var r := WithFocus(params, text);
      if params[0].key != "focus" { assert r[1..] == WithFocus(params[1..], text); }
    }
  }

  /** All as it was but for the focus, and that is this. */
  ghost predicate OnlyFocus(was: seq<Field>, now: seq<Field>, focus: Focus) {
    && |now| == |was| && (forall k :: 0 <= k < |was| ==> now[k].key == was[k].key)
    && (forall k :: 0 <= k < |was| && was[k].key != "focus" ==> now[k] == was[k])
    && FocusOf(now) == focus
  }

  lemma MergeIs(first: seq<Field>, dup: seq<Field>)
    ensures OnlyFocus(first, MergeFocus(first, dup), Joined(FocusOf(first), FocusOf(dup)))
  {
    var a, b := FocusOf(first), FocusOf(dup);
    if a.Focus? && b.Focus? {
      WithFocusIs(first, a.text + [Lit(", ")] + b.text);
      assert a.text + [Lit(", ")] + b.text == a.text + ([Lit(", ")] + b.text);
    }
    hide WithFocus;
  }

  lemma MergeOnTop(was: seq<Field>, before: seq<Field>, dup: seq<Field>, focus: Focus)
    requires OnlyFocus(was, before, focus)
    ensures OnlyFocus(was, MergeFocus(before, dup), Joined(focus, FocusOf(dup)))
  {
    MergeIs(before, dup);
    hide MergeFocus, Joined;
  }

  /** The focus of step i with those of its duplicates among the first n steps joined on, in order. */
  ghost function JoinedUpTo(steps: seq<PlanStep>, wide: char -> bool, i: nat, n: nat): Focus
    requires i < |steps| && n <= |steps|
  {
    if n <= i + 1 then FocusOf(steps[i].params)
    else if ReadsTheSame(steps, wide, i, n - 1) then Joined(JoinedUpTo(steps, wide, i, n - 1), FocusOf(steps[n - 1].params))
    else JoinedUpTo(steps, wide, i, n - 1)
  }

  lemma MergedOnce(steps: seq<PlanStep>, keys: seq<Key>, i: nat, n: nat)
    requires i + 1 < n <= |steps| == |keys| && Survives(keys, i)
    ensures Merged(steps, keys, i, n) == if keys[i] == keys[n - 1] != NoKey then MergeFocus(Merged(steps, keys, i, n - 1), steps[n - 1].params)
        else Merged(steps, keys, i, n - 1)
  {
    hide Survives, MergeFocus;
  }

  lemma MergedNext(steps: seq<PlanStep>, wide: char -> bool, i: nat, n: nat)
    requires i + 1 < n <= |steps| && Survives(Keys(steps, wide), i)
    ensures var keys := Keys(steps, wide);
      Merged(steps, keys, i, n) == if ReadsTheSame(steps, wide, i, n - 1) then MergeFocus(Merged(steps, keys, i, n - 1), steps[n - 1].params)
        else Merged(steps, keys, i, n - 1)
  {
    hide *;
    SameKeyIff(steps, wide, i, n - 1);
    MergedOnce(steps, Keys(steps, wide), i, n);
  }

  /** A step that stays keeps every parameter but its focus, and that takes on the foci of the steps dropped for it. */
  lemma {:induction false} MergedIs(steps: seq<PlanStep>, wide: char -> bool, i: nat, n: nat)
    requires i < |steps| && n <= |steps| && Survives(Keys(steps, wide), i)
    ensures OnlyFocus(steps[i].params, Merged(steps, Keys(steps, wide), i, n), JoinedUpTo(steps, wide, i, n))
    decreases n
  {
    hide Keys, MergeFocus, FocusOf, ReadsTheSame, Survives;
    if n > i + 1 {
      MergedIs(steps, wide, i, n - 1);
      MergedNext(steps, wide, i, n);
      hide OnlyFocus, Merged;
      if ReadsTheSame(steps, wide, i, n - 1) {
        MergeOnTop(steps[i].params, Merged(steps, Keys(steps, wide), i, n - 1), steps[n - 1].params, JoinedUpTo(steps, wide, i, n - 1));
      }
    }
  }

  /** So it is with the whole plan: what each step that stays is left with, before positions are renumbered. */
  lemma SurvivorIs(steps: seq<PlanStep>, wide: char -> bool, i: nat)
    requires i < |steps| && Survives(Keys(steps, wide), i)
    ensures var r, was := Survivor(steps, Keys(steps, wide), i), steps[i];
      && r.tool == was.tool && r.tag == was.tag && r.dependsOn == was.dependsOn
      && OnlyFocus(was.params, r.params, JoinedUpTo(steps, wide, i, |steps|))
  {
    MergedIs(steps, wide, i, |steps|);
  }

  /** A reference after renumbering: a step's new position where it named one that stays by position, as it was otherwise. */
  ghost predicate Follows(steps: seq<PlanStep>, wide: char -> bool, was: Seg, now: Seg) {
    if was.Ref? && was.kind == StepRef && Spellable(was.name, wide) && Atoi(was.name).Number?
      && Survives(Keys(steps, wide), Atoi(was.name).value)
    then now == Ref(StepRef, Numeral(|Kept(Keys(steps, wide), Atoi(was.name).value)|), was.path)
    else now == was
  }

  lemma SegFollows(steps: seq<PlanStep>, wide: char -> bool, s: Seg)
    ensures Follows(steps, wide, s, RenumberSeg(wide, NewIndexes(Keys(steps, wide), |steps|), s))
  {}

  /** Each of the references follows. */
  ghost predicate AllFollow(steps: seq<PlanStep>, wide: char -> bool, was: seq<Seg>, now: seq<Seg>) {
    |now| == |was| && forall q :: 0 <= q < |was| ==> Follows(steps, wide, was[q], now[q])
  }

  lemma AllRenumbered(steps: seq<PlanStep>, wide: char -> bool, refs: seq<Seg>)
    ensures AllFollow(steps, wide, refs, MapText(Renumberer(wide, NewIndexes(Keys(steps, wide), |steps|)), refs))
  {
    forall q | 0 <= q < |refs| { SegFollows(steps, wide, refs[q]); }
    hide Follows, RenumberSeg, Keys, NewIndexes;
  }

  /** Each step of the shortened plan is one that stays, its references following the steps they named by position. */
  lemma StepIs(steps: seq<PlanStep>, wide: char -> bool, k: nat)
    requires k < |Deduplicated(steps, wide)| < |steps|
    ensures k < |Kept(Keys(steps, wide), |steps|)|
    ensures var keys := Keys(steps, wide);
      var r, was := Deduplicated(steps, wide)[k], Survivor(steps, keys, InKept(keys, k));
      r.tool == was.tool && r.tag == was.tag && AllFollow(steps, wide, RefsOfFields(was.params), RefsOfFields(r.params))
  {
    hide Keys, Kept, Survivor, NewIndexes, RenumberSeg, AllFollow, MapFields;
    var keys := Keys(steps, wide);
    if |Kept(keys, |keys|)| < |steps| {
      var was := Survivor(steps, keys, InKept(keys, k));
      RenumbererKeeps(wide, NewIndexes(keys, |keys|));
      FieldRefsMapped(Renumberer(wide, NewIndexes(keys, |keys|)), was.params);
      AllRenumbered(steps, wide, RefsOfFields(was.params));
    }
  }

  lemma RenumbererKeeps(wide: char -> bool, now: map<int, nat>)
    ensures KeepsRefs(Renumberer(wide, now))
  {}
}
