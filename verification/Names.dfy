/** Step names of a plan: how a reference finds a step, and how repeated names are told apart. */
module Names {
  import opened Decimal
  import Digraph

  datatype Found = Nothing | At(index: int)

  /** A character a name may hold. `wide` says which characters beyond ASCII are letters or numbers. */
  predicate NameChar(c: char, wide: char -> bool) {
    || 'a' <= c <= 'z' || 'A' <= c <= 'Z' || '0' <= c <= '9' || c == '_' || c == '-'
    || (c as int >= 128 && wide(c))
  }

  predicate Spellable(name: string, wide: char -> bool) {
    name != "" && forall i :: 0 <= i < |name| ==> NameChar(name[i], wide)
  }

  function FirstTag(tags: seq<string>, ref: string, from: nat): (f: Found)
    requires from <= |tags|
    ensures f.Nothing? <==> ref !in tags[from..]
    ensures f.At? ==> from <= f.index < |tags| && tags[f.index] == ref && ref !in tags[from..f.index]
    decreases |tags| - from
  {
    if from == |tags| then Nothing
    else if tags[from] == ref then At(from)
    else FirstTag(tags, ref, from + 1)
  }

  lemma {:induction false} FirstAtMost(tags: seq<string>, ref: string, from: nat, k: nat)
    requires from <= k < |tags| && tags[k] == ref
    ensures FirstTag(tags, ref, from).At? && FirstTag(tags, ref, from).index <= k
    decreases k - from
  {
    if from < k { FirstAtMost(tags, ref, from + 1, k); }
  }

  /** agent/executive.go, stepIndexFor: a number is a position, anything else the first step so named. */
  function StepIndexFor(ref: string, tags: seq<string>): Found {
    match Atoi(ref)
    case Number(v) => At(v)
    case NotANumber => FirstTag(tags, ref, 0)
  }

  function Candidate(name: string, n: nat): string {
    name + "_" + Numeral(n)
  }

  lemma CandidateDistinct(name: string, m: nat, n: nat)
    requires Candidate(name, m) == Candidate(name, n)
    ensures m == n
  {
    assert Candidate(name, m)[|name| + 1..] == Numeral(m);
    assert Candidate(name, n)[|name| + 1..] == Numeral(n);
    NumeralInjective(m, n);
  }

  lemma CandidateSpellable(name: string, n: nat, wide: char -> bool)
    requires Spellable(name, wide)
    ensures Spellable(Candidate(name, n), wide)
  {
    var c := Candidate(name, n);
    forall i | 0 <= i < |c| ensures NameChar(c[i], wide) {
      if i > |name| { assert IsDigit(Numeral(n)[i - |name| - 1]); }
    }
  }

  /** A step keeps its name unless the name is spellable and an earlier step already has it. */
  predicate Repeats(was: seq<string>, i: nat, wide: char -> bool)
    requires i < |was|
  {
    Spellable(was[i], wide) && was[i] in was[..i]
  }

  /** What a repeated name becomes: the first numbered form that neither the plan nor an earlier renaming holds. */
  ghost predicate FreshName(was: seq<string>, now: seq<string>, i: nat, n: nat)
    requires i < |was| == |now|
  {
    && n >= 2 && now[i] == Candidate(was[i], n)
    && now[i] !in was && now[i] !in now[..i]
    && forall m :: 2 <= m < n ==> Candidate(was[i], m) in was || Candidate(was[i], m) in now[..i]
  }

  ghost predicate NameAt(was: seq<string>, now: seq<string>, i: nat, wide: char -> bool)
    requires i < |was| == |now|
  {
    if Repeats(was, i, wide) then exists n: nat :: FreshName(was, now, i, n) else now[i] == was[i]
  }

  ghost predicate Renamed(was: seq<string>, now: seq<string>, wide: char -> bool) {
    |was| == |now| && forall i :: 0 <= i < |was| ==> NameAt(was, now, i, wide)
  }

  /** agent/executive.go, fixDuplicateStepNames. */
  method FixDuplicates(tags: array<string>, wide: char -> bool)
    modifies tags
    ensures Renamed(old(tags[..]), tags[..], wide)
  {
    ghost var was := tags[..];
    var held: set<string> := {};
    for i := 0 to tags.Length
      invariant held == set t | t in tags[..i] && t != ""
    {
      if tags[i] != "" { held := held + {tags[i]}; }
    }
    assert tags[..tags.Length] == was;
    var seen: set<string> := {};
    for i := 0 to tags.Length
      invariant forall k :: i <= k < tags.Length ==> tags[k] == was[k]
      invariant forall k :: 0 <= k < i ==> NameAt(was, tags[..], k, wide)
      invariant held == set t | t in was + tags[..i] && t != ""
      invariant seen == set t | t in tags[..i] && Spellable(t, wide)
    {
      var name := tags[i];
      ghost var before := tags[..];
      assert before[..i + 1] == before[..i] + [name];
      SeenIff(was, before, i, wide);
      if name == "" || !Spellable(name, wide) { continue; }
      if name !in seen {
        seen := seen + {name};
        continue;
      }
      var unique := PickName(name, held);
      tags[i] := unique;
      ghost var n :| n >= 2 && unique == Candidate(name, n) &&
        forall m :: 2 <= m < n ==> Candidate(name, m) in held;
      CandidateSpellable(name, n, wide);
      assert tags[..] == before[i := unique] && tags[..i] == before[..i];
      assert tags[..i + 1] == before[..i] + [unique];
      assert FreshName(was, tags[..], i, n);
      forall k | 0 <= k < i ensures NameAt(was, tags[..], k, wide) {
        PrefixOnly(was, before, tags[..], k, wide);
      }
      held := held + {unique};
      seen := seen + {unique};
    }
  }

  lemma PrefixOnly(was: seq<string>, now: seq<string>, now': seq<string>, k: nat, wide: char -> bool)
    requires k < |was| == |now| == |now'| && now[..k + 1] == now'[..k + 1]
    requires NameAt(was, now, k, wide)
    ensures NameAt(was, now', k, wide)
  {
    assert now[k] == now[..k + 1][k] == now'[k];
    assert now[..k] == now[..k + 1][..k] == now'[..k];
    if Repeats(was, k, wide) {
      var n: nat :| FreshName(was, now, k, n);
      assert FreshName(was, now', k, n);
    }
  }

  /** A name already walked past is one that an earlier step of the plan was given. */
  lemma SeenIff(was: seq<string>, now: seq<string>, i: nat, wide: char -> bool)
    requires i < |was| == |now| && now[i..] == was[i..]
    requires forall k :: 0 <= k < i ==> NameAt(was, now, k, wide)
    ensures Spellable(was[i], wide) ==> (was[i] in now[..i] <==> was[i] in was[..i])
  {
    assert was[i] in was;
    if was[i] in now[..i] {
      var k :| 0 <= k < i && now[k] == was[i];
      assert NameAt(was, now, k, wide);
      assert was[k] in was[..i];
    }
    if Spellable(was[i], wide) && was[i] in was[..i] {
      FirstKeeps(was, now, i, was[i], wide);
    }
  }

  lemma FirstKeeps(was: seq<string>, now: seq<string>, i: nat, name: string, wide: char -> bool)
    requires i <= |was| == |now| && name in was[..i]
    requires forall k :: 0 <= k < i ==> NameAt(was, now, k, wide)
    ensures FirstTag(was, name, 0).At? && FirstTag(was, name, 0).index < i
    ensures now[FirstTag(was, name, 0).index] == name && name in now[..i]
  {
    var k :| 0 <= k < i && was[k] == name;
    FirstAtMost(was, name, 0, k);
    var f := FirstTag(was, name, 0).index;
    assert was[0..f] == was[..f];
    assert NameAt(was, now, f, wide);
    assert now[f] in now[..i];
  }

  /** Pigeonhole: the numbered forms are all different, so at most |held| of them can be held in a row. */
  lemma TriesBounded(name: string, held: set<string>, n: nat)
    requires n >= 2 && forall m :: 2 <= m < n ==> Candidate(name, m) in held
    ensures n - 2 <= |held|
  {
    var tries := seq(n - 2, k requires 0 <= k < n - 2 => Candidate(name, k + 2));
    if |tries| > |held| {
      var i, j := Digraph.Pigeonhole(tries, held);
      CandidateDistinct(name, i + 2, j + 2);
    }
  }

  /** The suffix loop: the first numbered form nobody holds. */
  method PickName(name: string, held: set<string>) returns (unique: string)
    ensures unique !in held
    ensures exists n: nat :: n >= 2 && unique == Candidate(name, n) && forall m :: 2 <= m < n ==> Candidate(name, m) in held
  {
    var n := 2;
    while Candidate(name, n) in held
      invariant n >= 2 && forall m :: 2 <= m < n ==> Candidate(name, m) in held
      decreases |held| + 2 - n
    {
      TriesBounded(name, held, n + 1);
      n := n + 1;
    }
    unique := Candidate(name, n);
  }

  // ---- What the renaming guarantees ----

  /** No two steps share a spellable name any more. */
  lemma SpellableNamesDistinct(was: seq<string>, now: seq<string>, wide: char -> bool, i: nat, j: nat)
    requires Renamed(was, now, wide) && i < j < |now| && Spellable(now[j], wide)
    ensures now[i] != now[j]
  {
    assert NameAt(was, now, i, wide) && NameAt(was, now, j, wide);
    assert now[i] in now[..j] && was[i] in was[..j] && was[j] in was;
  }

  /** A first occurrence is never renamed, nor is a name no reference can spell. */
  lemma FirstOccurrenceKept(was: seq<string>, now: seq<string>, wide: char -> bool, i: nat)
    requires Renamed(was, now, wide) && i < |was|
    ensures was[i] !in was[..i] || !Spellable(was[i], wide) <==> now[i] == was[i]
  {
    assert NameAt(was, now, i, wide);
    assert was[i] in was;
  }

  /** Every name the plan held still finds the step it found before, so no reference changes its meaning. */
  lemma ReferencesUnmoved(was: seq<string>, now: seq<string>, wide: char -> bool, ref: string)
    requires Renamed(was, now, wide) && ref in was
    ensures StepIndexFor(ref, now) == StepIndexFor(ref, was)
  {
    assert was[..|was|] == was;
    FirstKeeps(was, now, |was|, ref, wide);
    var f := FirstTag(was, ref, 0).index;
    forall k | 0 <= k < f ensures now[k] != ref {
      assert NameAt(was, now, k, wide);
      assert was[k] in was[0..f];
    }
    FirstIs(now, ref, 0, f);
  }

  lemma {:induction false} FirstIs(tags: seq<string>, ref: string, from: nat, k: nat)
    requires from <= k < |tags| && tags[k] == ref && forall m :: from <= m < k ==> tags[m] != ref
    ensures FirstTag(tags, ref, from) == At(k)
    decreases k - from
  {
    if from < k { FirstIs(tags, ref, from + 1, k); }
  }

  /** A number finds that position, whether or not the plan has it; any other name the first step that has it. */
  lemma FoundIff(ref: string, tags: seq<string>, d: int)
    ensures StepIndexFor(ref, tags) == At(d) <==>
      if Atoi(ref).Number? then d == Atoi(ref).value
      else 0 <= d < |tags| && tags[d] == ref && forall k :: 0 <= k < d ==> tags[k] != ref
  {
    if 0 <= d < |tags| && tags[d] == ref && forall k :: 0 <= k < d ==> tags[k] != ref { FirstIs(tags, ref, 0, d); }
    if FirstTag(tags, ref, 0) == At(d) {
      forall k | 0 <= k < d ensures tags[k] != ref { assert tags[k] in tags[0..d]; }
    }
  }
}
