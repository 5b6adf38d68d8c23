/** The weighted fair-share allocator of the context gate: water filling with floor division. */
module FairShare {

  datatype Source = Source(name: string, content: string, weight: int, tailTrunc: bool)

  const MARKER: string := "\n\n...(truncated by contextgate to fit budget)\n"
  const MIN_CHUNK := 500

  function WeightOf(s: Source): (w: int)
    ensures w >= 1
  {
    if s.weight <= 0 then 1 else s.weight
  }

  /** Integer division that truncates toward zero, for a positive divisor. */
  function TruncDiv(a: int, b: int): int
    requires b > 0
  {
    if a >= 0 then a / b else -((-a) / b)
  }

  function ShareOf(remaining: int, open: int, w: int): int {
    if open <= 0 then 0 else TruncDiv(remaining * w, open)
  }

  // ---- What the first n sources hold and still want, given which are kept whole ----

  function KeptLength(ss: seq<Source>, keep: seq<bool>, n: nat): int
    requires n <= |ss| == |keep|
  {
    if n == 0 then 0
    else KeptLength(ss, keep, n - 1) + (if keep[n - 1] then |ss[n - 1].content| else 0)
  }

  function OpenWeight(ss: seq<Source>, keep: seq<bool>, n: nat): (w: int)
    requires n <= |ss| == |keep|
    ensures w >= 0
  {
    if n == 0 then 0
    else OpenWeight(ss, keep, n - 1) + (if keep[n - 1] then 0 else WeightOf(ss[n - 1]))
  }

  lemma {:induction false} OpenCovers(ss: seq<Source>, keep: seq<bool>, n: nat, i: nat)
    requires i < n <= |ss| == |keep| && !keep[i]
    ensures OpenWeight(ss, keep, n) >= WeightOf(ss[i])
  {
    if i < n - 1 { OpenCovers(ss, keep, n - 1, i); }
  }

  function Remaining(ss: seq<Source>, budget: int, keep: seq<bool>): int
    requires |ss| == |keep|
  {
    budget - KeptLength(ss, keep, |ss|)
  }

  function Open(ss: seq<Source>, keep: seq<bool>): int
    requires |ss| == |keep|
  {
    OpenWeight(ss, keep, |ss|)
  }

  /** The water level. With R characters left over an open weight W, a source is kept whole exactly when
      its length is at most its share R * w / W of the level, compared without rounding. */
  ghost predicate IsLevel(ss: seq<Source>, budget: int, keep: seq<bool>) {
    && |keep| == |ss|
    && forall i :: 0 <= i < |ss| ==>
      (keep[i] <==> ss[i].content == "" || Fits(ss[i], Remaining(ss, budget, keep), Open(ss, keep)))
  }

  predicate Fits(s: Source, r: int, w: int) {
    |s.content| * w <= r * WeightOf(s)
  }

  /** What a source that is not kept whole receives. */
  function Cut(s: Source, share: int): string
    requires share < |s.content|
  {
    if share < MIN_CHUNK then ""
    else
      var cut := share - |MARKER|;
      if s.tailTrunc then MARKER + s.content[|s.content| - cut..] else s.content[..cut] + MARKER
  }

  lemma CutLength(s: Source, share: int)
    requires share < |s.content|
    ensures |Cut(s, share)| == if share < MIN_CHUNK then 0 else share
  {}

  /** What is left of a source that is not kept whole: nothing when its share is under 500, otherwise its beginning and
      then the marker, or the marker and then its end, as many characters as the share leaves room for. */
  ghost predicate Shortened(s: Source, share: int, out: string) {
    && (out == "" <==> share < 500)
    && (share >= 500 && !s.tailTrunc ==> exists a, b :: s.content == a + b && |a| == share - |MARKER| && out == a + MARKER)
    && (share >= 500 && s.tailTrunc ==> exists a, b :: s.content == b + a && |a| == share - |MARKER| && out == MARKER + a)
  }

  lemma CutShortens(s: Source, share: int)
    requires share < |s.content|
    ensures Shortened(s, share, Cut(s, share))
  {
    if share >= MIN_CHUNK {
      var n, len := share - |MARKER|, |s.content|;
      assert s.content == s.content[..n] + s.content[n..];
      assert s.content == s.content[..len - n] + s.content[len - n..];
    }
  }

  /** The share of source i at the level that `keep` leaves. */
  ghost function LevelShare(ss: seq<Source>, budget: int, keep: seq<bool>, i: nat): int
    requires i < |ss| == |keep|
  {
    ShareOf(Remaining(ss, budget, keep), Open(ss, keep), WeightOf(ss[i]))
  }

  ghost predicate OutcomeAt(ss: seq<Source>, budget: int, keep: seq<bool>, i: nat, out: string)
    requires i < |ss| == |keep|
  {
    if keep[i] then out == ss[i].content
    else LevelShare(ss, budget, keep, i) < |ss[i].content| && out == Cut(ss[i], LevelShare(ss, budget, keep, i))
  }

  ghost predicate IsOutcome(ss: seq<Source>, budget: int, keep: seq<bool>, out: seq<string>) {
    && |keep| == |ss| == |out|
    && forall i :: 0 <= i < |ss| ==> OutcomeAt(ss, budget, keep, i, out[i])
  }

  function ChangedNames(ss: seq<Source>, out: seq<string>, n: nat): seq<string>
    requires n <= |ss| == |out|
  {
    if n == 0 then []
    else ChangedNames(ss, out, n - 1) + (if out[n - 1] != ss[n - 1].content then [ss[n - 1].name] else [])
  }

  // ---- Arithmetic of the level ----

  lemma FloorDiv(x: int, d: int)
    requires d > 0
    ensures (x / d) * d <= x < (x / d + 1) * d
  {
    assert x == d * (x / d) + x % d;
  }

  /** A floor is at least n exactly when n times the divisor fits. */
  lemma FloorAtLeast(n: int, x: int, d: int)
    requires d > 0
    ensures n <= x / d <==> n * d <= x
  {
    FloorDiv(x, d);
    if n <= x / d { MulMono(n, x / d, d); } else { MulMono(x / d + 1, n, d); }
  }

  lemma DivFits(len: int, r: int, w: int, open: int)
    requires open > 0 && w >= 1 && len >= 1
    ensures len <= TruncDiv(r * w, open) <==> len * open <= r * w
  {
    var x := r * w;
    if x >= 0 {
      FloorAtLeast(len, x, open);
    } else {
      MulMono(1, len, open);
      FloorAtLeast(0, -x, open);
    }
  }

  /** Giving a source that fits its whole content never lowers the level. */
  lemma LevelRises(r: int, w: int, len: int, wj: int)
    requires len * w <= r * wj
    ensures (r - len) * w >= r * (w - wj)
  {
    assert (r - len) * w == r * w - len * w;
    assert r * (w - wj) == r * w - r * wj;
  }

  lemma StillFits(len: int, wi: int, r: int, w: int, r': int, w': int)
    requires w > 0 && w' >= 0 && wi >= 1
    requires len * w <= r * wi
    requires r' * w >= r * w'
    ensures len * w' <= r' * wi
  {
    calc {
      (len * w') * w;
      == (len * w) * w';
      <= { MulMono(len * w, r * wi, w'); } (r * wi) * w';
      == (r * w') * wi;
      <= { MulMono(r * w', r' * w, wi); } (r' * w) * wi;
      == (r' * wi) * w;
    }
    if len * w' > r' * wi { MulStrict(r' * wi, len * w', w); }
  }

  lemma MulMono(a: int, b: int, c: int)
    requires a <= b && c >= 0
    ensures a * c <= b * c
  {}

  lemma MulStrict(a: int, b: int, c: int)
    requires a < b && c > 0
    ensures a * c < b * c
  {}

  // ---- Settling one more source ----

  lemma {:induction false} SettleOne(ss: seq<Source>, keep: seq<bool>, j: nat, n: nat)
    requires n <= |ss| == |keep| && j < |ss| && !keep[j]
    ensures KeptLength(ss, keep[j := true], n) == KeptLength(ss, keep, n) + (if j < n then |ss[j].content| else 0)
    ensures OpenWeight(ss, keep[j := true], n) == OpenWeight(ss, keep, n) - (if j < n then WeightOf(ss[j]) else 0)
  {
    if n > 0 { SettleOne(ss, keep, j, n - 1); }
  }

  ghost predicate SettledFit(ss: seq<Source>, budget: int, keep: seq<bool>) {
    && |keep| == |ss|
    && forall i :: 0 <= i < |ss| ==>
      if ss[i].content == "" then keep[i]
      else keep[i] ==> Fits(ss[i], Remaining(ss, budget, keep), Open(ss, keep))
  }

  lemma SettleKeepsFit(ss: seq<Source>, budget: int, keep: seq<bool>, j: nat)
    requires SettledFit(ss, budget, keep) && j < |ss| && !keep[j]
    requires Fits(ss[j], Remaining(ss, budget, keep), Open(ss, keep))
    ensures SettledFit(ss, budget, keep[j := true])
    ensures Open(ss, keep[j := true]) == Open(ss, keep) - WeightOf(ss[j])
    ensures Remaining(ss, budget, keep[j := true]) == Remaining(ss, budget, keep) - |ss[j].content|
  {
    var r, w := Remaining(ss, budget, keep), Open(ss, keep);
    var len, wj := |ss[j].content|, WeightOf(ss[j]);
    SettleOne(ss, keep, j, |ss|);
    LevelRises(r, w, len, wj);
    forall i | 0 <= i < |ss| && ss[i].content != "" && keep[j := true][i]
      ensures Fits(ss[i], r - len, w - wj)
    {
      StillFits(|ss[i].content|, WeightOf(ss[i]), r, w, r - len, w - wj);
    }
  }

  // ---- The allocator ----

  /** agent/contextgate.go, fairShareAllocate. `keep` records which sources were settled whole. */
  method Allocate(sources: seq<Source>, budget: int)
    returns (shares: seq<string>, trimmed: seq<string>, ghost keep: seq<bool>)
    ensures IsLevel(sources, budget, keep)
    ensures IsOutcome(sources, budget, keep, shares)
    ensures |keep| == |sources| == |shares|
    ensures forall i :: 0 <= i < |sources| ==>
      if keep[i] then shares[i] == sources[i].content else Shortened(sources[i], LevelShare(sources, budget, keep, i), shares[i])
    ensures trimmed == ChangedNames(sources, shares, |sources|)
    ensures forall x :: x in trimmed <==> exists i :: 0 <= i < |sources| && sources[i].name == x && shares[i] != sources[i].content
  {
    var n := |sources|;
    var given := new string[n];
    var settled := new bool[n];
    var weight := new int[n];
    var remaining, unsettledW := budget, 0;
    for i := 0 to n
      invariant forall k :: 0 <= k < i ==> weight[k] == WeightOf(sources[k])
      invariant forall k :: 0 <= k < i ==> settled[k] == (sources[k].content == "")
      invariant forall k :: 0 <= k < i && settled[k] ==> given[k] == ""
      invariant unsettledW == TotalWeight(sources, i)
    {
      weight[i] := WeightOf(sources[i]);
      settled[i], given[i] := sources[i].content == "", "";
      if !settled[i] { unsettledW := unsettledW + weight[i]; }
    }
    InitialSums(sources, settled[..], n);
    while true
      invariant Tracks(sources, budget, settled[..], given[..], remaining, unsettledW)
      invariant forall k :: 0 <= k < n ==> weight[k] == WeightOf(sources[k])
      decreases unsettledW
    {
      var progress, anyUnsettled;
      remaining, unsettledW, progress, anyUnsettled :=
        Pass(sources, budget, weight, settled, given, remaining, unsettledW);
      keep := settled[..];
      if !anyUnsettled {
        trimmed := [];
        NothingChanged(sources, given[..], n);
        break;
      }
      if !progress {
        trimmed := CutRest(sources, budget, keep, remaining, unsettledW, weight, settled, given);
        break;
      }
    }
    shares := given[..];
    AllShortened(sources, budget, keep, shares);
    NamesOfChanged(sources, shares, n);
  }

  lemma AllShortened(ss: seq<Source>, budget: int, keep: seq<bool>, out: seq<string>)
    requires IsOutcome(ss, budget, keep, out)
    ensures |keep| == |ss| == |out|
    ensures forall i :: 0 <= i < |ss| ==>
      if keep[i] then out[i] == ss[i].content else Shortened(ss[i], LevelShare(ss, budget, keep, i), out[i])
  {
    forall i | 0 <= i < |ss|
      ensures if keep[i] then out[i] == ss[i].content else Shortened(ss[i], LevelShare(ss, budget, keep, i), out[i])
    {
      assert OutcomeAt(ss, budget, keep, i, out[i]);
      if !keep[i] { CutShortens(ss[i], LevelShare(ss, budget, keep, i)); }
    }
  }

  lemma {:induction false} NamesOfChanged(ss: seq<Source>, out: seq<string>, n: nat)
    requires n <= |ss| == |out|
    ensures forall x :: x in ChangedNames(ss, out, n) <==> exists i :: 0 <= i < n && ss[i].name == x && out[i] != ss[i].content
  {
    if n > 0 { NamesOfChanged(ss, out, n - 1); }
  }

  /** The loop state: the running sums are those of the settled set, and everything settled still fits. */
  ghost predicate Tracks(ss: seq<Source>, budget: int, keep: seq<bool>, out: seq<string>, remaining: int, open: int) {
    && SettledFit(ss, budget, keep)
    && |out| == |ss|
    && remaining == Remaining(ss, budget, keep)
    && open == Open(ss, keep)
    && forall k :: 0 <= k < |ss| && keep[k] ==> out[k] == ss[k].content
  }

  /** One pass: whatever fits its share at the moment it is looked at is settled. */
  method Pass(sources: seq<Source>, budget: int, weight: array<int>, settled: array<bool>, given: array<string>,
              remaining0: int, unsettledW0: int)
    returns (remaining: int, unsettledW: int, progress: bool, anyUnsettled: bool)
    requires settled.Length == given.Length == weight.Length == |sources|
    requires Tracks(sources, budget, settled[..], given[..], remaining0, unsettledW0)
    requires forall k :: 0 <= k < |sources| ==> weight[k] == WeightOf(sources[k])
    modifies settled, given
    ensures Tracks(sources, budget, settled[..], given[..], remaining, unsettledW)
    ensures progress ==> 0 <= unsettledW < unsettledW0
    ensures anyUnsettled <==> exists k :: 0 <= k < |sources| && !settled[k]
    ensures !anyUnsettled || !progress ==> IsLevel(sources, budget, settled[..])
  {
    remaining, unsettledW, progress, anyUnsettled := remaining0, unsettledW0, false, false;
    ghost var open := 0;
    hide Fits, ShareOf, WeightOf, KeptLength, OpenWeight;
    for i := 0 to |sources|
      invariant Tracks(sources, budget, settled[..], given[..], remaining, unsettledW)
      invariant !anyUnsettled ==> forall k :: 0 <= k < i ==> settled[k]
      invariant anyUnsettled ==> 0 <= open < i && !settled[open]
      invariant if progress then unsettledW < unsettledW0 else unsettledW == unsettledW0
      invariant !progress ==> forall k :: 0 <= k < i && !settled[k] ==> !Fits(sources[k], remaining, unsettledW)
    {
      if !settled[i] {
        FitsByShare(sources, budget, settled[..], i);
        if |sources[i].content| <= ShareOf(remaining, unsettledW, weight[i]) {
          assert weight[i] == WeightOf(sources[i]) >= 1;
          SettleKeepsFit(sources, budget, settled[..], i);
          ghost var before := settled[..];
          given[i] := sources[i].content;
          remaining := remaining - |sources[i].content|;
          unsettledW := unsettledW - weight[i];
          settled[i] := true;
          assert settled[..] == before[i := true];
          progress := true;
        } else {
          anyUnsettled, open := true, i;
        }
      }
    }
  }

  lemma FitsByShare(ss: seq<Source>, budget: int, keep: seq<bool>, i: nat)
    requires SettledFit(ss, budget, keep) && i < |ss| && !keep[i]
    ensures |ss[i].content| <= LevelShare(ss, budget, keep, i)
      <==> Fits(ss[i], Remaining(ss, budget, keep), Open(ss, keep))
  {
    OpenCovers(ss, keep, |ss|, i);
    DivFits(|ss[i].content|, Remaining(ss, budget, keep), WeightOf(ss[i]), Open(ss, keep));
  }

  method CutContent(s: Source, share: int) returns (out: string)
    requires share < |s.content| && s.content != ""
    ensures out == Cut(s, share)
  {
    if share < MIN_CHUNK {
      out := "";
    } else {
      var cut := share - |MARKER|;
      if cut < 0 { cut := 0; }
      out := if s.tailTrunc then MARKER + s.content[|s.content| - cut..] else s.content[..cut] + MARKER;
    }
  }

  /** The last step: every source still open is cut to its share, or dropped. */
  method CutRest(sources: seq<Source>, budget: int, ghost keep: seq<bool>, remaining: int, unsettledW: int,
                 weight: array<int>, settled: array<bool>, given: array<string>)
    returns (trimmed: seq<string>)
    requires settled.Length == given.Length == weight.Length == |sources| && keep == settled[..]
    requires IsLevel(sources, budget, keep)
    requires Tracks(sources, budget, keep, given[..], remaining, unsettledW)
    requires forall k :: 0 <= k < |sources| ==> weight[k] == WeightOf(sources[k])
    modifies settled, given
    ensures IsOutcome(sources, budget, keep, given[..])
    ensures trimmed == ChangedNames(sources, given[..], |sources|)
  {
    trimmed := [];
    for i := 0 to |sources|
      invariant forall k :: i <= k < |sources| ==> settled[k] == keep[k]
      invariant forall k :: 0 <= k < |sources| && keep[k] ==> given[k] == sources[k].content
      invariant forall k :: 0 <= k < i ==> OutcomeAt(sources, budget, keep, k, given[k])
      invariant trimmed == ChangedNames(sources, given[..], i)
    {
      ghost var before := given[..];
      if !settled[i] {
        FitsByShare(sources, budget, keep, i);
        CutLength(sources[i], LevelShare(sources, budget, keep, i));
        given[i] := CutContent(sources[i], ShareOf(remaining, unsettledW, weight[i]));
        trimmed := trimmed + [sources[i].name];
        settled[i] := true;
      }
      ChangedPrefix(sources, before, given[..], i);
    }
  }

  function TotalWeight(ss: seq<Source>, n: nat): int
    requires n <= |ss|
  {
    if n == 0 then 0 else TotalWeight(ss, n - 1) + (if ss[n - 1].content == "" then 0 else WeightOf(ss[n - 1]))
  }

  lemma {:induction false} InitialSums(ss: seq<Source>, keep: seq<bool>, n: nat)
    requires n <= |ss| == |keep| && forall k :: 0 <= k < |ss| ==> keep[k] == (ss[k].content == "")
    ensures KeptLength(ss, keep, n) == 0 && OpenWeight(ss, keep, n) == TotalWeight(ss, n)
  {
    if n > 0 { InitialSums(ss, keep, n - 1); }
  }

  lemma {:induction false} NothingChanged(ss: seq<Source>, out: seq<string>, n: nat)
    requires n <= |ss| == |out| && forall k :: 0 <= k < n ==> out[k] == ss[k].content
    ensures ChangedNames(ss, out, n) == []
  {
    if n > 0 { NothingChanged(ss, out, n - 1); }
  }

  lemma {:induction false} ChangedPrefix(ss: seq<Source>, out: seq<string>, out': seq<string>, n: nat)
    requires n <= |ss| == |out| == |out'| && out[..n] == out'[..n]
    ensures ChangedNames(ss, out, n) == ChangedNames(ss, out', n)
  {
    if n > 0 {
      assert out[n - 1] == out[..n][n - 1] == out'[..n][n - 1];
      assert out[..n - 1] == out[..n][..n - 1] == out'[..n - 1];
      ChangedPrefix(ss, out, out', n - 1);
    }
  }

  // ---- The level is unique, so the outcome does not depend on the order sources settle ----

  lemma DifferenceStep(len: int, l: int, weight: int, wn: int, r: int, w: int)
    requires len * w >= r * weight && l * w > r * wn
    ensures (len + l) * w > r * (weight + wn)
  {
    assert (len + l) * w == len * w + l * w;
    assert r * (weight + wn) == r * weight + r * wn;
  }

  lemma {:induction false} Difference(ss: seq<Source>, low: seq<bool>, high: seq<bool>, r: int, w: int, n: nat)
    requires n <= |ss| == |low| == |high|
    requires forall i :: 0 <= i < |ss| && !low[i] ==> !Fits(ss[i], r, w)
    requires forall i :: 0 <= i < |ss| && low[i] ==> high[i]
    ensures var len := KeptLength(ss, high, n) - KeptLength(ss, low, n);
            var weight := OpenWeight(ss, low, n) - OpenWeight(ss, high, n);
            if forall i :: 0 <= i < n ==> low[i] == high[i] then len == weight == 0 else len * w > r * weight
  {
    if n > 0 {
      Difference(ss, low, high, r, w, n - 1);
      if low[n - 1] != high[n - 1] {
        assert !Fits(ss[n - 1], r, w);
        DifferenceStep(KeptLength(ss, high, n - 1) - KeptLength(ss, low, n - 1), |ss[n - 1].content|,
                       OpenWeight(ss, low, n - 1) - OpenWeight(ss, high, n - 1), WeightOf(ss[n - 1]), r, w);
      }
    }
  }

  lemma LowerKeepsLess(ss: seq<Source>, budget: int, low: seq<bool>, high: seq<bool>)
    requires IsLevel(ss, budget, low) && IsLevel(ss, budget, high)
    requires Remaining(ss, budget, low) * Open(ss, high) <= Remaining(ss, budget, high) * Open(ss, low)
    ensures Open(ss, low) > 0 ==> forall i :: 0 <= i < |ss| && low[i] ==> high[i]
  {
    var r, w, r', w' := Remaining(ss, budget, low), Open(ss, low), Remaining(ss, budget, high), Open(ss, high);
    if w > 0 {
      forall i | 0 <= i < |ss| && low[i]
        ensures high[i]
      {
        if ss[i].content != "" {
          StillFits(|ss[i].content|, WeightOf(ss[i]), r, w, r', w');
        }
      }
    }
  }

  lemma LowerIsHigher(r: int, w: int, r': int, w': int)
    requires (r - r') * w > r * (w - w')
    ensures r * w' > r' * w
  {
    assert (r - r') * w == r * w - r' * w;
    assert r * (w - w') == r * w - r * w';
  }

  lemma NestedLevelsEqual(ss: seq<Source>, budget: int, low: seq<bool>, high: seq<bool>)
    requires IsLevel(ss, budget, low) && |high| == |ss|
    requires forall i :: 0 <= i < |ss| && low[i] ==> high[i]
    requires Remaining(ss, budget, low) * Open(ss, high) <= Remaining(ss, budget, high) * Open(ss, low)
    ensures low == high
  {
    Difference(ss, low, high, Remaining(ss, budget, low), Open(ss, low), |ss|);
    if exists i :: 0 <= i < |ss| && low[i] != high[i] {
      LowerIsHigher(Remaining(ss, budget, low), Open(ss, low), Remaining(ss, budget, high), Open(ss, high));
    }
  }

  lemma AllKept(ss: seq<Source>, keep: seq<bool>, n: nat)
    requires n <= |ss| == |keep| && OpenWeight(ss, keep, n) <= 0
    ensures forall i :: 0 <= i < n ==> keep[i]
  {
    forall i | 0 <= i < n && !keep[i] ensures false { OpenCovers(ss, keep, n, i); }
  }

  /** There is at most one level: two runs that settle sources in different orders keep the same ones. */
  lemma LevelUnique(ss: seq<Source>, budget: int, a: seq<bool>, b: seq<bool>)
    requires IsLevel(ss, budget, a) && IsLevel(ss, budget, b)
    ensures a == b
  {
    var r, w, r', w' := Remaining(ss, budget, a), Open(ss, a), Remaining(ss, budget, b), Open(ss, b);
    if w <= 0 {
      AllKept(ss, a, |ss|);
      AtLevelZero(ss, budget, a, b);
    } else if w' <= 0 {
      AllKept(ss, b, |ss|);
      AtLevelZero(ss, budget, b, a);
    } else if r * w' <= r' * w {
      LowerKeepsLess(ss, budget, a, b);
      NestedLevelsEqual(ss, budget, a, b);
    } else {
      LowerKeepsLess(ss, budget, b, a);
      NestedLevelsEqual(ss, budget, b, a);
    }
  }

  lemma AtLevelZero(ss: seq<Source>, budget: int, full: seq<bool>, other: seq<bool>)
    requires IsLevel(ss, budget, full) && IsLevel(ss, budget, other)
    requires Open(ss, full) == 0 && forall i :: 0 <= i < |ss| ==> full[i]
    ensures full == other
  {
    if i :| 0 <= i < |ss| && ss[i].content != "" {
      assert Fits(ss[i], Remaining(ss, budget, full), 0);
      var r, w, r' := Remaining(ss, budget, other), Open(ss, other), Remaining(ss, budget, full);
      assert r' * WeightOf(ss[i]) >= 0;
      if r' < 0 { MulStrict(r', 0, WeightOf(ss[i])); }
      MulMono(0, r', w);
      NestedLevelsEqual(ss, budget, other, full);
    }
  }

  /** Two runs agree on every character they hand out and on the names they report. */
  lemma OutcomeUnique(ss: seq<Source>, budget: int, a: seq<bool>, b: seq<bool>, out: seq<string>, out': seq<string>)
    requires IsLevel(ss, budget, a) && IsOutcome(ss, budget, a, out)
    requires IsLevel(ss, budget, b) && IsOutcome(ss, budget, b, out')
    ensures out == out'
  {
    LevelUnique(ss, budget, a, b);
    forall i | 0 <= i < |ss| ensures out[i] == out'[i] {
      assert OutcomeAt(ss, budget, a, i, out[i]) && OutcomeAt(ss, budget, b, i, out'[i]);
    }
  }

  // ---- Fair share never hurts and never wastes ----

  function TotalLength(out: seq<string>, n: nat): int
    requires n <= |out|
  {
    if n == 0 then 0 else TotalLength(out, n - 1) + |out[n - 1]|
  }

  function ContentLength(ss: seq<Source>, n: nat): int
    requires n <= |ss|
  {
    if n == 0 then 0 else ContentLength(ss, n - 1) + |ss[n - 1].content|
  }

  lemma {:induction false} EverythingKept(ss: seq<Source>, keep: seq<bool>, n: nat)
    requires n <= |ss| == |keep| && forall i :: 0 <= i < |ss| ==> keep[i]
    ensures KeptLength(ss, keep, n) == ContentLength(ss, n) && OpenWeight(ss, keep, n) == 0
  {
    if n > 0 { EverythingKept(ss, keep, n - 1); }
  }

  lemma {:induction false} EmptyLength(ss: seq<Source>, n: nat)
    requires n <= |ss| && forall i :: 0 <= i < n ==> ss[i].content == ""
    ensures ContentLength(ss, n) == 0
  {
    if n > 0 { EmptyLength(ss, n - 1); }
  }

  /** Nothing is cut exactly when all the contents together fit the budget (or there is no content). */
  lemma UncutIff(ss: seq<Source>, budget: int, keep: seq<bool>, out: seq<string>)
    requires IsLevel(ss, budget, keep) && IsOutcome(ss, budget, keep, out)
    ensures (forall i :: 0 <= i < |ss| ==> out[i] == ss[i].content)
      <==> ContentLength(ss, |ss|) <= budget || forall i :: 0 <= i < |ss| ==> ss[i].content == ""
    ensures ChangedNames(ss, out, |ss|) == [] <==> forall i :: 0 <= i < |ss| ==> out[i] == ss[i].content
  {
    var all := seq(|ss|, _ => true);
    EverythingKept(ss, all, |ss|);
    ChangedIff(ss, out, |ss|);
    var fits := ContentLength(ss, |ss|) <= budget;
    if fits {
      forall i | 0 <= i < |ss| ensures Fits(ss[i], Remaining(ss, budget, all), 0) {
        MulMono(0, Remaining(ss, budget, all), WeightOf(ss[i]));
      }
      LevelUnique(ss, budget, keep, all);
      OutcomeIsContent(ss, budget, keep, out);
    } else if forall i :: 0 <= i < |ss| ==> ss[i].content == "" {
      OutcomeIsContent(ss, budget, keep, out);
    } else if forall i :: 0 <= i < |ss| ==> out[i] == ss[i].content {
      KeptIffUnchanged(ss, budget, keep, out);
      assert keep == all;
      var j :| 0 <= j < |ss| && ss[j].content != "";
      assert Fits(ss[j], Remaining(ss, budget, keep), 0);
      MulStrict(Remaining(ss, budget, keep), 0, WeightOf(ss[j]));
    }
  }

  lemma OutcomeIsContent(ss: seq<Source>, budget: int, keep: seq<bool>, out: seq<string>)
    requires IsOutcome(ss, budget, keep, out) && forall i :: 0 <= i < |ss| ==> keep[i]
    ensures forall i :: 0 <= i < |ss| ==> out[i] == ss[i].content
  {
    forall i | 0 <= i < |ss| ensures out[i] == ss[i].content {
      assert OutcomeAt(ss, budget, keep, i, out[i]);
    }
  }

  /** A source is handed over unchanged exactly when it was kept whole. */
  lemma KeptIffUnchanged(ss: seq<Source>, budget: int, keep: seq<bool>, out: seq<string>)
    requires IsLevel(ss, budget, keep) && IsOutcome(ss, budget, keep, out)
    ensures forall i :: 0 <= i < |ss| ==> (keep[i] <==> out[i] == ss[i].content)
  {
    forall i | 0 <= i < |ss| ensures keep[i] <==> out[i] == ss[i].content {
      assert OutcomeAt(ss, budget, keep, i, out[i]);
      if !keep[i] { CutLength(ss[i], LevelShare(ss, budget, keep, i)); }
    }
  }

  lemma {:induction false} ChangedIff(ss: seq<Source>, out: seq<string>, n: nat)
    requires n <= |ss| == |out|
    ensures ChangedNames(ss, out, n) == [] <==> forall i :: 0 <= i < n ==> out[i] == ss[i].content
  {
    if n > 0 { ChangedIff(ss, out, n - 1); }
  }

  lemma AddProducts(a: int, b: int, c: int)
    ensures (a + b) * c == a * c + b * c
    ensures c * (a + b) == c * a + c * b
  {}

  lemma {:induction false} WeightSplits(ss: seq<Source>, keep: seq<bool>, r: int, w: int, n: nat)
    requires n <= |ss| == |keep|
    requires forall i :: 0 <= i < |ss| && ss[i].content == "" ==> keep[i]
    requires forall i :: 0 <= i < |ss| && keep[i] && ss[i].content != "" ==> Fits(ss[i], r, w)
    ensures TotalWeight(ss, n) >= OpenWeight(ss, keep, n)
    ensures KeptLength(ss, keep, n) * w <= r * (TotalWeight(ss, n) - OpenWeight(ss, keep, n))
  {
    if n > 0 {
      WeightSplits(ss, keep, r, w, n - 1);
      if keep[n - 1] && ss[n - 1].content != "" {
        assert Fits(ss[n - 1], r, w);
        AddProducts(KeptLength(ss, keep, n - 1), |ss[n - 1].content|, w);
        AddProducts(TotalWeight(ss, n - 1) - OpenWeight(ss, keep, n - 1), WeightOf(ss[n - 1]), r);
      }
    }
  }

  /** The level only rises: what is left per unit of open weight is at least budget per unit of all weight. */
  lemma LevelAtLeastEven(ss: seq<Source>, budget: int, keep: seq<bool>)
    requires IsLevel(ss, budget, keep)
    ensures TotalWeight(ss, |ss|) >= Open(ss, keep)
    ensures budget * Open(ss, keep) <= Remaining(ss, budget, keep) * TotalWeight(ss, |ss|)
  {
    var r, w, t := Remaining(ss, budget, keep), Open(ss, keep), TotalWeight(ss, |ss|);
    WeightSplits(ss, keep, r, w, |ss|);
    AddProducts(r, KeptLength(ss, keep, |ss|), w);
    AddProducts(t - w, w, r);
  }

  lemma FloorMonotone(a: int, b: int, c: int, d: int)
    requires b > 0 && d > 0 && a * d <= c * b
    ensures a / b <= c / d
  {
    var n := a / b;
    FloorAtLeast(n, a, b);
    MulMono(n * b, a, d);
    Regroup(n, b, d);
    if n * d > c { MulStrict(c, n * d, b); }
    FloorAtLeast(n, c, d);
  }

  lemma Regroup(n: int, b: int, d: int)
    ensures (n * b) * d == (n * d) * b
  {
    assert (n * b) * d == n * (b * d);
    assert (n * d) * b == n * (d * b);
  }

  lemma EvenShareBelow(budget: int, r: int, w: int, t: int, wi: int)
    requires budget >= 0 && w > 0 && t > 0 && wi >= 1 && budget * w <= r * t
    ensures r >= 0 && budget * wi / t <= TruncDiv(r * wi, w)
  {
    MulMono(0, budget, w);
    if r < 0 { MulStrict(r, 0, t); }
    MulMono(budget * w, r * t, wi);
    assert (budget * wi) * w == (budget * w) * wi && (r * wi) * t == (r * t) * wi;
    FloorMonotone(budget * wi, t, r * wi, w);
    MulMono(0, r, wi);
  }

  /** Every source gets at least its even share of the whole budget or all of itself, unless it was dropped;
      and one whose even share reaches the minimum chunk is never dropped. */
  lemma EvenShareGuaranteed(ss: seq<Source>, budget: int, keep: seq<bool>, out: seq<string>, i: nat)
    requires IsLevel(ss, budget, keep) && IsOutcome(ss, budget, keep, out)
    requires budget >= 0 && i < |ss| && ss[i].content != ""
    ensures TotalWeight(ss, |ss|) > 0
    ensures var even := budget * WeightOf(ss[i]) / TotalWeight(ss, |ss|);
            (out[i] != "" || even >= MIN_CHUNK) ==> |out[i]| >= if |ss[i].content| <= even then |ss[i].content| else even
  {
    SomeWeight(ss, |ss|, i);
    assert OutcomeAt(ss, budget, keep, i, out[i]);
    if !keep[i] {
      LevelAtLeastEven(ss, budget, keep);
      EvenShareBelow(budget, Remaining(ss, budget, keep), Open(ss, keep), TotalWeight(ss, |ss|), WeightOf(ss[i]));
      CutLength(ss[i], LevelShare(ss, budget, keep, i));
    }
  }

  lemma {:induction false} SomeWeight(ss: seq<Source>, n: nat, i: nat)
    requires i < n <= |ss| && ss[i].content != ""
    ensures TotalWeight(ss, n) > 0
  {
    if i < n - 1 { SomeWeight(ss, n - 1, i); } else { WeightNonnegative(ss, n - 1); }
  }

  lemma {:induction false} WeightNonnegative(ss: seq<Source>, n: nat)
    requires n <= |ss|
    ensures TotalWeight(ss, n) >= 0
  {
    if n > 0 { WeightNonnegative(ss, n - 1); }
  }

  lemma ShareBounds(r: int, w: int, wn: int)
    requires r >= 0 && w > 0 && wn >= 1
    ensures 0 <= TruncDiv(r * wn, w)
    ensures TruncDiv(r * wn, w) * w <= r * wn <= TruncDiv(r * wn, w) * w + (w - 1)
  {
    MulMono(0, r, wn);
    var x := r * wn;
    assert x == w * (x / w) + x % w;
  }

  ghost predicate GivesShares(ss: seq<Source>, keep: seq<bool>, out: seq<string>, r: int, w: int) {
    && |keep| == |ss| == |out| && r >= 0
    && (forall i :: 0 <= i < |ss| && keep[i] ==> out[i] == ss[i].content)
    && forall i :: 0 <= i < |ss| && !keep[i] ==>
      var share := ShareOf(r, w, WeightOf(ss[i]));
      w > 0 && |out[i]| == if share < MIN_CHUNK then 0 else share
  }

  lemma OutcomeGivesShares(ss: seq<Source>, budget: int, keep: seq<bool>, out: seq<string>)
    requires IsOutcome(ss, budget, keep, out) && Remaining(ss, budget, keep) >= 0
    ensures GivesShares(ss, keep, out, Remaining(ss, budget, keep), Open(ss, keep))
  {
    forall i | 0 <= i < |ss|
      ensures keep[i] ==> out[i] == ss[i].content
      ensures !keep[i] ==> Open(ss, keep) > 0 && |out[i]| == var s := LevelShare(ss, budget, keep, i); if s < MIN_CHUNK then 0 else s
    {
      assert OutcomeAt(ss, budget, keep, i, out[i]);
      if !keep[i] {
        OpenCovers(ss, keep, |ss|, i);
        CutLength(ss[i], LevelShare(ss, budget, keep, i));
      }
    }
  }

  lemma {:induction false} SpentAtMost(ss: seq<Source>, keep: seq<bool>, out: seq<string>, r: int, w: int, n: nat)
    requires GivesShares(ss, keep, out, r, w) && n <= |ss|
    ensures (TotalLength(out, n) - KeptLength(ss, keep, n)) * w <= r * OpenWeight(ss, keep, n)
  {
    if n > 0 {
      SpentAtMost(ss, keep, out, r, w, n - 1);
      if !keep[n - 1] {
        var wn, l := WeightOf(ss[n - 1]), |out[n - 1]|;
        ShareBounds(r, w, wn);
        MulMono(l, TruncDiv(r * wn, w), w);
        AddProducts(TotalLength(out, n - 1) - KeptLength(ss, keep, n - 1), l, w);
        AddProducts(OpenWeight(ss, keep, n - 1), wn, r);
      }
    }
  }

  /** What is handed out never exceeds the budget. */
  lemma WithinBudget(ss: seq<Source>, budget: int, keep: seq<bool>, out: seq<string>)
    requires IsLevel(ss, budget, keep) && IsOutcome(ss, budget, keep, out) && budget >= 0
    ensures TotalLength(out, |ss|) <= budget
  {
    var r, w := Remaining(ss, budget, keep), Open(ss, keep);
    LevelAtLeastEven(ss, budget, keep);
    if w == 0 {
      AllKept(ss, keep, |ss|);
      EverythingKept(ss, keep, |ss|);
      OutcomeIsContent(ss, budget, keep, out);
      SameLength(ss, out, |ss|);
      UncutIff(ss, budget, keep, out);
      if ContentLength(ss, |ss|) > budget { EmptyLength(ss, |ss|); }
    } else {
      MulMono(0, budget, w);
      if r < 0 { MulStrict(r, 0, TotalWeight(ss, |ss|)); }
      OutcomeGivesShares(ss, budget, keep, out);
      SpentAtMost(ss, keep, out, r, w, |ss|);
      var extra := TotalLength(out, |ss|) - KeptLength(ss, keep, |ss|);
      if extra > r { MulStrict(r, extra, w); }
    }
  }

  lemma {:induction false} SameLength(ss: seq<Source>, out: seq<string>, n: nat)
    requires n <= |ss| == |out| && forall i :: 0 <= i < |ss| ==> out[i] == ss[i].content
    ensures TotalLength(out, n) == ContentLength(ss, n)
  {
    if n > 0 { SameLength(ss, out, n - 1); }
  }

  function OpenCount(keep: seq<bool>, n: nat): int
    requires n <= |keep|
  {
    if n == 0 then 0 else OpenCount(keep, n - 1) + (if keep[n - 1] then 0 else 1)
  }

  /** The shares of the sources that are dropped for having too small a one. */
  function DroppedShares(ss: seq<Source>, keep: seq<bool>, r: int, w: int, n: nat): int
    requires n <= |ss| == |keep|
  {
    if n == 0 then 0
    else
      var share := ShareOf(r, w, WeightOf(ss[n - 1]));
      DroppedShares(ss, keep, r, w, n - 1) + if !keep[n - 1] && share < MIN_CHUNK then share else 0
  }

  /** What the first n sources that are not kept whole are handed out or lose by being dropped. */
  function Given(ss: seq<Source>, keep: seq<bool>, out: seq<string>, r: int, w: int, n: nat): int
    requires n <= |ss| == |keep| == |out|
  {
    TotalLength(out, n) - KeptLength(ss, keep, n) + DroppedShares(ss, keep, r, w, n)
  }

  lemma GivenNext(ss: seq<Source>, keep: seq<bool>, out: seq<string>, r: int, w: int, n: nat)
    requires GivesShares(ss, keep, out, r, w) && n < |ss|
    ensures Given(ss, keep, out, r, w, n + 1) == Given(ss, keep, out, r, w, n) + if keep[n] then 0 else ShareOf(r, w, WeightOf(ss[n]))
    ensures OpenCount(keep, n + 1) == OpenCount(keep, n) + if keep[n] then 0 else 1
    ensures OpenWeight(ss, keep, n + 1) == OpenWeight(ss, keep, n) + if keep[n] then 0 else WeightOf(ss[n])
  {
    hide ShareOf, WeightOf;
  }

  /** All shares together, between two multiples. */
  lemma {:induction false} SharesSum(ss: seq<Source>, keep: seq<bool>, out: seq<string>, r: int, w: int, n: nat)
    requires GivesShares(ss, keep, out, r, w) && n <= |ss|
    ensures Given(ss, keep, out, r, w, n) * w <= r * OpenWeight(ss, keep, n)
    ensures Given(ss, keep, out, r, w, n) * w + OpenCount(keep, n) * (w - 1) >= r * OpenWeight(ss, keep, n)
  {
    if n > 0 {
      SharesSum(ss, keep, out, r, w, n - 1);
      GivenNext(ss, keep, out, r, w, n - 1);
      if !keep[n - 1] { OneShare(Given(ss, keep, out, r, w, n - 1), OpenCount(keep, n - 1), OpenWeight(ss, keep, n - 1), r, w, WeightOf(ss[n - 1])); }
    }
  }

  lemma OneShare(given: int, count: int, open: int, r: int, w: int, wn: int)
    requires r >= 0 && w > 0 && wn >= 1
    requires given * w <= r * open && given * w + count * (w - 1) >= r * open
    ensures (given + ShareOf(r, w, wn)) * w <= r * (open + wn)
    ensures (given + ShareOf(r, w, wn)) * w + (count + 1) * (w - 1) >= r * (open + wn)
  {
    ShareBounds(r, w, wn);
    AddProducts(given, ShareOf(r, w, wn), w);
    AddProducts(count, 1, w - 1);
    AddProducts(open, wn, r);
  }

  lemma UnusedBelowCount(extra: int, c: int, r: int, w: int)
    requires w > 0 && c > 0 && extra * w + c * (w - 1) >= r * w
    ensures r - extra < c
  {
    if r - extra >= c {
      MulMono(extra + c, r, w);
      AddProducts(extra, c, w);
      AddProducts(w - 1, 1, c);
    }
  }

  /** Rounding and the dropped sources are the only waste: once something is cut, what stays unused is the shares of
      the dropped sources and fewer characters more than sources were cut. */
  lemma NothingWasted(ss: seq<Source>, budget: int, keep: seq<bool>, out: seq<string>)
    requires IsLevel(ss, budget, keep) && IsOutcome(ss, budget, keep, out) && budget >= 0
    requires exists i :: 0 <= i < |ss| && out[i] != ss[i].content
    ensures var dropped := DroppedShares(ss, keep, Remaining(ss, budget, keep), Open(ss, keep), |ss|);
      dropped <= budget - TotalLength(out, |ss|) < dropped + OpenCount(keep, |ss|)
  {
    var r, w := Remaining(ss, budget, keep), Open(ss, keep);
    KeptIffUnchanged(ss, budget, keep, out);
    var i :| 0 <= i < |ss| && !keep[i];
    LevelNonnegative(ss, budget, keep, i);
    hide *;
    OutcomeGivesShares(ss, budget, keep, out);
    SharesSum(ss, keep, out, r, w, |ss|);
    SomeOpen(keep, |ss|);
    SumsAre(ss, budget, keep, out, r, w);
    var given := Given(ss, keep, out, r, w, |ss|);
    AtMost(given, r, w);
    UnusedBelowCount(given, OpenCount(keep, |ss|), r, w);
  }

  lemma SumsAre(ss: seq<Source>, budget: int, keep: seq<bool>, out: seq<string>, r: int, w: int)
    requires |ss| == |keep| == |out|
    ensures Remaining(ss, budget, keep) == budget - KeptLength(ss, keep, |ss|) && Open(ss, keep) == OpenWeight(ss, keep, |ss|)
    ensures Given(ss, keep, out, r, w, |ss|)
      == TotalLength(out, |ss|) - KeptLength(ss, keep, |ss|) + DroppedShares(ss, keep, r, w, |ss|)
  {}

  lemma AtMost(a: int, b: int, w: int)
    requires w > 0 && a * w <= b * w
    ensures a <= b
  {
    if a > b { MulStrict(b, a, w); }
  }

  /** Within a nonnegative budget something is left for the sources that are cut. */
  lemma LevelNonnegative(ss: seq<Source>, budget: int, keep: seq<bool>, i: nat)
    requires IsLevel(ss, budget, keep) && budget >= 0 && i < |ss| && !keep[i]
    ensures Remaining(ss, budget, keep) >= 0 && Open(ss, keep) > 0
  {
    OpenCovers(ss, keep, |ss|, i);
    LevelAtLeastEven(ss, budget, keep);
    MulMono(0, budget, Open(ss, keep));
    if Remaining(ss, budget, keep) < 0 { MulStrict(Remaining(ss, budget, keep), 0, TotalWeight(ss, |ss|)); }
  }

  lemma {:induction false} SomeOpen(keep: seq<bool>, n: nat)
    requires n <= |keep|
    ensures OpenCount(keep, n) >= 0
    ensures (exists i :: 0 <= i < n && !keep[i]) ==> OpenCount(keep, n) > 0
  {
    if n > 0 { SomeOpen(keep, n - 1); }
  }
}
