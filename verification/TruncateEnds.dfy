/** Whether the shrink loop of agent/dispatcher_validation.go, truncateToolResult, ends: what lowers the sum of string
    lengths, where it stalls, and which objects it never leaves. */
module TruncateEnds {
  import opened Truncate
  import opened Digraph

  // ---- What a turn does to the total ----

  /** The string bytes of the fields of a set. */
  ghost function Total(obj: Obj, keys: set<string>): nat {
    if keys == {} then 0 else var k :| k in keys; LenAt(obj, k) + Total(obj, keys - {k})
  }

  lemma {:induction false} TotalSplit(obj: Obj, keys: set<string>, k: string)
    requires k in keys
    ensures Total(obj, keys) == LenAt(obj, k) + Total(obj, keys - {k})
    decreases keys
  {
    var x :| x in keys && Total(obj, keys) == LenAt(obj, x) + Total(obj, keys - {x});
    if x != k {
      TotalSplit(obj, keys - {x}, k);
      TotalSplit(obj, keys - {k}, x);
      assert keys - {x} - {k} == keys - {k} - {x};
    }
  }

  lemma {:induction false} TotalSame(obj: Obj, obj': Obj, keys: set<string>)
    requires forall k :: k in keys ==> LenAt(obj, k) == LenAt(obj', k)
    ensures Total(obj, keys) == Total(obj', keys)
    decreases keys
  {
    if keys != {} {
      var k :| k in keys;
      TotalSplit(obj, keys, k);
      TotalSplit(obj', keys, k);
      TotalSame(obj, obj', keys - {k});
    }
  }

  /** The total falls in a turn exactly when the field that was cut gets shorter. */
  lemma TurnLowersIff(json: Json, marker: Bytes, obj: Obj, k: string)
    requires Decoded(obj) && MarkerOk(marker) && TurnOn(json, marker, obj, k).Go?
    ensures Total(TurnOn(json, marker, obj, k).obj, obj.Keys) < Total(obj, obj.Keys)
      <==> Gap(|obj[k].decoded|) > |marker| + 2 * Orphans(obj[k].decoded)
  {
    var obj' := TurnOn(json, marker, obj, k).obj;
    TotalSplit(obj, obj.Keys, k);
    TotalSplit(obj', obj.Keys, k);
    TotalSame(obj, obj', obj.Keys - {k});
    ShrinksIff(obj[k].decoded, marker);
  }

  // ---- Where it ends ----

  ghost predicate Lowers(obj: Obj, obj': Obj) {
    obj'.Keys == obj.Keys && Total(obj', obj.Keys) < Total(obj, obj.Keys)
  }

  lemma {:induction false} LoweringRunEnds(json: Json, marker: Bytes, cap: nat, objs: seq<Obj>)
    requires Runs(json, marker, cap, objs) && forall i :: 0 <= i < |objs| - 1 ==> Lowers(objs[i], objs[i + 1])
    ensures |objs| - 1 <= Total(objs[0], objs[0].Keys)
    decreases |objs|
  {
    hide Steps, Total;
    if |objs| > 1 {
      forall i | 0 <= i < |objs[1..]| - 1 ensures Lowers(objs[1..][i], objs[1..][i + 1]) {
        assert Lowers(objs[i + 1], objs[i + 2]);
      }
      LoweringRunEnds(json, marker, cap, objs[1..]);
    }
  }

  ghost predicate NearTheMarker(marker: Bytes, obj: Obj) {
    forall k :: k in obj && obj[k].Text? ==> Gap(|obj[k].decoded|) <= |marker| + 13
  }

  /** The cap leaves room for an object of this shape once all its strings have come down to where the cut hardly
      outweighs the marker. */
  ghost predicate Roomy(json: Json, marker: Bytes, cap: nat, obj: Obj) {
    forall obj' :: Decoded(obj') && SameShape(obj, obj') && NearTheMarker(marker, obj') ==> Size(json, obj') <= cap
  }

  lemma RoomyStep(json: Json, marker: Bytes, cap: nat, first: Obj, obj: Obj, obj': Obj)
    requires Roomy(json, marker, cap, first) && MarkerOk(marker)
    requires Decoded(obj) && SameShape(first, obj) && Steps(json, marker, cap, obj, obj')
    ensures Lowers(obj, obj')
  {
    var k :| Biggest(obj, k) && TurnOn(json, marker, obj, k) == Go(obj');
    var x :| x in obj && obj[x].Text? && Gap(|obj[x].decoded|) > |marker| + 13;
    assert LenAt(obj, x) <= LenAt(obj, k);
    LongFieldsShrink(obj[k].decoded, marker);
    ShrinksIff(obj[k].decoded, marker);
    TurnLowersIff(json, marker, obj, k);
  }

  /** Whatever the characters, the loop ends when the cap leaves that room: no run has more turns than there are string
      bytes. */
  lemma RoomEnds(json: Json, marker: Bytes, cap: nat, objs: seq<Obj>)
    requires Runs(json, marker, cap, objs) && Decoded(objs[0]) && MarkerOk(marker) && Roomy(json, marker, cap, objs[0])
    ensures |objs| - 1 <= Total(objs[0], objs[0].Keys)
  {
    hide Steps, Total, Roomy;
    forall i | 0 <= i < |objs| - 1 ensures Lowers(objs[i], objs[i + 1]) {
      RunKeeps(json, marker, cap, objs, i);
      RoomyStep(json, marker, cap, objs[0], objs[i], objs[i + 1]);
    }
    LoweringRunEnds(json, marker, cap, objs);
  }

  ghost predicate AllAscii(obj: Obj) {
    forall k :: k in obj && obj[k].Text? ==> Ascii(obj[k].decoded)
  }

  lemma AsciiCut(s: Bytes, marker: Bytes)
    requires Ascii(s) && s != [] && MarkerOk(marker)
    ensures WellFormed(s) && Orphans(s) == 0 && Ascii(Reencoded(CutOf(s, marker)))
  {
    AsciiWellFormed(s);
    AsciiHead(s, |s| / 2);
    AsciiTail(s, |s| - |s| / 4);
    var cut := CutOf(s, marker);
    assert Ascii(cut);
    AsciiWellFormed(cut);
    WellFormedSame(cut);
  }

  lemma AsciiStep(json: Json, marker: Bytes, cap: nat, obj: Obj, obj': Obj)
    requires AllAscii(obj) && MarkerOk(marker) && Steps(json, marker, cap, obj, obj')
    ensures AllAscii(obj') && Lowers(obj, obj')
  {
    var k :| Biggest(obj, k) && TurnOn(json, marker, obj, k) == Go(obj');
    forall x | x in obj && obj[x].Text? ensures WellFormed(obj[x].decoded) { AsciiWellFormed(obj[x].decoded); }
    hide WellFormed, Reencoded, Ascii, Total, Biggest;
    AsciiCut(obj[k].decoded, marker);
    ShrinksIff(obj[k].decoded, marker);
    TurnLowersIff(json, marker, obj, k);
  }

  lemma {:induction false} AsciiStays(json: Json, marker: Bytes, cap: nat, objs: seq<Obj>, i: nat)
    requires Runs(json, marker, cap, objs) && AllAscii(objs[0]) && MarkerOk(marker) && i < |objs|
    ensures AllAscii(objs[i])
  {
    hide Steps, AllAscii;
    if i > 0 {
      AsciiStays(json, marker, cap, objs, i - 1);
      AsciiStep(json, marker, cap, objs[i - 1], objs[i]);
    }
  }

  /** And whatever the cap, it ends while every string is ASCII. */
  lemma AsciiEnds(json: Json, marker: Bytes, cap: nat, objs: seq<Obj>)
    requires Runs(json, marker, cap, objs) && AllAscii(objs[0]) && MarkerOk(marker)
    ensures |objs| - 1 <= Total(objs[0], objs[0].Keys)
  {
    hide Steps, Total, AllAscii;
    forall i | 0 <= i < |objs| - 1 ensures Lowers(objs[i], objs[i + 1]) {
      AsciiStays(json, marker, cap, objs, i);
      AsciiStep(json, marker, cap, objs[i], objs[i + 1]);
    }
    LoweringRunEnds(json, marker, cap, objs);
  }

  // ---- Where it stalls ----

  lemma WellFormedIs(s: Bytes)
    requires WellFormed(s) && s != []
    ensures RuneLen(s) > 0 && WellFormed(s[RuneLen(s)..])
  {}

  lemma Longer(p: Bytes, x: Bytes, n: nat)
    requires n <= |p|
    ensures (p + x)[..n] == p[..n] && (p + x)[n..] == p[n..] + x
  {}

  lemma RuneInFront(p: Bytes, x: Bytes)
    requires WellFormed(p) && p != []
    ensures RuneLen(p + x) == RuneLen(p) > 0 && (p + x)[RuneLen(p)..] == p[RuneLen(p)..] + x && WellFormed(p[RuneLen(p)..])
  {
    hide *;
    WellFormedIs(p);
    Longer(p, x, RuneLen(p));
    FrontLen(p, p + x, RuneLen(p));
  }

  lemma WellFormedStep(s: Bytes)
    requires RuneLen(s) > 0 && WellFormed(s[RuneLen(s)..])
    ensures WellFormed(s)
  {}

  lemma {:induction false} Join(p: Bytes, x: Bytes)
    requires WellFormed(p) && WellFormed(x)
    ensures WellFormed(p + x)
    decreases |p|
  {
    hide *;
    if p == [] {
      assert p + x == x;
    } else {
      RuneInFront(p, x);
      Join(p[RuneLen(p)..], x);
      WellFormedStep(p + x);
    }
  }

  /** Whole characters in front change nothing about a cut further on. */
  lemma {:induction false} PastWhole(p: Bytes, x: Bytes, u: nat)
    requires WellFormed(p) && WellFormed(x) && WellFormed(p + x) && u <= |x|
    ensures HeadOrphans(p + x, |p| + u) == HeadOrphans(x, u) && TailOrphans(p + x, |p| + u) == TailOrphans(x, u)
    decreases |p|
  {
    hide *;
    if p == [] {
      assert p + x == x;
    } else {
      var n := RuneLen(p);
      RuneInFront(p, x);
      Join(p[n..], x);
      PastWhole(p[n..], x, u);
      FrontNext(p + x, |p| + u);
      BackNext(p + x, |p| + u);
    }
  }

  lemma OneRep(rest: Bytes)
    requires WellFormed(rest)
    ensures RuneLen(REPLACEMENT + rest) == 3 && (REPLACEMENT + rest)[3..] == rest && WellFormed(REPLACEMENT + rest)
  {}

  lemma {:induction false} RepsWellFormed(i: nat, rest: Bytes)
    requires WellFormed(rest)
    ensures WellFormed(Reps(i) + rest)
  {
    hide *;
    if i == 0 {
      MoreReps(0, rest);
    } else {
      RepsWellFormed(i - 1, rest);
      MoreReps(i - 1, rest);
      OneRep(Reps(i - 1) + rest);
    }
  }

  lemma CutInRep(y: Bytes, u: nat)
    requires 0 < u < 3 && RuneLen(REPLACEMENT + y) == 3 && WellFormed(REPLACEMENT + y)
    ensures HeadOrphans(REPLACEMENT + y, u) == u && TailOrphans(REPLACEMENT + y, u) == 3 - u
  {}

  lemma CutAtEnds(y: Bytes)
    requires WellFormed(y)
    ensures HeadOrphans(y, 0) == TailOrphans(y, 0) == 0
  {}

  /** Cut after i bytes of a row of replacements: one or two are orphaned there again, three make up a whole one. */
  lemma CutInReps(i: nat, rest: Bytes)
    requires i <= 3 && WellFormed(rest) && WellFormed(Reps(i) + rest)
    ensures HeadOrphans(Reps(i) + rest, i) == i % 3 && TailOrphans(Reps(i) + rest, 2 * i) == i % 3
  {
    hide *;
    if i == 0 {
      CutAtEnds(Reps(i) + rest);
    } else {
      var y := Reps(i - 1) + rest;
      MoreReps(i - 1, rest);
      RepsWellFormed(i - 1, rest);
      OneRep(y);
      if i < 3 { CutInRep(y, i); }
      if i == 1 { CutInRep(y, 2); } else { PastReps(i, y, rest); }
    }
  }

  lemma PastReps(i: nat, y: Bytes, rest: Bytes)
    requires 2 <= i <= 3 && WellFormed(rest) && y == Reps(i - 1) + rest && WellFormed(y) && WellFormed(REPLACEMENT + y)
    ensures TailOrphans(REPLACEMENT + y, 2 * i) == i % 3 && (i == 3 ==> HeadOrphans(REPLACEMENT + y, i) == 0)
  {
    assert |REPLACEMENT| == 3 && RuneLen(REPLACEMENT) == 3 && WellFormed(REPLACEMENT[3..]) && |y| >= 2 * i - 3;
    WellFormedStep(REPLACEMENT);
    hide *;
    PastWhole(REPLACEMENT, y, 2 * i - 3);
    var z := Reps(i - 2) + rest;
    MoreReps(i - 2, rest);
    RepsWellFormed(i - 2, rest);
    OneRep(z);
    if i == 2 {
      CutInRep(z, 1);
    } else {
      PastWhole(REPLACEMENT, y, 0);
      CutAtEnds(y);
      PastWhole(REPLACEMENT, z, 0);
      CutAtEnds(z);
    }
  }

  /** The cut makes exactly as many bytes as it takes out, and goes ahead. */
  ghost predicate Stalls(s: Bytes, marker: Bytes) {
    WellFormed(s) && s != [] && Orphans(s) > 0 && Gap(|s|) == |marker| + 2 * Orphans(s)
  }

  ghost predicate Settled(s: Bytes, marker: Bytes) {
    |CutOf(s, marker)| < |s| && Reencoded(CutOf(s, marker)) == s
  }

  /** A turned field, and how the next cuts fall on it: on the replacements of this one. */
  lemma HeadAgain(a: Bytes, i: nat, end: Bytes)
    requires WellFormed(a) && WellFormed(end) && i <= 3
    ensures WellFormed(a + (Reps(i) + end))
    ensures HeadOrphans(a + (Reps(i) + end), |a| + i) == i % 3
    ensures i < 3 ==> Front(a + (Reps(i) + end), |a| + i) == a
  {
    hide *;
    RepsWellFormed(i, end);
    Join(a, Reps(i) + end);
    CutInReps(i, end);
    PastWhole(a, Reps(i) + end, i);
    if i < 3 { TakeFront(a, Reps(i) + end, i); }
  }

  lemma TakeFront(p: Bytes, x: Bytes, i: nat)
    requires i <= |x| && WellFormed(p + x) && HeadOrphans(p + x, |p| + i) == i
    ensures Front(p + x, |p| + i) == p
  {}

  lemma TailAgain(p: Bytes, j: nat, b: Bytes)
    requires WellFormed(p) && WellFormed(b) && j <= 3
    ensures WellFormed(p + (Reps(j) + b))
    ensures TailOrphans(p + (Reps(j) + b), |p| + 2 * j) == j % 3
    ensures j < 3 ==> Back(p + (Reps(j) + b), |p| + 2 * j) == b
  {
    hide *;
    RepsWellFormed(j, b);
    Join(p, Reps(j) + b);
    CutInReps(j, b);
    PastWhole(p, Reps(j) + b, 2 * j);
    if j < 3 { DropFront(p, Reps(j), b, j); }
  }

  lemma DropFront(p: Bytes, r: Bytes, b: Bytes, j: nat)
    requires |r| == 3 * j && WellFormed(p + (r + b)) && TailOrphans(p + (r + b), |p| + 2 * j) == j
    ensures Back(p + (r + b), |p| + 2 * j) == b
  {}

  lemma Parts(s: Bytes, h: nat, t: nat, marker: Bytes)
    requires WellFormed(s) && h <= t <= |s| && MarkerOk(marker)
    ensures WellFormed(Front(s, h)) && WellFormed(Back(s, t)) && WellFormed(marker)
  {
    hide WellFormed, HeadOrphans, TailOrphans, Front, Back, Reps, Reencoded;
    HeadText(s, h, marker);
    TailText(s, t);
    AsciiWellFormed(marker);
  }

  lemma AssembledCuts(a: Bytes, i: nat, marker: Bytes, j: nat, b: Bytes, h: nat, t: nat)
    requires WellFormed(a) && WellFormed(marker) && WellFormed(b) && i <= 3 && j <= 3
    requires h == |a| + i && t == |a| + 3 * i + |marker| + 2 * j
    ensures var s := Assembled(a, i, marker, j, b);
      && WellFormed(s) && HeadOrphans(s, h) == i % 3 && TailOrphans(s, t) == j % 3
      && (i < 3 ==> Front(s, h) == a) && (j < 3 ==> Back(s, t) == b)
  {
    hide WellFormed, HeadOrphans, TailOrphans, Front, Back, Reps;
    var end := Reps(j) + b;
    RepsWellFormed(j, b);
    Join(marker, end);
    HeadAgain(a, i, marker + end);
    Unjoined(a, Reps(i), marker, end);
    RepsWellFormed(i, marker);
    Join(a, Reps(i) + marker);
    TailAgain(a + (Reps(i) + marker), j, b);
  }

  lemma Unjoined(a: Bytes, b: Bytes, c: Bytes, d: Bytes)
    ensures a + (b + (c + d)) == (a + (b + c)) + d
  {}

  /** The cuts of the next turn fall on the replacements of this one. */
  lemma CutsAgain(s: Bytes, marker: Bytes)
    requires Stalls(s, marker) && MarkerOk(marker)
    ensures |Turned(s, marker)| == |s| && WellFormed(Turned(s, marker))
    ensures HeadOrphans(Turned(s, marker), |s| / 2) == HeadOrphans(s, |s| / 2) % 3
    ensures TailOrphans(Turned(s, marker), |s| - |s| / 4) == TailOrphans(s, |s| - |s| / 4) % 3
    ensures HeadOrphans(s, |s| / 2) < 3 ==> Front(Turned(s, marker), |s| / 2) == Front(s, |s| / 2)
    ensures TailOrphans(s, |s| - |s| / 4) < 3 ==> Back(Turned(s, marker), |s| - |s| / 4) == Back(s, |s| - |s| / 4)
  {
    var h, t := |s| / 2, |s| - |s| / 4;
    hide *;
    StallsIs(s, marker);
    TurnedIs(s, marker);
    Parts(s, h, t, marker);
    var a, i, j, b := Front(s, h), HeadOrphans(s, h), TailOrphans(s, t), Back(s, t);
    CutPlaces(|s|, |a|, i, |marker|, j, |b|);
    AssembledCuts(a, i, marker, j, b, h, t);
  }

  lemma CutPlaces(n: nat, a: nat, i: nat, m: nat, j: nat, b: nat)
    requires a == n / 2 - i && b == n - (n - n / 4) - j && Gap(n) == m + 2 * (i + j)
    ensures n / 2 == a + i && n - n / 4 == a + 3 * i + m + 2 * j
  {}

  lemma TurnedIs(s: Bytes, marker: Bytes)
    requires WellFormed(s)
    ensures var h, t := |s| / 2, |s| - |s| / 4;
      && Turned(s, marker) == Assembled(Front(s, h), HeadOrphans(s, h), marker, TailOrphans(s, t), Back(s, t))
      && |Turned(s, marker)| == |s| - Gap(|s|) + |marker| + 2 * (HeadOrphans(s, h) + TailOrphans(s, t))
  {
    hide WellFormed, HeadOrphans, TailOrphans, Front, Back, Assembled;
  }

  lemma StallsIs(s: Bytes, marker: Bytes)
    requires Stalls(s, marker)
    ensures WellFormed(s) && s != [] && Gap(|s|) > |marker|
    ensures Gap(|s|) == |marker| + 2 * (HeadOrphans(s, |s| / 2) + TailOrphans(s, |s| - |s| / 4))
  {
    hide WellFormed, HeadOrphans, TailOrphans, Gap;
  }

  lemma OrphansIs(s: Bytes)
    requires WellFormed(s)
    ensures Orphans(s) == HeadOrphans(s, |s| / 2) + TailOrphans(s, |s| - |s| / 4)
  {
    hide WellFormed, HeadOrphans, TailOrphans;
  }

  lemma TurnedSame(s: Bytes, s1: Bytes, marker: Bytes)
    requires WellFormed(s) && WellFormed(s1) && |s1| == |s|
    requires var h, t := |s| / 2, |s| - |s| / 4;
      && HeadOrphans(s1, h) == HeadOrphans(s, h) && TailOrphans(s1, t) == TailOrphans(s, t)
      && Front(s1, h) == Front(s, h) && Back(s1, t) == Back(s, t)
    ensures Turned(s1, marker) == Turned(s, marker)
  {
    hide Assembled, Front, Back, HeadOrphans, TailOrphans, WellFormed;
  }

  /** A field that stalls is settled from the next turn on exactly when neither cut orphans three bytes. */
  lemma StallSettlesIff(s: Bytes, marker: Bytes)
    requires Stalls(s, marker) && MarkerOk(marker)
    ensures |Turned(s, marker)| == |s| && WellFormed(Turned(s, marker))
    ensures Settled(Turned(s, marker), marker) <==> HeadOrphans(s, |s| / 2) < 3 && TailOrphans(s, |s| - |s| / 4) < 3
  {
    hide *;
    StallsIs(s, marker);
    CutsAgain(s, marker);
    if HeadOrphans(s, |s| / 2) < 3 && TailOrphans(s, |s| - |s| / 4) < 3 {
      StallSettles(s, Turned(s, marker), marker);
    } else {
      StallMoves(s, Turned(s, marker), marker);
    }
  }

  lemma StallSettles(s: Bytes, s1: Bytes, marker: Bytes)
    requires Stalls(s, marker) && MarkerOk(marker) && s1 == Turned(s, marker) && WellFormed(s1) && |s1| == |s|
    requires HeadOrphans(s1, |s| / 2) == HeadOrphans(s, |s| / 2)
    requires TailOrphans(s1, |s| - |s| / 4) == TailOrphans(s, |s| - |s| / 4)
    requires Front(s1, |s| / 2) == Front(s, |s| / 2) && Back(s1, |s| - |s| / 4) == Back(s, |s| - |s| / 4)
    ensures Settled(s1, marker)
  {
    hide *;
    StallsIs(s, marker);
    CutText(s1, marker);
    TurnedSame(s, s1, marker);
    ShrinksIff(s1, marker);
    SettledIs(s1, marker);
  }

  lemma SettledIs(s: Bytes, marker: Bytes)
    ensures Settled(s, marker) <==> |CutOf(s, marker)| < |s| && Reencoded(CutOf(s, marker)) == s
  {}

  lemma StallMoves(s: Bytes, s1: Bytes, marker: Bytes)
    requires Stalls(s, marker) && MarkerOk(marker) && s1 == Turned(s, marker) && WellFormed(s1) && |s1| == |s|
    requires HeadOrphans(s, |s| / 2) == 3 || TailOrphans(s, |s| - |s| / 4) == 3
    requires HeadOrphans(s1, |s| / 2) == HeadOrphans(s, |s| / 2) % 3
    requires TailOrphans(s1, |s| - |s| / 4) == TailOrphans(s, |s| - |s| / 4) % 3
    ensures !Settled(s1, marker)
  {
    hide *;
    StallsIs(s, marker);
    OrphansIs(s1);
    ShrinksIff(s1, marker);
    SettledIs(s1, marker);
  }

  // ---- Objects it never leaves ----

  lemma {:induction false} LongestOf(obj: Obj, keys: set<string>) returns (k: string)
    requires keys != {}
    ensures k in keys && forall x :: x in keys ==> LenAt(obj, x) <= LenAt(obj, k)
    decreases keys
  {
    k :| k in keys;
    if keys - {k} != {} {
      var other := LongestOf(obj, keys - {k});
      if LenAt(obj, other) > LenAt(obj, k) { k := other; }
    } else {
      assert keys == {k};
    }
  }

  lemma BiggestExists(obj: Obj) returns (k: string)
    ensures Biggest(obj, k)
  {
    k := "";
    if obj.Keys != {} {
      var longest := LongestOf(obj, obj.Keys);
      if LenAt(obj, longest) > 0 { k := longest; }
    }
  }

  /** Whichever largest field the scan meets, it is one that a turn rewrites as it is. */
  ghost predicate Stuck(json: Json, marker: Bytes, obj: Obj) {
    forall k :: Biggest(obj, k) ==> StuckAt(json, marker, obj, k)
  }

  ghost predicate StuckAt(json: Json, marker: Bytes, obj: Obj, k: string) {
    && k != "" && k in obj && obj[k].Text? && |obj[k].decoded| >= 256
    && Settled(obj[k].decoded, marker) && obj[k].encoded == json.lengthOf(CutOf(obj[k].decoded, marker))
  }

  ghost predicate OnlyNext(json: Json, marker: Bytes, cap: nat, obj: Obj, obj': Obj) {
    !GivesUp(json, marker, obj) && forall x :: Steps(json, marker, cap, obj, x) <==> x == obj'
  }

  lemma StuckAtIff(json: Json, marker: Bytes, obj: Obj, k: string)
    requires Biggest(obj, k)
    ensures StuckAt(json, marker, obj, k) <==> TurnOn(json, marker, obj, k) == Go(obj)
  {
    hide Reencoded, CutOf;
    if TurnOn(json, marker, obj, k) == Go(obj) {
      assert obj == Shrunk(json, marker, obj, k);
      assert obj[k] == Shrunk(json, marker, obj, k)[k];
    } else if k in obj {
      assert obj[k := obj[k]] == obj;
    }
  }

  /** An object over the cap is its own only successor exactly when it is stuck. */
  lemma StuckIff(json: Json, marker: Bytes, cap: nat, obj: Obj)
    requires Size(json, obj) > cap
    ensures Stuck(json, marker, obj) <==> OnlyNext(json, marker, cap, obj, obj)
  {
    forall k | Biggest(obj, k) ensures StuckAt(json, marker, obj, k) <==> TurnOn(json, marker, obj, k) == Go(obj) {
      StuckAtIff(json, marker, obj, k);
    }
    var b := BiggestExists(obj);
    hide Biggest, StuckAt, TurnOn, Size;
    if OnlyNext(json, marker, cap, obj, obj) {
      forall k | Biggest(obj, k) ensures StuckAt(json, marker, obj, k) {
        assert TurnOn(json, marker, obj, k) != GiveUp;
        assert Steps(json, marker, cap, obj, TurnOn(json, marker, obj, k).obj);
      }
    }
  }

  ghost predicate Widest(obj: Obj, k: string) {
    k != "" && k in obj && obj[k].Text? && forall x :: x in obj && x != k ==> LenAt(obj, x) < LenAt(obj, k)
  }

  lemma WidestNext(json: Json, marker: Bytes, cap: nat, obj: Obj, k: string)
    requires Widest(obj, k) && LenAt(obj, k) >= 256 && Size(json, obj) > cap
    requires |CutOf(obj[k].decoded, marker)| < |obj[k].decoded|
    ensures OnlyNext(json, marker, cap, obj, Shrunk(json, marker, obj, k))
  {
    hide CutOf, Size, Shrunk;
    assert TurnOn(json, marker, obj, k) == Go(Shrunk(json, marker, obj, k));
    assert Biggest(obj, k);
    forall x | Biggest(obj, x) ensures x == k {
      assert LenAt(obj, k) <= LenAt(obj, x);
    }
  }

  /** The object after n turns on one field. */
  function After(json: Json, marker: Bytes, obj: Obj, k: string, n: nat): (r: Obj)
    requires k in obj && obj[k].Text?
    ensures k in r && r[k].Text?
  {
    if n == 0 then obj else Shrunk(json, marker, After(json, marker, obj, k, n - 1), k)
  }

  /** A stalled field that is the longest by itself: every turn is taken on it, it keeps its length, and unless a cut
      orphans three bytes the second turn leaves an object that no further turn changes. So while those objects are
      over the cap the loop has no end, and no choice. */
  lemma StallNeverEnds(json: Json, marker: Bytes, cap: nat, obj: Obj, k: string)
    requires MarkerOk(marker) && Widest(obj, k) && LenAt(obj, k) >= 256
    requires var s := obj[k].decoded;
      Stalls(s, marker) && HeadOrphans(s, |s| / 2) < 3 && TailOrphans(s, |s| - |s| / 4) < 3
    requires forall n :: 0 <= n <= 2 ==> Size(json, After(json, marker, obj, k, n)) > cap
    ensures forall n :: 0 <= n < 2 ==> OnlyNext(json, marker, cap, After(json, marker, obj, k, n), After(json, marker, obj, k, n + 1))
    ensures OnlyNext(json, marker, cap, After(json, marker, obj, k, 2), After(json, marker, obj, k, 2))
  {
    var s := obj[k].decoded;
    hide *;
    FirstTurn(json, marker, obj, k);
    SecondTurn(json, marker, obj, k);
    AfterIs(json, marker, obj, k);
    WidestNext(json, marker, cap, obj, k);
    WidestNext(json, marker, cap, After(json, marker, obj, k, 1), k);
    WidestNext(json, marker, cap, After(json, marker, obj, k, 2), k);
  }

  lemma AfterIs(json: Json, marker: Bytes, obj: Obj, k: string)
    requires k in obj && obj[k].Text?
    ensures After(json, marker, obj, k, 0) == obj
    ensures forall n: nat :: After(json, marker, obj, k, n + 1) == Shrunk(json, marker, After(json, marker, obj, k, n), k)
  {
    hide Shrunk;
  }

  lemma StaysWidest(json: Json, marker: Bytes, obj: Obj, k: string)
    requires Widest(obj, k) && |Reencoded(CutOf(obj[k].decoded, marker))| == LenAt(obj, k)
    ensures Widest(Shrunk(json, marker, obj, k), k) && LenAt(Shrunk(json, marker, obj, k), k) == LenAt(obj, k)
  {
    hide Reencoded, CutOf;
  }

  /** The first turn leaves a settled field of the same length. */
  lemma FirstTurn(json: Json, marker: Bytes, obj: Obj, k: string)
    requires MarkerOk(marker) && Widest(obj, k) && Stalls(obj[k].decoded, marker)
    requires var s := obj[k].decoded;
      HeadOrphans(s, |s| / 2) < 3 && TailOrphans(s, |s| - |s| / 4) < 3
    ensures |CutOf(obj[k].decoded, marker)| < |obj[k].decoded|
    ensures var one := After(json, marker, obj, k, 1);
      Widest(one, k) && LenAt(one, k) == LenAt(obj, k) && Settled(one[k].decoded, marker)
  {
    var s := obj[k].decoded;
    AfterIs(json, marker, obj, k);
    hide Reencoded, WellFormed, CutOf, Turned, HeadOrphans, TailOrphans, Gap, Settled, Stalls, MarkerOk, After, Widest;
    StallsIs(s, marker);
    CutText(s, marker);
    ShrinksIff(s, marker);
    StallSettlesIff(s, marker);
    StaysWidest(json, marker, obj, k);
  }

  /** And the second the same object as every later one. */
  lemma SecondTurn(json: Json, marker: Bytes, obj: Obj, k: string)
    requires k in obj && obj[k].Text? && Widest(After(json, marker, obj, k, 1), k)
    requires Settled(After(json, marker, obj, k, 1)[k].decoded, marker)
    ensures var one, two := After(json, marker, obj, k, 1), After(json, marker, obj, k, 2);
      && |CutOf(one[k].decoded, marker)| < |one[k].decoded| && two[k].decoded == one[k].decoded
      && Widest(two, k) && LenAt(two, k) == LenAt(one, k) && Shrunk(json, marker, two, k) == two
  {
    AfterIs(json, marker, obj, k);
    var one, two := After(json, marker, obj, k, 1), After(json, marker, obj, k, 2);
    assert two == Shrunk(json, marker, one, k) by { assert two == After(json, marker, obj, k, 1 + 1); }
    hide Reencoded, CutOf, After, Widest;
    SettledIs(one[k].decoded, marker);
    StaysWidest(json, marker, one, k);
    assert two[k := two[k]] == two;
  }

  /** Over the cap, a stuck object has a run of any length, and every run from it stays there. */
  lemma NeverEnds(json: Json, marker: Bytes, cap: nat, obj: Obj, turns: nat)
    requires OnlyNext(json, marker, cap, obj, obj)
    ensures Runs(json, marker, cap, seq(turns + 1, i => obj))
    ensures forall objs :: Runs(json, marker, cap, objs) && objs[0] == obj ==> forall i :: 0 <= i < |objs| ==> objs[i] == obj
  {
    hide Steps;
    assert Steps(json, marker, cap, obj, obj);
    forall objs | Runs(json, marker, cap, objs) && objs[0] == obj ensures forall i :: 0 <= i < |objs| ==> objs[i] == obj {
      StaysThere(json, marker, cap, obj, objs);
    }
  }

  lemma {:induction false} StaysThere(json: Json, marker: Bytes, cap: nat, obj: Obj, objs: seq<Obj>)
    requires OnlyNext(json, marker, cap, obj, obj) && Runs(json, marker, cap, objs) && objs[0] == obj
    ensures forall i :: 0 <= i < |objs| ==> objs[i] == obj
    decreases |objs|
  {
    hide Steps, GivesUp;
    if |objs| > 1 {
      assert Steps(json, marker, cap, objs[0], objs[1]);
      StaysThere(json, marker, cap, obj, objs[1..]);
      assert forall i :: 1 <= i < |objs| ==> objs[i] == objs[1..][i - 1];
    }
  }

  // ---- A stalled field for every marker ----

  function As(n: nat): (r: Bytes)
    ensures |r| == n && Ascii(r)
  {
    seq(n, i => 0x61)
  }

  /** Cut through a replacement character on both sides. */
  function Relapsing(marker: Bytes): (r: Bytes)
    ensures |r| == 4 * (|marker| + 4)
  {
    Assembled(As(2 * |marker| + 7), 1, marker, 1, As(|marker| + 3))
  }

  lemma RelapsingStalls(marker: Bytes)
    requires MarkerOk(marker)
    ensures var s := Relapsing(marker);
      Stalls(s, marker) && HeadOrphans(s, |s| / 2) < 3 && TailOrphans(s, |s| - |s| / 4) < 3
  {
    var n, s := |marker| + 4, Relapsing(marker);
    RelapsingIs(marker);
    hide *;
    AsciiWellFormed(As(2 * n - 1));
    AsciiWellFormed(As(n - 1));
    AsciiWellFormed(marker);
    AssembledCuts(As(2 * n - 1), 1, marker, 1, As(n - 1), 2 * n, 3 * n);
    OrphansIs(s);
    StallsFrom(s, marker);
  }

  lemma RelapsingIs(marker: Bytes)
    requires MarkerOk(marker)
    ensures var n := |marker| + 4;
      Ascii(marker) && Relapsing(marker) == Assembled(As(2 * n - 1), 1, marker, 1, As(n - 1)) && |Relapsing(marker)| == 4 * n
  {}

  lemma StallsFrom(s: Bytes, marker: Bytes)
    requires |s| == 4 * (|marker| + 4) && WellFormed(s) && Orphans(s) == 2
    ensures Stalls(s, marker)
  {
    hide WellFormed, Orphans;
  }

  // ---- Exactly when it need not end ----

  /** A run can last that many turns. */
  ghost predicate Lasts(json: Json, marker: Bytes, cap: nat, obj: Obj, turns: nat) {
    exists objs :: Runs(json, marker, cap, objs) && objs[0] == obj && |objs| == turns + 1
  }

  /** A run that comes to an object it has been at. */
  ghost predicate Returns(json: Json, marker: Bytes, cap: nat, objs: seq<Obj>, i: nat, j: nat) {
    Runs(json, marker, cap, objs) && i < j < |objs| && objs[i] == objs[j]
  }

  ghost predicate CanReturn(json: Json, marker: Bytes, cap: nat, obj: Obj) {
    exists objs, i, j :: Returns(json, marker, cap, objs, i, j) && objs[0] == obj
  }

  ghost predicate Over(s: Bytes, letters: set<nat>) {
    forall i :: 0 <= i < |s| ==> s[i] in letters
  }

  /** The texts of at most n bytes. */
  ghost function Texts(letters: set<nat>, n: nat): set<Bytes> {
    if n == 0 then {[]} else {[]} + set b, s | b in letters && s in Texts(letters, n - 1) :: [b] + s
  }

  lemma {:induction false} InTexts(letters: set<nat>, n: nat, s: Bytes)
    requires Over(s, letters) && |s| <= n
    ensures s in Texts(letters, n)
  {
    if s != [] {
      assert forall i :: 0 <= i < |s[1..]| ==> s[1..][i] == s[i + 1];
      InTexts(letters, n - 1, s[1..]);
      assert s == [s[0]] + s[1..];
    }
  }

  /** The objects with those keys and values. */
  ghost function Objects(keys: set<string>, values: set<Value>): set<Obj> {
    if keys == {} then {map[]}
    else var k :| k in keys; set o, v | o in Objects(keys - {k}, values) && v in values :: o[k := v]
  }

  lemma {:induction false} InObjects(keys: set<string>, values: set<Value>, obj: Obj)
    requires obj.Keys == keys && forall k :: k in obj ==> obj[k] in values
    ensures obj in Objects(keys, values)
    decreases keys
  {
    if keys == {} {
      assert obj == map[];
    } else {
      var k :| k in keys && Objects(keys, values) == set o, v | o in Objects(keys - {k}, values) && v in values :: o[k := v];
      var less := obj - {k};
      InObjects(keys - {k}, values, less);
      assert obj == less[k := obj[k]];
    }
  }

  /** What bounds an object on a run: the letters and the length of its strings, and where its values come from. */
  datatype Bounds = Bounds(letters: set<nat>, len: nat, keys: set<string>, first: set<Value>)

  function TurnedValue(json: Json, marker: Bytes, s: Bytes): Value {
    Text(Reencoded(CutOf(s, marker)), json.lengthOf(CutOf(s, marker)))
  }

  ghost function ValuesWithin(json: Json, marker: Bytes, b: Bounds): set<Value> {
    b.first + set s | s in Texts(b.letters, b.len) :: TurnedValue(json, marker, s)
  }

  ghost predicate BoundsOk(marker: Bytes, b: Bounds) {
    Over(marker, b.letters) && Over(REPLACEMENT, b.letters) && b.len >= 4 * |marker| + 60
  }

  ghost predicate TextWithin(b: Bounds, s: Bytes) {
    WellFormed(s) && Over(s, b.letters) && |s| <= b.len
  }

  ghost predicate Within(json: Json, marker: Bytes, b: Bounds, obj: Obj) {
    && obj.Keys == b.keys
    && (forall k :: k in obj ==> obj[k] in ValuesWithin(json, marker, b))
    && (forall k :: k in obj && obj[k].Text? ==> TextWithin(b, obj[k].decoded))
  }

  lemma OverJoin(a: Bytes, c: Bytes, letters: set<nat>)
    requires Over(a, letters) && Over(c, letters)
    ensures Over(a + c, letters)
  {}

  lemma OverParts(s: Bytes, h: nat, letters: set<nat>)
    requires Over(s, letters) && h <= |s|
    ensures Over(s[..h], letters) && Over(s[h..], letters)
  {}

  lemma {:induction false} ReencodedOver(s: Bytes, letters: set<nat>)
    requires Over(s, letters) && Over(REPLACEMENT, letters)
    ensures Over(Reencoded(s), letters)
    decreases |s|
  {
    if s != [] {
      var n := RuneLen(s);
      var m := if n == 0 then 1 else n;
      OverParts(s, m, letters);
      ReencodedOver(s[m..], letters);
      hide Over;
      OverJoin(if n == 0 then REPLACEMENT else s[..n], Reencoded(s[m..]), letters);
    }
  }

  lemma CutOver(s: Bytes, marker: Bytes, letters: set<nat>)
    requires Over(s, letters) && Over(marker, letters) && s != [] && MarkerOk(marker)
    ensures Over(CutOf(s, marker), letters)
  {
    hide Over, MarkerOk, CutOf;
    var h, t := |s| / 2, |s| - |s| / 4;
    OverParts(s, h, letters);
    OverParts(s, t, letters);
    OverJoin(marker, s[t..], letters);
    OverJoin(s[..h], marker + s[t..], letters);
    CutIs(s, marker);
  }

  lemma TurnWithin(marker: Bytes, b: Bounds, s: Bytes)
    requires BoundsOk(marker, b) && MarkerOk(marker) && TextWithin(b, s) && |CutOf(s, marker)| < |s|
    ensures TextWithin(b, Reencoded(CutOf(s, marker)))
  {
    CutOver(s, marker, b.letters);
    ReencodedOver(CutOf(s, marker), b.letters);
    ReencodedWellFormed(CutOf(s, marker));
    hide WellFormed, Over, Reencoded, CutOf, MarkerOk;
    CutLength(s, marker);
    ShrinksIff(s, marker);
    assert Orphans(s) <= 6;
    if Gap(|s|) > |marker| + 12 {
      LongFieldsShrink(s, marker);
    } else {
      assert |s| <= 4 * Gap(|s|);
    }
  }

  lemma StepWithin(json: Json, marker: Bytes, cap: nat, b: Bounds, obj: Obj, obj': Obj)
    requires BoundsOk(marker, b) && MarkerOk(marker) && Within(json, marker, b, obj) && Steps(json, marker, cap, obj, obj')
    ensures Within(json, marker, b, obj')
  {
    var k :| Biggest(obj, k) && TurnOn(json, marker, obj, k) == Go(obj');
    var s := obj[k].decoded;
    hide BoundsOk, MarkerOk, Biggest, Size, Reencoded, CutOf, Texts;
    TurnWithin(marker, b, s);
    assert TextWithin(b, s);
    InTexts(b.letters, b.len, s);
    hide TextWithin;
    assert obj' == obj[k := TurnedValue(json, marker, s)];
  }

  lemma {:induction false} RunWithin(json: Json, marker: Bytes, cap: nat, b: Bounds, objs: seq<Obj>, i: nat)
    requires BoundsOk(marker, b) && MarkerOk(marker) && Runs(json, marker, cap, objs) && i < |objs|
    requires Within(json, marker, b, objs[0])
    ensures Within(json, marker, b, objs[i])
  {
    hide Within, BoundsOk, MarkerOk, Steps;
    if i > 0 {
      RunWithin(json, marker, cap, b, objs, i - 1);
      StepWithin(json, marker, cap, b, objs[i - 1], objs[i]);
    }
  }

  lemma LenWithinTotal(obj: Obj, k: string)
    requires k in obj
    ensures LenAt(obj, k) <= Total(obj, obj.Keys)
  {
    TotalSplit(obj, obj.Keys, k);
  }

  function Letters(s: Bytes): set<nat> {
    set i | 0 <= i < |s| :: s[i]
  }

  function LettersAt(v: Value): set<nat> {
    if v.Text? then Letters(v.decoded) else {}
  }

  function LettersOf(obj: Obj): set<nat> {
    set k, x | k in obj && x in LettersAt(obj[k]) :: x
  }

  ghost function BoundsOf(marker: Bytes, obj: Obj): Bounds {
    Bounds(LettersOf(obj) + Letters(marker) + Letters(REPLACEMENT), Total(obj, obj.Keys) + 4 * |marker| + 60, obj.Keys, obj.Values)
  }

  lemma FirstWithin(json: Json, marker: Bytes, obj: Obj)
    requires Decoded(obj)
    ensures BoundsOk(marker, BoundsOf(marker, obj)) && Within(json, marker, BoundsOf(marker, obj), obj)
  {
    var b := BoundsOf(marker, obj);
    hide WellFormed, Total;
    forall k | k in obj && obj[k].Text? ensures TextWithin(b, obj[k].decoded) {
      var s := obj[k].decoded;
      LenWithinTotal(obj, k);
      forall i | 0 <= i < |s| ensures s[i] in b.letters { assert s[i] in LettersAt(obj[k]); }
    }
  }

  /** The objects a run from the given one can be at: finitely many. */
  ghost function States(json: Json, marker: Bytes, obj: Obj): set<Obj> {
    var b := BoundsOf(marker, obj);
    Objects(b.keys, ValuesWithin(json, marker, b))
  }

  /** A run of more turns than there are such objects has come back to one. */
  lemma LongRunReturns(json: Json, marker: Bytes, cap: nat, objs: seq<Obj>) returns (i: nat, j: nat)
    requires Runs(json, marker, cap, objs) && Decoded(objs[0]) && MarkerOk(marker) && |objs| > |States(json, marker, objs[0])|
    ensures Returns(json, marker, cap, objs, i, j)
  {
    var b := BoundsOf(marker, objs[0]);
    FirstWithin(json, marker, objs[0]);
    forall k | 0 <= k < |objs| ensures objs[k] in States(json, marker, objs[0]) {
      RunWithin(json, marker, cap, b, objs, k);
      InObjects(b.keys, ValuesWithin(json, marker, b), objs[k]);
    }
    i, j := Pigeonhole(objs, States(json, marker, objs[0]));
  }

  lemma RunThenRun(json: Json, marker: Bytes, cap: nat, a: seq<Obj>, c: seq<Obj>)
    requires Runs(json, marker, cap, a) && Runs(json, marker, cap, c) && a[|a| - 1] == c[0]
    ensures Runs(json, marker, cap, a + c[1..])
  {
    hide Steps;
    var all := a + c[1..];
    forall i | 0 <= i < |all| - 1 ensures Steps(json, marker, cap, all[i], all[i + 1]) {
      if i >= |a| - 1 { assert all[i] == c[i - (|a| - 1)] && all[i + 1] == c[i - (|a| - 1) + 1]; }
    }
  }

  lemma PartOfRun(json: Json, marker: Bytes, cap: nat, objs: seq<Obj>, i: nat, j: nat)
    requires Runs(json, marker, cap, objs) && i < j <= |objs|
    ensures Runs(json, marker, cap, objs[i..j])
  {
    hide Steps;
    forall k | 0 <= k < j - i - 1 ensures Steps(json, marker, cap, objs[i..j][k], objs[i..j][k + 1]) {
      assert Steps(json, marker, cap, objs[i + k], objs[i + k + 1]);
    }
  }

  /** Round and round: a run as long as wanted that ends where the loop closes. */
  lemma {:induction false} Around(json: Json, marker: Bytes, cap: nat, objs: seq<Obj>, i: nat, j: nat, turns: nat) returns (long: seq<Obj>)
    requires Returns(json, marker, cap, objs, i, j)
    ensures Runs(json, marker, cap, long) && long[0] == objs[0] && long[|long| - 1] == objs[i] && |long| > turns
  {
    if turns == 0 {
      long := objs[..i + 1];
      PartOfRun(json, marker, cap, objs, 0, i + 1);
    } else {
      var less := Around(json, marker, cap, objs, i, j, turns - 1);
      hide Runs;
      PartOfRun(json, marker, cap, objs, i, j + 1);
      RunThenRun(json, marker, cap, less, objs[i..j + 1]);
      long := less + objs[i..j + 1][1..];
    }
  }

  /** Runs from a decoded object can be as long as you like exactly when one of them comes back to an object it has
      been at; otherwise none has more turns than there are objects it could be at. */
  lemma EndlessIff(json: Json, marker: Bytes, cap: nat, obj: Obj)
    requires Decoded(obj) && MarkerOk(marker)
    ensures (forall turns: nat :: Lasts(json, marker, cap, obj, turns)) <==> CanReturn(json, marker, cap, obj)
    ensures !CanReturn(json, marker, cap, obj) ==> !Lasts(json, marker, cap, obj, |States(json, marker, obj)|)
  {
    hide Runs, States, Decoded, MarkerOk;
    var n := |States(json, marker, obj)|;
    if Lasts(json, marker, cap, obj, n) {
      var objs :| |objs| == n + 1 && objs[0] == obj && Runs(json, marker, cap, objs);
      var i, j := LongRunReturns(json, marker, cap, objs);
    }
    if CanReturn(json, marker, cap, obj) {
      var objs, i, j :| Returns(json, marker, cap, objs, i, j) && objs[0] == obj;
      forall turns: nat ensures Lasts(json, marker, cap, obj, turns) {
        var long := Around(json, marker, cap, objs, i, j, turns);
        PartOfRun(json, marker, cap, long, 0, turns + 1);
      }
    }
  }

  /** A stalled field makes a run return, so there is no bound on the turns. */
  lemma StallReturns(json: Json, marker: Bytes, cap: nat, obj: Obj, k: string)
    requires MarkerOk(marker) && Widest(obj, k) && LenAt(obj, k) >= 256
    requires var s := obj[k].decoded;
      Stalls(s, marker) && HeadOrphans(s, |s| / 2) < 3 && TailOrphans(s, |s| - |s| / 4) < 3
    requires forall n :: 0 <= n <= 2 ==> Size(json, After(json, marker, obj, k, n)) > cap
    ensures CanReturn(json, marker, cap, obj)
  {
    assert k in obj && obj[k].Text?;
    hide *;
    StallNeverEnds(json, marker, cap, obj, k);
    AfterIs(json, marker, obj, k);
    var one, two := After(json, marker, obj, k, 1), After(json, marker, obj, k, 2);
    assert OnlyNext(json, marker, cap, After(json, marker, obj, k, 0), After(json, marker, obj, k, 0 + 1));
    assert OnlyNext(json, marker, cap, After(json, marker, obj, k, 1), After(json, marker, obj, k, 1 + 1));
    ThirdReturns(json, marker, cap, obj, one, two);
  }

  lemma ThirdReturns(json: Json, marker: Bytes, cap: nat, a: Obj, b: Obj, c: Obj)
    requires OnlyNext(json, marker, cap, a, b) && OnlyNext(json, marker, cap, b, c) && OnlyNext(json, marker, cap, c, c)
    ensures CanReturn(json, marker, cap, a)
  {
    hide Steps, GivesUp;
    assert Returns(json, marker, cap, [a, b, c, c], 2, 3);
  }

  /** The program's marker has 105 bytes. For any marker of 60 or more, a result whose longest string is the relapsing
      one, and whose other field alone is over the cap, is never finished. */
  lemma StalledExample(json: Json, marker: Bytes, cap: nat, raw: string, encoded: nat)
    requires MarkerOk(marker) && |marker| >= 60
    requires forall v :: Size(json, map["content" := v, "data" := Other(raw)]) > cap
    ensures CanReturn(json, marker, cap, map["content" := Text(Relapsing(marker), encoded), "data" := Other(raw)])
  {
    var obj: Obj := map["content" := Text(Relapsing(marker), encoded), "data" := Other(raw)];
    RelapsingStalls(marker);
    forall n | 0 <= n <= 2 ensures Size(json, After(json, marker, obj, "content", n)) > cap {
      OthersStay(json, marker, obj, "content", n);
      var r := After(json, marker, obj, "content", n);
      assert r == map["content" := r["content"], "data" := Other(raw)];
    }
    hide Relapsing, After, Size, Stalls, HeadOrphans, TailOrphans, MarkerOk, CanReturn;
    StallReturns(json, marker, cap, obj, "content");
  }

  lemma {:induction false} OthersStay(json: Json, marker: Bytes, obj: Obj, k: string, n: nat)
    requires k in obj && obj[k].Text?
    ensures var r := After(json, marker, obj, k, n);
      r.Keys == obj.Keys && forall x :: x in obj && x != k ==> r[x] == obj[x]
  {
    hide CutOf, Reencoded;
    if n > 0 { OthersStay(json, marker, obj, k, n - 1); }
  }
}
