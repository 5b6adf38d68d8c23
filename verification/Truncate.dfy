/** Cutting an oversized JSON tool result (agent/dispatcher_validation.go, truncateToolResult; agent/textutil.go,
    HeadTail): the largest string field is cut to its head and tail until the whole fits. */
module Truncate {

  type Bytes = seq<nat>

  // ---- UTF-8 (section 4 of RFC 3629) ----

  predicate Cont(b: nat) {
    0x80 <= b <= 0xBF
  }

  /** How many bytes the character at the front takes; 0 when the front is not the start of a well-formed one. */
  function RuneLen(s: Bytes): (n: nat)
    ensures n <= 4 && n <= |s|
  {
    if s == [] then 0
    else if s[0] < 0x80 then 1
    else if |s| < 2 then 0
    else if 0xC2 <= s[0] <= 0xDF && Cont(s[1]) then 2
    else if |s| < 3 then 0
    else if Lead3(s[0], s[1]) && Cont(s[2]) then 3
    else if |s| < 4 then 0
    else if Lead4(s[0], s[1]) && Cont(s[2]) && Cont(s[3]) then 4
    else 0
  }

  predicate Lead3(a: nat, b: nat) {
    || (a == 0xE0 && 0xA0 <= b <= 0xBF)
    || ((0xE1 <= a <= 0xEC || a == 0xEE || a == 0xEF) && Cont(b))
    || (a == 0xED && 0x80 <= b <= 0x9F)
  }

  predicate Lead4(a: nat, b: nat) {
    || (a == 0xF0 && 0x90 <= b <= 0xBF)
    || (0xF1 <= a <= 0xF3 && Cont(b))
    || (a == 0xF4 && 0x80 <= b <= 0x8F)
  }

  predicate WellFormed(s: Bytes)
    decreases |s|
  {
    s == [] || (RuneLen(s) > 0 && WellFormed(s[RuneLen(s)..]))
  }

  const REPLACEMENT: Bytes := [0xEF, 0xBF, 0xBD]

  /** What a string becomes when it is written as JSON and read back: every byte that belongs to no well-formed
      character turns into U+FFFD. */
  function Reencoded(s: Bytes): Bytes
    decreases |s|
  {
    if s == [] then []
    else if RuneLen(s) == 0 then REPLACEMENT + Reencoded(s[1..])
    else s[..RuneLen(s)] + Reencoded(s[RuneLen(s)..])
  }

  predicate Ascii(s: Bytes) {
    forall i :: 0 <= i < |s| ==> s[i] < 0x80
  }

  lemma FrontLen(s: Bytes, t: Bytes, n: nat)
    requires n == RuneLen(s) > 0 && n <= |t| && t[..n] == s[..n]
    ensures RuneLen(t) == n
  {
    assert forall i :: 0 <= i < n ==> t[i] == t[..n][i] == s[i];
  }

  lemma {:induction false} WellFormedSame(s: Bytes)
    requires WellFormed(s)
    ensures Reencoded(s) == s
    decreases |s|
  {
    if s != [] { WellFormedSame(s[RuneLen(s)..]); }
  }

  lemma {:induction false} ReencodedWellFormed(s: Bytes)
    ensures WellFormed(Reencoded(s))
    decreases |s|
  {
    if s != [] {
      var n := RuneLen(s);
      var rest := Reencoded(if n == 0 then s[1..] else s[n..]);
      var front := if n == 0 then REPLACEMENT else s[..n];
      ReencodedWellFormed(if n == 0 then s[1..] else s[n..]);
      assert RuneLen(REPLACEMENT) == 3;
      FrontLen(if n == 0 then REPLACEMENT else s, front + rest, |front|);
      assert (front + rest)[|front|..] == rest;
    }
  }

  lemma {:induction false} AsciiWellFormed(s: Bytes)
    requires Ascii(s)
    ensures WellFormed(s)
  {
    if s != [] { AsciiWellFormed(s[1..]); }
  }

  lemma {:induction false} AsciiFront(m: Bytes, s: Bytes)
    requires Ascii(m)
    ensures Reencoded(m + s) == m + Reencoded(s)
  {
    if m == [] {
      assert m + s == s;
    } else {
      assert (m + s)[1..] == m[1..] + s;
      AsciiFront(m[1..], s);
    }
  }

  // ---- Cutting a well-formed string ----

  /** The bytes of a character cut in two that the first h bytes end with. */
  function HeadOrphans(s: Bytes, h: nat): (k: nat)
    requires WellFormed(s) && h <= |s|
    ensures k <= 3 && k <= h
    decreases h
  {
    if h == 0 then 0
    else if RuneLen(s) > h then h
    else HeadOrphans(s[RuneLen(s)..], h - RuneLen(s))
  }

  /** The bytes of a character cut in two that what follows the first t bytes begins with. */
  function TailOrphans(s: Bytes, t: nat): (k: nat)
    requires WellFormed(s) && t <= |s|
    ensures k <= 3 && t + k <= |s|
    decreases t
  {
    if t == 0 then 0
    else if RuneLen(s) > t then RuneLen(s) - t
    else TailOrphans(s[RuneLen(s)..], t - RuneLen(s))
  }

  /** The whole characters among the first h bytes, and those after the first t. */
  function Front(s: Bytes, h: nat): (r: Bytes)
    requires WellFormed(s) && h <= |s|
    ensures |r| == h - HeadOrphans(s, h)
  {
    s[..h - HeadOrphans(s, h)]
  }

  function Back(s: Bytes, t: nat): (r: Bytes)
    requires WellFormed(s) && t <= |s|
    ensures |r| == |s| - t - TailOrphans(s, t)
  {
    s[t + TailOrphans(s, t)..]
  }

  lemma RuneBytes(s: Bytes)
    requires RuneLen(s) > 1
    ensures s[0] >= 0xC2 && forall i :: 1 <= i < RuneLen(s) ==> Cont(s[i])
  {}

  function Reps(n: nat): (r: Bytes)
    ensures |r| == 3 * n
  {
    if n == 0 then [] else REPLACEMENT + Reps(n - 1)
  }

  lemma OrphanByte(s: Bytes)
    requires s != [] && RuneLen(s) == 0
    ensures Reencoded(s) == REPLACEMENT + Reencoded(s[1..])
  {}

  lemma {:induction false} ContsReplaced(c: Bytes, rest: Bytes)
    requires forall i :: 0 <= i < |c| ==> Cont(c[i])
    ensures Reencoded(c + rest) == Reps(|c|) + Reencoded(rest)
  {
    if c == [] {
      assert c + rest == rest;
    } else {
      hide *;
      FrontCont(c, rest);
      OrphanByte(c + rest);
      ContsReplaced(c[1..], rest);
      MoreReps(|c| - 1, Reencoded(rest));
    }
  }

  lemma FrontCont(c: Bytes, rest: Bytes)
    requires c != [] && Cont(c[0])
    ensures (c + rest)[1..] == c[1..] + rest && RuneLen(c + rest) == 0
  {}

  lemma CutRuneLen(s: Bytes, h: nat, rest: Bytes)
    requires 0 < h < RuneLen(s) && rest != [] && rest[0] < 0x80
    ensures RuneLen(s[..h] + rest) == 0
  {
    RuneBytes(s);
    var t := s[..h] + rest;
    assert t[0] == s[0] && t[h] == rest[0];
  }

  /** A character cut short before something that is not part of it: each of its bytes is replaced. */
  lemma CutRune(s: Bytes, h: nat, rest: Bytes)
    requires 0 < h < RuneLen(s) && rest != [] && rest[0] < 0x80
    ensures Reencoded(s[..h] + rest) == Reps(h) + Reencoded(rest)
  {
    hide *;
    CutRuneLen(s, h, rest);
    RuneBytes(s);
    var t := s[..h] + rest;
    OrphanByte(t);
    assert t[1..] == s[1..h] + rest;
    ContsReplaced(s[1..h], rest);
    MoreReps(h - 1, Reencoded(rest));
  }

  lemma MoreReps(i: nat, rest: Bytes)
    ensures Reps(0) + rest == rest
    ensures Reps(i + 1) + rest == REPLACEMENT + (Reps(i) + rest)
  {}

  /** A character at the front is carried over. */
  lemma WholeRune(s: Bytes, rest: Bytes)
    requires RuneLen(s) > 0
    ensures Reencoded(s[..RuneLen(s)] + rest) == s[..RuneLen(s)] + Reencoded(rest)
    ensures WellFormed(rest) ==> WellFormed(s[..RuneLen(s)] + rest)
  {
    var n, t := RuneLen(s), s[..RuneLen(s)] + rest;
    assert t[..n] == s[..n] && t[n..] == rest;
    FrontLen(s, t, n);
  }

  lemma Regroup(a: Bytes, b: Bytes, c: Bytes)
    ensures a + (b + c) == (a + b) + c
  {}

  lemma TakeParts(s: Bytes, n: nat, h: nat, rest: Bytes)
    requires n <= h <= |s|
    ensures s[..h] + rest == s[..n] + (s[n..][..h - n] + rest)
  {}

  lemma FrontNext(s: Bytes, h: nat)
    requires WellFormed(s) && 0 < RuneLen(s) <= h <= |s|
    ensures HeadOrphans(s, h) == HeadOrphans(s[RuneLen(s)..], h - RuneLen(s))
    ensures Front(s, h) == s[..RuneLen(s)] + Front(s[RuneLen(s)..], h - RuneLen(s))
  {}

  lemma FrontDone(s: Bytes, h: nat)
    requires WellFormed(s) && h <= |s| && (h == 0 || RuneLen(s) > h)
    ensures HeadOrphans(s, h) == h && Front(s, h) == []
  {}

  /** The first h bytes before ASCII text: the whole characters stay, each byte of a cut one is replaced. */
  lemma {:induction false} HeadText(s: Bytes, h: nat, rest: Bytes)
    requires WellFormed(s) && h <= |s| && rest != [] && rest[0] < 0x80
    ensures WellFormed(Front(s, h))
    ensures Reencoded(s[..h] + rest) == Front(s, h) + (Reps(HeadOrphans(s, h)) + Reencoded(rest))
    decreases h
  {
    if h == 0 || RuneLen(s) > h {
      FrontDone(s, h);
      hide Reencoded, RuneLen, HeadOrphans, Front;
      if h == 0 { assert s[..0] + rest == rest; } else { CutRune(s, h, rest); }
    } else {
      HeadText(s[RuneLen(s)..], h - RuneLen(s), rest);
      hide *;
      HeadNext(s, h, rest);
    }
  }

  lemma HeadNext(s: Bytes, h: nat, rest: Bytes)
    requires WellFormed(s) && 0 < RuneLen(s) <= h <= |s|
    requires WellFormed(s[RuneLen(s)..]) && WellFormed(Front(s[RuneLen(s)..], h - RuneLen(s)))
    requires Reencoded(s[RuneLen(s)..][..h - RuneLen(s)] + rest)
      == Front(s[RuneLen(s)..], h - RuneLen(s)) + (Reps(HeadOrphans(s[RuneLen(s)..], h - RuneLen(s))) + Reencoded(rest))
    ensures WellFormed(Front(s, h))
    ensures Reencoded(s[..h] + rest) == Front(s, h) + (Reps(HeadOrphans(s, h)) + Reencoded(rest))
  {
    hide *;
    var n := RuneLen(s);
    FrontNext(s, h);
    TakeParts(s, n, h, rest);
    RuneThen(s, s[n..][..h - n] + rest, Front(s[n..], h - n), Reps(HeadOrphans(s[n..], h - n)) + Reencoded(rest));
  }

  lemma RuneThen(s: Bytes, more: Bytes, kept: Bytes, end: Bytes)
    requires RuneLen(s) > 0 && Reencoded(more) == kept + end && WellFormed(kept)
    ensures Reencoded(s[..RuneLen(s)] + more) == (s[..RuneLen(s)] + kept) + end && WellFormed(s[..RuneLen(s)] + kept)
  {
    hide *;
    WholeRune(s, more);
    WholeRune(s, kept);
    Regroup(s[..RuneLen(s)], kept, end);
  }

  lemma TailOfRune(s: Bytes, t: nat)
    requires 0 < t < RuneLen(s) && WellFormed(s)
    ensures Reencoded(s[t..]) == Reps(RuneLen(s) - t) + s[RuneLen(s)..] && WellFormed(s[RuneLen(s)..])
  {
    var n := RuneLen(s);
    RuneBytes(s);
    WellFormedSame(s[n..]);
    hide Reencoded, RuneLen;
    assert s[t..] == s[t..n] + s[n..];
    ContsReplaced(s[t..n], s[n..]);
  }

  lemma BackNext(s: Bytes, t: nat)
    requires WellFormed(s) && 0 < RuneLen(s) <= t <= |s|
    ensures TailOrphans(s, t) == TailOrphans(s[RuneLen(s)..], t - RuneLen(s))
    ensures Back(s, t) == Back(s[RuneLen(s)..], t - RuneLen(s))
  {}

  /** What follows the first t bytes: each byte of a cut character is replaced, the whole ones stay. */
  lemma {:induction false} TailText(s: Bytes, t: nat)
    requires WellFormed(s) && t <= |s|
    ensures WellFormed(Back(s, t)) && Reencoded(s[t..]) == Reps(TailOrphans(s, t)) + Back(s, t)
    decreases t
  {
    hide Reencoded;
    if t == 0 {
      assert s[0..] == s;
      WellFormedSame(s);
    } else if RuneLen(s) > t {
      TailOfRune(s, t);
    } else {
      var n := RuneLen(s);
      BackNext(s, t);
      TailText(s[n..], t - n);
      hide *;
      assert s[t..] == s[n..][t - n..];
    }
  }

  // ---- HeadTail and one turn of the loop ----

  function HeadTail(s: Bytes, head: nat, tail: nat, marker: Bytes): Bytes {
    if |s| <= head + tail then s else s[..head] + marker + s[|s| - tail..]
  }

  /** The cut the loop makes of a field of n bytes: half from the front, a quarter from the end. */
  function CutOf(s: Bytes, marker: Bytes): Bytes {
    HeadTail(s, |s| / 2, |s| / 4, marker)
  }

  /** The bytes a cut takes out of a field of n bytes. */
  function Gap(n: nat): nat {
    n - n / 2 - n / 4
  }

  function Orphans(s: Bytes): nat
    requires WellFormed(s)
  {
    HeadOrphans(s, |s| / 2) + TailOrphans(s, |s| - |s| / 4)
  }

  predicate MarkerOk(marker: Bytes) {
    marker != [] && Ascii(marker)
  }

  /** The exact text of a field after a turn: the whole characters of head and tail, a replacement for every byte of
      those that were cut, and the marker between. */
  function Turned(s: Bytes, marker: Bytes): Bytes
    requires WellFormed(s)
  {
    var h, t := |s| / 2, |s| - |s| / 4;
    Assembled(Front(s, h), HeadOrphans(s, h), marker, TailOrphans(s, t), Back(s, t))
  }

  function Assembled(a: Bytes, i: nat, marker: Bytes, j: nat, b: Bytes): (r: Bytes)
    ensures |r| == |a| + 3 * i + |marker| + 3 * j + |b|
  {
    a + (Reps(i) + (marker + (Reps(j) + b)))
  }

  lemma CutIs(s: Bytes, marker: Bytes)
    requires s != [] && MarkerOk(marker)
    ensures CutOf(s, marker) == s[..|s| / 2] + (marker + s[|s| - |s| / 4..])
    ensures (marker + s[|s| - |s| / 4..])[0] < 0x80
  {}

  lemma CutText(s: Bytes, marker: Bytes)
    requires WellFormed(s) && s != [] && MarkerOk(marker)
    ensures Reencoded(CutOf(s, marker)) == Turned(s, marker)
  {
    var t := |s| - |s| / 4;
    hide Reencoded, WellFormed, CutOf, HeadOrphans, TailOrphans, Front, Back, Reps;
    CutIs(s, marker);
    HeadText(s, |s| / 2, marker + s[t..]);
    AsciiFront(marker, s[t..]);
    TailText(s, t);
  }

  /** Its exact length: what was cut out, the marker put in, and two bytes more for every byte of a character that the
      cut left orphaned. */
  lemma CutLength(s: Bytes, marker: Bytes)
    requires WellFormed(s) && s != [] && MarkerOk(marker)
    ensures |CutOf(s, marker)| == |s| - Gap(|s|) + |marker|
    ensures |Reencoded(CutOf(s, marker))| == |s| - Gap(|s|) + |marker| + 2 * Orphans(s)
  {
    hide WellFormed, Reencoded, HeadOrphans, TailOrphans;
    CutText(s, marker);
  }

  /** A turn goes ahead when the cut itself is shorter; the field is shorter afterwards exactly when the cut also
      pays for the replacement characters it makes. */
  lemma ShrinksIff(s: Bytes, marker: Bytes)
    requires WellFormed(s) && s != [] && MarkerOk(marker)
    ensures |CutOf(s, marker)| < |s| <==> Gap(|s|) > |marker|
    ensures |Reencoded(CutOf(s, marker))| < |s| <==> Gap(|s|) > |marker| + 2 * Orphans(s)
  {
    CutLength(s, marker);
  }

  /** A long enough field always gets shorter, wherever the cuts fall: at most three bytes a side are orphaned. */
  lemma LongFieldsShrink(s: Bytes, marker: Bytes)
    requires WellFormed(s) && s != [] && MarkerOk(marker) && Gap(|s|) > |marker| + 12
    ensures |Reencoded(CutOf(s, marker))| < |s|
  {
    ShrinksIff(s, marker);
  }

  lemma {:induction false} AsciiHead(s: Bytes, h: nat)
    requires Ascii(s) && WellFormed(s) && h <= |s|
    ensures HeadOrphans(s, h) == 0
    decreases h
  {
    if h > 0 { AsciiHead(s[1..], h - 1); }
  }

  lemma {:induction false} AsciiTail(s: Bytes, t: nat)
    requires Ascii(s) && WellFormed(s) && t <= |s|
    ensures TailOrphans(s, t) == 0
    decreases t
  {
    if t > 0 { AsciiTail(s[1..], t - 1); }
  }

  // ---- The loop ----

  /** A field of the object: a decoded string with the length of its JSON text, or any other JSON text. */
  datatype Value = Text(decoded: Bytes, encoded: nat) | Other(raw: string)

  type Obj = map<string, Value>

  datatype Parsed = NotAnObject | AnObject(obj: Obj)

  /** The JSON library: reading an object, the length of a string's text, and the text of a whole object. */
  datatype Json = Json(parse: Bytes -> Parsed, lengthOf: Bytes -> nat, text: Obj -> Bytes)

  function Size(json: Json, obj: Obj): nat {
    |json.text(obj)|
  }

  function LenAt(obj: Obj, k: string): nat {
    if k in obj && obj[k].Text? then |obj[k].decoded| else 0
  }

  /** A key the scan can settle on: a nonempty string field as long as any, or "" when there is none. */
  ghost predicate Biggest(obj: Obj, k: string) {
    && (forall x :: x in obj ==> LenAt(obj, x) <= LenAt(obj, k))
    && (LenAt(obj, k) > 0 || k == "")
  }

  function Shrunk(json: Json, marker: Bytes, obj: Obj, k: string): Obj
    requires k in obj && obj[k].Text?
  {
    var cut := CutOf(obj[k].decoded, marker);
    obj[k := Text(Reencoded(cut), json.lengthOf(cut))]
  }

  datatype Turn = GiveUp | Go(obj: Obj)

  /** One turn on the chosen field: too short, or no shorter for being cut, and the loop gives up. */
  function TurnOn(json: Json, marker: Bytes, obj: Obj, k: string): Turn {
    if k == "" || LenAt(obj, k) < 256 then GiveUp
    else if |CutOf(obj[k].decoded, marker)| >= |obj[k].decoded| then GiveUp
    else Go(Shrunk(json, marker, obj, k))
  }

  ghost predicate GivesUp(json: Json, marker: Bytes, obj: Obj) {
    exists k :: Biggest(obj, k) && TurnOn(json, marker, obj, k) == GiveUp
  }

  /** From one object to the next while it is over the cap, whichever largest field the scan happens to meet first. */
  ghost predicate Steps(json: Json, marker: Bytes, cap: nat, obj: Obj, obj': Obj) {
    Size(json, obj) > cap && exists k :: Biggest(obj, k) && TurnOn(json, marker, obj, k) == Go(obj')
  }

  ghost predicate Runs(json: Json, marker: Bytes, cap: nat, objs: seq<Obj>) {
    objs != [] && forall i :: 0 <= i < |objs| - 1 ==> Steps(json, marker, cap, objs[i], objs[i + 1])
  }

  method FindBiggest(obj: Obj) returns (key: string, len: nat)
    ensures Biggest(obj, key) && len == LenAt(obj, key)
  {
    key, len := "", 0;
    var best := 0;
    var todo := obj.Keys;
    while todo != {}
      invariant todo <= obj.Keys
      invariant forall x :: x in obj && x !in todo ==> LenAt(obj, x) <= best
      invariant best == 0 ==> key == ""
      invariant best > 0 ==> LenAt(obj, key) == best
      decreases todo
    {
      var k :| k in todo;
      todo := todo - {k};
      if LenAt(obj, k) > best { key, best := k, LenAt(obj, k); }
    }
    len := LenAt(obj, key);
    if best == 0 && "" in obj { assert LenAt(obj, "") <= 0; }
  }

  datatype Outcome = Fits(obj: Obj) | Fallback | StillOver(obj: Obj)

  /** n turns lead from one object to the other. */
  ghost predicate Reached(json: Json, marker: Bytes, cap: nat, obj: Obj, obj': Obj, n: nat) {
    exists objs :: Runs(json, marker, cap, objs) && |objs| == n + 1 && objs[0] == obj && objs[n] == obj'
  }

  /** Some object reached is over the cap and has no field worth cutting. */
  ghost predicate GetsStuck(json: Json, marker: Bytes, cap: nat, obj: Obj, turns: nat) {
    exists n, obj' :: 0 <= n <= turns && Reached(json, marker, cap, obj, obj', n) && Size(json, obj') > cap && GivesUp(json, marker, obj')
  }

  lemma OneMoreTurn(json: Json, marker: Bytes, cap: nat, obj: Obj, cur: Obj, n: nat, key: string)
    requires Reached(json, marker, cap, obj, cur, n) && Size(json, cur) > cap
    requires Biggest(cur, key) && TurnOn(json, marker, cur, key).Go?
    ensures Reached(json, marker, cap, obj, TurnOn(json, marker, cur, key).obj, n + 1)
  {
    var next := TurnOn(json, marker, cur, key).obj;
    assert Steps(json, marker, cap, cur, next);
    hide Steps, Biggest, TurnOn;
    var objs :| Runs(json, marker, cap, objs) && |objs| == n + 1 && objs[0] == obj && objs[n] == cur;
    assert Runs(json, marker, cap, objs + [next]);
  }

  /** The shrink loop, run for at most `turns` turns: it ends with an object within the cap that so many turns lead
      to, or it gives up at one, or that many turns were not enough. */
  method Shrink(json: Json, marker: Bytes, cap: nat, obj: Obj, turns: nat) returns (r: Outcome)
    ensures r.Fits? ==> Size(json, r.obj) <= cap && exists n :: 0 <= n <= turns && Reached(json, marker, cap, obj, r.obj, n)
    ensures r.StillOver? ==> Size(json, r.obj) > cap && Reached(json, marker, cap, obj, r.obj, turns)
    ensures r.Fallback? ==> GetsStuck(json, marker, cap, obj, turns)
  {
    var cur, done := obj, 0;
    assert Reached(json, marker, cap, obj, cur, 0) by { assert Runs(json, marker, cap, [obj]); }
    while Size(json, cur) > cap
      invariant done <= turns && Reached(json, marker, cap, obj, cur, done)
      decreases turns - done
    {
      hide Reached, Biggest;
      if done == turns { return StillOver(cur); }
      var key, len := FindBiggest(cur);
      assert key == "" || len < 256 ==> TurnOn(json, marker, cur, key) == GiveUp;
      if key == "" || len < 256 { return Fallback; }
      var cut := CutOf(cur[key].decoded, marker);
      assert |cut| >= len ==> TurnOn(json, marker, cur, key) == GiveUp;
      if |cut| >= len { return Fallback; }
      OneMoreTurn(json, marker, cap, obj, cur, done, key);
      cur := cur[key := Text(Reencoded(cut), json.lengthOf(cut))];
      done := done + 1;
    }
    r := Fits(cur);
  }

  // ---- What a run keeps ----

  ghost predicate Decoded(obj: Obj) {
    forall k :: k in obj && obj[k].Text? ==> WellFormed(obj[k].decoded)
  }

  /** Same keys, and everything that is not a string as it was. */
  ghost predicate SameShape(obj: Obj, obj': Obj) {
    obj'.Keys == obj.Keys && forall k :: k in obj ==> obj'[k].Text? == obj[k].Text? && (obj[k].Other? ==> obj'[k] == obj[k])
  }

  lemma StepKeeps(json: Json, marker: Bytes, cap: nat, obj: Obj, obj': Obj)
    requires Decoded(obj) && Steps(json, marker, cap, obj, obj')
    ensures Decoded(obj') && SameShape(obj, obj')
  {
    var k :| Biggest(obj, k) && TurnOn(json, marker, obj, k) == Go(obj');
    ReencodedWellFormed(CutOf(obj[k].decoded, marker));
  }

  /** Every run leaves an object with the same keys and the same other fields, whose strings are still well formed. */
  lemma {:induction false} RunKeeps(json: Json, marker: Bytes, cap: nat, objs: seq<Obj>, i: nat)
    requires Runs(json, marker, cap, objs) && Decoded(objs[0]) && i < |objs|
    ensures Decoded(objs[i]) && SameShape(objs[0], objs[i])
  {
    hide Steps;
    if i > 0 {
      RunKeeps(json, marker, cap, objs, i - 1);
      StepKeeps(json, marker, cap, objs[i - 1], objs[i]);
    }
  }

  /** What one turn comes to: the loop gives up on a field under 256 bytes or one whose cut would not pay for the marker;
      else exactly that field changes, to its first half, the marker and its last quarter, whole characters kept. */
  lemma TurnIs(json: Json, marker: Bytes, obj: Obj, k: string)
    requires Decoded(obj) && MarkerOk(marker) && Biggest(obj, k)
    ensures var n := LenAt(obj, k);
      if k == "" || n < 256 || n - n / 2 - n / 4 <= |marker| then TurnOn(json, marker, obj, k) == GiveUp
      else
        var s := obj[k].decoded;
        TurnOn(json, marker, obj, k)
          == Go(obj[k := Text(Turned(s, marker), json.lengthOf(s[..n / 2] + (marker + s[n - n / 4..])))])
  {
    if k != "" && LenAt(obj, k) >= 256 {
      ShrinksIff(obj[k].decoded, marker);
      CutIs(obj[k].decoded, marker);
      CutText(obj[k].decoded, marker);
    }
    hide CutOf, Turned, Reencoded, WellFormed;
  }

  // ---- The whole function ----

  datatype Answer = Cut(text: Bytes) | Unfinished(obj: Obj)

  /** agent/dispatcher_validation.go, truncateToolResult, following its loop for at most `turns` turns. */
  method TruncateToolResult(json: Json, raw: Bytes, cap: nat, marker: Bytes, plain: Bytes, turns: nat) returns (r: Answer)
    ensures |raw| <= cap ==> r == Cut(raw)
    ensures |raw| > cap && json.parse(raw).NotAnObject? ==> r == Cut(HeadTail(raw, cap * 2 / 3, cap / 3, plain))
    ensures |raw| > cap && json.parse(raw).AnObject? ==> FromLoop(json, raw, cap, marker, turns, json.parse(raw).obj, r)
    ensures r.Cut? ==> |r.text| <= cap + if |plain| > |marker| then |plain| else |marker|
  {
    if |raw| <= cap { return Cut(raw); }
    var parsed := json.parse(raw);
    if parsed == NotAnObject { return Cut(HeadTail(raw, cap * 2 / 3, cap / 3, plain)); }
    var end := Shrink(json, marker, cap, parsed.obj, turns);
    match end
    case Fits(obj) => r := Cut(json.text(obj));
    case Fallback => r := Cut(HeadTail(raw, cap * 2 / 3, cap / 3, marker));
    case StillOver(obj) => r := Unfinished(obj);
  }

  /** The text of an object within the cap that the turns led to; the result itself cut, when they led to an object no
      turn helps; or not finished yet. */
  ghost predicate FromLoop(json: Json, raw: Bytes, cap: nat, marker: Bytes, turns: nat, obj: Obj, r: Answer) {
    match r
    case Cut(text) =>
      || (|text| <= cap && exists n, obj' :: 0 <= n <= turns && Reached(json, marker, cap, obj, obj', n) && json.text(obj') == text)
      || (text == HeadTail(raw, cap * 2 / 3, cap / 3, marker) && GetsStuck(json, marker, cap, obj, turns))
    case Unfinished(obj') => Size(json, obj') > cap && Reached(json, marker, cap, obj, obj', turns)
  }
}
