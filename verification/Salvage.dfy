/** Recovering the whole steps of a plan whose text was cut (agent/executive.go, salvageTruncatedPlan),
    against the JSON texts of RFC 8259. */
module Salvage {

  // ---- The scanner ----

  const STEPS_KEY := "\"steps\""

  predicate MatchesAt(s: string, pattern: string, i: nat) {
    i + |pattern| <= |s| && s[i..i + |pattern|] == pattern
  }

  /** Position of the first occurrence of `pattern` at or after i, or -1. */
  function Find(s: string, pattern: string, i: nat): (r: int)
    requires pattern != ""
    ensures r == -1 || (i <= r && MatchesAt(s, pattern, r) && forall k :: i <= k < r ==> !MatchesAt(s, pattern, k))
    ensures r == -1 ==> forall k :: i <= k ==> !MatchesAt(s, pattern, k)
    decreases |s| - i
  {
    if i + |pattern| > |s| then -1
    else if MatchesAt(s, pattern, i) then i
    else Find(s, pattern, i + 1)
  }

  /** Where the elements of the steps array begin: behind the first '[' after the first `"steps"`; or -1. */
  function ArrayStart(raw: string): int {
    var i := Find(raw, STEPS_KEY, 0);
    if i < 0 then -1
    else
      var open := Find(raw, "[", i);
      if open < 0 then -1 else open + 1
  }

  /** The scan's state; Closed is the early exit on a ']' outside every step. */
  datatype Scan = Closed | Scan(pos: nat, depth: int, lastClose: int, inStr: bool, esc: bool)

  function Step(sc: Scan, c: char): Scan {
    if sc.Closed? then sc
    else
      var next := sc.(pos := sc.pos + 1);
      if sc.esc then next.(esc := false)
      else if c == '\\' && sc.inStr then next.(esc := true)
      else if c == '"' then next.(inStr := !sc.inStr)
      else if sc.inStr then next
      else if c == '{' then next.(depth := sc.depth + 1)
      else if c == '}' then
        if sc.depth - 1 == 0 then next.(depth := 0, lastClose := sc.pos) else next.(depth := sc.depth - 1)
      else if c == ']' && sc.depth == 0 then Closed
      else next
  }

  function Run(sc: Scan, s: string): Scan {
    if s == "" then sc else Step(Run(sc, s[..|s| - 1]), s[|s| - 1])
  }

  function Start(pos: nat): Scan {
    Scan(pos, 0, -1, false, false)
  }

  function Salvaged(raw: string): string {
    var start := ArrayStart(raw);
    if start < 0 || start > |raw| then ""
    else Trim(raw, Run(Start(start), raw[start..]))
  }

  /** What the scan's last state means for the text. */
  function Trim(raw: string, r: Scan): string {
    match r
    case Closed => ""
    case Scan(_, _, lastClose, _, _) => if 0 <= lastClose < |raw| then raw[..lastClose + 1] + "]}" else ""
  }

  lemma SalvagedIs(raw: string, start: nat, r: Scan)
    requires ArrayStart(raw) == start <= |raw| && Run(Start(start), raw[start..]) == r
    ensures Salvaged(raw) == Trim(raw, r)
  {}

  /** agent/executive.go, salvageTruncatedPlan. */
  method SalvageTruncatedPlan(raw: string) returns (plan: string)
    ensures plan == Salvaged(raw)
  {
    var i := Find(raw, STEPS_KEY, 0);
    if i < 0 { return ""; }
    var open := Find(raw, "[", i);
    if open < 0 { return ""; }
    var start := open + 1;
    var depth, lastClose := 0, -1;
    var inStr, esc := false, false;
    for j := start to |raw|
      invariant Run(Start(start), raw[start..j]) == Scan(j, depth, lastClose, inStr, esc)
      invariant -1 <= lastClose < j
    {
      var c := raw[j];
      RunNext(Start(start), raw, start, j);
      if esc {
        esc := false;
        continue;
      }
      if c == '\\' && inStr {
        esc := true;
      } else if c == '"' {
        inStr := !inStr;
      } else if inStr {
      } else if c == '{' {
        depth := depth + 1;
      } else if c == '}' {
        depth := depth - 1;
        if depth == 0 { lastClose := j; }
      } else if c == ']' && depth == 0 {
        ClosedEarly(Start(start), raw, start, j + 1);
        SalvagedIs(raw, start, Closed);
        return "";
      }
    }
    assert raw[start..|raw|] == raw[start..];
    SalvagedIs(raw, start, Scan(|raw|, depth, lastClose, inStr, esc));
    if lastClose < 0 { return ""; }
    return raw[..lastClose + 1] + "]}";
  }

  lemma RunNext(sc: Scan, raw: string, start: nat, j: nat)
    requires start <= j < |raw|
    ensures Run(sc, raw[start..j + 1]) == Step(Run(sc, raw[start..j]), raw[j])
  {
    assert raw[start..j + 1][..j - start] == raw[start..j];
  }

  lemma ClosedEarly(sc: Scan, raw: string, start: nat, j: nat)
    requires start <= j <= |raw| && Run(sc, raw[start..j]) == Closed
    ensures Run(sc, raw[start..]) == Closed
  {
    RunSplit(sc, raw[start..j], raw[j..]);
    assert raw[start..j] + raw[j..] == raw[start..];
    ClosedStays(raw[j..]);
  }

  lemma {:induction false} RunSplit(sc: Scan, a: string, b: string)
    ensures Run(sc, a + b) == Run(Run(sc, a), b)
  {
    if b == "" {
      assert a + b == a;
    } else {
      assert (a + b)[..|a + b| - 1] == a + b[..|b| - 1];
      RunSplit(sc, a, b[..|b| - 1]);
    }
  }

  lemma {:induction false} ClosedStays(s: string)
    ensures Run(Closed, s) == Closed
  {
    if s != "" { ClosedStays(s[..|s| - 1]); }
  }

  // ---- JSON texts, with their whitespace (RFC 8259, sections 2 to 7) ----

  datatype StrItem = Unescaped(c: char) | Escape(c: char)

  datatype Json =
    | Str(items: seq<StrItem>)
    | Atom(text: string)  // a number or one of the three literal names
    | Arr(blank: string, elems: seq<Elem>)
    | Obj(blank: string, members: seq<Member>)

  datatype Elem = Elem(before: string, value: Json, after: string)

  datatype Member = Member(before: string, key: seq<StrItem>, colon: string, elem: Elem)

  predicate Ws(s: string) {
    forall i :: 0 <= i < |s| ==> s[i] in " \t\n\r"
  }

  predicate StrItemOk(x: StrItem) {
    match x
    case Unescaped(c) => c != '"' && c != '\\' && c as int >= 0x20
    case Escape(c) => c in "\"\\/bfnrtu"
  }

  predicate AtomOk(text: string) {
    text != "" && forall i :: 0 <= i < |text| ==> text[i] !in "\"\\{}[],: \t\n\r"
  }

  predicate StrOk(items: seq<StrItem>) {
    forall i :: 0 <= i < |items| ==> StrItemOk(items[i])
  }

  predicate JsonOk(j: Json)
    decreases j
  {
    match j
    case Str(items) => StrOk(items)
    case Atom(text) => AtomOk(text)
    case Arr(blank, elems) => Ws(blank) && forall e :: e in elems ==> ElemOk(e)
    case Obj(blank, members) => Ws(blank) && forall m :: m in members ==> MemberOk(m)
  }

  predicate ElemOk(e: Elem)
    decreases e
  {
    Ws(e.before) && JsonOk(e.value) && Ws(e.after)
  }

  predicate MemberOk(m: Member)
    decreases m
  {
    Ws(m.before) && StrOk(m.key) && Ws(m.colon) && ElemOk(m.elem)
  }

  function RenderItems(items: seq<StrItem>): string {
    if items == [] then ""
    else
      (match items[0]
       case Unescaped(c) => [c]
       case Escape(c) => ['\\', c]) + RenderItems(items[1..])
  }

  function RenderStr(items: seq<StrItem>): string {
    "\"" + RenderItems(items) + "\""
  }

  function Render(j: Json): string
    decreases j, 1
  {
    match j
    case Str(items) => RenderStr(items)
    case Atom(text) => text
    case Arr(blank, elems) => "[" + (if elems == [] then blank else RenderElems(elems)) + "]"
    case Obj(blank, members) => "{" + Inside(j) + "}"
  }

  /** The text between the braces of an object. */
  function Inside(j: Json): string
    requires j.Obj?
    decreases j, 0
  {
    if j.members == [] then j.blank else RenderMembers(j.members)
  }

  function RenderElem(e: Elem): string
    decreases e
  {
    e.before + Render(e.value) + e.after
  }

  function RenderElems(elems: seq<Elem>): string
    decreases elems
  {
    if elems == [] then ""
    else RenderElem(elems[0]) + (if |elems| == 1 then "" else "," + RenderElems(elems[1..]))
  }

  function RenderMember(m: Member): string
    decreases m
  {
    m.before + RenderStr(m.key) + m.colon + ":" + RenderElem(m.elem)
  }

  function RenderMembers(members: seq<Member>): string
    decreases members
  {
    if members == [] then ""
    else RenderMember(members[0]) + (if |members| == 1 then "" else "," + RenderMembers(members[1..]))
  }

  // ---- Texts the scanner passes over inside a step ----

  ghost predicate Idle(sc: Scan) {
    sc.Scan? && !sc.inStr && !sc.esc
  }

  /** Part-way through a text begun at `sc`: no step has closed and the array has not closed. */
  ghost predicate Unsettled(sc: Scan, r: Scan)
    requires sc.Scan?
  {
    r.Scan? && r.lastClose == sc.lastClose
  }

  /** A text that leaves the scan as it found it, and closes nothing on the way. */
  ghost predicate NeutralAt(t: string, sc: Scan)
    requires sc.Scan?
  {
    && Run(sc, t) == sc.(pos := sc.pos + |t|)
    && forall k :: 0 <= k <= |t| ==> Unsettled(sc, Run(sc, t[..k]))
  }

  /** Neutral at any depth from `floor` up. */
  ghost predicate Neutral(t: string, floor: int) {
    forall sc :: Idle(sc) && sc.depth >= floor ==> NeutralAt(t, sc)
  }

  lemma ConcatAt(a: string, b: string, sc: Scan)
    requires sc.Scan? && NeutralAt(a, sc) && NeutralAt(b, sc.(pos := sc.pos + |a|))
    ensures NeutralAt(a + b, sc)
  {
    RunSplit(sc, a, b);
    forall k | 0 <= k <= |a + b| ensures Unsettled(sc, Run(sc, (a + b)[..k])) {
      if k <= |a| {
        assert (a + b)[..k] == a[..k];
      } else {
        assert (a + b)[..k] == a + b[..k - |a|];
        RunSplit(sc, a, b[..k - |a|]);
      }
    }
  }

  lemma BothNeutral(a: string, b: string, floor: int, sc: Scan)
    requires Neutral(a, floor) && Neutral(b, floor) && Idle(sc) && sc.depth >= floor
    ensures sc.Scan? && NeutralAt(a, sc) && NeutralAt(b, sc.(pos := sc.pos + |a|))
  {
    hide NeutralAt;
    assert Idle(sc.(pos := sc.pos + |a|));
  }

  lemma NeutralConcat(a: string, b: string, floor: int)
    requires Neutral(a, floor) && Neutral(b, floor)
    ensures Neutral(a + b, floor)
  {
    forall sc | Idle(sc) && sc.depth >= floor ensures NeutralAt(a + b, sc) {
      BothNeutral(a, b, floor, sc);
      hide *;
      ConcatAt(a, b, sc);
    }
  }

  /** Characters the scanner does not react to outside strings. */
  predicate Silent(s: string) {
    forall i :: 0 <= i < |s| ==> s[i] !in "\"\\{}]"
  }

  lemma {:induction false} SilentRun(sc: Scan, t: string)
    requires Idle(sc) && Silent(t)
    ensures Run(sc, t) == sc.(pos := sc.pos + |t|)
  {
    if t != "" { SilentRun(sc, t[..|t| - 1]); }
  }

  lemma SilentNeutral(t: string, floor: int)
    requires Silent(t)
    ensures Neutral(t, floor)
  {
    forall sc | Idle(sc) && sc.depth >= floor ensures NeutralAt(t, sc) {
      SilentRun(sc, t);
      forall k | 0 <= k <= |t| ensures Unsettled(sc, Run(sc, t[..k])) { SilentRun(sc, t[..k]); }
    }
  }

  /** Inside a string every rendered item leaves the string state alone, and nothing closes. */
  lemma {:induction false} ItemsRun(sc: Scan, items: seq<StrItem>, k: nat)
    requires sc.Scan? && sc.inStr && !sc.esc && StrOk(items) && k <= |RenderItems(items)|
    ensures Unsettled(sc, Run(sc, RenderItems(items)[..k]))
    ensures Run(sc, RenderItems(items)) == sc.(pos := sc.pos + |RenderItems(items)|)
    decreases |items|
  {
    var t := RenderItems(items);
    if items == [] {
      assert t[..k] == "";
    } else {
      assert StrItemOk(items[0]);
      var head := match items[0] case Unescaped(c) => [c] case Escape(c) => ['\\', c];
      var rest := RenderItems(items[1..]);
      assert t == head + rest;
      HeadRun(sc, items[0], head);
      var mid := Run(sc, head);
      RunSplit(sc, head, rest);
      ItemsRun(mid, items[1..], if k >= |head| then k - |head| else 0);
      if k >= |head| {
        assert t[..k] == head + rest[..k - |head|];
        RunSplit(sc, head, rest[..k - |head|]);
      } else {
        assert t[..k] == head[..k];
      }
    }
  }

  lemma PlainStep(sc: Scan, c: char)
    requires sc.Scan? && sc.inStr && !sc.esc && c != '"' && c != '\\'
    ensures Step(sc, c) == sc.(pos := sc.pos + 1) && Unsettled(sc, Step(sc, c)) && Unsettled(sc, sc)
  {}

  lemma EscapeSteps(sc: Scan, c: char)
    requires sc.Scan? && sc.inStr && !sc.esc
    ensures var mid := Step(sc, '\\');
      mid.Scan? && Step(mid, c) == sc.(pos := sc.pos + 2)
      && Unsettled(sc, sc) && Unsettled(sc, mid) && Unsettled(sc, Step(mid, c))
  {}

  lemma OneCharRun(sc: Scan, c: char, k: nat)
    requires sc.Scan? && sc.inStr && !sc.esc && c != '"' && c != '\\' && k <= 1
    ensures Run(sc, [c]) == sc.(pos := sc.pos + 1) && Unsettled(sc, Run(sc, [c][..k]))
  {
    hide *;
    PlainStep(sc, c);
    RunOne(sc, c);
    EmptyRun(sc);
    if k == 0 { assert [c][..k] == ""; } else { assert [c][..k] == [c]; }
  }

  lemma TwoCharRun(sc: Scan, c: char, k: nat)
    requires sc.Scan? && sc.inStr && !sc.esc && k <= 2
    ensures Run(sc, ['\\', c]) == sc.(pos := sc.pos + 2) && Unsettled(sc, Run(sc, ['\\', c][..k]))
  {
    hide *;
    var head := ['\\', c];
    EscapeSteps(sc, c);
    EmptyRun(sc);
    RunOne(sc, '\\');
    RunOne(Step(sc, '\\'), c);
    RunSplit(sc, ['\\'], [c]);
    assert head == ['\\'] + [c];
    if k == 0 { assert head[..k] == ""; } else if k == 1 { assert head[..k] == ['\\']; } else { assert head[..k] == head; }
  }

  lemma HeadRun(sc: Scan, x: StrItem, head: string)
    requires sc.Scan? && sc.inStr && !sc.esc && StrItemOk(x)
    requires head == match x case Unescaped(c) => [c] case Escape(c) => ['\\', c]
    ensures Run(sc, head) == sc.(pos := sc.pos + |head|)
    ensures forall k :: 0 <= k <= |head| ==> Unsettled(sc, Run(sc, head[..k]))
  {
    forall k | 0 <= k <= |head|
      ensures Run(sc, head) == sc.(pos := sc.pos + |head|) && Unsettled(sc, Run(sc, head[..k]))
    {
      if x.Unescaped? {
        assert x.c != '"' && x.c != '\\';
        hide *;
        OneCharRun(sc, head[0], k);
        assert head == [head[0]];
      } else {
        hide *;
        TwoCharRun(sc, head[1], k);
        assert head == ['\\', head[1]];
      }
    }
    assert Run(sc, head) == sc.(pos := sc.pos + |head|) by { assert 0 <= |head|; }
  }

  lemma EmptyRun(sc: Scan)
    ensures Run(sc, "") == sc
  {}

  lemma StrNeutral(items: seq<StrItem>, floor: int)
    requires StrOk(items)
    ensures Neutral(RenderStr(items), floor)
  {
    var body := RenderItems(items);
    forall sc | Idle(sc) && sc.depth >= floor ensures NeutralAt(RenderStr(items), sc) {
      var mid := Step(sc, '"');
      assert body[..|body|] == body;
      forall k | 0 <= k <= |body|
        ensures Unsettled(mid, Run(mid, body[..k])) && Run(mid, body) == mid.(pos := mid.pos + |body|)
      {
        ItemsRun(mid, items, k);
      }
      assert Run(mid, body[..0]) == mid;
      WrapAt('"', body, '"', sc);
      assert RenderStr(items) == ['"'] + body + ['"'];
    }
  }

  lemma RunOne(sc: Scan, c: char)
    ensures Run(sc, [c]) == Step(sc, c)
  {
    assert [c][..0] == "";
  }

  /** Inside brackets or braces nothing changes either, once we are in a step. */
  lemma WrapNeutral(open: char, inner: string, close: char)
    requires (open == '{' && close == '}') || (open == '[' && close == ']')
    requires Neutral(inner, 1)
    ensures Neutral([open] + inner + [close], 1)
  {
    forall sc | Idle(sc) && sc.depth >= 1 ensures NeutralAt([open] + inner + [close], sc) {
      BracketsAt(open, inner, close, sc);
    }
  }

  lemma OpenClose(open: char, close: char, sc: Scan, n: nat)
    requires (open == '{' && close == '}') || (open == '[' && close == ']')
    requires Idle(sc) && sc.depth >= 1
    ensures var mid := Step(sc, open);
      && Idle(mid) && mid.depth >= 1 && Unsettled(sc, mid)
      && Step(mid.(pos := mid.pos + n), close) == sc.(pos := sc.pos + n + 2)
  {}

  lemma NeutralRun(t: string, sc: Scan)
    requires Idle(sc) && sc.depth >= 1 && Neutral(t, 1)
    ensures NeutralAt(t, sc) && Run(sc, t) == sc.(pos := sc.pos + |t|)
  {
    assert NeutralAt(t, sc);
  }

  lemma BracketsAt(open: char, inner: string, close: char, sc: Scan)
    requires (open == '{' && close == '}') || (open == '[' && close == ']')
    requires Neutral(inner, 1) && Idle(sc) && sc.depth >= 1
    ensures NeutralAt([open] + inner + [close], sc)
  {
    hide NeutralAt, Neutral, Run, Step, Unsettled;
    OpenClose(open, close, sc, |inner|);
    NeutralRun(inner, Step(sc, open));
    WrapAt(open, inner, close, sc);
  }

  lemma WrapAt(open: char, inner: string, close: char, sc: Scan)
    requires sc.Scan? && Step(sc, open).Scan? && Unsettled(sc, Step(sc, open)) && NeutralAt(inner, Step(sc, open))
    requires Step(Run(Step(sc, open), inner), close) == sc.(pos := sc.pos + |inner| + 2)
    ensures NeutralAt([open] + inner + [close], sc)
  {
    var t, mid := [open] + inner + [close], Step(sc, open);
    RunOne(sc, open);
    RunSplit(sc, [open], inner);
    RunSplit(sc, [open] + inner, [close]);
    RunOne(mid.(pos := mid.pos + |inner|), close);
    forall k | 0 <= k <= |t| ensures Unsettled(sc, Run(sc, t[..k])) {
      if k == 0 {
        assert t[..k] == "";
      } else if k == |t| {
        assert t[..k] == t;
      } else {
        assert t[..k] == [open] + inner[..k - 1];
        RunSplit(sc, [open], inner[..k - 1]);
      }
    }
  }

  lemma {:induction false} JsonNeutral(j: Json)
    requires JsonOk(j)
    ensures Neutral(Render(j), 1)
    ensures j.Obj? ==> Neutral(Inside(j), 1)
    decreases j, 1
  {
    match j
    case Str(items) => StrNeutral(items, 1);
    case Atom(text) => SilentNeutral(text, 1);
    case Arr(blank, elems) =>
      if elems == [] { SilentNeutral(blank, 1); } else { ElemsNeutral(elems); }
      WrapNeutral('[', if elems == [] then blank else RenderElems(elems), ']');
    case Obj(blank, members) =>
      if members == [] { SilentNeutral(blank, 1); } else { MembersNeutral(members); }
      WrapNeutral('{', Inside(j), '}');
  }

  lemma {:induction false} ElemNeutral(e: Elem)
    requires ElemOk(e)
    ensures Neutral(RenderElem(e), 1)
    decreases e
  {
    JsonNeutral(e.value);
    SilentNeutral(e.before, 1);
    SilentNeutral(e.after, 1);
    NeutralConcat(e.before, Render(e.value), 1);
    NeutralConcat(e.before + Render(e.value), e.after, 1);
  }

  lemma {:induction false} ElemsNeutral(elems: seq<Elem>)
    requires forall e :: e in elems ==> ElemOk(e)
    ensures Neutral(RenderElems(elems), 1)
    decreases elems
  {
    if elems == [] {
      SilentNeutral("", 1);
    } else {
      ElemNeutral(elems[0]);
      if |elems| == 1 {
        assert RenderElem(elems[0]) + "" == RenderElem(elems[0]);
      } else {
        ElemsNeutral(elems[1..]);
        SilentNeutral(",", 1);
        NeutralConcat(",", RenderElems(elems[1..]), 1);
        NeutralConcat(RenderElem(elems[0]), "," + RenderElems(elems[1..]), 1);
      }
    }
  }

  lemma {:induction false} MemberNeutral(m: Member)
    requires MemberOk(m)
    ensures Neutral(RenderMember(m), 1)
    decreases m
  {
    SilentNeutral(m.before, 1);
    StrNeutral(m.key, 1);
    SilentNeutral(m.colon, 1);
    SilentNeutral(":", 1);
    ElemNeutral(m.elem);
    NeutralConcat(m.before, RenderStr(m.key), 1);
    NeutralConcat(m.before + RenderStr(m.key), m.colon, 1);
    NeutralConcat(m.before + RenderStr(m.key) + m.colon, ":", 1);
    NeutralConcat(m.before + RenderStr(m.key) + m.colon + ":", RenderElem(m.elem), 1);
  }

  lemma {:induction false} MembersNeutral(members: seq<Member>)
    requires forall m :: m in members ==> MemberOk(m)
    ensures Neutral(RenderMembers(members), 1)
    decreases members
  {
    if members == [] {
      SilentNeutral("", 1);
    } else {
      MemberNeutral(members[0]);
      if |members| == 1 {
        assert RenderMember(members[0]) + "" == RenderMember(members[0]);
      } else {
        MembersNeutral(members[1..]);
        SilentNeutral(",", 1);
        NeutralConcat(",", RenderMembers(members[1..]), 1);
        NeutralConcat(RenderMember(members[0]), "," + RenderMembers(members[1..]), 1);
      }
    }
  }

  // ---- Steps at the top of the array ----

  /** The steps of a plan: JSON objects. */
  predicate StepsOk(steps: seq<Elem>) {
    forall e :: e in steps ==> ElemOk(e) && e.value.Obj?
  }

  /** The text of a step up to and including its closing brace. */
  function Whole(e: Elem): string {
    e.before + Render(e.value)
  }

  /** The array's text up to and including the closing brace of its m-th step. */
  function Through(steps: seq<Elem>, m: nat): string
    requires 1 <= m <= |steps|
  {
    if m == 1 then Whole(steps[0]) else RenderElem(steps[0]) + "," + Through(steps[1..], m - 1)
  }

  /** A cut c characters into the array leaves exactly m steps closed. */
  predicate ClosedBy(steps: seq<Elem>, c: nat, m: nat)
    requires m <= |steps|
  {
    && (m > 0 ==> |Through(steps, m)| <= c)
    && (m < |steps| ==> c < |Through(steps, m + 1)|)
  }

  /** After the blanks and the opening brace of a step. */
  lemma StepOpens(e: Elem, sc: Scan)
    requires ElemOk(e) && e.value.Obj? && Idle(sc) && sc.depth == 0
    ensures Run(sc, e.before + "{") == sc.(pos := sc.pos + |e.before| + 1, depth := 1)
  {
    SilentRun(sc, e.before);
    RunSplit(sc, e.before, "{");
    RunOne(sc.(pos := sc.pos + |e.before|), '{');
  }

  lemma WholeIs(e: Elem)
    requires e.value.Obj?
    ensures Whole(e) == e.before + "{" + Inside(e.value) + "}"
  {
    assert Render(e.value) == "{" + Inside(e.value) + "}";
  }

  lemma StepInside(e: Elem, sc: Scan)
    requires ElemOk(e) && e.value.Obj? && Idle(sc) && sc.depth == 1
    ensures NeutralAt(Inside(e.value), sc)
  {
    JsonNeutral(e.value);
  }

  lemma WholeCloses(e: Elem, sc: Scan)
    requires ElemOk(e) && e.value.Obj? && Idle(sc) && sc.depth == 0
    ensures Run(sc, Whole(e)) == sc.(pos := sc.pos + |Whole(e)|, lastClose := sc.pos + |Whole(e)| - 1)
  {
    var lead, inner := e.before + "{", Inside(e.value);
    WholeIs(e);
    StepOpens(e, sc);
    var mid := Run(sc, lead);
    StepInside(e, mid);
    RunSplit(sc, lead, inner);
    RunSplit(sc, lead + inner, "}");
    RunOne(mid.(pos := mid.pos + |inner|), '}');
  }

  lemma WholePrefix(e: Elem, sc: Scan, k: nat)
    requires ElemOk(e) && e.value.Obj? && Idle(sc) && sc.depth == 0 && k < |Whole(e)|
    ensures Unsettled(sc, Run(sc, Whole(e)[..k]))
  {
    var lead, inner := e.before + "{", Inside(e.value);
    WholeIs(e);
    StepOpens(e, sc);
    if k <= |e.before| {
      assert Whole(e)[..k] == e.before[..k];
      SilentRun(sc, e.before[..k]);
    } else {
      StepInside(e, Run(sc, lead));
      assert Whole(e)[..k] == lead + inner[..k - |lead|];
      RunSplit(sc, lead, inner[..k - |lead|]);
    }
  }

  /** A closed step, then text the scanner does not react to. */
  lemma WholeThen(e: Elem, sc: Scan, silent: string)
    requires ElemOk(e) && e.value.Obj? && Idle(sc) && sc.depth == 0 && Silent(silent)
    ensures Run(sc, Whole(e) + silent)
      == sc.(pos := sc.pos + |Whole(e)| + |silent|, lastClose := sc.pos + |Whole(e)| - 1)
  {
    WholeCloses(e, sc);
    RunSplit(sc, Whole(e), silent);
    SilentRun(Run(sc, Whole(e)), silent);
  }

  /** Where the last close is after c characters of the array, m steps closed. */
  ghost predicate ScannedTo(steps: seq<Elem>, c: nat, m: nat, sc: Scan, r: Scan)
    requires m <= |steps|
  {
    && sc.Scan? && r.Scan?
    && r.lastClose == (if m == 0 then sc.lastClose else sc.pos + |Through(steps, m)| - 1)
    && (c == |RenderElems(steps)| ==> Idle(r) && r.depth == 0)
  }

  lemma InFirstStep(steps: seq<Elem>, c: nat, m: nat, sc: Scan)
    requires StepsOk(steps) && steps != [] && m <= |steps| && ClosedBy(steps, c, m)
    requires c <= |RenderElem(steps[0])| && Idle(sc) && sc.depth == 0
    ensures ScannedTo(steps, c, m, sc, Run(sc, RenderElems(steps)[..c]))
  {
    var e := steps[0];
    var whole, body := Whole(e), RenderElems(steps);
    ThroughAtLeast(steps, m);
    assert whole <= body;
    if c < |whole| {
      WholePrefix(e, sc, c);
      assert body[..c] == whole[..c];
    } else {
      assert body[..c] == whole + e.after[..c - |whole|];
      WholeThen(e, sc, e.after[..c - |whole|]);
    }
  }

  lemma {:induction false} RunSteps(steps: seq<Elem>, c: nat, m: nat, sc: Scan)
    requires StepsOk(steps) && m <= |steps| && ClosedBy(steps, c, m)
    requires c <= |RenderElems(steps)| && Idle(sc) && sc.depth == 0
    ensures ScannedTo(steps, c, m, sc, Run(sc, RenderElems(steps)[..c]))
    decreases |steps|
  {
    if steps == [] {
      assert RenderElems(steps)[..c] == "";
    } else if c <= |RenderElem(steps[0])| {
      hide *;
      InFirstStep(steps, c, m, sc);
    } else {
      hide Run, RenderElem, Whole;
      var e := steps[0];
      var sc' := PastFirst(steps, c, sc);
      ThroughAtLeast(steps, m);
      RunSteps(steps[1..], c - |RenderElem(e)| - 1, m - 1, sc');
    }
  }

  lemma ElemThen(e: Elem, sc: Scan)
    requires ElemOk(e) && e.value.Obj? && Idle(sc) && sc.depth == 0
    ensures Run(sc, RenderElem(e) + ",")
      == sc.(pos := sc.pos + |RenderElem(e)| + 1, lastClose := sc.pos + |Whole(e)| - 1)
  {
    WholeThen(e, sc, e.after + ",");
    assert Whole(e) + (e.after + ",") == RenderElem(e) + ",";
  }

  lemma FirstAndRest(steps: seq<Elem>, c: nat)
    requires steps != [] && |RenderElem(steps[0])| < c <= |RenderElems(steps)|
    ensures |steps| > 1 && RenderElems(steps) == RenderElem(steps[0]) + "," + RenderElems(steps[1..])
    ensures RenderElems(steps)[..c]
      == RenderElem(steps[0]) + "," + RenderElems(steps[1..])[..c - |RenderElem(steps[0])| - 1]
  {
    hide RenderElem;
    var lead, rest := RenderElem(steps[0]) + ",", RenderElems(steps[1..]);
    assert RenderElems(steps) == lead + rest;
    assert (lead + rest)[..c] == lead + rest[..c - |lead|];
  }

  lemma PastFirst(steps: seq<Elem>, c: nat, sc: Scan) returns (sc': Scan)
    requires StepsOk(steps) && steps != [] && Idle(sc) && sc.depth == 0
    requires |RenderElem(steps[0])| < c <= |RenderElems(steps)|
    ensures sc' == sc.(pos := sc.pos + |RenderElem(steps[0])| + 1, lastClose := sc.pos + |Whole(steps[0])| - 1)
    ensures |steps| > 1 && |RenderElems(steps)| == |RenderElem(steps[0])| + 1 + |RenderElems(steps[1..])|
    ensures Run(sc, RenderElems(steps)[..c]) == Run(sc', RenderElems(steps[1..])[..c - |RenderElem(steps[0])| - 1])
  {
    var e := steps[0];
    assert ElemOk(e) && e.value.Obj?;
    hide RenderElem, RenderElems, Run, Whole, ElemOk, StepsOk;
    var lead := RenderElem(e) + ",";
    ElemThen(e, sc);
    sc' := Run(sc, lead);
    FirstAndRest(steps, c);
    RunSplit(sc, lead, RenderElems(steps[1..])[..c - |lead|]);
  }

  lemma ThroughAtLeast(steps: seq<Elem>, m: nat)
    requires m <= |steps|
    ensures m >= 1 ==> |Through(steps, m)| >= |Whole(steps[0])|
    ensures m >= 2 ==> |Through(steps, m)| > |RenderElem(steps[0])|
    ensures 1 <= m < |steps| ==> |Through(steps, m + 1)| == |RenderElem(steps[0])| + 1 + |Through(steps[1..], m)|
  {}

  // ---- The header in front of the array ----

  /** The header ends where the scanner starts: with the first '[' that follows the first `"steps"` in it. */
  predicate HeadOk(head: string) {
    head != "" && ArrayStart(head) == |head|
  }

  /** The scanner finds an array somewhere in the header, and reaches the end of the header as it set out: outside
      every string, object and closed array, with no step closed. */
  predicate Ready(head: string) {
    var start := ArrayStart(head);
    0 <= start <= |head| && Run(Start(start), head[start..]) == Start(|head|)
  }

  lemma HeadOkReady(head: string)
    requires HeadOk(head)
    ensures Ready(head)
  {
    assert head[|head|..] == "";
  }

  lemma {:induction false} FindExtends(s: string, x: string, pattern: string, i: nat)
    requires pattern != "" && Find(s, pattern, i) >= 0
    ensures Find(s + x, pattern, i) == Find(s, pattern, i)
    decreases |s| - i
  {
    assert (s + x)[i..i + |pattern|] == s[i..i + |pattern|];
    if !MatchesAt(s, pattern, i) { FindExtends(s, x, pattern, i + 1); }
  }

  lemma StartExtends(head: string, x: string)
    requires ArrayStart(head) >= 0
    ensures ArrayStart(head + x) == ArrayStart(head) <= |head|
  {
    FindExtends(head, x, STEPS_KEY, 0);
    FindExtends(head, x, "[", Find(head, STEPS_KEY, 0));
  }

  /** Where the header holds no array, text without the pattern's characters adds none. */
  lemma {:induction false} FindNone(s: string, x: string, pattern: string, i: nat)
    requires pattern != "" && Find(s, pattern, i) == -1 && i <= |s| && forall c :: c in x ==> c !in pattern
    ensures Find(s + x, pattern, i) == -1
  {
    var t := s + x;
    forall k | i <= k ensures !MatchesAt(t, pattern, k) {
      if k + |pattern| <= |s| {
        assert t[k..k + |pattern|] == s[k..k + |pattern|];
        assert !MatchesAt(s, pattern, k);
      } else if k + |pattern| <= |t| {
        var last := k + |pattern| - 1;
        assert t[last] == t[k..k + |pattern|][|pattern| - 1] && t[last] in x;
      }
    }
  }

  /** The header's scan goes on into the text behind it. */
  lemma ScanGoesOn(head: string, rest: string)
    requires ArrayStart(head) >= 0
    ensures var start := ArrayStart(head);
      start <= |head| && Salvaged(head + rest) == Trim(head + rest, Run(Run(Start(start), head[start..]), rest))
  {
    var start := ArrayStart(head);
    StartExtends(head, rest);
    assert (head + rest)[start..] == head[start..] + rest;
    RunSplit(Start(start), head[start..], rest);
  }

  lemma SalvageFrom(head: string, rest: string)
    requires Ready(head)
    ensures Salvaged(head + rest) == Trim(head + rest, Run(Start(|head|), rest))
  {
    ScanGoesOn(head, rest);
  }

  /** A scan knows where it is, is escaped only inside a string, and never forgets a closed step. */
  lemma {:induction false} ScanSane(sc: Scan, t: string)
    requires sc.Scan? && (sc.esc ==> sc.inStr) && -1 <= sc.lastClose < sc.pos
    ensures var r := Run(sc, t);
      r.Scan? ==> r.pos == sc.pos + |t| && (r.esc ==> r.inStr) && sc.lastClose <= r.lastClose < r.pos
  {
    if t != "" {
      ScanSane(sc, t[..|t| - 1]);
      hide Run;
      LastStep(sc, t);
    }
  }

  lemma LastStep(sc: Scan, t: string)
    requires t != ""
    ensures Run(sc, t) == Step(Run(sc, t[..|t| - 1]), t[|t| - 1])
  {}

  // ---- Main results ----

  /** A plan's text: everything up to the '[' of its steps array, the steps, and what follows the array. */
  function PlanText(head: string, steps: seq<Elem>, tail: string): string {
    head + RenderElems(steps) + "]" + tail
  }

  function Trimmed(steps: seq<Elem>): seq<Elem>
    requires steps != []
  {
    steps[..|steps| - 1] + [steps[|steps| - 1].(after := "")]
  }

  lemma {:induction false} ThroughIsPlan(steps: seq<Elem>, m: nat)
    requires 1 <= m <= |steps|
    ensures RenderElems(Trimmed(steps[..m])) == Through(steps, m)
    decreases m
  {
    var t := Trimmed(steps[..m]);
    if m > 1 {
      ThroughIsPlan(steps[1..], m - 1);
      assert steps[1..][..m - 1] == steps[..m][1..];
      assert t[1..] == Trimmed(steps[..m][1..]);
    } else {
      assert t == [steps[0].(after := "")];
    }
  }

  lemma TrimKeeps(head: string, whole: string, rest: string, r: Scan)
    requires whole <= rest && whole != "" && r.Scan? && r.lastClose == |head| + |whole| - 1
    ensures Trim(head + rest, r) == head + whole + "]" + "}"
  {
    assert (head + rest)[..|head| + |whole|] == head + whole;
  }

  /** Cut inside the steps array, the plan comes back with exactly the steps that had closed; and as nothing when
      none had. */
  ghost predicate ExactAt(head: string, steps: seq<Elem>, c: nat, m: nat)
    requires c <= |RenderElems(steps)| && m <= |steps|
  {
    Salvaged(head + RenderElems(steps)[..c]) == if m == 0 then "" else PlanText(head, Trimmed(steps[..m]), "}")
  }

  /** Salvage is exact behind this header: for all steps, cut anywhere. */
  ghost predicate Exact(head: string) {
    forall steps, c: nat, m: nat ::
      StepsOk(steps) && c <= |RenderElems(steps)| && m <= |steps| && ClosedBy(steps, c, m) ==> ExactAt(head, steps, c, m)
  }

  lemma SalvageExact(head: string, steps: seq<Elem>, c: nat, m: nat)
    requires Ready(head) && StepsOk(steps)
    requires c <= |RenderElems(steps)| && m <= |steps| && ClosedBy(steps, c, m)
    ensures ExactAt(head, steps, c, m)
  {
    var cut := RenderElems(steps)[..c];
    SalvageFrom(head, cut);
    RunSteps(steps, c, m, Start(|head|));
    if m > 0 {
      ThroughIsPlan(steps, m);
      ThroughPrefix(steps, m);
      TrimKeeps(head, Through(steps, m), cut, Run(Start(|head|), cut));
    }
  }

  /** The plan of one empty step. */
  const ONE_STEP: seq<Elem> := [Elem("", Obj("", []), "")]

  lemma OneStepIs()
    ensures StepsOk(ONE_STEP) && RenderElems(ONE_STEP) == "{}" == Through(ONE_STEP, 1)
    ensures ClosedBy(ONE_STEP, 0, 0) && ClosedBy(ONE_STEP, 2, 1)
  {
    var e := Elem("", Obj("", []), "");
    assert Render(e.value) == "{}" && RenderElem(e) == "{}" && Whole(e) == "{}";
    assert ONE_STEP == [e];
  }

  /** Two braces close a step from a sane scan only when it stands outside strings at depth 0. */
  lemma BracesClose(r: Scan)
    requires r.Scan? ==> (r.esc ==> r.inStr) && r.lastClose < r.pos
    ensures var r' := Run(r, "{}");
      r'.Scan? ==> r.Scan? && (r'.lastClose == r.pos + 1 ==> Idle(r) && r.depth == 0)
  {
    ClosedStays("{}");
    RunSplit(r, "{", "}");
    RunOne(r, '{');
    RunOne(Step(r, '{'), '}');
    assert "{" + "}" == "{}";
    hide Run;
  }

  lemma NeedsReady(head: string)
    requires Exact(head)
    ensures Ready(head)
  {
    OneStepIs();
    assert ExactAt(head, ONE_STEP, 0, 0) && ExactAt(head, ONE_STEP, 2, 1);
    assert "{}"[..0] == "" && "{}"[..2] == "{}" && head + "" == head;
    assert RenderElems(Trimmed(ONE_STEP[..1])) == "{}" by { ThroughIsPlan(ONE_STEP, 1); }
    assert Salvaged(head) == "" && Salvaged(head + "{}") == head + "{}" + "]" + "}";
    hide Salvaged, Trim, Run, ExactAt, RenderElems;
    if ArrayStart(head) < 0 {
      NoArrayNoSteps(head);
    } else {
      FromOneStep(head);
    }
  }

  lemma NoArrayNoSteps(head: string)
    requires ArrayStart(head) < 0
    ensures Salvaged(head + "{}") == ""
  {
    var i := Find(head, STEPS_KEY, 0);
    if i < 0 {
      FindNone(head, "{}", STEPS_KEY, 0);
    } else {
      FindExtends(head, "{}", STEPS_KEY, 0);
      FindNone(head, "{}", "[", i);
    }
  }

  lemma FromOneStep(head: string)
    requires ArrayStart(head) >= 0 && Salvaged(head) == "" && Salvaged(head + "{}") == head + "{}" + "]" + "}"
    ensures Ready(head)
  {
    var start := ArrayStart(head);
    StartExtends(head, "");
    var r := Run(Start(start), head[start..]);
    ScanSane(Start(start), head[start..]);
    ScanGoesOn(head, "");
    ScanGoesOn(head, "{}");
    assert head + "" == head;
    EmptyRun(r);
    BracesClose(r);
    var r' := Run(r, "{}");
    assert Trim(head, r) == "" && Trim(head + "{}", r') == head + "{}" + "]" + "}";
    hide Run, Salvaged;
    assert r'.Scan? && |Trim(head + "{}", r')| == r'.lastClose + 3;
  }

  /** Salvage is exact behind a header exactly when the scanner arrives at the end of the header as it set out. */
  lemma ExactIff(head: string)
    ensures Exact(head) <==> Ready(head)
  {
    if Exact(head) { NeedsReady(head); }
    if Ready(head) {
      forall steps, c: nat, m: nat
        | StepsOk(steps) && c <= |RenderElems(steps)| && m <= |steps| && ClosedBy(steps, c, m)
        ensures ExactAt(head, steps, c, m)
      {
        SalvageExact(head, steps, c, m);
      }
    }
  }

  lemma {:induction false} ThroughPrefix(steps: seq<Elem>, m: nat)
    requires 1 <= m <= |steps| && StepsOk(steps)
    ensures Through(steps, m) != "" && Through(steps, m) <= RenderElems(steps)
    decreases m
  {
    if m > 1 {
      ThroughPrefix(steps[1..], m - 1);
    } else {
      assert Whole(steps[0]) <= RenderElem(steps[0]) <= RenderElems(steps);
    }
  }

  /** Every cut inside the array leaves some number of steps closed. */
  lemma {:induction false} SomeCount(steps: seq<Elem>, c: nat) returns (m: nat)
    ensures m <= |steps| && ClosedBy(steps, c, m)
    decreases |steps|
  {
    if steps == [] || c < |Whole(steps[0])| {
      m := 0;
    } else if |steps| == 1 || c <= |RenderElem(steps[0])| {
      m := 1;
    } else {
      m := SomeCount(steps[1..], c - |RenderElem(steps[0])| - 1);
      m := m + 1;
    }
  }

  lemma ArrayCloses(steps: seq<Elem>, tail: string, sc: Scan)
    requires StepsOk(steps) && Idle(sc) && sc.depth == 0
    ensures Run(sc, RenderElems(steps) + ("]" + tail)) == Closed
  {
    var body := RenderElems(steps);
    var m := SomeCount(steps, |body|);
    RunSteps(steps, |body|, m, sc);
    assert body[..|body|] == body;
    RunSplit(sc, body, "]" + tail);
    RunSplit(Run(sc, body), "]", tail);
    RunOne(Run(sc, body), ']');
    ClosedStays(tail);
  }

  /** Once the array has closed nothing was cut from it, and there is nothing to salvage, whatever follows. */
  lemma NothingToSalvage(head: string, steps: seq<Elem>, tail: string)
    requires Ready(head) && StepsOk(steps)
    ensures Salvaged(PlanText(head, steps, tail)) == ""
  {
    var rest := RenderElems(steps) + ("]" + tail);
    assert PlanText(head, steps, tail) == head + rest;
    SalvageFrom(head, rest);
    ArrayCloses(steps, tail, Start(|head|));
  }

  lemma TrimmedOk(steps: seq<Elem>)
    requires steps != [] && StepsOk(steps)
    ensures StepsOk(Trimmed(steps))
  {
    var last := steps[|steps| - 1];
    assert last in steps;
    forall e | e in steps[..|steps| - 1] ensures e in steps {}
  }

  /** Salvaging what salvage returned gives nothing more. */
  lemma SalvageOnce(head: string, steps: seq<Elem>, c: nat)
    requires Ready(head) && StepsOk(steps) && c <= |RenderElems(steps)|
    ensures Salvaged(Salvaged(head + RenderElems(steps)[..c])) == ""
  {
    var m := SomeCount(steps, c);
    SalvageExact(head, steps, c, m);
    if m > 0 {
      forall e | e in steps[..m] ensures e in steps {}
      TrimmedOk(steps[..m]);
      NothingToSalvage(head, Trimmed(steps[..m]), "}");
    }
  }

  /** A cut before the steps leaves nothing. */
  lemma CutInHeader(head: string, c: nat)
    requires Ready(head) && c <= |head|
    ensures Salvaged(head[..c]) == ""
  {
    var cut, more, start := head[..c], head[c..], ArrayStart(head[..c]);
    assert cut + more == head;
    if start >= 0 {
      StartExtends(cut, more);
      var r := Run(Start(start), cut[start..]);
      assert head[start..] == cut[start..] + more;
      RunSplit(Start(start), cut[start..], more);
      ScanSane(Start(start), cut[start..]);
      if r.Scan? { ScanSane(r, more); }
      ClosedStays(more);
      hide Run;
    }
  }

  lemma KeyFoundFirst(pre: string, rest: string)
    requires forall k :: 0 <= k ==> !MatchesAt(pre, STEPS_KEY, k)
    requires pre != "" && pre[|pre| - 1] != 's'
    ensures Find(pre + STEPS_KEY + rest, STEPS_KEY, 0) == |pre|
  {
    var head := pre + STEPS_KEY + rest;
    assert head[|pre|..|pre| + 7] == STEPS_KEY;
    forall k | 0 <= k < |pre| ensures !MatchesAt(head, STEPS_KEY, k) {
      if k + 7 <= |pre| {
        assert head[k..k + 7] == pre[k..k + 7];
        assert !MatchesAt(pre, STEPS_KEY, k);
      } else {
        assert head[|pre| - 1] == head[k..k + 7][|pre| - 1 - k] && head[|pre|] == head[k..k + 7][|pre| - k];
      }
    }
    FindIs(head, STEPS_KEY, 0, |pre|);
  }

  lemma BracketFoundLast(pre: string, between: string)
    requires forall i :: 0 <= i < |between| ==> between[i] != '['
    ensures Find(pre + between + "[", "[", |pre|) == |pre| + |between|
  {
    var head := pre + between + "[";
    assert head[|head| - 1..|head|] == "[";
    forall k | |pre| <= k < |head| - 1 ensures !MatchesAt(head, "[", k) {
      assert head[k..k + 1] == [between[k - |pre|]];
    }
    FindIs(head, "[", |pre|, |head| - 1);
  }

  lemma KeyHasNoBracket(mid: string)
    requires '[' !in mid
    ensures var between := STEPS_KEY + mid; forall i :: 0 <= i < |between| ==> between[i] != '['
  {
    var between := STEPS_KEY + mid;
    forall i | 0 <= i < |between| ensures between[i] != '[' {
      if i >= |STEPS_KEY| { assert between[i] == mid[i - |STEPS_KEY|] && between[i] in mid; } else { assert between[i] == STEPS_KEY[i]; }
    }
  }

  /** A header as plans write it: whatever comes first does not spell `"steps"` and does not end in an 's'. */
  lemma PlainHeadOk(pre: string, blank: string, blank': string)
    requires forall k :: 0 <= k ==> !MatchesAt(pre, STEPS_KEY, k)
    requires pre != "" && pre[|pre| - 1] != 's' && Ws(blank) && Ws(blank')
    ensures HeadOk(pre + STEPS_KEY + blank + ":" + blank' + "[")
  {
    var mid := blank + ":" + blank';
    assert '[' !in mid;
    NextArrayTaken(pre, mid);
    assert pre + STEPS_KEY + mid + "[" == pre + STEPS_KEY + blank + ":" + blank' + "[";
  }

  lemma {:induction false} FindIs(s: string, pattern: string, i: nat, r: nat)
    requires pattern != "" && i <= r && MatchesAt(s, pattern, r) && forall k :: i <= k < r ==> !MatchesAt(s, pattern, k)
    ensures Find(s, pattern, i) == r
    decreases r - i
  {
    if i < r { FindIs(s, pattern, i + 1, r); }
  }

  // ---- Headers it is not exact behind ----

  /** The scan has met the end of an array, or stands outside strings and objects. */
  ghost predicate Outside(r: Scan) {
    r.Closed? || (Idle(r) && r.depth == 0)
  }

  /** Whatever JSON value comes in an array at depth 0: the scan passes over it, or takes a ']' in it for the end. */
  lemma {:induction false} ElemPasses(e: Elem, sc: Scan)
    requires ElemOk(e) && Idle(sc) && sc.depth == 0
    ensures Outside(Run(sc, RenderElem(e)))
    decreases e, 1
  {
    hide *;
    var text := Render(e.value);
    ElemParts(e);
    SilentFirst(sc, e.before);
    var at := Run(sc, e.before);
    ValuePasses(e.value, at);
    RunSplit(sc, e.before, text);
    RunSplit(sc, e.before + text, e.after);
    StaysOutside(Run(at, text), e.after);
  }

  lemma ElemParts(e: Elem)
    requires ElemOk(e)
    ensures RenderElem(e) == e.before + Render(e.value) + e.after
    ensures Silent(e.before) && Silent(e.after) && JsonOk(e.value)
  {}

  lemma SilentFirst(sc: Scan, blank: string)
    requires Idle(sc) && sc.depth == 0 && Silent(blank)
    ensures Run(sc, blank).Scan? && Idle(Run(sc, blank)) && Run(sc, blank).depth == 0
  {
    SilentRun(sc, blank);
  }

  lemma StaysOutside(r: Scan, blank: string)
    requires Outside(r) && Silent(blank)
    ensures Outside(Run(r, blank))
  {
    if r.Closed? { ClosedStays(blank); } else { SilentRun(r, blank); }
  }

  lemma {:induction false} ValuePasses(j: Json, sc: Scan)
    requires JsonOk(j) && Idle(sc) && sc.depth == 0
    ensures Outside(Run(sc, Render(j)))
    decreases j, 0
  {
    match j
    case Str(items) =>
      StrNeutral(items, 0);
      assert NeutralAt(RenderStr(items), sc);
    case Atom(text) => SilentRun(sc, text);
    case Obj(_, _) =>
      var e := Elem("", j, "");
      assert Ws("") && Whole(e) == Render(j);
      WholeCloses(e, sc);
    case Arr(blank, elems) =>
      var inner := if elems == [] then blank else RenderElems(elems);
      var mid := Step(sc, '[');
      assert mid == sc.(pos := sc.pos + 1);
      if elems == [] { SilentRun(mid, blank); } else { ElemsPass(elems, mid); }
      assert Render(j) == "[" + inner + "]";
      hide *;
      BracketCloses(sc, inner);
  }

  /** An array at depth 0: its own ']' ends the scan, if nothing in it has. */
  lemma BracketCloses(sc: Scan, inner: string)
    requires Idle(sc) && sc.depth == 0 && Outside(Run(Step(sc, '['), inner))
    ensures Outside(Run(sc, "[" + inner + "]"))
  {
    EndCloses(Step(sc, '['), inner, "");
    RunOne(sc, '[');
    RunSplit(sc, "[", inner + "]");
    assert inner + ("]" + "") == inner + "]" && "[" + (inner + "]") == "[" + inner + "]";
    hide Run;
  }

  lemma EndCloses(sc: Scan, body: string, tail: string)
    requires Outside(Run(sc, body))
    ensures Run(sc, body + ("]" + tail)) == Closed
  {
    var r := Run(sc, body);
    RunSplit(sc, body, "]" + tail);
    RunSplit(r, "]", tail);
    RunOne(r, ']');
    ClosedStays(tail);
    hide Run;
  }

  lemma {:induction false} ElemsPass(elems: seq<Elem>, sc: Scan)
    requires (forall e :: e in elems ==> ElemOk(e)) && Idle(sc) && sc.depth == 0
    ensures Outside(Run(sc, RenderElems(elems)))
    decreases elems
  {
    if elems == [] {
      EmptyRun(sc);
    } else {
      ElemPasses(elems[0], sc);
      var first, r := RenderElem(elems[0]), Run(sc, RenderElem(elems[0]));
      if |elems| == 1 {
        assert first + "" == first;
      } else {
        var rest := RenderElems(elems[1..]);
        assert first + ("," + rest) == RenderElems(elems);
        RunSplit(sc, first, "," + rest);
        RunSplit(r, ",", rest);
        RunOne(r, ',');
        if r.Closed? { ClosedStays(rest); } else { ElemsPass(elems[1..], r.(pos := r.pos + 1)); }
      }
    }
  }

  /** Once the scan has met the end of an array in the header, nothing is ever salvaged. */
  lemma ClosedHeaderLosesAll(head: string, rest: string)
    requires ArrayStart(head) >= 0 && Run(Start(ArrayStart(head)), head[ArrayStart(head)..]) == Closed
    ensures Salvaged(head + rest) == ""
  {
    ScanGoesOn(head, rest);
    ClosedStays(rest);
  }

  /** The header matters: when the first `"steps"` is another field's value, the next array is taken for the steps;
      if that one has closed, whatever values it holds, every step of the real array is lost. */
  lemma EarlierNameHidesSteps(pre: string, mid: string, elems: seq<Elem>, tail: string)
    requires forall k :: 0 <= k ==> !MatchesAt(pre, STEPS_KEY, k)
    requires pre != "" && pre[|pre| - 1] != 's' && '[' !in mid && forall e :: e in elems ==> ElemOk(e)
    ensures Salvaged(pre + STEPS_KEY + mid + "[" + RenderElems(elems) + "]" + tail) == ""
  {
    var head, body := pre + STEPS_KEY + mid + "[", RenderElems(elems);
    NextArrayTaken(pre, mid);
    HeadOkReady(head);
    ElemsPass(elems, Start(|head|));
    hide *;
    EndCloses(Start(|head|), body, tail);
    SalvageFrom(head, body + ("]" + tail));
    TrimClosed(head + (body + ("]" + tail)));
    assert head + (body + ("]" + tail)) == pre + STEPS_KEY + mid + "[" + body + "]" + tail;
  }

  lemma TrimClosed(raw: string)
    ensures Trim(raw, Closed) == ""
  {}

  lemma NextArrayTaken(pre: string, mid: string)
    requires forall k :: 0 <= k ==> !MatchesAt(pre, STEPS_KEY, k)
    requires pre != "" && pre[|pre| - 1] != 's' && '[' !in mid
    ensures HeadOk(pre + STEPS_KEY + mid + "[")
  {
    var head, between := pre + STEPS_KEY + mid + "[", STEPS_KEY + mid;
    assert head == pre + STEPS_KEY + (mid + "[");
    KeyFoundFirst(pre, mid + "[");
    assert head == pre + between + "[";
    KeyHasNoBracket(mid);
    BracketFoundLast(pre, between);
  }

  /** {"a":"steps","b":[],"steps":[{}  has one closed step, and salvage returns nothing. */
  lemma HiddenStepExample()
    ensures Salvaged("{\"a\":" + STEPS_KEY + ",\"b\":" + "[" + "]" + (",\"steps\":[" + "{}")) == ""
  {
    var pre, tail := "{\"a\":", ",\"steps\":[" + "{}";
    forall k | 0 <= k ensures !MatchesAt(pre, STEPS_KEY, k) {}
    NoElems();
    hide Salvaged, RenderElems, MatchesAt;
    EarlierNameHidesSteps(pre, ",\"b\":", [], tail);
    assert pre + STEPS_KEY + ",\"b\":" + "[" + "" + "]" + tail == pre + STEPS_KEY + ",\"b\":" + "[" + "]" + tail;
  }

  lemma NoElems()
    ensures RenderElems([]) == ""
  {}
}
