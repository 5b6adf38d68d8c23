/** The execution budget (agent/dag.go, Budget): compare-and-swap loops run by k callers at once. */
module Budgets {

  datatype Limits = Limits(maxNodes: int, maxPerSkill: int, maxLLMCalls: int, maxObserverCalls: int)

  /** A call spawns a node unless it is an infrastructure LLM call: no skill named, LLM used. */
  predicate InfraOnly(skill: string, isLLM: bool) {
    skill == "" && isLLM
  }

  // ---- One caller at a time ----

  class Budget {
    const limits: Limits
    var nodeCount: int
    var llmCount: int
    var observerCount: int
    var perSkill: map<string, int>
    var batchPerSkill: map<string, int>

    ghost function View(): Counts
      reads this
    {
      Counts(nodeCount, llmCount, observerCount, perSkill, batchPerSkill)
    }

    constructor (limits: Limits)
      ensures this.limits == limits && View() == Counts(0, 0, 0, map[], map[])
    {
      this.limits := limits;
      nodeCount, llmCount, observerCount := 0, 0, 0;
      perSkill, batchPerSkill := map[], map[];
    }

    /** agent/dag.go, TrySpawnNode, without interference. */
    method TrySpawnNode(skill: string, isLLM: bool) returns (ok: bool)
      modifies this
      ensures ok == Grants(limits, old(View()), skill, isLLM)
      ensures View() == Charged(old(View()), skill, isLLM, ok)
      ensures ok <==>
        && ((skill == "" && isLLM) || old(nodeCount) < limits.maxNodes)
        && (isLLM ==> old(llmCount) < limits.maxLLMCalls)
        && (skill in old(batchPerSkill) && skill != "" ==> old(batchPerSkill)[skill] < limits.maxPerSkill)
        && (skill !in old(batchPerSkill) && skill != "" ==> 0 < limits.maxPerSkill)
      ensures observerCount == old(observerCount)
      ensures nodeCount == old(nodeCount) + if ok && !(skill == "" && isLLM) then 1 else 0
      ensures llmCount == old(llmCount) + if ok && isLLM then 1 else 0
      ensures !ok || skill == "" ==> perSkill == old(perSkill) && batchPerSkill == old(batchPerSkill)
      ensures ok && skill != "" ==> OneMoreOf(old(perSkill), skill, perSkill) && OneMoreOf(old(batchPerSkill), skill, batchPerSkill)
    {
      var infraOnly := skill == "" && isLLM;
      if !infraOnly {
        if nodeCount >= limits.maxNodes { return false; }
        nodeCount := nodeCount + 1;
      }
      if isLLM {
        if llmCount >= limits.maxLLMCalls {
          if !infraOnly { nodeCount := nodeCount - 1; }
          return false;
        }
        llmCount := llmCount + 1;
      }
      if skill != "" {
        var used := Get(batchPerSkill, skill);
        if used >= limits.maxPerSkill {
          if !infraOnly { nodeCount := nodeCount - 1; }
          if isLLM { llmCount := llmCount - 1; }
          return false;
        }
        perSkill := perSkill[skill := Get(perSkill, skill) + 1];
        batchPerSkill := batchPerSkill[skill := used + 1];
      }
      return true;
    }

    /** agent/dag.go, TryObserverCall, without interference. */
    method TryObserverCall() returns (ok: bool)
      modifies this
      ensures ok == (old(observerCount) < limits.maxObserverCalls)
      ensures View() == old(View()).(observers := old(observerCount) + if ok then 1 else 0)
    {
      if observerCount >= limits.maxObserverCalls { return false; }
      observerCount := observerCount + 1;
      return true;
    }

    /** agent/dag.go, ResetBatchCounters. */
    method ResetBatchCounters()
      modifies this
      ensures View() == old(View()).(batch := map[])
    {
      batchPerSkill := map[];
    }
  }

  /** That count is one higher, from nothing if it was not there, and no other has changed. */
  predicate OneMoreOf(m: map<string, int>, k: string, m': map<string, int>) {
    && m'.Keys == m.Keys + {k} && m'[k] == (if k in m then m[k] else 0) + 1
    && forall x :: x in m && x != k ==> m'[x] == m[x]
  }

  datatype Counts = Counts(nodes: int, llm: int, observers: int, total: map<string, int>, batch: map<string, int>)

  function Get(m: map<string, int>, k: string): int {
    if k in m then m[k] else 0
  }

  /** A spawn is granted when every limit it counts against has room. */
  predicate Grants(l: Limits, c: Counts, skill: string, isLLM: bool) {
    && (InfraOnly(skill, isLLM) || c.nodes < l.maxNodes)
    && (isLLM ==> c.llm < l.maxLLMCalls)
    && (skill != "" ==> Get(c.batch, skill) < l.maxPerSkill)
  }

  /** What a call leaves behind: everything it counts against when granted, nothing when refused. */
  function Charged(c: Counts, skill: string, isLLM: bool, granted: bool): Counts {
    if !granted then c
    else
      c.(nodes := c.nodes + (if InfraOnly(skill, isLLM) then 0 else 1),
         llm := c.llm + (if isLLM then 1 else 0),
         total := if skill == "" then c.total else c.total[skill := Get(c.total, skill) + 1],
         batch := if skill == "" then c.batch else c.batch[skill := Get(c.batch, skill) + 1])
  }

  // ---- k callers at once: every atomic access is one step ----

  datatype Pc =
    | Idle
    | NodeLoad                 // about to read the node counter
    | NodeCas(cur: int)        // about to swap it from cur to cur + 1
    | LlmLoad
    | LlmCas(cur: int)
    | LlmRefused               // about to give the node back, then refuse
    | FetchBatch               // about to look up the skill's batch counter
    | BatchLoad(counter: nat)
    | BatchRefused             // about to give the node back
    | BatchRefusedLlm          // about to give the LLM call back
    | AddTotal(counter: nat)
    | AddBatch(counter: nat)
    | ObserverLoad
    | ObserverCas(cur: int)

  datatype Caller = Caller(pc: Pc, skill: string, isLLM: bool)

  datatype Answer = Spawn(skill: string, isLLM: bool, granted: bool) | Observer(granted: bool)

  /** What the callers share. `cells` are the batch counters ever created; `batch` says which one a skill name
      finds now, so a reset leaves a caller that already looked up the old one adding to a counter nobody reads. */
  datatype Shared = Shared(
    nodes: int, llm: int, observers: int, total: map<string, int>, cells: seq<int>, batch: map<string, nat>)

  datatype State = State(shared: Shared, callers: seq<Caller>, answers: seq<Answer>)

  predicate Initial(s: State, k: nat) {
    && s.shared == Shared(0, 0, 0, map[], [], map[]) && s.answers == []
    && |s.callers| == k && forall t :: 0 <= t < k ==> s.callers[t].pc == Idle
  }

  /** One atomic step: the shared counters after it, where the caller is now, and what it answered, if it did. */
  datatype Effect = Effect(shared: Shared, caller: Caller, said: seq<Answer>)

  function Goto(sh: Shared, c: Caller, pc: Pc): Effect {
    Effect(sh, c.(pc := pc), [])
  }

  function Reply(sh: Shared, c: Caller, granted: bool): Effect {
    Effect(sh, c.(pc := Idle), [Spawn(c.skill, c.isLLM, granted)])
  }

  function AfterLlm(sh: Shared, c: Caller): Effect {
    if c.skill == "" then Reply(sh, c, true) else Goto(sh, c, FetchBatch)
  }

  function AfterNode(sh: Shared, c: Caller): Effect {
    if c.isLLM then Goto(sh, c, LlmLoad) else AfterLlm(sh, c)
  }

  function Begin(skill: string, isLLM: bool): Caller {
    Caller(if InfraOnly(skill, isLLM) then LlmLoad else NodeLoad, skill, isLLM)
  }

  /** The next atomic step of a caller that is inside a call. */
  function Act(l: Limits, sh: Shared, c: Caller): Effect {
    match c.pc
    case Idle => Goto(sh, c, Idle)
    case NodeLoad => if sh.nodes >= l.maxNodes then Reply(sh, c, false) else Goto(sh, c, NodeCas(sh.nodes))
    case NodeCas(cur) => if sh.nodes != cur then Goto(sh, c, NodeLoad) else AfterNode(sh.(nodes := cur + 1), c)
    case LlmLoad =>
      if sh.llm < l.maxLLMCalls then Goto(sh, c, LlmCas(sh.llm))
      else if InfraOnly(c.skill, c.isLLM) then Reply(sh, c, false)
      else Goto(sh, c, LlmRefused)
    case LlmCas(cur) => if sh.llm != cur then Goto(sh, c, LlmLoad) else AfterLlm(sh.(llm := cur + 1), c)
    case LlmRefused => Reply(sh.(nodes := sh.nodes - 1), c, false)
    case FetchBatch =>
      if c.skill in sh.batch then Goto(sh, c, BatchLoad(sh.batch[c.skill]))
      else Goto(sh.(cells := sh.cells + [0], batch := sh.batch[c.skill := |sh.cells|]), c, BatchLoad(|sh.cells|))
    case BatchLoad(i) =>
      if i < |sh.cells| && sh.cells[i] < l.maxPerSkill then Goto(sh, c, AddTotal(i)) else Goto(sh, c, BatchRefused)
    case BatchRefused =>
      var back := sh.(nodes := sh.nodes - 1);
      if c.isLLM then Goto(back, c, BatchRefusedLlm) else Reply(back, c, false)
    case BatchRefusedLlm => Reply(sh.(llm := sh.llm - 1), c, false)
    case AddTotal(i) => Goto(sh.(total := sh.total[c.skill := Get(sh.total, c.skill) + 1]), c, AddBatch(i))
    case AddBatch(i) => Reply(if i < |sh.cells| then sh.(cells := sh.cells[i := sh.cells[i] + 1]) else sh, c, true)
    case ObserverLoad =>
      if sh.observers >= l.maxObserverCalls then Effect(sh, c.(pc := Idle), [Observer(false)])
      else Goto(sh, c, ObserverCas(sh.observers))
    case ObserverCas(cur) =>
      if sh.observers != cur then Goto(sh, c, ObserverLoad)
      else Effect(sh.(observers := cur + 1), c.(pc := Idle), [Observer(true)])
  }

  datatype Move =
    | CallSpawn(t: nat, skill: string, isLLM: bool)
    | CallObserver(t: nat)
    | Continue(t: nat)
    | ForgetBatch(skill: string)  // one deletion of a reset

  function Moved(s: State, t: nat, e: Effect): State
    requires t < |s.callers|
  {
    State(e.shared, s.callers[t := e.caller], s.answers + e.said)
  }

  ghost predicate Step(l: Limits, s: State, m: Move, s': State) {
    match m
    case CallSpawn(t, skill, isLLM) =>
      t < |s.callers| && s.callers[t].pc.Idle? && s' == Moved(s, t, Effect(s.shared, Begin(skill, isLLM), []))
    case CallObserver(t) =>
      t < |s.callers| && s.callers[t].pc.Idle? && s' == Moved(s, t, Goto(s.shared, s.callers[t], ObserverLoad))
    case Continue(t) =>
      t < |s.callers| && !s.callers[t].pc.Idle? && s' == Moved(s, t, Act(l, s.shared, s.callers[t]))
    case ForgetBatch(skill) => s' == s.(shared := s.shared.(batch := s.shared.batch - {skill}))
  }

  /** An interleaving: k callers, any moves in any order. */
  ghost predicate Run(l: Limits, k: nat, states: seq<State>, moves: seq<Move>) {
    && |states| == |moves| + 1 && Initial(states[0], k)
    && forall i :: 0 <= i < |moves| ==> Step(l, states[i], moves[i], states[i + 1])
  }

  // ---- Counting ----

  function Sum(cs: seq<Caller>, f: Caller -> int): int {
    if cs == [] then 0 else Sum(cs[..|cs| - 1], f) + f(cs[|cs| - 1])
  }

  lemma {:induction false} SumUpdate(cs: seq<Caller>, t: nat, c: Caller, f: Caller -> int)
    requires t < |cs|
    ensures Sum(cs[t := c], f) == Sum(cs, f) - f(cs[t]) + f(c)
    decreases |cs|
  {
    var init := cs[..|cs| - 1];
    if t == |cs| - 1 {
      assert cs[t := c][..|cs| - 1] == init;
    } else {
      assert cs[t := c][..|cs| - 1] == init[t := c];
      SumUpdate(init, t, c, f);
    }
  }

  lemma {:induction false} SumBounds(cs: seq<Caller>, f: Caller -> int)
    requires forall c :: 0 <= f(c) <= 1
    ensures 0 <= Sum(cs, f) <= |cs|
    ensures (exists t :: 0 <= t < |cs| && f(cs[t]) == 0) ==> Sum(cs, f) < |cs|
    ensures (forall t :: 0 <= t < |cs| ==> f(cs[t]) == 0) ==> Sum(cs, f) == 0
  {
    if cs != [] { SumBounds(cs[..|cs| - 1], f); }
  }

  /** The caller has taken a node and not yet said what became of it. */
  function HoldsNode(c: Caller): int {
    match c.pc
    case Idle | NodeLoad | NodeCas(_) | BatchRefusedLlm | ObserverLoad | ObserverCas(_) => 0
    case _ => if InfraOnly(c.skill, c.isLLM) then 0 else 1
  }

  function HoldsLlm(c: Caller): int {
    match c.pc
    case FetchBatch | BatchLoad(_) | BatchRefused | BatchRefusedLlm | AddTotal(_) | AddBatch(_) =>
      if c.isLLM then 1 else 0
    case _ => 0
  }

  /** The caller has seen room on batch counter i and has not added to it yet. */
  function Passing(i: nat): Caller -> int {
    (c: Caller) => if c.pc == AddTotal(i) || c.pc == AddBatch(i) then 1 else 0
  }

  predicate GrantedNode(a: Answer) {
    a.Spawn? && a.granted && !InfraOnly(a.skill, a.isLLM)
  }

  predicate GrantedLlm(a: Answer) {
    a.Spawn? && a.granted && a.isLLM
  }

  function Tally(answers: seq<Answer>, p: Answer -> bool): nat {
    if answers == [] then 0
    else Tally(answers[..|answers| - 1], p) + (if p(answers[|answers| - 1]) then 1 else 0)
  }

  lemma {:induction false} TallyConcat(a: seq<Answer>, b: seq<Answer>, p: Answer -> bool)
    ensures Tally(a + b, p) == Tally(a, p) + Tally(b, p)
  {
    if b == [] {
      assert a + b == a;
    } else {
      assert (a + b)[..|a + b| - 1] == a + b[..|b| - 1];
      TallyConcat(a, b[..|b| - 1], p);
    }
  }

  function AtLeastZero(x: int): int {
    if x < 0 then 0 else x
  }

  // ---- What one caller's step keeps ----

  ghost predicate CallerOk(l: Limits, sh: Shared, c: Caller) {
    match c.pc
    case NodeCas(cur) => cur < l.maxNodes && !InfraOnly(c.skill, c.isLLM)
    case NodeLoad => !InfraOnly(c.skill, c.isLLM)
    case LlmCas(cur) => cur < l.maxLLMCalls && c.isLLM
    case LlmLoad => c.isLLM
    case LlmRefused => c.isLLM && c.skill != ""
    case FetchBatch => c.skill != ""
    case BatchLoad(i) => c.skill != "" && i < |sh.cells|
    case BatchRefused => c.skill != ""
    case BatchRefusedLlm => c.skill != "" && c.isLLM
    case AddTotal(i) => c.skill != "" && i < |sh.cells| && l.maxPerSkill > 0
    case AddBatch(i) => c.skill != "" && i < |sh.cells| && l.maxPerSkill > 0
    case ObserverCas(cur) => cur < l.maxObserverCalls
    case _ => true
  }

  ghost predicate SharedOk(l: Limits, sh: Shared) {
    && (forall name :: name in sh.batch ==> sh.batch[name] < |sh.cells|)
    && (forall i :: 0 <= i < |sh.cells| ==> sh.cells[i] >= 0)
  }

  lemma ActShared(l: Limits, sh: Shared, c: Caller)
    requires SharedOk(l, sh)
    ensures SharedOk(l, Act(l, sh, c).shared) && |sh.cells| <= |Act(l, sh, c).shared.cells|
  {}

  lemma ActCaller(l: Limits, sh: Shared, c: Caller)
    requires CallerOk(l, sh, c) && SharedOk(l, sh)
    ensures CallerOk(l, Act(l, sh, c).shared, Act(l, sh, c).caller)
  {}

  lemma ActOk(l: Limits, sh: Shared, c: Caller)
    requires CallerOk(l, sh, c) && SharedOk(l, sh)
    ensures var e := Act(l, sh, c);
      SharedOk(l, e.shared) && CallerOk(l, e.shared, e.caller) && |sh.cells| <= |e.shared.cells|
  {
    hide *;
    ActShared(l, sh, c);
    ActCaller(l, sh, c);
  }

  /** A step changes the counters by what it grants plus what its caller newly holds. */
  lemma ActBalances(l: Limits, sh: Shared, c: Caller)
    requires CallerOk(l, sh, c)
    ensures var e := Act(l, sh, c);
      && e.shared.nodes - sh.nodes == Tally(e.said, GrantedNode) + HoldsNode(e.caller) - HoldsNode(c)
      && e.shared.llm - sh.llm == Tally(e.said, GrantedLlm) + HoldsLlm(e.caller) - HoldsLlm(c)
  {
    var e := Act(l, sh, c);
    if e.said != [] { assert e.said[..|e.said| - 1] == []; }
  }

  /** No counter is raised past its maximum. */
  lemma ActCapped(l: Limits, sh: Shared, c: Caller)
    requires CallerOk(l, sh, c)
    ensures var e := Act(l, sh, c).shared;
      && (e.nodes <= sh.nodes || e.nodes <= l.maxNodes)
      && (e.llm <= sh.llm || e.llm <= l.maxLLMCalls)
      && sh.observers <= e.observers && (e.observers == sh.observers || e.observers <= l.maxObserverCalls)
  {}

  /** A batch counter and the number of callers about to raise it only grow together when there was room. */
  lemma ActPasses(l: Limits, sh: Shared, c: Caller, i: nat)
    requires CallerOk(l, sh, c) && SharedOk(l, sh) && i < |sh.cells|
    ensures var e := Act(l, sh, c);
      && |sh.cells| <= |e.shared.cells| && e.shared.cells[i] >= sh.cells[i]
      && var before, after := sh.cells[i] + Passing(i)(c), e.shared.cells[i] + Passing(i)(e.caller);
         after <= before
         || (after == before + 1 && sh.cells[i] < l.maxPerSkill && e.shared.cells[i] == sh.cells[i] && Passing(i)(c) == 0)
  {}

  // ---- The invariant of every interleaving ----

  ghost predicate Inv(l: Limits, s: State) {
    CallersOk(l, s) && Balanced(s) && Bounded(l, s) && CellsOk(l, s)
  }

  ghost predicate CallersOk(l: Limits, s: State) {
    SharedOk(l, s.shared) && forall t :: 0 <= t < |s.callers| ==> CallerOk(l, s.shared, s.callers[t])
  }

  /** The counters are exactly what was granted plus what callers still hold. */
  ghost predicate Balanced(s: State) {
    && s.shared.nodes == Tally(s.answers, GrantedNode) + Sum(s.callers, HoldsNode)
    && s.shared.llm == Tally(s.answers, GrantedLlm) + Sum(s.callers, HoldsLlm)
  }

  ghost predicate Bounded(l: Limits, s: State) {
    && 0 <= s.shared.nodes <= AtLeastZero(l.maxNodes)
    && 0 <= s.shared.llm <= AtLeastZero(l.maxLLMCalls)
    && 0 <= s.shared.observers <= AtLeastZero(l.maxObserverCalls)
  }

  ghost predicate CellOk(l: Limits, s: State, i: nat)
    requires i < |s.shared.cells|
  {
    && s.shared.cells[i] >= 0
    && s.shared.cells[i] + Sum(s.callers, Passing(i)) <=
      if l.maxPerSkill <= 0 then 0 else l.maxPerSkill + |s.callers| - 1
  }

  ghost predicate CellsOk(l: Limits, s: State) {
    forall i :: 0 <= i < |s.shared.cells| ==> CellOk(l, s, i)
  }

  /** How a caller's move looks, whatever it was. */
  ghost predicate MovesBy(l: Limits, s: State, t: nat, e: Effect)
    requires t < |s.callers|
  {
    || (e == Act(l, s.shared, s.callers[t]) && !s.callers[t].pc.Idle?)
    || (e.shared == s.shared && e.said == [] && s.callers[t].pc.Idle? &&
        (e.caller.pc == ObserverLoad || e.caller == Begin(e.caller.skill, e.caller.isLLM)))
  }

  lemma MoveKeepsCallers(l: Limits, s: State, t: nat, e: Effect)
    requires CallersOk(l, s) && t < |s.callers| && MovesBy(l, s, t, e)
    ensures CallersOk(l, Moved(s, t, e))
    ensures |s.shared.cells| <= |e.shared.cells|
  {
    ActOk(l, s.shared, s.callers[t]);
  }

  lemma MoveKeepsBalance(l: Limits, s: State, t: nat, e: Effect)
    requires CallersOk(l, s) && t < |s.callers| && MovesBy(l, s, t, e) && Balanced(s)
    ensures Balanced(Moved(s, t, e))
  {
    ActBalances(l, s.shared, s.callers[t]);
    SumUpdate(s.callers, t, e.caller, HoldsNode);
    SumUpdate(s.callers, t, e.caller, HoldsLlm);
    TallyConcat(s.answers, e.said, GrantedNode);
    TallyConcat(s.answers, e.said, GrantedLlm);
  }

  lemma MoveKeepsBounds(l: Limits, s: State, t: nat, e: Effect)
    requires CallersOk(l, s) && t < |s.callers| && MovesBy(l, s, t, e) && Balanced(s) && Bounded(l, s)
    ensures Bounded(l, Moved(s, t, e))
  {
    MoveKeepsBalance(l, s, t, e);
    ActCapped(l, s.shared, s.callers[t]);
    SumBounds(Moved(s, t, e).callers, HoldsNode);
    SumBounds(Moved(s, t, e).callers, HoldsLlm);
  }

  lemma MoveKeepsCell(l: Limits, s: State, t: nat, e: Effect, i: nat)
    requires CallersOk(l, s) && t < |s.callers| && MovesBy(l, s, t, e)
    requires i < |s.shared.cells| <= |e.shared.cells| && CellOk(l, s, i)
    ensures CellOk(l, Moved(s, t, e), i)
  {
    SumUpdate(s.callers, t, e.caller, Passing(i));
    ActPasses(l, s.shared, s.callers[t], i);
    SumBounds(s.callers, Passing(i));
  }

  lemma NewCell(l: Limits, s: State, t: nat, e: Effect, i: nat)
    requires CallersOk(l, s) && t < |s.callers| && MovesBy(l, s, t, e)
    requires |s.shared.cells| <= i < |e.shared.cells|
    ensures CellOk(l, Moved(s, t, e), i)
  {
    forall u | 0 <= u < |s.callers| ensures Passing(i)(Moved(s, t, e).callers[u]) == 0 {
      assert CallerOk(l, s.shared, s.callers[u]);
    }
    SumBounds(Moved(s, t, e).callers, Passing(i));
    if l.maxPerSkill > 0 { assert |s.callers| >= 1; }
  }

  lemma StepKeepsInv(l: Limits, s: State, m: Move, s': State)
    requires Inv(l, s) && Step(l, s, m, s')
    ensures Inv(l, s') && |s'.callers| == |s.callers|
  {
    if !m.ForgetBatch? {
      var e := match m
        case CallSpawn(_, skill, isLLM) => Effect(s.shared, Begin(skill, isLLM), [])
        case CallObserver(t) => Goto(s.shared, s.callers[t], ObserverLoad)
        case Continue(t) => Act(l, s.shared, s.callers[t]);
      MoveKeepsCallers(l, s, m.t, e);
      MoveKeepsBalance(l, s, m.t, e);
      MoveKeepsBounds(l, s, m.t, e);
      forall i | 0 <= i < |s'.shared.cells| ensures CellOk(l, s', i) {
        if i < |s.shared.cells| { MoveKeepsCell(l, s, m.t, e, i); } else { NewCell(l, s, m.t, e, i); }
      }
    } else {
      ForgetKeepsInv(l, s, m.skill);
    }
  }

  lemma ForgetKeepsInv(l: Limits, s: State, skill: string)
    requires Inv(l, s)
    ensures Inv(l, s.(shared := s.shared.(batch := s.shared.batch - {skill})))
  {
    var s' := s.(shared := s.shared.(batch := s.shared.batch - {skill}));
    forall i | 0 <= i < |s'.shared.cells| ensures CellOk(l, s', i) { assert CellOk(l, s, i); }
    forall t | 0 <= t < |s'.callers| ensures CallerOk(l, s'.shared, s'.callers[t]) {
      assert CallerOk(l, s.shared, s.callers[t]);
    }
  }

  lemma InitialInv(l: Limits, s: State, k: nat)
    requires Initial(s, k)
    ensures Inv(l, s)
  {
    SumBounds(s.callers, HoldsNode);
    SumBounds(s.callers, HoldsLlm);
  }

  lemma {:induction false} RunInv(l: Limits, k: nat, states: seq<State>, moves: seq<Move>, i: nat)
    requires Run(l, k, states, moves) && i < |states|
    ensures Inv(l, states[i]) && |states[i].callers| == k
  {
    if i == 0 {
      InitialInv(l, states[0], k);
    } else {
      RunInv(l, k, states, moves, i - 1);
      StepKeepsInv(l, states[i - 1], moves[i - 1], states[i]);
    }
  }

  // ---- Main results, for every interleaving of k callers ----

  /** The node, LLM and observer counters stay within their maxima at every moment, and no more spawns are
      ever granted than the maxima allow. */
  lemma NeverOverspent(l: Limits, k: nat, states: seq<State>, moves: seq<Move>, i: nat)
    requires Run(l, k, states, moves) && i < |states|
    ensures Bounded(l, states[i])
    ensures Tally(states[i].answers, GrantedNode) <= AtLeastZero(l.maxNodes)
    ensures Tally(states[i].answers, GrantedLlm) <= AtLeastZero(l.maxLLMCalls)
  {
    RunInv(l, k, states, moves, i);
    SumBounds(states[i].callers, HoldsNode);
    SumBounds(states[i].callers, HoldsLlm);
  }

  /** A refused call leaves no trace: whenever every caller is between calls, the counters are exactly the
      numbers of spawns that were granted. */
  lemma RefusedCallsCostNothing(l: Limits, k: nat, states: seq<State>, moves: seq<Move>, i: nat)
    requires Run(l, k, states, moves) && i < |states|
    requires forall t :: 0 <= t < k && t < |states[i].callers| ==> states[i].callers[t].pc.Idle?
    ensures states[i].shared.nodes == Tally(states[i].answers, GrantedNode)
    ensures states[i].shared.llm == Tally(states[i].answers, GrantedLlm)
  {
    RunInv(l, k, states, moves, i);
    SumBounds(states[i].callers, HoldsNode);
    SumBounds(states[i].callers, HoldsLlm);
  }

  /** The optimistic batch counter overshoots by less than the number of callers, resets or not. */
  lemma BatchOvershootBounded(l: Limits, k: nat, states: seq<State>, moves: seq<Move>, i: nat, skill: string)
    requires Run(l, k, states, moves) && i < |states| && skill in states[i].shared.batch
    ensures states[i].shared.batch[skill] < |states[i].shared.cells|
    ensures 0 <= states[i].shared.cells[states[i].shared.batch[skill]] <=
      if l.maxPerSkill <= 0 then 0 else l.maxPerSkill + k - 1
  {
    RunInv(l, k, states, moves, i);
    var cell := states[i].shared.batch[skill];
    assert CellOk(l, states[i], cell);
    SumBounds(states[i].callers, Passing(cell));
  }
}
