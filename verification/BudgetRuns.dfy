/** The budget's atomic steps against its sequential meaning, and how far the optimistic batch counter can go. */
module BudgetRuns {
  import opened Budgets

  // ---- One caller left alone ----

  /** A caller taking its steps with nobody in between. */
  function Alone(l: Limits, sh: Shared, c: Caller, steps: nat): Effect
    decreases steps
  {
    if c.pc.Idle? || steps == 0 then Effect(sh, c, [])
    else After(Act(l, sh, c), Alone(l, Act(l, sh, c).shared, Act(l, sh, c).caller, steps - 1))
  }

  function After(e: Effect, r: Effect): Effect {
    Effect(r.shared, r.caller, e.said + r.said)
  }

  function BatchCount(sh: Shared, name: string): int {
    if name in sh.batch && sh.batch[name] < |sh.cells| then sh.cells[sh.batch[name]] else 0
  }

  /** Different names count in different cells. */
  ghost predicate OwnCells(sh: Shared) {
    && (forall n :: n in sh.batch ==> sh.batch[n] < |sh.cells|)
    && (forall m, n :: m in sh.batch && n in sh.batch && sh.batch[m] == sh.batch[n] ==> m == n)
  }

  /** The shared counters stand for these counts. */
  ghost predicate Counted(sh: Shared, c: Counts) {
    && OwnCells(sh) && sh.nodes == c.nodes && sh.llm == c.llm && sh.observers == c.observers && sh.total == c.total
    && forall n :: BatchCount(sh, n) == Get(c.batch, n)
  }

  /** The call has ended with this answer, and the counters stand for what it leaves behind. */
  ghost predicate Ends(e: Effect, skill: string, isLLM: bool, granted: bool, left: Counts) {
    e.caller.pc.Idle? && e.said == [Spawn(skill, isLLM, granted)] && Counted(e.shared, left)
  }

  lemma OneStep(l: Limits, sh: Shared, c: Caller, steps: nat)
    requires !c.pc.Idle? && steps > 0
    ensures Alone(l, sh, c, steps) == After(Act(l, sh, c), Alone(l, Act(l, sh, c).shared, Act(l, sh, c).caller, steps - 1))
  {}

  lemma LastStep(l: Limits, sh: Shared, c: Caller, steps: nat)
    requires c.pc.Idle?
    ensures Alone(l, sh, c, steps) == Effect(sh, c, [])
  {}

  lemma RoomLeft(l: Limits, sh: Shared, c: Caller, i: nat, counts: Counts, steps: nat)
    requires c.pc == AddTotal(i) && c.skill in sh.batch && sh.batch[c.skill] == i && Counted(sh, counts) && steps >= 2
    ensures Ends(Alone(l, sh, c, steps), c.skill, c.isLLM, true,
                 counts.(total := counts.total[c.skill := Get(counts.total, c.skill) + 1],
                         batch := counts.batch[c.skill := Get(counts.batch, c.skill) + 1]))
  {
    hide Alone;
    OneStep(l, sh, c, steps);
    var e1 := Act(l, sh, c);
    OneStep(l, e1.shared, e1.caller, steps - 1);
    var e2 := Act(l, e1.shared, e1.caller);
    LastStep(l, e2.shared, e2.caller, steps - 2);
    assert e2.shared.cells == sh.cells[i := sh.cells[i] + 1];
    forall n | n != c.skill ensures BatchCount(e2.shared, n) == BatchCount(sh, n) {}
  }

  lemma NoRoomLeft(l: Limits, sh: Shared, c: Caller, counts: Counts, steps: nat)
    requires c.pc == BatchRefused && Counted(sh, counts) && steps >= 2
    ensures Ends(Alone(l, sh, c, steps), c.skill, c.isLLM, false,
                 counts.(nodes := counts.nodes - 1, llm := counts.llm - if c.isLLM then 1 else 0))
  {
    OneStep(l, sh, c, steps);
    var e1 := Act(l, sh, c);
    if c.isLLM {
      OneStep(l, e1.shared, e1.caller, steps - 1);
      var e2 := Act(l, e1.shared, e1.caller);
      LastStep(l, e2.shared, e2.caller, steps - 2);
      assert forall n :: BatchCount(e2.shared, n) == BatchCount(sh, n);
    } else {
      LastStep(l, e1.shared, e1.caller, steps - 1);
      assert forall n :: BatchCount(e1.shared, n) == BatchCount(sh, n);
    }
    hide Alone;
  }

  lemma Fetches(l: Limits, sh: Shared, c: Caller, counts: Counts)
    requires c.pc == FetchBatch && Counted(sh, counts)
    ensures var e := Act(l, sh, c);
      && Counted(e.shared, counts) && e.said == [] && c.skill in e.shared.batch
      && e.caller == c.(pc := BatchLoad(e.shared.batch[c.skill]))
  {
    var e := Act(l, sh, c);
    forall n ensures BatchCount(e.shared, n) == BatchCount(sh, n) {}
  }

  lemma BatchPart(l: Limits, sh: Shared, c: Caller, counts: Counts, steps: nat)
    requires c.pc == FetchBatch && Counted(sh, counts) && steps >= 4
    ensures var room := Get(counts.batch, c.skill) < l.maxPerSkill;
      Ends(Alone(l, sh, c, steps), c.skill, c.isLLM, room, if room
        then counts.(total := counts.total[c.skill := Get(counts.total, c.skill) + 1],
                     batch := counts.batch[c.skill := Get(counts.batch, c.skill) + 1])
        else counts.(nodes := counts.nodes - 1, llm := counts.llm - if c.isLLM then 1 else 0))
  {
    hide Alone, Counted;
    OneStep(l, sh, c, steps);
    Fetches(l, sh, c, counts);
    var e1 := Act(l, sh, c);
    OneStep(l, e1.shared, e1.caller, steps - 1);
    CellCount(e1.shared, counts, c.skill);
    var e2 := Act(l, e1.shared, e1.caller);
    if Get(counts.batch, c.skill) < l.maxPerSkill {
      RoomLeft(l, e2.shared, e2.caller, e1.shared.batch[c.skill], counts, steps - 2);
    } else {
      NoRoomLeft(l, e2.shared, e2.caller, counts, steps - 2);
    }
  }

  lemma CellCount(sh: Shared, counts: Counts, name: string)
    requires Counted(sh, counts) && name in sh.batch
    ensures sh.batch[name] < |sh.cells| && sh.cells[sh.batch[name]] == Get(counts.batch, name)
  {
    assert BatchCount(sh, name) == Get(counts.batch, name);
  }

  /** What is left once the node and the LLM call have been charged. */
  lemma SkillPart(l: Limits, sh: Shared, c: Caller, counts: Counts, steps: nat)
    requires Counted(sh, counts) && steps >= 4
    ensures var e := AfterLlm(sh, c);
      var room := c.skill != "" ==> Get(counts.batch, c.skill) < l.maxPerSkill;
      Ends(After(e, Alone(l, e.shared, e.caller, steps)), c.skill, c.isLLM, room,
        if !room then counts.(nodes := counts.nodes - 1, llm := counts.llm - if c.isLLM then 1 else 0)
        else if c.skill == "" then counts
        else counts.(total := counts.total[c.skill := Get(counts.total, c.skill) + 1],
                     batch := counts.batch[c.skill := Get(counts.batch, c.skill) + 1]))
  {
    hide Alone, Counted;
    var e := AfterLlm(sh, c);
    if c.skill == "" { LastStep(l, e.shared, e.caller, steps); } else { BatchPart(l, e.shared, e.caller, counts, steps); }
  }

  /** From the LLM budget on; the node has been charged unless the call counts against the LLM budget only. */
  lemma LlmPart(l: Limits, sh: Shared, c: Caller, counts: Counts, steps: nat)
    requires c.pc == LlmLoad && c.isLLM && Counted(sh, counts) && steps >= 6
    ensures var granted := counts.llm < l.maxLLMCalls && (c.skill != "" ==> Get(counts.batch, c.skill) < l.maxPerSkill);
      Ends(Alone(l, sh, c, steps), c.skill, true, granted,
        if !granted then counts.(nodes := counts.nodes - if c.skill == "" then 0 else 1)
        else if c.skill == "" then counts.(llm := counts.llm + 1)
        else counts.(llm := counts.llm + 1, total := counts.total[c.skill := Get(counts.total, c.skill) + 1],
                     batch := counts.batch[c.skill := Get(counts.batch, c.skill) + 1]))
  {
    hide Alone, Counted;
    SameNodes(sh, counts);
    OneStep(l, sh, c, steps);
    var e1 := Act(l, sh, c);
    if counts.llm < l.maxLLMCalls {
      OneStep(l, e1.shared, e1.caller, steps - 1);
      LlmAside(sh, counts);
      SkillPart(l, sh.(llm := sh.llm + 1), e1.caller, counts.(llm := counts.llm + 1), steps - 2);
    } else if c.skill == "" {
      LastStep(l, e1.shared, e1.caller, steps - 1);
    } else {
      OneStep(l, e1.shared, e1.caller, steps - 1);
      LastStep(l, Act(l, e1.shared, e1.caller).shared, Act(l, e1.shared, e1.caller).caller, steps - 2);
      NodesAside(sh, counts);
    }
  }

  lemma NodesAside(sh: Shared, counts: Counts)
    requires Counted(sh, counts)
    ensures Counted(sh.(nodes := sh.nodes - 1), counts.(nodes := counts.nodes - 1))
    ensures Counted(sh.(nodes := sh.nodes + 1), counts.(nodes := counts.nodes + 1))
  {
    assert forall n :: BatchCount(sh.(nodes := sh.nodes - 1), n) == BatchCount(sh, n);
    assert forall n :: BatchCount(sh.(nodes := sh.nodes + 1), n) == BatchCount(sh, n);
  }

  lemma LlmAside(sh: Shared, counts: Counts)
    requires Counted(sh, counts)
    ensures Counted(sh.(llm := sh.llm + 1), counts.(llm := counts.llm + 1))
  {
    assert forall n :: BatchCount(sh.(llm := sh.llm + 1), n) == BatchCount(sh, n);
  }

  /** The atomic steps refine the call: taken by one caller with nobody in between, they answer and charge exactly
      what the call does as a whole, and a refusal leaves the counters standing for what they stood for. */
  lemma SpawnAlone(l: Limits, sh: Shared, skill: string, isLLM: bool, counts: Counts)
    requires Counted(sh, counts)
    ensures var granted := Grants(l, counts, skill, isLLM);
      Ends(Alone(l, sh, Begin(skill, isLLM), 8), skill, isLLM, granted, Charged(counts, skill, isLLM, granted))
  {
    var c := Begin(skill, isLLM);
    hide Alone, Counted;
    SameNodes(sh, counts);
    if InfraOnly(skill, isLLM) {
      LlmPart(l, sh, c, counts, 8);
    } else {
      OneStep(l, sh, c, 8);
      var e1 := Act(l, sh, c);
      if counts.nodes >= l.maxNodes {
        LastStep(l, e1.shared, e1.caller, 7);
      } else {
        OneStep(l, e1.shared, e1.caller, 7);
        NodesAside(sh, counts);
        var paid, more := sh.(nodes := sh.nodes + 1), counts.(nodes := counts.nodes + 1);
        if isLLM {
          LlmPart(l, paid, e1.caller.(pc := LlmLoad), more, 6);
        } else {
          SkillPart(l, paid, e1.caller, more, 6);
        }
      }
    }
  }

  lemma SameNodes(sh: Shared, counts: Counts)
    requires Counted(sh, counts)
    ensures sh.nodes == counts.nodes && sh.llm == counts.llm
  {}

  // ---- How far the batch counter goes ----

  ghost predicate Reachable(l: Limits, k: nat, s: State) {
    exists states, moves :: Run(l, k, states, moves) && states[|moves|] == s
  }

  lemma ReachNext(l: Limits, k: nat, s: State, m: Move, s': State)
    requires Reachable(l, k, s) && Step(l, s, m, s')
    ensures Reachable(l, k, s')
  {
    var states, moves :| Run(l, k, states, moves) && states[|moves|] == s;
    hide Step;
    assert Run(l, k, states + [s'], moves + [m]);
  }

  /** The batch counter of `name` is at `cell`; the first `parked` callers have seen room and are about to add to it,
      the others are between calls. */
  ghost predicate Loaded(k: nat, name: string, s: State, cell: nat, parked: nat) {
    && |s.callers| == k && parked <= k && s.shared.nodes == cell + parked
    && ((s.shared.batch == map[] && s.shared.cells == [] && cell == 0 && parked == 0)
      || (s.shared.batch == map[name := 0] && s.shared.cells == [cell]))
    && (forall t :: 0 <= t < parked ==> s.callers[t] == Caller(AddBatch(0), name, false))
    && (forall t :: parked <= t < k ==> s.callers[t].pc == Idle)
    && AllGranted(name, s.answers) && |s.answers| == cell
  }

  ghost predicate AllGranted(name: string, answers: seq<Answer>) {
    forall a :: a in answers ==> a == Spawn(name, false, true)
  }

  /** One atomic step of caller t. */
  function Advance(l: Limits, s: State, t: nat): State
    requires t < |s.callers|
  {
    Moved(s, t, Act(l, s.shared, s.callers[t]))
  }

  lemma AdvanceReaches(l: Limits, k: nat, s: State, t: nat)
    requires Reachable(l, k, s) && t < |s.callers| && !s.callers[t].pc.Idle?
    ensures Reachable(l, k, Advance(l, s, t))
  {
    ReachNext(l, k, s, Continue(t), Advance(l, s, t));
  }

  /** The next caller walks up to the counter and stops just before adding to it. */
  lemma Park(l: Limits, k: nat, name: string, s: State, cell: nat, parked: nat) returns (s': State)
    requires Reachable(l, k, s) && Loaded(k, name, s, cell, parked) && parked < k && name != ""
    requires cell < l.maxPerSkill && cell + parked < l.maxNodes
    ensures Reachable(l, k, s') && Loaded(k, name, s', cell, parked + 1)
  {
    hide Reachable;
    var t := parked;
    var s0 := Moved(s, t, Effect(s.shared, Begin(name, false), []));
    ReachNext(l, k, s, CallSpawn(t, name, false), s0);
    AdvanceReaches(l, k, s0, t);
    var s1 := Advance(l, s0, t);
    assert s1.callers[t].pc == NodeCas(s.shared.nodes) && s1.shared == s.shared;
    AdvanceReaches(l, k, s1, t);
    var s2 := Advance(l, s1, t);
    assert s2.callers[t].pc == FetchBatch && s2.shared == s.shared.(nodes := s.shared.nodes + 1);
    AdvanceReaches(l, k, s2, t);
    var s3 := Advance(l, s2, t);
    assert s3.callers[t].pc == BatchLoad(0) && s3.shared.cells == [cell] && s3.shared.batch == map[name := 0];
    AdvanceReaches(l, k, s3, t);
    var s4 := Advance(l, s3, t);
    assert s4.callers[t].pc == AddTotal(0);
    AdvanceReaches(l, k, s4, t);
    s' := Advance(l, s4, t);
  }

  lemma Release(l: Limits, k: nat, name: string, s: State, cell: nat, parked: nat) returns (s': State)
    requires Reachable(l, k, s) && Loaded(k, name, s, cell, parked) && parked > 0
    ensures Reachable(l, k, s') && Loaded(k, name, s', cell + 1, parked - 1)
  {
    hide Reachable;
    AdvanceReaches(l, k, s, parked - 1);
    s' := Advance(l, s, parked - 1);
  }

  lemma {:induction false} FillUp(l: Limits, k: nat, name: string, cell: nat) returns (s: State)
    requires k >= 1 && name != "" && cell <= l.maxPerSkill && cell <= l.maxNodes
    ensures Reachable(l, k, s) && Loaded(k, name, s, cell, 0)
    decreases cell
  {
    if cell == 0 {
      s := State(Shared(0, 0, 0, map[], [], map[]), seq(k, i => Caller(Idle, "", false)), []);
      var none: seq<Move> := [];
      assert Run(l, k, [s], none) && [s][|none|] == s;
    } else {
      hide Reachable;
      s := FillUp(l, k, name, cell - 1);
      s := Park(l, k, name, s, cell - 1, 0);
      s := Release(l, k, name, s, cell - 1, 1);
    }
  }

  lemma {:induction false} ParkAll(l: Limits, k: nat, name: string, parked: nat) returns (s: State)
    requires 1 <= k && parked <= k && name != "" && l.maxPerSkill >= 1 && l.maxNodes >= l.maxPerSkill + k - 1
    ensures Reachable(l, k, s) && Loaded(k, name, s, l.maxPerSkill - 1, parked)
    decreases parked
  {
    hide Reachable, Loaded;
    if parked == 0 {
      s := FillUp(l, k, name, l.maxPerSkill - 1);
    } else {
      s := ParkAll(l, k, name, parked - 1);
      s := Park(l, k, name, s, l.maxPerSkill - 1, parked - 1);
    }
  }

  lemma {:induction false} ReleaseAll(l: Limits, k: nat, name: string, parked: nat) returns (s: State)
    requires 1 <= k && parked <= k && name != "" && l.maxPerSkill >= 1 && l.maxNodes >= l.maxPerSkill + k - 1
    ensures Reachable(l, k, s) && Loaded(k, name, s, l.maxPerSkill - 1 + (k - parked), parked)
    decreases k - parked
  {
    hide Reachable, Loaded;
    if parked == k {
      s := ParkAll(l, k, name, k);
    } else {
      s := ReleaseAll(l, k, name, parked + 1);
      s := Release(l, k, name, s, l.maxPerSkill - 1 + (k - parked - 1), parked + 1);
    }
  }

  ghost predicate Overshot(l: Limits, k: nat, name: string, s: State) {
    && Reachable(l, k, s) && BatchCount(s.shared, name) == l.maxPerSkill + k - 1
    && (forall t :: 0 <= t < |s.callers| ==> s.callers[t].pc == Idle)
    && AllGranted(name, s.answers) && |s.answers| == l.maxPerSkill + k - 1
  }

  /** The bound on the overshoot is exact: with k callers and room for their nodes, some interleaving leaves the batch
      counter at its limit plus k - 1, every call granted and none in progress. */
  lemma OvershootReached(l: Limits, k: nat, name: string)
    requires 1 <= k && name != "" && l.maxPerSkill >= 1 && l.maxNodes >= l.maxPerSkill + k - 1
    ensures exists s :: Overshot(l, k, name, s)
  {
    var s := ReleaseAll(l, k, name, 0);
    hide Reachable;
    assert Overshot(l, k, name, s);
  }
}
