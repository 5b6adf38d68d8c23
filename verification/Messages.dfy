/** The messages a stage reads: each arc as one assistant turn declaring its calls, then one tool message per
    call (agent/agent.go, BuildMessagesWithResults). */
module Messages {
  import opened Values
  import opened Nets
  import opened Rounds

  datatype Call = Call(id: string, name: string, args: Val)

  datatype Message =
    | System(text: string)
    | User(text: string)
    | Assistant(calls: seq<Call>)
    | ToolMessage(callId: string, name: string, result: StepResult)
    | Said(role: string, text: string)  // an earlier turn without calls

  function StepCallId(nodeId: Id): string {
    "call_" + nodeId
  }

  lemma StepCallIdInjective(a: Id, b: Id)
    requires StepCallId(a) == StepCallId(b)
    ensures a == b
  {
    assert StepCallId(a)[5..] == a && StepCallId(b)[5..] == b;
  }

  function CallOf(r: StepResult): Call {
    Call(StepCallId(r.nodeId), r.tool, r.params)
  }

  function Calls(arc: seq<StepResult>): seq<Call> {
    seq(|arc|, i requires 0 <= i < |arc| => CallOf(arc[i]))
  }

  function Answers(arc: seq<StepResult>): seq<Message> {
    seq(|arc|, i requires 0 <= i < |arc| => ToolMessage(StepCallId(arc[i].nodeId), arc[i].tool, arc[i]))
  }

  function ArcTurns(arcs: seq<seq<StepResult>>): seq<Message> {
    if arcs == [] then []
    else
      var last := arcs[|arcs| - 1];
      ArcTurns(arcs[..|arcs| - 1]) + (if last == [] then [] else [Assistant(Calls(last))] + Answers(last))
  }

  /** agent/agent.go, BuildMessagesWithResults. */
  method BuildMessages(system: string, userQuery: string, history: seq<Message>, arcs: seq<seq<StepResult>>)
    returns (msgs: seq<Message>)
    ensures msgs == [System(system)] + history + ArcTurns(arcs) + [User(userQuery)]
  {
    msgs := [System(system)];
    msgs := msgs + history;
    ghost var lead := msgs;
    for a := 0 to |arcs|
      invariant msgs == lead + ArcTurns(arcs[..a])
    {
      var arc := arcs[a];
      assert arcs[..a + 1][..a] == arcs[..a];
      var calls: seq<Call> := [];
      for i := 0 to |arc|
        invariant calls == Calls(arc)[..i]
      {
        calls := calls + [Call(StepCallId(arc[i].nodeId), arc[i].tool, arc[i].params)];
      }
      if |calls| == 0 { continue; }
      ghost var before := msgs;
      msgs := msgs + [Assistant(calls)];
      for i := 0 to |arc|
        invariant msgs == before + [Assistant(calls)] + Answers(arc)[..i]
      {
        msgs := msgs + [ToolMessage(StepCallId(arc[i].nodeId), arc[i].tool, arc[i])];
      }
      assert calls == Calls(arc) && Answers(arc)[..|arc|] == Answers(arc);
    }
    assert arcs[..|arcs|] == arcs;
    msgs := msgs + [User(userQuery)];
  }

  // ---- The protocol the messages must follow ----

  /** The messages answer the calls, one each, in order. */
  predicate Answer(msgs: seq<Message>, calls: seq<Call>) {
    && |msgs| == |calls|
    && forall k :: 0 <= k < |calls| ==> msgs[k].ToolMessage? && msgs[k].callId == calls[k].id
  }

  /** Every assistant turn with calls is followed at once by the answers to them, and no tool message stands
      anywhere else. */
  predicate WellPaired(msgs: seq<Message>)
    decreases |msgs|
  {
    msgs == [] ||
    (match msgs[0]
     case Assistant(calls) =>
       && calls != [] && 1 + |calls| <= |msgs|
       && Answer(msgs[1..1 + |calls|], calls) && WellPaired(msgs[1 + |calls|..])
     case ToolMessage(_, _, _) => false
     case _ => WellPaired(msgs[1..]))
  }

  /** The arcs a reader of the messages finds: for every assistant turn, the results that answer it. */
  function Heard(msgs: seq<Message>): seq<seq<StepResult>>
    requires WellPaired(msgs)
    decreases |msgs|
  {
    if msgs == [] then []
    else
      match msgs[0]
      case Assistant(calls) =>
        var replies := msgs[1..1 + |calls|];
        assert Answer(replies, calls);
        [ResultsIn(replies)] + Heard(msgs[1 + |calls|..])
      case _ => Heard(msgs[1..])
  }

  function ResultsIn(msgs: seq<Message>): seq<StepResult>
    requires forall k :: 0 <= k < |msgs| ==> msgs[k].ToolMessage?
  {
    seq(|msgs|, k requires 0 <= k < |msgs| => msgs[k].result)
  }

  lemma {:induction false} PairedConcat(a: seq<Message>, b: seq<Message>)
    requires WellPaired(a) && WellPaired(b)
    ensures WellPaired(a + b) && Heard(a + b) == Heard(a) + Heard(b)
    decreases |a|
  {
    if a == [] {
      assert a + b == b;
      NothingHeard();
    } else if a[0].Assistant? {
      hide *;
      var n := 1 + |a[0].calls|;
      AssistantHeard(a, a[0].calls);
      PairedConcat(a[n..], b);
      AssistantFirst(a, b, a[0].calls);
      Regroup([ResultsIn(a[1..n])], Heard(a[n..]), Heard(b));
    } else {
      hide *;
      OtherHeard(a);
      PairedConcat(a[1..], b);
      OtherFirst(a, b);
    }
  }

  lemma NothingHeard()
    ensures WellPaired([]) && Heard([]) == []
  {}

  lemma Regroup<T>(a: seq<T>, b: seq<T>, c: seq<T>)
    ensures a + (b + c) == (a + b) + c
  {}

  lemma OtherHeard(a: seq<Message>)
    requires a != [] && !a[0].Assistant? && WellPaired(a)
    ensures !a[0].ToolMessage? && WellPaired(a[1..]) && Heard(a) == Heard(a[1..])
  {}

  lemma OtherFirst(a: seq<Message>, b: seq<Message>)
    requires a != [] && !a[0].Assistant? && !a[0].ToolMessage? && WellPaired(a[1..] + b)
    ensures WellPaired(a + b) && Heard(a + b) == Heard(a[1..] + b)
  {
    assert (a + b)[1..] == a[1..] + b;
  }

  lemma AssistantFirst(a: seq<Message>, b: seq<Message>, calls: seq<Call>)
    requires a != [] && a[0] == Assistant(calls) && WellPaired(a) && WellPaired(a[1 + |calls|..] + b)
    ensures WellPaired(a + b)
    ensures Heard(a + b) == [ResultsIn(a[1..1 + |calls|])] + Heard(a[1 + |calls|..] + b)
  {
    var n := 1 + |calls|;
    assert (a + b)[n..] == a[n..] + b;
    assert (a + b)[1..n] == a[1..n];
  }

  lemma AssistantHeard(a: seq<Message>, calls: seq<Call>)
    requires a != [] && a[0] == Assistant(calls) && WellPaired(a)
    ensures 1 + |calls| <= |a| && Answer(a[1..1 + |calls|], calls) && WellPaired(a[1 + |calls|..])
    ensures Heard(a) == [ResultsIn(a[1..1 + |calls|])] + Heard(a[1 + |calls|..])
  {}

  lemma ArcPaired(arc: seq<StepResult>)
    requires arc != []
    ensures WellPaired([Assistant(Calls(arc))] + Answers(arc))
    ensures Heard([Assistant(Calls(arc))] + Answers(arc)) == [arc]
  {
    var msgs := [Assistant(Calls(arc))] + Answers(arc);
    assert msgs[1 + |arc|..] == [] && msgs[1..1 + |arc|] == Answers(arc);
    assert ResultsIn(Answers(arc)) == arc;
  }

  function NonEmpty(arcs: seq<seq<StepResult>>): seq<seq<StepResult>> {
    if arcs == [] then []
    else NonEmpty(arcs[..|arcs| - 1]) + (if arcs[|arcs| - 1] == [] then [] else [arcs[|arcs| - 1]])
  }

  lemma {:induction false} TurnsPaired(arcs: seq<seq<StepResult>>)
    ensures WellPaired(ArcTurns(arcs)) && Heard(ArcTurns(arcs)) == NonEmpty(arcs)
  {
    if arcs != [] {
      var last := arcs[|arcs| - 1];
      TurnsPaired(arcs[..|arcs| - 1]);
      if last != [] {
        ArcPaired(last);
        PairedConcat(ArcTurns(arcs[..|arcs| - 1]), [Assistant(Calls(last))] + Answers(last));
      } else {
        assert ArcTurns(arcs) == ArcTurns(arcs[..|arcs| - 1]);
        assert NonEmpty(arcs) == NonEmpty(arcs[..|arcs| - 1]);
      }
    }
  }

  /** Over any well-paired history the built messages are well paired, and a reader hears the history's arcs
      and then exactly the nonempty arcs that were sent, each with its own results in its own order. */
  lemma BuiltIsHeard(system: string, userQuery: string, history: seq<Message>, arcs: seq<seq<StepResult>>)
    requires WellPaired(history)
    ensures var msgs := [System(system)] + history + ArcTurns(arcs) + [User(userQuery)];
      WellPaired(msgs) && Heard(msgs) == Heard(history) + NonEmpty(arcs)
  {
    var s, u := [System(system)], [User(userQuery)];
    assert s[1..] == [] && u[1..] == [];
    TurnsPaired(arcs);
    PairedConcat(s, history);
    PairedConcat(s + history, ArcTurns(arcs));
    PairedConcat(s + history + ArcTurns(arcs), u);
  }

  // ---- Call ids ----

  function DeclaredIds(msgs: seq<Message>): seq<string> {
    if msgs == [] then []
    else
      var last := msgs[|msgs| - 1];
      DeclaredIds(msgs[..|msgs| - 1]) + (if last.Assistant? then CallIds(last.calls) else [])
  }

  function CallIds(calls: seq<Call>): seq<string> {
    seq(|calls|, i requires 0 <= i < |calls| => calls[i].id)
  }

  lemma {:induction false} DeclaredConcat(a: seq<Message>, b: seq<Message>)
    ensures DeclaredIds(a + b) == DeclaredIds(a) + DeclaredIds(b)
  {
    if b == [] {
      assert a + b == a;
    } else {
      assert (a + b)[..|a + b| - 1] == a + b[..|b| - 1];
      DeclaredConcat(a, b[..|b| - 1]);
    }
  }

  lemma {:induction false} NoneDeclared(msgs: seq<Message>)
    requires forall k :: 0 <= k < |msgs| ==> msgs[k].ToolMessage?
    ensures DeclaredIds(msgs) == []
  {
    if msgs != [] { NoneDeclared(msgs[..|msgs| - 1]); }
  }

  lemma TurnDeclares(arc: seq<StepResult>)
    ensures DeclaredIds([Assistant(Calls(arc))] + Answers(arc)) == CallIds(Calls(arc))
  {
    var turn := [Assistant(Calls(arc))];
    assert turn[..0] == [];
    NoneDeclared(Answers(arc));
    DeclaredConcat(turn, Answers(arc));
  }

  ghost function StepIdsOf(steps: seq<StepResult>): seq<string> {
    seq(|steps|, i requires 0 <= i < |steps| => StepCallId(steps[i].nodeId))
  }

  lemma TurnsNext(init: seq<seq<StepResult>>, last: seq<StepResult>)
    ensures ArcTurns(init + [last]) == ArcTurns(init) + if last == [] then [] else [Assistant(Calls(last))] + Answers(last)
    ensures Flatten(init + [last]) == Flatten(init) + last
  {
    assert (init + [last])[..|init|] == init;
    hide Calls, Answers;
  }

  lemma StepIdsNext(a: seq<StepResult>, b: seq<StepResult>)
    ensures StepIdsOf(a + b) == StepIdsOf(a) + StepIdsOf(b) && StepIdsOf([]) == [] && CallIds(Calls(b)) == StepIdsOf(b)
  {}

  lemma {:induction false} DeclaredAre(arcs: seq<seq<StepResult>>)
    ensures DeclaredIds(ArcTurns(arcs)) == StepIdsOf(Flatten(arcs))
  {
    if arcs != [] {
      var last, init := arcs[|arcs| - 1], arcs[..|arcs| - 1];
      assert arcs == init + [last];
      hide *;
      DeclaredAre(init);
      TurnsNext(init, last);
      StepIdsNext(Flatten(init), last);
      if last != [] {
        TurnDeclares(last);
        DeclaredConcat(ArcTurns(init), [Assistant(Calls(last))] + Answers(last));
      } else {
        assert ArcTurns(init) + [] == ArcTurns(init) && Flatten(init) + [] == Flatten(init);
      }
    }
  }

  /** The ids declared for the arcs are those of their steps, in order. */
  lemma DeclaredAreSteps(arcs: seq<seq<StepResult>>)
    ensures var ids, steps := DeclaredIds(ArcTurns(arcs)), Flatten(arcs);
      |ids| == |steps| && forall i :: 0 <= i < |ids| ==> ids[i] == StepCallId(steps[i].nodeId)
  {
    DeclaredAre(arcs);
    hide DeclaredIds, ArcTurns, Flatten, StepCallId;
  }

  ghost predicate Distinct(ids: seq<Id>) {
    forall i, j :: 0 <= i < j < |ids| ==> ids[i] != ids[j]
  }

  lemma {:induction false} SelectDistinct(ids: seq<Id>, p: Id -> bool)
    requires Distinct(ids)
    ensures Distinct(Select(ids, p))
  {
    if ids != [] {
      var init, last := ids[..|ids| - 1], ids[|ids| - 1];
      SelectDistinct(init, p);
      var r := Select(init, p);
      forall i | 0 <= i < |r| ensures r[i] != last {
        assert r[i] in init;
        var k :| 0 <= k < |init| && init[k] == r[i];
        assert ids[k] != ids[|ids| - 1];
      }
    }
  }

  lemma StepsDistinct(net: Net)
    requires NetOk(net)
    ensures Distinct(StepIds(net, -1))
  {
    forall a, b | 0 <= a < b < |net.order| ensures net.order[a] != net.order[b] { OrderDistinct(net, a, b); }
    SelectDistinct(net.order, id => IsStep(net, id, -1));
  }

  /** In every run the arcs' call ids are all different. */
  lemma CallIdsUnique(nets: seq<Net>, events: seq<Event>, k: nat, i: nat, j: nat)
    requires History(nets, events) && k < |nets|
    requires var ids := DeclaredIds(ArcTurns(ArcsUpTo(nets[k], nets[k].round + 1))); i < j < |ids|
    ensures var ids := DeclaredIds(ArcTurns(ArcsUpTo(nets[k], nets[k].round + 1))); ids[i] != ids[j]
  {
    var arcs, steps := ArcsUpTo(nets[k], nets[k].round + 1), StepIds(nets[k], -1);
    HistorySorted(nets, events, k);
    ArcsComplete(nets, events, k);
    DeclaredAreSteps(arcs);
    StepsDistinct(nets[k]);
    assert Flatten(arcs) == ResultsOf(nets[k], steps);
    assert steps[i] != steps[j];
    hide *;
    if DeclaredIds(ArcTurns(arcs))[i] == DeclaredIds(ArcTurns(arcs))[j] {
      SameStep(nets[k], steps, i, j);
    }
  }

  lemma SameStep(net: Net, steps: seq<Id>, i: nat, j: nat)
    requires i < |steps| && j < |steps| && forall id :: id in steps ==> id in net.nodes
    requires StepCallId(ResultsOf(net, steps)[i].nodeId) == StepCallId(ResultsOf(net, steps)[j].nodeId)
    ensures steps[i] == steps[j]
  {
    StepCallIdInjective(steps[i], steps[j]);
  }

  // ---- What the turns say ----

  /** One turn: a call for every step, with its tool and what it was called with, then what each brought back. */
  ghost predicate Turn(msgs: seq<Message>, arc: seq<StepResult>) {
    && |msgs| == 1 + |arc| && msgs[0].Assistant? && |msgs[0].calls| == |arc|
    && (forall k :: 0 <= k < |arc| ==>
      && msgs[0].calls[k].id == "call_" + arc[k].nodeId && msgs[0].calls[k].name == arc[k].tool && msgs[0].calls[k].args == arc[k].params)
    && (forall k :: 0 <= k < |arc| ==> msgs[1 + k] == ToolMessage("call_" + arc[k].nodeId, arc[k].tool, arc[k]))
  }

  /** Turn after turn, one for every arc that is not empty. */
  ghost predicate Speaks(msgs: seq<Message>, arcs: seq<seq<StepResult>>)
    decreases |arcs|
  {
    if arcs == [] then msgs == []
    else
      var last, init := arcs[|arcs| - 1], arcs[..|arcs| - 1];
      if last == [] then Speaks(msgs, init)
      else |msgs| > |last| && Turn(msgs[|msgs| - 1 - |last|..], last) && Speaks(msgs[..|msgs| - 1 - |last|], init)
  }

  lemma TurnSays(arc: seq<StepResult>)
    ensures Turn([Assistant(Calls(arc))] + Answers(arc), arc) && |Answers(arc)| == |arc|
  {}

  lemma SpeaksNext(msgs: seq<Message>, arcs: seq<seq<StepResult>>, turn: seq<Message>, arc: seq<StepResult>)
    requires Speaks(msgs, arcs) && arc != [] && Turn(turn, arc) && |turn| == 1 + |arc|
    ensures Speaks(msgs + turn, arcs + [arc])
  {
    hide Turn;
    var all := msgs + turn;
    assert (arcs + [arc])[..|arcs|] == arcs;
    assert all[..|all| - 1 - |arc|] == msgs && all[|all| - 1 - |arc|..] == turn;
  }

  lemma SaysNothing(msgs: seq<Message>, arcs: seq<seq<StepResult>>)
    requires Speaks(msgs, arcs)
    ensures Speaks(msgs, arcs + [[]])
  {
    assert (arcs + [[]])[..|arcs|] == arcs;
  }

  /** The messages of the arcs say what the arcs hold. */
  lemma {:induction false} TurnsSpeak(arcs: seq<seq<StepResult>>)
    ensures Speaks(ArcTurns(arcs), arcs)
  {
    if arcs != [] {
      var last, init := arcs[|arcs| - 1], arcs[..|arcs| - 1];
      TurnsSpeak(init);
      hide Speaks, Turn, Answers, Calls;
      assert arcs == init + [last];
      if last == [] {
        SaysNothing(ArcTurns(init), init);
        assert ArcTurns(arcs) == ArcTurns(init);
      } else {
        TurnSays(last);
        SpeaksNext(ArcTurns(init), init, [Assistant(Calls(last))] + Answers(last), last);
      }
    }
  }
}
