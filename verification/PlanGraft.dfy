/** From plan steps to graph nodes (agent/executive.go, planStepsToNodes): named references become node
    references, and what a step reads becomes what it waits for. */
module PlanGraft {
  import opened Values
  import opened Nets
  import opened Names
  import opened Templates
  import Decimal

  datatype PlanStep = PlanStep(tool: string, tag: string, params: seq<Field>, dependsOn: seq<int>)

  function Tags(steps: seq<PlanStep>): seq<string> {
    seq(|steps|, i requires 0 <= i < |steps| => steps[i].tag)
  }

  /** What a reference is read against: the ids of the plan's nodes ("" where none was made), the steps' names,
      and the graph as it stood when the plan was grafted. */
  datatype Scope = Scope(net: Net, ids: seq<Id>, tags: seq<string>, wide: char -> bool)

  /** A reference the rewrite can match. */
  predicate Matchable(sc: Scope, s: Seg) {
    s.Ref? && s.kind == StepRef && Spellable(s.name, sc.wide)
  }

  /** nodeForRef and the guards around it: the node a step reference on `owner` stands for, if any. */
  function Target(sc: Scope, owner: Id, name: string): Pick {
    match StepIndexFor(name, sc.tags)
    case At(idx) =>
      if 0 <= idx < |sc.ids| && sc.ids[idx] != "" && sc.ids[idx] != owner then Pick(sc.ids[idx]) else NoPick
    case Nothing => Finished(sc.net, name)
  }

  // ---- The rewrite ----

  function RewriteSeg(sc: Scope, owner: Id, s: Seg): Seg {
    if !Matchable(sc, s) then s
    else
      match Target(sc, owner, s.name)
      case Pick(id) => Ref(NodeRef, id, s.path)
      case NoPick => s
  }

  function Rewriter(sc: Scope, owner: Id): Seg -> Seg {
    (s: Seg) => RewriteSeg(sc, owner, s)
  }

  /** The nodes the rewritten references of a list name, in order. */
  function Implied(sc: Scope, owner: Id, refs: seq<Seg>): (r: seq<Id>)
    ensures forall id :: id in r <==> exists s :: s in refs && Matchable(sc, s) && Target(sc, owner, s.name) == Pick(id)
  {
    if refs == [] then []
    else
      var s := refs[0];
      var rest := Implied(sc, owner, refs[1..]);
      assert refs == [s] + refs[1..];
      if Matchable(sc, s) && Target(sc, owner, s.name).Pick? then [Target(sc, owner, s.name).id] + rest else rest
  }

  // ---- What the references mean, without any rewriting ----

  /** The node a reference stands for: named directly, or through the plan. */
  function Denotes(sc: Scope, owner: Id, s: Seg): Pick {
    if Matchable(sc, s) then Target(sc, owner, s.name)
    else if Addressable(s) then Pick(s.name)
    else NoPick
  }

  function DirectSeg(sc: Scope, owner: Id, net: Net, codec: Codec, s: Seg): Text {
    match Denotes(sc, owner, s)
    case NoPick => [s]
    case Pick(id) =>
      match Resolve(net, codec, id, s.path)
      case Got(v) => Inject(codec, v)
      case _ => [s]
  }

  function DirectText(sc: Scope, owner: Id, net: Net, codec: Codec, t: Text): Text {
    if t == [] then []
    else DirectText(sc, owner, net, codec, t[..|t| - 1]) + DirectSeg(sc, owner, net, codec, t[|t| - 1])
  }

  function DirectVal(sc: Scope, owner: Id, net: Net, codec: Codec, v: Val): Val
    decreases v
  {
    match v
    case Str(t) =>
      if |t| == 1 && Denotes(sc, owner, t[0]).Pick? then
        var id := Denotes(sc, owner, t[0]).id;
        match Resolve(net, codec, id, t[0].path)
        case Got(w) => codec.widen(id, t[0].path, w)
        case _ => v
      else Str(DirectText(sc, owner, net, codec, t))
    case Scalar(_) => v
    case Arr(items) => Arr(DirectItems(sc, owner, net, codec, items))
    case Obj(fields) => Obj(DirectFields(sc, owner, net, codec, fields))
  }

  function DirectItems(sc: Scope, owner: Id, net: Net, codec: Codec, items: seq<Val>): seq<Val>
    decreases items
  {
    if items == [] then []
    else [DirectVal(sc, owner, net, codec, items[0])] + DirectItems(sc, owner, net, codec, items[1..])
  }

  function DirectFields(sc: Scope, owner: Id, net: Net, codec: Codec, fields: seq<Field>): seq<Field>
    decreases fields
  {
    if fields == [] then []
    else
      var rest := DirectFields(sc, owner, net, codec, fields[1..]);
      [Field(fields[0].key, DirectVal(sc, owner, net, codec, fields[0].value))] + rest
  }

  predicate Dangles(sc: Scope, owner: Id, s: Seg) {
    IsStepReference(s) && Denotes(sc, owner, s).NoPick?
  }

  predicate DirectFails(sc: Scope, owner: Id, net: Net, codec: Codec, s: Seg) {
    s.Ref? && Denotes(sc, owner, s).Pick? && !Resolve(net, codec, Denotes(sc, owner, s).id, s.path).Got?
  }

  function DirectFailureAt(sc: Scope, owner: Id, net: Net, codec: Codec, s: Seg): Failure {
    if DirectFails(sc, owner, net, codec, s) then
      var id := Denotes(sc, owner, s).id;
      Unmet(id, s.path, Resolve(net, codec, id, s.path))
    else NoFailure
  }

  /** The first of the plan's references whose node has no value for it. */
  function DirectFirst(sc: Scope, owner: Id, net: Net, codec: Codec, refs: seq<Seg>): (r: Failure)
    ensures r.Unmet? <==> exists s :: s in refs && DirectFails(sc, owner, net, codec, s)
  {
    if refs == [] then NoFailure
    else
      assert refs == [refs[0]] + refs[1..];
      Then(DirectFailureAt(sc, owner, net, codec, refs[0]), DirectFirst(sc, owner, net, codec, refs[1..]))
  }

  /** Evaluating the parameters as the plan wrote them: every name is looked up where it points. */
  function Direct(sc: Scope, owner: Id, net: Net, codec: Codec, params: seq<Field>): Substituted {
    var refs := RefsOfFields(params);
    var first := DirectFirst(sc, owner, net, codec, refs);
    if exists s :: s in refs && Dangles(sc, owner, s) then Refused(StepReference)
    else if first.Unmet? then Refused(Dependency(first))
    else
      var out := DirectFields(sc, owner, net, codec, params);
      if RefsOfFields(out) != [] then Refused(LeftOver) else Ok(out)
  }

  // ---- The rewrite preserves meaning ----

  /** Ids the graph gives out can be matched as references again. */
  ghost predicate ScopeOk(sc: Scope) {
    && (forall i :: 0 <= i < |sc.ids| && sc.ids[i] != "" ==> GoodId(sc.ids[i]))
    && (forall id :: id in sc.net.nodes ==> GoodId(id))
  }

  predicate GoodId(id: Id) {
    id != "" && forall i :: 0 <= i < |id| ==> IdChar(id[i])
  }

  lemma NodeNameGood(k: nat)
    ensures GoodId(NodeName(k))
  {
    var id := NodeName(k);
    forall i | 0 <= i < |id| ensures IdChar(id[i]) {
      if i > 0 { assert id[i] == Decimal.Numeral(k)[i - 1] && Decimal.IsDigit(Decimal.Numeral(k)[i - 1]); }
    }
  }

  lemma TargetGood(sc: Scope, owner: Id, name: string)
    requires ScopeOk(sc) && Target(sc, owner, name).Pick?
    ensures GoodId(Target(sc, owner, name).id)
  {}

  lemma SegKept(sc: Scope, owner: Id, net: Net, codec: Codec, s: Seg)
    requires ScopeOk(sc)
    ensures var r := RewriteSeg(sc, owner, s);
      && (Denotes(sc, owner, s).Pick? <==> Addressable(r))
      && (Denotes(sc, owner, s).Pick? ==> r.name == Denotes(sc, owner, s).id && r.path == s.path)
      && (Denotes(sc, owner, s).NoPick? ==> r == s)
      && FailureAt(net, codec, r) == DirectFailureAt(sc, owner, net, codec, s)
      && (IsStepReference(r) <==> Dangles(sc, owner, s))
  {
    if Matchable(sc, s) && Target(sc, owner, s.name).Pick? { TargetGood(sc, owner, s.name); }
  }

  ghost predicate NoneFails(sc: Scope, owner: Id, net: Net, codec: Codec, refs: seq<Seg>) {
    forall s :: s in refs ==> !DirectFails(sc, owner, net, codec, s)
  }

  lemma {:induction false} TextKept(sc: Scope, owner: Id, net: Net, codec: Codec, t: Text)
    requires ScopeOk(sc) && forall k :: 0 <= k < |t| ==> !DirectFails(sc, owner, net, codec, t[k])
    ensures Splice(net, codec, MapText(Rewriter(sc, owner), t)) == DirectText(sc, owner, net, codec, t)
  {
    if t != [] {
      var init, last := t[..|t| - 1], t[|t| - 1];
      TextKept(sc, owner, net, codec, init);
      SegKept(sc, owner, net, codec, last);
      var r := MapText(Rewriter(sc, owner), t);
      assert r[..|r| - 1] == MapText(Rewriter(sc, owner), init);
    }
  }

  lemma {:induction false} ValKept(sc: Scope, owner: Id, net: Net, codec: Codec, v: Val)
    requires ScopeOk(sc) && NoneFails(sc, owner, net, codec, RefsOf(v))
    ensures SubVal(net, codec, MapVal(Rewriter(sc, owner), v)) == DirectVal(sc, owner, net, codec, v)
    decreases v
  {
    match v
    case Str(t) =>
      RefsAreRefs(t);
      forall k | 0 <= k < |t| ensures !DirectFails(sc, owner, net, codec, t[k]) {
        if t[k].Ref? { assert t[k] in RefsOfText(t); }
      }
      TextKept(sc, owner, net, codec, t);
      if |t| == 1 { SegKept(sc, owner, net, codec, t[0]); }
    case Scalar(_) =>
    case Arr(items) => ItemsKept(sc, owner, net, codec, items);
    case Obj(fields) => FieldsKept(sc, owner, net, codec, fields);
  }

  lemma {:induction false} ItemsKept(sc: Scope, owner: Id, net: Net, codec: Codec, items: seq<Val>)
    requires ScopeOk(sc) && NoneFails(sc, owner, net, codec, RefsOfItems(items))
    ensures SubItems(net, codec, MapItems(Rewriter(sc, owner), items)) == DirectItems(sc, owner, net, codec, items)
    decreases items
  {
    if items != [] {
      ValKept(sc, owner, net, codec, items[0]);
      ItemsKept(sc, owner, net, codec, items[1..]);
      assert MapItems(Rewriter(sc, owner), items)[1..] == MapItems(Rewriter(sc, owner), items[1..]);
    }
  }

  lemma {:induction false} FieldsKept(sc: Scope, owner: Id, net: Net, codec: Codec, fields: seq<Field>)
    requires ScopeOk(sc) && NoneFails(sc, owner, net, codec, RefsOfFields(fields))
    ensures SubFields(net, codec, MapFields(Rewriter(sc, owner), fields)) == DirectFields(sc, owner, net, codec, fields)
    decreases fields
  {
    if fields != [] {
      ValKept(sc, owner, net, codec, fields[0].value);
      FieldsKept(sc, owner, net, codec, fields[1..]);
      assert MapFields(Rewriter(sc, owner), fields)[1..] == MapFields(Rewriter(sc, owner), fields[1..]);
    }
  }

  lemma {:induction false} FirstKept(sc: Scope, owner: Id, net: Net, codec: Codec, refs: seq<Seg>)
    requires ScopeOk(sc)
    ensures FirstFailure(net, codec, MapText(Rewriter(sc, owner), refs)) == DirectFirst(sc, owner, net, codec, refs)
  {
    if refs != [] {
      SegKept(sc, owner, net, codec, refs[0]);
      hide FailureAt, DirectFailureAt, DirectFails, Fails, RewriteSeg;
      FirstKept(sc, owner, net, codec, refs[1..]);
      assert MapText(Rewriter(sc, owner), refs)[1..] == MapText(Rewriter(sc, owner), refs[1..]);
    }
  }

  lemma DanglingKept(sc: Scope, owner: Id, net: Net, codec: Codec, refs: seq<Seg>)
    requires ScopeOk(sc)
    ensures (exists s :: s in refs && Dangles(sc, owner, s)) <==>
      (exists s :: s in MapText(Rewriter(sc, owner), refs) && IsStepReference(s))
  {
    var refs' := MapText(Rewriter(sc, owner), refs);
    forall k | 0 <= k < |refs| ensures IsStepReference(refs'[k]) <==> Dangles(sc, owner, refs[k]) {
      SegKept(sc, owner, net, codec, refs[k]);
    }
    hide Dangles, IsStepReference, RewriteSeg;
    SameSome(refs, refs', s => Dangles(sc, owner, s), s => IsStepReference(s));
  }

  /** Meaning is preserved: whatever the graph holds when the node fires, substituting the rewritten parameters
      gives exactly what evaluating the plan's own references gives, a refusal with its kind and, for a failed lookup,
      the node, the path and the reason of the first one included. */
  lemma MeaningPreserved(sc: Scope, owner: Id, net: Net, codec: Codec, params: seq<Field>)
    requires ScopeOk(sc)
    ensures Substitution(net, codec, MapFields(Rewriter(sc, owner), params)) == Direct(sc, owner, net, codec, params)
  {
    var refs := RefsOfFields(params);
    FieldRefsMapped(Rewriter(sc, owner), params);
    DanglingKept(sc, owner, net, codec, refs);
    FirstKept(sc, owner, net, codec, refs);
    if DirectFirst(sc, owner, net, codec, refs) == NoFailure {
      FieldsKept(sc, owner, net, codec, params);
    }
  }

  lemma SameSome(a: seq<Seg>, b: seq<Seg>, p: Seg -> bool, q: Seg -> bool)
    requires |a| == |b| && forall k :: 0 <= k < |a| ==> (p(a[k]) <==> q(b[k]))
    ensures (exists s :: s in a && p(s)) <==> (exists s :: s in b && q(s))
  {
    if s :| s in a && p(s) {
      var k :| 0 <= k < |a| && a[k] == s;
      assert q(b[k]) && b[k] in b;
    }
    if s :| s in b && q(s) {
      var k :| 0 <= k < |b| && b[k] == s;
      assert p(a[k]) && a[k] in a;
    }
  }
}
