/** What substitution puts where, told from the outcomes of the nodes alone. */
module TemplateLaws {
  import opened Values
  import opened Nets
  import opened Templates

  // ---- What a node has at a path ----

  /** The node has produced something, and v is what it has there: at a path its body knows, that field; at another
      one the whole result, if that is no JSON; at the empty path what the body has for it, else the result, and a text
      of either is parsed. */
  ghost predicate Offers(net: Net, codec: Codec, d: Id, path: string, v: Val) {
    && d in net.nodes && net.nodes[d].outcome.result != []
    && var out := net.nodes[d].outcome;
    && (path != "" && BodyHas(out, path) ==> v == out.body.fields[path])
    && (path != "" && !BodyHas(out, path) ==> !codec.isJson(out.result) && v == Str(out.result))
    && (path == "" && BodyHas(out, "") && out.body.fields[""].Str? ==> v == codec.parse(out.body.fields[""].text))
    && (path == "" && BodyHas(out, "") && !out.body.fields[""].Str? ==> v == out.body.fields[""])
    && (path == "" && !BodyHas(out, "") ==> v == codec.parse(out.result))
  }

  predicate BodyHas(out: Outcome, path: string) {
    out.body.Body? && path in out.body.fields
  }

  /** There is no such node; or it produced nothing, having failed or been skipped, or not; or its JSON lacks the field. */
  ghost predicate Denies(net: Net, codec: Codec, d: Id, path: string, why: Lookup) {
    match why
    case Missing => d !in net.nodes
    case Blocked(state) =>
      d in net.nodes && net.nodes[d].outcome.result == [] && net.nodes[d].state == state && (state == Failed || state == Skipped)
    case EmptyResult =>
      d in net.nodes && net.nodes[d].outcome.result == [] && net.nodes[d].state != Failed && net.nodes[d].state != Skipped
    case Absent =>
      && d in net.nodes && net.nodes[d].outcome.result != [] && path != ""
      && !BodyHas(net.nodes[d].outcome, path) && codec.isJson(net.nodes[d].outcome.result)
    case Got(_) => false
  }

  lemma LookedUp(net: Net, codec: Codec, d: Id, path: string)
    ensures forall v :: Offers(net, codec, d, path, v) <==> Resolve(net, codec, d, path) == Got(v)
    ensures forall why :: Denies(net, codec, d, path, why) <==> !why.Got? && Resolve(net, codec, d, path) == why
  {}

  /** A reference that names a node. */
  predicate NamesNode(s: Seg) {
    s.Ref? && s.kind == NodeRef && s.name != ""
    && forall i :: 0 <= i < |s.name| ==>
      var c := s.name[i]; 'a' <= c <= 'z' || 'A' <= c <= 'Z' || '0' <= c <= '9' || c == '_' || c == '-'
  }

  // ---- What each string becomes ----

  /** A string goes in as it is, anything else as it is rendered. */
  ghost predicate PieceBecomes(net: Net, codec: Codec, s: Seg, u: Text) {
    if NamesNode(s) then exists v :: Offers(net, codec, s.name, s.path, v) && u == if v.Str? then v.text else codec.render(v)
    else u == [s]
  }

  ghost predicate TextBecomes(net: Net, codec: Codec, t: Text, u: Text)
    decreases |t|
  {
    if t == [] then u == []
    else exists a, b :: u == a + b && PieceBecomes(net, codec, t[0], a) && TextBecomes(net, codec, t[1..], b)
  }

  /** A string that is one reference and nothing else becomes the value itself, widened. */
  ghost predicate LeafBecomes(net: Net, codec: Codec, t: Text, w: Val) {
    if |t| == 1 && NamesNode(t[0]) then exists v :: Offers(net, codec, t[0].name, t[0].path, v) && w == codec.widen(t[0].name, t[0].path, v)
    else w.Str? && TextBecomes(net, codec, t, w.text)
  }

  ghost predicate Becomes(net: Net, codec: Codec, v: Val, w: Val)
    decreases v
  {
    match v
    case Str(t) => LeafBecomes(net, codec, t, w)
    case Scalar(_) => w == v
    case Arr(items) => w.Arr? && |w.items| == |items| && forall k :: 0 <= k < |items| ==> Becomes(net, codec, items[k], w.items[k])
    case Obj(fields) => w.Obj? && FieldsBecome(net, codec, fields, w.fields)
  }

  ghost predicate FieldsBecome(net: Net, codec: Codec, fields: seq<Field>, out: seq<Field>)
    decreases fields
  {
    |out| == |fields|
    && forall k :: 0 <= k < |fields| ==> out[k].key == fields[k].key && Becomes(net, codec, fields[k].value, out[k].value)
  }

  ghost predicate AllOffered(net: Net, codec: Codec, refs: seq<Seg>) {
    forall s :: s in refs ==> !Fails(net, codec, s)
  }

  lemma PieceDone(net: Net, codec: Codec, s: Seg)
    requires !Fails(net, codec, s)
    ensures PieceBecomes(net, codec, s, SubSeg(net, codec, s))
  {
    if NamesNode(s) {
      LookedUp(net, codec, s.name, s.path);
      assert Offers(net, codec, s.name, s.path, Resolve(net, codec, s.name, s.path).value);
    }
  }

  lemma {:induction false} SpliceFront(net: Net, codec: Codec, t: Text)
    requires t != []
    ensures Splice(net, codec, t) == SubSeg(net, codec, t[0]) + Splice(net, codec, t[1..])
  {
    hide SubSeg;
    if |t| == 1 {
      assert t[..0] == [] && t[1..] == [];
    } else {
      var init := t[..|t| - 1];
      SpliceFront(net, codec, init);
      assert init[1..] == t[1..][..|t| - 2] && t[1..][|t| - 2] == t[|t| - 1];
    }
  }

  lemma {:induction false} TextDone(net: Net, codec: Codec, t: Text)
    requires forall k :: 0 <= k < |t| ==> !Fails(net, codec, t[k])
    ensures TextBecomes(net, codec, t, Splice(net, codec, t))
    decreases |t|
  {
    if t != [] {
      PieceDone(net, codec, t[0]);
      TextDone(net, codec, t[1..]);
      SpliceFront(net, codec, t);
    }
  }

  lemma LeafDone(net: Net, codec: Codec, t: Text)
    requires AllOffered(net, codec, RefsOfText(t))
    ensures LeafBecomes(net, codec, t, SubLeaf(net, codec, t))
  {
    RefsAreRefs(t);
    forall k | 0 <= k < |t| ensures !Fails(net, codec, t[k]) {
      if t[k].Ref? { assert t[k] in RefsOfText(t); }
    }
    if |t| == 1 && NamesNode(t[0]) {
      LookedUp(net, codec, t[0].name, t[0].path);
      assert Offers(net, codec, t[0].name, t[0].path, Resolve(net, codec, t[0].name, t[0].path).value);
    } else {
      TextDone(net, codec, t);
    }
  }

  lemma {:induction false} ValDone(net: Net, codec: Codec, v: Val)
    requires AllOffered(net, codec, RefsOf(v))
    ensures Becomes(net, codec, v, SubVal(net, codec, v))
    decreases v
  {
    match v
    case Str(t) => LeafDone(net, codec, t);
    case Scalar(_) =>
    case Arr(items) =>
      ItemRefs(items);
      forall k | 0 <= k < |items| ensures Becomes(net, codec, items[k], SubItems(net, codec, items)[k]) {
        SubItemAt(net, codec, items, k);
        assert forall s :: s in RefsOf(items[k]) ==> s in RefsOfItems(items);
        ValDone(net, codec, items[k]);
      }
    case Obj(fields) => FieldsDone(net, codec, fields);
  }

  lemma {:induction false} FieldsDone(net: Net, codec: Codec, fields: seq<Field>)
    requires AllOffered(net, codec, RefsOfFields(fields))
    ensures FieldsBecome(net, codec, fields, SubFields(net, codec, fields))
    decreases fields
  {
    FieldRefs(fields);
    forall k | 0 <= k < |fields|
      ensures SubFields(net, codec, fields)[k].key == fields[k].key
      ensures Becomes(net, codec, fields[k].value, SubFields(net, codec, fields)[k].value)
    {
      SubFieldAt(net, codec, fields, k);
      assert forall s :: s in RefsOf(fields[k].value) ==> s in RefsOfFields(fields);
      ValDone(net, codec, fields[k].value);
    }
  }

  /** Every parameter that comes out is what the nodes have for the references in it, and everything else is as it was. */
  lemma SubstitutionGives(net: Net, codec: Codec, params: seq<Field>)
    requires Substitution(net, codec, params).Ok?
    ensures FieldsBecome(net, codec, params, Substitution(net, codec, params).params)
  {
    FieldsDone(net, codec, params);
  }

  // ---- What is refused, and why ----

  /** The k-th reference names a node that denies it, and no earlier one does. */
  ghost predicate FirstDenied(net: Net, codec: Codec, refs: seq<Seg>, k: nat, why: Lookup)
    requires k < |refs|
  {
    && NamesNode(refs[k]) && Denies(net, codec, refs[k].name, refs[k].path, why)
    && forall j :: 0 <= j < k && NamesNode(refs[j]) ==> exists v :: Offers(net, codec, refs[j].name, refs[j].path, v)
  }

  lemma {:induction false} FirstIsDenied(net: Net, codec: Codec, refs: seq<Seg>) returns (k: nat)
    requires FirstFailure(net, codec, refs).Unmet?
    ensures k < |refs|
    ensures var f := FirstFailure(net, codec, refs);
      refs[k].Ref? && f.dep == refs[k].name && f.path == refs[k].path && FirstDenied(net, codec, refs, k, f.why)
  {
    if NamesNode(refs[0]) { LookedUp(net, codec, refs[0].name, refs[0].path); }
    if Fails(net, codec, refs[0]) {
      k := 0;
    } else {
      var rest := FirstIsDenied(net, codec, refs[1..]);
      k := rest + 1;
      forall j | 0 <= j < k && NamesNode(refs[j]) ensures exists v :: Offers(net, codec, refs[j].name, refs[j].path, v) {
        if j == 0 {
          assert Offers(net, codec, refs[0].name, refs[0].path, Resolve(net, codec, refs[0].name, refs[0].path).value);
        } else {
          assert refs[j] == refs[1..][j - 1];
        }
      }
    }
  }

  /** Substitution is refused for a step reference that is still there; else for the first reference whose node denies
      it, with the node, the path and the reason; else for a reference that came in with a value. */
  lemma SubstitutionRefuses(net: Net, codec: Codec, params: seq<Field>)
    ensures var r, refs := Substitution(net, codec, params), RefsOfFields(params);
      && (r == Refused(StepReference) <==> exists s :: s in refs && s.Ref? && s.kind == StepRef && s.name != "")
      && (r.Refused? && r.why.Dependency? ==>
        exists k, why :: 0 <= k < |refs| && FirstDenied(net, codec, refs, k, why) && r.why.first == Unmet(refs[k].name, refs[k].path, why))
      && (r == Refused(LeftOver) ==> exists out :: FieldsBecome(net, codec, params, out) && RefsOfFields(out) != [])
  {
    var r, refs := Substitution(net, codec, params), RefsOfFields(params);
    assert forall s :: IsStepReference(s) <==> s.Ref? && s.kind == StepRef && s.name != "";
    if r.Refused? && r.why.Dependency? {
      var k := FirstIsDenied(net, codec, refs);
      assert FirstDenied(net, codec, refs, k, r.why.first.why) && r.why.first == Unmet(refs[k].name, refs[k].path, r.why.first.why);
    }
    if r == Refused(LeftOver) {
      FieldsDone(net, codec, params);
      assert FieldsBecome(net, codec, params, SubFields(net, codec, params));
    }
  }

  // ---- One reference by itself ----

  ghost function Lone(key: string, d: Id, path: string): seq<Field> {
    [Field(key, Str([Ref(NodeRef, d, path)]))]
  }

  ghost function Framed(key: string, before: string, d: Id, path: string, after: string): seq<Field> {
    [Field(key, Str([Lit(before), Ref(NodeRef, d, path), Lit(after)]))]
  }

  lemma LoneRefs(key: string, d: Id, path: string)
    ensures RefsOfFields(Lone(key, d, path)) == [Ref(NodeRef, d, path)]
  {
    OneRef(Ref(NodeRef, d, path));
  }

  lemma FramedRefs(key: string, before: string, d: Id, path: string, after: string)
    ensures RefsOfFields(Framed(key, before, d, path, after)) == [Ref(NodeRef, d, path)]
  {
    var t := [Lit(before), Ref(NodeRef, d, path), Lit(after)];
    assert t == [Lit(before)] + ([Ref(NodeRef, d, path)] + [Lit(after)]);
    RefsConcat([Lit(before)], [Ref(NodeRef, d, path)] + [Lit(after)]);
    RefsConcat([Ref(NodeRef, d, path)], [Lit(after)]);
    OneRef(Lit(before));
    OneRef(Ref(NodeRef, d, path));
    OneRef(Lit(after));
    LoneField(key, Str(t));
  }

  lemma LoneField(key: string, v: Val)
    ensures RefsOfFields([Field(key, v)]) == RefsOf(v)
  {
    assert [Field(key, v)][1..] == [];
  }

  /** By itself, the value with its type, widened. */
  lemma BareIsValue(net: Net, codec: Codec, key: string, d: Id, path: string, v: Val)
    requires NamesNode(Ref(NodeRef, d, path)) && Offers(net, codec, d, path, v)
    ensures Substitution(net, codec, Lone(key, d, path)) ==
      if RefsOf(codec.widen(d, path, v)) == [] then Ok([Field(key, codec.widen(d, path, v))]) else Refused(LeftOver)
  {
    LoneRefs(key, d, path);
    LookedUp(net, codec, d, path);
    LoneField(key, codec.widen(d, path, v));
    assert [Ref(NodeRef, d, path)][1..] == [] && Lone(key, d, path)[1..] == [];
    assert SubFields(net, codec, Lone(key, d, path)) == [Field(key, codec.widen(d, path, v))];
  }

  /** Inside text, a string's own text, anything else rendered, between what stood around it. */
  lemma EmbeddedIsText(net: Net, codec: Codec, key: string, before: string, d: Id, path: string, after: string, v: Val)
    requires NamesNode(Ref(NodeRef, d, path)) && Offers(net, codec, d, path, v)
    ensures var u := [Lit(before)] + (if v.Str? then v.text else codec.render(v)) + [Lit(after)];
      Substitution(net, codec, Framed(key, before, d, path, after)) == if RefsOfText(u) == [] then Ok([Field(key, Str(u))]) else Refused(LeftOver)
  {
    FramedRefs(key, before, d, path, after);
    LookedUp(net, codec, d, path);
    var t := [Lit(before), Ref(NodeRef, d, path), Lit(after)];
    assert t[..2] == [Lit(before), Ref(NodeRef, d, path)] && t[..2][..1] == [Lit(before)] && t[..1][..0] == [];
    assert Splice(net, codec, []) == [];
    assert Splice(net, codec, t[..2][..1]) == [] + [Lit(before)];
    assert Framed(key, before, d, path, after)[1..] == [];
    var u := [Lit(before)] + (if v.Str? then v.text else codec.render(v)) + [Lit(after)];
    assert Splice(net, codec, t) == u;
    assert SubFields(net, codec, Framed(key, before, d, path, after)) == [Field(key, Str(u))];
    LoneField(key, Str(u));
  }

  /** Denied, the parameters are refused for just that. */
  lemma DeniedIsRefused(net: Net, codec: Codec, key: string, d: Id, path: string, why: Lookup)
    requires NamesNode(Ref(NodeRef, d, path)) && Denies(net, codec, d, path, why)
    ensures Substitution(net, codec, Lone(key, d, path)) == Refused(Dependency(Unmet(d, path, why)))
  {
    LoneRefs(key, d, path);
    LookedUp(net, codec, d, path);
    assert [Ref(NodeRef, d, path)][1..] == [];
  }

  /** A node has something at a path or denies it, never both, and only in one way. */
  lemma OfferedOrDenied(net: Net, codec: Codec, d: Id, path: string)
    ensures (exists v :: Offers(net, codec, d, path, v)) <==> !exists why :: Denies(net, codec, d, path, why)
    ensures forall v, w :: Offers(net, codec, d, path, v) && Offers(net, codec, d, path, w) ==> v == w
    ensures forall v, w :: Denies(net, codec, d, path, v) && Denies(net, codec, d, path, w) ==> v == w
  {
    LookedUp(net, codec, d, path);
    var r := Resolve(net, codec, d, path);
    if r.Got? { assert Offers(net, codec, d, path, r.value); } else { assert Denies(net, codec, d, path, r); }
  }
}
