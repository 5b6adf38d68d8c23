/** Fire-time substitution of ${node.<id>.<path>} references (agent/dispatcher.go, substituteTemplates). */
module Templates {
  import opened Values
  import opened Nets

  /** What the engine asks of its JSON library and of the tools: how a text parses, whether it is JSON, how a
      value is written into a string, and how a tool's excerpt is widened with the file holding all of it. */
  datatype Codec = Codec(parse: Text -> Val, isJson: Text -> bool, render: Val -> Text, widen: (Id, string, Val) -> Val)

  datatype Lookup = Missing | EmptyResult | Blocked(state: NodeState) | Absent | Got(value: Val)

  /** resolveTemplateField: the value a node offers at a path, or why there is none. */
  function Resolve(net: Net, codec: Codec, dep: Id, path: string): Lookup {
    if dep !in net.nodes then Missing
    else
      var info := net.nodes[dep];
      var out := info.outcome;
      if out.result == [] then
        (if info.state == Failed || info.state == Skipped then Blocked(info.state) else EmptyResult)
      else if path == "" then
        (if out.body.Body? && "" in out.body.fields then
           (if out.body.fields[""].Str? then Got(codec.parse(out.body.fields[""].text)) else Got(out.body.fields[""]))
         else Got(codec.parse(out.result)))
      else if out.body.Body? && path in out.body.fields then Got(out.body.fields[path])
      else if !codec.isJson(out.result) then Got(Str(out.result))
      else Absent
  }

  predicate IdChar(c: char) {
    'a' <= c <= 'z' || 'A' <= c <= 'Z' || '0' <= c <= '9' || c == '_' || c == '-'
  }

  /** A node reference the substitution can match. */
  predicate Addressable(s: Seg) {
    s.Ref? && s.kind == NodeRef && s.name != "" && forall i :: 0 <= i < |s.name| ==> IdChar(s.name[i])
  }

  /** injectedString: text goes in as it is, anything else as its JSON. */
  function Inject(codec: Codec, v: Val): Text {
    if v.Str? then v.text else codec.render(v)
  }

  // ---- The substitution as one simultaneous map over the original string leaves ----

  function SubSeg(net: Net, codec: Codec, s: Seg): Text {
    if !Addressable(s) then [s]
    else
      match Resolve(net, codec, s.name, s.path)
      case Got(v) => Inject(codec, v)
      case _ => [s]
  }

  function Splice(net: Net, codec: Codec, t: Text): Text {
    if t == [] then [] else Splice(net, codec, t[..|t| - 1]) + SubSeg(net, codec, t[|t| - 1])
  }

  /** A string that is nothing but one reference becomes the value itself, of whatever type. */
  predicate Bare(t: Text) {
    |t| == 1 && Addressable(t[0])
  }

  function SubLeaf(net: Net, codec: Codec, t: Text): Val {
    if Bare(t) then
      match Resolve(net, codec, t[0].name, t[0].path)
      case Got(v) => codec.widen(t[0].name, t[0].path, v)
      case _ => Str(t)
    else Str(Splice(net, codec, t))
  }

  function SubVal(net: Net, codec: Codec, v: Val): Val
    decreases v
  {
    match v
    case Str(t) => SubLeaf(net, codec, t)
    case Scalar(_) => v
    case Arr(items) => Arr(SubItems(net, codec, items))
    case Obj(fields) => Obj(SubFields(net, codec, fields))
  }

  function SubItems(net: Net, codec: Codec, items: seq<Val>): (r: seq<Val>)
    ensures |r| == |items|
    decreases items
  {
    if items == [] then [] else [SubVal(net, codec, items[0])] + SubItems(net, codec, items[1..])
  }

  function SubFields(net: Net, codec: Codec, fields: seq<Field>): (r: seq<Field>)
    ensures |r| == |fields|
    decreases fields
  {
    if fields == [] then []
    else [Field(fields[0].key, SubVal(net, codec, fields[0].value))] + SubFields(net, codec, fields[1..])
  }

  predicate IsStepReference(s: Seg) {
    s.Ref? && s.kind == StepRef && s.name != ""
  }

  predicate Fails(net: Net, codec: Codec, s: Seg) {
    Addressable(s) && !Resolve(net, codec, s.name, s.path).Got?
  }

  /** The first lookup that failed: which node, which path, and why. `Blocked` is the reason the scheduler takes for a
      skipped step instead of a failed one. */
  datatype Failure = NoFailure | Unmet(dep: Id, path: string, why: Lookup)

  function Then(a: Failure, b: Failure): Failure {
    if a.Unmet? then a else b
  }

  /** The first reference of a list, in walking order, that has no value. */
  function FirstFailure(net: Net, codec: Codec, refs: seq<Seg>): (r: Failure)
    ensures r.Unmet? <==> exists s :: s in refs && Fails(net, codec, s)
  {
    if refs == [] then NoFailure
    else
      assert refs == [refs[0]] + refs[1..];
      Then(FailureAt(net, codec, refs[0]), FirstFailure(net, codec, refs[1..]))
  }

  function FailureAt(net: Net, codec: Codec, s: Seg): Failure {
    if Fails(net, codec, s) then Unmet(s.name, s.path, Resolve(net, codec, s.name, s.path)) else NoFailure
  }

  datatype Why = StepReference | Dependency(first: Failure) | LeftOver
  datatype Substituted = Ok(params: seq<Field>) | Refused(why: Why)

  function Substitution(net: Net, codec: Codec, params: seq<Field>): Substituted {
    var refs := RefsOfFields(params);
    var first := FirstFailure(net, codec, refs);
    if exists s :: s in refs && IsStepReference(s) then Refused(StepReference)
    else if first.Unmet? then Refused(Dependency(first))
    else
      var out := SubFields(net, codec, params);
      if RefsOfFields(out) != [] then Refused(LeftOver) else Ok(out)
  }

  // ---- The walk that performs it ----

  type Cache = map<(Id, string), Val>

  ghost predicate CacheOk(net: Net, codec: Codec, cache: Cache) {
    forall k :: k in cache ==> Resolve(net, codec, k.0, k.1) == Got(cache[k])
  }

  /** resolveTemplateFieldCached. */
  method ResolveCached(net: Net, codec: Codec, dep: Id, path: string, cache0: Cache) returns (r: Lookup, cache: Cache)
    requires CacheOk(net, codec, cache0)
    ensures CacheOk(net, codec, cache) && r == Resolve(net, codec, dep, path)
  {
    cache := cache0;
    if (dep, path) in cache { return Got(cache[(dep, path)]), cache; }
    r := Resolve(net, codec, dep, path);
    if r.Got? { cache := cache[(dep, path) := r.value]; }
  }

  lemma {:induction false} FirstOfBoth(net: Net, codec: Codec, a: seq<Seg>, b: seq<Seg>)
    ensures FirstFailure(net, codec, a + b) == Then(FirstFailure(net, codec, a), FirstFailure(net, codec, b))
    decreases |a|
  {
    if a == [] {
      assert a + b == b;
    } else {
      assert (a + b)[1..] == a[1..] + b && (a + b)[0] == a[0];
      hide FailureAt, Fails;
      FirstOfBoth(net, codec, a[1..], b);
    }
  }

  /** One more piece of a text. */
  lemma NextPiece(net: Net, codec: Codec, t: Text, k: nat)
    requires k < |t|
    ensures FirstFailure(net, codec, RefsOfText(t[..k + 1]))
      == Then(FirstFailure(net, codec, RefsOfText(t[..k])), FailureAt(net, codec, t[k]))
  {
    assert t[..k + 1] == t[..k] + [t[k]];
    RefsConcat(t[..k], [t[k]]);
    OneRef(t[k]);
    FirstOfBoth(net, codec, RefsOfText(t[..k]), RefsOfText([t[k]]));
    LoneFailure(net, codec, t[k]);
  }

  lemma LoneFailure(net: Net, codec: Codec, s: Seg)
    ensures FirstFailure(net, codec, RefsOfText([s])) == FailureAt(net, codec, s)
  {
    OneRef(s);
    assert FirstFailure(net, codec, []) == NoFailure;
    if s.Ref? { assert [s][1..] == []; }
  }

  lemma {:induction false} ItemRefsNext(items: seq<Val>, i: nat)
    requires i < |items|
    ensures RefsOfItems(items[..i + 1]) == RefsOfItems(items[..i]) + RefsOf(items[i])
  {
    if i == 0 {
      assert items[..1][1..] == [] && items[..0] == [];
    } else {
      ItemRefsNext(items[1..], i - 1);
      assert items[..i + 1][1..] == items[1..][..i] && items[..i][1..] == items[1..][..i - 1];
    }
  }

  lemma {:induction false} FieldRefsNext(fields: seq<Field>, i: nat)
    requires i < |fields|
    ensures RefsOfFields(fields[..i + 1]) == RefsOfFields(fields[..i]) + RefsOf(fields[i].value)
  {
    if i == 0 {
      assert fields[..1][1..] == [] && fields[..0] == [];
    } else {
      FieldRefsNext(fields[1..], i - 1);
      assert fields[..i + 1][1..] == fields[1..][..i] && fields[..i][1..] == fields[1..][..i - 1];
    }
  }

  /** What happens to one string: bare reference or references inside text. */
  method SubString(net: Net, codec: Codec, t: Text, cache0: Cache, failed0: Failure)
    returns (v: Val, cache: Cache, failed: Failure)
    requires CacheOk(net, codec, cache0)
    ensures CacheOk(net, codec, cache) && v == SubLeaf(net, codec, t)
    ensures failed == Then(failed0, FirstFailure(net, codec, RefsOfText(t)))
  {
    cache, failed := cache0, failed0;
    if Bare(t) {
      assert t == [t[0]];
      LoneFailure(net, codec, t[0]);
      var r;
      r, cache := ResolveCached(net, codec, t[0].name, t[0].path, cache);
      match r
      case Got(value) => return codec.widen(t[0].name, t[0].path, value), cache, failed;
      case _ => return Str(t), cache, if failed0.Unmet? then failed0 else Unmet(t[0].name, t[0].path, r);
    }
    hide Resolve, FailureAt, Addressable, CacheOk, SubSeg, FirstFailure;
    NothingFails(net, codec);
    var out: Text := [];
    for k := 0 to |t|
      invariant CacheOk(net, codec, cache)
      invariant out == Splice(net, codec, t[..k])
      invariant failed == Then(failed0, FirstFailure(net, codec, RefsOfText(t[..k])))
    {
      assert t[..k + 1][..k] == t[..k];
      NextPiece(net, codec, t, k);
      var piece;
      piece, cache, failed := SubPiece(net, codec, t[k], cache, failed);
      out := out + piece;
    }
    assert t[..|t|] == t;
    v := Str(out);
  }

  lemma NothingFails(net: Net, codec: Codec)
    ensures FirstFailure(net, codec, []) == NoFailure
  {}

  /** One piece of a longer string. */
  method SubPiece(net: Net, codec: Codec, s: Seg, cache0: Cache, failed0: Failure)
    returns (piece: Text, cache: Cache, failed: Failure)
    requires CacheOk(net, codec, cache0)
    ensures CacheOk(net, codec, cache) && piece == SubSeg(net, codec, s)
    ensures failed == Then(failed0, FailureAt(net, codec, s))
  {
    piece, cache, failed := [s], cache0, failed0;
    if !Addressable(s) { return; }
    var r;
    r, cache := ResolveCached(net, codec, s.name, s.path, cache);
    match r
    case Got(value) => piece := Inject(codec, value);
    case _ => if failed0 == NoFailure { failed := Unmet(s.name, s.path, r); }
  }

  lemma {:induction false} RefsAreRefs(t: Text)
    ensures forall s :: s in RefsOfText(t) <==> s in t && s.Ref?
  {
    if t != [] {
      RefsAreRefs(t[1..]);
      assert t == [t[0]] + t[1..];
    }
  }

  /** walkParams over a container: every string in it is looked at once, as it was before the walk; the failure kept is
      the first one met. */
  method Walk(net: Net, codec: Codec, v: Val, cache0: Cache, failed0: Failure)
    returns (w: Val, cache: Cache, failed: Failure)
    requires CacheOk(net, codec, cache0)
    ensures CacheOk(net, codec, cache) && w == SubVal(net, codec, v)
    ensures failed == Then(failed0, FirstFailure(net, codec, RefsOf(v)))
    decreases v
  {
    cache, failed := cache0, failed0;
    hide CacheOk, FirstFailure;
    NothingFails(net, codec);
    match v
    case Str(t) =>
      w, cache, failed := SubString(net, codec, t, cache, failed);
    case Scalar(_) =>
      w := v;
    case Arr(items) =>
      var out := items;
      for i := 0 to |items|
        invariant CacheOk(net, codec, cache) && |out| == |items| && out[i..] == items[i..]
        invariant out[..i] == SubItems(net, codec, items)[..i]
        invariant failed == Then(failed0, FirstFailure(net, codec, RefsOfItems(items[..i])))
      {
        var x;
        assert out[i] == items[i];
        x, cache, failed := Walk(net, codec, items[i], cache, failed);
        SubItemAt(net, codec, items, i);
        ItemRefsNext(items, i);
        FirstOfBoth(net, codec, RefsOfItems(items[..i]), RefsOf(items[i]));
        out := out[i := x];
      }
      assert items[..|items|] == items;
      w := Arr(out);
    case Obj(fields) =>
      var out;
      out, cache, failed := WalkFields(net, codec, fields, cache, failed);
      w := Obj(out);
  }

  method WalkFields(net: Net, codec: Codec, fields: seq<Field>, cache0: Cache, failed0: Failure)
    returns (out: seq<Field>, cache: Cache, failed: Failure)
    requires CacheOk(net, codec, cache0)
    ensures CacheOk(net, codec, cache) && out == SubFields(net, codec, fields)
    ensures failed == Then(failed0, FirstFailure(net, codec, RefsOfFields(fields)))
    decreases fields
  {
    cache, failed, out := cache0, failed0, fields;
    hide CacheOk, FirstFailure;
    NothingFails(net, codec);
    for i := 0 to |fields|
      invariant CacheOk(net, codec, cache) && |out| == |fields| && out[i..] == fields[i..]
      invariant out[..i] == SubFields(net, codec, fields)[..i]
      invariant failed == Then(failed0, FirstFailure(net, codec, RefsOfFields(fields[..i])))
    {
      var x;
      assert out[i] == fields[i];
      x, cache, failed := Walk(net, codec, fields[i].value, cache, failed);
      SubFieldAt(net, codec, fields, i);
      FieldRefsNext(fields, i);
      FirstOfBoth(net, codec, RefsOfFields(fields[..i]), RefsOf(fields[i].value));
      out := out[i := Field(fields[i].key, x)];
    }
    assert fields[..|fields|] == fields;
  }

  lemma {:induction false} SubItemAt(net: Net, codec: Codec, items: seq<Val>, i: nat)
    requires i < |items|
    ensures SubItems(net, codec, items)[i] == SubVal(net, codec, items[i])
  {
    if i > 0 { SubItemAt(net, codec, items[1..], i - 1); }
  }

  lemma {:induction false} SubFieldAt(net: Net, codec: Codec, fields: seq<Field>, i: nat)
    requires i < |fields|
    ensures SubFields(net, codec, fields)[i] == Field(fields[i].key, SubVal(net, codec, fields[i].value))
  {
    if i > 0 { SubFieldAt(net, codec, fields[1..], i - 1); }
  }

  lemma {:induction false} ItemRefs(items: seq<Val>)
    ensures forall s :: s in RefsOfItems(items) <==> exists j :: 0 <= j < |items| && s in RefsOf(items[j])
  {
    if items != [] {
      ItemRefs(items[1..]);
      forall s ensures s in RefsOfItems(items) <==> exists j :: 0 <= j < |items| && s in RefsOf(items[j]) {
        if j :| 0 <= j < |items[1..]| && s in RefsOf(items[1..][j]) { assert s in RefsOf(items[j + 1]); }
        if j :| 0 < j < |items| && s in RefsOf(items[j]) { assert s in RefsOf(items[1..][j - 1]); }
      }
    }
  }

  lemma {:induction false} FieldRefs(fields: seq<Field>)
    ensures forall s :: s in RefsOfFields(fields) <==> exists j :: 0 <= j < |fields| && s in RefsOf(fields[j].value)
  {
    if fields != [] {
      FieldRefs(fields[1..]);
      forall s ensures s in RefsOfFields(fields) <==> exists j :: 0 <= j < |fields| && s in RefsOf(fields[j].value) {
        if j :| 0 <= j < |fields[1..]| && s in RefsOf(fields[1..][j].value) { assert s in RefsOf(fields[j + 1].value); }
        if j :| 0 < j < |fields| && s in RefsOf(fields[j].value) { assert s in RefsOf(fields[1..][j - 1].value); }
      }
    }
  }

  /** agent/dispatcher.go, substituteTemplates followed by refuseUnresolvedReference. */
  method Substitute(net: Net, codec: Codec, params: seq<Field>) returns (r: Substituted)
    ensures r == Substitution(net, codec, params)
  {
    var refs := RefsOfFields(params);
    for k := 0 to |refs|
      invariant forall j :: 0 <= j < k ==> !IsStepReference(refs[j])
    {
      if IsStepReference(refs[k]) { return Refused(StepReference); }
    }
    var out, _, failed := WalkFields(net, codec, params, map[], NoFailure);
    if failed != NoFailure { return Refused(Dependency(failed)); }
    if RefsOfFields(out) != [] { return Refused(LeftOver); }
    return Ok(out);
  }

  // ---- When substitution succeeds ----

  /** The string leaves of a value. */
  function Leaves(v: Val): seq<Text>
    decreases v
  {
    match v
    case Str(t) => [t]
    case Scalar(_) => []
    case Arr(items) => LeavesOfItems(items)
    case Obj(fields) => LeavesOfFields(fields)
  }

  function LeavesOfItems(items: seq<Val>): seq<Text>
    decreases items
  {
    if items == [] then [] else Leaves(items[0]) + LeavesOfItems(items[1..])
  }

  function LeavesOfFields(fields: seq<Field>): seq<Text>
    decreases fields
  {
    if fields == [] then [] else Leaves(fields[0].value) + LeavesOfFields(fields[1..])
  }

  /** What stands in for the k-th piece of a leaf once its value v is known. */
  function Piece(codec: Codec, t: Text, k: nat, v: Val): Val
    requires k < |t| && t[k].Ref?
  {
    if |t| == 1 then codec.widen(t[k].name, t[k].path, v) else Str(Inject(codec, v))
  }

  /** Every reference of the leaf can be matched, has a value, and that value carries no reference of its own. */
  ghost predicate LeafOk(net: Net, codec: Codec, t: Text) {
    forall k :: 0 <= k < |t| && t[k].Ref? ==> SegOk(net, codec, t, k)
  }

  predicate SegOk(net: Net, codec: Codec, t: Text, k: nat)
    requires k < |t| && t[k].Ref?
  {
    && Addressable(t[k])
    && var r := Resolve(net, codec, t[k].name, t[k].path);
    && r.Got? && RefsOf(Piece(codec, t, k, r.value)) == []
  }

  lemma {:induction false} RefsConcat(a: Text, b: Text)
    ensures RefsOfText(a + b) == RefsOfText(a) + RefsOfText(b)
  {
    if a == [] {
      assert a + b == b;
    } else {
      assert (a + b)[1..] == a[1..] + b && (a + b)[0] == a[0];
      RefsConcat(a[1..], b);
      var first := if a[0].Ref? then [a[0]] else [];
      assert RefsOfText(a + b) == first + RefsOfText(a[1..] + b);
      assert first + (RefsOfText(a[1..]) + RefsOfText(b)) == (first + RefsOfText(a[1..])) + RefsOfText(b);
    }
  }

  lemma {:induction false} SpliceClean(net: Net, codec: Codec, t: Text)
    ensures RefsOfText(Splice(net, codec, t)) == []
      <==> forall k :: 0 <= k < |t| ==> RefsOfText(SubSeg(net, codec, t[k])) == []
  {
    if t != [] {
      var init, last := t[..|t| - 1], t[|t| - 1];
      SpliceClean(net, codec, init);
      RefsConcat(Splice(net, codec, init), SubSeg(net, codec, last));
      assert forall k :: 0 <= k < |init| ==> init[k] == t[k];
    }
  }

  lemma OneRef(s: Seg)
    ensures RefsOfText([s]) == if s.Ref? then [s] else []
  {
    assert [s][1..] == [];
  }

  /** A leaf comes out free of references and of failures exactly when it was in order to begin with. */
  lemma LeafCleanIff(net: Net, codec: Codec, t: Text)
    ensures RefsOf(SubLeaf(net, codec, t)) == [] && (forall s :: s in t ==> !Fails(net, codec, s))
      <==> LeafOk(net, codec, t)
  {
    if Bare(t) {
      OneRef(t[0]);
      assert t == [t[0]];
      if LeafOk(net, codec, t) { assert SegOk(net, codec, t, 0); }
    } else {
      SpliceClean(net, codec, t);
      forall k | 0 <= k < |t|
        ensures RefsOfText(SubSeg(net, codec, t[k])) == [] && !Fails(net, codec, t[k])
          <==> (t[k].Ref? ==> SegOk(net, codec, t, k))
      {
        OneRef(t[k]);
      }
      assert forall s :: s in t ==> exists k :: 0 <= k < |t| && t[k] == s;
    }
  }

  ghost predicate CleanAfter(net: Net, codec: Codec, refs: seq<Seg>, refs': seq<Seg>) {
    refs' == [] && forall s :: s in refs ==> !Fails(net, codec, s)
  }

  lemma {:induction false} ValCleanIff(net: Net, codec: Codec, v: Val)
    ensures CleanAfter(net, codec, RefsOf(v), RefsOf(SubVal(net, codec, v)))
      <==> forall t :: t in Leaves(v) ==> LeafOk(net, codec, t)
    decreases v
  {
    match v
    case Str(t) =>
      LeafCleanIff(net, codec, t);
      RefsAreRefs(t);
      assert forall s :: s in t && Fails(net, codec, s) ==> s in RefsOfText(t);
    case Scalar(_) =>
    case Arr(items) => ItemsCleanIff(net, codec, items);
    case Obj(fields) => FieldsCleanIff(net, codec, fields);
  }

  lemma {:induction false} ItemsCleanIff(net: Net, codec: Codec, items: seq<Val>)
    ensures CleanAfter(net, codec, RefsOfItems(items), RefsOfItems(SubItems(net, codec, items)))
      <==> forall t :: t in LeavesOfItems(items) ==> LeafOk(net, codec, t)
    decreases items
  {
    if items != [] {
      ValCleanIff(net, codec, items[0]);
      ItemsCleanIff(net, codec, items[1..]);
      assert SubItems(net, codec, items)[1..] == SubItems(net, codec, items[1..]);
    }
  }

  lemma {:induction false} FieldsCleanIff(net: Net, codec: Codec, fields: seq<Field>)
    ensures CleanAfter(net, codec, RefsOfFields(fields), RefsOfFields(SubFields(net, codec, fields)))
      <==> forall t :: t in LeavesOfFields(fields) ==> LeafOk(net, codec, t)
    decreases fields
  {
    if fields != [] {
      ValCleanIff(net, codec, fields[0].value);
      FieldsCleanIff(net, codec, fields[1..]);
      assert SubFields(net, codec, fields)[1..] == SubFields(net, codec, fields[1..]);
    }
  }

  lemma {:induction false} StepRefSpoils(net: Net, codec: Codec, fields: seq<Field>, s: Seg)
    requires s in RefsOfFields(fields) && s.Ref? && s.kind == StepRef
    ensures exists t :: t in LeavesOfFields(fields) && !LeafOk(net, codec, t)
  {
    var t := LeafOfRef(Obj(fields), s);
    var k :| 0 <= k < |t| && t[k] == s;
    assert !SegOk(net, codec, t, k);
  }

  lemma {:induction false} LeafOfRef(v: Val, s: Seg) returns (t: Text)
    requires s in RefsOf(v)
    ensures t in Leaves(v) && s in t && s.Ref?
    decreases v, 1
  {
    match v
    case Str(text) =>
      RefsAreRefs(text);
      t := text;
    case Arr(items) =>
      ItemRefs(items);
      var j :| 0 <= j < |items| && s in RefsOf(items[j]);
      t := LeafOfRef(items[j], s);
      ItemLeaves(items, j, t);
    case Obj(fields) =>
      FieldRefs(fields);
      var j :| 0 <= j < |fields| && s in RefsOf(fields[j].value);
      t := LeafOfRef(fields[j].value, s);
      FieldLeaves(fields, j, t);
  }

  lemma {:induction false} ItemLeaves(items: seq<Val>, j: nat, t: Text)
    requires j < |items| && t in Leaves(items[j])
    ensures t in LeavesOfItems(items)
  {
    if j > 0 { ItemLeaves(items[1..], j - 1, t); }
  }

  lemma {:induction false} FieldLeaves(fields: seq<Field>, j: nat, t: Text)
    requires j < |fields| && t in Leaves(fields[j].value)
    ensures t in LeavesOfFields(fields)
  {
    if j > 0 { FieldLeaves(fields[1..], j - 1, t); }
  }

  /** Substitution succeeds exactly when every reference names a node that has the value asked for and none of
      those values carries a reference itself: an injected reference is refused, never resolved in its turn.
      What it then yields has every leaf replaced at once and holds no reference. */
  lemma SucceedsIff(net: Net, codec: Codec, params: seq<Field>)
    ensures Substitution(net, codec, params).Ok? <==> forall t :: t in LeavesOfFields(params) ==> LeafOk(net, codec, t)
    ensures Substitution(net, codec, params).Ok? ==>
      var out := Substitution(net, codec, params).params; out == SubFields(net, codec, params) && RefsOfFields(out) == []
  {
    FieldsCleanIff(net, codec, params);
    if s :| s in RefsOfFields(params) && IsStepReference(s) { StepRefSpoils(net, codec, params, s); }
  }
}
