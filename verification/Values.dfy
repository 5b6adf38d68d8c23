/** Parameter values: JSON-shaped trees whose strings are sequences of literal text and references. */
module Values {

  datatype RefKind = StepRef | NodeRef

  /** A piece of a parameter string: text, or ${step.<name>.<path>} / ${node.<name>.<path>}. */
  datatype Seg = Lit(text: string) | Ref(kind: RefKind, name: string, path: string)

  type Text = seq<Seg>

  /** Obj lists its fields in the order a walk happens to visit them. */
  datatype Val =
    | Str(text: Text)
    | Scalar(raw: string)
    | Arr(items: seq<Val>)
    | Obj(fields: seq<Field>)

  datatype Field = Field(key: string, value: Val)

  /** A text as it is written. */
  function Spelled(t: Text): string {
    if t == [] then "" else SpelledSeg(t[0]) + Spelled(t[1..])
  }

  function SpelledSeg(s: Seg): string {
    match s
    case Lit(text) => text
    case Ref(kind, name, path) =>
      "${" + (if kind == StepRef then "step." else "node.") + name + (if path == "" then "" else "." + path) + "}"
  }

  // ---- References ----

  function RefsOfText(t: Text): seq<Seg> {
    if t == [] then [] else (if t[0].Ref? then [t[0]] else []) + RefsOfText(t[1..])
  }

  /** Every reference in the string leaves of a value, in walking order. */
  function RefsOf(v: Val): seq<Seg>
    decreases v
  {
    match v
    case Str(t) => RefsOfText(t)
    case Scalar(_) => []
    case Arr(items) => RefsOfItems(items)
    case Obj(fields) => RefsOfFields(fields)
  }

  function RefsOfItems(items: seq<Val>): seq<Seg>
    decreases items
  {
    if items == [] then [] else RefsOf(items[0]) + RefsOfItems(items[1..])
  }

  function RefsOfFields(fields: seq<Field>): seq<Seg>
    decreases fields
  {
    if fields == [] then [] else RefsOf(fields[0].value) + RefsOfFields(fields[1..])
  }

  // ---- Replacing references one for one ----

  function MapText(f: Seg -> Seg, t: Text): (r: Text)
    ensures |r| == |t| && forall k :: 0 <= k < |t| ==> r[k] == f(t[k])
  {
    seq(|t|, k requires 0 <= k < |t| => f(t[k]))
  }

  function MapVal(f: Seg -> Seg, v: Val): Val
    decreases v
  {
    match v
    case Str(t) => Str(MapText(f, t))
    case Scalar(_) => v
    case Arr(items) => Arr(MapItems(f, items))
    case Obj(fields) => Obj(MapFields(f, fields))
  }

  function MapItems(f: Seg -> Seg, items: seq<Val>): seq<Val>
    decreases items
  {
    if items == [] then [] else [MapVal(f, items[0])] + MapItems(f, items[1..])
  }

  function MapFields(f: Seg -> Seg, fields: seq<Field>): seq<Field>
    decreases fields
  {
    if fields == [] then [] else [Field(fields[0].key, MapVal(f, fields[0].value))] + MapFields(f, fields[1..])
  }

  /** A replacement that turns references into references and leaves text alone. */
  ghost predicate KeepsRefs(f: Seg -> Seg) {
    forall s :: f(s).Ref? == s.Ref?
  }

  lemma MapConcat(f: Seg -> Seg, a: Text, b: Text)
    ensures MapText(f, a + b) == MapText(f, a) + MapText(f, b)
  {}

  lemma {:induction false} RefsMapped(f: Seg -> Seg, v: Val)
    requires KeepsRefs(f)
    ensures RefsOf(MapVal(f, v)) == MapText(f, RefsOf(v))
    decreases v
  {
    match v
    case Str(t) => TextRefsMapped(f, t);
    case Scalar(_) =>
    case Arr(items) => ItemRefsMapped(f, items);
    case Obj(fields) => FieldRefsMapped(f, fields);
  }

  lemma {:induction false} TextRefsMapped(f: Seg -> Seg, t: Text)
    requires KeepsRefs(f)
    ensures RefsOfText(MapText(f, t)) == MapText(f, RefsOfText(t))
  {
    if t != [] {
      TextRefsMapped(f, t[1..]);
      assert MapText(f, t)[1..] == MapText(f, t[1..]);
    }
  }

  lemma {:induction false} ItemRefsMapped(f: Seg -> Seg, items: seq<Val>)
    requires KeepsRefs(f)
    ensures RefsOfItems(MapItems(f, items)) == MapText(f, RefsOfItems(items))
    decreases items
  {
    if items != [] {
      RefsMapped(f, items[0]);
      ItemRefsMapped(f, items[1..]);
      assert MapItems(f, items)[1..] == MapItems(f, items[1..]);
      MapConcat(f, RefsOf(items[0]), RefsOfItems(items[1..]));
    }
  }

  lemma {:induction false} FieldRefsMapped(f: Seg -> Seg, fields: seq<Field>)
    requires KeepsRefs(f)
    ensures RefsOfFields(MapFields(f, fields)) == MapText(f, RefsOfFields(fields))
    decreases fields
  {
    if fields != [] {
      RefsMapped(f, fields[0].value);
      FieldRefsMapped(f, fields[1..]);
      assert MapFields(f, fields)[1..] == MapFields(f, fields[1..]);
      MapConcat(f, RefsOf(fields[0].value), RefsOfFields(fields[1..]));
    }
  }

  // ---- Looking a field up by name ----

  /** The first field of that name holds v. */
  ghost predicate FirstHolds(fields: seq<Field>, key: string, v: Val) {
    exists k :: 0 <= k < |fields| && fields[k] == Field(key, v) && forall j :: 0 <= j < k ==> fields[j].key != key
  }

  lemma HoldsNext(fields: seq<Field>, key: string, v: Val)
    requires fields != []
    ensures FirstHolds(fields, key, v) <==> if fields[0].key == key then fields[0].value == v else FirstHolds(fields[1..], key, v)
  {
    if fields[0].key == key {
      if fields[0].value == v { assert fields[0] == Field(key, v); }
    } else {
      if FirstHolds(fields, key, v) {
        var k :| 0 <= k < |fields| && fields[k] == Field(key, v) && forall j :: 0 <= j < k ==> fields[j].key != key;
        assert fields[1..][k - 1] == Field(key, v);
      }
      if FirstHolds(fields[1..], key, v) {
        var k :| 0 <= k < |fields[1..]| && fields[1..][k] == Field(key, v) && forall j :: 0 <= j < k ==> fields[1..][j].key != key;
        assert fields[k + 1] == Field(key, v);
        forall j | 0 <= j < k + 1 ensures fields[j].key != key { if j > 0 { assert fields[j] == fields[1..][j - 1]; } }
      }
    }
  }
}
