/**
 * Which JSON values a schema accepts: the keywords of JSON Schema 2020-12 that
 * the comparison reads (section 6.1 of the Validation specification, sections
 * 10.2.1 and 10.3 of Core), with the readOnly and writeOnly of OpenAPI 3.1.
 *
 * References may be cyclic, so acceptance is indexed by the number of schemas
 * entered on the way; a value is accepted when some number suffices.
 */
module Instances {
  import opened Wrappers
  import opened Json
  import opened Documents
  import opened Compatibility

  /**
   * How a document is read.
   *  - `tolerant`: keys that the schema does not show are ignored, as a client does;
   *    otherwise declared keys hidden in this direction are refused and undeclared
   *    ones are refused where the schema forbids them.
   *  - `sends(id, key)`: the keys the author of the value may use at schema `id`.
   *  - `formats(f, v)`: what the format `f` says of `v`.
   */
  datatype Reading = Reading(
    doc: Document,
    direction: Direction,
    tolerant: bool,
    sends: (NodeId, string) -> bool,
    formats: (string, Json) -> bool)

  predicate HasType(v: Json, t: string) {
    match v
    case Null => t == "null"
    case Bool(_) => t == "boolean"
    case Num(r, _) => t == "number" || (t == "integer" && r == r.Floor as real)
    case Str(_) => t == "string"
    case Arr(_) => t == "array"
    case Obj(_) => t == "object"
  }

  predicate TypeAccepts(types: Option<set<string>>, v: Json) {
    types.None? || exists t | t in types.value :: HasType(v, t)
  }

  predicate EnumAccepts(values: Option<seq<Json>>, v: Json) {
    values.None? || exists i | 0 <= i < |values.value| :: SameInstance(v, values.value[i])
  }

  predicate ConstAccepts(constant: Option<Json>, v: Json) {
    constant.None? || SameInstance(v, constant.value)
  }

  predicate ScalarsAccept(kw: Keywords, formats: (string, Json) -> bool, v: Json) {
    && TypeAccepts(TypeSet(kw.typ), v)
    && (kw.format.Some? ==> formats(kw.format.value, v))
    && EnumAccepts(kw.enumeration, v)
    && ConstAccepts(kw.constant, v)
  }

  /** `depth` bounds the number of nested schemas entered. */
  ghost predicate Accepts(r: Reading, depth: nat, id: NodeId, v: Json)
    requires id < |r.doc.nodes|
    decreases depth, 3
  {
    depth > 0 && Target(r.doc, id).Some? &&
    var t := Target(r.doc, id).value;
    match r.doc.nodes[t]
    case Literal(x) => x == Bool(true)
    case Reference(_) => false
    case Schema(kw) =>
      && ScalarsAccept(kw, r.formats, v)
      && AcceptsAlternatives(r, depth, t, v)
      && (v.Arr? ==> AcceptsItems(r, depth, t, v))
      && (v.Obj? ==> AcceptsObject(r, depth, t, v))
  }

  ghost predicate AcceptsAnyOf(r: Reading, depth: nat, t: NodeId, b: Branches, v: Json)
    requires depth > 0 && r.doc.NestedBranches(t, b)
    decreases depth, 0
  {
    b.Alternatives? ==> exists i | 0 <= i < |b.ids| :: Accepts(r, depth - 1, b.ids[i], v)
  }

  /** This branch accepts and all others refuse; a tolerant reader is content with a branch that fits. */
  ghost predicate AcceptsOnlyAt(r: Reading, depth: nat, t: NodeId, b: Branches, i: nat, v: Json)
    requires depth > 0 && b.Alternatives? && i < |b.ids| && r.doc.NestedBranches(t, b)
    decreases depth, 0
  {
    && Accepts(r, depth - 1, b.ids[i], v)
    && (r.tolerant || forall j | 0 <= j < |b.ids| && j != i :: Refuses(r, depth - 1, b.ids[j], v))
  }

  ghost predicate AcceptsOneOf(r: Reading, depth: nat, t: NodeId, b: Branches, v: Json)
    requires depth > 0 && r.doc.NestedBranches(t, b)
    decreases depth, 1
  {
    b.Alternatives? ==> exists i | 0 <= i < |b.ids| :: AcceptsOnlyAt(r, depth, t, b, i, v)
  }

  ghost predicate AcceptsAllOf(r: Reading, depth: nat, t: NodeId, b: Branches, v: Json)
    requires depth > 0 && r.doc.NestedBranches(t, b)
    decreases depth, 0
  {
    b.Alternatives? ==> forall i | 0 <= i < |b.ids| :: Accepts(r, depth - 1, b.ids[i], v)
  }

  ghost predicate AcceptsAlternatives(r: Reading, depth: nat, t: NodeId, v: Json)
    requires depth > 0 && t < |r.doc.nodes|
    decreases depth, 2
  {
    var kw := KeywordsAt(r.doc, t);
    && AcceptsOneOf(r, depth, t, kw.oneOf, v)
    && AcceptsAnyOf(r, depth, t, kw.anyOf, v)
    && AcceptsAllOf(r, depth, t, kw.allOf, v)
  }

  ghost predicate AcceptsItems(r: Reading, depth: nat, t: NodeId, v: Json)
    requires depth > 0 && t < |r.doc.nodes| && v.Arr?
    decreases depth, 1
  {
    var items := KeywordsAt(r.doc, t).items;
    items.Some? ==> forall i | 0 <= i < |v.items| :: Accepts(r, depth - 1, items.value, v.items[i])
  }

  ghost predicate HasRequired(r: Reading, t: NodeId, v: Json)
    requires t < |r.doc.nodes| && v.Obj?
  {
    forall name | name in KeywordsAt(r.doc, t).required && !Hidden(r.doc, t, r.direction, name) :: name in v.fields
  }

  /** The schema that judges a key, where one does. */
  function KeySchema(r: Reading, t: NodeId, key: string): (s: Option<NodeId>)
    requires t < |r.doc.nodes|
    ensures s.Some? ==> s.value < |r.doc.nodes|
  {
    var kw := KeywordsAt(r.doc, t);
    if key in Visible(r.doc, t, r.direction) then Some(Properties(kw)[key])
    else if key !in Properties(kw) && kw.additional.Each? then Some(kw.additional.schema)
    else None
  }

  /** Where no schema judges a key: may it be there at all? */
  predicate KeyFree(r: Reading, t: NodeId, key: string)
    requires t < |r.doc.nodes|
  {
    var kw := KeywordsAt(r.doc, t);
    r.tolerant || (key !in Properties(kw) && AllowsUndeclared(kw))
  }

  ghost predicate AcceptsKey(r: Reading, depth: nat, t: NodeId, key: string, v: Json)
    requires depth > 0 && t < |r.doc.nodes|
    decreases depth, 0
  {
    && r.sends(t, key)
    && var s := KeySchema(r, t, key);
       if s.Some? then Accepts(r, depth - 1, s.value, v) else KeyFree(r, t, key)
  }

  ghost predicate AcceptsObject(r: Reading, depth: nat, t: NodeId, v: Json)
    requires depth > 0 && t < |r.doc.nodes| && v.Obj?
    decreases depth, 1
  {
    && HasRequired(r, t, v)
    && forall key | key in v.fields :: AcceptsKey(r, depth, t, key, v.fields[key])
  }

  // ---------------------------------------------------------------- refusal

  /**
   * Refused within `depth` nested schemas.  Stated on its own, since a value
   * that is not accepted within some depth may be accepted within a greater one.
   */
  ghost predicate Refuses(r: Reading, depth: nat, id: NodeId, v: Json)
    requires id < |r.doc.nodes|
    decreases depth, 3
  {
    depth > 0 && Target(r.doc, id).Some? &&
    var t := Target(r.doc, id).value;
    match r.doc.nodes[t]
    case Literal(x) => x != Bool(true)
    case Reference(_) => false
    case Schema(kw) =>
      || !ScalarsAccept(kw, r.formats, v)
      || RefusesAlternatives(r, depth, t, v)
      || (v.Arr? && RefusesItems(r, depth, t, v))
      || (v.Obj? && RefusesObject(r, depth, t, v))
  }

  ghost predicate RefusesAnyOf(r: Reading, depth: nat, t: NodeId, b: Branches, v: Json)
    requires depth > 0 && r.doc.NestedBranches(t, b)
    decreases depth, 0
  {
    b.Alternatives? && forall i | 0 <= i < |b.ids| :: Refuses(r, depth - 1, b.ids[i], v)
  }

  ghost predicate AcceptsTwo(r: Reading, depth: nat, t: NodeId, b: Branches, v: Json)
    requires depth > 0 && r.doc.NestedBranches(t, b)
    decreases depth, 0
  {
    b.Alternatives? && exists i, j | 0 <= i < j < |b.ids| ::
      Accepts(r, depth - 1, b.ids[i], v) && Accepts(r, depth - 1, b.ids[j], v)
  }

  /** No branch accepts, or two do. */
  ghost predicate RefusesOneOf(r: Reading, depth: nat, t: NodeId, b: Branches, v: Json)
    requires depth > 0 && r.doc.NestedBranches(t, b)
    decreases depth, 1
  {
    RefusesAnyOf(r, depth, t, b, v) || (!r.tolerant && AcceptsTwo(r, depth, t, b, v))
  }

  ghost predicate RefusesAllOf(r: Reading, depth: nat, t: NodeId, b: Branches, v: Json)
    requires depth > 0 && r.doc.NestedBranches(t, b)
    decreases depth, 0
  {
    b.Alternatives? && exists i | 0 <= i < |b.ids| :: Refuses(r, depth - 1, b.ids[i], v)
  }

  ghost predicate RefusesAlternatives(r: Reading, depth: nat, t: NodeId, v: Json)
    requires depth > 0 && t < |r.doc.nodes|
    decreases depth, 2
  {
    var kw := KeywordsAt(r.doc, t);
    || RefusesOneOf(r, depth, t, kw.oneOf, v)
    || RefusesAnyOf(r, depth, t, kw.anyOf, v)
    || RefusesAllOf(r, depth, t, kw.allOf, v)
  }

  ghost predicate RefusesItems(r: Reading, depth: nat, t: NodeId, v: Json)
    requires depth > 0 && t < |r.doc.nodes| && v.Arr?
    decreases depth, 1
  {
    var items := KeywordsAt(r.doc, t).items;
    items.Some? && exists i | 0 <= i < |v.items| :: Refuses(r, depth - 1, items.value, v.items[i])
  }

  ghost predicate RefusesKey(r: Reading, depth: nat, t: NodeId, key: string, v: Json)
    requires depth > 0 && t < |r.doc.nodes|
    decreases depth, 0
  {
    || !r.sends(t, key)
    || var s := KeySchema(r, t, key);
       if s.Some? then Refuses(r, depth - 1, s.value, v) else !KeyFree(r, t, key)
  }

  ghost predicate RefusesObject(r: Reading, depth: nat, t: NodeId, v: Json)
    requires depth > 0 && t < |r.doc.nodes| && v.Obj?
    decreases depth, 1
  {
    || !HasRequired(r, t, v)
    || exists key | key in v.fields :: RefusesKey(r, depth, t, key, v.fields[key])
  }

  // ---------------------------------------------------------------- validity

  /** The value is valid under the schema at `id`. */
  ghost predicate Valid(r: Reading, id: NodeId, v: Json)
    requires id < |r.doc.nodes|
  {
    exists depth: nat :: Accepts(r, depth, id, v)
  }

  ghost predicate Invalid(r: Reading, id: NodeId, v: Json)
    requires id < |r.doc.nodes|
  {
    exists depth: nat :: Refuses(r, depth, id, v)
  }

  // ---------------------------------------------------------------- the keywords of a valid value

  ghost predicate ValidAnyOf(r: Reading, t: NodeId, b: Branches, v: Json)
    requires r.doc.NestedBranches(t, b)
  {
    b.Alternatives? ==> exists i | 0 <= i < |b.ids| :: Valid(r, b.ids[i], v)
  }

  ghost predicate ValidOnlyAt(r: Reading, t: NodeId, b: Branches, i: nat, v: Json)
    requires b.Alternatives? && i < |b.ids| && r.doc.NestedBranches(t, b)
  {
    Valid(r, b.ids[i], v) && (r.tolerant || forall j | 0 <= j < |b.ids| && j != i :: Invalid(r, b.ids[j], v))
  }

  ghost predicate ValidOneOf(r: Reading, t: NodeId, b: Branches, v: Json)
    requires r.doc.NestedBranches(t, b)
  {
    b.Alternatives? ==> exists i | 0 <= i < |b.ids| :: ValidOnlyAt(r, t, b, i, v)
  }

  ghost predicate ValidAllOf(r: Reading, t: NodeId, b: Branches, v: Json)
    requires r.doc.NestedBranches(t, b)
  {
    b.Alternatives? ==> forall i | 0 <= i < |b.ids| :: Valid(r, b.ids[i], v)
  }

  ghost predicate ValidItems(r: Reading, t: NodeId, v: Json)
    requires t < |r.doc.nodes| && v.Arr?
  {
    var items := KeywordsAt(r.doc, t).items;
    items.Some? ==> forall i | 0 <= i < |v.items| :: Valid(r, items.value, v.items[i])
  }

  ghost predicate ValidKey(r: Reading, t: NodeId, key: string, v: Json)
    requires t < |r.doc.nodes|
  {
    && r.sends(t, key)
    && var s := KeySchema(r, t, key);
       if s.Some? then Valid(r, s.value, v) else KeyFree(r, t, key)
  }

  ghost predicate ValidObject(r: Reading, t: NodeId, v: Json)
    requires t < |r.doc.nodes| && v.Obj?
  {
    HasRequired(r, t, v) && forall key | key in v.fields :: ValidKey(r, t, key, v.fields[key])
  }

  ghost predicate ValidBody(r: Reading, t: NodeId, v: Json)
    requires t < |r.doc.nodes|
  {
    var kw := KeywordsAt(r.doc, t);
    && ScalarsAccept(kw, r.formats, v)
    && ValidOneOf(r, t, kw.oneOf, v)
    && ValidAnyOf(r, t, kw.anyOf, v)
    && ValidAllOf(r, t, kw.allOf, v)
    && (v.Arr? ==> ValidItems(r, t, v))
    && (v.Obj? ==> ValidObject(r, t, v))
  }

  /** No place that should hold a schema holds null. */
  predicate NoNulls(d: Document) {
    forall id: NodeId | id < |d.nodes| :: d.nodes[id] != Literal(Null)
  }
}
