/**
 * Where the comparison reports nothing and the promise fails: one concrete pair
 * of documents for each premise of the inclusion, transitivity and order results.
 */
module Limits {
  import opened Wrappers
  import opened Json
  import opened Documents
  import opened Compatibility
  import opened Instances
  import opened Judgements
  import opened Inclusion
  import opened Transitivity

  function Single(kw: Keywords): Document
    requires RawDocument([Schema(kw)], map[], map[]).Valid()
  {
    RawDocument([Schema(kw)], map[], map[])
  }

  /** A schema and the one schema written inside it. */
  function Nest(kw: Keywords, inner: Keywords): Document
    requires RawDocument([Schema(kw), Schema(inner)], map[], map[]).Valid()
  {
    RawDocument([Schema(kw), Schema(inner)], map[], map[])
  }

  const ROOT: Edge := (Some(0), Some(0))

  ghost predicate Everything(id: NodeId, key: string) { true }

  /** The comparison approves the roots, yet a value one side accepts is refused by the other. */
  ghost predicate RequestMissed(c: Comparison, v: Json, formats: (string, Json) -> bool) {
    && ValidEdge(c, ROOT) && Compatible(c, true, ROOT)
    && 0 < |c.baseline.nodes| && 0 < |c.current.nodes|
    && Valid(Sent(c, Everything, formats), 0, v)
    && !Valid(Received(c, formats), 0, v)
  }

  ghost predicate ResponseMissed(c: Comparison, v: Json, formats: (string, Json) -> bool) {
    && ValidEdge(c, ROOT) && Compatible(c, true, ROOT)
    && 0 < |c.baseline.nodes| && 0 < |c.current.nodes|
    && Valid(Served(c, formats), 0, v)
    && !Valid(Read(c, formats), 0, v)
  }

  /** No schema below the roots is compared. */
  predicate FlatRoots(c: Comparison) {
    && 0 < |c.baseline.nodes| && 0 < |c.current.nodes| && c.baseline.nodes[0].Schema? && c.current.nodes[0].Schema?
    && var b, n := c.baseline.nodes[0].kw, c.current.nodes[0].kw;
       && b.oneOf.NoBranches? && b.anyOf.NoBranches? && b.allOf.NoBranches?
       && n.oneOf.NoBranches? && n.anyOf.NoBranches? && n.allOf.NoBranches?
       && b.properties.None? && b.items.None? && !(b.additional.Each? && n.additional.Each?)
  }

  /** Then the checks on the roots themselves decide. */
  lemma RootsCompatible(c: Comparison)
    requires FlatRoots(c) && PropertiesResolve(c.current, 0)
    requires var b, n := c.baseline.nodes[0].kw, c.current.nodes[0].kw;
             && TypeKept(TypeSet(b.typ), TypeSet(n.typ), c.direction) && FormatKept(b.format, n.format, c.direction)
             && EnumKept(b.enumeration, n.enumeration, c.direction) && ConstKept(b.constant, n.constant)
             && (c.direction == Request ==> n.required * Properties(n).Keys == {})
    requires AdditionalKept(c, (0, 0))
    ensures ValidEdge(c, ROOT) && Compatible(c, true, ROOT)
  {
    var relation: set<Pair> := {(0, 0)};
    assert Visible(c.baseline, 0, c.direction) == {};
    var n := c.current.nodes[0].kw;
    assert RequiredNames(c.current, 0, c.direction) <= n.required * Properties(n).Keys;
    assert LocallyCompatible(c, (0, 0));
    assert PairHolds(c, relation, true, (0, 0));
    assert Consistent(c, relation, true);
    ConsistentIncluded(c, relation, true);
    assert (0, 0) in relation;
  }

  lemma OpenAccepts(r: Reading, v: Json)
    requires r.doc == Single(NO_KEYWORDS) && (forall id, key :: r.sends(id, key))
    ensures Valid(r, 0, v)
  {
    assert Accepts(r, 1, 0, v);
  }

  // ---------------------------------------------------------------- const

  function Constant(value: Json): Keywords {
    NO_KEYWORDS.(constant := Some(value))
  }

  lemma OnlyConstant(r: Reading, value: Json, v: Json)
    requires r.doc == Single(Constant(value)) && !v.Obj?
    ensures Valid(r, 0, v) <==> SameInstance(v, value)
  {
    assert SameInstance(v, value) ==> Accepts(r, 1, 0, v);
  }

  lemma NullConstMissedHere(c: Comparison, formats: (string, Json) -> bool)
    requires c == Comparison(Single(NO_KEYWORDS), Single(Constant(Null)), Request)
    ensures RequestMissed(c, Str("x"), formats)
  {
    RootsCompatible(c);
    OpenAccepts(Sent(c, Everything, formats), Str("x"));
    OnlyConstant(Received(c, formats), Null, Str("x"));
  }

  /** A null const added to an unconstrained request schema goes unnoticed. */
  lemma NullConstMissed(formats: (string, Json) -> bool)
    ensures exists c: Comparison, v: Json :: RequestMissed(c, v, formats)
  {
    NullConstMissedHere(Comparison(Single(NO_KEYWORDS), Single(Constant(Null)), Request), formats);
  }

  /** A const changed from 1 to true goes unnoticed, because the interpreter takes them for equal. */
  lemma BooleanConstMissedInRequest(formats: (string, Json) -> bool)
    ensures exists c: Comparison, v: Json :: RequestMissed(c, v, formats)
  {
    var one := Num(1.0, false);
    var c := Comparison(Single(Constant(one)), Single(Constant(Bool(true))), Request);
    RootsCompatible(c);
    OnlyConstant(Sent(c, Everything, formats), one, one);
    OnlyConstant(Received(c, formats), Bool(true), one);
    assert RequestMissed(c, one, formats);
  }

  lemma BooleanConstMissedInResponse(formats: (string, Json) -> bool)
    ensures exists c: Comparison, v: Json :: ResponseMissed(c, v, formats)
  {
    var one := Num(1.0, false);
    var c := Comparison(Single(Constant(one)), Single(Constant(Bool(true))), Response);
    RootsCompatible(c);
    OnlyConstant(Served(c, formats), Bool(true), Bool(true));
    OnlyConstant(Read(c, formats), one, Bool(true));
    assert ResponseMissed(c, Bool(true), formats);
  }

  // ---------------------------------------------------------------- oneOf

  const EITHER := NO_KEYWORDS.(oneOf := Alternatives([1, 2]))
  const TEXT_OR_INTEGER := NO_KEYWORDS.(typ := Some(Arr([Str("string"), Str("integer")])))

  function Choice(second: Keywords): Document
    requires RawDocument([Schema(EITHER), Schema(INTEGER), Schema(second)], map[], map[]).Valid()
  {
    RawDocument([Schema(EITHER), Schema(INTEGER), Schema(second)], map[], map[])
  }

  predicate IsWidened(c: Comparison) {
    c == Comparison(Choice(STRING), Choice(TEXT_OR_INTEGER), Request)
  }

  lemma WidenedLeaves(c: Comparison, relation: set<Pair>)
    requires IsWidened(c)
    ensures PairHolds(c, relation, true, (1, 1)) && PairHolds(c, relation, true, (2, 2))
  {
    assert [Str("string"), Str("integer")][0] == Str("string");
    assert "string" in TypeSet(TEXT_OR_INTEGER.typ).value;
  }

  lemma WidenedRoot(c: Comparison, relation: set<Pair>)
    requires IsWidened(c) && (1, 1) in relation && (2, 2) in relation
    ensures PairHolds(c, relation, true, (0, 0))
  {
    assert BranchEdgesHold(c, relation, true, (0, 0), EITHER.oneOf, EITHER.oneOf);
  }

  lemma WidenedCompatible(c: Comparison)
    requires IsWidened(c)
    ensures ValidEdge(c, ROOT) && Compatible(c, true, ROOT)
  {
    var relation: set<Pair> := {(0, 0), (1, 1), (2, 2)};
    WidenedLeaves(c, relation);
    WidenedRoot(c, relation);
    ConsistentIncluded(c, relation, true);
    assert (0, 0) in relation;
  }

  lemma TakesInteger(r: Reading, id: NodeId, kw: Keywords)
    requires id < |r.doc.nodes| && r.doc.nodes[id] == Schema(kw)
    requires kw == INTEGER || kw == TEXT_OR_INTEGER
    ensures Valid(r, id, Num(1.0, false))
  {
    assert HasType(Num(1.0, false), "integer");
    assert [Str("string"), Str("integer")][1] == Str("integer");
    assert Accepts(r, 1, id, Num(1.0, false));
  }

  lemma OnlyInteger(r: Reading)
    requires r.doc == Choice(STRING)
    ensures Valid(r, 0, Num(1.0, false))
  {
    var v := Num(1.0, false);
    TakesInteger(r, 1, INTEGER);
    assert !HasType(v, "string") && Refuses(r, 1, 2, v);
    assert ValidOnlyAt(r, 0, EITHER.oneOf, 0, v);
    assert ValidBody(r, 0, v);
    BodyIsValid(r, 0, v);
  }

  lemma BothTakeInteger(r: Reading)
    requires r.doc == Choice(TEXT_OR_INTEGER) && !r.tolerant
    ensures !Valid(r, 0, Num(1.0, false))
  {
    var v := Num(1.0, false);
    TakesInteger(r, 1, INTEGER);
    TakesInteger(r, 2, TEXT_OR_INTEGER);
    NeverBoth(r, 1, v);
    NeverBoth(r, 2, v);
    forall i | 0 <= i < 2 ensures !ValidOnlyAt(r, 0, EITHER.oneOf, i, v) {
      assert EITHER.oneOf.ids[1 - i] == 2 - i && !Invalid(r, 2 - i, v);
    }
    if Valid(r, 0, v) {
      ValidHasBody(r, 0, v);
    }
  }

  /**
   * One branch widened into another goes unnoticed: a value that fitted one branch
   * then fits two, which oneOf refuses.
   */
  lemma OneOfMissed(formats: (string, Json) -> bool)
    ensures exists c: Comparison, v: Json :: RequestMissed(c, v, formats)
  {
    var c := Comparison(Choice(STRING), Choice(TEXT_OR_INTEGER), Request);
    WidenedCompatible(c);
    OnlyInteger(Sent(c, Everything, formats));
    BothTakeInteger(Received(c, formats));
    assert RequestMissed(c, Num(1.0, false), formats);
  }

  // ---------------------------------------------------------------- items, required and keys

  function Itemized(): Document {
    Nest(NO_KEYWORDS.(items := Some(1)), INTEGER)
  }

  lemma ItemsRefuse(r: Reading)
    requires r.doc == Itemized()
    ensures !Valid(r, 0, Arr([Str("x")]))
  {
    var v := Arr([Str("x")]);
    RefusesString(r, 1);
    assert v.items[0] == Str("x");
    forall depth: nat ensures !Accepts(r, depth, 0, v) {
      assert depth > 0 ==> !Accepts(r, depth - 1, 1, v.items[0]);
    }
  }

  /** Items added to a request schema without items are never compared. */
  lemma AddedItemsMissed(formats: (string, Json) -> bool)
    ensures exists c: Comparison, v: Json :: RequestMissed(c, v, formats)
  {
    var c := Comparison(Single(NO_KEYWORDS), Itemized(), Request);
    RootsCompatible(c);
    OpenAccepts(Sent(c, Everything, formats), Arr([Str("x")]));
    ItemsRefuse(Received(c, formats));
    assert RequestMissed(c, Arr([Str("x")]), formats);
  }

  lemma RefusesString(r: Reading, id: NodeId)
    requires id < |r.doc.nodes| && r.doc.nodes[id] == Schema(INTEGER)
    ensures forall depth: nat :: !Accepts(r, depth, id, Str("x"))
  {
  }

  /** A required name that is no property is dropped before the required names are compared. */
  lemma UndeclaredRequiredMissed(formats: (string, Json) -> bool)
    ensures exists c: Comparison, v: Json :: RequestMissed(c, v, formats)
  {
    var c := Comparison(Single(NO_KEYWORDS), Single(NO_KEYWORDS.(required := {"z"})), Request);
    RootsCompatible(c);
    OpenAccepts(Sent(c, Everything, formats), Obj(map[]));
    forall depth: nat ensures !Accepts(Received(c, formats), depth, 0, Obj(map[])) {
      assert "z" in KeywordsAt(c.current, 0).required && !Hidden(c.current, 0, Request, "z");
    }
    assert RequestMissed(c, Obj(map[]), formats);
  }

  const DEMANDING := NO_KEYWORDS.(required := {"z"})

  /** Nor is one that only the reader of a response relies on. */
  lemma UndeclaredRequiredMissedInResponse(formats: (string, Json) -> bool)
    ensures exists c: Comparison, v: Json :: ResponseMissed(c, v, formats)
  {
    var c := Comparison(Single(DEMANDING), Single(NO_KEYWORDS), Response);
    RootsCompatible(c);
    OpenAccepts(Served(c, formats), Obj(map[]));
    forall depth: nat ensures !Accepts(Read(c, formats), depth, 0, Obj(map[])) {
      assert "z" in KeywordsAt(c.baseline, 0).required && !Hidden(c.baseline, 0, Response, "z");
    }
    assert ResponseMissed(c, Obj(map[]), formats);
  }

  function Keyed(): Document {
    Nest(KEYED, INTEGER)
  }

  const KEYED := NO_KEYWORDS.(properties := Some(map["k" := 1]))

  lemma KeyRefuses(r: Reading, v: Json)
    requires r.doc == Keyed() && v == Obj(map["k" := Str("x")])
    ensures !Valid(r, 0, v)
  {
    RefusesString(r, 1);
    assert Target(r.doc, 1) == Some(1);
    assert "k" in Visible(r.doc, 0, r.direction);
    forall depth: nat ensures !Accepts(r, depth, 0, v) {
      assert "k" in v.fields && v.fields["k"] == Str("x");
      assert depth > 0 ==> !AcceptsKey(r, depth, 0, "k", v.fields["k"]);
    }
  }

  lemma KeyedRootsCompatible(c: Comparison)
    requires c == Comparison(Single(NO_KEYWORDS), Keyed(), Request)
    ensures ValidEdge(c, ROOT) && Compatible(c, true, ROOT)
  {
    assert Target(c.current, 1) == Some(1);
    RootsCompatible(c);
  }

  lemma AddedPropertyMissedHere(c: Comparison, v: Json, formats: (string, Json) -> bool)
    requires c == Comparison(Single(NO_KEYWORDS), Keyed(), Request) && v == Obj(map["k" := Str("x")])
    ensures RequestMissed(c, v, formats)
  {
    KeyedRootsCompatible(c);
    OpenAccepts(Sent(c, Everything, formats), v);
    KeyRefuses(Received(c, formats), v);
  }

  /** A property added to a free-form request object constrains a key that clients may already send. */
  lemma AddedPropertyMissed(formats: (string, Json) -> bool)
    ensures exists c: Comparison, v: Json :: RequestMissed(c, v, formats)
  {
    var c := Comparison(Single(NO_KEYWORDS), Keyed(), Request);
    AddedPropertyMissedHere(c, Obj(map["k" := Str("x")]), formats);
  }

  const OPEN := NO_KEYWORDS
  const MAPPED := NO_KEYWORDS.(additional := Each(1))

  lemma MapSchemaMissedHere(c: Comparison, v: Json, formats: (string, Json) -> bool)
    requires c == Comparison(Single(OPEN), Nest(MAPPED, INTEGER), Request) && v == Obj(map["k" := Str("x")])
    ensures RequestMissed(c, v, formats)
  {
    RootsCompatible(c);
    OpenAccepts(Sent(c, Everything, formats), v);
    MapRefuses(Received(c, formats), v);
  }

  /** A schema for undeclared properties that a request schema introduces is never compared. */
  lemma MapSchemaMissedInRequest(formats: (string, Json) -> bool)
    ensures exists c: Comparison, v: Json :: RequestMissed(c, v, formats)
  {
    var c := Comparison(Single(OPEN), Nest(MAPPED, INTEGER), Request);
    MapSchemaMissedHere(c, Obj(map["k" := Str("x")]), formats);
  }

  /** Nor is one that a response schema drops. */
  lemma MapSchemaMissedInResponse(formats: (string, Json) -> bool)
    ensures exists c: Comparison, v: Json :: ResponseMissed(c, v, formats)
  {
    var v := Obj(map["k" := Str("x")]);
    var c := Comparison(Nest(MAPPED, INTEGER), Single(OPEN), Response);
    RootsCompatible(c);
    OpenAccepts(Served(c, formats), v);
    MapRefuses(Read(c, formats), v);
    assert ResponseMissed(c, v, formats);
  }

  lemma MapRefuses(r: Reading, v: Json)
    requires r.doc == Nest(MAPPED, INTEGER) && v == Obj(map["k" := Str("x")])
    ensures !Valid(r, 0, v)
  {
    RefusesString(r, 1);
    forall depth: nat ensures !Accepts(r, depth, 0, v) {
      assert "k" in v.fields && v.fields["k"] == Str("x");
      assert depth > 0 ==> !AcceptsKey(r, depth, 0, "k", v.fields["k"]);
    }
  }

  /** A map of integers whose one declared property is a text. */
  function Mixed(): Document {
    RawDocument([Schema(MAPPED.(properties := Some(map["k" := 2]))), Schema(INTEGER), Schema(STRING)], map[], map[])
  }

  predicate IsMixed(c: Comparison) {
    c == Comparison(Nest(MAPPED, INTEGER), Mixed(), Response)
  }

  lemma MixedLeaf(c: Comparison, relation: set<Pair>)
    requires IsMixed(c)
    ensures PairHolds(c, relation, true, (1, 1))
  {
  }

  lemma MixedRoot(c: Comparison, relation: set<Pair>)
    requires IsMixed(c) && (1, 1) in relation
    ensures PairHolds(c, relation, true, (0, 0))
  {
    assert Target(c.current, 2) == Some(2);
    assert EdgeHolds(c, relation, true, (Some(1), Some(1)));
  }

  lemma MixedCompatible(c: Comparison)
    requires IsMixed(c)
    ensures ValidEdge(c, ROOT) && Compatible(c, true, ROOT)
  {
    var relation: set<Pair> := {(0, 0), (1, 1)};
    MixedLeaf(c, relation);
    MixedRoot(c, relation);
    ConsistentIncluded(c, relation, true);
    assert (0, 0) in relation;
  }

  lemma MixedAccepts(r: Reading, v: Json)
    requires r.doc == Mixed() && r.direction == Response && v == Obj(map["k" := Str("x")])
    requires forall id, key :: r.sends(id, key)
    ensures Valid(r, 0, v)
  {
    assert Target(r.doc, 2) == Some(2) && "k" in Visible(r.doc, 0, Response);
    assert HasType(Str("x"), "string") && "string" in TypeSet(STRING.typ).value;
    assert Accepts(r, 1, 2, Str("x"));
    assert AcceptsKey(r, 2, 0, "k", Str("x"));
    assert AcceptsObject(r, 2, 0, v);
    assert Accepts(r, 2, 0, v);
  }

  /** A property that a response declares is not compared with the schema the reader has for undeclared ones. */
  lemma AddedPropertyMissedInResponse(formats: (string, Json) -> bool)
    ensures exists c: Comparison, v: Json :: ResponseMissed(c, v, formats)
  {
    var v := Obj(map["k" := Str("x")]);
    var c := Comparison(Nest(MAPPED, INTEGER), Mixed(), Response);
    MixedCompatible(c);
    MixedAccepts(Served(c, formats), v);
    MapRefuses(Read(c, formats), v);
    assert ResponseMissed(c, v, formats);
  }

  // ---------------------------------------------------------------- transitivity and order

  lemma MapsWithOtherTypesIncompatible(c: Comparison)
    requires c == Comparison(Nest(MAPPED, INTEGER), Nest(MAPPED, STRING), Request)
    ensures !Compatible(c, true, ROOT)
  {
    GreatestUnfolds(c, (0, 0));
    GreatestUnfolds(c, (1, 1));
    assert "integer" in TypeSet(INTEGER.typ).value;
    assert !KeywordsKept(c, (1, 1));
    assert !EdgeHolds(c, Greatest(c, true), true, (Some(1), Some(1)));
  }

  lemma MapAndOpenCompatible(c: Comparison)
    requires c == Comparison(Nest(MAPPED, INTEGER), Single(OPEN), Request)
          || c == Comparison(Single(OPEN), Nest(MAPPED, STRING), Request)
    ensures ValidEdge(c, ROOT) && Compatible(c, true, ROOT)
  {
    RootsCompatible(c);
  }

  /** A map schema that goes missing for one release can come back with another type. */
  lemma MapSchemaLostInTheMiddle() returns (ab: Comparison, bc: Comparison, ac: Comparison)
    ensures Chained(ab, bc, ac) && ValidEdge(ab, ROOT) && ValidEdge(bc, ROOT) && ValidEdge(ac, ROOT)
    ensures Compatible(ab, true, ROOT) && Compatible(bc, true, ROOT) && !Compatible(ac, true, ROOT)
  {
    ab := Comparison(Nest(MAPPED, INTEGER), Single(OPEN), Request);
    bc := Comparison(Single(OPEN), Nest(MAPPED, STRING), Request);
    ac := Comparison(Nest(MAPPED, INTEGER), Nest(MAPPED, STRING), Request);
    MapAndOpenCompatible(ab);
    MapAndOpenCompatible(bc);
    MapsWithOtherTypesIncompatible(ac);
  }

  function Linked(external: string): Document {
    RawDocument([Reference("#/x"), Reference(external)], map["#/x" := 1], map[])
  }

  lemma LinkedTargets(external: string)
    requires !IsLocal(external)
    ensures Target(Linked(external), 0) == Some(1) && Target(Linked(external), 1) == Some(1)
  {
    assert IsLocal("#/x");
    assert Chase(Linked(external), 1, {"#/x"}) == Some(1);
    assert {} + {"#/x"} == {"#/x"};
  }

  lemma LinkedPair(c: Comparison, strict: bool)
    requires exists a, b :: !IsLocal(a) && !IsLocal(b) && c == Comparison(Linked(a), Linked(b), Response)
    ensures (1, 1) in Greatest(c, strict)
  {
    var relation: set<Pair> := {(1, 1)};
    assert PairHolds(c, relation, strict, (1, 1));
    ConsistentIncluded(c, relation, strict);
    assert (1, 1) in relation;
  }

  /**
   * An external reference is looked at where it is written.  A change that is
   * reported there is no breakage where a local reference leads to it.
   */
  lemma ExternalReferenceBehindLocal(a: string, b: string)
    requires !IsLocal(a) && !IsLocal(b) && a != b
    ensures var c := Comparison(Linked(a), Linked(b), Response);
            && Compatible(c, true, (Some(0), Some(0)))
            && !Compatible(c, true, (Some(1), Some(1)))
            && Compatible(c, false, (Some(1), Some(1)))
  {
    var c := Comparison(Linked(a), Linked(b), Response);
    LinkedTargets(a);
    LinkedTargets(b);
    LinkedPair(c, true);
    LinkedPair(c, false);
    assert IsLocal("#/x");
  }
}
