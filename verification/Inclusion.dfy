/**
 * The verdict of the comparison as a statement about JSON values.
 *
 * A request that conforms to the baseline is accepted by the current contract,
 * and a response that conforms to the current contract can be read by a client
 * of the baseline, provided every related pair of schemas is outside the cases
 * that the comparison does not look at (`RequestSafe`, `ResponseSafe`).
 */
module Inclusion {
  import opened Wrappers
  import opened Json
  import opened Documents
  import opened Compatibility
  import opened Instances
  import opened Judgements

  /** The const check compares with Python's ==, and reads a missing const as null. */
  predicate ConstClear(stated: Option<Json>, relied: Option<Json>) {
    relied.Some? ==> stated.Some? && SameInstance(stated.value, relied.value)
  }

  /**
   * Required names are compared only where they are properties; any other name
   * that the relying side requires must be required by the stating side too.
   */
  predicate RequiredClear(relied: Document, r: NodeId, stated: Document, s: NodeId, direction: Direction)
    requires r < |relied.nodes| && s < |stated.nodes|
  {
    forall name | name in KeywordsAt(relied, r).required && name !in Properties(KeywordsAt(relied, r)) ::
      name in KeywordsAt(stated, s).required && !Hidden(stated, s, direction, name)
  }

  // ---------------------------------------------------------------- outside what the comparison looks at

  ghost predicate AcceptsAll(r: Reading, id: NodeId)
    requires id < |r.doc.nodes|
  {
    forall v :: Valid(r, id, v)
  }

  /** What one branch alone admits on the stating side is refused by every other branch of the relying side. */
  ghost predicate OneOfClear(stated: Reading, s: NodeId, b: Branches, relied: Reading, t: NodeId, n: Branches)
    requires stated.doc.NestedBranches(s, b) && relied.doc.NestedBranches(t, n)
  {
    b.Alternatives? && n.Alternatives? && |b.ids| == |n.ids| ==>
      forall v, i, j | 0 <= i < |b.ids| && 0 <= j < |b.ids| && i != j
        && ValidOnlyAt(stated, s, b, i, v) && Valid(relied, n.ids[i], v) :: Invalid(relied, n.ids[j], v)
  }

  /** A schema that the relying side alone has admits everything. */
  ghost predicate AddedSchemaClear(stated: Option<NodeId>, relying: Reading, relied: Option<NodeId>)
    requires relied.Some? ==> relied.value < |relying.doc.nodes|
  {
    stated.None? && relied.Some? ==> AcceptsAll(relying, relied.value)
  }

  /** The current schema that judges a key, where one does. */
  function CurrentSchema(c: Comparison, p: Pair, key: string): (s: Option<NodeId>)
    requires InRange(c, p)
    ensures s.Some? ==> s.value < |c.current.nodes|
  {
    var n := KeywordsAt(c.current, p.1);
    if key in Visible(c.current, p.1, c.direction) then Some(Properties(n)[key])
    else if key !in Properties(n) && n.additional.Each? then Some(n.additional.schema)
    else None
  }

  /**
   * A key that falls under the baseline's schema for undeclared keys, where the
   * relation holds between that schema and the current one for the key.  The
   * comparison establishes this where both sides have a schema for such keys.
   */
  predicate KeyCovered(c: Comparison, relation: set<Pair>, p: Pair, key: string)
    requires InRange(c, p)
  {
    var b, s := KeywordsAt(c.baseline, p.0), CurrentSchema(c, p, key);
    && key !in Properties(b) && b.additional.Each? && s.Some?
    && EdgeHolds(c, relation, false, (Some(b.additional.schema), s))
  }

  /** What may stand under an undeclared key. */
  ghost predicate MayStandUnder(r: Reading, id: NodeId, v: Json)
    requires id < |r.doc.nodes|
  {
    var additional := KeywordsAt(r.doc, id).additional;
    additional.Each? ==> Valid(r, additional.schema, v)
  }

  /** A schema that only the current side has for the key takes whatever the baseline lets stand under it. */
  ghost predicate SentKeyClear(sent: Reading, b: NodeId, received: Reading, n: NodeId, key: string)
    requires b < |sent.doc.nodes| && n < |received.doc.nodes|
  {
    var kw := KeywordsAt(received.doc, n);
    KeyFree(sent, b, key) && (key in Properties(kw) || kw.additional.Each?) ==>
      forall v | MayStandUnder(sent, b, v) ::
        KeySchema(received, n, key).Some? && Valid(received, KeySchema(received, n, key).value, v)
  }

  /**
   * What the current side serves under a key that the reader did not declare fits
   * the reader's schema for such keys.
   */
  ghost predicate ServedKeyClear(served: Reading, n: NodeId, read: Reading, b: NodeId, key: string)
    requires b < |read.doc.nodes| && n < |served.doc.nodes|
  {
    var s := KeySchema(served, n, key);
    KeywordsAt(read.doc, b).additional.Each? && (s.Some? || KeyFree(served, n, key)) ==>
      forall v | s.Some? ==> Valid(served, s.value, v) :: Valid(read, KeywordsAt(read.doc, b).additional.schema, v)
  }

  /**
   * Outside the cases a request comparison does not look at: a const that only
   * Python takes for equal, values that two branches of a oneOf admit, added
   * items, required names that are no properties, and schemas for keys that the
   * sender uses although the baseline does not declare them at this place.
   */
  ghost predicate RequestSafe(c: Comparison, relation: set<Pair>, sends: (NodeId, string) -> bool,
                              formats: (string, Json) -> bool, p: Pair)
    requires InRange(c, p)
  {
    var b, n := KeywordsAt(c.baseline, p.0), KeywordsAt(c.current, p.1);
    && ConstClear(b.constant, n.constant)
    && OneOfClear(Sent(c, sends, formats), p.0, b.oneOf, Received(c, formats), p.1, n.oneOf)
    && AddedSchemaClear(b.items, Received(c, formats), n.items)
    && RequiredClear(c.current, p.1, c.baseline, p.0, Request)
    && forall key | sends(p.0, key) && key !in Visible(c.baseline, p.0, Request) && !KeyCovered(c, relation, p, key) ::
         SentKeyClear(Sent(c, sends, formats), p.0, Received(c, formats), p.1, key)
  }

  /** Outside the cases a response comparison does not look at. */
  ghost predicate ResponseSafe(c: Comparison, relation: set<Pair>, formats: (string, Json) -> bool, p: Pair)
    requires InRange(c, p)
  {
    var b, n := KeywordsAt(c.baseline, p.0), KeywordsAt(c.current, p.1);
    && ConstClear(n.constant, b.constant)
    && RequiredClear(c.baseline, p.0, c.current, p.1, Response)
    && forall key | key !in Properties(b) && !KeyCovered(c, relation, p, key) ::
         ServedKeyClear(Served(c, formats), p.1, Read(c, formats), p.0, key)
  }

  ghost function Sent(c: Comparison, sends: (NodeId, string) -> bool, formats: (string, Json) -> bool): Reading {
    Reading(c.baseline, Request, false, sends, formats)
  }

  ghost function Received(c: Comparison, formats: (string, Json) -> bool): Reading {
    Reading(c.current, Request, false, (_, _) => true, formats)
  }

  ghost function Served(c: Comparison, formats: (string, Json) -> bool): Reading {
    Reading(c.current, Response, false, (_, _) => true, formats)
  }

  ghost function Read(c: Comparison, formats: (string, Json) -> bool): Reading {
    Reading(c.baseline, Response, true, (_, _) => true, formats)
  }

  // ---------------------------------------------------------------- keywords on one value

  lemma TypesIncluded(narrow: Option<set<string>>, wide: Option<set<string>>, v: Json)
    requires wide.None? || (narrow.Some? && forall t | t in narrow.value :: AcceptsType(wide.value, t))
    requires TypeAccepts(narrow, v)
    ensures TypeAccepts(wide, v)
  {
    if wide.Some? {
      var t :| t in narrow.value && HasType(v, t);
      assert AcceptsType(wide.value, t);
      if t !in wide.value {
        assert HasType(v, "number");
      }
    }
  }

  lemma EnumsIncluded(narrow: Option<seq<Json>>, wide: Option<seq<Json>>, v: Json)
    requires wide.Some? ==> narrow.Some? && Values(narrow.value) <= Values(wide.value)
    requires EnumAccepts(narrow, v)
    ensures EnumAccepts(wide, v)
  {
    if wide.Some? {
      var i :| 0 <= i < |narrow.value| && SameInstance(v, narrow.value[i]);
      assert narrow.value[i] in Values(wide.value);
    }
  }

  lemma RequestScalars(c: Comparison, p: Pair, formats: (string, Json) -> bool, v: Json)
    requires c.direction == Request && InRange(c, p) && LocallyCompatible(c, p)
    requires ConstClear(KeywordsAt(c.baseline, p.0).constant, KeywordsAt(c.current, p.1).constant)
    requires ScalarsAccept(KeywordsAt(c.baseline, p.0), formats, v)
    ensures ScalarsAccept(KeywordsAt(c.current, p.1), formats, v)
  {
    var b, n := KeywordsAt(c.baseline, p.0), KeywordsAt(c.current, p.1);
    TypesIncluded(TypeSet(b.typ), TypeSet(n.typ), v);
    EnumsIncluded(b.enumeration, n.enumeration, v);
  }

  lemma ResponseScalars(c: Comparison, p: Pair, formats: (string, Json) -> bool, v: Json)
    requires c.direction == Response && InRange(c, p) && LocallyCompatible(c, p)
    requires ConstClear(KeywordsAt(c.current, p.1).constant, KeywordsAt(c.baseline, p.0).constant)
    requires ScalarsAccept(KeywordsAt(c.current, p.1), formats, v)
    ensures ScalarsAccept(KeywordsAt(c.baseline, p.0), formats, v)
  {
    var b, n := KeywordsAt(c.baseline, p.0), KeywordsAt(c.current, p.1);
    TypesIncluded(TypeSet(n.typ), TypeSet(b.typ), v);
    EnumsIncluded(n.enumeration, b.enumeration, v);
  }

  // ---------------------------------------------------------------- requests

  ghost predicate RequestSetting(c: Comparison, relation: set<Pair>, sends: (NodeId, string) -> bool,
                                 formats: (string, Json) -> bool) {
    && c.direction == Request
    && NoNulls(c.baseline) && NoNulls(c.current) && Grounded(c.current)
    && Consistent(c, relation, false)
    && forall p | p in relation :: RequestSafe(c, relation, sends, formats, p)
  }

  /** By induction on the depth at which the sent value is accepted, through both graphs at once. */
  lemma {:induction false} RequestIncluded(c: Comparison, relation: set<Pair>, sends: (NodeId, string) -> bool,
                                           formats: (string, Json) -> bool, depth: nat, b: NodeId, n: NodeId, v: Json)
    requires RequestSetting(c, relation, sends, formats)
    requires b < |c.baseline.nodes| && n < |c.current.nodes|
    requires EdgeHolds(c, relation, false, (Some(b), Some(n)))
    requires Accepts(Sent(c, sends, formats), depth, b, v)
    ensures Valid(Received(c, formats), n, v)
    decreases depth, 3
  {
    var p := (Target(c.baseline, b).value, Target(c.current, n).value);
    if AreDictionaries(c, p) {
      assert PairHolds(c, relation, false, p);
      assert AcceptsAlternatives(Sent(c, sends, formats), depth, p.0, v);
      RequestBody(c, relation, sends, formats, depth, p, v);
      BodyIsValid(Received(c, formats), n, v);
    } else {
      assert Accepts(Received(c, formats), 1, n, v);
    }
  }

  lemma {:induction false} RequestBody(c: Comparison, relation: set<Pair>, sends: (NodeId, string) -> bool,
                                       formats: (string, Json) -> bool, depth: nat, p: Pair, v: Json)
    requires RequestSetting(c, relation, sends, formats)
    requires depth > 0 && p in relation && PairHolds(c, relation, false, p)
    requires ScalarsAccept(KeywordsAt(c.baseline, p.0), formats, v)
    requires AcceptsAlternatives(Sent(c, sends, formats), depth, p.0, v)
    requires v.Arr? ==> AcceptsItems(Sent(c, sends, formats), depth, p.0, v)
    requires v.Obj? ==> AcceptsObject(Sent(c, sends, formats), depth, p.0, v)
    ensures ValidBody(Received(c, formats), p.1, v)
    decreases depth, 2
  {
    assert RequestSafe(c, relation, sends, formats, p);
    RequestScalars(c, p, formats, v);
    RequestAlternatives(c, relation, sends, formats, depth, p, v);
    if v.Arr? {
      RequestItems(c, relation, sends, formats, depth, p, v);
    }
    if v.Obj? {
      RequestObject(c, relation, sends, formats, depth, p, v);
    }
  }

  lemma {:induction false} RequestBranches(c: Comparison, relation: set<Pair>, sends: (NodeId, string) -> bool,
                                           formats: (string, Json) -> bool, depth: nat, p: Pair,
                                           b: Branches, n: Branches, v: Json)
    requires RequestSetting(c, relation, sends, formats) && depth > 0 && InRange(c, p)
    requires c.baseline.NestedBranches(p.0, b) && c.current.NestedBranches(p.1, n)
    requires BranchesKept(b, n) && BranchEdgesHold(c, relation, false, p, b, n) && b.Alternatives?
    ensures forall i | 0 <= i < |b.ids| && Accepts(Sent(c, sends, formats), depth - 1, b.ids[i], v) ::
              Valid(Received(c, formats), n.ids[i], v)
    decreases depth, 0
  {
    forall i | 0 <= i < |b.ids| && Accepts(Sent(c, sends, formats), depth - 1, b.ids[i], v)
      ensures Valid(Received(c, formats), n.ids[i], v)
    {
      RequestIncluded(c, relation, sends, formats, depth - 1, b.ids[i], n.ids[i], v);
    }
  }

  lemma {:induction false} RequestOneOf(c: Comparison, relation: set<Pair>, sends: (NodeId, string) -> bool,
                                        formats: (string, Json) -> bool, depth: nat, p: Pair,
                                        b: Branches, n: Branches, v: Json)
    requires RequestSetting(c, relation, sends, formats) && depth > 0 && InRange(c, p)
    requires c.baseline.NestedBranches(p.0, b) && c.current.NestedBranches(p.1, n)
    requires BranchesKept(b, n) && BranchEdgesHold(c, relation, false, p, b, n)
    requires OneOfClear(Sent(c, sends, formats), p.0, b, Received(c, formats), p.1, n)
    requires AcceptsOneOf(Sent(c, sends, formats), depth, p.0, b, v)
    ensures ValidOneOf(Received(c, formats), p.1, n, v)
    decreases depth, 1, 0
  {
    if b.Alternatives? {
      RequestBranches(c, relation, sends, formats, depth, p, b, n, v);
      var i :| 0 <= i < |b.ids| && AcceptsOnlyAt(Sent(c, sends, formats), depth, p.0, b, i, v);
      AcceptedOnlyAt(Sent(c, sends, formats), depth, p.0, b, i, v);
      assert Accepts(Sent(c, sends, formats), depth - 1, b.ids[i], v);
      assert ValidOnlyAt(Received(c, formats), p.1, n, i, v);
    }
  }

  lemma {:induction false} RequestAlternatives(c: Comparison, relation: set<Pair>, sends: (NodeId, string) -> bool,
                                               formats: (string, Json) -> bool, depth: nat, p: Pair, v: Json)
    requires RequestSetting(c, relation, sends, formats)
    requires depth > 0 && p in relation && PairHolds(c, relation, false, p)
    requires AcceptsAlternatives(Sent(c, sends, formats), depth, p.0, v)
    ensures ValidOneOf(Received(c, formats), p.1, KeywordsAt(c.current, p.1).oneOf, v)
    ensures ValidAnyOf(Received(c, formats), p.1, KeywordsAt(c.current, p.1).anyOf, v)
    ensures ValidAllOf(Received(c, formats), p.1, KeywordsAt(c.current, p.1).allOf, v)
    decreases depth, 1, 1
  {
    var b, n := KeywordsAt(c.baseline, p.0), KeywordsAt(c.current, p.1);
    assert RequestSafe(c, relation, sends, formats, p);
    RequestOneOf(c, relation, sends, formats, depth, p, b.oneOf, n.oneOf, v);
    if b.anyOf.Alternatives? {
      RequestBranches(c, relation, sends, formats, depth, p, b.anyOf, n.anyOf, v);
      assert AcceptsAnyOf(Sent(c, sends, formats), depth, p.0, b.anyOf, v);
    }
    if b.allOf.Alternatives? {
      RequestBranches(c, relation, sends, formats, depth, p, b.allOf, n.allOf, v);
      assert AcceptsAllOf(Sent(c, sends, formats), depth, p.0, b.allOf, v);
    }
  }

  lemma {:induction false} RequestItems(c: Comparison, relation: set<Pair>, sends: (NodeId, string) -> bool,
                                        formats: (string, Json) -> bool, depth: nat, p: Pair, v: Json)
    requires RequestSetting(c, relation, sends, formats)
    requires depth > 0 && p in relation && PairHolds(c, relation, false, p)
    requires v.Arr? && AcceptsItems(Sent(c, sends, formats), depth, p.0, v)
    ensures ValidItems(Received(c, formats), p.1, v)
    decreases depth, 1
  {
    var b, n := KeywordsAt(c.baseline, p.0), KeywordsAt(c.current, p.1);
    assert RequestSafe(c, relation, sends, formats, p);
    if n.items.Some? && b.items.Some? {
      forall i | 0 <= i < |v.items|
        ensures Valid(Received(c, formats), n.items.value, v.items[i])
      {
        RequestIncluded(c, relation, sends, formats, depth - 1, b.items.value, n.items.value, v.items[i]);
      }
    }
  }

  /** Where the comparison does not look, the premise does. */
  lemma UncomparedKeyTaken(c: Comparison, relation: set<Pair>, sends: (NodeId, string) -> bool,
                           formats: (string, Json) -> bool, p: Pair, key: string, v: Json)
    requires c.direction == Request && InRange(c, p) && AdditionalKept(c, p)
    requires RequestSafe(c, relation, sends, formats, p)
    requires key !in Visible(c.baseline, p.0, Request) && !KeyCovered(c, relation, p, key)
    requires ValidKey(Sent(c, sends, formats), p.0, key, v)
    ensures ValidKey(Received(c, formats), p.1, key, v)
  {
    assert SentKeyClear(Sent(c, sends, formats), p.0, Received(c, formats), p.1, key);
    assert MayStandUnder(Sent(c, sends, formats), p.0, v);
  }

  lemma {:induction false} RequestKey(c: Comparison, relation: set<Pair>, sends: (NodeId, string) -> bool,
                                      formats: (string, Json) -> bool, depth: nat, p: Pair, key: string, v: Json)
    requires RequestSetting(c, relation, sends, formats)
    requires depth > 0 && p in relation && PairHolds(c, relation, false, p)
    requires AcceptsKey(Sent(c, sends, formats), depth, p.0, key, v)
    ensures ValidKey(Received(c, formats), p.1, key, v)
    decreases depth, 0
  {
    var b := KeywordsAt(c.baseline, p.0);
    if key in Visible(c.baseline, p.0, Request) {
      var e := PropertyEdge(c, p, key);
      RequestIncluded(c, relation, sends, formats, depth - 1, e.0.value, e.1.value, v);
    } else if KeyCovered(c, relation, p, key) {
      RequestIncluded(c, relation, sends, formats, depth - 1, b.additional.schema, CurrentSchema(c, p, key).value, v);
    } else {
      AcceptedKey(Sent(c, sends, formats), depth, p.0, key, v);
      UncomparedKeyTaken(c, relation, sends, formats, p, key, v);
    }
  }

  lemma {:induction false} RequestObject(c: Comparison, relation: set<Pair>, sends: (NodeId, string) -> bool,
                                         formats: (string, Json) -> bool, depth: nat, p: Pair, v: Json)
    requires RequestSetting(c, relation, sends, formats)
    requires depth > 0 && p in relation && PairHolds(c, relation, false, p)
    requires v.Obj? && AcceptsObject(Sent(c, sends, formats), depth, p.0, v)
    ensures ValidObject(Received(c, formats), p.1, v)
    decreases depth, 1
  {
    assert RequestSafe(c, relation, sends, formats, p);
    forall key | key in v.fields
      ensures ValidKey(Received(c, formats), p.1, key, v.fields[key])
    {
      RequestKey(c, relation, sends, formats, depth, p, key, v.fields[key]);
    }
    forall name | name in KeywordsAt(c.current, p.1).required && !Hidden(c.current, p.1, Request, name)
      ensures name in v.fields
    {
      if name in Properties(KeywordsAt(c.current, p.1)) {
        assert name in RequiredNames(c.current, p.1, Request);
        assert name in RequiredNames(c.baseline, p.0, Request);
      }
    }
  }

  /** Main result for requests: what a conforming client sends, the current contract accepts. */
  lemma RequestAcceptancePreserved(c: Comparison, relation: set<Pair>, sends: (NodeId, string) -> bool,
                                   formats: (string, Json) -> bool, b: NodeId, n: NodeId)
    requires RequestSetting(c, relation, sends, formats)
    requires b < |c.baseline.nodes| && n < |c.current.nodes|
    requires EdgeHolds(c, relation, false, (Some(b), Some(n)))
    ensures forall v | Valid(Sent(c, sends, formats), b, v) :: Valid(Received(c, formats), n, v)
  {
    forall v | Valid(Sent(c, sends, formats), b, v) ensures Valid(Received(c, formats), n, v) {
      var depth: nat :| Accepts(Sent(c, sends, formats), depth, b, v);
      RequestIncluded(c, relation, sends, formats, depth, b, n, v);
    }
  }

  // ---------------------------------------------------------------- responses

  ghost predicate ResponseSetting(c: Comparison, relation: set<Pair>, formats: (string, Json) -> bool) {
    && c.direction == Response
    && NoNulls(c.baseline) && NoNulls(c.current) && Grounded(c.baseline)
    && Consistent(c, relation, false)
    && forall p | p in relation :: ResponseSafe(c, relation, formats, p)
  }

  lemma {:induction false} ResponseIncluded(c: Comparison, relation: set<Pair>, formats: (string, Json) -> bool,
                                            depth: nat, b: NodeId, n: NodeId, v: Json)
    requires ResponseSetting(c, relation, formats)
    requires b < |c.baseline.nodes| && n < |c.current.nodes|
    requires EdgeHolds(c, relation, false, (Some(b), Some(n)))
    requires Accepts(Served(c, formats), depth, n, v)
    ensures Valid(Read(c, formats), b, v)
    decreases depth, 3
  {
    var p := (Target(c.baseline, b).value, Target(c.current, n).value);
    if AreDictionaries(c, p) {
      assert PairHolds(c, relation, false, p);
      assert AcceptsAlternatives(Served(c, formats), depth, p.1, v);
      ResponseBody(c, relation, formats, depth, p, v);
      BodyIsValid(Read(c, formats), b, v);
    } else {
      assert Accepts(Read(c, formats), 1, b, v);
    }
  }

  lemma {:induction false} ResponseBody(c: Comparison, relation: set<Pair>, formats: (string, Json) -> bool,
                                        depth: nat, p: Pair, v: Json)
    requires ResponseSetting(c, relation, formats) && depth > 0 && p in relation && PairHolds(c, relation, false, p)
    requires ScalarsAccept(KeywordsAt(c.current, p.1), formats, v)
    requires AcceptsAlternatives(Served(c, formats), depth, p.1, v)
    requires v.Arr? ==> AcceptsItems(Served(c, formats), depth, p.1, v)
    requires v.Obj? ==> AcceptsObject(Served(c, formats), depth, p.1, v)
    ensures ValidBody(Read(c, formats), p.0, v)
    decreases depth, 2
  {
    assert ResponseSafe(c, relation, formats, p);
    ResponseScalars(c, p, formats, v);
    ResponseAlternatives(c, relation, formats, depth, p, v);
    if v.Arr? {
      ResponseItems(c, relation, formats, depth, p, v);
    }
    if v.Obj? {
      ResponseObject(c, relation, formats, depth, p, v);
    }
  }

  lemma {:induction false} ResponseBranches(c: Comparison, relation: set<Pair>, formats: (string, Json) -> bool,
                                            depth: nat, p: Pair, b: Branches, n: Branches, v: Json)
    requires ResponseSetting(c, relation, formats) && depth > 0 && InRange(c, p)
    requires c.baseline.NestedBranches(p.0, b) && c.current.NestedBranches(p.1, n)
    requires BranchesKept(b, n) && BranchEdgesHold(c, relation, false, p, b, n) && b.Alternatives?
    ensures forall i | 0 <= i < |n.ids| && Accepts(Served(c, formats), depth - 1, n.ids[i], v) ::
              Valid(Read(c, formats), b.ids[i], v)
    decreases depth, 0
  {
    forall i | 0 <= i < |n.ids| && Accepts(Served(c, formats), depth - 1, n.ids[i], v)
      ensures Valid(Read(c, formats), b.ids[i], v)
    {
      ResponseIncluded(c, relation, formats, depth - 1, b.ids[i], n.ids[i], v);
    }
  }

  /** The reader does not count the branches that fit. */
  lemma {:induction false} ResponseOneOf(c: Comparison, relation: set<Pair>, formats: (string, Json) -> bool,
                                         depth: nat, p: Pair, b: Branches, n: Branches, v: Json)
    requires ResponseSetting(c, relation, formats) && depth > 0 && InRange(c, p)
    requires c.baseline.NestedBranches(p.0, b) && c.current.NestedBranches(p.1, n)
    requires BranchesKept(b, n) && BranchEdgesHold(c, relation, false, p, b, n)
    requires AcceptsOneOf(Served(c, formats), depth, p.1, n, v)
    ensures ValidOneOf(Read(c, formats), p.0, b, v)
    decreases depth, 1, 0
  {
    if b.Alternatives? {
      ResponseBranches(c, relation, formats, depth, p, b, n, v);
      var i :| 0 <= i < |n.ids| && AcceptsOnlyAt(Served(c, formats), depth, p.1, n, i, v);
      assert Accepts(Served(c, formats), depth - 1, n.ids[i], v);
      assert ValidOnlyAt(Read(c, formats), p.0, b, i, v);
    }
  }

  lemma {:induction false} ResponseAlternatives(c: Comparison, relation: set<Pair>, formats: (string, Json) -> bool,
                                                depth: nat, p: Pair, v: Json)
    requires ResponseSetting(c, relation, formats) && depth > 0 && p in relation && PairHolds(c, relation, false, p)
    requires AcceptsAlternatives(Served(c, formats), depth, p.1, v)
    ensures ValidOneOf(Read(c, formats), p.0, KeywordsAt(c.baseline, p.0).oneOf, v)
    ensures ValidAnyOf(Read(c, formats), p.0, KeywordsAt(c.baseline, p.0).anyOf, v)
    ensures ValidAllOf(Read(c, formats), p.0, KeywordsAt(c.baseline, p.0).allOf, v)
    decreases depth, 1, 1
  {
    var b, n := KeywordsAt(c.baseline, p.0), KeywordsAt(c.current, p.1);
    ResponseOneOf(c, relation, formats, depth, p, b.oneOf, n.oneOf, v);
    if b.anyOf.Alternatives? {
      ResponseBranches(c, relation, formats, depth, p, b.anyOf, n.anyOf, v);
      assert AcceptsAnyOf(Served(c, formats), depth, p.1, n.anyOf, v);
    }
    if b.allOf.Alternatives? {
      ResponseBranches(c, relation, formats, depth, p, b.allOf, n.allOf, v);
      assert AcceptsAllOf(Served(c, formats), depth, p.1, n.allOf, v);
    }
  }

  lemma {:induction false} ResponseItems(c: Comparison, relation: set<Pair>, formats: (string, Json) -> bool,
                                         depth: nat, p: Pair, v: Json)
    requires ResponseSetting(c, relation, formats) && depth > 0 && p in relation && PairHolds(c, relation, false, p)
    requires v.Arr? && AcceptsItems(Served(c, formats), depth, p.1, v)
    ensures ValidItems(Read(c, formats), p.0, v)
    decreases depth, 1
  {
    var b, n := KeywordsAt(c.baseline, p.0), KeywordsAt(c.current, p.1);
    if b.items.Some? {
      forall i | 0 <= i < |v.items|
        ensures Valid(Read(c, formats), b.items.value, v.items[i])
      {
        ResponseIncluded(c, relation, formats, depth - 1, b.items.value, n.items.value, v.items[i]);
      }
    }
  }

  lemma UncomparedKeyReadable(c: Comparison, relation: set<Pair>, formats: (string, Json) -> bool,
                              p: Pair, key: string, v: Json)
    requires c.direction == Response && InRange(c, p) && ResponseSafe(c, relation, formats, p)
    requires key !in Properties(KeywordsAt(c.baseline, p.0)) && !KeyCovered(c, relation, p, key)
    requires ValidKey(Served(c, formats), p.1, key, v)
    ensures ValidKey(Read(c, formats), p.0, key, v)
  {
    assert ServedKeyClear(Served(c, formats), p.1, Read(c, formats), p.0, key);
  }

  lemma {:induction false} ResponseVisibleKey(c: Comparison, relation: set<Pair>, formats: (string, Json) -> bool,
                                              depth: nat, p: Pair, key: string, v: Json)
    requires ResponseSetting(c, relation, formats) && depth > 0 && p in relation && PairHolds(c, relation, false, p)
    requires AcceptsKey(Served(c, formats), depth, p.1, key, v) && key in Visible(c.baseline, p.0, Response)
    ensures ValidKey(Read(c, formats), p.0, key, v)
    decreases depth, 0, 0
  {
    var e := PropertyEdge(c, p, key);
    ResponseIncluded(c, relation, formats, depth - 1, e.0.value, e.1.value, v);
  }

  lemma {:induction false} ResponseCoveredKey(c: Comparison, relation: set<Pair>, formats: (string, Json) -> bool,
                                              depth: nat, p: Pair, key: string, v: Json)
    requires ResponseSetting(c, relation, formats) && depth > 0 && p in relation && InRange(c, p)
    requires AcceptsKey(Served(c, formats), depth, p.1, key, v) && KeyCovered(c, relation, p, key)
    ensures ValidKey(Read(c, formats), p.0, key, v)
    decreases depth, 0, 0
  {
    var schema := KeywordsAt(c.baseline, p.0).additional.schema;
    ResponseIncluded(c, relation, formats, depth - 1, schema, CurrentSchema(c, p, key).value, v);
  }

  lemma {:induction false} ResponseKey(c: Comparison, relation: set<Pair>, formats: (string, Json) -> bool,
                                       depth: nat, p: Pair, key: string, v: Json)
    requires ResponseSetting(c, relation, formats) && depth > 0 && p in relation && PairHolds(c, relation, false, p)
    requires AcceptsKey(Served(c, formats), depth, p.1, key, v)
    ensures ValidKey(Read(c, formats), p.0, key, v)
    decreases depth, 0, 1
  {
    if key in Visible(c.baseline, p.0, Response) {
      ResponseVisibleKey(c, relation, formats, depth, p, key, v);
    } else if KeyCovered(c, relation, p, key) {
      ResponseCoveredKey(c, relation, formats, depth, p, key, v);
    } else if key !in Properties(KeywordsAt(c.baseline, p.0)) {
      AcceptedKey(Served(c, formats), depth, p.1, key, v);
      UncomparedKeyReadable(c, relation, formats, p, key, v);
    }
  }

  lemma {:induction false} ResponseObject(c: Comparison, relation: set<Pair>, formats: (string, Json) -> bool,
                                          depth: nat, p: Pair, v: Json)
    requires ResponseSetting(c, relation, formats) && depth > 0 && p in relation && PairHolds(c, relation, false, p)
    requires v.Obj? && AcceptsObject(Served(c, formats), depth, p.1, v)
    ensures ValidObject(Read(c, formats), p.0, v)
    decreases depth, 1
  {
    assert ResponseSafe(c, relation, formats, p);
    forall key | key in v.fields
      ensures ValidKey(Read(c, formats), p.0, key, v.fields[key])
    {
      ResponseKey(c, relation, formats, depth, p, key, v.fields[key]);
    }
    forall name | name in KeywordsAt(c.baseline, p.0).required && !Hidden(c.baseline, p.0, Response, name)
      ensures name in v.fields
    {
      if name in Properties(KeywordsAt(c.baseline, p.0)) {
        assert name in RequiredNames(c.baseline, p.0, Response);
        assert name in RequiredNames(c.current, p.1, Response);
      }
    }
  }

  /** Main result for responses: what the current contract serves, a client of the baseline can read. */
  lemma ResponseReadable(c: Comparison, relation: set<Pair>, formats: (string, Json) -> bool, b: NodeId, n: NodeId)
    requires ResponseSetting(c, relation, formats)
    requires b < |c.baseline.nodes| && n < |c.current.nodes|
    requires EdgeHolds(c, relation, false, (Some(b), Some(n)))
    ensures forall v | Valid(Served(c, formats), n, v) :: Valid(Read(c, formats), b, v)
  {
    forall v | Valid(Served(c, formats), n, v) ensures Valid(Read(c, formats), b, v) {
      var depth: nat :| Accepts(Served(c, formats), depth, n, v);
      ResponseIncluded(c, relation, formats, depth, b, n, v);
    }
  }
}
