/**
 * Bodies as the contracts of the repository write them most often,
 * `anyOf: [{$ref: ...}, {type: null}]`: objects are sent as such bodies, and the
 * theorem about approved requests speaks of them.
 */
module Nullable {
  import opened Wrappers
  import opened Json
  import opened Documents
  import opened Compatibility
  import opened Revisions
  import opened Instances
  import opened Judgements
  import opened Inclusion
  import opened Senders
  import opened Premises
  import opened Approval

  const OPTIONAL := NO_KEYWORDS.(anyOf := Alternatives([1, 2]))
  const NOTHING := NO_KEYWORDS.(typ := Some(Str("null")))

  function Record(names: map<string, NodeId>): Keywords {
    NO_KEYWORDS.(typ := Some(Str("object")), properties := Some(names))
  }

  /** A nullable body that refers to a record of the given properties, all integers. */
  function Body(names: map<string, NodeId>): Document
    requires forall name | name in names :: names[name] == 4
  {
    RawDocument([Schema(OPTIONAL), Reference("#/x"), Schema(NOTHING), Schema(Record(names)), Schema(INTEGER)],
                map["#/x" := 3], map["Item" := 3])
  }

  predicate IsBody(d: Document, names: map<string, NodeId>) {
    && (forall name | name in names :: names[name] == 4)
    && |d.nodes| == 5 && d.pointers == map["#/x" := 3]
    && d.nodes[0] == Schema(OPTIONAL) && d.nodes[1] == Reference("#/x") && d.nodes[2] == Schema(NOTHING)
    && d.nodes[3] == Schema(Record(names)) && d.nodes[4] == Schema(INTEGER)
  }

  const VALUE := Obj(map["k" := Num(1.0, false)])

  lemma Targets(d: Document, names: map<string, NodeId>)
    requires IsBody(d, names)
    ensures Target(d, 0) == Some(0) && Target(d, 1) == Some(3) && Target(d, 2) == Some(2)
    ensures Target(d, 3) == Some(3) && Target(d, 4) == Some(4)
  {
    assert IsLocal("#/x");
    assert Chase(d, 3, {"#/x"}) == Some(3);
    assert {} + {"#/x"} == {"#/x"};
  }

  lemma Shown(d: Document, names: map<string, NodeId>)
    requires IsBody(d, names)
    ensures Visible(d, 3, Request) == names.Keys
    ensures forall u: NodeId, key | u < 5 && Offers(d, u, key) :: u == 3 && key in names
  {
    Targets(d, names);
    forall name | name in names ensures !Hidden(d, 3, Request, name) {
      assert Target(d, names[name]) == Some(4);
    }
  }

  lemma RecordTakesValue(r: Reading, names: map<string, NodeId>)
    requires IsBody(r.doc, names) && "k" in names
    requires r.sends(3, "k") && r.direction == Request
    ensures Valid(r, 1, VALUE)
  {
    Targets(r.doc, names);
    Shown(r.doc, names);
    assert HasType(Num(1.0, false), "integer") && "integer" in TypeSet(INTEGER.typ).value;
    assert Accepts(r, 1, 4, Num(1.0, false));
    assert HasType(VALUE, "object") && "object" in TypeSet(Record(names).typ).value;
    assert ValidKey(r, 3, "k", Num(1.0, false));
    assert ValidBody(r, 3, VALUE);
    BodyIsValid(r, 1, VALUE);
  }

  /** A client may send a non-empty object as such a body. */
  lemma NullableBodyIsSent(c: Comparison, names: map<string, NodeId>, formats: (string, Json) -> bool)
    requires IsBody(c.baseline, names) && "k" in names
    ensures Valid(Sent(c, DeclaredKeys(c.baseline, {0}), formats), 0, VALUE)
  {
    Targets(c.baseline, names);
    Shown(c.baseline, names);
    RecordTakesValue(Sent(c, DeclaredKeys(c.baseline, {0}), formats), names);
    AlternativeIsSent(c, {0}, formats, 0, [1, 2], 0, VALUE);
  }

  lemma OnlyDeclaredKeys(d: Document, names: map<string, NodeId>, u: NodeId, key: string)
    requires IsBody(d, names) && DeclaredKeys(d, {0})(u, key)
    ensures key in names
  {
    Shown(d, names);
    if !Offers(d, u, key) {
      var w: NodeId :| w in {0} && InComposition(d, w, u) && OfferedBy(d, w, key);
      var from: NodeId :| from < |d.nodes| && InComposition(d, w, from) && Offers(d, from, key);
    }
  }

  lemma Sound(d: Document, names: map<string, NodeId>)
    requires IsBody(d, names)
    ensures WellFormed(d) && Grounded(d)
  {
    Targets(d, names);
    forall id: NodeId | id < 5 ensures Target(d, id).Some? && !d.nodes[Target(d, id).value].Reference? {
      assert id == 0 || id == 1 || id == 2 || id == 3 || id == 4;
    }
  }

  lemma Grows(d: Document, wider: Document, few: map<string, NodeId>, many: map<string, NodeId>, direction: Direction)
    requires IsBody(d, few) && IsBody(wider, many) && few.Keys <= many.Keys
    ensures Additive(d, wider, direction, Every(d))
  {
    Sound(d, few);
    Sound(wider, many);
    NothingChanged(d, direction);
    assert OnlyAddsProperties(Record(few), Record(many), direction);
    forall id | id in Every(d) ensures SoundAt(d, id) && AdditiveAt(d, wider, direction, id) {
      assert id == 0 || id == 1 || id == 2 || id == 3 || id == 4;
      assert SoundAt(wider, 4);
    }
  }

  lemma NoPremiseExcludes(c: Comparison, few: map<string, NodeId>, many: map<string, NodeId>, p: Pair)
    requires IsBody(c.baseline, few) && IsBody(c.current, many) && few.Keys <= many.Keys && p.0 == p.1 < 5
    ensures PlainRequest(c, Diagonal(c.baseline, Every(c.baseline)), {0}, p)
  {
    Shown(c.baseline, few);
    forall key | DeclaredKeys(c.baseline, {0})(p.0, key) ensures key in few {
      OnlyDeclaredKeys(c.baseline, few, p.0, key);
    }
  }

  lemma NullablePremises(c: Comparison, few: map<string, NodeId>, many: map<string, NodeId>)
    requires c.direction == Request && IsBody(c.baseline, few) && IsBody(c.current, many) && few.Keys <= many.Keys
    ensures PlainRequests(c, Diagonal(c.baseline, Every(c.baseline)), {0})
  {
    Sound(c.current, many);
    NullableApproved(c, few, many);
    forall p | p in Diagonal(c.baseline, Every(c.baseline))
      ensures PlainRequest(c, Diagonal(c.baseline, Every(c.baseline)), {0}, p)
    {
      NoPremiseExcludes(c, few, many, p);
    }
  }

  lemma NullableApproved(c: Comparison, few: map<string, NodeId>, many: map<string, NodeId>)
    requires IsBody(c.baseline, few) && IsBody(c.current, many) && few.Keys <= many.Keys
    ensures Compatible(c, true, (Some(0), Some(0)))
    ensures Consistent(c, Diagonal(c.baseline, Every(c.baseline)), false)
    ensures EdgeHolds(c, Diagonal(c.baseline, Every(c.baseline)), false, (Some(0), Some(0)))
  {
    Grows(c.baseline, c.current, few, many, c.direction);
    assert IsNode(c.baseline, 0);
    AdditiveIsCompatible(c.baseline, c.current, c.direction, Every(c.baseline), true, 0);
    DiagonalConsistent(c.baseline, c.current, c.direction, Every(c.baseline), false);
    DiagonalEdge(c.baseline, c.current, c.direction, Every(c.baseline), false, 0);
  }

  /**
   * Such a body whose record gains optional properties is approved, no premise
   * excludes it, and the object that an old client sends is accepted.
   */
  lemma NullableBodyIsAccepted(c: Comparison, few: map<string, NodeId>, many: map<string, NodeId>,
                               formats: (string, Json) -> bool)
    requires c.direction == Request && IsBody(c.baseline, few) && IsBody(c.current, many)
    requires "k" in few && few.Keys <= many.Keys
    ensures Compatible(c, true, (Some(0), Some(0)))
    ensures RequestPremises(c, Diagonal(c.baseline, Every(c.baseline)), {0}, formats)
    ensures Valid(Sent(c, DeclaredKeys(c.baseline, {0}), formats), 0, VALUE)
    ensures Valid(Received(c, formats), 0, VALUE)
  {
    NullableApproved(c, few, many);
    NullablePremises(c, few, many);
    PlainRequestsSuffice(c, Diagonal(c.baseline, Every(c.baseline)), {0}, formats);
    NullableBodyIsSent(c, few, formats);
    RequestAcceptancePreserved(c, Diagonal(c.baseline, Every(c.baseline)), DeclaredKeys(c.baseline, {0}), formats,
                               0, 0);
  }

  lemma BodyIsBody(names: map<string, NodeId>)
    requires forall name | name in names :: names[name] == 4
    ensures IsBody(Body(names), names)
  {
  }

  /** There are such documents. */
  lemma NullableBodyExists() returns (c: Comparison, few: map<string, NodeId>, many: map<string, NodeId>)
    ensures c.direction == Request && IsBody(c.baseline, few) && IsBody(c.current, many)
    ensures few.Keys == {"k"} && many.Keys == {"k", "m"} && VALUE.fields.Keys == {"k"}
  {
    few, many := map["k" := 4], map["k" := 4, "m" := 4];
    BodyIsBody(few);
    BodyIsBody(many);
    c := Comparison(Body(few), Body(many), Request);
  }
}
