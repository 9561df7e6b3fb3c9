/**
 * A reply that refers to a component, as the contracts of the repository write
 * most of them.  Its record gains required properties; the comparison approves,
 * every premise holds, and what the new server sends has the old generated type.
 */
module TypedReply {
  import opened Wrappers
  import opened Json
  import opened Documents
  import opened Compatibility
  import opened Revisions
  import opened Instances
  import opened Judgements
  import opened Inclusion
  import opened Premises
  import opened TypeScript
  import opened GeneratedClient
  import opened Approval

  const REF := COMPONENT_PREFIX + "Item"

  /** A record whose properties are all required. */
  function Full(names: map<string, NodeId>): Keywords {
    NO_KEYWORDS.(typ := Some(Str("object")), properties := Some(names), required := names.Keys)
  }

  function Reply(names: map<string, NodeId>): Document
    requires forall name | name in names :: names[name] == 2
  {
    RawDocument([Reference(REF), Schema(Full(names)), Schema(INTEGER)], map[REF := 1], map["Item" := 1])
  }

  predicate IsReply(d: Document, names: map<string, NodeId>) {
    && (forall name | name in names :: names[name] == 2)
    && |d.nodes| == 3 && d.pointers == map[REF := 1] && d.components == map["Item" := 1]
    && d.nodes[0] == Reference(REF) && d.nodes[1] == Schema(Full(names)) && d.nodes[2] == Schema(INTEGER)
  }

  const VALUE := Obj(map["k" := Num(1.0, false), "m" := Num(2.0, false)])

  lemma Targets(d: Document, names: map<string, NodeId>)
    requires IsReply(d, names)
    ensures Target(d, 0) == Some(1) && Target(d, 1) == Some(1) && Target(d, 2) == Some(2)
  {
    assert IsLocal(REF);
    assert Chase(d, 1, {REF}) == Some(1);
    assert {} + {REF} == {REF};
  }

  lemma Sound(d: Document, names: map<string, NodeId>)
    requires IsReply(d, names)
    ensures WellFormed(d) && Grounded(d) && NoNulls(d)
  {
    Targets(d, names);
    forall id: NodeId | id < 3 ensures Target(d, id).Some? && !d.nodes[Target(d, id).value].Reference? {
      assert id == 0 || id == 1 || id == 2;
    }
  }

  // ---------------------------------------------------------------- approved

  lemma Grows(d: Document, wider: Document, few: map<string, NodeId>, many: map<string, NodeId>)
    requires IsReply(d, few) && IsReply(wider, many) && few.Keys <= many.Keys
    ensures Additive(d, wider, Response, Every(d))
  {
    Sound(d, few);
    Sound(wider, many);
    NothingChanged(d, Response);
    assert OnlyAddsProperties(Full(few), Full(many), Response);
    forall id | id in Every(d) ensures SoundAt(d, id) && AdditiveAt(d, wider, Response, id) {
      assert id == 0 || id == 1 || id == 2;
      assert SoundAt(wider, 2);
    }
  }

  lemma PremisesHold(c: Comparison, few: map<string, NodeId>, many: map<string, NodeId>)
    requires c.direction == Response && IsReply(c.baseline, few) && IsReply(c.current, many) && few.Keys <= many.Keys
    ensures PlainResponses(c, Diagonal(c.baseline, Every(c.baseline)))
  {
    Sound(c.baseline, few);
    Sound(c.current, many);
    Grows(c.baseline, c.current, few, many);
    DiagonalConsistent(c.baseline, c.current, Response, Every(c.baseline), false);
    forall p | p in Diagonal(c.baseline, Every(c.baseline))
      ensures PlainResponse(c, Diagonal(c.baseline, Every(c.baseline)), p)
    {
      assert p == (0, 0) || p == (1, 1) || p == (2, 2);
    }
  }

  // ---------------------------------------------------------------- generated

  lemma GeneratorTakes(d: Document, names: map<string, NodeId>)
    requires IsReply(d, names)
    ensures GeneratorPremises(d, 0)
  {
    assert NamesComponent(d, REF) by {
      assert "Item" in d.components && '/' !in "Item";
    }
    forall id: NodeId | IsReferenceAt(d, id) ensures NamesComponent(d, d.nodes[id].ref) {
      assert id == 0;
    }
    forall id: NodeId | id < 3 && d.nodes[id].Schema? ensures id == 1 || id == 2 {
    }
  }

  lemma ItemName(d: Document, names: map<string, NodeId>)
    requires IsReply(d, names)
    ensures TypeOf(d, 0) == Some(Named(Sanitize("Item")))
  {
    assert '/' !in "Item";
    assert COMPONENT_PREFIX == "#/components/schemas" + "/";
    LastSegmentOf("#/components/schemas", "Item");
    assert REF == "#/components/schemas" + "/" + "Item";
  }

  // ---------------------------------------------------------------- served and read

  lemma ServesValue(r: Reading, names: map<string, NodeId>)
    requires IsReply(r.doc, names) && names.Keys == {"k", "m"} && r.direction == Response
    requires forall id, key :: r.sends(id, key)
    ensures Valid(r, 0, VALUE)
  {
    Targets(r.doc, names);
    forall key | key in VALUE.fields ensures ValidKey(r, 1, key, VALUE.fields[key]) {
      assert HasType(VALUE.fields[key], "integer") && "integer" in TypeSet(INTEGER.typ).value;
      assert Accepts(r, 1, 2, VALUE.fields[key]);
      assert key in names && names[key] == 2;
    }
    assert HasType(VALUE, "object") && "object" in TypeSet(Full(names).typ).value;
    assert ValidBody(r, 1, VALUE);
    BodyIsValid(r, 0, VALUE);
  }

  lemma ReplyApproved(c: Comparison, few: map<string, NodeId>, many: map<string, NodeId>)
    requires c.direction == Response && IsReply(c.baseline, few) && IsReply(c.current, many) && few.Keys <= many.Keys
    ensures Compatible(c, true, (Some(0), Some(0)))
    ensures EdgeHolds(c, Diagonal(c.baseline, Every(c.baseline)), false, (Some(0), Some(0)))
  {
    Grows(c.baseline, c.current, few, many);
    assert IsNode(c.baseline, 0);
    AdditiveIsCompatible(c.baseline, c.current, Response, Every(c.baseline), true, 0);
    DiagonalEdge(c.baseline, c.current, Response, Every(c.baseline), false, 0);
  }

  /**
   * A reply whose record gains required properties is approved, no premise
   * excludes it, and a value that the new server sends has the old type.
   */
  lemma GrownReplyFitsOldType(c: Comparison, few: map<string, NodeId>, many: map<string, NodeId>,
                              declarations: Declarations, formats: (string, Json) -> bool)
    requires c.direction == Response && IsReply(c.baseline, few) && IsReply(c.current, many)
    requires few.Keys == {"k"} && many.Keys == {"k", "m"} && Emitted(c.baseline, declarations)
    ensures Compatible(c, true, (Some(0), Some(0)))
    ensures ResponsePremises(c, Diagonal(c.baseline, Every(c.baseline)), formats) && GeneratorPremises(c.baseline, 0)
    ensures Valid(Served(c, formats), 0, VALUE)
    ensures TypeOf(c.baseline, 0) == Some(Named(Sanitize("Item")))
    ensures HasTsType(declarations, Named(Sanitize("Item")), VALUE)
  {
    var relation := Diagonal(c.baseline, Every(c.baseline));
    ReplyApproved(c, few, many);
    PremisesHold(c, few, many);
    PlainResponsesSuffice(c, relation, formats);
    GeneratorTakes(c.baseline, few);
    ItemName(c.baseline, few);
    ServesValue(Served(c, formats), many);
    ApprovedResponsesInhabitGeneratedTypes(c, relation, declarations, formats, 0, 0);
  }

  /** There are such documents, and the generator declares their component. */
  lemma GrownReplyExists() returns (c: Comparison, few: map<string, NodeId>, many: map<string, NodeId>)
    ensures c.direction == Response && IsReply(c.baseline, few) && IsReply(c.current, many)
    ensures few.Keys == {"k"} && many.Keys == {"k", "m"}
    ensures DeclarationOf(c.baseline, 1).Some?
  {
    few, many := map["k" := 2], map["k" := 2, "m" := 2];
    c := Comparison(Reply(few), Reply(many), Response);
  }
}
