/**
 * Which properties a comparison keeps and which keys a message may have, stated
 * on `readOnly`, `writeOnly` and the properties as they are written.
 */
module Visibility {
  import opened Wrappers
  import opened Json
  import opened Documents
  import opened Compatibility
  import opened Instances

  /** The keywords of a property's schema, references followed. */
  function PropertyKeywords(d: Document, id: NodeId, name: string): Option<Keywords>
    requires id < |d.nodes|
  {
    var properties := Properties(KeywordsAt(d, id));
    if name in properties && Target(d, properties[name]).Some?
       && d.nodes[Target(d, properties[name]).value].Schema?
    then Some(d.nodes[Target(d, properties[name]).value].kw)
    else None
  }

  predicate IsReadOnly(d: Document, id: NodeId, name: string)
    requires id < |d.nodes|
  {
    var kw := PropertyKeywords(d, id, name);
    kw.Some? && kw.value.readOnly
  }

  predicate IsWriteOnly(d: Document, id: NodeId, name: string)
    requires id < |d.nodes|
  {
    var kw := PropertyKeywords(d, id, name);
    kw.Some? && kw.value.writeOnly
  }

  // ---------------------------------------------------------------- requests

  /**
   * Every property that requests may carry stays and may still be carried; none
   * becomes required; the schemas are related.
   */
  predicate SendableKept(c: Comparison, relation: set<Pair>, strict: bool, p: Pair)
    requires InRange(c, p)
  {
    var b, n := KeywordsAt(c.baseline, p.0), KeywordsAt(c.current, p.1);
    && (forall name | name in Properties(b) && !IsReadOnly(c.baseline, p.0, name) ::
          && name in Properties(n) && !IsReadOnly(c.current, p.1, name)
          && EdgeHolds(c, relation, strict, (Some(Properties(b)[name]), Some(Properties(n)[name]))))
    && (forall name | name in n.required && name in Properties(n) && !IsReadOnly(c.current, p.1, name) ::
          name in b.required && name in Properties(b) && !IsReadOnly(c.baseline, p.0, name))
  }

  /** Main result: that is what the checks on the properties of a request pair decide. */
  lemma RequestPropertiesDecided(c: Comparison, relation: set<Pair>, strict: bool, p: Pair)
    requires c.direction == Request && InRange(c, p)
    ensures NamesKept(c, p) && RequiredKept(c, p) && PropertyEdgesHold(c, relation, strict, p) <==>
            SendableKept(c, relation, strict, p)
  {
    forall name ensures name in Visible(c.baseline, p.0, Request) <==>
                        name in Properties(KeywordsAt(c.baseline, p.0)) && !IsReadOnly(c.baseline, p.0, name)
    {
    }
    forall name ensures name in Visible(c.current, p.1, Request) <==>
                        name in Properties(KeywordsAt(c.current, p.1)) && !IsReadOnly(c.current, p.1, name)
    {
    }
    if SendableKept(c, relation, strict, p) {
      forall name | name in Visible(c.baseline, p.0, Request) && name in Visible(c.current, p.1, Request)
        ensures EdgeHolds(c, relation, strict, PropertyEdge(c, p, name))
      {
      }
    }
    if NamesKept(c, p) && RequiredKept(c, p) && PropertyEdgesHold(c, relation, strict, p) {
      forall name | name in Properties(KeywordsAt(c.baseline, p.0)) && !IsReadOnly(c.baseline, p.0, name)
        ensures name in Visible(c.current, p.1, Request) && EdgeHolds(c, relation, strict, PropertyEdge(c, p, name))
      {
        assert name in Visible(c.baseline, p.0, Request);
      }
      forall name | name in KeywordsAt(c.current, p.1).required && name in Properties(KeywordsAt(c.current, p.1))
                    && !IsReadOnly(c.current, p.1, name)
        ensures name in RequiredNames(c.baseline, p.0, Request)
      {
        assert name in RequiredNames(c.current, p.1, Request);
      }
    }
  }

  /** A compatible request pair keeps every property that requests may carry, a required writeOnly one included. */
  lemma RequestKeepsProperty(c: Comparison, strict: bool, p: Pair, name: string)
    requires c.direction == Request && p in Greatest(c, strict) && InRange(c, p)
    requires name in Properties(KeywordsAt(c.baseline, p.0)) && !IsReadOnly(c.baseline, p.0, name)
    ensures name in Properties(KeywordsAt(c.current, p.1)) && !IsReadOnly(c.current, p.1, name)
    ensures Compatible(c, strict, (Some(Properties(KeywordsAt(c.baseline, p.0))[name]),
                                   Some(Properties(KeywordsAt(c.current, p.1))[name])))
  {
    GreatestUnfolds(c, p);
    RequestPropertiesDecided(c, Greatest(c, strict), strict, p);
  }

  // ---------------------------------------------------------------- responses

  /** Every property that responses may carry stays, is carried, and is promised as before. */
  predicate ReadableKept(c: Comparison, relation: set<Pair>, strict: bool, p: Pair)
    requires InRange(c, p)
  {
    var b, n := KeywordsAt(c.baseline, p.0), KeywordsAt(c.current, p.1);
    && (forall name | name in Properties(b) && !IsWriteOnly(c.baseline, p.0, name) ::
          && name in Properties(n) && !IsWriteOnly(c.current, p.1, name)
          && EdgeHolds(c, relation, strict, (Some(Properties(b)[name]), Some(Properties(n)[name]))))
    && (forall name | name in b.required && name in Properties(b) && !IsWriteOnly(c.baseline, p.0, name) ::
          name in n.required && name in Properties(n) && !IsWriteOnly(c.current, p.1, name))
  }

  /** Main result: that is what the checks on the properties of a response pair decide. */
  lemma ResponsePropertiesDecided(c: Comparison, relation: set<Pair>, strict: bool, p: Pair)
    requires c.direction == Response && InRange(c, p)
    ensures NamesKept(c, p) && RequiredKept(c, p) && PropertyEdgesHold(c, relation, strict, p) <==>
            ReadableKept(c, relation, strict, p)
  {
    forall name ensures name in Visible(c.baseline, p.0, Response) <==>
                        name in Properties(KeywordsAt(c.baseline, p.0)) && !IsWriteOnly(c.baseline, p.0, name)
    {
    }
    forall name ensures name in Visible(c.current, p.1, Response) <==>
                        name in Properties(KeywordsAt(c.current, p.1)) && !IsWriteOnly(c.current, p.1, name)
    {
    }
    if ReadableKept(c, relation, strict, p) {
      forall name | name in Visible(c.baseline, p.0, Response) && name in Visible(c.current, p.1, Response)
        ensures EdgeHolds(c, relation, strict, PropertyEdge(c, p, name))
      {
      }
    }
    if NamesKept(c, p) && RequiredKept(c, p) && PropertyEdgesHold(c, relation, strict, p) {
      forall name | name in Properties(KeywordsAt(c.baseline, p.0)) && !IsWriteOnly(c.baseline, p.0, name)
        ensures name in Visible(c.current, p.1, Response) && EdgeHolds(c, relation, strict, PropertyEdge(c, p, name))
      {
        assert name in Visible(c.baseline, p.0, Response);
      }
      forall name | name in KeywordsAt(c.baseline, p.0).required && name in Properties(KeywordsAt(c.baseline, p.0))
                    && !IsWriteOnly(c.baseline, p.0, name)
        ensures name in RequiredNames(c.current, p.1, Response)
      {
        assert name in RequiredNames(c.baseline, p.0, Response);
      }
    }
  }

  /** A compatible response pair keeps every property that responses may carry. */
  lemma ResponseKeepsProperty(c: Comparison, strict: bool, p: Pair, name: string)
    requires c.direction == Response && p in Greatest(c, strict) && InRange(c, p)
    requires name in Properties(KeywordsAt(c.baseline, p.0)) && !IsWriteOnly(c.baseline, p.0, name)
    ensures name in Properties(KeywordsAt(c.current, p.1)) && !IsWriteOnly(c.current, p.1, name)
    ensures Compatible(c, strict, (Some(Properties(KeywordsAt(c.baseline, p.0))[name]),
                                   Some(Properties(KeywordsAt(c.current, p.1))[name])))
  {
    GreatestUnfolds(c, p);
    ResponsePropertiesDecided(c, Greatest(c, strict), strict, p);
  }

  // ---------------------------------------------------------------- messages

  /** The keys of a request that is read strictly: what is readOnly is refused, whatever its value. */
  lemma RequestKeys(r: Reading, t: NodeId, key: string, v: Json)
    requires r.direction == Request && !r.tolerant && t < |r.doc.nodes| && r.sends(t, key)
    ensures var kw := KeywordsAt(r.doc, t);
            && (key in Properties(kw) ==>
                  (ValidKey(r, t, key, v) <==>
                   !IsReadOnly(r.doc, t, key) && Valid(r, Properties(kw)[key], v)))
            && (key !in Properties(kw) ==>
                  (ValidKey(r, t, key, v) <==>
                   match kw.additional
                   case Unstated => true
                   case Flag(allowed) => allowed
                   case Each(schema) => Valid(r, schema, v)))
  {
    assert key in Properties(KeywordsAt(r.doc, t)) ==>
        (key in Visible(r.doc, t, Request) <==> !IsReadOnly(r.doc, t, key));
  }

  /** The keys of a response: what is writeOnly is not sent, and ignored by a tolerant reader. */
  lemma ResponseKeys(r: Reading, t: NodeId, key: string, v: Json)
    requires r.direction == Response && t < |r.doc.nodes| && r.sends(t, key)
    ensures var kw := KeywordsAt(r.doc, t);
            && (key in Properties(kw) ==>
                  (ValidKey(r, t, key, v) <==>
                   if IsWriteOnly(r.doc, t, key) then r.tolerant else Valid(r, Properties(kw)[key], v)))
            && (key !in Properties(kw) ==>
                  (ValidKey(r, t, key, v) <==>
                   match kw.additional
                   case Unstated => true
                   case Flag(allowed) => allowed || r.tolerant
                   case Each(schema) => Valid(r, schema, v)))
  {
    assert key in Properties(KeywordsAt(r.doc, t)) ==>
        (key in Visible(r.doc, t, Response) <==> !IsWriteOnly(r.doc, t, key));
  }

  /** The required names of a message: those its direction does not hide. */
  lemma RequiredOfMessage(r: Reading, t: NodeId, v: Json)
    requires t < |r.doc.nodes| && v.Obj?
    ensures HasRequired(r, t, v) <==>
            forall name | name in KeywordsAt(r.doc, t).required
              && !(if r.direction == Request then IsReadOnly(r.doc, t, name) else IsWriteOnly(r.doc, t, name)) ::
              name in v.fields
  {
    forall name
      ensures Hidden(r.doc, t, r.direction, name) <==>
              if r.direction == Request then IsReadOnly(r.doc, t, name) else IsWriteOnly(r.doc, t, name)
    {
    }
  }

  // ---------------------------------------------------------------- examples

  const SECRET := STRING.(writeOnly := true)
  const STAMP := STRING.(readOnly := true)

  /** A record of one property whose schema is given. */
  function Holding(name: string, schema: Keywords): Document
    requires schema == SECRET || schema == STAMP || schema == INTEGER.(writeOnly := true)
  {
    RawDocument([Schema(NO_KEYWORDS.(typ := Some(Str("object")), properties := Some(map[name := 1]),
                                     required := {name})),
                 Schema(schema)], map[], map[])
  }

  function Empty(): Document {
    RawDocument([Schema(NO_KEYWORDS.(typ := Some(Str("object"))))], map[], map[])
  }

  lemma OnlyProperty(d: Document, name: string, schema: Keywords)
    requires schema == SECRET || schema == STAMP || schema == INTEGER.(writeOnly := true)
    requires d == Holding(name, schema)
    ensures Properties(KeywordsAt(d, 0)) == map[name := 1]
    ensures IsReadOnly(d, 0, name) == schema.readOnly && IsWriteOnly(d, 0, name) == schema.writeOnly
  {
    assert Target(d, 1) == Some(1);
  }

  /** A required secret that goes from a request is reported. */
  lemma SecretRemovedIsReported(strict: bool)
    ensures !Compatible(Comparison(Holding("api_key", SECRET), Empty(), Request), strict, (Some(0), Some(0)))
  {
    var c := Comparison(Holding("api_key", SECRET), Empty(), Request);
    OnlyProperty(c.baseline, "api_key", SECRET);
    if (0, 0) in Greatest(c, strict) {
      RequestKeepsProperty(c, strict, (0, 0), "api_key");
    }
  }

  /** So is one whose type changes. */
  lemma SecretRetypedIsReported(strict: bool)
    ensures !Compatible(Comparison(Holding("api_key", SECRET), Holding("api_key", INTEGER.(writeOnly := true)),
                                   Request),
                        strict, (Some(0), Some(0)))
  {
    var c := Comparison(Holding("api_key", SECRET), Holding("api_key", INTEGER.(writeOnly := true)), Request);
    OnlyProperty(c.baseline, "api_key", SECRET);
    OnlyProperty(c.current, "api_key", INTEGER.(writeOnly := true));
    assert "string" in TypeSet(SECRET.typ).value;
    if (0, 0) in Greatest(c, strict) {
      RequestKeepsProperty(c, strict, (0, 0), "api_key");
      GreatestUnfolds(c, (1, 1));
    }
  }

  /** What the server alone writes may go from a request, and what the client alone writes from a response. */
  lemma HiddenMayGo(strict: bool)
    ensures Compatible(Comparison(Holding("created", STAMP), Empty(), Request), strict, (Some(0), Some(0)))
    ensures Compatible(Comparison(Holding("api_key", SECRET), Empty(), Response), strict, (Some(0), Some(0)))
  {
    HiddenGoes("created", STAMP, Request, strict);
    HiddenGoes("api_key", SECRET, Response, strict);
  }

  lemma HiddenGoes(name: string, schema: Keywords, direction: Direction, strict: bool)
    requires (schema == STAMP && direction == Request) || (schema == SECRET && direction == Response)
    ensures Compatible(Comparison(Holding(name, schema), Empty(), direction), strict, (Some(0), Some(0)))
  {
    var c := Comparison(Holding(name, schema), Empty(), direction);
    OnlyProperty(c.baseline, name, schema);
    var relation: set<Pair> := {(0, 0)};
    assert Visible(c.baseline, 0, direction) == {};
    assert LocallyCompatible(c, (0, 0));
    assert PairHolds(c, relation, strict, (0, 0));
    ConsistentIncluded(c, relation, strict);
    assert (0, 0) in relation;
  }
}
