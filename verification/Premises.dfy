/**
 * The premises of the client results as conditions that can be read off the two
 * documents and a relation between their schemas, without a look at values.
 */
module Premises {
  import opened Wrappers
  import opened Json
  import opened Documents
  import opened Compatibility
  import opened Instances
  import opened Judgements
  import opened Inclusion
  import opened Exactness
  import opened Senders

  // ---------------------------------------------------------------- schemas that take everything

  predicate IsOpen(d: Document, id: NodeId)
    requires id < |d.nodes|
  {
    Target(d, id).Some? &&
    (d.nodes[Target(d, id).value] == Schema(NO_KEYWORDS) || d.nodes[Target(d, id).value] == Literal(Bool(true)))
  }

  lemma OpenAcceptsAll(r: Reading, id: NodeId)
    requires id < |r.doc.nodes| && IsOpen(r.doc, id) && forall t, key :: r.sends(t, key)
    ensures AcceptsAll(r, id)
  {
    forall v ensures Valid(r, id, v) {
      assert Accepts(r, 1, id, v);
    }
  }

  // ---------------------------------------------------------------- branches of different types

  /** Some value has both types. */
  predicate Overlap(t: string, u: string) {
    t == u || (t == "integer" && u == "number") || (t == "number" && u == "integer")
  }

  /** The types that a schema lists where its references lead. */
  function TypesAt(d: Document, id: NodeId): Option<set<string>>
    requires id < |d.nodes|
  {
    if Target(d, id).Some? && d.nodes[Target(d, id).value].Schema?
    then TypeSet(KeywordsAt(d, Target(d, id).value).typ)
    else None
  }

  predicate TypesApart(d: Document, x: NodeId, y: NodeId)
    requires x < |d.nodes| && y < |d.nodes|
  {
    TypesAt(d, x).Some? && TypesAt(d, y).Some?
    && forall t, u | t in TypesAt(d, x).value && u in TypesAt(d, y).value :: !Overlap(t, u)
  }

  /** Any two branches list types that no value has in common. */
  predicate BranchesApart(d: Document, t: NodeId, b: Branches)
    requires d.NestedBranches(t, b)
  {
    b.Alternatives? ==>
      forall i, j | 0 <= i < |b.ids| && 0 <= j < |b.ids| && i != j :: TypesApart(d, b.ids[i], b.ids[j])
  }

  lemma OneTypeOnly(v: Json, t: string, u: string)
    requires HasType(v, t) && HasType(v, u)
    ensures Overlap(t, u)
  {
  }

  lemma ApartRefuses(r: Reading, x: NodeId, y: NodeId, v: Json)
    requires x < |r.doc.nodes| && y < |r.doc.nodes| && TypesApart(r.doc, x, y) && Valid(r, x, v)
    ensures Invalid(r, y, v)
  {
    ValidHasBody(r, x, v);
    var t :| t in TypesAt(r.doc, x).value && HasType(v, t);
    forall u | u in TypesAt(r.doc, y).value ensures !HasType(v, u) {
      if HasType(v, u) {
        OneTypeOnly(v, t, u);
      }
    }
    assert Refuses(r, 1, y, v);
  }

  /** Branches of different types are disjoint, for every reading. */
  lemma ApartIsDisjoint(r: Reading, t: NodeId, b: Branches)
    requires r.doc.NestedBranches(t, b) && BranchesApart(r.doc, t, b)
    ensures Disjoint(r, t, b)
  {
    if b.Alternatives? {
      forall v, i, j | 0 <= i < |b.ids| && 0 <= j < |b.ids| && i != j && Valid(r, b.ids[i], v)
        ensures Invalid(r, b.ids[j], v)
      {
        ApartRefuses(r, b.ids[i], b.ids[j], v);
      }
    }
  }

  // ---------------------------------------------------------------- requests

  /** The relation holds between the baseline's schema for undeclared keys and this current schema. */
  predicate Follows(c: Comparison, relation: set<Pair>, p: Pair, s: NodeId)
    requires InRange(c, p) && s < |c.current.nodes|
  {
    var b := KeywordsAt(c.baseline, p.0);
    b.additional.Each? && EdgeHolds(c, relation, false, (Some(b.additional.schema), Some(s)))
  }

  /** A key that is sent undeclared: the current schema for it takes everything, or carries on the baseline's. */
  predicate PlainSentKey(c: Comparison, relation: set<Pair>, p: Pair, key: string)
    requires InRange(c, p)
  {
    var b, n := KeywordsAt(c.baseline, p.0), KeywordsAt(c.current, p.1);
    key !in Properties(b) && AllowsUndeclared(b) ==>
      var s := CurrentSchema(c, p, key);
      if s.Some? then IsOpen(c.current, s.value) || Follows(c, relation, p, s.value) else key !in Properties(n)
  }

  ghost predicate PlainRequest(c: Comparison, relation: set<Pair>, roots: set<NodeId>, p: Pair)
    requires InRange(c, p)
  {
    var b, n := KeywordsAt(c.baseline, p.0), KeywordsAt(c.current, p.1);
    && ConstClear(b.constant, n.constant)
    && BranchesApart(c.current, p.1, n.oneOf)
    && (n.items.Some? ==> b.items.Some? || IsOpen(c.current, n.items.value))
    && RequiredClear(c.current, p.1, c.baseline, p.0, Request)
    && forall key | DeclaredKeys(c.baseline, roots)(p.0, key) && key !in Visible(c.baseline, p.0, Request) ::
         PlainSentKey(c, relation, p, key)
  }

  lemma PlainSentKeyIsClear(c: Comparison, relation: set<Pair>, sends: (NodeId, string) -> bool,
                            formats: (string, Json) -> bool, p: Pair, key: string)
    requires c.direction == Request && InRange(c, p) && PlainSentKey(c, relation, p, key)
    ensures KeyCovered(c, relation, p, key)
            || SentKeyClear(Sent(c, sends, formats), p.0, Received(c, formats), p.1, key)
  {
    var s := CurrentSchema(c, p, key);
    assert KeySchema(Received(c, formats), p.1, key) == s;
    if s.Some? && IsOpen(c.current, s.value) {
      OpenAcceptsAll(Received(c, formats), s.value);
    }
  }

  lemma PlainRequestIsSafe(c: Comparison, relation: set<Pair>, roots: set<NodeId>, formats: (string, Json) -> bool,
                           p: Pair)
    requires c.direction == Request && InRange(c, p) && PlainRequest(c, relation, roots, p)
    ensures RequestSafe(c, relation, DeclaredKeys(c.baseline, roots), formats, p)
  {
    var sends, received := DeclaredKeys(c.baseline, roots), Received(c, formats);
    var b, n := KeywordsAt(c.baseline, p.0), KeywordsAt(c.current, p.1);
    ApartIsDisjoint(received, p.1, n.oneOf);
    DisjointIsClear(Sent(c, sends, formats), p.0, b.oneOf, received, p.1, n.oneOf);
    if n.items.Some? && b.items.None? {
      OpenAcceptsAll(received, n.items.value);
    }
    forall key | sends(p.0, key) && key !in Visible(c.baseline, p.0, Request) && !KeyCovered(c, relation, p, key)
      ensures SentKeyClear(Sent(c, sends, formats), p.0, received, p.1, key)
    {
      PlainSentKeyIsClear(c, relation, sends, formats, p, key);
    }
  }

  // ---------------------------------------------------------------- responses

  /** A key that the reader did not declare: its schema for such keys takes everything, or is carried on. */
  predicate PlainServedKey(c: Comparison, relation: set<Pair>, p: Pair, key: string)
    requires InRange(c, p) && KeywordsAt(c.baseline, p.0).additional.Each?
  {
    var s := CurrentSchema(c, p, key);
    || IsOpen(c.baseline, KeywordsAt(c.baseline, p.0).additional.schema)
    || (if s.Some? then Follows(c, relation, p, s.value) else key in Properties(KeywordsAt(c.current, p.1)))
  }

  predicate PlainResponse(c: Comparison, relation: set<Pair>, p: Pair)
    requires InRange(c, p)
  {
    var b, n := KeywordsAt(c.baseline, p.0), KeywordsAt(c.current, p.1);
    && ConstClear(n.constant, b.constant)
    && RequiredClear(c.baseline, p.0, c.current, p.1, Response)
    && (b.additional.Each? ==>
          && (n.additional.Each? || n.additional == Flag(false) || IsOpen(c.baseline, b.additional.schema))
          && forall key | key in Properties(n) && key !in Properties(b) :: PlainServedKey(c, relation, p, key))
  }

  lemma PlainServedKeyIsClear(c: Comparison, relation: set<Pair>, formats: (string, Json) -> bool, p: Pair, key: string)
    requires c.direction == Response && PairHolds(c, relation, false, p) && PlainResponse(c, relation, p)
    requires key !in Properties(KeywordsAt(c.baseline, p.0)) && !KeyCovered(c, relation, p, key)
    ensures ServedKeyClear(Served(c, formats), p.1, Read(c, formats), p.0, key)
  {
    var b, n := KeywordsAt(c.baseline, p.0), KeywordsAt(c.current, p.1);
    assert KeySchema(Served(c, formats), p.1, key) == CurrentSchema(c, p, key);
    if b.additional.Each? && IsOpen(c.baseline, b.additional.schema) {
      OpenAcceptsAll(Read(c, formats), b.additional.schema);
    }
  }

  lemma PlainResponseIsSafe(c: Comparison, relation: set<Pair>, formats: (string, Json) -> bool, p: Pair)
    requires c.direction == Response && PairHolds(c, relation, false, p) && PlainResponse(c, relation, p)
    ensures ResponseSafe(c, relation, formats, p)
  {
    forall key | key !in Properties(KeywordsAt(c.baseline, p.0)) && !KeyCovered(c, relation, p, key)
      ensures ServedKeyClear(Served(c, formats), p.1, Read(c, formats), p.0, key)
    {
      PlainServedKeyIsClear(c, relation, formats, p, key);
    }
  }
}
