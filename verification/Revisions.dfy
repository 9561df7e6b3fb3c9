/**
 * Revisions of a document that only add.  What may be added depends on who
 * reads: schemas of requests may gain optional properties, schemas of responses
 * any properties and promises.  Such revisions report nothing, and neither does
 * the empty revision, a document against itself.
 */
module Revisions {
  import opened Wrappers
  import opened Documents
  import opened Compatibility

  // ---------------------------------------------------------------- what is added where

  /** Alternatives are lists, and the references on the way can be evaluated. */
  predicate SoundAt(d: Document, id: NodeId)
    requires id < |d.nodes|
  {
    var kw := KeywordsAt(d, id);
    Target(d, id).Some? && !kw.oneOf.NotAList? && !kw.anyOf.NotAList? && !kw.allOf.NotAList?
  }

  predicate WellFormed(d: Document) {
    forall id: NodeId | id < |d.nodes| :: SoundAt(d, id)
  }

  predicate IsNode(d: Document, id: NodeId) {
    id < |d.nodes|
  }

  function Every(d: Document): set<NodeId> {
    set id: NodeId | id < |d.nodes| && IsNode(d, id)
  }

  predicate BranchesWithin(b: Branches, ids: set<NodeId>) {
    b.Alternatives? ==> forall i | 0 <= i < |b.ids| :: b.ids[i] in ids
  }

  /** All that a schema is made of, and what it refers to, is among the schemas. */
  predicate ClosedAt(d: Document, ids: set<NodeId>, id: NodeId)
    requires id < |d.nodes|
  {
    var n, kw := d.nodes[id], KeywordsAt(d, id);
    && (n.Reference? && n.ref in d.pointers ==> d.pointers[n.ref] in ids)
    && BranchesWithin(kw.oneOf, ids) && BranchesWithin(kw.anyOf, ids) && BranchesWithin(kw.allOf, ids)
    && (forall name | name in Properties(kw) :: Properties(kw)[name] in ids)
    && (kw.additional.Each? ==> kw.additional.schema in ids)
    && (kw.items.Some? ==> kw.items.value in ids)
  }

  /** The schemas that messages of one direction reach. */
  predicate Closed(d: Document, ids: set<NodeId>) {
    forall id | id in ids :: id < |d.nodes| && ClosedAt(d, ids, id)
  }

  /**
   * Properties are added.  A request may not require them, and may require less
   * than before; a response may promise them, and more than before.
   */
  predicate OnlyAddsProperties(kw: Keywords, wider: Keywords, direction: Direction) {
    && wider == kw.(properties := wider.properties, required := wider.required)
    && (forall name | name in Properties(kw) ::
          name in Properties(wider) && Properties(wider)[name] == Properties(kw)[name])
    && match direction
       case Request =>
         wider.required <= kw.required
         && forall name | name in Properties(wider) && name in wider.required :: name in Properties(kw)
       case Response => kw.required <= wider.required
  }

  predicate AdditiveAt(d: Document, wider: Document, direction: Direction, id: NodeId)
    requires id < |d.nodes| && id < |wider.nodes|
  {
    var n := d.nodes[id];
    if n.Schema? then
      && wider.nodes[id].Schema? && OnlyAddsProperties(n.kw, wider.nodes[id].kw, direction)
      && PropertiesResolve(wider, id)
    else
      && wider.nodes[id] == n
      && (n.Reference? && n.ref in d.pointers ==> n.ref in wider.pointers && wider.pointers[n.ref] == d.pointers[n.ref])
  }

  /** On the schemas of one direction the document only gains. */
  predicate Additive(d: Document, wider: Document, direction: Direction, ids: set<NodeId>) {
    && |d.nodes| <= |wider.nodes| && Closed(d, ids)
    && forall id | id in ids :: SoundAt(d, id) && AdditiveAt(d, wider, direction, id)
  }

  // ---------------------------------------------------------------- nothing is reported

  lemma {:induction false} ChaseKept(d: Document, wider: Document, direction: Direction, ids: set<NodeId>,
                                     id: NodeId, followed: set<string>)
    requires Additive(d, wider, direction, ids) && id in ids && Chase(d, id, followed).Some?
    ensures Chase(wider, id, followed) == Chase(d, id, followed) && Chase(d, id, followed).value in ids
    decreases ReferenceTexts(d) - followed
  {
    var n := d.nodes[id];
    assert ClosedAt(d, ids, id) && AdditiveAt(d, wider, direction, id);
    if n.Reference? && IsLocal(n.ref) && n.ref !in followed {
      assert n.ref in ReferenceTexts(d);
      ChaseKept(d, wider, direction, ids, d.pointers[n.ref], followed + {n.ref});
    }
  }

  lemma HiddenKept(d: Document, wider: Document, direction: Direction, ids: set<NodeId>, id: NodeId, name: string)
    requires Additive(d, wider, direction, ids) && id in ids && name in Properties(KeywordsAt(d, id))
    ensures name in Properties(KeywordsAt(wider, id))
    ensures Hidden(wider, id, direction, name) <==> Hidden(d, id, direction, name)
  {
    assert ClosedAt(d, ids, id) && AdditiveAt(d, wider, direction, id);
    var child := Properties(KeywordsAt(d, id))[name];
    assert SoundAt(d, child);
    ChaseKept(d, wider, direction, ids, child, {});
    assert AdditiveAt(d, wider, direction, Target(d, child).value);
  }

  ghost function Diagonal(d: Document, ids: set<NodeId>): set<Pair> {
    set id | id in ids && id < |d.nodes| && !d.nodes[id].Literal? :: (id, id)
  }

  lemma DiagonalLocal(d: Document, wider: Document, direction: Direction, ids: set<NodeId>, id: NodeId)
    requires Additive(d, wider, direction, ids) && id in ids && !d.nodes[id].Literal?
    ensures LocallyCompatible(Comparison(d, wider, direction), (id, id))
  {
    assert SoundAt(d, id) && AdditiveAt(d, wider, direction, id) && ClosedAt(d, ids, id);
    forall name | name in Properties(KeywordsAt(d, id))
      ensures name in Properties(KeywordsAt(wider, id))
      ensures Hidden(wider, id, direction, name) <==> Hidden(d, id, direction, name)
      ensures Target(d, Properties(KeywordsAt(d, id))[name]).Some?
    {
      HiddenKept(d, wider, direction, ids, id, name);
      assert SoundAt(d, Properties(KeywordsAt(d, id))[name]);
    }
    var c := Comparison(d, wider, direction);
    assert KeywordsKept(c, (id, id)) && NamesKept(c, (id, id)) && RequiredKept(c, (id, id));
  }

  lemma DiagonalEdge(d: Document, wider: Document, direction: Direction, ids: set<NodeId>, strict: bool, id: NodeId)
    requires Additive(d, wider, direction, ids) && id in ids
    ensures EdgeHolds(Comparison(d, wider, direction), Diagonal(d, ids), strict, (Some(id), Some(id)))
  {
    assert SoundAt(d, id) && AdditiveAt(d, wider, direction, id);
    ChaseKept(d, wider, direction, ids, id, {});
    assert AdditiveAt(d, wider, direction, Target(d, id).value);
  }

  lemma DiagonalChildren(d: Document, wider: Document, direction: Direction, ids: set<NodeId>, strict: bool, id: NodeId)
    requires Additive(d, wider, direction, ids) && id in ids && !d.nodes[id].Literal?
    ensures ChildrenHold(Comparison(d, wider, direction), Diagonal(d, ids), strict, (id, id))
  {
    var c := Comparison(d, wider, direction);
    assert ClosedAt(d, ids, id) && AdditiveAt(d, wider, direction, id);
    forall child | child in ids ensures EdgeHolds(c, Diagonal(d, ids), strict, (Some(child), Some(child))) {
      DiagonalEdge(d, wider, direction, ids, strict, child);
    }
    forall name | name in Visible(d, id, direction) && name in Visible(wider, id, direction)
      ensures EdgeHolds(c, Diagonal(d, ids), strict, PropertyEdge(c, (id, id), name))
    {
      var child := Properties(KeywordsAt(d, id))[name];
      assert PropertyEdge(c, (id, id), name) == (Some(child), Some(child));
    }
  }

  lemma DiagonalConsistent(d: Document, wider: Document, direction: Direction, ids: set<NodeId>, strict: bool)
    requires Additive(d, wider, direction, ids)
    ensures Consistent(Comparison(d, wider, direction), Diagonal(d, ids), strict)
  {
    forall p | p in Diagonal(d, ids)
      ensures PairHolds(Comparison(d, wider, direction), Diagonal(d, ids), strict, p)
    {
      assert AdditiveAt(d, wider, direction, p.0);
      DiagonalLocal(d, wider, direction, ids, p.0);
      DiagonalChildren(d, wider, direction, ids, strict, p.0);
    }
  }

  /** Main result: an additive revision reports nothing for any schema that its direction reaches. */
  lemma AdditiveIsCompatible(d: Document, wider: Document, direction: Direction, ids: set<NodeId>, strict: bool,
                             id: NodeId)
    requires Additive(d, wider, direction, ids) && id in ids
    ensures Compatible(Comparison(d, wider, direction), strict, (Some(id), Some(id)))
  {
    DiagonalConsistent(d, wider, direction, ids, strict);
    ConsistentIncluded(Comparison(d, wider, direction), Diagonal(d, ids), strict);
    DiagonalEdge(d, wider, direction, ids, strict, id);
  }

  // ---------------------------------------------------------------- a document against itself

  lemma NothingChanged(d: Document, direction: Direction)
    requires WellFormed(d)
    ensures Additive(d, d, direction, Every(d))
  {
    forall id | id in Every(d) ensures ClosedAt(d, Every(d), id) && AdditiveAt(d, d, direction, id) {
      assert d.NestedKeywords(id, KeywordsAt(d, id));
      forall name | name in Properties(KeywordsAt(d, id)) ensures Target(d, Properties(KeywordsAt(d, id))[name]).Some? {
        assert SoundAt(d, Properties(KeywordsAt(d, id))[name]);
      }
    }
  }

  /** Nothing is reported when a well-formed document is compared with itself, whatever its cycles. */
  lemma SelfIsCompatible(d: Document, direction: Direction, strict: bool, x: Option<NodeId>)
    requires WellFormed(d) && (x.Some? ==> x.value < |d.nodes|)
    ensures Compatible(Comparison(d, d, direction), strict, (x, x))
  {
    if x.Some? {
      NothingChanged(d, direction);
      AdditiveIsCompatible(d, d, direction, Every(d), strict, x.value);
    }
  }

  /** What is not well formed is reported even against itself. */
  lemma MalformedIsReported(d: Document, direction: Direction, strict: bool, id: NodeId)
    requires id < |d.nodes| && !SoundAt(d, id)
    ensures !Compatible(Comparison(d, d, direction), strict, (Some(id), Some(id)))
  {
    GreatestUnfolds(Comparison(d, d, direction), (id, id));
  }

  /** Main result: every place of a document is compatible with itself if and only if the document is well formed. */
  lemma SelfCompatibleIffWellFormed(d: Document, direction: Direction, strict: bool)
    ensures WellFormed(d) <==>
            forall id: NodeId | id < |d.nodes| :: Compatible(Comparison(d, d, direction), strict, (Some(id), Some(id)))
  {
    if WellFormed(d) {
      forall id: NodeId | id < |d.nodes| ensures Compatible(Comparison(d, d, direction), strict, (Some(id), Some(id))) {
        SelfIsCompatible(d, direction, strict, Some(id));
      }
    } else {
      var id: NodeId :| id < |d.nodes| && !SoundAt(d, id);
      MalformedIsReported(d, direction, strict, id);
    }
  }
}
