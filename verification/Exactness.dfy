/**
 * Where the comparison passes although it does not look, keyword by keyword:
 * the premise under which the one side's values are among the other's holds if
 * and only if they are.
 */
module Exactness {
  import opened Wrappers
  import opened Json
  import opened Documents
  import opened Compatibility
  import opened Instances
  import opened Judgements
  import opened Inclusion

  // ---------------------------------------------------------------- const and required

  /** The premise on const is exact: without it some value passes the one const and not the other. */
  lemma ConstClearIsExact(stated: Option<Json>, relied: Option<Json>)
    ensures ConstClear(stated, relied) <==> forall v | ConstAccepts(stated, v) :: ConstAccepts(relied, v)
  {
    if !ConstClear(stated, relied) {
      var v := if stated.Some? then stated.value else if relied.value.Null? then Bool(true) else Null;
      assert ConstAccepts(stated, v) && !ConstAccepts(relied, v);
    }
  }

  /** The objects that satisfy the required names of one schema satisfy those of the other. */
  ghost predicate RequiredIncluded(stated: Reading, s: NodeId, relied: Reading, r: NodeId)
    requires s < |stated.doc.nodes| && r < |relied.doc.nodes|
  {
    forall v: Json | v.Obj? && HasRequired(stated, s, v) :: HasRequired(relied, r, v)
  }

  lemma RequiredIncludedIff(stated: Reading, s: NodeId, relied: Reading, r: NodeId, direction: Direction)
    requires s < |stated.doc.nodes| && r < |relied.doc.nodes| && stated.direction == relied.direction == direction
    requires RequiredNames(relied.doc, r, direction) <= RequiredNames(stated.doc, s, direction)
    ensures RequiredClear(relied.doc, r, stated.doc, s, direction) <==> RequiredIncluded(stated, s, relied, r)
  {
    var names := set name | name in KeywordsAt(stated.doc, s).required && !Hidden(stated.doc, s, direction, name);
    var least := Obj(map name | name in names :: Null);
    assert HasRequired(stated, s, least);
    if RequiredIncluded(stated, s, relied, r) {
      assert HasRequired(relied, r, least);
      assert forall name | name in least.fields :: name in names;
    }
    if RequiredClear(relied.doc, r, stated.doc, s, direction) {
      forall name | name in KeywordsAt(relied.doc, r).required && !Hidden(relied.doc, r, direction, name)
        ensures name in names
      {
        if name in Properties(KeywordsAt(relied.doc, r)) {
          assert name in RequiredNames(relied.doc, r, direction);
          assert name in RequiredNames(stated.doc, s, direction);
        }
      }
    }
  }

  /** The premise on required names is exact: where the comparison passes, it holds if and only if they are included. */
  lemma RequiredClearIsExact(c: Comparison, p: Pair, sends: (NodeId, string) -> bool, formats: (string, Json) -> bool)
    requires InRange(c, p) && RequiredKept(c, p)
    ensures c.direction == Request ==>
              (RequiredClear(c.current, p.1, c.baseline, p.0, Request) <==>
               RequiredIncluded(Sent(c, sends, formats), p.0, Received(c, formats), p.1))
    ensures c.direction == Response ==>
              (RequiredClear(c.baseline, p.0, c.current, p.1, Response) <==>
               RequiredIncluded(Served(c, formats), p.1, Read(c, formats), p.0))
  {
    if c.direction == Request {
      RequiredIncludedIff(Sent(c, sends, formats), p.0, Received(c, formats), p.1, Request);
    } else {
      RequiredIncludedIff(Served(c, formats), p.1, Read(c, formats), p.0, Response);
    }
  }

  // ---------------------------------------------------------------- items

  /**
   * Where the stating side has no items, every array passes exactly when the items
   * of the other side admit every value.
   */
  lemma ItemsClearIsExact(stated: Reading, s: NodeId, relied: Reading, t: NodeId)
    requires s < |stated.doc.nodes| && t < |relied.doc.nodes| && KeywordsAt(stated.doc, s).items.None?
    ensures AddedSchemaClear(None, relied, KeywordsAt(relied.doc, t).items) <==>
            forall v: Json | v.Arr? && ValidItems(stated, s, v) :: ValidItems(relied, t, v)
  {
    var items := KeywordsAt(relied.doc, t).items;
    if items.Some? && forall v: Json | v.Arr? && ValidItems(stated, s, v) :: ValidItems(relied, t, v) {
      forall x ensures Valid(relied, items.value, x) {
        assert ValidItems(stated, s, Arr([x])) && ValidItems(relied, t, Arr([x]));
        assert Arr([x]).items[0] == x;
      }
    }
  }

  // ---------------------------------------------------------------- oneOf

  ghost predicate BranchesIncluded(stated: Reading, s: NodeId, b: Branches, relied: Reading, t: NodeId, n: Branches)
    requires stated.doc.NestedBranches(s, b) && relied.doc.NestedBranches(t, n)
    requires b.Alternatives? && n.Alternatives? && |b.ids| == |n.ids|
  {
    forall i, v | 0 <= i < |b.ids| && Valid(stated, b.ids[i], v) :: Valid(relied, n.ids[i], v)
  }

  /**
   * Where the branches are compatible one by one, oneOf itself is kept exactly when
   * no further branch takes a value.
   */
  lemma OneOfClearIsExact(stated: Reading, s: NodeId, b: Branches, relied: Reading, t: NodeId, n: Branches)
    requires stated.doc.NestedBranches(s, b) && relied.doc.NestedBranches(t, n) && !stated.tolerant && !relied.tolerant
    requires b.Alternatives? && n.Alternatives? && |b.ids| == |n.ids| && BranchesIncluded(stated, s, b, relied, t, n)
    ensures OneOfClear(stated, s, b, relied, t, n) <==>
            forall v | ValidOneOf(stated, s, b, v) :: ValidOneOf(relied, t, n, v)
  {
    if OneOfClear(stated, s, b, relied, t, n) {
      forall v | ValidOneOf(stated, s, b, v) ensures ValidOneOf(relied, t, n, v) {
        var i :| 0 <= i < |b.ids| && ValidOnlyAt(stated, s, b, i, v);
        assert ValidOnlyAt(relied, t, n, i, v);
      }
    }
    if forall v | ValidOneOf(stated, s, b, v) :: ValidOneOf(relied, t, n, v) {
      forall v, i, j | 0 <= i < |b.ids| && 0 <= j < |b.ids| && i != j
        && ValidOnlyAt(stated, s, b, i, v) && Valid(relied, n.ids[i], v)
        ensures Invalid(relied, n.ids[j], v)
      {
        assert ValidOneOf(stated, s, b, v);
        var k :| 0 <= k < |n.ids| && ValidOnlyAt(relied, t, n, k, v);
        NeverBoth(relied, n.ids[i], v);
      }
    }
  }

  /** No value is taken by one branch without being refused by the others. */
  ghost predicate Disjoint(r: Reading, t: NodeId, n: Branches)
    requires r.doc.NestedBranches(t, n)
  {
    n.Alternatives? ==> forall v, i, j | 0 <= i < |n.ids| && 0 <= j < |n.ids| && i != j && Valid(r, n.ids[i], v) ::
      Invalid(r, n.ids[j], v)
  }

  lemma DisjointIsClear(stated: Reading, s: NodeId, b: Branches, relied: Reading, t: NodeId, n: Branches)
    requires stated.doc.NestedBranches(s, b) && relied.doc.NestedBranches(t, n) && Disjoint(relied, t, n)
    ensures OneOfClear(stated, s, b, relied, t, n)
  {
  }

  ghost predicate OnlyIn(admitted: seq<iset<Json>>, i: int, v: Json) {
    0 <= i < |admitted| && v in admitted[i] && forall j | 0 <= j < |admitted| && j != i :: v !in admitted[j]
  }

  ghost predicate Within(admitted: seq<iset<Json>>, r: Reading, t: NodeId, n: Branches)
    requires r.doc.NestedBranches(t, n) && n.Alternatives?
  {
    |admitted| == |n.ids| && forall i, v | 0 <= i < |n.ids| && v in admitted[i] :: Valid(r, n.ids[i], v)
  }

  /** A condition on the current side alone: disjoint branches are right for every baseline, and nothing less is. */
  lemma DisjointIsExact(r: Reading, t: NodeId, n: Branches)
    requires r.doc.NestedBranches(t, n) && n.Alternatives? && !r.tolerant
    ensures Disjoint(r, t, n) <==>
            forall admitted, i: nat, v | Within(admitted, r, t, n) && i < |n.ids| && OnlyIn(admitted, i, v) ::
              ValidOnlyAt(r, t, n, i, v)
  {
    if forall admitted, i: nat, v | Within(admitted, r, t, n) && i < |n.ids| && OnlyIn(admitted, i, v) ::
         ValidOnlyAt(r, t, n, i, v)
    {
      forall v, i, j | 0 <= i < |n.ids| && 0 <= j < |n.ids| && i != j && Valid(r, n.ids[i], v)
        ensures Invalid(r, n.ids[j], v)
      {
        var admitted := seq(|n.ids|, k => if k == i then iset{v} else iset{});
        assert Within(admitted, r, t, n) && OnlyIn(admitted, i, v);
        assert ValidOnlyAt(r, t, n, i, v);
      }
    }
  }

  // ---------------------------------------------------------------- keys

  ghost predicate KeyIncluded(stated: Reading, s: NodeId, relied: Reading, t: NodeId, key: string)
    requires s < |stated.doc.nodes| && t < |relied.doc.nodes|
  {
    forall v | ValidKey(stated, s, key, v) :: ValidKey(relied, t, key, v)
  }

  /**
   * A key that the client uses and the baseline does not declare: the added
   * property, or the added schema for such keys, is harmless exactly when it
   * takes what the baseline lets stand under the key.
   */
  lemma SentKeyClearIsExact(c: Comparison, p: Pair, sends: (NodeId, string) -> bool, formats: (string, Json) -> bool,
                            key: string)
    requires c.direction == Request && InRange(c, p) && AdditionalKept(c, p)
    requires sends(p.0, key) && key !in Visible(c.baseline, p.0, Request)
    ensures SentKeyClear(Sent(c, sends, formats), p.0, Received(c, formats), p.1, key) <==>
            KeyIncluded(Sent(c, sends, formats), p.0, Received(c, formats), p.1, key)
  {
    var sent, received := Sent(c, sends, formats), Received(c, formats);
    forall v ensures ValidKey(sent, p.0, key, v) <==> KeyFree(sent, p.0, key) && MayStandUnder(sent, p.0, v) {
    }
  }

  /** In a free-form object: exactly when it takes every value. */
  lemma AddedToFreeFormIsExact(c: Comparison, p: Pair, sends: (NodeId, string) -> bool, formats: (string, Json) -> bool,
                               key: string)
    requires c.direction == Request && InRange(c, p) && AdditionalKept(c, p)
    requires sends(p.0, key) && key !in Properties(KeywordsAt(c.baseline, p.0))
    requires AllowsUndeclared(KeywordsAt(c.baseline, p.0)) && !KeywordsAt(c.baseline, p.0).additional.Each?
    requires KeySchema(Received(c, formats), p.1, key).Some?
    ensures AcceptsAll(Received(c, formats), KeySchema(Received(c, formats), p.1, key).value) <==>
            KeyIncluded(Sent(c, sends, formats), p.0, Received(c, formats), p.1, key)
  {
    SentKeyClearIsExact(c, p, sends, formats, key);
    if SentKeyClear(Sent(c, sends, formats), p.0, Received(c, formats), p.1, key) {
      forall v ensures Valid(Received(c, formats), KeySchema(Received(c, formats), p.1, key).value, v) {
        assert MayStandUnder(Sent(c, sends, formats), p.0, v);
      }
    }
  }

  /** A key the reader has only a general schema for: what is served under it must fit that schema, and nothing more. */
  lemma ServedKeyClearIsExact(c: Comparison, p: Pair, formats: (string, Json) -> bool, key: string)
    requires c.direction == Response && InRange(c, p)
    requires key !in Properties(KeywordsAt(c.baseline, p.0))
    ensures ServedKeyClear(Served(c, formats), p.1, Read(c, formats), p.0, key) <==>
            KeyIncluded(Served(c, formats), p.1, Read(c, formats), p.0, key)
  {
    var served, read, s := Served(c, formats), Read(c, formats), KeySchema(Served(c, formats), p.1, key);
    forall v
      ensures ValidKey(served, p.1, key, v) <==>
              if s.Some? then Valid(served, s.value, v) else KeyFree(served, p.1, key)
    {
    }
    if KeywordsAt(c.baseline, p.0).additional.Each? && (s.Some? || KeyFree(served, p.1, key)) {
      var schema := KeywordsAt(c.baseline, p.0).additional.schema;
      assert KeySchema(read, p.0, key) == Some(schema);
      if KeyIncluded(served, p.1, read, p.0, key) {
        forall v | s.Some? ==> Valid(served, s.value, v) ensures Valid(read, schema, v) {
          assert ValidKey(served, p.1, key, v);
        }
      }
    }
  }

  /** A schema for undeclared keys that the current side drops: exactly when the reader's admits every value. */
  lemma DroppedMapSchemaIsExact(c: Comparison, p: Pair, formats: (string, Json) -> bool, key: string)
    requires c.direction == Response && InRange(c, p)
    requires KeywordsAt(c.baseline, p.0).additional.Each? && key !in Properties(KeywordsAt(c.baseline, p.0))
    requires KeySchema(Served(c, formats), p.1, key).None? && KeyFree(Served(c, formats), p.1, key)
    ensures AcceptsAll(Read(c, formats), KeywordsAt(c.baseline, p.0).additional.schema) <==>
            KeyIncluded(Served(c, formats), p.1, Read(c, formats), p.0, key)
  {
    ServedKeyClearIsExact(c, p, formats, key);
    if ServedKeyClear(Served(c, formats), p.1, Read(c, formats), p.0, key) {
      forall v ensures Valid(Read(c, formats), KeywordsAt(c.baseline, p.0).additional.schema, v) {
      }
    }
  }
}
