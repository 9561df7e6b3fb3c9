/**
 * Releases follow one another: when the step from A to B and the step from B to
 * C are both without breakage, so is the step from A to C.
 */
module Transitivity {
  import opened Wrappers
  import opened Documents
  import opened Compatibility

  ghost predicate Between(first: set<Pair>, second: set<Pair>, p: Pair) {
    exists m: NodeId :: (p.0, m) in first && (m, p.1) in second
  }

  ghost function Composed(ac: Comparison, first: set<Pair>, second: set<Pair>): set<Pair> {
    set p | p in Pairs(ac) && Between(first, second, p)
  }

  /** Two comparisons that share the document in the middle, and the comparison across both. */
  predicate Chained(ab: Comparison, bc: Comparison, ac: Comparison) {
    && ab.current == bc.baseline && ac.baseline == ab.baseline && ac.current == bc.current
    && ab.direction == bc.direction == ac.direction
  }

  /**
   * The schema of undeclared properties is compared only where both sides have
   * one, so it must not go missing in the middle.  It cannot when either end
   * has only boolean or absent additionalProperties.
   */
  predicate MapsCarried(ab: Comparison, bc: Comparison, first: set<Pair>, second: set<Pair>)
    requires ab.current == bc.baseline
  {
    forall p, q | p in first && q in second && p.1 == q.0 && InRange(ab, p) && InRange(bc, q) ::
      KeywordsAt(ab.baseline, p.0).additional.Each? && KeywordsAt(bc.current, q.1).additional.Each? ==>
        KeywordsAt(ab.current, p.1).additional.Each?
  }

  lemma LocalTransitive(ab: Comparison, bc: Comparison, ac: Comparison, a: NodeId, m: NodeId, n: NodeId)
    requires Chained(ab, bc, ac) && InRange(ab, (a, m)) && InRange(bc, (m, n))
    requires LocallyCompatible(ab, (a, m)) && LocallyCompatible(bc, (m, n))
    ensures LocallyCompatible(ac, (a, n))
  {
    var x, y, z := KeywordsAt(ab.baseline, a), KeywordsAt(ab.current, m), KeywordsAt(bc.current, n);
    TypesTransitive(TypeSet(x.typ), TypeSet(y.typ), TypeSet(z.typ), ac.direction);
    assert KeywordsKept(ac, (a, n));
  }

  lemma TypesTransitive(x: Option<set<string>>, y: Option<set<string>>, z: Option<set<string>>, direction: Direction)
    requires TypeKept(x, y, direction) && TypeKept(y, z, direction)
    ensures TypeKept(x, z, direction)
  {
    if direction == Request && x.Some? && z.Some? {
      forall t | t in x.value ensures AcceptsType(z.value, t) {
        assert AcceptsType(y.value, t);
        assert t in y.value ==> AcceptsType(z.value, t);
        assert "number" in y.value ==> AcceptsType(z.value, "number");
      }
    }
    if direction == Response && x.Some? {
      forall t | t in z.value ensures AcceptsType(x.value, t) {
        assert AcceptsType(y.value, t);
        assert t in y.value ==> AcceptsType(x.value, t);
        assert "number" in y.value ==> AcceptsType(x.value, "number");
      }
    }
  }

  lemma EdgeTransitive(ab: Comparison, bc: Comparison, ac: Comparison, first: set<Pair>, second: set<Pair>,
                       strict: bool,
                       x: Option<NodeId>, y: Option<NodeId>, z: Option<NodeId>)
    requires Chained(ab, bc, ac) && ValidEdge(ab, (x, y)) && ValidEdge(bc, (y, z))
    requires EdgeHolds(ab, first, strict, (x, y)) && EdgeHolds(bc, second, strict, (y, z))
    ensures EdgeHolds(ac, Composed(ac, first, second), strict, (x, z))
  {
    if !Absent(ab.baseline, x) {
      var a, m := Target(ab.baseline, x.value).value, Target(ab.current, y.value).value;
      var n := Target(bc.current, z.value).value;
      if AreDictionaries(ac, (a, n)) {
        assert (a, m) in first && (m, n) in second;
        assert Between(first, second, (a, n));
      }
    }
  }

  lemma BranchesTransitive(ab: Comparison, bc: Comparison, ac: Comparison, first: set<Pair>, second: set<Pair>,
                           strict: bool,
                           a: NodeId, m: NodeId, n: NodeId, x: Branches, y: Branches, z: Branches)
    requires Chained(ab, bc, ac) && InRange(ab, (a, m)) && InRange(bc, (m, n))
    requires ab.baseline.NestedBranches(a, x) && ab.current.NestedBranches(m, y) && bc.current.NestedBranches(n, z)
    requires BranchesKept(x, y) && BranchesKept(y, z)
    requires BranchEdgesHold(ab, first, strict, (a, m), x, y) && BranchEdgesHold(bc, second, strict, (m, n), y, z)
    ensures BranchEdgesHold(ac, Composed(ac, first, second), strict, (a, n), x, z)
  {
    if x.Alternatives? {
      forall i | 0 <= i < |x.ids|
        ensures EdgeHolds(ac, Composed(ac, first, second), strict, (Some(x.ids[i]), Some(z.ids[i])))
      {
        EdgeTransitive(ab, bc, ac, first, second, strict, Some(x.ids[i]), Some(y.ids[i]), Some(z.ids[i]));
      }
    }
  }

  lemma ChildrenTransitive(ab: Comparison, bc: Comparison, ac: Comparison, first: set<Pair>, second: set<Pair>,
                           strict: bool,
                           a: NodeId, m: NodeId, n: NodeId)
    requires Chained(ab, bc, ac) && MapsCarried(ab, bc, first, second)
    requires (a, m) in first && (m, n) in second
    requires PairHolds(ab, first, strict, (a, m)) && PairHolds(bc, second, strict, (m, n))
    ensures ChildrenHold(ac, Composed(ac, first, second), strict, (a, n))
  {
    var x, y, z := KeywordsAt(ab.baseline, a), KeywordsAt(ab.current, m), KeywordsAt(bc.current, n);
    BranchesTransitive(ab, bc, ac, first, second, strict, a, m, n, x.oneOf, y.oneOf, z.oneOf);
    BranchesTransitive(ab, bc, ac, first, second, strict, a, m, n, x.anyOf, y.anyOf, z.anyOf);
    BranchesTransitive(ab, bc, ac, first, second, strict, a, m, n, x.allOf, y.allOf, z.allOf);
    forall name | name in Visible(ac.baseline, a, ac.direction) && name in Visible(ac.current, n, ac.direction)
      ensures EdgeHolds(ac, Composed(ac, first, second), strict, PropertyEdge(ac, (a, n), name))
    {
      assert name in Visible(ab.current, m, ab.direction);
      var e, f := PropertyEdge(ab, (a, m), name), PropertyEdge(bc, (m, n), name);
      EdgeTransitive(ab, bc, ac, first, second, strict, e.0, e.1, f.1);
    }
    if x.additional.Each? && z.additional.Each? {
      assert (a, m).1 == (m, n).0;
      EdgeTransitive(ab, bc, ac, first, second, strict,
                     Some(x.additional.schema), Some(y.additional.schema), Some(z.additional.schema));
    }
    if x.items.Some? {
      if y.items.Some? {
        EdgeTransitive(ab, bc, ac, first, second, strict, x.items, y.items, z.items);
      }
    }
  }

  /** Main result: compatibility composes. */
  lemma CompatibilityComposes(ab: Comparison, bc: Comparison, ac: Comparison, first: set<Pair>, second: set<Pair>,
                              strict: bool)
    requires Chained(ab, bc, ac) && MapsCarried(ab, bc, first, second)
    requires Consistent(ab, first, strict) && Consistent(bc, second, strict)
    ensures Consistent(ac, Composed(ac, first, second), strict)
  {
    forall p | p in Composed(ac, first, second) ensures PairHolds(ac, Composed(ac, first, second), strict, p) {
      var m: NodeId :| (p.0, m) in first && (m, p.1) in second;
      assert PairHolds(ab, first, strict, (p.0, m)) && PairHolds(bc, second, strict, (m, p.1));
      LocalTransitive(ab, bc, ac, p.0, m, p.1);
      ChildrenTransitive(ab, bc, ac, first, second, strict, p.0, m, p.1);
    }
  }

  /** Main result: two releases without breakage make one release without breakage. */
  lemma NoBreakageIsTransitive(ab: Comparison, bc: Comparison, ac: Comparison, strict: bool,
                               x: Option<NodeId>, y: Option<NodeId>, z: Option<NodeId>)
    requires Chained(ab, bc, ac) && ValidEdge(ab, (x, y)) && ValidEdge(bc, (y, z))
    requires MapsCarried(ab, bc, Greatest(ab, strict), Greatest(bc, strict))
    requires Compatible(ab, strict, (x, y)) && Compatible(bc, strict, (y, z))
    ensures Compatible(ac, strict, (x, z))
  {
    var first, second := Greatest(ab, strict), Greatest(bc, strict);
    GreatestIsConsistent(ab, strict);
    GreatestIsConsistent(bc, strict);
    CompatibilityComposes(ab, bc, ac, first, second, strict);
    EdgeTransitive(ab, bc, ac, first, second, strict, x, y, z);
    ConsistentIncluded(ac, Composed(ac, first, second), strict);
  }

  // ---------------------------------------------------------------- exactly when

  /** Whatever is compatible from A to B and from B to C is compatible from A to C. */
  ghost predicate Transitive(ab: Comparison, bc: Comparison, ac: Comparison, strict: bool)
    requires Chained(ab, bc, ac)
  {
    forall x, y, z | ValidEdge(ab, (x, y)) && ValidEdge(bc, (y, z)) && Compatible(ab, strict, (x, y))
      && Compatible(bc, strict, (y, z)) :: Compatible(ac, strict, (x, z))
  }

  predicate MapMissing(ab: Comparison, bc: Comparison, a: NodeId, m: NodeId, n: NodeId)
    requires InRange(ab, (a, m)) && InRange(bc, (m, n))
  {
    && KeywordsAt(ab.baseline, a).additional.Each? && KeywordsAt(bc.current, n).additional.Each?
    && !KeywordsAt(ab.current, m).additional.Each?
  }

  /** At `y` the middle document has no schema for undeclared properties, and both ends have one. */
  ghost predicate MapLost(ab: Comparison, bc: Comparison, strict: bool, a: NodeId, y: NodeId, n: NodeId)
    requires ab.current == bc.baseline
  {
    && ValidEdge(ab, (Some(a), Some(y))) && ValidEdge(bc, (Some(y), Some(n)))
    && Target(ab.current, y).Some? && MapMissing(ab, bc, a, Target(ab.current, y).value, n)
    && Compatible(ab, strict, (Some(a), Some(y))) && Compatible(bc, strict, (Some(y), Some(n)))
  }

  function MapEdge(ac: Comparison, a: NodeId, n: NodeId): (e: Edge)
    requires InRange(ac, (a, n))
    requires KeywordsAt(ac.baseline, a).additional.Each? && KeywordsAt(ac.current, n).additional.Each?
    ensures ValidEdge(ac, e)
  {
    (Some(KeywordsAt(ac.baseline, a).additional.schema), Some(KeywordsAt(ac.current, n).additional.schema))
  }

  /** Schemas for undeclared properties that the middle document lacks are compatible with one another. */
  ghost predicate LostMapsAgree(ab: Comparison, bc: Comparison, ac: Comparison, strict: bool)
    requires Chained(ab, bc, ac)
  {
    forall a, y, n | MapLost(ab, bc, strict, a, y, n) :: Compatible(ac, strict, MapEdge(ac, a, n))
  }

  ghost predicate Through(ab: Comparison, bc: Comparison, strict: bool, p: Pair, x: NodeId, y: NodeId, z: NodeId)
    requires ab.current == bc.baseline
  {
    && ValidEdge(ab, (Some(x), Some(y))) && ValidEdge(bc, (Some(y), Some(z)))
    && Compatible(ab, strict, (Some(x), Some(y))) && Compatible(bc, strict, (Some(y), Some(z)))
    && Target(ab.baseline, x) == Some(p.0) && Target(bc.current, z) == Some(p.1)
  }

  /** Pairs to which two compatible steps lead, and the pairs that are compatible anyway. */
  ghost function Joined(ab: Comparison, bc: Comparison, ac: Comparison, strict: bool): set<Pair>
    requires Chained(ab, bc, ac)
  {
    Greatest(ac, strict) +
    set p | p in Pairs(ac) && AreDictionaries(ac, p) && exists x, y, z :: Through(ab, bc, strict, p, x, y, z)
  }

  lemma JoinedEdge(ab: Comparison, bc: Comparison, ac: Comparison, strict: bool,
                   x: Option<NodeId>, y: Option<NodeId>, z: Option<NodeId>)
    requires Chained(ab, bc, ac) && ValidEdge(ab, (x, y)) && ValidEdge(bc, (y, z))
    requires Compatible(ab, strict, (x, y)) && Compatible(bc, strict, (y, z))
    ensures EdgeHolds(ac, Joined(ab, bc, ac, strict), strict, (x, z))
  {
    if !Absent(ab.baseline, x) {
      var p := (Target(ab.baseline, x.value).value, Target(bc.current, z.value).value);
      if AreDictionaries(ac, p) {
        assert Through(ab, bc, strict, p, x.value, y.value, z.value);
        assert p in Pairs(ac);
      }
    }
  }

  lemma JoinedBranches(ab: Comparison, bc: Comparison, ac: Comparison, strict: bool,
                       a: NodeId, m: NodeId, n: NodeId, x: Branches, y: Branches, z: Branches)
    requires Chained(ab, bc, ac) && InRange(ab, (a, m)) && InRange(bc, (m, n))
    requires ab.baseline.NestedBranches(a, x) && ab.current.NestedBranches(m, y) && bc.current.NestedBranches(n, z)
    requires BranchesKept(x, y) && BranchesKept(y, z)
    requires BranchEdgesHold(ab, Greatest(ab, strict), strict, (a, m), x, y)
    requires BranchEdgesHold(bc, Greatest(bc, strict), strict, (m, n), y, z)
    ensures BranchEdgesHold(ac, Joined(ab, bc, ac, strict), strict, (a, n), x, z)
  {
    if x.Alternatives? {
      forall i | 0 <= i < |x.ids|
        ensures EdgeHolds(ac, Joined(ab, bc, ac, strict), strict, (Some(x.ids[i]), Some(z.ids[i])))
      {
        JoinedEdge(ab, bc, ac, strict, Some(x.ids[i]), Some(y.ids[i]), Some(z.ids[i]));
      }
    }
  }

  lemma JoinedProperties(ab: Comparison, bc: Comparison, ac: Comparison, strict: bool, a: NodeId, m: NodeId, n: NodeId)
    requires Chained(ab, bc, ac)
    requires PairHolds(ab, Greatest(ab, strict), strict, (a, m)) && PairHolds(bc, Greatest(bc, strict), strict, (m, n))
    ensures PropertyEdgesHold(ac, Joined(ab, bc, ac, strict), strict, (a, n))
  {
    forall name | name in Visible(ac.baseline, a, ac.direction) && name in Visible(ac.current, n, ac.direction)
      ensures EdgeHolds(ac, Joined(ab, bc, ac, strict), strict, PropertyEdge(ac, (a, n), name))
    {
      assert name in Visible(ab.current, m, ab.direction);
      var e, f := PropertyEdge(ab, (a, m), name), PropertyEdge(bc, (m, n), name);
      JoinedEdge(ab, bc, ac, strict, e.0, e.1, f.1);
    }
  }

  lemma JoinedContents(ab: Comparison, bc: Comparison, ac: Comparison, strict: bool, a: NodeId, y: NodeId, m: NodeId,
                       n: NodeId)
    requires Chained(ab, bc, ac) && LostMapsAgree(ab, bc, ac, strict)
    requires PairHolds(ab, Greatest(ab, strict), strict, (a, m)) && PairHolds(bc, Greatest(bc, strict), strict, (m, n))
    requires MapMissing(ab, bc, a, m, n) ==> MapLost(ab, bc, strict, a, y, n)
    ensures ContentEdgesHold(ac, Joined(ab, bc, ac, strict), strict, (a, n))
  {
    var x, mid, z := KeywordsAt(ab.baseline, a), KeywordsAt(ab.current, m), KeywordsAt(bc.current, n);
    if x.additional.Each? && z.additional.Each? && mid.additional.Each? {
      JoinedEdge(ab, bc, ac, strict,
                 Some(x.additional.schema), Some(mid.additional.schema), Some(z.additional.schema));
    } else if x.additional.Each? && z.additional.Each? {
      assert Compatible(ac, strict, MapEdge(ac, a, n));
    }
    if x.items.Some? && mid.items.Some? {
      JoinedEdge(ab, bc, ac, strict, x.items, mid.items, z.items);
    }
  }

  lemma JoinedAlternatives(ab: Comparison, bc: Comparison, ac: Comparison, strict: bool, a: NodeId, m: NodeId,
                           n: NodeId)
    requires Chained(ab, bc, ac)
    requires PairHolds(ab, Greatest(ab, strict), strict, (a, m)) && PairHolds(bc, Greatest(bc, strict), strict, (m, n))
    ensures AlternativesHold(ac, Joined(ab, bc, ac, strict), strict, (a, n))
  {
    var x, y, z := KeywordsAt(ab.baseline, a), KeywordsAt(ab.current, m), KeywordsAt(bc.current, n);
    JoinedBranches(ab, bc, ac, strict, a, m, n, x.oneOf, y.oneOf, z.oneOf);
    JoinedBranches(ab, bc, ac, strict, a, m, n, x.anyOf, y.anyOf, z.anyOf);
    JoinedBranches(ab, bc, ac, strict, a, m, n, x.allOf, y.allOf, z.allOf);
  }

  /** Where the middle document lacks the schema, the ends are written out and can be compared directly. */
  lemma MissingIsLost(ab: Comparison, bc: Comparison, strict: bool, p: Pair, x: NodeId, y: NodeId, z: NodeId)
    requires ab.current == bc.baseline && Through(ab, bc, strict, p, x, y, z) && Target(ab.current, y).Some?
    requires InRange(ab, (p.0, Target(ab.current, y).value)) && InRange(bc, (Target(ab.current, y).value, p.1))
    requires MapMissing(ab, bc, p.0, Target(ab.current, y).value, p.1)
    ensures MapLost(ab, bc, strict, p.0, y, p.1)
  {
    assert Target(ab.baseline, p.0) == Some(p.0) && Target(bc.current, p.1) == Some(p.1);
    assert Compatible(ab, strict, (Some(p.0), Some(y)));
    assert Compatible(bc, strict, (Some(y), Some(p.1)));
  }

  lemma JoinedPair(ab: Comparison, bc: Comparison, ac: Comparison, strict: bool, p: Pair, x: NodeId, y: NodeId,
                   z: NodeId)
    requires Chained(ab, bc, ac) && LostMapsAgree(ab, bc, ac, strict)
    requires InRange(ac, p) && AreDictionaries(ac, p) && Through(ab, bc, strict, p, x, y, z)
    ensures PairHolds(ac, Joined(ab, bc, ac, strict), strict, p)
  {
    var m := Target(ab.current, y).value;
    GreatestUnfolds(ab, (p.0, m));
    GreatestUnfolds(bc, (m, p.1));
    LocalTransitive(ab, bc, ac, p.0, m, p.1);
    JoinedAlternatives(ab, bc, ac, strict, p.0, m, p.1);
    JoinedProperties(ab, bc, ac, strict, p.0, m, p.1);
    if MapMissing(ab, bc, p.0, m, p.1) {
      MissingIsLost(ab, bc, strict, p, x, y, z);
    }
    JoinedContents(ab, bc, ac, strict, p.0, y, m, p.1);
  }

  lemma JoinedConsistent(ab: Comparison, bc: Comparison, ac: Comparison, strict: bool)
    requires Chained(ab, bc, ac) && LostMapsAgree(ab, bc, ac, strict)
    ensures Consistent(ac, Joined(ab, bc, ac, strict), strict)
  {
    var joined := Joined(ab, bc, ac, strict);
    forall p | p in joined ensures PairHolds(ac, joined, strict, p) {
      if p in Greatest(ac, strict) {
        GreatestUnfolds(ac, p);
        ChildrenMonotone(ac, Greatest(ac, strict), joined, strict, p);
      } else {
        var x, y, z :| Through(ab, bc, strict, p, x, y, z);
        JoinedPair(ab, bc, ac, strict, p, x, y, z);
      }
    }
  }

  /**
   * Main result: "no breakage" is transitive if and only if, wherever the middle
   * document lacks a schema for undeclared properties that both ends have, those
   * two schemas are compatible.
   */
  lemma TransitiveIffLostMapsAgree(ab: Comparison, bc: Comparison, ac: Comparison, strict: bool)
    requires Chained(ab, bc, ac)
    ensures Transitive(ab, bc, ac, strict) <==> LostMapsAgree(ab, bc, ac, strict)
  {
    if Transitive(ab, bc, ac, strict) {
      forall a, y, n | MapLost(ab, bc, strict, a, y, n) ensures Compatible(ac, strict, MapEdge(ac, a, n)) {
        assert Compatible(ac, strict, (Some(a), Some(n)));
        GreatestUnfolds(ac, (a, n));
      }
    }
    if LostMapsAgree(ab, bc, ac, strict) {
      JoinedConsistent(ab, bc, ac, strict);
      ConsistentIncluded(ac, Joined(ab, bc, ac, strict), strict);
      forall x, y, z | ValidEdge(ab, (x, y)) && ValidEdge(bc, (y, z)) && Compatible(ab, strict, (x, y))
        && Compatible(bc, strict, (y, z))
        ensures Compatible(ac, strict, (x, z))
      {
        JoinedEdge(ab, bc, ac, strict, x, y, z);
      }
    }
  }
}
