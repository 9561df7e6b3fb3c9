/**
 * The schema pairs that a comparison can meet: those to which its places lead,
 * and from pair to pair those to which the places below lead.  The search visits
 * no others, and no others are needed to justify a verdict.
 */
module Reach {
  import opened Wrappers
  import opened Documents
  import opened Compatibility
  import opened DepthFirst

  /** Both ends of the place resolve to dictionaries, which make this pair. */
  predicate LeadsTo(c: Comparison, e: Edge, p: Pair) {
    && ValidEdge(c, e) && e.0.Some? && e.1.Some? && InRange(c, p) && AreDictionaries(c, p)
    && Target(c.baseline, e.0.value) == Some(p.0) && Target(c.current, e.1.value) == Some(p.1)
  }

  /** A place that the comparison of the pair compares. */
  ghost predicate IsBelow(c: Comparison, p: Pair, e: Edge)
    requires InRange(c, p)
  {
    || e in AlternativeEdges(c, p) || e in ContentEdges(c, p)
    || exists name :: Common(c, p, name) && e == PropertyEdge(c, p, name)
  }

  ghost predicate LeadsBelow(c: Comparison, q: Pair, p: Pair) {
    InRange(c, q) && exists e :: IsBelow(c, q, e) && LeadsTo(c, e, p)
  }

  ghost predicate ReachedIn(c: Comparison, places: iset<Edge>, steps: nat, p: Pair) {
    if steps == 0 then exists e :: e in places && LeadsTo(c, e, p)
    else ReachedIn(c, places, steps - 1, p) || exists q :: ReachedIn(c, places, steps - 1, q) && LeadsBelow(c, q, p)
  }

  ghost function Reached(c: Comparison, places: iset<Edge>): set<Pair> {
    set p | p in Pairs(c) && exists steps: nat :: ReachedIn(c, places, steps, p)
  }

  lemma PlacesReach(c: Comparison, places: iset<Edge>, e: Edge, p: Pair)
    requires e in places && LeadsTo(c, e, p)
    ensures p in Reached(c, places)
  {
    assert (p.0, p.1) in Pairs(c);
    assert ReachedIn(c, places, 0, p);
  }

  lemma ReachedGoOn(c: Comparison, places: iset<Edge>, q: Pair, e: Edge, p: Pair)
    requires q in Reached(c, places) && InRange(c, q) && IsBelow(c, q, e) && LeadsTo(c, e, p)
    ensures p in Reached(c, places)
  {
    assert (p.0, p.1) in Pairs(c);
    var steps: nat :| ReachedIn(c, places, steps, q);
    assert LeadsBelow(c, q, p);
    assert ReachedIn(c, places, steps + 1, p);
  }

  // ---------------------------------------------------------------- the search stays within reach

  /** From a place within reach the search goes nowhere else. */
  lemma {:induction false} SearchStays(c: Comparison, order: seq<string>, seen: set<Pair>, e: Edge, places: iset<Edge>)
    requires ValidEdge(c, e) && seen <= Pairs(c)
    requires forall p | LeadsTo(c, e, p) :: p in Reached(c, places)
    ensures Search(c, order, seen, e).seen <= seen + Reached(c, places)
    decreases Pairs(c) - seen, 0, 0
  {
    if !Absent(c.baseline, e.0) && !Absent(c.current, e.1)
       && Target(c.baseline, e.0.value).Some? && Target(c.current, e.1.value).Some?
    {
      var p := (Target(c.baseline, e.0.value).value, Target(c.current, e.1.value).value);
      if AreDictionaries(c, p) && p !in seen {
        assert LeadsTo(c, e, p) && p in Pairs(c) - seen;
        if ExternalKept(c, (e.0.value, e.1.value)) {
          SearchPairStays(c, order, seen + {p}, p, places);
        }
      }
    }
  }

  lemma {:induction false} SearchPairStays(c: Comparison, order: seq<string>, seen: set<Pair>, p: Pair,
                                           places: iset<Edge>)
    requires InRange(c, p) && seen <= Pairs(c) && p in Reached(c, places)
    ensures SearchPair(c, order, seen, p).seen <= seen + Reached(c, places)
    decreases Pairs(c) - seen, 2, 0
  {
    var start := Progress(true, !KeywordsKept(c, p), seen);
    var first := SearchAll(c, order, start, AlternativeEdges(c, p));
    SearchAllStays(c, order, start, AlternativeEdges(c, p), p, places);
    if first.ok && PropertiesEvaluate(c, p) {
      var rest := PropertyEdges(c, order, p) + ContentEdges(c, p);
      forall e | e in rest ensures IsBelow(c, p, e) {
        if e in PropertyEdges(c, order, p) {
          PropertyEdgesAreCommon(c, order, p, e);
        }
      }
      SearchAllStays(c, order, first.(reported := first.reported || !SurroundingsKept(c, p)), rest, p, places);
    }
  }

  lemma {:induction false} SearchAllStays(c: Comparison, order: seq<string>, start: Progress, edges: seq<Edge>,
                                          p: Pair, places: iset<Edge>)
    requires ValidEdges(c, edges) && start.seen <= Pairs(c) && InRange(c, p) && p in Reached(c, places)
    requires forall e | e in edges :: IsBelow(c, p, e)
    ensures SearchAll(c, order, start, edges).seen <= start.seen + Reached(c, places)
    decreases Pairs(c) - start.seen, 1, |edges|
  {
    if edges != [] && start.ok {
      var next := Search(c, order, start.seen, edges[0]);
      forall q | LeadsTo(c, edges[0], q) ensures q in Reached(c, places) {
        ReachedGoOn(c, places, p, edges[0], q);
      }
      SearchStays(c, order, start.seen, edges[0], places);
      SearchAllStays(c, order, Progress(next.ok, start.reported || next.reported, next.seen), edges[1..], p, places);
    }
  }

  // ---------------------------------------------------------------- what is out of reach is not needed

  lemma TrimmedEdge(c: Comparison, places: iset<Edge>, relation: set<Pair>, strict: bool, e: Edge)
    requires ValidEdge(c, e) && EdgeHolds(c, relation, strict, e)
    requires forall p | LeadsTo(c, e, p) :: p in Reached(c, places)
    ensures EdgeHolds(c, relation * Reached(c, places), strict, e)
  {
    if !Absent(c.baseline, e.0) && !Absent(c.current, e.1) {
      var p := (Target(c.baseline, e.0.value).value, Target(c.current, e.1.value).value);
      if AreDictionaries(c, p) {
        assert LeadsTo(c, e, p);
      }
    }
  }

  lemma TrimmedEdges(c: Comparison, places: iset<Edge>, relation: set<Pair>, strict: bool, q: Pair, edges: seq<Edge>)
    requires InRange(c, q) && q in Reached(c, places) && ValidEdges(c, edges) && AllHold(c, relation, strict, edges)
    requires forall e | e in edges :: IsBelow(c, q, e)
    ensures AllHold(c, relation * Reached(c, places), strict, edges)
  {
    forall i | 0 <= i < |edges| ensures EdgeHolds(c, relation * Reached(c, places), strict, edges[i]) {
      forall p | LeadsTo(c, edges[i], p) ensures p in Reached(c, places) {
        ReachedGoOn(c, places, q, edges[i], p);
      }
      TrimmedEdge(c, places, relation, strict, edges[i]);
    }
  }

  lemma TrimmedPair(c: Comparison, places: iset<Edge>, relation: set<Pair>, strict: bool, q: Pair)
    requires q in Reached(c, places) && PairHolds(c, relation, strict, q)
    ensures PairHolds(c, relation * Reached(c, places), strict, q)
  {
    var trimmed := relation * Reached(c, places);
    AlternativeEdgesSuffice(c, relation, strict, q);
    AlternativeEdgesSuffice(c, trimmed, strict, q);
    TrimmedEdges(c, places, relation, strict, q, AlternativeEdges(c, q));
    ContentEdgesSuffice(c, relation, strict, q);
    ContentEdgesSuffice(c, trimmed, strict, q);
    TrimmedEdges(c, places, relation, strict, q, ContentEdges(c, q));
    forall name | Common(c, q, name) ensures EdgeHolds(c, trimmed, strict, PropertyEdge(c, q, name)) {
      forall p | LeadsTo(c, PropertyEdge(c, q, name), p) ensures p in Reached(c, places) {
        ReachedGoOn(c, places, q, PropertyEdge(c, q, name), p);
      }
      TrimmedEdge(c, places, relation, strict, PropertyEdge(c, q, name));
    }
  }

  /** Main result: a relation that justifies itself still does when only what is reached is left. */
  lemma TrimmedConsistent(c: Comparison, places: iset<Edge>, relation: set<Pair>, strict: bool)
    requires Consistent(c, relation, strict)
    ensures Consistent(c, relation * Reached(c, places), strict)
  {
    forall q | q in relation * Reached(c, places)
      ensures PairHolds(c, relation * Reached(c, places), strict, q)
    {
      TrimmedPair(c, places, relation, strict, q);
    }
  }
}
