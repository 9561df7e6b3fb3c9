/**
 * The depth-first comparison of two schema graphs as a function: which pairs it
 * visits in a given order of property names, whether a reference cannot be
 * evaluated, and whether anything is reported.
 */
module DepthFirst {
  import opened Wrappers
  import opened Documents
  import opened Compatibility

  /** `ok` is false once a local reference could not be evaluated, which abandons the comparison. */
  datatype Progress = Progress(ok: bool, reported: bool, seen: set<Pair>)

  // ---------------------------------------------------------------- the places compared below a pair

  predicate ValidEdges(c: Comparison, edges: seq<Edge>) {
    forall i | 0 <= i < |edges| :: ValidEdge(c, edges[i])
  }

  function BranchEdges(c: Comparison, p: Pair, b: Branches, n: Branches): (edges: seq<Edge>)
    requires InRange(c, p) && c.baseline.NestedBranches(p.0, b) && c.current.NestedBranches(p.1, n)
    ensures ValidEdges(c, edges)
  {
    if b.Alternatives? && n.Alternatives? && |b.ids| == |n.ids|
    then seq(|b.ids|, i requires 0 <= i < |b.ids| => (Some(b.ids[i]), Some(n.ids[i])))
    else []
  }

  function AlternativeEdges(c: Comparison, p: Pair): (edges: seq<Edge>)
    requires InRange(c, p)
    ensures ValidEdges(c, edges)
  {
    var b, n := KeywordsAt(c.baseline, p.0), KeywordsAt(c.current, p.1);
    BranchEdges(c, p, b.oneOf, n.oneOf) + (BranchEdges(c, p, b.anyOf, n.anyOf) + BranchEdges(c, p, b.allOf, n.allOf))
  }

  predicate Common(c: Comparison, p: Pair, name: string)
    requires InRange(c, p)
  {
    name in Visible(c.baseline, p.0, c.direction) && name in Visible(c.current, p.1, c.direction)
  }

  /** The common properties, in the order in which names are taken. */
  function PropertyEdges(c: Comparison, order: seq<string>, p: Pair): (edges: seq<Edge>)
    requires InRange(c, p)
    ensures ValidEdges(c, edges)
  {
    if order == [] then []
    else (if Common(c, p, order[0]) then [PropertyEdge(c, p, order[0])] else []) + PropertyEdges(c, order[1..], p)
  }

  function ContentEdges(c: Comparison, p: Pair): (edges: seq<Edge>)
    requires InRange(c, p)
    ensures ValidEdges(c, edges)
  {
    var b, n := KeywordsAt(c.baseline, p.0), KeywordsAt(c.current, p.1);
    (if b.additional.Each? && n.additional.Each?
     then [(Some(b.additional.schema), Some(n.additional.schema))] else [])
    + (if b.items.Some? then [(b.items, n.items)] else [])
  }

  /** Every property that two schemas share has its turn. */
  ghost predicate Covers(c: Comparison, order: seq<string>) {
    forall p, name | InRange(c, p) && Common(c, p, name) :: name in order
  }

  lemma {:induction false} PropertyIsVisited(c: Comparison, order: seq<string>, p: Pair, name: string)
    requires InRange(c, p) && Common(c, p, name) && name in order
    ensures PropertyEdge(c, p, name) in PropertyEdges(c, order, p)
  {
    if order[0] != name {
      PropertyIsVisited(c, order[1..], p, name);
    }
  }

  lemma {:induction false} PropertyEdgesAreCommon(c: Comparison, order: seq<string>, p: Pair, e: Edge)
    requires InRange(c, p) && e in PropertyEdges(c, order, p)
    ensures exists name :: Common(c, p, name) && e == PropertyEdge(c, p, name)
  {
    if Common(c, p, order[0]) && e == PropertyEdge(c, p, order[0]) {
    } else {
      PropertyEdgesAreCommon(c, order[1..], p, e);
    }
  }

  // ---------------------------------------------------------------- the search

  /** The checks on a pair that need no sub-schema but the resolution of the properties. */
  predicate SurroundingsKept(c: Comparison, p: Pair)
    requires InRange(c, p)
  {
    NamesKept(c, p) && RequiredKept(c, p) && AdditionalKept(c, p)
  }

  predicate PropertiesEvaluate(c: Comparison, p: Pair)
    requires InRange(c, p)
  {
    PropertiesResolve(c.baseline, p.0) && PropertiesResolve(c.current, p.1)
  }

  function Search(c: Comparison, order: seq<string>, seen: set<Pair>, e: Edge): (r: Progress)
    requires ValidEdge(c, e) && seen <= Pairs(c)
    ensures seen <= r.seen <= Pairs(c)
    decreases Pairs(c) - seen, 0, 0
  {
    if Absent(c.baseline, e.0) then Progress(true, false, seen)
    else if Absent(c.current, e.1) then Progress(true, true, seen)
    else
      var b, n := Target(c.baseline, e.0.value), Target(c.current, e.1.value);
      if b.None? || n.None? then Progress(false, false, seen)
      else
        var p := (b.value, n.value);
        if !AreDictionaries(c, p) then Progress(true, c.baseline.nodes[p.0] != c.current.nodes[p.1], seen)
        else if p in seen then Progress(true, false, seen)
        else if !ExternalKept(c, (e.0.value, e.1.value)) then
          assert p in Pairs(c);
          Progress(true, true, seen + {p})
        else
          assert p in Pairs(c) - seen;
          SearchPair(c, order, seen + {p}, p)
  }

  /** Below a pair that has just been marked as seen. */
  function SearchPair(c: Comparison, order: seq<string>, seen: set<Pair>, p: Pair): (r: Progress)
    requires InRange(c, p) && seen <= Pairs(c)
    ensures seen <= r.seen <= Pairs(c)
    decreases Pairs(c) - seen, 2, 0
  {
    var first := SearchAll(c, order, Progress(true, !KeywordsKept(c, p), seen), AlternativeEdges(c, p));
    if !first.ok then first
    else if !PropertiesEvaluate(c, p) then first.(ok := false)
    else SearchAll(c, order, first.(reported := first.reported || !SurroundingsKept(c, p)),
                   PropertyEdges(c, order, p) + ContentEdges(c, p))
  }

  /** One place after the other. */
  function SearchAll(c: Comparison, order: seq<string>, start: Progress, edges: seq<Edge>): (r: Progress)
    requires ValidEdges(c, edges) && start.seen <= Pairs(c)
    ensures start.seen <= r.seen <= Pairs(c)
    ensures start.reported ==> r.reported
    ensures !start.ok ==> r == start
    decreases Pairs(c) - start.seen, 1, |edges|
  {
    if edges == [] || !start.ok then start
    else
      var next := Search(c, order, start.seen, edges[0]);
      SearchAll(c, order, Progress(next.ok, start.reported || next.reported, next.seen), edges[1..])
  }

  lemma {:induction false} SearchAllAppends(c: Comparison, order: seq<string>, start: Progress, xs: seq<Edge>,
                                            ys: seq<Edge>)
    requires ValidEdges(c, xs) && ValidEdges(c, ys) && start.seen <= Pairs(c)
    ensures SearchAll(c, order, start, xs + ys) == SearchAll(c, order, SearchAll(c, order, start, xs), ys)
    decreases |xs|
  {
    if xs == [] {
      assert xs + ys == ys;
    } else if start.ok {
      var next := Search(c, order, start.seen, xs[0]);
      assert (xs + ys)[1..] == xs[1..] + ys;
      SearchAllAppends(c, order, Progress(next.ok, start.reported || next.reported, next.seen), xs[1..], ys);
    }
  }

  /** Nothing went wrong and nothing was reported. */
  predicate Silent(r: Progress) {
    r.ok && !r.reported
  }

  // ---------------------------------------------------------------- external references

  predicate IsExternal(d: Document, id: NodeId)
    requires id < |d.nodes|
  {
    d.nodes[id].Reference? && !IsLocal(d.nodes[id].ref)
  }

  /** External references are reached only where they are written, never through a local reference. */
  predicate Direct(d: Document) {
    forall id: NodeId | id < |d.nodes| && Target(d, id).Some? && IsExternal(d, Target(d, id).value) ::
      Target(d, id) == Some(id)
  }

  /** Where the order of the visits cannot matter. */
  predicate OrderFree(c: Comparison) {
    Direct(c.baseline) && (NoExternal(c.baseline) || Direct(c.current))
  }

  /** No visited pair hides a changed external reference. */
  predicate ExternalsKept(c: Comparison, seen: set<Pair>) {
    forall p | p in seen :: InRange(c, p) && ExternalKept(c, p)
  }

  /** What a comparison may take for granted to be held to the strict relation. */
  predicate Reliable(c: Comparison, strict: bool, seen: set<Pair>) {
    strict ==> OrderFree(c) && ExternalsKept(c, seen)
  }

  // ---------------------------------------------------------------- silence is justified

  /** The pairs met since `before` have all been checked, children included. */
  predicate Justified(c: Comparison, strict: bool, before: set<Pair>, after: set<Pair>) {
    forall p | p in after && p !in before :: PairHolds(c, after, strict, p)
  }

  lemma JustifiedInSequence(c: Comparison, strict: bool, first: set<Pair>, second: set<Pair>, third: set<Pair>)
    requires first <= second <= third
    requires Justified(c, strict, first, second) && Justified(c, strict, second, third)
    ensures Justified(c, strict, first, third)
  {
    forall p | p in third && p !in first ensures PairHolds(c, third, strict, p) {
      if p in second {
        ChildrenMonotone(c, second, third, strict, p);
      }
    }
  }

  predicate AllHold(c: Comparison, relation: set<Pair>, strict: bool, edges: seq<Edge>)
    requires ValidEdges(c, edges)
  {
    forall i | 0 <= i < |edges| :: EdgeHolds(c, relation, strict, edges[i])
  }

  lemma {:induction false} SearchSound(c: Comparison, order: seq<string>, seen: set<Pair>, e: Edge, strict: bool)
    requires ValidEdge(c, e) && seen <= Pairs(c) && Covers(c, order) && Reliable(c, strict, seen)
    requires Silent(Search(c, order, seen, e))
    ensures var r := Search(c, order, seen, e);
            EdgeHolds(c, r.seen, strict, e) && Justified(c, strict, seen, r.seen) && Reliable(c, strict, r.seen)
    decreases Pairs(c) - seen, 0, 0
  {
    if !Absent(c.baseline, e.0) {
      var p := (Target(c.baseline, e.0.value).value, Target(c.current, e.1.value).value);
      if AreDictionaries(c, p) && p !in seen {
        assert p in Pairs(c) - seen;
        assert Reliable(c, strict, seen + {p});
        SearchPairSound(c, order, seen + {p}, p, strict);
        var after := Search(c, order, seen, e).seen;
        forall q | q in after && q !in seen ensures PairHolds(c, after, strict, q) {
        }
      }
    }
  }

  lemma {:induction false} SearchPairSound(c: Comparison, order: seq<string>, seen: set<Pair>, p: Pair, strict: bool)
    requires InRange(c, p) && AreDictionaries(c, p) && seen <= Pairs(c) && Covers(c, order) && Reliable(c, strict, seen)
    requires Silent(SearchPair(c, order, seen, p))
    ensures var after := SearchPair(c, order, seen, p).seen;
            PairHolds(c, after, strict, p) && Justified(c, strict, seen, after) && Reliable(c, strict, after)
    decreases Pairs(c) - seen, 2, 0
  {
    var start := Progress(true, !KeywordsKept(c, p), seen);
    var first := SearchAll(c, order, start, AlternativeEdges(c, p));
    SearchAllSound(c, order, start, AlternativeEdges(c, p), strict);
    var rest := PropertyEdges(c, order, p) + ContentEdges(c, p);
    var second := first.(reported := first.reported || !SurroundingsKept(c, p));
    SearchAllSound(c, order, second, rest, strict);
    var after := SearchAll(c, order, second, rest).seen;
    JustifiedInSequence(c, strict, seen, first.seen, after);
    AlternativeEdgesHold(c, first.seen, after, strict, p);
    OtherEdgesHold(c, order, after, strict, p);
  }

  lemma {:induction false} SearchAllSound(c: Comparison, order: seq<string>, start: Progress, edges: seq<Edge>,
                                          strict: bool)
    requires ValidEdges(c, edges) && start.seen <= Pairs(c) && Covers(c, order) && Reliable(c, strict, start.seen)
    requires Silent(SearchAll(c, order, start, edges))
    ensures var r := SearchAll(c, order, start, edges);
            && Silent(start) && AllHold(c, r.seen, strict, edges)
            && Justified(c, strict, start.seen, r.seen) && Reliable(c, strict, r.seen)
    decreases Pairs(c) - start.seen, 1, |edges|
  {
    if edges != [] {
      var next := Search(c, order, start.seen, edges[0]);
      var then' := Progress(next.ok, start.reported || next.reported, next.seen);
      var r := SearchAll(c, order, then', edges[1..]);
      assert Silent(then');
      SearchSound(c, order, start.seen, edges[0], strict);
      SearchAllSound(c, order, then', edges[1..], strict);
      JustifiedInSequence(c, strict, start.seen, next.seen, r.seen);
      forall i | 0 <= i < |edges| ensures EdgeHolds(c, r.seen, strict, edges[i]) {
        if i > 0 {
          assert edges[i] == edges[1..][i - 1];
        }
      }
    }
  }

  lemma BranchEdgesSuffice(c: Comparison, relation: set<Pair>, strict: bool, p: Pair, b: Branches, n: Branches)
    requires InRange(c, p) && c.baseline.NestedBranches(p.0, b) && c.current.NestedBranches(p.1, n)
    ensures AllHold(c, relation, strict, BranchEdges(c, p, b, n)) <==> BranchEdgesHold(c, relation, strict, p, b, n)
  {
    var edges := BranchEdges(c, p, b, n);
    if b.Alternatives? && n.Alternatives? && |b.ids| == |n.ids| {
      assert forall i | 0 <= i < |b.ids| :: edges[i] == (Some(b.ids[i]), Some(n.ids[i]));
    }
  }

  lemma BothHold(c: Comparison, relation: set<Pair>, strict: bool, xs: seq<Edge>, ys: seq<Edge>)
    requires ValidEdges(c, xs) && ValidEdges(c, ys)
    ensures AllHold(c, relation, strict, xs + ys) <==>
            AllHold(c, relation, strict, xs) && AllHold(c, relation, strict, ys)
  {
    var both := xs + ys;
    assert forall i | 0 <= i < |xs| :: both[i] == xs[i];
    assert forall i | 0 <= i < |ys| :: both[|xs| + i] == ys[i];
    if AllHold(c, relation, strict, both) {
      forall i | 0 <= i < |ys| ensures EdgeHolds(c, relation, strict, ys[i]) {
        assert EdgeHolds(c, relation, strict, both[|xs| + i]);
      }
    }
  }

  lemma AlternativeEdgesSuffice(c: Comparison, relation: set<Pair>, strict: bool, p: Pair)
    requires InRange(c, p)
    ensures AllHold(c, relation, strict, AlternativeEdges(c, p)) <==> AlternativesHold(c, relation, strict, p)
  {
    var b, n := KeywordsAt(c.baseline, p.0), KeywordsAt(c.current, p.1);
    BranchEdgesSuffice(c, relation, strict, p, b.oneOf, n.oneOf);
    BranchEdgesSuffice(c, relation, strict, p, b.anyOf, n.anyOf);
    BranchEdgesSuffice(c, relation, strict, p, b.allOf, n.allOf);
    var one, any, all := BranchEdges(c, p, b.oneOf, n.oneOf), BranchEdges(c, p, b.anyOf, n.anyOf),
                         BranchEdges(c, p, b.allOf, n.allOf);
    ThreeHold(c, relation, strict, one, any, all);
    assert AlternativeEdges(c, p) == one + (any + all);
    assert AlternativesHold(c, relation, strict, p) <==>
           AllHold(c, relation, strict, one) && AllHold(c, relation, strict, any) && AllHold(c, relation, strict, all);
  }

  lemma ThreeHold(c: Comparison, relation: set<Pair>, strict: bool, xs: seq<Edge>, ys: seq<Edge>, zs: seq<Edge>)
    requires ValidEdges(c, xs) && ValidEdges(c, ys) && ValidEdges(c, zs)
    ensures ValidEdges(c, xs + (ys + zs))
    ensures AllHold(c, relation, strict, xs + (ys + zs)) <==>
            AllHold(c, relation, strict, xs) && AllHold(c, relation, strict, ys) && AllHold(c, relation, strict, zs)
  {
    assert ValidEdges(c, ys + zs);
    BothHold(c, relation, strict, ys, zs);
    BothHold(c, relation, strict, xs, ys + zs);
  }

  lemma AlternativeEdgesHold(c: Comparison, small: set<Pair>, large: set<Pair>, strict: bool, p: Pair)
    requires InRange(c, p) && small <= large && AllHold(c, small, strict, AlternativeEdges(c, p))
    ensures AlternativesHold(c, large, strict, p)
  {
    AlternativeEdgesSuffice(c, small, strict, p);
    AlternativesMonotone(c, small, large, p);
  }

  lemma OtherEdgesHold(c: Comparison, order: seq<string>, relation: set<Pair>, strict: bool, p: Pair)
    requires InRange(c, p) && Covers(c, order)
    ensures AllHold(c, relation, strict, PropertyEdges(c, order, p) + ContentEdges(c, p)) <==>
            PropertyEdgesHold(c, relation, strict, p) && ContentEdgesHold(c, relation, strict, p)
  {
    BothHold(c, relation, strict, PropertyEdges(c, order, p), ContentEdges(c, p));
    PropertyEdgesSuffice(c, order, relation, strict, p);
    ContentEdgesSuffice(c, relation, strict, p);
  }

  lemma PropertyEdgesSuffice(c: Comparison, order: seq<string>, relation: set<Pair>, strict: bool, p: Pair)
    requires InRange(c, p) && Covers(c, order)
    ensures AllHold(c, relation, strict, PropertyEdges(c, order, p)) <==> PropertyEdgesHold(c, relation, strict, p)
  {
    var edges := PropertyEdges(c, order, p);
    if AllHold(c, relation, strict, edges) {
      forall name | Common(c, p, name) ensures EdgeHolds(c, relation, strict, PropertyEdge(c, p, name)) {
        PropertyIsVisited(c, order, p, name);
      }
    }
    if PropertyEdgesHold(c, relation, strict, p) {
      forall i | 0 <= i < |edges| ensures EdgeHolds(c, relation, strict, edges[i]) {
        PropertyEdgesAreCommon(c, order, p, edges[i]);
      }
    }
  }

  lemma ContentEdgesSuffice(c: Comparison, relation: set<Pair>, strict: bool, p: Pair)
    requires InRange(c, p)
    ensures AllHold(c, relation, strict, ContentEdges(c, p)) <==> ContentEdgesHold(c, relation, strict, p)
  {
    var b, n, edges := KeywordsAt(c.baseline, p.0), KeywordsAt(c.current, p.1), ContentEdges(c, p);
    if b.additional.Each? && n.additional.Each? {
      assert edges[0] == (Some(b.additional.schema), Some(n.additional.schema));
    }
    if b.items.Some? {
      assert edges[|edges| - 1] == (b.items, n.items);
    }
  }

  // ---------------------------------------------------------------- what is compatible stays silent

  lemma {:induction false} SearchComplete(c: Comparison, order: seq<string>, seen: set<Pair>, e: Edge)
    requires ValidEdge(c, e) && seen <= Pairs(c) && Covers(c, order) && Compatible(c, true, e)
    ensures Silent(Search(c, order, seen, e))
    decreases Pairs(c) - seen, 0, 0
  {
    if !Absent(c.baseline, e.0) {
      var p := (Target(c.baseline, e.0.value).value, Target(c.current, e.1.value).value);
      if AreDictionaries(c, p) && p !in seen {
        assert p in Pairs(c) - seen;
        SearchPairComplete(c, order, seen + {p}, p);
      }
    }
  }

  lemma {:induction false} SearchPairComplete(c: Comparison, order: seq<string>, seen: set<Pair>, p: Pair)
    requires InRange(c, p) && seen <= Pairs(c) && Covers(c, order) && p in Greatest(c, true)
    ensures Silent(SearchPair(c, order, seen, p))
    decreases Pairs(c) - seen, 2, 0
  {
    GreatestUnfolds(c, p);
    AlternativeEdgesSuffice(c, Greatest(c, true), true, p);
    OtherEdgesHold(c, order, Greatest(c, true), true, p);
    var start := Progress(true, !KeywordsKept(c, p), seen);
    var first := SearchAll(c, order, start, AlternativeEdges(c, p));
    SearchAllComplete(c, order, start, AlternativeEdges(c, p));
    SearchAllComplete(c, order, first, PropertyEdges(c, order, p) + ContentEdges(c, p));
  }

  lemma {:induction false} SearchAllComplete(c: Comparison, order: seq<string>, start: Progress, edges: seq<Edge>)
    requires ValidEdges(c, edges) && start.seen <= Pairs(c) && Covers(c, order) && Silent(start)
    requires AllHold(c, Greatest(c, true), true, edges)
    ensures Silent(SearchAll(c, order, start, edges))
    decreases Pairs(c) - start.seen, 1, |edges|
  {
    if edges != [] {
      var next := Search(c, order, start.seen, edges[0]);
      SearchComplete(c, order, start.seen, edges[0]);
      assert forall i | 0 <= i < |edges[1..]| :: edges[1..][i] == edges[i + 1];
      SearchAllComplete(c, order, Progress(next.ok, start.reported || next.reported, next.seen), edges[1..]);
    }
  }

  // ---------------------------------------------------------------- every reference evaluates

  /** Every local reference of both documents can be evaluated. */
  predicate Resolvable(c: Comparison) {
    && (forall id: NodeId | id < |c.baseline.nodes| :: Target(c.baseline, id).Some?)
    && (forall id: NodeId | id < |c.current.nodes| :: Target(c.current, id).Some?)
  }

  lemma {:induction false} SearchEnds(c: Comparison, order: seq<string>, seen: set<Pair>, e: Edge)
    requires ValidEdge(c, e) && seen <= Pairs(c) && Resolvable(c)
    ensures Search(c, order, seen, e).ok
    decreases Pairs(c) - seen, 0, 0
  {
    if !Absent(c.baseline, e.0) && !Absent(c.current, e.1) {
      var p := (Target(c.baseline, e.0.value).value, Target(c.current, e.1.value).value);
      if AreDictionaries(c, p) && p !in seen && ExternalKept(c, (e.0.value, e.1.value)) {
        assert p in Pairs(c) - seen;
        SearchPairEnds(c, order, seen + {p}, p);
      }
    }
  }

  lemma {:induction false} SearchPairEnds(c: Comparison, order: seq<string>, seen: set<Pair>, p: Pair)
    requires InRange(c, p) && seen <= Pairs(c) && Resolvable(c)
    ensures SearchPair(c, order, seen, p).ok
    decreases Pairs(c) - seen, 2, 0
  {
    var start := Progress(true, !KeywordsKept(c, p), seen);
    var first := SearchAll(c, order, start, AlternativeEdges(c, p));
    SearchAllEnds(c, order, start, AlternativeEdges(c, p));
    SearchAllEnds(c, order, first.(reported := first.reported || !SurroundingsKept(c, p)),
                  PropertyEdges(c, order, p) + ContentEdges(c, p));
  }

  lemma {:induction false} SearchAllEnds(c: Comparison, order: seq<string>, start: Progress, edges: seq<Edge>)
    requires ValidEdges(c, edges) && start.seen <= Pairs(c) && start.ok && Resolvable(c)
    ensures SearchAll(c, order, start, edges).ok
    decreases Pairs(c) - start.seen, 1, |edges|
  {
    if edges != [] {
      var next := Search(c, order, start.seen, edges[0]);
      SearchEnds(c, order, start.seen, edges[0]);
      SearchAllEnds(c, order, Progress(next.ok, start.reported || next.reported, next.seen), edges[1..]);
    }
  }

  // ---------------------------------------------------------------- the verdict

  /** The comparison of two places, from nothing visited. */
  predicate Passes(c: Comparison, order: seq<string>, e: Edge)
    requires ValidEdge(c, e)
  {
    Silent(Search(c, order, {}, e))
  }

  /** Main result: silence means compatible, up to external references that are reached a second time. */
  lemma VerdictIsGreatest(c: Comparison, order: seq<string>, e: Edge)
    requires ValidEdge(c, e) && Covers(c, order)
    ensures Compatible(c, true, e) ==> Passes(c, order, e)
    ensures Passes(c, order, e) ==> Compatible(c, false, e)
    ensures OrderFree(c) ==> (Passes(c, order, e) <==> Compatible(c, true, e))
  {
    if Compatible(c, true, e) {
      SearchComplete(c, order, {}, e);
    }
    if Passes(c, order, e) {
      SearchSound(c, order, {}, e, false);
      ConsistentIncluded(c, Search(c, order, {}, e).seen, false);
      if OrderFree(c) {
        assert Reliable(c, true, {});
        SearchSound(c, order, {}, e, true);
        ConsistentIncluded(c, Search(c, order, {}, e).seen, true);
      }
    }
  }
}
