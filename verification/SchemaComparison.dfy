/**
 * The depth-first comparison of two schema graphs, with the mutable list of
 * failures and the mutable set of visited pairs it works on.
 */
module SchemaComparison {
  import opened Wrappers
  import opened Documents
  import opened Compatibility
  import opened DepthFirst
  import opened Reach
  import opened Listings

  datatype Failure =
    | RemovedSchema
    | ChangedSchema
    | ChangedExternalReference
    | IncompatibleType
    | IncompatibleFormat
    | IncompatibleEnum
    | ChangedConst
    | ChangedAlternatives
    | RemovedProperties(names: set<string>)
    | RequiredProperties(names: set<string>)
    | IncompatibleAdditionalProperties

  lemma EmptyDifference<T>(some: set<T>, others: set<T>)
    ensures some - others == {} <==> some <= others
  {
    if some - others == {} {
      forall x | x in some ensures x in others {
        assert x !in some - others;
      }
    }
  }

  class Comparer {
    const c: Comparison
    const order: seq<string>   // of the property names
    var failures: seq<Failure>
    var seen: set<Pair>

    constructor (c: Comparison, order: seq<string>)
      ensures this.c == c && this.order == order && this.failures == [] && this.seen == {}
    {
      this.c := c;
      this.order := order;
      this.failures := [];
      this.seen := {};
    }

    method Fail(f: Failure)
      modifies this`failures
      ensures failures == old(failures) + [f]
    {
      failures := failures + [f];
    }

    method FailUnless(kept: bool, f: Failure)
      modifies this`failures
      ensures old(failures) <= failures
      ensures |failures| == |old(failures)| + if kept then 0 else 1
    {
      if !kept {
        Fail(f);
      }
    }

    /** The properties a message of this direction shows; None when a property's reference cannot be evaluated. */
    method VisibleProperties(d: Document, id: NodeId) returns (r: Option<map<string, NodeId>>)
      requires id < |d.nodes|
      ensures r.Some? <==> PropertiesResolve(d, id)
      ensures r.Some? ==> r.value.Keys == Visible(d, id, c.direction)
      ensures r.Some? ==> forall name | name in r.value :: r.value[name] == Properties(KeywordsAt(d, id))[name]
    {
      var properties := Properties(KeywordsAt(d, id));
      var visible: map<string, NodeId> := map[];
      var names := properties.Keys;
      while names != {}
        invariant names <= properties.Keys
        invariant forall name | name in properties.Keys - names :: Target(d, properties[name]).Some?
        invariant visible.Keys == Visible(d, id, c.direction) - names
        invariant forall name | name in visible :: visible[name] == properties[name]
        decreases names
      {
        var name :| name in names;
        var target := Resolve(d, properties[name]);
        if target.None? {
          return None;
        }
        names := names - {name};
        var n := d.nodes[target.value];
        if !(n.Schema? && (if c.direction == Request then n.kw.readOnly else n.kw.writeOnly)) {
          visible := visible[name := properties[name]];
        }
      }
      return Some(visible);
    }

    /** The checks on keywords that do not need the sub-schemas. */
    method CompareKeywords(p: Pair)
      requires InRange(c, p)
      modifies this`failures
      ensures old(failures) <= failures
      ensures failures == old(failures) <==> KeywordsKept(c, p)
    {
      var b, n := KeywordsAt(c.baseline, p.0), KeywordsAt(c.current, p.1);
      FailUnless(TypeKept(TypeSet(b.typ), TypeSet(n.typ), c.direction), IncompatibleType);
      FailUnless(FormatKept(b.format, n.format, c.direction), IncompatibleFormat);
      FailUnless(EnumKept(b.enumeration, n.enumeration, c.direction), IncompatibleEnum);
      FailUnless(ConstKept(b.constant, n.constant), ChangedConst);
      FailUnless(BranchesKept(b.oneOf, n.oneOf), ChangedAlternatives);
      FailUnless(BranchesKept(b.anyOf, n.anyOf), ChangedAlternatives);
      FailUnless(BranchesKept(b.allOf, n.allOf), ChangedAlternatives);
      assert failures == old(failures) <==> |failures| == |old(failures)|;
    }

    /** Removed, newly required and undeclared properties; false when a reference cannot be evaluated. */
    method CompareNames(p: Pair) returns (ok: bool)
      requires InRange(c, p)
      modifies this`failures
      ensures old(failures) <= failures
      ensures ok <==> PropertiesResolve(c.baseline, p.0) && PropertiesResolve(c.current, p.1)
      ensures ok ==> (failures == old(failures) <==> NamesKept(c, p) && RequiredKept(c, p) && AdditionalKept(c, p))
      ensures !ok ==> failures == old(failures)
    {
      var b, n := KeywordsAt(c.baseline, p.0), KeywordsAt(c.current, p.1);
      var baseline := VisibleProperties(c.baseline, p.0);
      if baseline.None? {
        return false;
      }
      var current := VisibleProperties(c.current, p.1);
      if current.None? {
        return false;
      }
      var removed := baseline.value.Keys - current.value.Keys;
      FailUnless(removed == {}, RemovedProperties(removed));
      var baselineRequired := b.required * baseline.value.Keys;
      var currentRequired := n.required * current.value.Keys;
      var incompatible := if c.direction == Request then currentRequired - baselineRequired
                          else baselineRequired - currentRequired;
      FailUnless(incompatible == {}, RequiredProperties(incompatible));
      FailUnless(AdditionalKept(c, p), IncompatibleAdditionalProperties);
      EmptyDifference(baseline.value.Keys, current.value.Keys);
      assert baselineRequired == RequiredNames(c.baseline, p.0, c.direction);
      assert currentRequired == RequiredNames(c.current, p.1, c.direction);
      EmptyDifference(currentRequired, baselineRequired);
      EmptyDifference(baselineRequired, currentRequired);
      assert failures == old(failures) <==> |failures| == |old(failures)|;
      return true;
    }

    /** Since `before` was the list of failures, the comparison has come this far. */
    ghost predicate At(before: seq<Failure>, progress: Progress)
      reads this
    {
      && before <= failures && seen <= Pairs(c)
      && progress == Progress(true, failures != before, seen)
    }

    /** The answer is that of the search; after an abandoned search nothing more is told. */
    ghost predicate Follows(before: seq<Failure>, ok: bool, r: Progress)
      reads this
    {
      before <= failures && seen <= Pairs(c) && ok == r.ok && (ok ==> At(before, r))
    }

    /** Compares the schemas at two places, adding to `failures` and `seen`. */
    method SchemaBreakages(e: Edge) returns (ok: bool)
      requires ValidEdge(c, e) && seen <= Pairs(c)
      modifies this
      ensures old(seen) <= seen && Follows(old(failures), ok, Search(c, order, old(seen), e))
      decreases Pairs(c) - seen, 0, 0
    {
      if Absent(c.baseline, e.0) {
        return true;
      }
      if Absent(c.current, e.1) {
        Fail(RemovedSchema);
        return true;
      }
      var b := Resolve(c.baseline, e.0.value);
      if b.None? {
        return false;
      }
      var n := Resolve(c.current, e.1.value);
      if n.None? {
        return false;
      }
      var p := (b.value, n.value);
      if !AreDictionaries(c, p) {
        if c.baseline.nodes[p.0] != c.current.nodes[p.1] {
          Fail(ChangedSchema);
        }
        return true;
      }
      if p in seen {
        return true;
      }
      assert p in Pairs(c) - seen;
      seen := seen + {p};
      if !ExternalKept(c, (e.0.value, e.1.value)) {
        Fail(ChangedExternalReference);
        return true;
      }
      ok := CompareDictionaries(p);
    }

    /** Compares two dictionaries that have just been marked as seen. */
    method CompareDictionaries(p: Pair) returns (ok: bool)
      requires InRange(c, p) && seen <= Pairs(c)
      modifies this
      ensures old(seen) <= seen && Follows(old(failures), ok, SearchPair(c, order, old(seen), p))
      decreases Pairs(c) - seen, 3, 0
    {
      ghost var before, start := failures, Progress(true, !KeywordsKept(c, p), seen);
      CompareKeywords(p);
      ok := CompareAlternatives(p, before, start);
      if !ok {
        return;
      }
      ghost var first := SearchAll(c, order, start, AlternativeEdges(c, p));
      ok := CompareNames(p);
      if !ok {
        return;
      }
      ghost var second := first.(reported := first.reported || !SurroundingsKept(c, p));
      SearchAllAppends(c, order, second, PropertyEdges(c, order, p), ContentEdges(c, p));
      ok := CompareProperties(p, before, second);
      if !ok {
        return;
      }
      ok := CompareContents(p, before, SearchAll(c, order, second, PropertyEdges(c, order, p)));
    }

    /** One more place. */
    method CompareNext(e: Edge, ghost before: seq<Failure>, ghost start: Progress, ghost rest: seq<Edge>)
      returns (ok: bool, ghost next: Progress)
      requires ValidEdge(c, e) && ValidEdges(c, rest) && At(before, start)
      modifies this
      ensures old(seen) <= seen && Follows(before, ok, next) && next.seen <= Pairs(c)
      ensures SearchAll(c, order, start, [e] + rest) == SearchAll(c, order, next, rest)
      decreases Pairs(c) - seen, 0, 1
    {
      ghost var found := Search(c, order, seen, e);
      next := Progress(found.ok, start.reported || found.reported, found.seen);
      assert ([e] + rest)[1..] == rest;
      ok := SchemaBreakages(e);
    }

    method CompareBranches(p: Pair, b: Branches, n: Branches, ghost before: seq<Failure>, ghost start: Progress)
      returns (ok: bool)
      requires InRange(c, p) && c.baseline.NestedBranches(p.0, b) && c.current.NestedBranches(p.1, n)
      requires At(before, start)
      modifies this
      ensures old(seen) <= seen && Follows(before, ok, SearchAll(c, order, start, BranchEdges(c, p, b, n)))
      decreases Pairs(c) - seen, 1, 0
    {
      if b.Alternatives? && n.Alternatives? && |b.ids| == |n.ids| {
        ghost var edges, progress := BranchEdges(c, p, b, n), start;
        for i := 0 to |b.ids|
          invariant old(seen) <= seen && At(before, progress)
          invariant SearchAll(c, order, progress, edges[i..]) == SearchAll(c, order, start, edges)
        {
          assert edges[i..] == [edges[i]] + edges[i + 1..];
          ok, progress := CompareNext((Some(b.ids[i]), Some(n.ids[i])), before, progress, edges[i + 1..]);
          if !ok {
            return;
          }
        }
        assert edges[|b.ids|..] == [];
      }
      return true;
    }

    method CompareAlternatives(p: Pair, ghost before: seq<Failure>, ghost start: Progress) returns (ok: bool)
      requires InRange(c, p) && At(before, start)
      modifies this
      ensures old(seen) <= seen && Follows(before, ok, SearchAll(c, order, start, AlternativeEdges(c, p)))
      decreases Pairs(c) - seen, 2, 0
    {
      var b, n := KeywordsAt(c.baseline, p.0), KeywordsAt(c.current, p.1);
      ghost var one, any, all := BranchEdges(c, p, b.oneOf, n.oneOf), BranchEdges(c, p, b.anyOf, n.anyOf),
                                 BranchEdges(c, p, b.allOf, n.allOf);
      assert ValidEdges(c, any + all);
      SearchAllAppends(c, order, start, one, any + all);
      ghost var afterOne := SearchAll(c, order, start, one);
      SearchAllAppends(c, order, afterOne, any, all);
      ok := CompareBranches(p, b.oneOf, n.oneOf, before, start);
      if !ok {
        return;
      }
      ok := CompareBranches(p, b.anyOf, n.anyOf, before, afterOne);
      if !ok {
        return;
      }
      ok := CompareBranches(p, b.allOf, n.allOf, before, SearchAll(c, order, afterOne, any));
    }

    /** Visits the common properties in order. */
    method CompareProperties(p: Pair, ghost before: seq<Failure>, ghost start: Progress) returns (ok: bool)
      requires InRange(c, p) && At(before, start)
      modifies this
      ensures old(seen) <= seen && Follows(before, ok, SearchAll(c, order, start, PropertyEdges(c, order, p)))
      decreases Pairs(c) - seen, 1, 0
    {
      ghost var progress := start;
      for i := 0 to |order|
        invariant old(seen) <= seen && At(before, progress)
        invariant SearchAll(c, order, progress, PropertyEdges(c, order[i..], p)) ==
                  SearchAll(c, order, start, PropertyEdges(c, order, p))
      {
        assert order[i..][1..] == order[i + 1..];
        ghost var rest := PropertyEdges(c, order[i + 1..], p);
        assert PropertyEdges(c, order[i..], p) ==
               if Common(c, p, order[i]) then [PropertyEdge(c, p, order[i])] + rest else rest;
        if Common(c, p, order[i]) {
          ok, progress := CompareNext(PropertyEdge(c, p, order[i]), before, progress, rest);
          if !ok {
            return;
          }
        }
      }
      return true;
    }

    /** Schemas of undeclared properties and of array items. */
    method CompareContents(p: Pair, ghost before: seq<Failure>, ghost start: Progress) returns (ok: bool)
      requires InRange(c, p) && At(before, start)
      modifies this
      ensures old(seen) <= seen && Follows(before, ok, SearchAll(c, order, start, ContentEdges(c, p)))
      decreases Pairs(c) - seen, 1, 0
    {
      var b, n := KeywordsAt(c.baseline, p.0), KeywordsAt(c.current, p.1);
      ghost var items: seq<Edge> := if b.items.Some? then [(b.items, n.items)] else [];
      ghost var progress := start;
      ok := true;
      if b.additional.Each? && n.additional.Each? {
        ok, progress := CompareNext((Some(b.additional.schema), Some(n.additional.schema)), before, progress, items);
        if !ok {
          return;
        }
      }
      if b.items.Some? {
        assert items == [(b.items, n.items)] + [];
        ok, progress := CompareNext((b.items, n.items), before, progress, []);
      }
    }
  }

  // ---------------------------------------------------------------- one comparison

  /** The comparison in a given order of names is the search, step by step. */
  method CompareInOrder(c: Comparison, order: seq<string>, e: Edge)
    returns (ok: bool, failures: seq<Failure>, visited: set<Pair>)
    requires ValidEdge(c, e)
    ensures ok == Search(c, order, {}, e).ok
    ensures ok ==> Progress(true, failures != [], visited) == Search(c, order, {}, e)
  {
    var comparer := new Comparer(c, order);
    ok := comparer.SchemaBreakages(e);
    failures, visited := comparer.failures, comparer.seen;
  }

  /** The names of all properties, in some order. */
  method ListNames(c: Comparison) returns (order: seq<string>)
    ensures Covers(c, order)
  {
    order := [];
    for id := 0 to |c.baseline.nodes|
      invariant forall b, name | 0 <= b < id && name in Properties(KeywordsAt(c.baseline, b)) :: name in order
    {
      var more := Listed(Properties(KeywordsAt(c.baseline, id)).Keys);
      order := order + more;
    }
  }

  /**
   * One comparison from an empty visited set, as it is started for every
   * parameter, body and response, in whatever order the names are taken.  When
   * no failure is reported the visited pairs are a consistent relation, so
   * skipping a pair that was already met was right.  Where no external reference
   * can be met a second time, the verdict is that of the greatest relation.
   */
  method Compare(c: Comparison, e: Edge) returns (ok: bool, failures: seq<Failure>, visited: set<Pair>)
    requires ValidEdge(c, e)
    ensures Resolvable(c) ==> ok
    ensures ok && failures == [] ==> Consistent(c, visited, false) && EdgeHolds(c, visited, false, e)
    ensures ok && failures == [] && OrderFree(c) ==> Consistent(c, visited, true) && EdgeHolds(c, visited, true, e)
    ensures ok && failures == [] ==> Compatible(c, false, e)
    ensures Compatible(c, true, e) ==> ok && failures == []
    ensures OrderFree(c) ==> (ok && failures == [] <==> Compatible(c, true, e))
    ensures ok ==> visited <= Reached(c, iset{e})
  {
    var order := ListNames(c);
    ok, failures, visited := CompareInOrder(c, order, e);
    forall p | LeadsTo(c, e, p) ensures p in Reached(c, iset{e}) {
      PlacesReach(c, iset{e}, e, p);
    }
    SearchStays(c, order, {}, e, iset{e});
    VerdictIsGreatest(c, order, e);
    if Resolvable(c) {
      SearchEnds(c, order, {}, e);
    }
    if ok && failures == [] {
      SearchSound(c, order, {}, e, false);
      if OrderFree(c) {
        assert Reliable(c, true, {});
        SearchSound(c, order, {}, e, true);
      }
    }
  }
}
