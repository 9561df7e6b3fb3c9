/**
 * External references: the comparison looks at one only where it is written and
 * only when its pair is met for the first time.  When that suffices, and a pair
 * of documents on which the order of the visits decides.
 */
module ExternalReferences {
  import opened Wrappers
  import opened Documents
  import opened Compatibility
  import opened DepthFirst

  // ---------------------------------------------------------------- always reported

  lemma {:induction false} SearchKeepsExternals(c: Comparison, order: seq<string>, seen: set<Pair>, e: Edge)
    requires ValidEdge(c, e) && seen <= Pairs(c) && Direct(c.baseline) && ExternalsKept(c, seen)
    requires !Search(c, order, seen, e).reported
    ensures ExternalsKept(c, Search(c, order, seen, e).seen)
    decreases Pairs(c) - seen, 0, 0
  {
    if !Absent(c.baseline, e.0) && Target(c.baseline, e.0.value).Some? && Target(c.current, e.1.value).Some? {
      var p := (Target(c.baseline, e.0.value).value, Target(c.current, e.1.value).value);
      if AreDictionaries(c, p) && p !in seen {
        assert p in Pairs(c) - seen;
        assert IsExternal(c.baseline, p.0) ==> p.0 == e.0.value;
        SearchPairKeepsExternals(c, order, seen + {p}, p);
      }
    }
  }

  lemma {:induction false} SearchPairKeepsExternals(c: Comparison, order: seq<string>, seen: set<Pair>, p: Pair)
    requires InRange(c, p) && seen <= Pairs(c) && Direct(c.baseline) && ExternalsKept(c, seen)
    requires !SearchPair(c, order, seen, p).reported
    ensures ExternalsKept(c, SearchPair(c, order, seen, p).seen)
    decreases Pairs(c) - seen, 2, 0
  {
    var start := Progress(true, !KeywordsKept(c, p), seen);
    var first := SearchAll(c, order, start, AlternativeEdges(c, p));
    SearchAllKeepsExternals(c, order, start, AlternativeEdges(c, p));
    if first.ok && PropertiesEvaluate(c, p) {
      SearchAllKeepsExternals(c, order, first.(reported := first.reported || !SurroundingsKept(c, p)),
                              PropertyEdges(c, order, p) + ContentEdges(c, p));
    }
  }

  lemma {:induction false} SearchAllKeepsExternals(c: Comparison, order: seq<string>, start: Progress, edges: seq<Edge>)
    requires ValidEdges(c, edges) && start.seen <= Pairs(c) && Direct(c.baseline) && ExternalsKept(c, start.seen)
    requires !SearchAll(c, order, start, edges).reported
    ensures ExternalsKept(c, SearchAll(c, order, start, edges).seen)
    decreases Pairs(c) - start.seen, 1, |edges|
  {
    if edges != [] && start.ok {
      var next := Search(c, order, start.seen, edges[0]);
      SearchKeepsExternals(c, order, start.seen, edges[0]);
      SearchAllKeepsExternals(c, order, Progress(next.ok, start.reported || next.reported, next.seen), edges[1..]);
    }
  }

  /** In whatever order, a comparison that reports nothing has met no changed external reference. */
  ghost predicate ChangesReported(d: Document) {
    forall c: Comparison, order, e | c.baseline == d && ValidEdge(c, e) && Passes(c, order, e) ::
      ExternalsKept(c, Search(c, order, {}, e).seen)
  }

  // ---------------------------------------------------------------- and otherwise not

  lemma {:induction false} NoKeywordsNoProperties(c: Comparison, order: seq<string>, p: Pair)
    requires InRange(c, p) && KeywordsAt(c.baseline, p.0) == NO_KEYWORDS
    ensures PropertyEdges(c, order, p) == []
  {
    if order != [] {
      NoKeywordsNoProperties(c, order[1..], p);
    }
  }

  lemma LeafIsSilent(c: Comparison, order: seq<string>, seen: set<Pair>, p: Pair)
    requires InRange(c, p) && seen <= Pairs(c)
    requires KeywordsAt(c.baseline, p.0) == NO_KEYWORDS && KeywordsAt(c.current, p.1) == NO_KEYWORDS
    ensures SearchPair(c, order, seen, p) == Progress(true, false, seen)
  {
    NoKeywordsNoProperties(c, order, p);
    assert AlternativeEdges(c, p) == [] && ContentEdges(c, p) == [];
    assert KeywordsKept(c, p) && SurroundingsKept(c, p);
  }

  /** The same document with another text in one external reference. */
  function Renamed(d: Document, u: NodeId): (r: Document)
    requires u < |d.nodes| && IsExternal(d, u)
    ensures |r.nodes| == |d.nodes| && IsExternal(r, u) && r.nodes[u] != d.nodes[u] && r.pointers == d.pointers
    ensures forall id: NodeId | id < |d.nodes| && id != u :: r.nodes[id] == d.nodes[id]
  {
    var text := if d.nodes[u].ref == "" then "x" else "";
    var raw := RawDocument(d.nodes[u := Reference(text)], d.pointers, d.components);
    assert forall id | 0 <= id < |d.nodes| && raw.nodes[id].Schema? :: raw.nodes[id] == d.nodes[id];
    assert raw.Valid();
    raw
  }

  lemma {:induction false} RenamedTarget(d: Document, u: NodeId, id: NodeId, followed: set<string>)
    requires u < |d.nodes| && id < |d.nodes| && IsExternal(d, u) && Chase(d, id, followed) == Some(u)
    ensures Chase(Renamed(d, u), id, followed) == Some(u)
    decreases ReferenceTexts(d) - followed
  {
    if id != u {
      assert d.nodes[id].ref in ReferenceTexts(d);
      RenamedTarget(d, u, d.pointers[d.nodes[id].ref], followed + {d.nodes[id].ref});
    }
  }

  /** Behind a local reference the change of an external one passes unnoticed. */
  lemma RenamingMissed(d: Document, w: NodeId, u: NodeId, direction: Direction, order: seq<string>)
    requires w < |d.nodes| && u < |d.nodes| && IsExternal(d, u) && Target(d, w) == Some(u) && w != u
    ensures var c, e := Comparison(d, Renamed(d, u), direction), (Some(w), Some(w));
            && ValidEdge(c, e) && Passes(c, order, e) && !ExternalsKept(c, Search(c, order, {}, e).seen)
  {
    var c, e := Comparison(d, Renamed(d, u), direction), (Some(w), Some(w));
    RenamedTarget(d, u, w, {});
    assert (u, u) in Pairs(c);
    LeafIsSilent(c, order, {(u, u)}, (u, u));
    assert {} + {(u, u)} == {(u, u)};
    assert Search(c, order, {}, e) == Progress(true, false, {(u, u)});
    assert !ExternalKept(c, (u, u));
  }

  /**
   * Main result: every change of an external reference of the baseline is
   * reported, against whatever current document and in whatever order, if and
   * only if no local reference of the baseline leads to an external one.
   */
  lemma ReportedIffDirect(d: Document)
    ensures ChangesReported(d) <==> Direct(d)
  {
    if Direct(d) {
      forall c: Comparison, order, e | c.baseline == d && ValidEdge(c, e) && Passes(c, order, e)
        ensures ExternalsKept(c, Search(c, order, {}, e).seen)
      {
        SearchKeepsExternals(c, order, {}, e);
      }
    } else {
      var w: NodeId :| w < |d.nodes| && Target(d, w).Some?
                       && IsExternal(d, Target(d, w).value) && Target(d, w) != Some(w);
      RenamingMissed(d, w, Target(d, w).value, Request, []);
    }
  }

  // ---------------------------------------------------------------- the order decides

  const PAIRED := NO_KEYWORDS.(properties := Some(map["p" := 1, "q" := 2]))

  /** Property p is an external reference, property q refers to where it is written. */
  function TwoWays(external: string): Document {
    RawDocument([Schema(PAIRED), Reference(external), Reference("#/properties/p")], map["#/properties/p" := 1], map[])
  }

  predicate IsTwoWays(c: Comparison, a: string, b: string) {
    c == Comparison(TwoWays(a), TwoWays(b), Response) && !IsLocal(a) && !IsLocal(b) && a != b
  }

  lemma TwoWaysTargets(external: string)
    requires !IsLocal(external)
    ensures var d := TwoWays(external);
            Target(d, 0) == Some(0) && Target(d, 1) == Some(1) && Target(d, 2) == Some(1)
  {
    assert IsLocal("#/properties/p");
    assert Chase(TwoWays(external), 1, {"#/properties/p"}) == Some(1);
    assert {} + {"#/properties/p"} == {"#/properties/p"};
  }

  lemma TwoWaysShown(c: Comparison, a: string, b: string)
    requires IsTwoWays(c, a, b)
    ensures Common(c, (0, 0), "p") && Common(c, (0, 0), "q")
    ensures PropertyEdge(c, (0, 0), "p") == (Some(1), Some(1)) && PropertyEdge(c, (0, 0), "q") == (Some(2), Some(2))
    ensures PropertiesEvaluate(c, (0, 0)) && SurroundingsKept(c, (0, 0)) && KeywordsKept(c, (0, 0))
    ensures AlternativeEdges(c, (0, 0)) == [] && ContentEdges(c, (0, 0)) == []
  {
    TwoWaysTargets(a);
    TwoWaysTargets(b);
  }

  /** The external reference first: its change is reported. */
  lemma WrittenFirst(c: Comparison, a: string, b: string, seen: set<Pair>)
    requires IsTwoWays(c, a, b) && seen <= Pairs(c) && (1, 1) !in seen
    ensures Search(c, ["p", "q"], seen, (Some(1), Some(1))).reported
  {
    TwoWaysTargets(a);
    TwoWaysTargets(b);
  }

  /** The local reference first: the pair counts as seen from then on. */
  lemma LocalFirst(c: Comparison, a: string, b: string, seen: set<Pair>)
    requires IsTwoWays(c, a, b) && seen <= Pairs(c) && (1, 1) !in seen
    ensures Search(c, ["q", "p"], seen, (Some(2), Some(2))) == Progress(true, false, seen + {(1, 1)})
    ensures Search(c, ["q", "p"], seen + {(1, 1)}, (Some(1), Some(1))) == Progress(true, false, seen + {(1, 1)})
  {
    TwoWaysTargets(a);
    TwoWaysTargets(b);
    assert IsLocal("#/properties/p");
    assert (1, 1) in Pairs(c);
    LeafIsSilent(c, ["q", "p"], seen + {(1, 1)}, (1, 1));
  }

  lemma EdgesInOrder(c: Comparison, a: string, b: string)
    requires IsTwoWays(c, a, b)
    ensures PropertyEdges(c, ["p", "q"], (0, 0)) == [(Some(1), Some(1)), (Some(2), Some(2))]
    ensures PropertyEdges(c, ["q", "p"], (0, 0)) == [(Some(2), Some(2)), (Some(1), Some(1))]
  {
    TwoWaysShown(c, a, b);
    assert ["p", "q"][1..] == ["q"] && ["q", "p"][1..] == ["p"] && ["q"][1..] == [] && ["p"][1..] == [];
    assert PropertyEdges(c, ["q"], (0, 0)) == [(Some(2), Some(2))];
    assert PropertyEdges(c, ["p"], (0, 0)) == [(Some(1), Some(1))];
  }

  /**
   * The verdict depends on the order of the visits: with the names in the one
   * order the change is reported, with the names in the other it is not.
   */
  lemma OrderDecides(a: string, b: string)
    requires !IsLocal(a) && !IsLocal(b) && a != b
    ensures var c, e := Comparison(TwoWays(a), TwoWays(b), Response), (Some(0), Some(0));
            && ValidEdge(c, e) && !Passes(c, ["p", "q"], e) && Passes(c, ["q", "p"], e)
  {
    var c, e := Comparison(TwoWays(a), TwoWays(b), Response), (Some(0), Some(0));
    TwoWaysTargets(a);
    TwoWaysTargets(b);
    TwoWaysShown(c, a, b);
    EdgesInOrder(c, a, b);
    assert (0, 0) in Pairs(c);
    var seen: set<Pair> := {(0, 0)};
    var start := Progress(true, false, seen);
    assert {} + seen == seen;
    WrittenFirst(c, a, b, seen);
    LocalFirst(c, a, b, seen);
    SearchInOrder(c, a, b, start);
  }

  lemma SearchInOrder(c: Comparison, a: string, b: string, start: Progress)
    requires IsTwoWays(c, a, b) && start == Progress(true, false, {(0, 0)}) && start.seen <= Pairs(c)
    ensures SearchPair(c, ["p", "q"], {(0, 0)}, (0, 0)).reported
    ensures Silent(SearchPair(c, ["q", "p"], {(0, 0)}, (0, 0)))
  {
    TwoWaysShown(c, a, b);
    EdgesInOrder(c, a, b);
    WrittenFirst(c, a, b, start.seen);
    LocalFirst(c, a, b, start.seen);
    var first, second: Edge := (Some(1), Some(1)), (Some(2), Some(2));
    assert [first, second] + [] == [first, second] && [second, first] + [] == [second, first];
    assert [first, second][1..] == [second] && [second, first][1..] == [first];
    assert SearchAll(c, ["p", "q"], start, [first, second]).reported;
    assert Silent(SearchAll(c, ["q", "p"], start, [second, first]));
  }
}
