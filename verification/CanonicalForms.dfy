/**
 * Sorted forms that stand for collections, and the security requirements of an
 * operation, which are compared by them.
 */
module CanonicalForms {
  ghost predicate TotalOrder<T(!new)>(leq: (T, T) -> bool) {
    && (forall x, y :: leq(x, y) || leq(y, x))
    && (forall x, y :: leq(x, y) && leq(y, x) ==> x == y)
    && (forall x, y, z :: leq(x, y) && leq(y, z) ==> leq(x, z))
  }

  function Insert<T>(leq: (T, T) -> bool, x: T, xs: seq<T>): seq<T> {
    if xs == [] || leq(x, xs[0]) then [x] + xs else [xs[0]] + Insert(leq, x, xs[1..])
  }

  /** sorted(xs) */
  function Sort<T>(leq: (T, T) -> bool, xs: seq<T>): seq<T> {
    if xs == [] then [] else Insert(leq, xs[0], Sort(leq, xs[1..]))
  }

  ghost predicate Sorted<T>(leq: (T, T) -> bool, xs: seq<T>) {
    forall i, j | 0 <= i < j < |xs| :: leq(xs[i], xs[j])
  }

  lemma {:induction false} InsertAdds<T>(leq: (T, T) -> bool, x: T, xs: seq<T>)
    ensures multiset(Insert(leq, x, xs)) == multiset{x} + multiset(xs)
  {
    if xs != [] {
      assert xs == [xs[0]] + xs[1..];
      if !leq(x, xs[0]) {
        InsertAdds(leq, x, xs[1..]);
      }
    }
  }

  /** Nothing below `low` comes in with `x`. */
  lemma InsertStaysAbove<T(!new)>(leq: (T, T) -> bool, x: T, xs: seq<T>, low: T)
    requires leq(low, x) && forall i | 0 <= i < |xs| :: leq(low, xs[i])
    ensures forall i | 0 <= i < |Insert(leq, x, xs)| :: leq(low, Insert(leq, x, xs)[i])
  {
    var longer := Insert(leq, x, xs);
    InsertAdds(leq, x, xs);
    forall i | 0 <= i < |longer| ensures leq(low, longer[i]) {
      assert longer[i] in multiset(longer);
      assert longer[i] == x || longer[i] in multiset(xs);
    }
  }

  lemma {:induction false} InsertSorts<T(!new)>(leq: (T, T) -> bool, x: T, xs: seq<T>)
    requires TotalOrder(leq) && Sorted(leq, xs)
    ensures Sorted(leq, Insert(leq, x, xs))
  {
    if xs != [] && !leq(x, xs[0]) {
      InsertSorts(leq, x, xs[1..]);
      InsertStaysAbove(leq, x, xs[1..], xs[0]);
    }
  }

  lemma {:induction false} SortSorts<T(!new)>(leq: (T, T) -> bool, xs: seq<T>)
    requires TotalOrder(leq)
    ensures Sorted(leq, Sort(leq, xs)) && multiset(Sort(leq, xs)) == multiset(xs)
  {
    if xs != [] {
      SortSorts(leq, xs[1..]);
      InsertSorts(leq, xs[0], Sort(leq, xs[1..]));
      InsertAdds(leq, xs[0], Sort(leq, xs[1..]));
      assert xs == [xs[0]] + xs[1..];
    }
  }

  lemma HeadAndTail<T>(xs: seq<T>)
    requires xs != []
    ensures multiset(xs[1..]) == multiset(xs) - multiset{xs[0]}
  {
    assert xs == [xs[0]] + xs[1..];
  }

  /** A sorted list starts with an element below all others, so only one can start it. */
  lemma SameHead<T(!new)>(leq: (T, T) -> bool, xs: seq<T>, ys: seq<T>)
    requires TotalOrder(leq) && Sorted(leq, xs) && Sorted(leq, ys) && multiset(xs) == multiset(ys)
    requires xs != [] && ys != []
    ensures xs[0] == ys[0]
  {
    assert xs[0] in multiset(ys) && ys[0] in multiset(xs);
    var i :| 0 <= i < |ys| && ys[i] == xs[0];
    var j :| 0 <= j < |xs| && xs[j] == ys[0];
    assert leq(xs[0], ys[0]) && leq(ys[0], xs[0]);
  }

  lemma {:induction false} SortedUnique<T(!new)>(leq: (T, T) -> bool, xs: seq<T>, ys: seq<T>)
    requires TotalOrder(leq) && Sorted(leq, xs) && Sorted(leq, ys) && multiset(xs) == multiset(ys)
    ensures xs == ys
  {
    assert |multiset(xs)| == |xs| && |multiset(ys)| == |ys|;
    if xs != [] {
      SameHead(leq, xs, ys);
      HeadAndTail(xs);
      HeadAndTail(ys);
      SortedUnique(leq, xs[1..], ys[1..]);
    }
  }

  /** Sorting is a canonical form of a multiset. */
  lemma SortIsCanonical<T(!new)>(leq: (T, T) -> bool, xs: seq<T>, ys: seq<T>)
    requires TotalOrder(leq)
    ensures Sort(leq, xs) == Sort(leq, ys) <==> multiset(xs) == multiset(ys)
  {
    SortSorts(leq, xs);
    SortSorts(leq, ys);
    if multiset(xs) == multiset(ys) {
      SortedUnique(leq, Sort(leq, xs), Sort(leq, ys));
    }
  }

  function Map<X, Y>(f: X -> Y, xs: seq<X>): (r: seq<Y>)
    ensures |r| == |xs| && forall i | 0 <= i < |r| :: r[i] == f(xs[i])
  {
    seq(|xs|, i requires 0 <= i < |xs| => f(xs[i]))
  }

  function Without<T>(xs: seq<T>, j: nat): seq<T>
    requires j < |xs|
  {
    xs[..j] + xs[j + 1..]
  }

  lemma MapWithout<X, Y>(f: X -> Y, xs: seq<X>, j: nat)
    requires j < |xs|
    ensures multiset(Map(f, xs)) == multiset(Map(f, Without(xs, j))) + multiset{f(xs[j])}
  {
    assert Map(f, xs) == Map(f, xs[..j]) + [f(xs[j])] + Map(f, xs[j + 1..]);
    assert Map(f, Without(xs, j)) == Map(f, xs[..j]) + Map(f, xs[j + 1..]);
  }

  lemma SameImage<X, Y>(f: X -> Y, xs: seq<X>, ys: seq<X>) returns (j: nat)
    requires xs != [] && multiset(Map(f, xs)) == multiset(Map(f, ys))
    ensures j < |ys| && f(ys[j]) == f(xs[0])
    ensures multiset(Map(f, Without(xs, 0))) == multiset(Map(f, Without(ys, j)))
  {
    assert Map(f, xs)[0] in multiset(Map(f, ys));
    j :| 0 <= j < |ys| && Map(f, ys)[j] == f(xs[0]);
    MapWithout(f, xs, 0);
    MapWithout(f, ys, j);
    assert multiset(Map(f, Without(xs, 0))) == multiset(Map(f, xs)) - multiset{f(xs[0])};
    assert multiset(Map(f, Without(ys, j))) == multiset(Map(f, ys)) - multiset{f(xs[0])};
  }

  /** When f tells apart at least what g tells apart, equal bags of f-images give equal bags of g-images. */
  lemma {:induction false} BagsFollow<X(!new), Y, Z>(f: X -> Y, g: X -> Z, xs: seq<X>, ys: seq<X>)
    requires forall x, y | f(x) == f(y) :: g(x) == g(y)
    requires multiset(Map(f, xs)) == multiset(Map(f, ys))
    ensures multiset(Map(g, xs)) == multiset(Map(g, ys))
    decreases |xs|
  {
    if xs == [] {
      assert |multiset(Map(f, ys))| == |ys|;
    } else {
      var j := SameImage(f, xs, ys);
      BagsFollow(f, g, Without(xs, 0), Without(ys, j));
      MapWithout(g, xs, 0);
      MapWithout(g, ys, j);
    }
  }

  // ---------------------------------------------------------------- security requirements

  /** One scheme of an alternative, with its scopes; a value that is no list of scopes counts as none. */
  type Demand = (string, seq<string>)
  type Alternative = seq<Demand>

  /** The orders by which the interpreter sorts texts, pairs and tuples of pairs. */
  datatype Orders = Orders(
    texts: (string, string) -> bool,
    demands: (Demand, Demand) -> bool,
    alternatives: (Alternative, Alternative) -> bool)

  ghost predicate AreTotal(o: Orders) {
    TotalOrder(o.texts) && TotalOrder(o.demands) && TotalOrder(o.alternatives)
  }

  function NormalDemand(o: Orders, d: Demand): Demand {
    (d.0, Sort(o.texts, d.1))
  }

  function NormalAlternative(o: Orders, a: Alternative): Alternative {
    Sort(o.demands, Map((d: Demand) => NormalDemand(o, d), a))
  }

  function NormalizeSecurity(o: Orders, alternatives: seq<Alternative>): seq<Alternative> {
    Sort(o.alternatives, Map((a: Alternative) => NormalAlternative(o, a), alternatives))
  }

  /** What a requirement means: a bag of alternatives, each a bag of schemes with a bag of scopes. */
  ghost function DemandMeaning(d: Demand): (string, multiset<string>) {
    (d.0, multiset(d.1))
  }

  ghost function AlternativeMeaning(a: Alternative): multiset<(string, multiset<string>)> {
    multiset(Map((d: Demand) => DemandMeaning(d), a))
  }

  ghost function Meaning(alternatives: seq<Alternative>): multiset<multiset<(string, multiset<string>)>> {
    multiset(Map((a: Alternative) => AlternativeMeaning(a), alternatives))
  }

  lemma AlternativesAgree(o: Orders, a: Alternative, b: Alternative)
    requires AreTotal(o)
    ensures NormalAlternative(o, a) == NormalAlternative(o, b) <==> AlternativeMeaning(a) == AlternativeMeaning(b)
  {
    var f, g := (d: Demand) => NormalDemand(o, d), (d: Demand) => DemandMeaning(d);
    forall x: Demand, y: Demand ensures f(x) == f(y) <==> g(x) == g(y) {
      SortIsCanonical(o.texts, x.1, y.1);
    }
    SortIsCanonical(o.demands, Map(f, a), Map(f, b));
    if AlternativeMeaning(a) == AlternativeMeaning(b) {
      BagsFollow(g, f, a, b);
    }
    if NormalAlternative(o, a) == NormalAlternative(o, b) {
      BagsFollow(f, g, a, b);
    }
  }

  /** Main result: two security requirements normalise alike exactly when they mean the same. */
  lemma SecurityFormIsExact(o: Orders, a: seq<Alternative>, b: seq<Alternative>)
    requires AreTotal(o)
    ensures NormalizeSecurity(o, a) == NormalizeSecurity(o, b) <==> Meaning(a) == Meaning(b)
  {
    var f, g := (x: Alternative) => NormalAlternative(o, x), (x: Alternative) => AlternativeMeaning(x);
    forall x: Alternative, y: Alternative ensures f(x) == f(y) <==> g(x) == g(y) {
      AlternativesAgree(o, x, y);
    }
    SortIsCanonical(o.alternatives, Map(f, a), Map(f, b));
    if Meaning(a) == Meaning(b) {
      BagsFollow(g, f, a, b);
    }
    if NormalizeSecurity(o, a) == NormalizeSecurity(o, b) {
      BagsFollow(f, g, a, b);
    }
  }

  /** The normal form as it is built: one alternative after the other, then one sort. */
  method SortedAlternatives(o: Orders, security: seq<Alternative>) returns (r: seq<Alternative>)
    ensures r == NormalizeSecurity(o, security)
  {
    var alternatives: seq<Alternative> := [];
    for i := 0 to |security|
      invariant |alternatives| == i
      invariant forall j | 0 <= j < i :: alternatives[j] == NormalAlternative(o, security[j])
    {
      var requirement: Alternative := [];
      for k := 0 to |security[i]|
        invariant requirement == Map((d: Demand) => NormalDemand(o, d), security[i][..k])
      {
        requirement := requirement + [(security[i][k].0, Sort(o.texts, security[i][k].1))];
      }
      assert security[i][..|security[i]|] == security[i];
      alternatives := alternatives + [Sort(o.demands, requirement)];
    }
    assert alternatives == Map((a: Alternative) => NormalAlternative(o, a), security);
    return Sort(o.alternatives, alternatives);
  }
}
