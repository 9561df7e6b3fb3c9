/**
 * Acceptance and refusal as judgements: they do not depend on how deep one
 * looks, never contradict one another, obey the equation that JSON Schema
 * states for them, and decide every value unless schemas combine themselves.
 */
module Judgements {
  import opened Json
  import opened Documents
  import opened Compatibility
  import opened Instances

  /** A judgement once made stands however deep one looks. */
  ghost predicate Stable(r: Reading, few: nat, many: nat) {
    forall id: NodeId, v: Json | id < |r.doc.nodes| ::
      && (Accepts(r, few, id, v) ==> Accepts(r, many, id, v))
      && (Refuses(r, few, id, v) ==> Refuses(r, many, id, v))
  }

  lemma StableAnyOf(r: Reading, few: nat, many: nat, t: NodeId, b: Branches, v: Json)
    requires 0 < few <= many && Stable(r, few - 1, many - 1) && r.doc.NestedBranches(t, b)
    ensures AcceptsAnyOf(r, few, t, b, v) ==> AcceptsAnyOf(r, many, t, b, v)
    ensures RefusesAnyOf(r, few, t, b, v) ==> RefusesAnyOf(r, many, t, b, v)
  {
  }

  lemma StableAllOf(r: Reading, few: nat, many: nat, t: NodeId, b: Branches, v: Json)
    requires 0 < few <= many && Stable(r, few - 1, many - 1) && r.doc.NestedBranches(t, b)
    ensures AcceptsAllOf(r, few, t, b, v) ==> AcceptsAllOf(r, many, t, b, v)
    ensures RefusesAllOf(r, few, t, b, v) ==> RefusesAllOf(r, many, t, b, v)
  {
  }

  lemma StableTwo(r: Reading, few: nat, many: nat, t: NodeId, b: Branches, v: Json)
    requires 0 < few <= many && Stable(r, few - 1, many - 1) && r.doc.NestedBranches(t, b)
    ensures AcceptsTwo(r, few, t, b, v) ==> AcceptsTwo(r, many, t, b, v)
  {
  }

  lemma StableOnlyAt(r: Reading, few: nat, many: nat, t: NodeId, b: Branches, i: nat, v: Json)
    requires 0 < few <= many && Stable(r, few - 1, many - 1) && r.doc.NestedBranches(t, b)
    requires b.Alternatives? && i < |b.ids| && AcceptsOnlyAt(r, few, t, b, i, v)
    ensures AcceptsOnlyAt(r, many, t, b, i, v)
  {
  }

  lemma StableOneOf(r: Reading, few: nat, many: nat, t: NodeId, b: Branches, v: Json)
    requires 0 < few <= many && Stable(r, few - 1, many - 1) && r.doc.NestedBranches(t, b)
    ensures AcceptsOneOf(r, few, t, b, v) ==> AcceptsOneOf(r, many, t, b, v)
    ensures RefusesOneOf(r, few, t, b, v) ==> RefusesOneOf(r, many, t, b, v)
  {
    StableAnyOf(r, few, many, t, b, v);
    StableTwo(r, few, many, t, b, v);
    if b.Alternatives? && AcceptsOneOf(r, few, t, b, v) {
      assert AcceptsOneOf(r, few, t, b, v);
      var i :| 0 <= i < |b.ids| && AcceptsOnlyAt(r, few, t, b, i, v);
      StableOnlyAt(r, few, many, t, b, i, v);
    }
  }

  lemma StableAlternatives(r: Reading, few: nat, many: nat, t: NodeId, v: Json)
    requires 0 < few <= many && Stable(r, few - 1, many - 1) && t < |r.doc.nodes|
    ensures AcceptsAlternatives(r, few, t, v) ==> AcceptsAlternatives(r, many, t, v)
    ensures RefusesAlternatives(r, few, t, v) ==> RefusesAlternatives(r, many, t, v)
  {
    var kw := KeywordsAt(r.doc, t);
    StableOneOf(r, few, many, t, kw.oneOf, v);
    StableAnyOf(r, few, many, t, kw.anyOf, v);
    StableAllOf(r, few, many, t, kw.allOf, v);
  }

  lemma StableItems(r: Reading, few: nat, many: nat, t: NodeId, v: Json)
    requires 0 < few <= many && Stable(r, few - 1, many - 1) && t < |r.doc.nodes| && v.Arr?
    ensures AcceptsItems(r, few, t, v) ==> AcceptsItems(r, many, t, v)
    ensures RefusesItems(r, few, t, v) ==> RefusesItems(r, many, t, v)
  {
  }

  lemma StableKey(r: Reading, few: nat, many: nat, t: NodeId, key: string, v: Json)
    requires 0 < few <= many && Stable(r, few - 1, many - 1) && t < |r.doc.nodes|
    ensures AcceptsKey(r, few, t, key, v) ==> AcceptsKey(r, many, t, key, v)
    ensures RefusesKey(r, few, t, key, v) ==> RefusesKey(r, many, t, key, v)
  {
  }

  lemma StableObject(r: Reading, few: nat, many: nat, t: NodeId, v: Json)
    requires 0 < few <= many && Stable(r, few - 1, many - 1) && t < |r.doc.nodes| && v.Obj?
    ensures AcceptsObject(r, few, t, v) ==> AcceptsObject(r, many, t, v)
    ensures RefusesObject(r, few, t, v) ==> RefusesObject(r, many, t, v)
  {
    forall key | key in v.fields
      ensures AcceptsKey(r, few, t, key, v.fields[key]) ==> AcceptsKey(r, many, t, key, v.fields[key])
      ensures RefusesKey(r, few, t, key, v.fields[key]) ==> RefusesKey(r, many, t, key, v.fields[key])
    {
      StableKey(r, few, many, t, key, v.fields[key]);
    }
  }

  lemma {:induction false} Deeper(r: Reading, few: nat, many: nat)
    requires few <= many
    ensures Stable(r, few, many)
    decreases few
  {
    if few > 0 {
      Deeper(r, few - 1, many - 1);
      forall id: NodeId, v: Json | id < |r.doc.nodes|
        ensures Accepts(r, few, id, v) ==> Accepts(r, many, id, v)
        ensures Refuses(r, few, id, v) ==> Refuses(r, many, id, v)
      {
        DeeperAt(r, few, many, id, v);
      }
    }
  }

  lemma DeeperAt(r: Reading, few: nat, many: nat, id: NodeId, v: Json)
    requires 0 < few <= many && Stable(r, few - 1, many - 1) && id < |r.doc.nodes|
    ensures Accepts(r, few, id, v) ==> Accepts(r, many, id, v)
    ensures Refuses(r, few, id, v) ==> Refuses(r, many, id, v)
  {
    if Target(r.doc, id).Some? && r.doc.nodes[Target(r.doc, id).value].Schema? {
      var t := Target(r.doc, id).value;
      StableAlternatives(r, few, many, t, v);
      if v.Arr? {
        StableItems(r, few, many, t, v);
      }
      if v.Obj? {
        StableObject(r, few, many, t, v);
      }
    }
  }

  // ---------------------------------------------------------------- one depth for many judgements

  type Question = (NodeId, Json)

  ghost predicate Settled(r: Reading, accepted: set<Question>, refused: set<Question>) {
    && (forall q | q in accepted :: q.0 < |r.doc.nodes| && Valid(r, q.0, q.1))
    && (forall q | q in refused :: q.0 < |r.doc.nodes| && Invalid(r, q.0, q.1))
  }

  ghost predicate SettledAt(r: Reading, depth: nat, accepted: set<Question>, refused: set<Question>) {
    && (forall q | q in accepted :: q.0 < |r.doc.nodes| && Accepts(r, depth, q.0, q.1))
    && (forall q | q in refused :: q.0 < |r.doc.nodes| && Refuses(r, depth, q.0, q.1))
  }

  /** A depth at which these judgements show, and those that show at the other depth as well. */
  lemma AddQuestion(r: Reading, rest: nat, accepted: set<Question>, refused: set<Question>,
                    q: Question) returns (depth: nat)
    requires SettledAt(r, rest, accepted, refused) && q.0 < |r.doc.nodes|
    ensures Valid(r, q.0, q.1) ==> SettledAt(r, depth, accepted + {q}, refused)
    ensures Invalid(r, q.0, q.1) ==> SettledAt(r, depth, accepted, refused + {q})
  {
    var yes: nat := if Valid(r, q.0, q.1) then (var d: nat :| Accepts(r, d, q.0, q.1); d) else 0;
    var no: nat := if Invalid(r, q.0, q.1) then (var d: nat :| Refuses(r, d, q.0, q.1); d) else 0;
    var own := Deepest(r, yes, no);
    depth := Deepest(r, own, rest);
  }

  lemma {:induction false} RefusalDepth(r: Reading, refused: set<Question>) returns (depth: nat)
    requires Settled(r, {}, refused)
    ensures SettledAt(r, depth, {}, refused)
    decreases |refused|
  {
    depth := 0;
    if refused != {} {
      var q :| q in refused;
      var rest := RefusalDepth(r, refused - {q});
      depth := AddQuestion(r, rest, {}, refused - {q}, q);
      assert refused == (refused - {q}) + {q};
    }
  }

  lemma {:induction false} CommonDepth(r: Reading, accepted: set<Question>, refused: set<Question>) returns (depth: nat)
    requires Settled(r, accepted, refused)
    ensures SettledAt(r, depth, accepted, refused)
    decreases |accepted|
  {
    if accepted == {} {
      depth := RefusalDepth(r, refused);
    } else {
      var q :| q in accepted;
      var rest := CommonDepth(r, accepted - {q}, refused);
      depth := AddQuestion(r, rest, accepted - {q}, refused, q);
      assert accepted == (accepted - {q}) + {q};
    }
  }

  lemma Deepest(r: Reading, some: nat, other: nat) returns (depth: nat)
    ensures some <= depth && other <= depth && Stable(r, some, depth) && Stable(r, other, depth)
  {
    depth := if some <= other then other else some;
    Deeper(r, some, depth);
    Deeper(r, other, depth);
  }

  // ---------------------------------------------------------------- the equation for validity

  /** From the keywords to the whole: sub-schemas settled one by one settle the schema. */
  lemma BodyIsValid(r: Reading, id: NodeId, v: Json)
    requires id < |r.doc.nodes| && Target(r.doc, id).Some? && r.doc.nodes[Target(r.doc, id).value].Schema?
    requires ValidBody(r, Target(r.doc, id).value, v)
    ensures Valid(r, id, v)
  {
    var t := Target(r.doc, id).value;
    var kw := KeywordsAt(r.doc, t);
    var one := WitnessOneOf(r, t, kw.oneOf, v);
    var any := WitnessAnyOf(r, t, kw.anyOf, v);
    var all := WitnessAllOf(r, t, kw.allOf, v);
    var rest := WitnessContents(r, t, v);
    var d1 := Deepest(r, one, any);
    var d2 := Deepest(r, all, rest);
    var depth := Deepest(r, d1, d2);
    StableOneOf(r, one + 1, depth + 1, t, kw.oneOf, v);
    StableAnyOf(r, any + 1, depth + 1, t, kw.anyOf, v);
    StableAllOf(r, all + 1, depth + 1, t, kw.allOf, v);
    if v.Arr? {
      StableItems(r, rest + 1, depth + 1, t, v);
    }
    if v.Obj? {
      StableObject(r, rest + 1, depth + 1, t, v);
    }
    assert Accepts(r, depth + 1, id, v);
  }

  lemma WitnessOneOf(r: Reading, t: NodeId, b: Branches, v: Json) returns (depth: nat)
    requires r.doc.NestedBranches(t, b) && ValidOneOf(r, t, b, v)
    ensures AcceptsOneOf(r, depth + 1, t, b, v)
  {
    depth := 0;
    if b.Alternatives? {
      var i: nat :| i < |b.ids| && ValidOnlyAt(r, t, b, i, v);
      var others := if r.tolerant then {} else set j | 0 <= j < |b.ids| && j != i :: (b.ids[j], v);
      depth := CommonDepth(r, {(b.ids[i], v)}, others);
      assert (b.ids[i], v) in {(b.ids[i], v)};
      forall j | !r.tolerant && 0 <= j < |b.ids| && j != i ensures Refuses(r, depth, b.ids[j], v) {
        assert (b.ids[j], v) in others;
      }
      assert AcceptsOnlyAt(r, depth + 1, t, b, i, v);
    }
  }

  lemma WitnessAnyOf(r: Reading, t: NodeId, b: Branches, v: Json) returns (depth: nat)
    requires r.doc.NestedBranches(t, b) && ValidAnyOf(r, t, b, v)
    ensures AcceptsAnyOf(r, depth + 1, t, b, v)
  {
    depth := 0;
    if b.Alternatives? {
      var i :| 0 <= i < |b.ids| && Valid(r, b.ids[i], v);
      depth :| Accepts(r, depth, b.ids[i], v);
    }
  }

  lemma WitnessAllOf(r: Reading, t: NodeId, b: Branches, v: Json) returns (depth: nat)
    requires r.doc.NestedBranches(t, b) && ValidAllOf(r, t, b, v)
    ensures AcceptsAllOf(r, depth + 1, t, b, v)
  {
    depth := 0;
    if b.Alternatives? {
      var every := set i | 0 <= i < |b.ids| :: (b.ids[i], v);
      depth := CommonDepth(r, every, {});
      forall i | 0 <= i < |b.ids| ensures Accepts(r, depth, b.ids[i], v) {
        assert (b.ids[i], v) in every;
      }
    }
  }

  lemma WitnessContents(r: Reading, t: NodeId, v: Json) returns (depth: nat)
    requires t < |r.doc.nodes| && (v.Arr? ==> ValidItems(r, t, v)) && (v.Obj? ==> ValidObject(r, t, v))
    ensures v.Arr? ==> AcceptsItems(r, depth + 1, t, v)
    ensures v.Obj? ==> AcceptsObject(r, depth + 1, t, v)
  {
    depth := 0;
    if v.Arr? && KeywordsAt(r.doc, t).items.Some? {
      var items := KeywordsAt(r.doc, t).items.value;
      var every := set i | 0 <= i < |v.items| :: (items, v.items[i]);
      depth := CommonDepth(r, every, {});
      forall i | 0 <= i < |v.items| ensures Accepts(r, depth, items, v.items[i]) {
        assert (items, v.items[i]) in every;
      }
    } else if v.Obj? {
      var judged := set key | key in v.fields && KeySchema(r, t, key).Some? ::
                      (KeySchema(r, t, key).value, v.fields[key]);
      forall key | key in v.fields && KeySchema(r, t, key).Some?
        ensures Valid(r, KeySchema(r, t, key).value, v.fields[key])
      {
        assert ValidKey(r, t, key, v.fields[key]);
      }
      depth := CommonDepth(r, judged, {});
      forall key | key in v.fields ensures AcceptsKey(r, depth + 1, t, key, v.fields[key]) {
        assert ValidKey(r, t, key, v.fields[key]);
        if KeySchema(r, t, key).Some? {
          assert (KeySchema(r, t, key).value, v.fields[key]) in judged;
        }
      }
    }
  }

  /** And back. */
  lemma ValidHasBody(r: Reading, id: NodeId, v: Json)
    requires id < |r.doc.nodes| && Valid(r, id, v)
    ensures Target(r.doc, id).Some?
    ensures var t := Target(r.doc, id).value;
            r.doc.nodes[t].Schema? ==> ValidBody(r, t, v)
  {
    var depth: nat :| Accepts(r, depth, id, v);
    var t := Target(r.doc, id).value;
    if r.doc.nodes[t].Schema? {
      AcceptedAlternatives(r, depth, t, v);
      if v.Arr? {
        AcceptedItems(r, depth, t, v);
      }
      if v.Obj? {
        AcceptedObject(r, depth, t, v);
      }
    }
  }

  lemma AcceptedKey(r: Reading, depth: nat, t: NodeId, key: string, v: Json)
    requires depth > 0 && t < |r.doc.nodes| && AcceptsKey(r, depth, t, key, v)
    ensures ValidKey(r, t, key, v)
  {
  }

  lemma AcceptedOnlyAt(r: Reading, depth: nat, t: NodeId, b: Branches, i: nat, v: Json)
    requires depth > 0 && r.doc.NestedBranches(t, b) && b.Alternatives? && i < |b.ids|
    requires AcceptsOnlyAt(r, depth, t, b, i, v)
    ensures ValidOnlyAt(r, t, b, i, v)
  {
  }

  lemma AcceptedOneOf(r: Reading, depth: nat, t: NodeId, b: Branches, v: Json)
    requires depth > 0 && r.doc.NestedBranches(t, b) && AcceptsOneOf(r, depth, t, b, v)
    ensures ValidOneOf(r, t, b, v)
  {
    if b.Alternatives? {
      var i :| 0 <= i < |b.ids| && AcceptsOnlyAt(r, depth, t, b, i, v);
      AcceptedOnlyAt(r, depth, t, b, i, v);
    }
  }

  lemma AcceptedAnyOf(r: Reading, depth: nat, t: NodeId, b: Branches, v: Json)
    requires depth > 0 && r.doc.NestedBranches(t, b) && AcceptsAnyOf(r, depth, t, b, v)
    ensures ValidAnyOf(r, t, b, v)
  {
    if b.Alternatives? {
      var i :| 0 <= i < |b.ids| && Accepts(r, depth - 1, b.ids[i], v);
      assert Valid(r, b.ids[i], v);
    }
  }

  lemma AcceptedAllOf(r: Reading, depth: nat, t: NodeId, b: Branches, v: Json)
    requires depth > 0 && r.doc.NestedBranches(t, b) && AcceptsAllOf(r, depth, t, b, v)
    ensures ValidAllOf(r, t, b, v)
  {
    if b.Alternatives? {
      forall i | 0 <= i < |b.ids| ensures Valid(r, b.ids[i], v) {
        assert Accepts(r, depth - 1, b.ids[i], v);
      }
    }
  }

  lemma AcceptedItems(r: Reading, depth: nat, t: NodeId, v: Json)
    requires depth > 0 && t < |r.doc.nodes| && v.Arr? && AcceptsItems(r, depth, t, v)
    ensures ValidItems(r, t, v)
  {
    var items := KeywordsAt(r.doc, t).items;
    if items.Some? {
      forall i | 0 <= i < |v.items| ensures Valid(r, items.value, v.items[i]) {
        assert Accepts(r, depth - 1, items.value, v.items[i]);
      }
    }
  }

  lemma AcceptedObject(r: Reading, depth: nat, t: NodeId, v: Json)
    requires depth > 0 && t < |r.doc.nodes| && v.Obj? && AcceptsObject(r, depth, t, v)
    ensures ValidObject(r, t, v)
  {
    forall key | key in v.fields ensures ValidKey(r, t, key, v.fields[key]) {
      AcceptedKey(r, depth, t, key, v.fields[key]);
    }
  }

  lemma AcceptedAlternatives(r: Reading, depth: nat, t: NodeId, v: Json)
    requires depth > 0 && t < |r.doc.nodes| && AcceptsAlternatives(r, depth, t, v)
    ensures ValidOneOf(r, t, KeywordsAt(r.doc, t).oneOf, v)
    ensures ValidAnyOf(r, t, KeywordsAt(r.doc, t).anyOf, v)
    ensures ValidAllOf(r, t, KeywordsAt(r.doc, t).allOf, v)
  {
    var kw := KeywordsAt(r.doc, t);
    AcceptedOneOf(r, depth, t, kw.oneOf, v);
    AcceptedAnyOf(r, depth, t, kw.anyOf, v);
    AcceptedAllOf(r, depth, t, kw.allOf, v);
  }

  // ---------------------------------------------------------------- no contradiction

  ghost predicate Coherent(r: Reading, depth: nat) {
    forall id: NodeId, v: Json | id < |r.doc.nodes| :: !(Accepts(r, depth, id, v) && Refuses(r, depth, id, v))
  }

  lemma CoherentAlternatives(r: Reading, depth: nat, t: NodeId, b: Branches, v: Json)
    requires depth > 0 && Coherent(r, depth - 1) && r.doc.NestedBranches(t, b)
    ensures !(AcceptsAnyOf(r, depth, t, b, v) && RefusesAnyOf(r, depth, t, b, v))
    ensures !(AcceptsAllOf(r, depth, t, b, v) && RefusesAllOf(r, depth, t, b, v))
  {
  }

  lemma CoherentOnlyAt(r: Reading, depth: nat, t: NodeId, b: Branches, i: nat, v: Json)
    requires depth > 0 && Coherent(r, depth - 1) && r.doc.NestedBranches(t, b)
    requires b.Alternatives? && i < |b.ids| && AcceptsOnlyAt(r, depth, t, b, i, v)
    ensures !RefusesAnyOf(r, depth, t, b, v) && (r.tolerant || !AcceptsTwo(r, depth, t, b, v))
  {
  }

  lemma CoherentOneOf(r: Reading, depth: nat, t: NodeId, b: Branches, v: Json)
    requires depth > 0 && Coherent(r, depth - 1) && r.doc.NestedBranches(t, b)
    ensures !(AcceptsOneOf(r, depth, t, b, v) && RefusesOneOf(r, depth, t, b, v))
  {
    if AcceptsOneOf(r, depth, t, b, v) && b.Alternatives? {
      assert AcceptsOneOf(r, depth, t, b, v);
      var i :| 0 <= i < |b.ids| && AcceptsOnlyAt(r, depth, t, b, i, v);
      CoherentOnlyAt(r, depth, t, b, i, v);
    }
  }

  lemma CoherentContents(r: Reading, depth: nat, t: NodeId, v: Json)
    requires depth > 0 && Coherent(r, depth - 1) && t < |r.doc.nodes|
    ensures v.Arr? ==> !(AcceptsItems(r, depth, t, v) && RefusesItems(r, depth, t, v))
    ensures v.Obj? ==> !(AcceptsObject(r, depth, t, v) && RefusesObject(r, depth, t, v))
  {
    forall key, x ensures !(AcceptsKey(r, depth, t, key, x) && RefusesKey(r, depth, t, key, x)) {
    }
  }

  lemma {:induction false} AllCoherent(r: Reading, depth: nat)
    ensures Coherent(r, depth)
    decreases depth
  {
    if depth > 0 {
      AllCoherent(r, depth - 1);
      forall id: NodeId, v: Json | id < |r.doc.nodes|
        ensures !(Accepts(r, depth, id, v) && Refuses(r, depth, id, v))
      {
        if Target(r.doc, id).Some? && r.doc.nodes[Target(r.doc, id).value].Schema? {
          var t := Target(r.doc, id).value;
          var kw := KeywordsAt(r.doc, t);
          CoherentOneOf(r, depth, t, kw.oneOf, v);
          CoherentAlternatives(r, depth, t, kw.anyOf, v);
          CoherentAlternatives(r, depth, t, kw.allOf, v);
          CoherentContents(r, depth, t, v);
        }
      }
    }
  }

  /** Main result: no value is both valid and invalid. */
  lemma NeverBoth(r: Reading, id: NodeId, v: Json)
    requires id < |r.doc.nodes|
    ensures !(Valid(r, id, v) && Invalid(r, id, v))
  {
    if Valid(r, id, v) && Invalid(r, id, v) {
      var yes: nat :| Accepts(r, yes, id, v);
      var no: nat :| Refuses(r, no, id, v);
      var depth := Deepest(r, yes, no);
      AllCoherent(r, depth);
    }
  }

  // ---------------------------------------------------------------- every value is decided

  /** No schema is among its own alternatives, directly or through others. */
  ghost predicate Layered(d: Document, rank: NodeId -> nat) {
    forall t: NodeId, b: Branches, i | t < |d.nodes| && d.NestedBranches(t, b) && b in AlternativesOf(d, t)
      && b.Alternatives? && 0 <= i < |b.ids| && Target(d, b.ids[i]).Some? ::
        rank(Target(d, b.ids[i]).value) < rank(t)
  }

  function AlternativesOf(d: Document, t: NodeId): set<Branches>
    requires t < |d.nodes|
  {
    var kw := KeywordsAt(d, t);
    {kw.oneOf, kw.anyOf, kw.allOf}
  }

  ghost predicate Decided(r: Reading, id: NodeId, v: Json)
    requires id < |r.doc.nodes|
  {
    Valid(r, id, v) || Invalid(r, id, v)
  }

  ghost predicate BranchesDecided(r: Reading, t: NodeId, b: Branches, v: Json)
    requires r.doc.NestedBranches(t, b)
  {
    b.Alternatives? ==> forall i | 0 <= i < |b.ids| :: Decided(r, b.ids[i], v)
  }

  lemma NoneFits(r: Reading, t: NodeId, b: Branches, v: Json) returns (depth: nat)
    requires r.doc.NestedBranches(t, b) && b.Alternatives? && forall i | 0 <= i < |b.ids| :: Invalid(r, b.ids[i], v)
    ensures RefusesAnyOf(r, depth + 1, t, b, v)
  {
    var every := set i | 0 <= i < |b.ids| :: (b.ids[i], v);
    depth := CommonDepth(r, {}, every);
    forall i | 0 <= i < |b.ids| ensures Refuses(r, depth, b.ids[i], v) {
      assert (b.ids[i], v) in every;
    }
  }

  lemma TwoFit(r: Reading, t: NodeId, b: Branches, i: nat, j: nat, v: Json) returns (depth: nat)
    requires r.doc.NestedBranches(t, b) && b.Alternatives? && i < |b.ids| && j < |b.ids| && i != j
    requires Valid(r, b.ids[i], v) && Valid(r, b.ids[j], v)
    ensures AcceptsTwo(r, depth + 1, t, b, v)
  {
    var both := {(b.ids[i], v), (b.ids[j], v)};
    depth := CommonDepth(r, both, {});
    assert (b.ids[i], v) in both && (b.ids[j], v) in both;
    assert Accepts(r, depth, b.ids[i], v) && Accepts(r, depth, b.ids[j], v);
    if i < j {
      assert AcceptsTwo(r, depth + 1, t, b, v);
    } else {
      assert AcceptsTwo(r, depth + 1, t, b, v);
    }
  }

  lemma OneOfRefused(r: Reading, t: NodeId, b: Branches, v: Json) returns (depth: nat)
    requires r.doc.NestedBranches(t, b) && BranchesDecided(r, t, b, v) && !ValidOneOf(r, t, b, v)
    ensures RefusesOneOf(r, depth + 1, t, b, v)
  {
    if i :| 0 <= i < |b.ids| && Valid(r, b.ids[i], v) {
      assert !ValidOnlyAt(r, t, b, i, v);
      var j :| 0 <= j < |b.ids| && j != i && !Invalid(r, b.ids[j], v);
      assert Decided(r, b.ids[j], v);
      depth := TwoFit(r, t, b, i, j, v);
    } else {
      assert forall i | 0 <= i < |b.ids| :: Decided(r, b.ids[i], v);
      depth := NoneFits(r, t, b, v);
    }
  }

  lemma AnyOfRefused(r: Reading, t: NodeId, b: Branches, v: Json) returns (depth: nat)
    requires r.doc.NestedBranches(t, b) && BranchesDecided(r, t, b, v) && !ValidAnyOf(r, t, b, v)
    ensures RefusesAnyOf(r, depth + 1, t, b, v)
  {
    assert forall i | 0 <= i < |b.ids| :: Decided(r, b.ids[i], v);
    depth := NoneFits(r, t, b, v);
  }

  lemma AllOfRefused(r: Reading, t: NodeId, b: Branches, v: Json) returns (depth: nat)
    requires r.doc.NestedBranches(t, b) && BranchesDecided(r, t, b, v) && !ValidAllOf(r, t, b, v)
    ensures RefusesAllOf(r, depth + 1, t, b, v)
  {
    var i :| 0 <= i < |b.ids| && !Valid(r, b.ids[i], v);
    assert Decided(r, b.ids[i], v);
    depth :| Refuses(r, depth, b.ids[i], v);
  }

  ghost predicate ContentsDecided(r: Reading, t: NodeId, v: Json)
    requires t < |r.doc.nodes|
  {
    && (v.Arr? && KeywordsAt(r.doc, t).items.Some? ==>
          forall i | 0 <= i < |v.items| :: Decided(r, KeywordsAt(r.doc, t).items.value, v.items[i]))
    && (v.Obj? ==> forall key | key in v.fields && KeySchema(r, t, key).Some? ::
          Decided(r, KeySchema(r, t, key).value, v.fields[key]))
  }

  lemma ItemsRefused(r: Reading, t: NodeId, v: Json) returns (depth: nat)
    requires t < |r.doc.nodes| && v.Arr? && ContentsDecided(r, t, v) && !ValidItems(r, t, v)
    ensures RefusesItems(r, depth + 1, t, v)
  {
    var items := KeywordsAt(r.doc, t).items.value;
    var i :| 0 <= i < |v.items| && !Valid(r, items, v.items[i]);
    assert Decided(r, items, v.items[i]);
    depth :| Refuses(r, depth, items, v.items[i]);
  }

  lemma ObjectRefused(r: Reading, t: NodeId, v: Json) returns (depth: nat)
    requires t < |r.doc.nodes| && v.Obj? && ContentsDecided(r, t, v) && !ValidObject(r, t, v)
    ensures RefusesObject(r, depth + 1, t, v)
  {
    depth := 0;
    if HasRequired(r, t, v) {
      var key :| key in v.fields && !ValidKey(r, t, key, v.fields[key]);
      if r.sends(t, key) && KeySchema(r, t, key).Some? {
        var s := KeySchema(r, t, key).value;
        assert Decided(r, s, v.fields[key]);
        depth :| Refuses(r, depth, s, v.fields[key]);
      }
      assert RefusesKey(r, depth + 1, t, key, v.fields[key]);
    }
  }

  lemma BodyDecided(r: Reading, id: NodeId, v: Json)
    requires id < |r.doc.nodes| && Target(r.doc, id).Some? && r.doc.nodes[Target(r.doc, id).value].Schema?
    requires forall b | b in AlternativesOf(r.doc, Target(r.doc, id).value) ::
               BranchesDecided(r, Target(r.doc, id).value, b, v)
    requires ContentsDecided(r, Target(r.doc, id).value, v)
    ensures Decided(r, id, v)
  {
    var t := Target(r.doc, id).value;
    var kw := KeywordsAt(r.doc, t);
    assert BranchesDecided(r, t, kw.oneOf, v);
    assert BranchesDecided(r, t, kw.anyOf, v) && BranchesDecided(r, t, kw.allOf, v);
    var depth := 0;
    if ValidBody(r, t, v) {
      BodyIsValid(r, id, v);
      return;
    } else if ScalarsAccept(kw, r.formats, v) {
      if !ValidOneOf(r, t, kw.oneOf, v) {
        depth := OneOfRefused(r, t, kw.oneOf, v);
      } else if !ValidAnyOf(r, t, kw.anyOf, v) {
        depth := AnyOfRefused(r, t, kw.anyOf, v);
      } else if !ValidAllOf(r, t, kw.allOf, v) {
        depth := AllOfRefused(r, t, kw.allOf, v);
      } else if v.Arr? {
        depth := ItemsRefused(r, t, v);
      } else {
        depth := ObjectRefused(r, t, v);
      }
    }
    assert Refuses(r, depth + 1, id, v);
  }

  /**
   * Main result: every value is valid or invalid, unless references lead nowhere or
   * a schema is its own alternative.
   */
  lemma {:induction false} EveryValueDecided(r: Reading, rank: NodeId -> nat, id: NodeId, v: Json)
    requires Grounded(r.doc) && Layered(r.doc, rank) && id < |r.doc.nodes|
    ensures Decided(r, id, v)
    decreases v, rank(Target(r.doc, id).value)
  {
    var t := Target(r.doc, id).value;
    if r.doc.nodes[t].Schema? {
      forall b, i | b in AlternativesOf(r.doc, t) && b.Alternatives? && 0 <= i < |b.ids|
        ensures Decided(r, b.ids[i], v)
      {
        assert r.doc.NestedBranches(t, b);
        EveryValueDecided(r, rank, b.ids[i], v);
      }
      if v.Arr? && KeywordsAt(r.doc, t).items.Some? {
        forall i | 0 <= i < |v.items| ensures Decided(r, KeywordsAt(r.doc, t).items.value, v.items[i]) {
          EveryValueDecided(r, rank, KeywordsAt(r.doc, t).items.value, v.items[i]);
        }
      }
      if v.Obj? {
        forall key | key in v.fields && KeySchema(r, t, key).Some?
          ensures Decided(r, KeySchema(r, t, key).value, v.fields[key])
        {
          EveryValueDecided(r, rank, KeySchema(r, t, key).value, v.fields[key]);
        }
      }
      BodyDecided(r, id, v);
    } else {
      assert Accepts(r, 1, id, v) || Refuses(r, 1, id, v);
    }
  }
}
