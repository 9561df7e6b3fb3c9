/**
 * The keys that a client of a contract may send.  A schema can combine others:
 * then a key may be sent when any schema of the combination declares it, and
 * every schema of the combination meets it.
 */
module Senders {
  import opened Wrappers
  import opened Json
  import opened Documents
  import opened Compatibility
  import opened Instances
  import opened Judgements
  import opened Inclusion

  /** `u` is reached from `w` through at most `steps` alternatives, references followed. */
  ghost predicate Reached(d: Document, w: NodeId, steps: nat, u: NodeId)
    requires w < |d.nodes|
  {
    if steps == 0 then Target(d, w) == Some(u)
    else Reached(d, w, steps - 1, u) || exists m: NodeId :: Reached(d, w, steps - 1, m) && IsAlternative(d, m, u)
  }

  ghost predicate IsAlternative(d: Document, m: NodeId, u: NodeId) {
    m < |d.nodes| && exists b: Branches, i :: IsBranch(d, m, b, i) && Target(d, b.ids[i]) == Some(u)
  }

  predicate IsBranch(d: Document, m: NodeId, b: Branches, i: int)
    requires m < |d.nodes|
  {
    b in AlternativesOf(d, m) && b.Alternatives? && 0 <= i < |b.ids|
  }

  /** The schemas that `w` combines for one value, itself included. */
  ghost predicate InComposition(d: Document, w: NodeId, u: NodeId)
    requires w < |d.nodes|
  {
    exists steps: nat :: Reached(d, w, steps, u)
  }

  /** The schema shows the key in a request, or has a schema for undeclared keys. */
  predicate Offers(d: Document, u: NodeId, key: string)
    requires u < |d.nodes|
  {
    key in Visible(d, u, Request) || KeywordsAt(d, u).additional.Each?
  }

  ghost predicate OfferedBy(d: Document, w: NodeId, key: string)
    requires w < |d.nodes|
  {
    exists u: NodeId | u < |d.nodes| :: InComposition(d, w, u) && Offers(d, u, key)
  }

  /** A client writes its values from the schemas in `roots`, with the keys that their compositions offer. */
  ghost function DeclaredKeys(d: Document, roots: set<NodeId>): (NodeId, string) -> bool {
    (u: NodeId, key: string) =>
      u < |d.nodes|
      && (Offers(d, u, key)
          || exists w: NodeId | w in roots && w < |d.nodes| :: InComposition(d, w, u) && OfferedBy(d, w, key))
  }

  lemma TargetIsFirst(d: Document, w: NodeId)
    requires w < |d.nodes| && Target(d, w).Some?
    ensures InComposition(d, w, Target(d, w).value)
  {
    assert Reached(d, w, 0, Target(d, w).value);
  }

  lemma {:induction false} CompositionGoesOn(d: Document, w: NodeId, m: NodeId, b: Branches, i: nat)
    requires w < |d.nodes| && m < |d.nodes| && InComposition(d, w, m) && IsBranch(d, m, b, i)
    requires d.NestedBranches(m, b) && Target(d, b.ids[i]).Some?
    ensures InComposition(d, w, Target(d, b.ids[i]).value)
  {
    var u := Target(d, b.ids[i]).value;
    var steps: nat :| Reached(d, w, steps, m);
    assert IsAlternative(d, m, u);
    assert Reached(d, w, steps + 1, u);
  }

  /** A key offered anywhere in the composition of a root may be sent at every schema of that composition. */
  lemma OfferedEverywhere(d: Document, roots: set<NodeId>, w: NodeId, u: NodeId, from: NodeId, key: string)
    requires w in roots && w < |d.nodes| && u < |d.nodes| && from < |d.nodes|
    requires InComposition(d, w, u) && InComposition(d, w, from) && Offers(d, from, key)
    ensures DeclaredKeys(d, roots)(u, key)
  {
    assert OfferedBy(d, w, key);
  }

  /** What a client may send for one alternative, it may send for the schema that lists the alternatives. */
  lemma AlternativeIsSent(c: Comparison, roots: set<NodeId>, formats: (string, Json) -> bool, id: NodeId,
                          ids: seq<NodeId>, i: nat, v: Json)
    requires id in roots && id < |c.baseline.nodes| && i < |ids|
    requires c.baseline.nodes[id] == Schema(NO_KEYWORDS.(anyOf := Alternatives(ids)))
    requires c.baseline.NestedBranches(id, Alternatives(ids))
    requires Valid(Sent(c, DeclaredKeys(c.baseline, roots), formats), ids[i], v) && Target(c.baseline, ids[i]).Some?
    requires v.Obj? ==> forall key | key in v.fields :: Offers(c.baseline, Target(c.baseline, ids[i]).value, key)
    ensures Valid(Sent(c, DeclaredKeys(c.baseline, roots), formats), id, v)
  {
    var sent := Sent(c, DeclaredKeys(c.baseline, roots), formats);
    var u := Target(c.baseline, ids[i]).value;
    TargetIsFirst(c.baseline, id);
    CompositionGoesOn(c.baseline, id, id, Alternatives(ids), i);
    if v.Obj? {
      forall key | key in v.fields ensures ValidKey(sent, id, key, v.fields[key]) {
        OfferedEverywhere(c.baseline, roots, id, id, u, key);
      }
    }
    assert ValidBody(sent, id, v);
    BodyIsValid(sent, id, v);
  }

  /**
   * What a client may send for every member of a combination, with keys that some
   * member offers, it may send for the whole.
   */
  lemma CombinationIsSent(c: Comparison, roots: set<NodeId>, formats: (string, Json) -> bool, id: NodeId,
                          ids: seq<NodeId>, v: Json)
    requires id in roots && id < |c.baseline.nodes|
    requires c.baseline.nodes[id] == Schema(NO_KEYWORDS.(allOf := Alternatives(ids)))
    requires c.baseline.NestedBranches(id, Alternatives(ids))
    requires forall i | 0 <= i < |ids| ::
               Target(c.baseline, ids[i]).Some? && Valid(Sent(c, DeclaredKeys(c.baseline, roots), formats), ids[i], v)
    requires v.Obj? ==> forall key | key in v.fields ::
               exists i :: 0 <= i < |ids| && Offers(c.baseline, Target(c.baseline, ids[i]).value, key)
    ensures Valid(Sent(c, DeclaredKeys(c.baseline, roots), formats), id, v)
  {
    var sent := Sent(c, DeclaredKeys(c.baseline, roots), formats);
    TargetIsFirst(c.baseline, id);
    if v.Obj? {
      forall key | key in v.fields ensures ValidKey(sent, id, key, v.fields[key]) {
        var i :| 0 <= i < |ids| && Offers(c.baseline, Target(c.baseline, ids[i]).value, key);
        CompositionGoesOn(c.baseline, id, id, Alternatives(ids), i);
        OfferedEverywhere(c.baseline, roots, id, id, Target(c.baseline, ids[i]).value, key);
      }
    }
    assert ValidBody(sent, id, v);
    BodyIsValid(sent, id, v);
  }
}
