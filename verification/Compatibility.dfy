/**
 * What "no breaking change between two schemas" means, without a search:
 * membership in the greatest relation that is closed under the local checks
 * and under the pairs of sub-schemas.
 */
module Compatibility {
  import opened Wrappers
  import opened Json
  import opened Documents

  type Pair = (NodeId, NodeId)
  type Edge = (Option<NodeId>, Option<NodeId>)

  datatype Comparison = Comparison(baseline: Document, current: Document, direction: Direction)

  // ---------------------------------------------------------------- local checks

  /** The types a `type` keyword lists; None when it says nothing usable. */
  function TypeSet(typ: Option<Json>): Option<set<string>> {
    match typ
    case Some(Str(s)) => Some({s})
    case Some(Arr(xs)) =>
      if forall i | 0 <= i < |xs| :: xs[i].Str?
      then Some(set i | 0 <= i < |xs| :: xs[i].s)
      else None
    case _ => None
  }

  predicate AcceptsType(accepted: set<string>, candidate: string) {
    candidate in accepted || (candidate == "integer" && "number" in accepted)
  }

  predicate TypeKept(baseline: Option<set<string>>, current: Option<set<string>>, direction: Direction) {
    match direction
    case Request =>
      if baseline.None? then current.None?
      else current.None? || forall t | t in baseline.value :: AcceptsType(current.value, t)
    case Response =>
      baseline.None? || (current.Some? && forall t | t in current.value :: AcceptsType(baseline.value, t))
  }

  predicate FormatKept(baseline: Option<string>, current: Option<string>, direction: Direction) {
    match direction
    case Request => current.None? || current == baseline
    case Response => baseline.None? || current == baseline
  }

  function Values(values: seq<Json>): set<Json> {
    set v | v in values
  }

  predicate EnumKept(baseline: Option<seq<Json>>, current: Option<seq<Json>>, direction: Direction) {
    match direction
    case Request =>
      current.Some? ==> baseline.Some? && Values(baseline.value) <= Values(current.value)
    case Response =>
      baseline.Some? ==> current.Some? && Values(current.value) <= Values(baseline.value)
  }

  /** dict.get("const"): a missing keyword reads as null. */
  function ReadConst(constant: Option<Json>): Json {
    if constant.Some? then constant.value else Null
  }

  predicate ConstKept(baseline: Option<Json>, current: Option<Json>) {
    (baseline.None? && current.None?) || PythonEqual(ReadConst(baseline), ReadConst(current))
  }

  predicate BranchesKept(baseline: Branches, current: Branches) {
    || (baseline.Missing() && current.Missing())
    || (baseline.Alternatives? && current.Alternatives? && |baseline.ids| == |current.ids|)
  }

  function KeywordsAt(d: Document, id: NodeId): (kw: Keywords)
    requires id < |d.nodes|
    ensures d.NestedKeywords(id, kw)
  {
    KeywordsOf(d.nodes[id])
  }

  /** A declared property whose schema is readOnly in a request, or writeOnly in a response. */
  predicate Hidden(d: Document, id: NodeId, direction: Direction, name: string)
    requires id < |d.nodes|
  {
    var properties := Properties(KeywordsAt(d, id));
    && name in properties
    && var target := Target(d, properties[name]);
       target.Some? && d.nodes[target.value].Schema? &&
       var kw := d.nodes[target.value].kw;
       if direction == Request then kw.readOnly else kw.writeOnly
  }

  function Visible(d: Document, id: NodeId, direction: Direction): (names: set<string>)
    requires id < |d.nodes|
    ensures names <= Properties(KeywordsAt(d, id)).Keys
  {
    set name | name in Properties(KeywordsAt(d, id)).Keys && !Hidden(d, id, direction, name)
  }

  predicate PropertiesResolve(d: Document, id: NodeId)
    requires id < |d.nodes|
  {
    var properties := Properties(KeywordsAt(d, id));
    forall name | name in properties :: Target(d, properties[name]).Some?
  }

  function RequiredNames(d: Document, id: NodeId, direction: Direction): set<string>
    requires id < |d.nodes|
  {
    KeywordsAt(d, id).required * Visible(d, id, direction)
  }

  predicate AllowsUndeclared(kw: Keywords) {
    kw.additional != Flag(false)
  }

  predicate InRange(c: Comparison, p: Pair) {
    p.0 < |c.baseline.nodes| && p.1 < |c.current.nodes|
  }

  predicate RequiredKept(c: Comparison, p: Pair)
    requires InRange(c, p)
  {
    var baseline := RequiredNames(c.baseline, p.0, c.direction);
    var current := RequiredNames(c.current, p.1, c.direction);
    if c.direction == Request then current <= baseline else baseline <= current
  }

  predicate AdditionalKept(c: Comparison, p: Pair)
    requires InRange(c, p)
  {
    var baseline := AllowsUndeclared(KeywordsAt(c.baseline, p.0));
    var current := AllowsUndeclared(KeywordsAt(c.current, p.1));
    if c.direction == Request then baseline ==> current else current ==> baseline
  }

  predicate NamesKept(c: Comparison, p: Pair)
    requires InRange(c, p)
  {
    Visible(c.baseline, p.0, c.direction) <= Visible(c.current, p.1, c.direction)
  }

  predicate KeywordsKept(c: Comparison, p: Pair)
    requires InRange(c, p)
  {
    var b, n := KeywordsAt(c.baseline, p.0), KeywordsAt(c.current, p.1);
    && TypeKept(TypeSet(b.typ), TypeSet(n.typ), c.direction)
    && FormatKept(b.format, n.format, c.direction)
    && EnumKept(b.enumeration, n.enumeration, c.direction)
    && ConstKept(b.constant, n.constant)
    && BranchesKept(b.oneOf, n.oneOf)
    && BranchesKept(b.anyOf, n.anyOf)
    && BranchesKept(b.allOf, n.allOf)
  }

  /** Every check that looks at two dictionaries only, not at their sub-schemas. */
  predicate LocallyCompatible(c: Comparison, p: Pair)
    requires InRange(c, p)
  {
    && KeywordsKept(c, p)
    && PropertiesResolve(c.baseline, p.0)
    && PropertiesResolve(c.current, p.1)
    && NamesKept(c, p)
    && RequiredKept(c, p)
    && AdditionalKept(c, p)
  }

  // ---------------------------------------------------------------- edges

  predicate ValidEdge(c: Comparison, e: Edge) {
    && (e.0.Some? ==> e.0.value < |c.baseline.nodes|)
    && (e.1.Some? ==> e.1.value < |c.current.nodes|)
  }

  predicate Absent(d: Document, id: Option<NodeId>)
    requires id.Some? ==> id.value < |d.nodes|
  {
    id.None? || d.nodes[id.value] == Literal(Null)
  }

  /** An external $ref written at the baseline end is written the same at the current end. */
  predicate ExternalKept(c: Comparison, p: Pair)
    requires InRange(c, p)
  {
    var b := c.baseline.nodes[p.0];
    b.Reference? && !IsLocal(b.ref) ==> c.current.nodes[p.1] == b
  }

  predicate AreDictionaries(c: Comparison, p: Pair)
    requires InRange(c, p)
  {
    !c.baseline.nodes[p.0].Literal? && !c.current.nodes[p.1].Literal?
  }

  /** Two places that hold schemas are compatible when the relation takes over where their references lead. */
  predicate EdgeHolds(c: Comparison, relation: set<Pair>, strict: bool, e: Edge)
    requires ValidEdge(c, e)
  {
    if Absent(c.baseline, e.0) then true
    else if Absent(c.current, e.1) then false
    else
      var b, n := Target(c.baseline, e.0.value), Target(c.current, e.1.value);
      && b.Some? && n.Some?
      && if AreDictionaries(c, (b.value, n.value)) then
           (b.value, n.value) in relation && (strict ==> ExternalKept(c, (e.0.value, e.1.value)))
         else c.baseline.nodes[b.value] == c.current.nodes[n.value]
  }

  predicate BranchEdgesHold(c: Comparison, relation: set<Pair>, strict: bool, p: Pair, b: Branches, n: Branches)
    requires InRange(c, p) && c.baseline.NestedBranches(p.0, b) && c.current.NestedBranches(p.1, n)
  {
    b.Alternatives? && n.Alternatives? && |b.ids| == |n.ids| ==>
      forall i | 0 <= i < |b.ids| :: EdgeHolds(c, relation, strict, (Some(b.ids[i]), Some(n.ids[i])))
  }

  function PropertyEdge(c: Comparison, p: Pair, name: string): (e: Edge)
    requires InRange(c, p)
    requires name in Properties(KeywordsAt(c.baseline, p.0)) && name in Properties(KeywordsAt(c.current, p.1))
    ensures ValidEdge(c, e)
  {
    (Some(Properties(KeywordsAt(c.baseline, p.0))[name]), Some(Properties(KeywordsAt(c.current, p.1))[name]))
  }

  predicate PropertyEdgesHold(c: Comparison, relation: set<Pair>, strict: bool, p: Pair)
    requires InRange(c, p)
  {
    forall name | name in Visible(c.baseline, p.0, c.direction) && name in Visible(c.current, p.1, c.direction) ::
      EdgeHolds(c, relation, strict, PropertyEdge(c, p, name))
  }

  predicate ContentEdgesHold(c: Comparison, relation: set<Pair>, strict: bool, p: Pair)
    requires InRange(c, p)
  {
    var b, n := KeywordsAt(c.baseline, p.0), KeywordsAt(c.current, p.1);
    && (b.additional.Each? && n.additional.Each? ==>
          EdgeHolds(c, relation, strict, (Some(b.additional.schema), Some(n.additional.schema))))
    && (b.items.Some? ==> EdgeHolds(c, relation, strict, (b.items, n.items)))
  }

  predicate AlternativesHold(c: Comparison, relation: set<Pair>, strict: bool, p: Pair)
    requires InRange(c, p)
  {
    var b, n := KeywordsAt(c.baseline, p.0), KeywordsAt(c.current, p.1);
    && BranchEdgesHold(c, relation, strict, p, b.oneOf, n.oneOf)
    && BranchEdgesHold(c, relation, strict, p, b.anyOf, n.anyOf)
    && BranchEdgesHold(c, relation, strict, p, b.allOf, n.allOf)
  }

  predicate ChildrenHold(c: Comparison, relation: set<Pair>, strict: bool, p: Pair)
    requires InRange(c, p)
  {
    && AlternativesHold(c, relation, strict, p)
    && PropertyEdgesHold(c, relation, strict, p)
    && ContentEdgesHold(c, relation, strict, p)
  }

  // ---------------------------------------------------------------- the greatest relation

  function Pairs(c: Comparison): set<Pair> {
    set b: NodeId, n: NodeId | b < |c.baseline.nodes| && n < |c.current.nodes| :: (b, n)
  }

  predicate PairHolds(c: Comparison, relation: set<Pair>, strict: bool, p: Pair) {
    && InRange(c, p)
    && AreDictionaries(c, p)
    && LocallyCompatible(c, p)
    && ChildrenHold(c, relation, strict, p)
  }

  /** A relation that justifies itself: a simulation between the two schema graphs. */
  predicate Consistent(c: Comparison, relation: set<Pair>, strict: bool) {
    forall p | p in relation :: PairHolds(c, relation, strict, p)
  }

  ghost predicate InSomeConsistent(c: Comparison, strict: bool, p: Pair) {
    exists relation: set<Pair> :: p in relation && Consistent(c, relation, strict)
  }

  ghost function Greatest(c: Comparison, strict: bool): set<Pair> {
    set p | p in Pairs(c) && InSomeConsistent(c, strict, p)
  }

  ghost predicate Compatible(c: Comparison, strict: bool, e: Edge)
    requires ValidEdge(c, e)
  {
    EdgeHolds(c, Greatest(c, strict), strict, e)
  }

  lemma AlternativesMonotone(c: Comparison, small: set<Pair>, large: set<Pair>, p: Pair)
    requires small <= large && InRange(c, p)
    ensures forall strict | AlternativesHold(c, small, strict, p) :: AlternativesHold(c, large, strict, p)
  {
  }

  lemma PropertiesMonotone(c: Comparison, small: set<Pair>, large: set<Pair>, p: Pair)
    requires small <= large && InRange(c, p)
    ensures forall strict | PropertyEdgesHold(c, small, strict, p) :: PropertyEdgesHold(c, large, strict, p)
  {
  }

  lemma ChildrenMonotone(c: Comparison, small: set<Pair>, large: set<Pair>, strict: bool, p: Pair)
    requires small <= large && InRange(c, p) && ChildrenHold(c, small, strict, p)
    ensures ChildrenHold(c, large, strict, p)
  {
    AlternativesMonotone(c, small, large, p);
    PropertiesMonotone(c, small, large, p);
  }

  lemma ConsistentIncluded(c: Comparison, relation: set<Pair>, strict: bool)
    requires Consistent(c, relation, strict)
    ensures relation <= Greatest(c, strict)
  {
    forall p | p in relation ensures p in Greatest(c, strict) {
      assert PairHolds(c, relation, strict, p);
      assert (p.0, p.1) in Pairs(c);
      assert InSomeConsistent(c, strict, p);
    }
  }

  /** The union of all consistent relations is itself consistent, and contains every other. */
  lemma GreatestIsConsistent(c: Comparison, strict: bool)
    ensures Consistent(c, Greatest(c, strict), strict)
    ensures forall relation: set<Pair> | Consistent(c, relation, strict) :: relation <= Greatest(c, strict)
  {
    forall relation: set<Pair> | Consistent(c, relation, strict) ensures relation <= Greatest(c, strict) {
      ConsistentIncluded(c, relation, strict);
    }
    forall p | p in Greatest(c, strict) ensures PairHolds(c, Greatest(c, strict), strict, p) {
      var relation: set<Pair> :| p in relation && Consistent(c, relation, strict);
      assert PairHolds(c, relation, strict, p);
      ChildrenMonotone(c, relation, Greatest(c, strict), strict, p);
    }
  }

  lemma GreatestUnfolds(c: Comparison, p: Pair)
    ensures forall strict | p in Greatest(c, strict) :: PairHolds(c, Greatest(c, strict), strict, p)
  {
    forall strict | p in Greatest(c, strict) ensures PairHolds(c, Greatest(c, strict), strict, p) {
      GreatestIsConsistent(c, strict);
    }
  }

  /** No external reference is written in the document. */
  predicate NoExternal(d: Document) {
    forall id: NodeId | id < |d.nodes| && d.nodes[id].Reference? :: IsLocal(d.nodes[id].ref)
  }

  /** Without external references in the baseline the strict relation is the plain one. */
  lemma StrictnessIsExternal(c: Comparison)
    requires NoExternal(c.baseline)
    ensures Greatest(c, true) == Greatest(c, false)
  {
    forall strict: bool, relation: set<Pair>, p | PairHolds(c, relation, strict, p)
      ensures PairHolds(c, relation, !strict, p)
    {
    }
    forall relation: set<Pair>, p | p in relation
      ensures Consistent(c, relation, true) <==> Consistent(c, relation, false)
    {
    }
    forall p | p in Pairs(c)
      ensures InSomeConsistent(c, true, p) <==> InSomeConsistent(c, false, p)
    {
    }
  }
}
