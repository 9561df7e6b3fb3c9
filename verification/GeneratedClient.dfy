/**
 * From the comparison to the generated client: when it reports nothing for a
 * response, every value that is valid under the current contract inhabits the
 * TypeScript type that was generated from the baseline.
 */
module GeneratedClient {
  import opened Wrappers
  import opened Json
  import opened Documents
  import opened Compatibility
  import opened Instances
  import opened Inclusion
  import opened TypeScript

  /** Every reference names a component whose name needs no escaping in a JSON Pointer. */
  ghost predicate ComponentReferences(d: Document) {
    forall id: NodeId {:trigger IsReferenceAt(d, id)} | IsReferenceAt(d, id) :: NamesComponent(d, d.nodes[id].ref)
  }

  predicate IsReferenceAt(d: Document, id: NodeId) {
    id < |d.nodes| && d.nodes[id].Reference?
  }

  ghost predicate NamesComponent(d: Document, ref: string) {
    exists name | name in d.components ::
      '/' !in name && ref == COMPONENT_PREFIX + name && ref in d.pointers && d.pointers[ref] == d.components[name]
  }

  predicate PlainMap(kw: Keywords) {
    kw.typ == Some(Str("object")) && kw.additional.Each? ==> Properties(kw) == map[]
  }

  /**
   * What the generator takes for granted: component objects say `type: object`,
   * maps written inline declare no properties, and nothing is writeOnly.
   */
  predicate GeneratorFragment(d: Document) {
    forall id: NodeId | id < |d.nodes| && d.nodes[id].Schema? ::
      var kw := d.nodes[id].kw;
      && !kw.writeOnly
      && (id in d.components.Values && kw.properties.Some? ==> kw.typ == Some(Str("object")))
      && (id !in d.components.Values ==> PlainMap(kw))
  }

  ghost predicate GeneratorSetting(r: Reading, declarations: Declarations) {
    && r.direction == Response
    && ComponentReferences(r.doc) && GeneratorFragment(r.doc) && Emitted(r.doc, declarations)
  }

  // ---------------------------------------------------------------- chains of names

  lemma ReferenceIsNamed(d: Document, id: NodeId) returns (name: string)
    requires IsReferenceAt(d, id) && ComponentReferences(d)
    ensures IsLocal(d.nodes[id].ref) && d.nodes[id].ref in d.pointers
    ensures name in d.components && d.pointers[d.nodes[id].ref] == d.components[name]
    ensures TypeOf(d, id) == Some(Named(Sanitize(name)))
  {
    var ref := d.nodes[id].ref;
    assert NamesComponent(d, ref);
    name :| name in d.components && '/' !in name && ref == COMPONENT_PREFIX + name
            && ref in d.pointers && d.pointers[ref] == d.components[name];
    assert COMPONENT_PREFIX == "#/components/schemas" + "/";
    LastSegmentOf("#/components/schemas", name);
  }

  lemma {:induction false} ChainEndsInComponent(d: Document, id: NodeId, followed: set<string>, t: NodeId)
    requires IsReferenceAt(d, id) && ComponentReferences(d)
    requires Chase(d, id, followed) == Some(t) && !d.nodes[t].Reference?
    ensures t in d.components.Values
    decreases ReferenceTexts(d) - followed
  {
    var ref := d.nodes[id].ref;
    assert ref in ReferenceTexts(d);
    var name := ReferenceIsNamed(d, id);
    if IsReferenceAt(d, d.pointers[ref]) {
      ChainEndsInComponent(d, d.pointers[ref], followed + {ref}, t);
    }
  }

  /** Unfolding one name: the declaration it stands for is that of the node the reference leads to. */
  lemma UnfoldName(d: Document, declarations: Declarations, id: NodeId, unfoldings: nat, v: Json)
    returns (next: NodeId)
    requires IsReferenceAt(d, id) && ComponentReferences(d) && Emitted(d, declarations)
    ensures IsLocal(d.nodes[id].ref) && d.nodes[id].ref in d.pointers && next == d.pointers[d.nodes[id].ref]
    ensures TypeOf(d, id).Some? && DeclarationOf(d, next).Some?
    ensures Declares(declarations, unfoldings, DeclarationOf(d, next).value, v) ==>
              Inhabits(declarations, unfoldings + 1, TypeOf(d, id).value, v)
  {
    var name := ReferenceIsNamed(d, id);
    next := d.components[name];
    assert Some(declarations[Sanitize(name)]) == DeclarationOf(d, next);
  }

  /** A component that is itself a reference is declared as an alias. */
  lemma UnfoldAlias(d: Document, declarations: Declarations, id: NodeId, unfoldings: nat, v: Json)
    requires IsReferenceAt(d, id) && ComponentReferences(d) && Emitted(d, declarations)
    requires d.nodes[id].ref in d.pointers && IsReferenceAt(d, d.pointers[d.nodes[id].ref])
    requires Inhabits(declarations, unfoldings, TypeOf(d, d.pointers[d.nodes[id].ref]).value, v)
    ensures Inhabits(declarations, unfoldings + 1, TypeOf(d, id).value, v)
  {
    var next := UnfoldName(d, declarations, id, unfoldings, v);
    assert DeclarationOf(d, next) == Some(Alias(TypeOf(d, next).value));
  }

  lemma FewerTexts(all: set<string>, followed: set<string>, ref: string)
    requires ref in all && ref !in followed
    ensures |all - followed| == |all - (followed + {ref})| + 1
  {
    assert all - followed == (all - (followed + {ref})) + {ref};
  }

  /** The last name of a chain stands for the declaration itself. */
  lemma LastName(d: Document, declarations: Declarations, id: NodeId, unfoldings: nat, enough: nat, v: Json)
    requires IsReferenceAt(d, id) && ComponentReferences(d) && Emitted(d, declarations) && unfoldings < enough
    requires d.nodes[id].ref in d.pointers && DeclarationOf(d, d.pointers[d.nodes[id].ref]).Some?
    requires Declares(declarations, unfoldings, DeclarationOf(d, d.pointers[d.nodes[id].ref]).value, v)
    ensures TypeOf(d, id).Some? && Inhabits(declarations, enough, TypeOf(d, id).value, v)
  {
    var next := UnfoldName(d, declarations, id, unfoldings, v);
    MoreUnfoldings(declarations, unfoldings + 1, enough, TypeOf(d, id).value, v);
  }

  /** One step along a chain that ends at `t`. */
  lemma FollowName(d: Document, id: NodeId, followed: set<string>, t: NodeId) returns (next: NodeId)
    requires IsReferenceAt(d, id) && ComponentReferences(d)
    requires Chase(d, id, followed) == Some(t) && !d.nodes[t].Reference?
    ensures d.nodes[id].ref in ReferenceTexts(d) - followed
    ensures d.nodes[id].ref in d.pointers && next == d.pointers[d.nodes[id].ref]
    ensures Chase(d, next, followed + {d.nodes[id].ref}) == Some(t)
    ensures !IsReferenceAt(d, next) ==> next == t
    ensures TypeOf(d, id).Some?
  {
    var name := ReferenceIsNamed(d, id);
    next := d.pointers[d.nodes[id].ref];
  }

  /** A chain of references is a chain of aliases: it costs one unfolding for each text followed. */
  lemma {:induction false} ChainInhabits(d: Document, declarations: Declarations, id: NodeId, followed: set<string>,
                                         t: NodeId, unfoldings: nat, enough: nat, v: Json)
    requires ComponentReferences(d) && Emitted(d, declarations)
    requires IsReferenceAt(d, id) && enough >= unfoldings + |ReferenceTexts(d) - followed|
    requires Chase(d, id, followed) == Some(t) && !d.nodes[t].Reference?
    requires DeclarationOf(d, t).Some? && Declares(declarations, unfoldings, DeclarationOf(d, t).value, v)
    ensures TypeOf(d, id).Some? && Inhabits(declarations, enough, TypeOf(d, id).value, v)
    decreases ReferenceTexts(d) - followed
  {
    var next := FollowName(d, id, followed, t);
    FewerTexts(ReferenceTexts(d), followed, d.nodes[id].ref);
    if IsReferenceAt(d, next) {
      ChainInhabits(d, declarations, next, followed + {d.nodes[id].ref}, t, unfoldings, enough - 1, v);
      UnfoldAlias(d, declarations, id, enough - 1, v);
    } else {
      LastName(d, declarations, id, unfoldings, enough, v);
    }
  }

  // ---------------------------------------------------------------- one schema

  /** Unfoldings that suffice for a value accepted at the depth. */
  function Budget(d: Document, depth: nat): nat {
    if depth == 0 then 0 else Budget(d, depth - 1) + |ReferenceTexts(d)|
  }

  lemma BudgetGrows(d: Document, depth: nat)
    requires depth > 0
    ensures Budget(d, depth - 1) <= Budget(d, depth)
  {
  }

  lemma {:induction false} TypeInhabited(r: Reading, declarations: Declarations, depth: nat, id: NodeId, v: Json)
    requires GeneratorSetting(r, declarations) && id < |r.doc.nodes| && TypeOf(r.doc, id).Some?
    requires id !in r.doc.components.Values && Accepts(r, depth, id, v)
    ensures Inhabits(declarations, Budget(r.doc, depth), TypeOf(r.doc, id).value, v)
    decreases depth, 3
  {
    if IsReferenceAt(r.doc, id) {
      NamedInhabited(r, declarations, depth, id, v);
    } else {
      assert PlainMap(r.doc.nodes[id].kw);
      BodyInhabited(r, declarations, depth, id, v);
      BudgetGrows(r.doc, depth);
      MoreUnfoldings(declarations, Budget(r.doc, depth - 1), Budget(r.doc, depth), TypeOf(r.doc, id).value, v);
    }
  }

  lemma AcceptsAtTarget(r: Reading, depth: nat, id: NodeId, v: Json)
    requires id < |r.doc.nodes| && Accepts(r, depth, id, v)
    ensures Target(r.doc, id).Some? && !r.doc.nodes[Target(r.doc, id).value].Reference?
    ensures Target(r.doc, Target(r.doc, id).value) == Target(r.doc, id)
    ensures Accepts(r, depth, Target(r.doc, id).value, v)
  {
  }

  lemma {:induction false} NamedInhabited(r: Reading, declarations: Declarations, depth: nat, id: NodeId, v: Json)
    requires GeneratorSetting(r, declarations) && IsReferenceAt(r.doc, id)
    requires Accepts(r, depth, id, v)
    ensures TypeOf(r.doc, id).Some? && Inhabits(declarations, Budget(r.doc, depth), TypeOf(r.doc, id).value, v)
    decreases depth, 2, 1
  {
    AcceptsAtTarget(r, depth, id, v);
    var t := Target(r.doc, id).value;
    ChainEndsInComponent(r.doc, id, {}, t);
    DeclarationInhabited(r, declarations, depth, t, v);
    NameInhabited(r.doc, declarations, id, t, depth, v);
  }

  lemma NameInhabited(d: Document, declarations: Declarations, id: NodeId, t: NodeId, depth: nat, v: Json)
    requires ComponentReferences(d) && Emitted(d, declarations) && IsReferenceAt(d, id) && depth > 0
    requires Target(d, id) == Some(t) && !d.nodes[t].Reference?
    requires DeclarationOf(d, t).Some? && Declares(declarations, Budget(d, depth - 1), DeclarationOf(d, t).value, v)
    ensures TypeOf(d, id).Some? && Inhabits(declarations, Budget(d, depth), TypeOf(d, id).value, v)
  {
    assert ReferenceTexts(d) - {} == ReferenceTexts(d);
    ChainInhabits(d, declarations, id, {}, t, Budget(d, depth - 1), Budget(d, depth), v);
  }

  lemma {:induction false} DeclarationInhabited(r: Reading, declarations: Declarations, depth: nat, t: NodeId, v: Json)
    requires GeneratorSetting(r, declarations) && t in r.doc.components.Values
    requires Target(r.doc, t) == Some(t) && Accepts(r, depth, t, v)
    ensures DeclarationOf(r.doc, t).Some?
    ensures Declares(declarations, Budget(r.doc, depth - 1), DeclarationOf(r.doc, t).value, v)
    decreases depth, 2, 0
  {
    var name :| name in r.doc.components && r.doc.components[name] == t;
    assert Some(declarations[Sanitize(name)]) == DeclarationOf(r.doc, t);
    var kw := KeywordsAt(r.doc, t);
    if IsInterface(kw) {
      assert TypeSet(kw.typ) == Some({"object"});
      PropertiesInhabited(r, declarations, depth, t, v);
    } else {
      BodyInhabited(r, declarations, depth, t, v);
    }
  }

  /** Every declared property is visible to a response, so it was checked and, if required, sent. */
  lemma {:induction false} PropertiesInhabited(r: Reading, declarations: Declarations, depth: nat, t: NodeId, v: Json)
    requires GeneratorSetting(r, declarations) && depth > 0 && t < |r.doc.nodes| && v.Obj?
    requires AcceptsObject(r, depth, t, v)
    ensures forall name | name in Properties(KeywordsAt(r.doc, t)) ::
              && (name in KeywordsAt(r.doc, t).required ==> name in v.fields)
              && (name in v.fields && TypeOf(r.doc, Properties(KeywordsAt(r.doc, t))[name]).Some? ==>
                    Inhabits(declarations, Budget(r.doc, depth - 1),
                             TypeOf(r.doc, Properties(KeywordsAt(r.doc, t))[name]).value, v.fields[name]))
    decreases depth, 1
  {
    var properties := Properties(KeywordsAt(r.doc, t));
    forall name | name in properties
      ensures !Hidden(r.doc, t, Response, name)
      ensures name in KeywordsAt(r.doc, t).required ==> name in v.fields
      ensures name in v.fields && TypeOf(r.doc, properties[name]).Some? ==>
                Inhabits(declarations, Budget(r.doc, depth - 1), TypeOf(r.doc, properties[name]).value, v.fields[name])
    {
      if name in v.fields && TypeOf(r.doc, properties[name]).Some? {
        assert AcceptsKey(r, depth, t, name, v.fields[name]);
        TypeInhabited(r, declarations, depth - 1, properties[name], v.fields[name]);
      }
    }
  }

  lemma OneIsAny(r: Reading, depth: nat, t: NodeId, b: Branches, v: Json)
    requires depth > 0 && r.doc.NestedBranches(t, b) && AcceptsOneOf(r, depth, t, b, v)
    ensures AcceptsAnyOf(r, depth, t, b, v)
  {
    if b.Alternatives? {
      var i :| 0 <= i < |b.ids| && AcceptsOnlyAt(r, depth, t, b, i, v);
      assert AcceptsOnlyAt(r, depth, t, b, i, v);
    }
  }

  lemma {:induction false} UnionInhabited(r: Reading, declarations: Declarations, depth: nat, t: NodeId, b: Branches,
                                          v: Json)
    requires GeneratorSetting(r, declarations) && depth > 0 && t < |r.doc.nodes| && r.doc.NestedBranches(t, b)
    requires UnionOf(r.doc, t, b).Some? && AcceptsAnyOf(r, depth, t, b, v)
    ensures Inhabits(declarations, Budget(r.doc, depth - 1), UnionOf(r.doc, t, b).value, v)
    decreases depth, 0
  {
    var types := UnionOf(r.doc, t, b).value.types;
    var i :| 0 <= i < |b.ids| && Accepts(r, depth - 1, b.ids[i], v);
    assert Some(types[i]) == TypeOf(r.doc, b.ids[i]);
    TypeInhabited(r, declarations, depth - 1, b.ids[i], v);
  }

  lemma {:induction false} MapInhabited(r: Reading, declarations: Declarations, depth: nat, t: NodeId, v: Json)
    requires GeneratorSetting(r, declarations) && depth > 0 && t < |r.doc.nodes| && v.Obj?
    requires KeywordsAt(r.doc, t).additional.Each? && Properties(KeywordsAt(r.doc, t)) == map[]
    requires TypeOf(r.doc, KeywordsAt(r.doc, t).additional.schema).Some? && AcceptsObject(r, depth, t, v)
    ensures Inhabits(declarations, Budget(r.doc, depth - 1),
                     RecordOf(TypeOf(r.doc, KeywordsAt(r.doc, t).additional.schema).value), v)
    decreases depth, 0
  {
    var schema := KeywordsAt(r.doc, t).additional.schema;
    forall key | key in v.fields
      ensures Inhabits(declarations, Budget(r.doc, depth - 1), TypeOf(r.doc, schema).value, v.fields[key])
    {
      assert AcceptsKey(r, depth, t, key, v.fields[key]);
      TypeInhabited(r, declarations, depth - 1, schema, v.fields[key]);
    }
  }

  lemma {:induction false} ArrayInhabited(r: Reading, declarations: Declarations, depth: nat, t: NodeId, v: Json)
    requires GeneratorSetting(r, declarations) && depth > 0 && t < |r.doc.nodes| && v.Arr?
    requires KeywordsAt(r.doc, t).items.Some? && AcceptsItems(r, depth, t, v)
    requires TypeOf(r.doc, KeywordsAt(r.doc, t).items.value).Some?
    ensures Inhabits(declarations, Budget(r.doc, depth - 1),
                     ReadonlyArray(TypeOf(r.doc, KeywordsAt(r.doc, t).items.value).value), v)
    decreases depth, 0
  {
    var items := KeywordsAt(r.doc, t).items.value;
    forall i | 0 <= i < |v.items|
      ensures Inhabits(declarations, Budget(r.doc, depth - 1), TypeOf(r.doc, items).value, v.items[i])
    {
      TypeInhabited(r, declarations, depth - 1, items, v.items[i]);
    }
  }

  lemma {:induction false} BodyInhabited(r: Reading, declarations: Declarations, depth: nat, t: NodeId, v: Json)
    requires GeneratorSetting(r, declarations) && t < |r.doc.nodes| && r.doc.nodes[t].Schema?
    requires TypeOf(r.doc, t).Some? && PlainMap(r.doc.nodes[t].kw) && Accepts(r, depth, t, v)
    ensures Inhabits(declarations, Budget(r.doc, depth - 1), TypeOf(r.doc, t).value, v)
    decreases depth, 1
  {
    var kw := KeywordsAt(r.doc, t);
    if kw.constant.Some? {
    } else if kw.enumeration.Some? {
      EnumInhabited(kw.enumeration.value, declarations, Budget(r.doc, depth - 1), TypeOf(r.doc, t).value, v);
    } else if !kw.anyOf.NoBranches? {
      UnionInhabited(r, declarations, depth, t, kw.anyOf, v);
    } else if !kw.oneOf.NoBranches? {
      OneIsAny(r, depth, t, kw.oneOf, v);
      UnionInhabited(r, declarations, depth, t, kw.oneOf, v);
    } else if kw.typ.Some? && kw.typ.value.Str? {
      assert TypeSet(kw.typ) == Some({kw.typ.value.s});
      if kw.typ.value.s == "array" && kw.items.Some? {
        ArrayInhabited(r, declarations, depth, t, v);
      } else if kw.typ.value.s == "object" && kw.additional.Each? {
        MapInhabited(r, declarations, depth, t, v);
      }
    }
  }

  lemma EnumInhabited(values: seq<Json>, declarations: Declarations, unfoldings: nat, t: TsType, v: Json)
    requires t.Union? && |t.types| == |values| && forall i | 0 <= i < |values| :: t.types[i] == LiteralType(values[i])
    requires EnumAccepts(Some(values), v)
    ensures Inhabits(declarations, unfoldings, t, v)
  {
    var i :| 0 <= i < |values| && SameInstance(v, values[i]);
    assert Inhabits(declarations, unfoldings, t.types[i], v);
  }

  /** What a document accepts in a response inhabits the type generated from that document. */
  lemma GeneratedTypeSound(r: Reading, declarations: Declarations, id: NodeId)
    requires GeneratorSetting(r, declarations) && id < |r.doc.nodes|
    requires id !in r.doc.components.Values && TypeOf(r.doc, id).Some?
    ensures forall v | Valid(r, id, v) :: HasTsType(declarations, TypeOf(r.doc, id).value, v)
  {
    forall v | Valid(r, id, v) ensures HasTsType(declarations, TypeOf(r.doc, id).value, v) {
      var depth: nat :| Accepts(r, depth, id, v);
      TypeInhabited(r, declarations, depth, id, v);
    }
  }

  // ---------------------------------------------------------------- end to end

  /** Main result: the generated baseline client can hold every response of an approved current contract. */
  lemma ApprovedResponsesInhabitGeneratedTypes(
    c: Comparison, relation: set<Pair>, declarations: Declarations, formats: (string, Json) -> bool,
    b: NodeId, n: NodeId)
    requires ResponseSetting(c, relation, formats)
    requires b < |c.baseline.nodes| && n < |c.current.nodes|
    requires EdgeHolds(c, relation, false, (Some(b), Some(n)))
    requires ComponentReferences(c.baseline) && GeneratorFragment(c.baseline) && Emitted(c.baseline, declarations)
    requires b !in c.baseline.components.Values && TypeOf(c.baseline, b).Some?
    ensures forall v | Valid(Served(c, formats), n, v) :: HasTsType(declarations, TypeOf(c.baseline, b).value, v)
  {
    ResponseReadable(c, relation, formats, b, n);
    GeneratedTypeSound(Read(c, formats), declarations, b);
  }
}
