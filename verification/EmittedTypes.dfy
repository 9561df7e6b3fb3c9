/**
 * Exactly which values have the type that is emitted for a schema: keyword by
 * keyword, in both directions.
 */
module EmittedTypes {
  import opened Wrappers
  import opened Json
  import opened Documents
  import opened Instances
  import opened TypeScript

  /** The values of the type written for the schema. */
  ghost predicate HasTypeOf(d: Document, declarations: Declarations, id: NodeId, v: Json)
    requires id < |d.nodes| && TypeOf(d, id).Some?
  {
    HasTsType(declarations, TypeOf(d, id).value, v)
  }

  /** The schema is one whose type is emitted from its `type` keyword. */
  predicate IsTyped(d: Document, id: NodeId, t: string)
    requires id < |d.nodes|
  {
    d.nodes[id].Schema? &&
    var kw := d.nodes[id].kw;
    kw.constant.None? && kw.enumeration.None? && kw.anyOf.NoBranches? && kw.oneOf.NoBranches? && kw.typ == Some(Str(t))
  }

  // ---------------------------------------------------------------- one unfolding for many parts

  type Part = (TsType, Json)

  lemma {:induction false} CommonUnfolding(declarations: Declarations, parts: set<Part>) returns (unfoldings: nat)
    requires forall p | p in parts :: HasTsType(declarations, p.0, p.1)
    ensures forall p | p in parts :: Inhabits(declarations, unfoldings, p.0, p.1)
    decreases |parts|
  {
    unfoldings := 0;
    if parts != {} {
      var p :| p in parts;
      var rest := CommonUnfolding(declarations, parts - {p});
      var own: nat :| Inhabits(declarations, own, p.0, p.1);
      unfoldings := if own <= rest then rest else own;
      forall q | q in parts ensures Inhabits(declarations, unfoldings, q.0, q.1) {
        if q == p {
          MoreUnfoldings(declarations, own, unfoldings, q.0, q.1);
        } else {
          assert q in parts - {p};
          MoreUnfoldings(declarations, rest, unfoldings, q.0, q.1);
        }
      }
    }
  }

  lemma ArrayByElements(declarations: Declarations, element: TsType, v: Json)
    ensures HasTsType(declarations, ReadonlyArray(element), v) <==>
            v.Arr? && forall i | 0 <= i < |v.items| :: HasTsType(declarations, element, v.items[i])
  {
    if v.Arr? && forall i | 0 <= i < |v.items| :: HasTsType(declarations, element, v.items[i]) {
      var parts := set i | 0 <= i < |v.items| :: (element, v.items[i]);
      var unfoldings := CommonUnfolding(declarations, parts);
      forall i | 0 <= i < |v.items| ensures Inhabits(declarations, unfoldings, element, v.items[i]) {
        assert (element, v.items[i]) in parts;
      }
      assert Inhabits(declarations, unfoldings, ReadonlyArray(element), v);
    }
    if HasTsType(declarations, ReadonlyArray(element), v) {
      var unfoldings: nat :| Inhabits(declarations, unfoldings, ReadonlyArray(element), v);
      forall i | 0 <= i < |v.items| ensures HasTsType(declarations, element, v.items[i]) {
        assert Inhabits(declarations, unfoldings, element, v.items[i]);
      }
    }
  }

  lemma MapByValues(declarations: Declarations, element: TsType, v: Json)
    ensures HasTsType(declarations, RecordOf(element), v) <==>
            v.Obj? && forall key | key in v.fields :: HasTsType(declarations, element, v.fields[key])
  {
    if v.Obj? && forall key | key in v.fields :: HasTsType(declarations, element, v.fields[key]) {
      var parts := set key | key in v.fields :: (element, v.fields[key]);
      var unfoldings := CommonUnfolding(declarations, parts);
      forall key | key in v.fields ensures Inhabits(declarations, unfoldings, element, v.fields[key]) {
        assert (element, v.fields[key]) in parts;
      }
      assert Inhabits(declarations, unfoldings, RecordOf(element), v);
    }
    if HasTsType(declarations, RecordOf(element), v) {
      var unfoldings: nat :| Inhabits(declarations, unfoldings, RecordOf(element), v);
      forall key | key in v.fields ensures HasTsType(declarations, element, v.fields[key]) {
        assert Inhabits(declarations, unfoldings, element, v.fields[key]);
      }
    }
  }

  lemma UnionByBranches(declarations: Declarations, types: seq<TsType>, v: Json)
    ensures HasTsType(declarations, Union(types), v) <==>
            exists i | 0 <= i < |types| :: HasTsType(declarations, types[i], v)
  {
    if i :| 0 <= i < |types| && HasTsType(declarations, types[i], v) {
      var unfoldings: nat :| Inhabits(declarations, unfoldings, types[i], v);
      assert Inhabits(declarations, unfoldings, Union(types), v);
    }
    if HasTsType(declarations, Union(types), v) {
      var unfoldings: nat :| Inhabits(declarations, unfoldings, Union(types), v);
      var i :| 0 <= i < |types| && Inhabits(declarations, unfoldings, types[i], v);
      assert HasTsType(declarations, types[i], v);
    }
  }

  lemma LeafByShape(declarations: Declarations, v: Json)
    ensures HasTsType(declarations, StringType, v) <==> v.Str?
    ensures HasTsType(declarations, NumberType, v) <==> v.Num?
    ensures HasTsType(declarations, BooleanType, v) <==> v.Bool?
    ensures HasTsType(declarations, NullType, v) <==> v.Null?
    ensures HasTsType(declarations, Unknown, v)
    ensures forall x :: HasTsType(declarations, LiteralType(x), v) <==> SameInstance(v, x)
  {
    assert Inhabits(declarations, 0, StringType, v) <==> v.Str?;
    assert Inhabits(declarations, 0, NumberType, v) <==> v.Num?;
    assert Inhabits(declarations, 0, BooleanType, v) <==> v.Bool?;
    assert Inhabits(declarations, 0, NullType, v) <==> v.Null?;
    assert Inhabits(declarations, 0, Unknown, v);
    forall x ensures HasTsType(declarations, LiteralType(x), v) <==> SameInstance(v, x) {
      assert Inhabits(declarations, 0, LiteralType(x), v) <==> SameInstance(v, x);
    }
  }

  // ---------------------------------------------------------------- types

  /** Main result: text, boolean and null schemas are emitted as the types of exactly those values. */
  lemma SimpleTypesExact(d: Document, declarations: Declarations, id: NodeId, t: string, v: Json)
    requires id < |d.nodes| && IsTyped(d, id, t) && (t == "string" || t == "boolean" || t == "null")
    ensures TypeOf(d, id).Some? && (HasTypeOf(d, declarations, id, v) <==> HasType(v, t))
  {
    LeafByShape(declarations, v);
  }

  /** Integers and numbers are both emitted as number. */
  lemma NumbersExact(d: Document, declarations: Declarations, id: NodeId, t: string, v: Json)
    requires id < |d.nodes| && IsTyped(d, id, t) && (t == "integer" || t == "number")
    ensures TypeOf(d, id).Some? && (HasTypeOf(d, declarations, id, v) <==> HasType(v, "number"))
  {
    LeafByShape(declarations, v);
  }

  /** An array schema is emitted as the type of exactly the arrays of what its items are emitted as. */
  lemma ArraysExact(d: Document, declarations: Declarations, id: NodeId, v: Json)
    requires id < |d.nodes| && IsTyped(d, id, "array")
    ensures var items := d.nodes[id].kw.items;
            match items
            case None => TypeOf(d, id).Some? && (HasTypeOf(d, declarations, id, v) <==> v.Arr?)
            case Some(item) =>
              item < |d.nodes| && (TypeOf(d, id).Some? <==> TypeOf(d, item).Some?)
              && (TypeOf(d, id).Some? ==>
                    (HasTypeOf(d, declarations, id, v) <==>
                     v.Arr? && forall i | 0 <= i < |v.items| :: HasTypeOf(d, declarations, item, v.items[i])))
  {
    var items := d.nodes[id].kw.items;
    assert d.NestedKeywords(id, d.nodes[id].kw);
    if items.None? {
      ArrayByElements(declarations, Unknown, v);
      forall x ensures HasTsType(declarations, Unknown, x) {
        LeafByShape(declarations, x);
      }
    } else if TypeOf(d, items.value).Some? {
      ArrayByElements(declarations, TypeOf(d, items.value).value, v);
    }
  }

  /** An object schema is emitted as a map: of what its map schema is emitted as, or of anything. */
  lemma MapsExact(d: Document, declarations: Declarations, id: NodeId, v: Json)
    requires id < |d.nodes| && IsTyped(d, id, "object")
    ensures match d.nodes[id].kw.additional
            case Each(schema) =>
              schema < |d.nodes| && (TypeOf(d, id).Some? <==> TypeOf(d, schema).Some?)
              && (TypeOf(d, id).Some? ==>
                    (HasTypeOf(d, declarations, id, v) <==>
                     v.Obj? && forall key | key in v.fields :: HasTypeOf(d, declarations, schema, v.fields[key])))
            case _ => TypeOf(d, id).Some? && (HasTypeOf(d, declarations, id, v) <==> v.Obj?)
  {
    assert d.NestedKeywords(id, d.nodes[id].kw);
    match d.nodes[id].kw.additional
    case Each(schema) =>
      if TypeOf(d, schema).Some? {
        MapByValues(declarations, TypeOf(d, schema).value, v);
      }
    case _ =>
      MapByValues(declarations, Unknown, v);
      forall x ensures HasTsType(declarations, Unknown, x) {
        LeafByShape(declarations, x);
      }
  }

  /** A schema of no type, or of one the generator does not know, is emitted as unknown; a list of types raises. */
  lemma OtherTypesExact(d: Document, declarations: Declarations, id: NodeId, v: Json)
    requires id < |d.nodes| && d.nodes[id].Schema?
    requires var kw := d.nodes[id].kw;
             kw.constant.None? && kw.enumeration.None? && kw.anyOf.NoBranches? && kw.oneOf.NoBranches?
    ensures var typ := d.nodes[id].kw.typ;
            && (typ.Some? && (typ.value.Arr? || typ.value.Obj?) ==> TypeOf(d, id) == None)
            && ((typ.None? || typ.value.Null? || typ.value.Bool? || typ.value.Num?) ==>
                  TypeOf(d, id).Some? && HasTypeOf(d, declarations, id, v))
  {
    LeafByShape(declarations, v);
  }

  // ---------------------------------------------------------------- const, enum and alternatives

  /** Main result: a const is emitted as the type of exactly its value, and an enum of exactly its values. */
  lemma ListedValuesExact(d: Document, declarations: Declarations, id: NodeId, v: Json)
    requires id < |d.nodes| && d.nodes[id].Schema?
    ensures var kw := d.nodes[id].kw;
            && (kw.constant.Some? ==>
                  TypeOf(d, id).Some? && (HasTypeOf(d, declarations, id, v) <==> SameInstance(v, kw.constant.value)))
            && (kw.constant.None? && kw.enumeration.Some? ==>
                  TypeOf(d, id).Some?
                  && (HasTypeOf(d, declarations, id, v) <==>
                      exists x | x in kw.enumeration.value :: SameInstance(v, x)))
  {
    var kw := d.nodes[id].kw;
    LeafByShape(declarations, v);
    if kw.constant.None? && kw.enumeration.Some? {
      var values := kw.enumeration.value;
      var types := TypeOf(d, id).value.types;
      UnionByBranches(declarations, types, v);
      forall i | 0 <= i < |values| ensures types[i] == LiteralType(values[i]) {
      }
      if x :| x in values && SameInstance(v, x) {
        var i :| 0 <= i < |values| && values[i] == x;
        assert HasTsType(declarations, types[i], v);
      }
      if i :| 0 <= i < |types| && HasTsType(declarations, types[i], v) {
        assert values[i] in values && SameInstance(v, values[i]);
      }
    }
  }

  /** The alternatives that a schema is emitted from: anyOf, or else oneOf. */
  function EmittedFrom(kw: Keywords): Branches {
    if kw.anyOf.NoBranches? then kw.oneOf else kw.anyOf
  }

  /** Main result: alternatives are emitted as the type of exactly the values of some alternative. */
  lemma AlternativesExact(d: Document, declarations: Declarations, id: NodeId, v: Json)
    requires id < |d.nodes| && d.nodes[id].Schema?
    requires d.nodes[id].kw.constant.None? && d.nodes[id].kw.enumeration.None?
    requires !EmittedFrom(d.nodes[id].kw).NoBranches?
    ensures var b := EmittedFrom(d.nodes[id].kw);
            && (TypeOf(d, id).Some? <==>
                b.Alternatives? && forall i | 0 <= i < |b.ids| :: b.ids[i] < |d.nodes| && TypeOf(d, b.ids[i]).Some?)
            && (TypeOf(d, id).Some? ==>
                  (HasTypeOf(d, declarations, id, v) <==>
                   exists i | 0 <= i < |b.ids| :: HasTypeOf(d, declarations, b.ids[i], v)))
  {
    var b := EmittedFrom(d.nodes[id].kw);
    assert d.NestedKeywords(id, d.nodes[id].kw);
    assert TypeOf(d, id) == UnionOf(d, id, b);
    if b.Alternatives? && UnionOf(d, id, b).Some? {
      var types := UnionOf(d, id, b).value.types;
      forall i | 0 <= i < |b.ids| ensures TypeOf(d, b.ids[i]) == Some(types[i]) {
        assert Some(types[i]) == TypeOf(d, b.ids[i]);
      }
      UnionByBranches(declarations, types, v);
    }
  }

  // ---------------------------------------------------------------- components

  /** The value is one of the declared type. */
  ghost predicate HasDeclared(declarations: Declarations, declaration: Declaration, v: Json) {
    exists unfoldings: nat :: Declares(declarations, unfoldings, declaration, v)
  }

  /** A reference is emitted as the name of its last segment, which stands for what is declared under it. */
  lemma ReferencesExact(d: Document, declarations: Declarations, id: NodeId, v: Json)
    requires id < |d.nodes| && d.nodes[id].Reference?
    ensures TypeOf(d, id).Some?
    ensures var name := Sanitize(LastSegment(d.nodes[id].ref));
            HasTypeOf(d, declarations, id, v) <==>
              name in declarations && HasDeclared(declarations, declarations[name], v)
  {
    var name := Sanitize(LastSegment(d.nodes[id].ref));
    if name in declarations && HasDeclared(declarations, declarations[name], v) {
      var unfoldings: nat :| Declares(declarations, unfoldings, declarations[name], v);
      assert Inhabits(declarations, unfoldings + 1, Named(name), v);
    }
    if HasTypeOf(d, declarations, id, v) {
      var unfoldings: nat :| Inhabits(declarations, unfoldings, Named(name), v);
      assert Declares(declarations, unfoldings - 1, declarations[name], v);
    }
  }

  /** The schema of a component that is declared as an interface. */
  predicate IsDeclaredObject(d: Document, id: NodeId)
    requires id < |d.nodes|
  {
    d.nodes[id].Schema? && (d.nodes[id].kw.typ == Some(Str("object")) || d.nodes[id].kw.properties.Some?)
  }

  /**
   * Main result: an interface declares exactly the objects that have every
   * required property and whose declared properties have their types.
   */
  lemma InterfacesExact(d: Document, declarations: Declarations, id: NodeId, v: Json)
    requires id < |d.nodes| && IsDeclaredObject(d, id) && DeclarationOf(d, id).Some?
    ensures forall name | name in Properties(d.nodes[id].kw) ::
              Properties(d.nodes[id].kw)[name] < |d.nodes| && TypeOf(d, Properties(d.nodes[id].kw)[name]).Some?
    ensures HasDeclared(declarations, DeclarationOf(d, id).value, v) <==>
            v.Obj? && forall name | name in Properties(d.nodes[id].kw) ::
              && (name in d.nodes[id].kw.required ==> name in v.fields)
              && (name in v.fields ==> HasTypeOf(d, declarations, Properties(d.nodes[id].kw)[name], v.fields[name]))
  {
    var kw := d.nodes[id].kw;
    var properties := Properties(kw);
    assert d.NestedKeywords(id, kw);
    var declaration := DeclarationOf(d, id).value;
    if v.Obj? && forall name | name in properties ::
         && (name in kw.required ==> name in v.fields)
         && (name in v.fields ==> HasTypeOf(d, declarations, properties[name], v.fields[name]))
    {
      var parts := set name | name in properties && name in v.fields ::
                     (TypeOf(d, properties[name]).value, v.fields[name]);
      var unfoldings := CommonUnfolding(declarations, parts);
      forall name | name in properties && name in v.fields
        ensures Inhabits(declarations, unfoldings, TypeOf(d, properties[name]).value, v.fields[name])
      {
        assert (TypeOf(d, properties[name]).value, v.fields[name]) in parts;
      }
      assert Declares(declarations, unfoldings, declaration, v);
    }
    if HasDeclared(declarations, declaration, v) {
      var unfoldings: nat :| Declares(declarations, unfoldings, declaration, v);
      forall name | name in properties && name in v.fields
        ensures HasTypeOf(d, declarations, properties[name], v.fields[name])
      {
        assert Inhabits(declarations, unfoldings, declaration.properties[name].typ, v.fields[name]);
      }
    }
  }

  /** Every other component is declared as another name for its type. */
  lemma AliasesExact(d: Document, declarations: Declarations, id: NodeId, v: Json)
    requires id < |d.nodes| && !IsDeclaredObject(d, id) && DeclarationOf(d, id).Some?
    ensures TypeOf(d, id).Some?
    ensures HasDeclared(declarations, DeclarationOf(d, id).value, v) <==> HasTypeOf(d, declarations, id, v)
  {
    var t := TypeOf(d, id).value;
    forall unfoldings: nat
      ensures Declares(declarations, unfoldings, Alias(t), v) <==> Inhabits(declarations, unfoldings, t, v)
    {
    }
  }

  /** A component is emitted unless the type of a property, or its own, cannot be written. */
  lemma DeclarationExists(d: Document, id: NodeId)
    requires id < |d.nodes|
    ensures DeclarationOf(d, id).Some? <==>
            if IsDeclaredObject(d, id)
            then forall name | name in Properties(d.nodes[id].kw) ::
                   Properties(d.nodes[id].kw)[name] < |d.nodes| && TypeOf(d, Properties(d.nodes[id].kw)[name]).Some?
            else TypeOf(d, id).Some?
  {
  }
}
