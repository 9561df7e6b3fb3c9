/**
 * The TypeScript declarations generated from the schemas of a document, and
 * which JSON values inhabit them.
 */
module TypeScript {
  import opened Wrappers
  import opened Json
  import opened Documents
  import opened Compatibility

  datatype TsType =
    | Named(id: string)
    | LiteralType(value: Json)
    | Union(types: seq<TsType>)
    | ReadonlyArray(element: TsType)
    | RecordOf(element: TsType)
    | Unknown
    | NumberType
    | BooleanType
    | NullType
    | StringType

  datatype Property = Property(optional: bool, typ: TsType)

  datatype Declaration =
    | Interface(properties: map<string, Property>)
    | Alias(typ: TsType)

  type Declarations = map<string, Declaration>

  // ---------------------------------------------------------------- identifiers

  predicate IsIdentifierStart(ch: char) {
    'A' <= ch <= 'Z' || 'a' <= ch <= 'z' || ch == '_' || ch == '$'
  }

  predicate IsIdentifierPart(ch: char) {
    IsIdentifierStart(ch) || '0' <= ch <= '9'
  }

  function KeepIdentifierParts(s: string): string {
    if s == "" then ""
    else (if IsIdentifierPart(s[0]) then [s[0]] else []) + KeepIdentifierParts(s[1..])
  }

  function Sanitize(s: string): string {
    var kept := KeepIdentifierParts(s);
    if kept != "" && IsIdentifierStart(kept[0]) then kept else "_" + kept
  }

  /** The text after the last slash. */
  function LastSegment(ref: string): string {
    if ref == "" then ""
    else if '/' in ref[1..] then LastSegment(ref[1..])
    else if ref[0] == '/' then ref[1..]
    else ref
  }

  const COMPONENT_PREFIX := "#/components/schemas/"

  lemma {:induction false} LastSegmentOf(prefix: string, name: string)
    requires '/' !in name
    ensures LastSegment(prefix + "/" + name) == name
  {
    var ref := prefix + "/" + name;
    if prefix == "" {
      assert ref[1..] == name && ref[0] == '/';
    } else {
      assert ref[1..] == prefix[1..] + "/" + name;
      assert ref[1..][|prefix| - 1] == '/';
      LastSegmentOf(prefix[1..], name);
    }
  }

  // ---------------------------------------------------------------- generation

  function All<T>(xs: seq<Option<T>>): (r: Option<seq<T>>)
    ensures r.Some? <==> forall i | 0 <= i < |xs| :: xs[i].Some?
    ensures r.Some? ==> |r.value| == |xs| && forall i | 0 <= i < |xs| :: xs[i] == Some(r.value[i])
  {
    if forall i | 0 <= i < |xs| :: xs[i].Some?
    then Some(seq(|xs|, i requires 0 <= i < |xs| => xs[i].value))
    else None
  }

  function Wrap(t: Option<TsType>, f: TsType -> TsType): Option<TsType> {
    if t.Some? then Some(f(t.value)) else None
  }

  /** The type written for a schema where it stands; None when the generator raises. */
  function TypeOf(d: Document, id: NodeId): Option<TsType>
    requires id < |d.nodes|
    decreases |d.nodes| - id, 1
  {
    match d.nodes[id]
    case Literal(_) => None
    case Reference(ref) => Some(Named(Sanitize(LastSegment(ref))))
    case Schema(kw) =>
      assert d.NestedKeywords(id, kw);
      if kw.constant.Some? then Some(LiteralType(kw.constant.value))
      else if kw.enumeration.Some? then
        Some(Union(seq(|kw.enumeration.value|, i requires 0 <= i < |kw.enumeration.value| =>
                                                 LiteralType(kw.enumeration.value[i]))))
      else if !kw.anyOf.NoBranches? then UnionOf(d, id, kw.anyOf)
      else if !kw.oneOf.NoBranches? then UnionOf(d, id, kw.oneOf)
      else match kw.typ
           case Some(Arr(_)) => None
           case Some(Obj(_)) => None
           case Some(Str(t)) =>
             if t == "array" then
               if kw.items.Some? then Wrap(TypeOf(d, kw.items.value), e => ReadonlyArray(e))
               else Some(ReadonlyArray(Unknown))
             else if t == "object" then
               if kw.additional.Each? then Wrap(TypeOf(d, kw.additional.schema), e => RecordOf(e))
               else Some(RecordOf(Unknown))
             else if t == "integer" || t == "number" then Some(NumberType)
             else if t == "boolean" then Some(BooleanType)
             else if t == "null" then Some(NullType)
             else if t == "string" then Some(StringType)
             else Some(Unknown)
           case _ => Some(Unknown)
  }

  function UnionOf(d: Document, id: NodeId, b: Branches): Option<TsType>
    requires id < |d.nodes| && d.NestedBranches(id, b)
    decreases |d.nodes| - id, 0
  {
    if !b.Alternatives? then None
    else
      var types := All(seq(|b.ids|, i requires 0 <= i < |b.ids| => TypeOf(d, b.ids[i])));
      if types.Some? then Some(Union(types.value)) else None
  }

  predicate IsInterface(kw: Keywords) {
    kw.typ == Some(Str("object")) || kw.properties.Some?
  }

  /** The declaration written for a component; None when the generator raises. */
  function DeclarationOf(d: Document, id: NodeId): Option<Declaration>
    requires id < |d.nodes|
  {
    if d.nodes[id].Schema? && IsInterface(d.nodes[id].kw) then
      var kw := KeywordsAt(d, id);
      var properties := Properties(kw);
      if forall name | name in properties :: TypeOf(d, properties[name]).Some? then
        Some(Interface(map name | name in properties ::
                         Property(name !in kw.required, TypeOf(d, properties[name]).value)))
      else None
    else
      match TypeOf(d, id)
      case Some(t) => Some(Alias(t))
      case None => None
  }

  /** Two components never share an emitted name. */
  predicate NamesDistinct(d: Document) {
    forall a, b | a in d.components && b in d.components && Sanitize(a) == Sanitize(b) :: a == b
  }

  /** The emitted file declares every component under its name. */
  predicate Emitted(d: Document, declarations: Declarations) {
    forall name | name in d.components ::
      && Sanitize(name) in declarations
      && Some(declarations[Sanitize(name)]) == DeclarationOf(d, d.components[name])
  }

  /** Emits one declaration per component, in some order; None when the generator raises. */
  method GenerateTypes(d: Document) returns (r: Option<Declarations>)
    ensures r.Some? <==> forall name | name in d.components :: DeclarationOf(d, d.components[name]).Some?
    ensures r.Some? && NamesDistinct(d) ==> Emitted(d, r.value)
    ensures r.Some? ==> r.value.Keys == set name | name in d.components :: Sanitize(name)
  {
    var declarations: Declarations := map[];
    var names := d.components.Keys;
    while names != {}
      invariant names <= d.components.Keys
      invariant forall name | name in d.components.Keys - names :: DeclarationOf(d, d.components[name]).Some?
      invariant declarations.Keys == set name | name in d.components.Keys - names :: Sanitize(name)
      invariant NamesDistinct(d) ==> forall name | name in d.components.Keys - names ::
          declarations[Sanitize(name)] == DeclarationOf(d, d.components[name]).value
      decreases names
    {
      var name :| name in names;
      var declaration := DeclarationOf(d, d.components[name]);
      if declaration.None? {
        return None;
      }
      names := names - {name};
      declarations := declarations[Sanitize(name) := declaration.value];
    }
    return Some(declarations);
  }

  // ---------------------------------------------------------------- inhabitants

  /** `unfoldings` bounds how often a name is replaced by its declaration. */
  ghost predicate Inhabits(declarations: Declarations, unfoldings: nat, t: TsType, v: Json)
    decreases unfoldings, t
  {
    match t
    case Named(id) =>
      unfoldings > 0 && id in declarations && Declares(declarations, unfoldings - 1, declarations[id], v)
    case LiteralType(value) => SameInstance(v, value)
    case Union(types) => exists i | 0 <= i < |types| :: Inhabits(declarations, unfoldings, types[i], v)
    case ReadonlyArray(element) =>
      v.Arr? && forall i | 0 <= i < |v.items| :: Inhabits(declarations, unfoldings, element, v.items[i])
    case RecordOf(element) =>
      v.Obj? && forall key | key in v.fields :: Inhabits(declarations, unfoldings, element, v.fields[key])
    case Unknown => true
    case NumberType => v.Num?
    case BooleanType => v.Bool?
    case NullType => v.Null?
    case StringType => v.Str?
  }

  ghost predicate Declares(declarations: Declarations, unfoldings: nat, declaration: Declaration, v: Json)
    decreases unfoldings, declaration
  {
    match declaration
    case Alias(t) => Inhabits(declarations, unfoldings, t, v)
    case Interface(properties) =>
      v.Obj? && forall name | name in properties ::
        && (name in v.fields ==> Inhabits(declarations, unfoldings, properties[name].typ, v.fields[name]))
        && (properties[name].optional || name in v.fields)
  }

  /** The value has the type, under the declarations. */
  ghost predicate HasTsType(declarations: Declarations, t: TsType, v: Json) {
    exists unfoldings: nat :: Inhabits(declarations, unfoldings, t, v)
  }

  lemma {:induction false} MoreUnfoldings(declarations: Declarations, few: nat, many: nat, t: TsType, v: Json)
    requires few <= many && Inhabits(declarations, few, t, v)
    ensures Inhabits(declarations, many, t, v)
    decreases few, t
  {
    match t
    case Named(id) =>
      match declarations[id] {
        case Alias(u) => MoreUnfoldings(declarations, few - 1, many - 1, u, v);
        case Interface(properties) =>
          forall name | name in properties && name in v.fields
            ensures Inhabits(declarations, many - 1, properties[name].typ, v.fields[name])
          {
            MoreUnfoldings(declarations, few - 1, many - 1, properties[name].typ, v.fields[name]);
          }
      }
    case Union(types) =>
      var i :| 0 <= i < |types| && Inhabits(declarations, few, types[i], v);
      MoreUnfoldings(declarations, few, many, types[i], v);
    case ReadonlyArray(element) =>
      forall i | 0 <= i < |v.items| ensures Inhabits(declarations, many, element, v.items[i]) {
        MoreUnfoldings(declarations, few, many, element, v.items[i]);
      }
    case RecordOf(element) =>
      forall key | key in v.fields ensures Inhabits(declarations, many, element, v.fields[key]) {
        MoreUnfoldings(declarations, few, many, element, v.fields[key]);
      }
    case _ =>
  }
}
