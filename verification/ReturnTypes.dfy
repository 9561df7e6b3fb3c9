/**
 * The return type of a generated client function.  The text of a schema's type
 * is qualified with the namespace that holds the declared types when it is one
 * bare identifier, and is written as it stands otherwise; the client file
 * imports nothing but that namespace.
 */
module ReturnTypes {
  import opened Wrappers
  import opened Json
  import opened Documents
  import opened TypeScript

  // ---------------------------------------------------------------- the text of a type

  function JoinBars(parts: seq<string>): string {
    if parts == [] then ""
    else if |parts| == 1 then parts[0]
    else parts[0] + (" | " + JoinBars(parts[1..]))
  }

  /** The text of a type; `dump` is json.dumps. */
  function Print(t: TsType, dump: Json -> string): string {
    match t
    case Named(id) => id
    case LiteralType(value) => dump(value)
    case Union(types) => JoinBars(seq(|types|, i requires 0 <= i < |types| => Print(types[i], dump)))
    case ReadonlyArray(element) => "ReadonlyArray<" + (Print(element, dump) + ">")
    case RecordOf(element) => "Record<string, " + (Print(element, dump) + ">")
    case Unknown => "unknown"
    case NumberType => "number"
    case BooleanType => "boolean"
    case NullType => "null"
    case StringType => "string"
  }

  /** [A-Za-z_$][A-Za-z0-9_$]*, matched in full. */
  predicate IsIdentifier(s: string) {
    s != "" && IsIdentifierStart(s[0]) && forall c | c in s :: IsIdentifierPart(c)
  }

  /** What is known of json.dumps: its words, and that nothing else it writes is an identifier. */
  ghost predicate DumpsJson(dump: Json -> string) {
    && dump(Null) == "null" && dump(Bool(true)) == "true" && dump(Bool(false)) == "false"
    && forall j: Json | !j.Null? && !j.Bool? :: !IsIdentifier(dump(j))
  }

  // ---------------------------------------------------------------- what is emitted, and what it means

  datatype Written =
    | Qualified(id: string)      // Models.id
    | Verbatim(typ: TsType)

  function Write(t: TsType, dump: Json -> string): Written {
    var text := Print(t, dump);
    if text != "void" && text != "unknown" && IsIdentifier(text) then Qualified(text) else Verbatim(t)
  }

  /** No declared type is named, so the text means the same in a file that does not import them. */
  predicate NameFree(t: TsType) {
    match t
    case Named(_) => false
    case Union(types) => forall i | 0 <= i < |types| :: NameFree(types[i])
    case ReadonlyArray(element) => NameFree(element)
    case RecordOf(element) => NameFree(element)
    case _ => true
  }

  predicate IsSingle(t: TsType) {
    t.Union? && |t.types| == 1
  }

  /** A union of one is that one. */
  function Core(t: TsType): (core: TsType)
    ensures !IsSingle(core)
  {
    if IsSingle(t) then Core(t.types[0]) else t
  }

  /** The type that the client file reads, or None where it names something that is not declared there. */
  function Denoted(declarations: Declarations, e: Written): Option<TsType> {
    match e
    case Qualified(id) => if id in declarations then Some(Named(id)) else None
    case Verbatim(t) => if NameFree(t) then Some(Core(t)) else None
  }

  /** Types whose text survives: declared names, unknown, and compounds of built-in types. */
  predicate Survives(declarations: Declarations, t: TsType) {
    match Core(t)
    case Named(id) => id in declarations && id != "void" && id != "unknown"
    case Unknown => true
    case LiteralType(value) => !value.Null? && !value.Bool?
    case Union(types) => NameFree(Core(t))
    case ReadonlyArray(element) => NameFree(element)
    case RecordOf(element) => NameFree(element)
    case _ => false
  }

  predicate WellNamed(t: TsType) {
    Core(t).Named? ==> IsIdentifier(Core(t).id)
  }

  lemma PrintCore(t: TsType, dump: Json -> string)
    ensures Print(t, dump) == Print(Core(t), dump)
  {
    if IsSingle(t) {
      assert Print(t, dump) == Print(t.types[0], dump);
      PrintCore(t.types[0], dump);
    }
  }

  lemma CoreNameFree(t: TsType)
    ensures NameFree(t) <==> NameFree(Core(t))
  {
    if IsSingle(t) {
      CoreNameFree(t.types[0]);
    }
  }

  lemma BarsAreNoIdentifier(parts: seq<string>)
    requires |parts| != 1
    ensures !IsIdentifier(JoinBars(parts))
  {
    if parts != [] {
      var text := JoinBars(parts);
      assert text[|parts[0]|] == ' ' && text[|parts[0]|] in text;
    }
  }

  lemma BracketsAreNoIdentifier(before: string, inside: string)
    ensures !IsIdentifier(before + (inside + ">"))
  {
    var text := before + (inside + ">");
    assert text[|text| - 1] == '>' && text[|text| - 1] in text;
  }

  /** The text is an identifier for names and for the bare words alone. */
  lemma PrintedIdentifiers(t: TsType, dump: Json -> string)
    requires DumpsJson(dump) && !IsSingle(t) && (t.Named? ==> IsIdentifier(t.id))
    ensures IsIdentifier(Print(t, dump)) <==>
            t.Named? || t.Unknown? || t.NumberType? || t.BooleanType? || t.NullType? || t.StringType?
            || (t.LiteralType? && (t.value.Null? || t.value.Bool?))
  {
    match t
    case Union(types) =>
      BarsAreNoIdentifier(seq(|types|, i requires 0 <= i < |types| => Print(types[i], dump)));
    case ReadonlyArray(element) =>
      BracketsAreNoIdentifier("ReadonlyArray<", Print(element, dump));
    case RecordOf(element) =>
      BracketsAreNoIdentifier("Record<string, ", Print(element, dump));
    case LiteralType(value) =>
      if value.Bool? {
        assert value == Bool(true) || value == Bool(false);
      }
    case _ =>
  }

  /** Main result: the emitted return type means the type of the schema if and only if that type survives. */
  lemma DenotedIffSurvives(declarations: Declarations, t: TsType, dump: Json -> string)
    requires DumpsJson(dump) && WellNamed(t)
    ensures Denoted(declarations, Write(t, dump)) == Some(Core(t)) <==> Survives(declarations, t)
  {
    PrintCore(t, dump);
    CoreNameFree(t);
    PrintedIdentifiers(Core(t), dump);
  }

  // ---------------------------------------------------------------- what does not survive

  /** A text, number or boolean schema is emitted as a name that no component declares. */
  lemma BareWordUndeclared(declarations: Declarations, dump: Json -> string)
    requires DumpsJson(dump) && "string" !in declarations
    ensures Write(StringType, dump) == Qualified("string") && Denoted(declarations, Write(StringType, dump)) == None
  {
  }

  /** Within a compound type a component is named without the namespace. */
  lemma NameInArrayUndeclared(declarations: Declarations, id: string, dump: Json -> string)
    ensures Write(ReadonlyArray(Named(id)), dump) == Verbatim(ReadonlyArray(Named(id)))
    ensures Denoted(declarations, Write(ReadonlyArray(Named(id)), dump)) == None
  {
    BracketsAreNoIdentifier("ReadonlyArray<", id);
    assert Print(ReadonlyArray(Named(id)), dump) == "ReadonlyArray<" + (Print(Named(id), dump) + ">");
    assert Print(ReadonlyArray(Named(id)), dump)[0] == 'R';
    assert !NameFree(Named(id));
  }

  // ---------------------------------------------------------------- types of schemas

  lemma {:induction false} KeptPartsOnly(s: string)
    ensures forall c | c in KeepIdentifierParts(s) :: IsIdentifierPart(c)
  {
    if s != "" {
      KeptPartsOnly(s[1..]);
    }
  }

  lemma SanitizedIsIdentifier(s: string)
    ensures IsIdentifier(Sanitize(s))
  {
    KeptPartsOnly(s);
  }

  /** Types of schemas are well named. */
  lemma {:induction false} TypesAreWellNamed(d: Document, id: NodeId)
    requires id < |d.nodes| && TypeOf(d, id).Some?
    ensures WellNamed(TypeOf(d, id).value)
    decreases |d.nodes| - id
  {
    match d.nodes[id]
    case Reference(ref) => SanitizedIsIdentifier(LastSegment(ref));
    case Schema(kw) =>
      assert d.NestedKeywords(id, kw);
      if kw.constant.None? && kw.enumeration.None? {
        var b := if !kw.anyOf.NoBranches? then kw.anyOf else kw.oneOf;
        if b.Alternatives? && |b.ids| == 1 {
          if UnionOf(d, id, b).Some? {
            assert Some(UnionOf(d, id, b).value.types[0]) == TypeOf(d, b.ids[0]);
            TypesAreWellNamed(d, b.ids[0]);
          }
        }
      }
    case Literal(_) =>
  }

  lemma {:induction false} CoreInhabited(declarations: Declarations, unfoldings: nat, t: TsType, v: Json)
    ensures Inhabits(declarations, unfoldings, Core(t), v) <==> Inhabits(declarations, unfoldings, t, v)
    decreases t
  {
    if IsSingle(t) {
      CoreInhabited(declarations, unfoldings, t.types[0], v);
    }
  }

  lemma CoreHasSameValues(declarations: Declarations, t: TsType, v: Json)
    ensures HasTsType(declarations, Core(t), v) <==> HasTsType(declarations, t, v)
  {
    forall unfoldings: nat
      ensures Inhabits(declarations, unfoldings, Core(t), v) <==> Inhabits(declarations, unfoldings, t, v)
    {
      CoreInhabited(declarations, unfoldings, t, v);
    }
  }

  // ---------------------------------------------------------------- the texts themselves

  /** How compound types are written. */
  lemma PrintedForms(dump: Json -> string)
    ensures Print(Union([Named("Foo"), NullType]), dump) == "Foo | null"
    ensures Print(ReadonlyArray(Named("Foo")), dump) == "ReadonlyArray<Foo>"
    ensures Print(RecordOf(Unknown), dump) == "Record<string, unknown>"
  {
    var types := [Named("Foo"), NullType];
    var parts := seq(|types|, i requires 0 <= i < |types| => Print(types[i], dump));
    assert parts == ["Foo", "null"] && parts[1..] == ["null"];
    assert JoinBars(parts) == "Foo" + (" | " + "null");
  }

  lemma {:induction false} PartsAreKept(s: string)
    requires forall c | c in s :: IsIdentifierPart(c)
    ensures KeepIdentifierParts(s) == s
  {
    if s != "" {
      PartsAreKept(s[1..]);
    }
  }

  /** Identifiers stay as they are, digits in front get an underscore, and nothing else is kept. */
  lemma SanitizeLeavesIdentifiers(s: string)
    ensures IsIdentifier(s) ==> Sanitize(s) == s
    ensures s != "" && '0' <= s[0] <= '9' && (forall c | c in s :: IsIdentifierPart(c)) ==> Sanitize(s) == "_" + s
  {
    if forall c | c in s :: IsIdentifierPart(c) {
      PartsAreKept(s);
    }
  }

  lemma {:induction false} KeepDrops(before: string, c: char, after: string)
    requires !IsIdentifierPart(c)
    ensures KeepIdentifierParts(before + ([c] + after)) == KeepIdentifierParts(before + after)
  {
    var with, without := before + ([c] + after), before + after;
    if before == "" {
      assert with[0] == c && with[1..] == after && without == after;
    } else {
      assert with[0] == without[0] == before[0];
      assert with[1..] == before[1..] + ([c] + after) && without[1..] == before[1..] + after;
      KeepDrops(before[1..], c, after);
    }
  }

  /** A character that no identifier holds is dropped wherever it stands. */
  lemma SanitizeDrops(before: string, c: char, after: string)
    requires !IsIdentifierPart(c)
    ensures Sanitize(before + ([c] + after)) == Sanitize(before + after)
  {
    KeepDrops(before, c, after);
  }
}
