/**
 * What the checks on single keywords decide, in terms of values: nothing that
 * narrows is let through, and nothing that only widens is reported.
 */
module KeywordChecks {
  import opened Wrappers
  import opened Json
  import opened Documents
  import opened Compatibility
  import opened Instances

  // ---------------------------------------------------------------- type

  predicate IsTypeName(t: string) {
    || t == "null" || t == "boolean" || t == "number" || t == "integer"
    || t == "string" || t == "array" || t == "object"
  }

  /** A value of the type and, but for integers being numbers, of no other. */
  function Typical(t: string): (v: Json)
    requires IsTypeName(t)
    ensures HasType(v, t) && forall u | HasType(v, u) :: u == t || (t == "integer" && u == "number")
  {
    if t == "null" then Null
    else if t == "boolean" then Bool(true)
    else if t == "number" then Num(0.5, true)
    else if t == "integer" then Num(1.0, false)
    else if t == "string" then Str("")
    else if t == "array" then Arr([])
    else Obj(map[])
  }

  /** Values of the types the one lists have types that the other lists. */
  ghost predicate TypesWithin(some: set<string>, others: set<string>) {
    forall v | TypeAccepts(Some(some), v) :: TypeAccepts(Some(others), v)
  }

  lemma TypesWithinIff(some: set<string>, others: set<string>)
    requires forall t | t in some :: IsTypeName(t)
    ensures TypesWithin(some, others) <==> forall t | t in some :: AcceptsType(others, t)
  {
    if TypesWithin(some, others) {
      forall t | t in some ensures AcceptsType(others, t) {
        var v := Typical(t);
        assert TypeAccepts(Some(some), v) && TypeAccepts(Some(others), v);
      }
    }
    if forall t | t in some :: AcceptsType(others, t) {
      forall v | TypeAccepts(Some(some), v) ensures TypeAccepts(Some(others), v) {
        var t :| t in some && HasType(v, t);
        if t !in others {
          assert HasType(v, "number");
        }
      }
    }
  }

  /**
   * Main result: a change of `type` between listed types passes if and only if no
   * value is lost: none that requests may carry, none that a reader does not know.
   */
  lemma TypeChangeDecided(b: set<string>, n: set<string>)
    requires forall t | t in b || t in n :: IsTypeName(t)
    ensures TypeKept(Some(b), Some(n), Request) <==> TypesWithin(b, n)
    ensures TypeKept(Some(b), Some(n), Response) <==> TypesWithin(n, b)
  {
    TypesWithinIff(b, n);
    TypesWithinIff(n, b);
  }

  /** A type that appears in a request, or disappears from a response, is reported; the other way round it is not. */
  lemma TypeAddedOrDropped(t: set<string>)
    ensures !TypeKept(None, Some(t), Request) && TypeKept(Some(t), None, Request)
    ensures TypeKept(None, Some(t), Response) && !TypeKept(Some(t), None, Response)
    ensures forall direction :: TypeKept(None, None, direction)
  {
  }

  /** What a `type` keyword lists: a text, or a list of texts; anything else lists nothing. */
  lemma ListedTypes(typ: Option<Json>)
    ensures forall t :: typ == Some(Str(t)) ==> TypeSet(typ) == Some({t})
    ensures typ.Some? && typ.value.Arr? && (forall i | 0 <= i < |typ.value.items| :: typ.value.items[i].Str?) ==>
              TypeSet(typ).Some? && forall t :: t in TypeSet(typ).value <==> Str(t) in typ.value.items
    ensures typ.Some? && typ.value.Arr? && (exists i | 0 <= i < |typ.value.items| :: !typ.value.items[i].Str?) ==>
              TypeSet(typ) == None
    ensures typ.None? || (!typ.value.Str? && !typ.value.Arr?) ==> TypeSet(typ) == None
  {
    if typ.Some? && typ.value.Arr? && forall i | 0 <= i < |typ.value.items| :: typ.value.items[i].Str? {
      var items := typ.value.items;
      forall t ensures t in TypeSet(typ).value <==> Str(t) in items {
        if Str(t) in items {
          var i :| 0 <= i < |items| && items[i] == Str(t);
          assert items[i].s == t;
        }
      }
    }
  }

  // ---------------------------------------------------------------- format

  /** Whatever the formats mean, values of the one format have the other. */
  ghost predicate FormatWithin(some: Option<string>, other: Option<string>) {
    forall formats: (string, Json) -> bool, v |
      some.Some? ==> formats(some.value, v) :: other.Some? ==> formats(other.value, v)
  }

  /** Main result: a change of format passes if and only if it loses nothing under any meaning of the formats. */
  lemma FormatChangeDecided(b: Option<string>, n: Option<string>)
    ensures FormatKept(b, n, Request) <==> FormatWithin(b, n)
    ensures FormatKept(b, n, Response) <==> FormatWithin(n, b)
  {
    FormatWithinIff(b, n);
    FormatWithinIff(n, b);
  }

  lemma FormatWithinIff(some: Option<string>, other: Option<string>)
    ensures FormatWithin(some, other) <==> other.None? || some == other
  {
    if other.Some? && some != other {
      var formats := (f: string, v: Json) => some.Some? && f == some.value;
      assert some.Some? ==> formats(some.value, Null);
      assert !formats(other.value, Null);
    }
  }

  // ---------------------------------------------------------------- enum

  lemma ValuesWithin(xs: seq<Json>, ys: seq<Json>)
    ensures Values(xs) <= Values(ys) <==> forall v | v in xs :: v in ys
  {
    assert forall v :: v in Values(xs) <==> v in xs;
    assert forall v :: v in Values(ys) <==> v in ys;
  }

  /** Main result: requests may still send every listed value, and responses send no other than before. */
  lemma EnumChangeDecided(b: Option<seq<Json>>, n: Option<seq<Json>>)
    ensures EnumKept(b, n, Request) <==>
            (n.None? || (b.Some? && forall v | v in b.value :: v in n.value))
    ensures EnumKept(b, n, Response) <==>
            (b.None? || (n.Some? && forall v | v in n.value :: v in b.value))
  {
    if b.Some? && n.Some? {
      ValuesWithin(b.value, n.value);
      ValuesWithin(n.value, b.value);
    }
  }

  /** Where the check passes, no value of the stating side is refused by the list of the other. */
  lemma EnumsLoseNothing(b: Option<seq<Json>>, n: Option<seq<Json>>, v: Json)
    ensures EnumKept(b, n, Request) && EnumAccepts(b, v) ==> EnumAccepts(n, v)
    ensures EnumKept(b, n, Response) && EnumAccepts(n, v) ==> EnumAccepts(b, v)
  {
    EnumChangeDecided(b, n);
    if EnumKept(b, n, Request) && EnumAccepts(b, v) {
      ListedStays(b, n, v);
    }
    if EnumKept(b, n, Response) && EnumAccepts(n, v) {
      ListedStays(n, b, v);
    }
  }

  lemma ListedStays(some: Option<seq<Json>>, others: Option<seq<Json>>, v: Json)
    requires others.None? || (some.Some? && forall x | x in some.value :: x in others.value)
    requires EnumAccepts(some, v)
    ensures EnumAccepts(others, v)
  {
    if others.Some? {
      var i :| 0 <= i < |some.value| && SameInstance(v, some.value[i]);
      assert some.value[i] in others.value;
      var j :| 0 <= j < |others.value| && others.value[j] == some.value[i];
      assert SameInstance(v, others.value[j]);
    }
  }

  // ---------------------------------------------------------------- the rest of a pair

  /** additionalProperties: only `false` forbids, and only what is newly forbidden, or newly allowed, is reported. */
  lemma UndeclaredDecided(c: Comparison, p: Pair)
    requires InRange(c, p)
    ensures var b, n := KeywordsAt(c.baseline, p.0).additional, KeywordsAt(c.current, p.1).additional;
            && (c.direction == Request ==> (AdditionalKept(c, p) <==> (n == Flag(false) ==> b == Flag(false))))
            && (c.direction == Response ==> (AdditionalKept(c, p) <==> (b == Flag(false) ==> n == Flag(false))))
  {
  }

  /** Alternatives stay absent, or stay a list of as many. */
  lemma AlternativesDecided(b: Branches, n: Branches)
    ensures BranchesKept(b, n) <==>
            match b
            case NoBranches => n.NoBranches? || n.NullBranches?
            case NullBranches => n.NoBranches? || n.NullBranches?
            case NotAList => false
            case Alternatives(ids) => n.Alternatives? && |n.ids| == |ids|
  {
  }

  /** Local references are those that start with "#/". */
  lemma LocalDecided(ref: string)
    ensures IsLocal(ref) <==> exists rest :: ref == "#/" + rest
  {
    if IsLocal(ref) {
      assert ref == "#/" + ref[2..];
    }
  }

  /** The number of references on the way. */
  function Steps(d: Document, id: NodeId, followed: set<string>): nat
    requires id < |d.nodes|
    decreases ReferenceTexts(d) - followed
  {
    var n := d.nodes[id];
    if !n.Reference? || !IsLocal(n.ref) || n.ref in followed || n.ref !in d.pointers then 0
    else
      assert n.ref in ReferenceTexts(d);
      1 + Steps(d, d.pointers[n.ref], followed + {n.ref})
  }

  /** The way to a schema is the same whatever was followed before. */
  lemma {:induction false} SameWay(d: Document, id: NodeId, some: set<string>, others: set<string>,
                                   t: NodeId, u: NodeId)
    requires id < |d.nodes| && Chase(d, id, some) == Some(t) && Chase(d, id, others) == Some(u)
    requires !d.nodes[t].Reference? && !d.nodes[u].Reference?
    ensures t == u && Steps(d, id, some) == Steps(d, id, others)
    decreases ReferenceTexts(d) - some
  {
    var n := d.nodes[id];
    if n.Reference? {
      assert n.ref in ReferenceTexts(d);
      SameWay(d, d.pointers[n.ref], some + {n.ref}, others + {n.ref}, t, u);
    }
  }

  /** The way from where `text` leads does not come to `text` again. */
  lemma {:induction false} NeverBack(d: Document, id: NodeId, followed: set<string>, text: string, t: NodeId)
    requires id < |d.nodes| && Chase(d, id, followed) == Some(t) && !d.nodes[t].Reference?
    requires text in d.pointers && Chase(d, d.pointers[text], {}) == Some(t)
    requires Steps(d, id, followed) <= Steps(d, d.pointers[text], {})
    ensures Chase(d, id, followed + {text}) == Some(t)
    decreases ReferenceTexts(d) - followed
  {
    var n := d.nodes[id];
    if n.Reference? {
      assert n.ref in ReferenceTexts(d);
      if n.ref == text {
        SameWay(d, d.pointers[text], followed + {text}, {}, t, t);
      } else {
        NeverBack(d, d.pointers[n.ref], followed + {n.ref}, text, t);
        assert followed + {n.ref} + {text} == followed + {text} + {n.ref};
      }
    }
  }

  /** Main result: a local reference leads to the schema to which the place it names leads. */
  lemma ReferenceFollowed(d: Document, id: NodeId, t: NodeId)
    requires id < |d.nodes| && d.nodes[id].Reference? && IsLocal(d.nodes[id].ref) && d.nodes[id].ref in d.pointers
    requires Target(d, d.pointers[d.nodes[id].ref]) == Some(t) && !d.nodes[t].Reference?
    ensures Target(d, id) == Some(t)
  {
    NeverBack(d, d.pointers[d.nodes[id].ref], {}, d.nodes[id].ref, t);
  }

  /** What is no local reference leads to itself, and a local one that names nothing nowhere. */
  lemma NothingToFollow(d: Document, id: NodeId)
    requires id < |d.nodes|
    ensures !d.nodes[id].Reference? || !IsLocal(d.nodes[id].ref) ==> Target(d, id) == Some(id)
    ensures d.nodes[id].Reference? && IsLocal(d.nodes[id].ref) && d.nodes[id].ref !in d.pointers ==>
              Target(d, id) == None
  {
  }
}
