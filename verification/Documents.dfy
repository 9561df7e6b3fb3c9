/**
 * An OpenAPI document as a finite graph of schema nodes.
 *
 * Nodes are numbered in the order in which json.loads creates them, so the
 * number of a dictionary plays the part of Python's id() and a schema written
 * inside another has a larger number.  `pointers` gives, for each local
 * reference text that can be evaluated, the node it evaluates to.
 */
module Documents {
  import opened Wrappers
  import opened Json

  type NodeId = nat

  datatype Direction = Request | Response

  /** A list of alternatives under oneOf, anyOf or allOf; absent, null, or something else. */
  datatype Branches = NoBranches | NullBranches | NotAList | Alternatives(ids: seq<NodeId>)
  {
    /** dict.get reads a keyword that says null like one that is missing. */
    predicate Missing() {
      NoBranches? || NullBranches?
    }
  }

  /** additionalProperties: absent, a boolean, or a schema of its own. */
  datatype Additional = Unstated | Flag(allowed: bool) | Each(schema: NodeId)

  datatype Keywords = Keywords(
    typ: Option<Json>,
    format: Option<string>,
    enumeration: Option<seq<Json>>,
    constant: Option<Json>,
    oneOf: Branches,
    anyOf: Branches,
    allOf: Branches,
    properties: Option<map<string, NodeId>>,
    required: set<string>,
    additional: Additional,
    items: Option<NodeId>,
    readOnly: bool,
    writeOnly: bool)

  const NO_KEYWORDS := Keywords(None, None, None, None, NoBranches, NoBranches, NoBranches,
                                None, {}, Unstated, None, false, false)

  /** Schemas of one type, for examples. */
  const INTEGER := NO_KEYWORDS.(typ := Some(Str("integer")))
  const STRING := NO_KEYWORDS.(typ := Some(Str("string")))

  datatype Node =
    | Reference(ref: string)   // a dictionary whose only key is a string $ref
    | Schema(kw: Keywords)     // any other dictionary
    | Literal(value: Json)     // a value that is not a dictionary

  datatype RawDocument = RawDocument(
    nodes: seq<Node>,
    pointers: map<string, NodeId>,
    components: map<string, NodeId>)
  {
    predicate Nested(parent: NodeId, child: NodeId) {
      parent < child < |nodes| && child !in components.Values
    }

    predicate NestedBranches(parent: NodeId, b: Branches) {
      b.Alternatives? ==> forall i | 0 <= i < |b.ids| :: Nested(parent, b.ids[i])
    }

    predicate NestedKeywords(parent: NodeId, kw: Keywords) {
      && NestedBranches(parent, kw.oneOf)
      && NestedBranches(parent, kw.anyOf)
      && NestedBranches(parent, kw.allOf)
      && (forall name | name in Properties(kw) :: Nested(parent, Properties(kw)[name]))
      && (kw.additional.Each? ==> Nested(parent, kw.additional.schema))
      && (kw.items.Some? ==> Nested(parent, kw.items.value))
    }

    /** What holds of every parsed document: schemas are nested in one another as a tree. */
    predicate Valid() {
      && (forall ref | ref in pointers :: pointers[ref] < |nodes|)
      && (forall name | name in components :: components[name] < |nodes|)
      && (forall id | 0 <= id < |nodes| && nodes[id].Schema? :: NestedKeywords(id, nodes[id].kw))
    }
  }

  type Document = d: RawDocument | d.Valid() witness RawDocument([], map[], map[])

  function Properties(kw: Keywords): map<string, NodeId> {
    if kw.properties.Some? then kw.properties.value else map[]
  }

  /** The keywords of a dictionary node; a bare reference has none. */
  function KeywordsOf(n: Node): Keywords {
    if n.Schema? then n.kw else NO_KEYWORDS
  }

  predicate IsLocal(ref: string) {
    |ref| >= 2 && ref[..2] == "#/"
  }

  function ReferenceTexts(d: Document): set<string> {
    set id: NodeId | id < |d.nodes| && d.nodes[id].Reference? :: d.nodes[id].ref
  }

  /**
   * The node at which reference resolution stops, or None when a local
   * reference cannot be evaluated.  `followed` holds the texts already followed.
   */
  function Chase(d: Document, id: NodeId, followed: set<string>): (r: Option<NodeId>)
    requires id < |d.nodes|
    ensures r.Some? ==> r.value < |d.nodes|
    decreases ReferenceTexts(d) - followed
  {
    var n := d.nodes[id];
    if !n.Reference? || !IsLocal(n.ref) || n.ref in followed then Some(id)
    else if n.ref !in d.pointers then None
    else
      assert n.ref in ReferenceTexts(d);
      Chase(d, d.pointers[n.ref], followed + {n.ref})
  }

  function Target(d: Document, id: NodeId): (r: Option<NodeId>)
    requires id < |d.nodes|
    ensures r.Some? ==> r.value < |d.nodes|
  {
    Chase(d, id, {})
  }

  /** Reference resolution as it runs; it ends because each turn follows a text not followed before. */
  method Resolve(d: Document, start: NodeId) returns (r: Option<NodeId>)
    requires start < |d.nodes|
    ensures r == Target(d, start)
    ensures r.Some? && d.nodes[r.value].Reference? && IsLocal(d.nodes[r.value].ref) ==>
              d.nodes[r.value].ref in d.pointers
  {
    var id: NodeId := start;
    var followed: set<string> := {};
    while d.nodes[id].Reference? && IsLocal(d.nodes[id].ref) && d.nodes[id].ref !in followed
      invariant id < |d.nodes|
      invariant Chase(d, id, followed) == Target(d, start)
      invariant followed <= d.pointers.Keys
      decreases ReferenceTexts(d) - followed
    {
      var ref := d.nodes[id].ref;
      assert ref in ReferenceTexts(d);
      if ref !in d.pointers {
        return None;
      }
      followed := followed + {ref};
      id := d.pointers[ref];
    }
    return Some(id);
  }

  /** Following fewer texts beforehand changes nothing when the stop is explained without them. */
  lemma {:induction false} ChaseForgets(d: Document, id: NodeId, more: set<string>, fewer: set<string>, r: NodeId)
    requires id < |d.nodes| && fewer <= more
    requires Chase(d, id, more) == Some(r)
    requires d.nodes[r].Reference? && IsLocal(d.nodes[r].ref) && d.nodes[r].ref in fewer
    ensures Chase(d, id, fewer) == Some(r)
    decreases ReferenceTexts(d) - more
  {
    var n := d.nodes[id];
    if n.Reference? && IsLocal(n.ref) && n.ref !in more {
      assert n.ref in ReferenceTexts(d);
      ChaseForgets(d, d.pointers[n.ref], more + {n.ref}, fewer + {n.ref}, r);
    }
  }

  /** A chain that stops on a text it followed itself runs around the cycle back to its stop. */
  lemma {:induction false} ChaseCycle(d: Document, id: NodeId, followed: set<string>, r: NodeId)
    requires id < |d.nodes| && Chase(d, id, followed) == Some(r)
    requires d.nodes[r].Reference? && IsLocal(d.nodes[r].ref) && d.nodes[r].ref !in followed
    ensures d.nodes[r].ref in d.pointers
    ensures Chase(d, d.pointers[d.nodes[r].ref], {d.nodes[r].ref}) == Some(r)
    decreases ReferenceTexts(d) - followed
  {
    var q := d.nodes[id].ref;
    assert q in ReferenceTexts(d);
    if q == d.nodes[r].ref {
      ChaseForgets(d, d.pointers[q], followed + {q}, {q}, r);
    } else {
      ChaseCycle(d, d.pointers[q], followed + {q}, r);
    }
  }

  /** Resolution is idempotent, also when it stops inside a cycle made only of references. */
  lemma ResolveIdempotent(d: Document, id: NodeId)
    requires id < |d.nodes| && Target(d, id).Some?
    ensures Target(d, Target(d, id).value) == Target(d, id)
  {
    var r := Target(d, id).value;
    var n := d.nodes[r];
    if n.Reference? && IsLocal(n.ref) {
      ChaseCycle(d, id, {}, r);
      assert {n.ref} == {} + {n.ref};
    }
  }

  /** Every reference can be evaluated, and leads to something that is not a reference. */
  predicate Grounded(d: Document) {
    forall id: NodeId | id < |d.nodes| ::
      Target(d, id).Some? && !d.nodes[Target(d, id).value].Reference?
  }
}
