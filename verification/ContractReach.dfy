/**
 * The places of two contracts whose schemas are compared, and the schema pairs
 * that these places reach: no others are needed to justify the verdict.
 */
module ContractReach {
  import opened Wrappers
  import opened Strings
  import opened Documents
  import opened Compatibility
  import opened Contracts
  import opened Reach

  ghost predicate IsParameterPlace(b: Operation, n: Operation, e: Edge) {
    exists k | k in b.Parameters() && k in n.Parameters() ::
      e == (b.Parameters()[k].schema, n.Parameters()[k].schema)
  }

  predicate IsMediaPlace(b: Schemas, n: Schemas, e: Edge) {
    exists m | m in b && m in n :: e == (b[m], n[m])
  }

  predicate IsHeaderPlace(b: seq<Header>, n: Schemas, e: Edge) {
    exists i | 0 <= i < |b| && Lower(b[i].name) in n :: e == (b[i].schema, n[Lower(b[i].name)])
  }

  ghost predicate IsReplyPlace(b: Reply, n: Reply, e: Edge) {
    IsMediaPlace(b.content, n.content, e) || IsHeaderPlace(b.headers, ByLowerName(n.headers), e)
  }

  ghost predicate IsRequestPlace(b: Operation, n: Operation, e: Edge) {
    || IsParameterPlace(b, n, e)
    || (b.body.Some? && n.body.Some? && IsMediaPlace(b.body.value.content, n.body.value.content, e))
  }

  ghost predicate IsResponsePlace(b: Operation, n: Operation, e: Edge) {
    exists s | s in b.responses && s in n.responses :: IsReplyPlace(b.responses[s], n.responses[s], e)
  }

  /** A place of an operation that continues. */
  ghost predicate IsPlace(ch: Change, direction: Direction, e: Edge) {
    exists o | Continues(ch, o) :: IsPlaceOf(ch, direction, o, e)
  }

  ghost predicate IsPlaceOf(ch: Change, direction: Direction, o: string, e: Edge)
    requires Continues(ch, o)
  {
    match direction
    case Request => IsRequestPlace(ch.baseline.operations[o], ch.current.operations[o], e)
    case Response => IsResponsePlace(ch.baseline.operations[o], ch.current.operations[o], e)
  }

  ghost function Places(ch: Change, direction: Direction): iset<Edge> {
    iset e: Edge | IsPlace(ch, direction, e)
  }

  ghost function ReachedPairs(ch: Change, direction: Direction): set<Pair> {
    Reached(Side(ch, direction), Places(ch, direction))
  }

  /** What is left of the relations within reach. */
  ghost function Trimmed(ch: Change, r: Relations): Relations {
    Relations(r.request * ReachedPairs(ch, Request), r.response * ReachedPairs(ch, Response), r.strict)
  }

  lemma TrimmedPlace(ch: Change, r: Relations, direction: Direction, b: Option<NodeId>, n: Option<NodeId>)
    requires SchemaKept(ch, r, direction, b, n) && (b, n) in Places(ch, direction)
    ensures SchemaKept(ch, Trimmed(ch, r), direction, b, n)
  {
    var c := Side(ch, direction);
    forall p | LeadsTo(c, (b, n), p) ensures p in ReachedPairs(ch, direction) {
      PlacesReach(c, Places(ch, direction), (b, n), p);
    }
    TrimmedEdge(c, Places(ch, direction), Of(r, direction), r.strict, (b, n));
  }

  lemma TrimmedMedia(ch: Change, r: Relations, direction: Direction, b: Schemas, n: Schemas)
    requires MediaKept(ch, r, direction, b, n) && forall e | IsMediaPlace(b, n, e) :: e in Places(ch, direction)
    ensures MediaKept(ch, Trimmed(ch, r), direction, b, n)
  {
    forall m | m in b ensures SchemaKept(ch, Trimmed(ch, r), direction, b[m], n[m]) {
      assert IsMediaPlace(b, n, (b[m], n[m]));
      TrimmedPlace(ch, r, direction, b[m], n[m]);
    }
  }

  lemma TrimmedHeaders(ch: Change, r: Relations, b: seq<Header>, n: seq<Header>)
    requires HeadersKept(ch, r, b, n) && forall e | IsHeaderPlace(b, ByLowerName(n), e) :: e in Places(ch, Response)
    ensures HeadersKept(ch, Trimmed(ch, r), b, n)
  {
    forall i | 0 <= i < |b| ensures HeaderKept(ch, Trimmed(ch, r), b[i], ByLowerName(n)) {
      assert HeaderKept(ch, r, b[i], ByLowerName(n));
      var e := (b[i].schema, ByLowerName(n)[Lower(b[i].name)]);
      assert IsHeaderPlace(b, ByLowerName(n), e);
      TrimmedPlace(ch, r, Response, e.0, e.1);
    }
  }

  lemma TrimmedResponses(ch: Change, r: Relations, o: string)
    requires Continues(ch, o)
    requires ResponsesKept(ch, r, ch.baseline.operations[o].responses, ch.current.operations[o].responses)
    ensures ResponsesKept(ch, Trimmed(ch, r), ch.baseline.operations[o].responses, ch.current.operations[o].responses)
  {
    var b, n := ch.baseline.operations[o], ch.current.operations[o];
    forall s | s in b.responses && s in n.responses
      ensures ResponseKept(ch, Trimmed(ch, r), b.responses[s], n.responses[s])
    {
      assert ResponseKept(ch, r, b.responses[s], n.responses[s]);
      forall e | IsReplyPlace(b.responses[s], n.responses[s], e) ensures e in Places(ch, Response) {
        assert IsPlaceOf(ch, Response, o, e);
      }
      TrimmedMedia(ch, r, Response, b.responses[s].content, n.responses[s].content);
      TrimmedHeaders(ch, r, b.responses[s].headers, n.responses[s].headers);
    }
  }

  lemma TrimmedRequests(ch: Change, r: Relations, o: string)
    requires Continues(ch, o)
    requires ParametersKept(ch, r, ch.baseline.operations[o], ch.current.operations[o])
    requires BodyKept(ch, r, ch.baseline.operations[o].body, ch.current.operations[o].body)
    ensures ParametersKept(ch, Trimmed(ch, r), ch.baseline.operations[o], ch.current.operations[o])
    ensures BodyKept(ch, Trimmed(ch, r), ch.baseline.operations[o].body, ch.current.operations[o].body)
  {
    var b, n := ch.baseline.operations[o], ch.current.operations[o];
    forall e | IsRequestPlace(b, n, e) ensures e in Places(ch, Request) {
      assert IsPlaceOf(ch, Request, o, e);
    }
    forall k | k in b.Parameters() && k in n.Parameters()
      ensures SchemaKept(ch, Trimmed(ch, r), Request, b.Parameters()[k].schema, n.Parameters()[k].schema)
    {
      assert IsParameterPlace(b, n, (b.Parameters()[k].schema, n.Parameters()[k].schema));
      TrimmedPlace(ch, r, Request, b.Parameters()[k].schema, n.Parameters()[k].schema);
    }
    if b.body.Some? {
      TrimmedMedia(ch, r, Request, b.body.value.content, n.body.value.content);
    }
  }

  lemma TrimmedOperation(ch: Change, r: Relations, o: string)
    requires o in ch.baseline.operations && o in ch.current.operations
    requires OperationKept(ch, r, ch.baseline.operations[o], ch.current.operations[o])
    ensures OperationKept(ch, Trimmed(ch, r), ch.baseline.operations[o], ch.current.operations[o])
  {
    if Continues(ch, o) {
      TrimmedRequests(ch, r, o);
      TrimmedResponses(ch, r, o);
    }
  }

  /** Main result: the pairs within reach of the compared places justify the verdict on the contracts. */
  lemma TrimmedSuffices(ch: Change, r: Relations)
    requires Grounds(ch, r) && ContractKept(ch, r)
    ensures Grounds(ch, Trimmed(ch, r)) && ContractKept(ch, Trimmed(ch, r))
  {
    TrimmedConsistent(Side(ch, Request), Places(ch, Request), r.request, r.strict);
    TrimmedConsistent(Side(ch, Response), Places(ch, Response), r.response, r.strict);
    forall o | o in ch.baseline.operations
      ensures OperationKept(ch, Trimmed(ch, r), ch.baseline.operations[o], ch.current.operations[o])
    {
      TrimmedOperation(ch, r, o);
    }
  }
}
