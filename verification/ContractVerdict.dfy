/**
 * What the verdict on two contracts means: exactly the kept promises, and
 * silence for additive revisions.
 */
module ContractVerdict {
  import opened Wrappers
  import opened Strings
  import opened Documents
  import opened Compatibility
  import opened CanonicalForms
  import opened Parameters
  import opened Contracts
  import opened ContractReach
  import opened Revisions

  lemma KeptMonotone(ch: Change, small: Relations, large: Relations)
    requires Larger(small, large) && ContractKept(ch, small)
    ensures ContractKept(ch, large)
  {
    forall o | o in ch.baseline.operations
      ensures OperationKept(ch, large, ch.baseline.operations[o], ch.current.operations[o])
    {
      OperationMonotone(ch, small, large, ch.baseline.operations[o], ch.current.operations[o]);
    }
  }

  /** The strict reading asks for more. */
  lemma StrictImpliesPlain(ch: Change, r: Relations)
    requires Grounds(ch, r) && ContractKept(ch, r)
    ensures Grounds(ch, r.(strict := false)) && ContractKept(ch, r.(strict := false))
  {
    forall direction, relation: set<Pair>, p | PairHolds(Side(ch, direction), relation, r.strict, p)
      ensures PairHolds(Side(ch, direction), relation, false, p)
    {
    }
    forall o | o in ch.baseline.operations
      ensures OperationKept(ch, r.(strict := false), ch.baseline.operations[o], ch.current.operations[o])
    {
      OperationIsPlain(ch, r, ch.baseline.operations[o], ch.current.operations[o]);
    }
  }

  lemma OperationIsPlain(ch: Change, r: Relations, b: Operation, n: Operation)
    requires OperationKept(ch, r, b, n)
    ensures OperationKept(ch, r.(strict := false), b, n)
  {
  }

  /**
   * Main result: the comparison of two contracts reports nothing exactly when
   * every promise is kept by the greatest compatible schema relations, provided
   * no external reference is met a second time.  Pairs that the compared places
   * reach suffice to justify it.
   */
  method FindBreakingChanges(ch: Change) returns (ok: bool, failures: seq<Breakage>, ghost found: Relations)
    ensures ok && failures == [] ==> !found.strict && Grounds(ch, found) && ContractKept(ch, found)
    ensures ContractKept(ch, GreatestRelations(ch, true)) ==> ok && failures == []
    ensures NoSecondMeeting(ch) ==> (ok && failures == [] <==> ContractKept(ch, GreatestRelations(ch, true)))
    ensures found.request <= ReachedPairs(ch, Request) && found.response <= ReachedPairs(ch, Response)
  {
    var comparer := new ContractComparer(ch);
    ok := comparer.CompareContracts();
    failures, found := comparer.failures, Trimmed(ch, comparer.found.(strict := false));
    if ok && failures == [] {
      StrictImpliesPlain(ch, comparer.found);
      TrimmedSuffices(ch, comparer.found.(strict := false));
      FoundIsGreatest(ch, comparer.found);
    }
  }

  lemma FoundIsGreatest(ch: Change, found: Relations)
    requires Grounds(ch, found) && ContractKept(ch, found)
    ensures ContractKept(ch, GreatestRelations(ch, found.strict))
  {
    ConsistentIncluded(Side(ch, Request), found.request, found.strict);
    ConsistentIncluded(Side(ch, Response), found.response, found.strict);
    KeptMonotone(ch, found, GreatestRelations(ch, found.strict));
  }

  // ---------------------------------------------------------------- additive revisions

  predicate AddsSchemas(b: Schemas, n: Schemas) {
    forall k | k in b :: k in n && n[k] == b[k]
  }

  predicate AddsParameters(b: map<ParameterKey, Parameter>, n: map<ParameterKey, Parameter>) {
    && (forall k | k in b :: k in n && n[k].schema == b[k].schema)
    && (forall k | k in n && n[k].required :: k in b && b[k].required)
  }

  /** Names count up to case. */
  predicate AddsHeaders(b: seq<Header>, n: seq<Header>) {
    forall i | 0 <= i < |b| :: HeaderStays(b[i], ByLowerName(n))
  }

  predicate HeaderStays(b: Header, n: Schemas) {
    Lower(b.name) in n && n[Lower(b.name)] == b.schema
  }

  ghost predicate AdditiveOperation(b: Operation, n: Operation) {
    && (b.method_, b.path) == (n.method_, n.path)
    && AddsParameters(b.Parameters(), n.Parameters())
    && (if b.body.None? then n.body.Some? ==> !n.body.value.required
        else n.body.Some? && (n.body.value.required ==> b.body.value.required)
             && AddsSchemas(b.body.value.content, n.body.value.content))
    && (forall s | s in b.responses ::
          && s in n.responses
          && AddsSchemas(b.responses[s].content, n.responses[s].content)
          && AddsHeaders(b.responses[s].headers, n.responses[s].headers))
  }

  ghost predicate SameSecurity(ch: Change, b: Operation, n: Operation) {
    Meaning(ch.baseline.EffectiveSecurity(b)) == Meaning(ch.current.EffectiveSecurity(n))
  }

  /** The schemas written in an operation are among those that its requests and its responses reach. */
  predicate Reaches(o: Operation, requests: set<NodeId>, responses: set<NodeId>) {
    && (forall k | k in o.Parameters() :: IsAmong(o.Parameters()[k].schema, requests))
    && (o.body.Some? ==> AllAmong(o.body.value.content, requests))
    && forall s | s in o.responses ::
         AllAmong(o.responses[s].content, responses) && HeadersAmong(o.responses[s].headers, responses)
  }

  predicate IsAmong(id: Option<NodeId>, ids: set<NodeId>) {
    id.Some? ==> id.value in ids
  }

  predicate AllAmong(schemas: Schemas, ids: set<NodeId>) {
    forall k | k in schemas :: IsAmong(schemas[k], ids)
  }

  predicate HeadersAmong(headers: seq<Header>, ids: set<NodeId>) {
    forall i | 0 <= i < |headers| :: IsAmong(headers[i].schema, ids)
  }

  /**
   * New operations, optional parameters and bodies, statuses, media types,
   * headers and schemas; optional properties where requests reach, any
   * properties and more required ones where responses reach.
   */
  ghost predicate AdditiveContract(ch: Change, requests: set<NodeId>, responses: set<NodeId>) {
    && Additive(ch.baseline.document, ch.current.document, Request, requests)
    && Additive(ch.baseline.document, ch.current.document, Response, responses)
    && ch.baseline.schemas <= ch.current.schemas
    && SecuritySchemesKept(ch)
    && forall o | o in ch.baseline.operations ::
         o in ch.current.operations && AdditiveOperation(ch.baseline.operations[o], ch.current.operations[o])
         && SameSecurity(ch, ch.baseline.operations[o], ch.current.operations[o])
         && Reaches(ch.baseline.operations[o], requests, responses)
  }

  predicate AdditiveSide(ch: Change, direction: Direction, ids: set<NodeId>) {
    Additive(ch.baseline.document, ch.current.document, direction, ids)
  }

  lemma AdditiveSchemaKept(ch: Change, direction: Direction, ids: set<NodeId>, id: Option<NodeId>)
    requires AdditiveSide(ch, direction, ids) && IsAmong(id, ids)
    ensures SchemaKept(ch, GreatestRelations(ch, true), direction, id, id)
  {
    if id.Some? {
      AdditiveIsCompatible(ch.baseline.document, ch.current.document, direction, ids, true, id.value);
    }
  }

  lemma AdditiveMediaKept(ch: Change, direction: Direction, ids: set<NodeId>, b: Schemas, n: Schemas)
    requires AdditiveSide(ch, direction, ids) && AllAmong(b, ids) && AddsSchemas(b, n)
    ensures MediaKept(ch, GreatestRelations(ch, true), direction, b, n)
  {
    forall m | m in b ensures SchemaKept(ch, GreatestRelations(ch, true), direction, b[m], n[m]) {
      AdditiveSchemaKept(ch, direction, ids, b[m]);
    }
  }

  lemma AdditiveHeadersKept(ch: Change, ids: set<NodeId>, b: seq<Header>, n: seq<Header>)
    requires AdditiveSide(ch, Response, ids) && HeadersAmong(b, ids) && AddsHeaders(b, n)
    ensures HeadersKept(ch, GreatestRelations(ch, true), b, n)
  {
    forall i | 0 <= i < |b| ensures HeaderKept(ch, GreatestRelations(ch, true), b[i], ByLowerName(n)) {
      assert HeaderStays(b[i], ByLowerName(n));
      AdditiveSchemaKept(ch, Response, ids, b[i].schema);
    }
  }

  lemma AdditiveBodyKept(ch: Change, requests: set<NodeId>, responses: set<NodeId>, b: Operation, n: Operation)
    requires AdditiveSide(ch, Request, requests) && AdditiveOperation(b, n) && Reaches(b, requests, responses)
    ensures BodyKept(ch, GreatestRelations(ch, true), b.body, n.body)
  {
    if b.body.Some? {
      AdditiveMediaKept(ch, Request, requests, b.body.value.content, n.body.value.content);
    }
  }

  lemma AdditiveResponsesKept(ch: Change, requests: set<NodeId>, responses: set<NodeId>, b: Operation, n: Operation)
    requires AdditiveSide(ch, Response, responses) && AdditiveOperation(b, n) && Reaches(b, requests, responses)
    ensures ResponsesKept(ch, GreatestRelations(ch, true), b.responses, n.responses)
  {
    forall s | s in b.responses
      ensures ResponseKept(ch, GreatestRelations(ch, true), b.responses[s], n.responses[s])
    {
      AdditiveMediaKept(ch, Response, responses, b.responses[s].content, n.responses[s].content);
      AdditiveHeadersKept(ch, responses, b.responses[s].headers, n.responses[s].headers);
    }
  }

  lemma AdditiveParametersKept(ch: Change, requests: set<NodeId>, responses: set<NodeId>, b: Operation, n: Operation)
    requires AdditiveSide(ch, Request, requests) && Reaches(b, requests, responses)
    requires AddsParameters(b.Parameters(), n.Parameters())
    ensures ParametersKept(ch, GreatestRelations(ch, true), b, n)
  {
    forall k | k in b.Parameters()
      ensures SchemaKept(ch, GreatestRelations(ch, true), Request, b.Parameters()[k].schema, n.Parameters()[k].schema)
    {
      AdditiveSchemaKept(ch, Request, requests, b.Parameters()[k].schema);
    }
  }

  lemma AdditiveOperationKept(ch: Change, requests: set<NodeId>, responses: set<NodeId>, o: string)
    requires AdditiveContract(ch, requests, responses) && AreTotal(ch.orders) && o in ch.baseline.operations
    ensures OperationKept(ch, GreatestRelations(ch, true), ch.baseline.operations[o], ch.current.operations[o])
  {
    var b, n := ch.baseline.operations[o], ch.current.operations[o];
    assert AdditiveOperation(b, n) && SameSecurity(ch, b, n) && Reaches(b, requests, responses);
    SecurityFormIsExact(ch.orders, ch.baseline.EffectiveSecurity(b), ch.current.EffectiveSecurity(n));
    AdditiveParametersKept(ch, requests, responses, b, n);
    AdditiveBodyKept(ch, requests, responses, b, n);
    AdditiveResponsesKept(ch, requests, responses, b, n);
    assert SurfaceKept(ch, GreatestRelations(ch, true), b, n);
  }

  /** Main result: nothing is reported for an additive revision. */
  lemma AdditiveContractIsKept(ch: Change, requests: set<NodeId>, responses: set<NodeId>)
    requires AdditiveContract(ch, requests, responses) && AreTotal(ch.orders)
    ensures ContractKept(ch, GreatestRelations(ch, true))
  {
    forall o | o in ch.baseline.operations
      ensures OperationKept(ch, GreatestRelations(ch, true), ch.baseline.operations[o], ch.current.operations[o])
    {
      AdditiveOperationKept(ch, requests, responses, o);
    }
  }
}
