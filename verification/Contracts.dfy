/**
 * The comparison of two whole contracts: component schemas, security schemes,
 * and operation by operation the parameters, the security requirements, the
 * request body and the responses.
 *
 * Parameters, bodies, responses and headers are given with their own references
 * already resolved.
 */
module Contracts {
  import opened Wrappers
  import opened Strings
  import opened Json
  import opened Documents
  import opened Compatibility
  import opened DepthFirst
  import opened SchemaComparison
  import opened CanonicalForms
  import opened Parameters

  /** The schemas of a body or response by media type, or of headers by name; a schema may be missing. */
  type Schemas = map<string, Option<NodeId>>

  datatype Body = Body(required: bool, content: Schemas)
  datatype Header = Header(name: string, schema: Option<NodeId>)
  datatype Reply = Reply(content: Schemas, headers: seq<Header>)

  /** The headers of a reply by their names in lower case; of two that differ in case only the last one stays. */
  function ByLowerName(headers: seq<Header>): Schemas {
    if headers == [] then map[]
    else
      var last := headers[|headers| - 1];
      ByLowerName(headers[..|headers| - 1])[Lower(last.name) := last.schema]
  }

  datatype Operation = Operation(
    method_: string,
    path: string,
    contractOnly: bool,
    shared: seq<Listed>,
    own: seq<Listed>,
    security: Option<seq<Alternative>>,
    body: Option<Body>,
    responses: map<string, Reply>)
  {
    /** The parameters of the operation: those of its path unless it has its own. */
    function Parameters(): map<ParameterKey, Parameter> {
      Merged(shared + own)
    }
  }

  datatype RawContract = RawContract(
    document: Document,
    schemas: set<string>,
    securitySchemes: map<string, Json>,
    security: seq<Alternative>,
    operations: map<string, Operation>)
  {
    predicate Known(id: Option<NodeId>) {
      id.Some? ==> id.value < |document.nodes|
    }

    predicate AllKnown(schemas: Schemas) {
      forall k | k in schemas :: Known(schemas[k])
    }

    predicate Fits(o: Operation) {
      && (forall k | k in o.Parameters() :: Known(o.Parameters()[k].schema))
      && (o.body.Some? ==> AllKnown(o.body.value.content))
      && (forall s | s in o.responses :: FitsReply(o.responses[s]))
    }

    predicate FitsReply(reply: Reply) {
      AllKnown(reply.content) && forall i | 0 <= i < |reply.headers| :: Known(reply.headers[i].schema)
    }

    /** An operation that says nothing of security is under that of the document. */
    function EffectiveSecurity(o: Operation): seq<Alternative> {
      if o.security.Some? then o.security.value else security
    }

    predicate Valid() {
      forall o | o in operations :: Fits(operations[o])
    }
  }

  type Contract = c: RawContract | c.Valid() witness RawContract(RawDocument([], map[], map[]), {}, map[], [], map[])

  datatype Breakage =
    | RemovedComponentSchemas(names: set<string>)
    | RemovedSecurityScheme
    | ChangedSecurityScheme
    | RemovedOperation
    | MovedOperation
    | RemovedParameters(keys: set<ParameterKey>)
    | NewRequiredParameters(keys: set<ParameterKey>)
    | ChangedSecurity
    | AddedRequiredBody
    | RemovedBody
    | BodyBecameRequired
    | RemovedMediaType
    | RemovedSuccessResponses(statuses: set<string>)
    | RemovedHeader
    | InSchema(failure: Failure)

  // ---------------------------------------------------------------- what it means to keep a contract

  /** The two contracts, and the interpreter's sort orders. */
  datatype Change = Change(
    baseline: Contract,
    current: Contract,
    orders: Orders)

  function Side(ch: Change, direction: Direction): Comparison {
    Comparison(ch.baseline.document, ch.current.document, direction)
  }

  /** No external reference of the two documents can be met a second time, in either direction. */
  predicate NoSecondMeeting(ch: Change) {
    OrderFree(Side(ch, Request)) && OrderFree(Side(ch, Response))
  }

  /** The schema pairs taken for compatible, per direction. */
  datatype Relations = Relations(request: set<Pair>, response: set<Pair>, strict: bool)

  function Of(r: Relations, direction: Direction): set<Pair> {
    if direction == Request then r.request else r.response
  }

  predicate SchemaKept(ch: Change, r: Relations, direction: Direction, b: Option<NodeId>, n: Option<NodeId>) {
    && ch.baseline.Known(b) && ch.current.Known(n)
    && EdgeHolds(Side(ch, direction), Of(r, direction), r.strict, (b, n))
  }

  predicate ParameterSchemasKept(ch: Change, r: Relations, b: Operation, n: Operation) {
    forall k | k in b.Parameters() && k in n.Parameters() ::
      SchemaKept(ch, r, Request, b.Parameters()[k].schema, n.Parameters()[k].schema)
  }

  function RequiredParameters(o: Operation): set<ParameterKey> {
    set k | k in o.Parameters() && o.Parameters()[k].required
  }

  predicate ParametersKept(ch: Change, r: Relations, b: Operation, n: Operation) {
    && b.Parameters().Keys <= n.Parameters().Keys
    && RequiredParameters(n) <= RequiredParameters(b)
    && ParameterSchemasKept(ch, r, b, n)
  }

  predicate MediaKept(ch: Change, r: Relations, direction: Direction, b: Schemas, n: Schemas) {
    forall m | m in b :: m in n && SchemaKept(ch, r, direction, b[m], n[m])
  }

  predicate BodyKept(ch: Change, r: Relations, b: Option<Body>, n: Option<Body>) {
    if b.None? then n.Some? ==> !n.value.required
    else
      && n.Some?
      && (n.value.required ==> b.value.required)
      && MediaKept(ch, r, Request, b.value.content, n.value.content)
  }

  predicate ResponseKept(ch: Change, r: Relations, b: Reply, n: Reply) {
    MediaKept(ch, r, Response, b.content, n.content) && HeadersKept(ch, r, b.headers, n.headers)
  }

  predicate HeadersKept(ch: Change, r: Relations, b: seq<Header>, n: seq<Header>) {
    AllHeadersKept(ch, r, b, ByLowerName(n))
  }

  predicate HeaderKept(ch: Change, r: Relations, b: Header, n: Schemas) {
    Lower(b.name) in n && SchemaKept(ch, r, Response, b.schema, n[Lower(b.name)])
  }

  predicate AllHeadersKept(ch: Change, r: Relations, b: seq<Header>, n: Schemas) {
    forall i | 0 <= i < |b| :: HeaderKept(ch, r, b[i], n)
  }

  predicate SecurityKept(ch: Change, b: Operation, n: Operation) {
    NormalizeSecurity(ch.orders, ch.baseline.EffectiveSecurity(b)) ==
    NormalizeSecurity(ch.orders, ch.current.EffectiveSecurity(n))
  }

  predicate IsSuccess(status: string) {
    status != "" && status[0] == '2'
  }

  predicate RepliesKept(ch: Change, r: Relations, b: map<string, Reply>, n: map<string, Reply>, statuses: set<string>)
    requires statuses <= b.Keys && statuses <= n.Keys
  {
    forall s | s in statuses :: ResponseKept(ch, r, b[s], n[s])
  }

  predicate ResponsesKept(ch: Change, r: Relations, b: map<string, Reply>, n: map<string, Reply>) {
    && (forall s | s in b && IsSuccess(s) :: s in n)
    && RepliesKept(ch, r, b, n, b.Keys * n.Keys)
  }

  /** A contract-only stub may be replaced by an implemented operation of any shape. */
  predicate Graduates(b: Operation, n: Operation) {
    b.contractOnly && !n.contractOnly
  }

  /** An operation of the baseline that is not a stub being implemented. */
  predicate Continues(ch: Change, o: string) {
    o in ch.baseline.operations && o in ch.current.operations
    && !Graduates(ch.baseline.operations[o], ch.current.operations[o])
  }

  predicate SurfaceKept(ch: Change, r: Relations, b: Operation, n: Operation) {
    && ParametersKept(ch, r, b, n)
    && SecurityKept(ch, b, n)
    && BodyKept(ch, r, b.body, n.body)
    && ResponsesKept(ch, r, b.responses, n.responses)
  }

  predicate OperationKept(ch: Change, r: Relations, b: Operation, n: Operation) {
    && (b.method_, b.path) == (n.method_, n.path)
    && (Graduates(b, n) || SurfaceKept(ch, r, b, n))
  }

  predicate SecuritySchemesKept(ch: Change) {
    forall s | s in ch.baseline.securitySchemes ::
      s in ch.current.securitySchemes && ch.current.securitySchemes[s] == ch.baseline.securitySchemes[s]
  }

  predicate OperationsKept(ch: Change, r: Relations) {
    forall o | o in ch.baseline.operations ::
      o in ch.current.operations && OperationKept(ch, r, ch.baseline.operations[o], ch.current.operations[o])
  }

  /** Every promise of the baseline is still made. */
  predicate ContractKept(ch: Change, r: Relations) {
    && ch.baseline.schemas <= ch.current.schemas
    && SecuritySchemesKept(ch)
    && OperationsKept(ch, r)
  }

  ghost function GreatestRelations(ch: Change, strict: bool): Relations {
    Relations(Greatest(Side(ch, Request), strict), Greatest(Side(ch, Response), strict), strict)
  }

  predicate Larger(small: Relations, large: Relations) {
    small.strict == large.strict && small.request <= large.request && small.response <= large.response
  }

  lemma OperationMonotone(ch: Change, small: Relations, large: Relations, b: Operation, n: Operation)
    requires Larger(small, large) && OperationKept(ch, small, b, n)
    ensures OperationKept(ch, large, b, n)
  {
  }

  lemma OneMoreHeader(ch: Change, small: Relations, large: Relations, done: seq<Header>, b: Header, n: Schemas)
    requires Larger(small, large) && AllHeadersKept(ch, small, done, n) && HeaderKept(ch, large, b, n)
    ensures AllHeadersKept(ch, large, done + [b], n)
  {
    forall i | 0 <= i < |done| ensures HeaderKept(ch, large, done[i], n) {
      assert HeaderKept(ch, small, done[i], n);
    }
  }

  lemma OneMoreReply(ch: Change, small: Relations, large: Relations, b: map<string, Reply>, n: map<string, Reply>,
                     done: set<string>, s: string)
    requires Larger(small, large) && done <= b.Keys && done <= n.Keys && s in b && s in n
    requires RepliesKept(ch, small, b, n, done) && ResponseKept(ch, large, b[s], n[s])
    ensures RepliesKept(ch, large, b, n, done + {s})
  {
    forall t | t in done ensures ResponseKept(ch, large, b[t], n[t]) {
      assert ResponseKept(ch, small, b[t], n[t]);
    }
  }

  /** The parts of a surface may be kept under relations that grew from one comparison to the next. */
  lemma SurfaceMonotone(ch: Change, first: Relations, second: Relations, third: Relations, b: Operation, n: Operation)
    requires Larger(first, second) && Larger(second, third)
    requires ParametersKept(ch, first, b, n) && BodyKept(ch, second, b.body, n.body)
    requires SecurityKept(ch, b, n)
    requires ResponsesKept(ch, third, b.responses, n.responses)
    ensures SurfaceKept(ch, third, b, n)
  {
    assert ParametersKept(ch, third, b, n);
    assert BodyKept(ch, third, b.body, n.body);
  }

  predicate Grounds(ch: Change, r: Relations) {
    Consistent(Side(ch, Request), r.request, r.strict) && Consistent(Side(ch, Response), r.response, r.strict)
  }

  lemma UnionConsistent(c: Comparison, x: set<Pair>, y: set<Pair>, strict: bool)
    requires Consistent(c, x, strict) && Consistent(c, y, strict)
    ensures Consistent(c, x + y, strict)
  {
    forall p | p in x + y ensures PairHolds(c, x + y, strict, p) {
      if p in x {
        assert PairHolds(c, x, strict, p);
        ChildrenMonotone(c, x, x + y, strict, p);
      } else {
        assert PairHolds(c, y, strict, p);
        ChildrenMonotone(c, y, x + y, strict, p);
      }
    }
  }

  // ---------------------------------------------------------------- the comparison as it runs

  /**
   * `found` collects the pairs that the comparisons without failures visited.
   * Every method returns false when a local reference could not be evaluated,
   * which abandons the whole comparison.
   */
  class ContractComparer {
    const ch: Change
    var failures: seq<Breakage>
    ghost var found: Relations

    constructor (ch: Change)
      ensures this.ch == ch && failures == [] && found == Relations({}, {}, NoSecondMeeting(ch))
    {
      this.ch := ch;
      failures := [];
      found := Relations({}, {}, NoSecondMeeting(ch));
    }

    ghost predicate Sound()
      reads this
    {
      Grounds(ch, found) && found.strict == NoSecondMeeting(ch)
    }

    method FailUnless(kept: bool, f: Breakage)
      modifies this`failures
      ensures old(failures) <= failures
      ensures failures == old(failures) <==> kept
    {
      if !kept {
        failures := failures + [f];
      }
    }

    method CompareSchema(direction: Direction, b: Option<NodeId>, n: Option<NodeId>) returns (ok: bool)
      requires Sound() && ch.baseline.Known(b) && ch.current.Known(n)
      modifies this
      ensures Sound() && Larger(old(found), found) && old(failures) <= failures
      ensures ok && failures == old(failures) ==> SchemaKept(ch, found, direction, b, n)
      ensures SchemaKept(ch, GreatestRelations(ch, true), direction, b, n) ==> ok && failures == old(failures)
    {
      var c := Side(ch, direction);
      var inner: seq<Failure>, visited: set<Pair>;
      ok, inner, visited := Compare(c, (b, n));
      if !ok {
        return;
      }
      if inner == [] {
        if direction == Request {
          UnionConsistent(c, found.request, visited, found.strict);
          found := Relations(found.request + visited, found.response, found.strict);
        } else {
          UnionConsistent(c, found.response, visited, found.strict);
          found := Relations(found.request, found.response + visited, found.strict);
        }
      }
      failures := failures + seq(|inner|, i requires 0 <= i < |inner| => InSchema(inner[i]));
    }

    /** Compares the schemas of all keys in both maps, in some order. */
    method CompareMedia(direction: Direction, b: Schemas, n: Schemas, missing: Breakage) returns (ok: bool)
      requires Sound() && ch.baseline.AllKnown(b) && ch.current.AllKnown(n)
      modifies this
      ensures Sound() && Larger(old(found), found) && old(failures) <= failures
      ensures ok && failures == old(failures) ==> MediaKept(ch, found, direction, b, n)
      ensures MediaKept(ch, GreatestRelations(ch, true), direction, b, n) ==> ok && failures == old(failures)
    {
      var keys := b.Keys;
      while keys != {}
        invariant keys <= b.Keys
        invariant Sound() && Larger(old(found), found) && old(failures) <= failures
        invariant failures == old(failures) ==>
            forall m | m in b.Keys - keys :: m in n && SchemaKept(ch, found, direction, b[m], n[m])
        invariant MediaKept(ch, GreatestRelations(ch, true), direction, b, n) ==> failures == old(failures)
        decreases keys
      {
        var m :| m in keys;
        keys := keys - {m};
        if m in n {
          ok := CompareSchema(direction, b[m], n[m]);
          if !ok {
            return;
          }
        } else {
          FailUnless(false, missing);
        }
      }
      return true;
    }

    method CompareParameterSchemas(b: Operation, n: Operation, baseline: map<ParameterKey, Parameter>,
                                   current: map<ParameterKey, Parameter>) returns (ok: bool)
      requires Sound() && ch.baseline.Fits(b) && ch.current.Fits(n)
      requires baseline == b.Parameters() && current == n.Parameters()
      modifies this
      ensures Sound() && Larger(old(found), found) && old(failures) <= failures
      ensures ok && failures == old(failures) ==> ParameterSchemasKept(ch, found, b, n)
      ensures ParameterSchemasKept(ch, GreatestRelations(ch, true), b, n) ==> ok && failures == old(failures)
    {
      var common := baseline.Keys * current.Keys;
      var keys := common;
      while keys != {}
        invariant keys <= common
        invariant Sound() && Larger(old(found), found) && old(failures) <= failures
        invariant failures == old(failures) ==>
            forall k | k in common - keys :: SchemaKept(ch, found, Request, baseline[k].schema, current[k].schema)
        invariant ParameterSchemasKept(ch, GreatestRelations(ch, true), b, n) ==> failures == old(failures)
        decreases keys
      {
        var k :| k in keys;
        keys := keys - {k};
        ok := CompareSchema(Request, baseline[k].schema, current[k].schema);
        if !ok {
          return;
        }
      }
      return true;
    }

    /** Parameters that went missing, and parameters that are required now. */
    method CompareParameterKeys(b: Operation, n: Operation)
      returns (baseline: map<ParameterKey, Parameter>, current: map<ParameterKey, Parameter>)
      modifies this`failures
      ensures baseline == b.Parameters() && current == n.Parameters()
      ensures old(failures) <= failures
      ensures failures == old(failures) <==>
              b.Parameters().Keys <= n.Parameters().Keys && RequiredParameters(n) <= RequiredParameters(b)
    {
      baseline := ParameterMap(b.shared, b.own);
      current := ParameterMap(n.shared, n.own);
      var removed := baseline.Keys - current.Keys;
      EmptyDifference(baseline.Keys, current.Keys);
      FailUnless(removed == {}, RemovedParameters(removed));
      var newlyRequired := RequiredParameters(n) - RequiredParameters(b);
      EmptyDifference(RequiredParameters(n), RequiredParameters(b));
      FailUnless(newlyRequired == {}, NewRequiredParameters(newlyRequired));
    }

    method CompareParameters(b: Operation, n: Operation) returns (ok: bool)
      requires Sound() && ch.baseline.Fits(b) && ch.current.Fits(n)
      modifies this
      ensures Sound() && Larger(old(found), found) && old(failures) <= failures
      ensures ok && failures == old(failures) ==> ParametersKept(ch, found, b, n)
      ensures ParametersKept(ch, GreatestRelations(ch, true), b, n) ==> ok && failures == old(failures)
    {
      var baseline, current := CompareParameterKeys(b, n);
      ok := CompareParameterSchemas(b, n, baseline, current);
    }

    method CompareBody(b: Option<Body>, n: Option<Body>) returns (ok: bool)
      requires Sound()
      requires b.Some? ==> ch.baseline.AllKnown(b.value.content)
      requires n.Some? ==> ch.current.AllKnown(n.value.content)
      modifies this
      ensures Sound() && Larger(old(found), found) && old(failures) <= failures
      ensures ok && failures == old(failures) ==> BodyKept(ch, found, b, n)
      ensures BodyKept(ch, GreatestRelations(ch, true), b, n) ==> ok && failures == old(failures)
    {
      if b.None? {
        FailUnless(n.Some? ==> !n.value.required, AddedRequiredBody);
        return true;
      }
      if n.None? {
        FailUnless(false, RemovedBody);
        return true;
      }
      FailUnless(n.value.required ==> b.value.required, BodyBecameRequired);
      ok := CompareMedia(Request, b.value.content, n.value.content, RemovedMediaType);
    }

    /** Every baseline header is looked up by its name in lower case. */
    method CompareHeaders(b: seq<Header>, n: seq<Header>) returns (ok: bool)
      requires Sound() && (forall i | 0 <= i < |b| :: ch.baseline.Known(b[i].schema))
      requires forall i | 0 <= i < |n| :: ch.current.Known(n[i].schema)
      modifies this
      ensures Sound() && Larger(old(found), found) && old(failures) <= failures
      ensures ok && failures == old(failures) ==> HeadersKept(ch, found, b, n)
      ensures HeadersKept(ch, GreatestRelations(ch, true), b, n) ==> ok && failures == old(failures)
    {
      var normalized := LowerNames(n);
      NormalizedKnown(ch.current, n);
      for i := 0 to |b|
        invariant Sound() && Larger(old(found), found) && old(failures) <= failures
        invariant failures == old(failures) ==> AllHeadersKept(ch, found, b[..i], normalized)
        invariant HeadersKept(ch, GreatestRelations(ch, true), b, n) ==> failures == old(failures)
      {
        assert HeadersKept(ch, GreatestRelations(ch, true), b, n) ==>
            HeaderKept(ch, GreatestRelations(ch, true), b[i], normalized);
        ghost var before := found;
        if Lower(b[i].name) in normalized {
          ok := CompareSchema(Response, b[i].schema, normalized[Lower(b[i].name)]);
          if !ok {
            return;
          }
        } else {
          FailUnless(false, RemovedHeader);
        }
        if failures == old(failures) {
          OneMoreHeader(ch, before, found, b[..i], b[i], normalized);
          assert b[..i + 1] == b[..i] + [b[i]];
        }
      }
      assert b[..|b|] == b;
      return true;
    }

    method CompareResponse(b: Reply, n: Reply) returns (ok: bool)
      requires Sound()
      requires ch.baseline.FitsReply(b) && ch.current.FitsReply(n)
      modifies this
      ensures Sound() && Larger(old(found), found) && old(failures) <= failures
      ensures ok && failures == old(failures) ==> ResponseKept(ch, found, b, n)
      ensures ResponseKept(ch, GreatestRelations(ch, true), b, n) ==> ok && failures == old(failures)
    {
      ok := CompareMedia(Response, b.content, n.content, RemovedMediaType);
      if !ok {
        return;
      }
      ok := CompareHeaders(b.headers, n.headers);
    }

    method CompareStatuses(b: map<string, Reply>, n: map<string, Reply>) returns (ok: bool)
      requires Sound()
      requires forall s | s in b :: ch.baseline.FitsReply(b[s])
      requires forall s | s in n :: ch.current.FitsReply(n[s])
      modifies this
      ensures Sound() && Larger(old(found), found) && old(failures) <= failures
      ensures ok && failures == old(failures) ==> RepliesKept(ch, found, b, n, b.Keys * n.Keys)
      ensures RepliesKept(ch, GreatestRelations(ch, true), b, n, b.Keys * n.Keys) ==> ok && failures == old(failures)
    {
      var common := b.Keys * n.Keys;
      var statuses := common;
      while statuses != {}
        invariant statuses <= common
        invariant Sound() && Larger(old(found), found) && old(failures) <= failures
        invariant failures == old(failures) ==> RepliesKept(ch, found, b, n, common - statuses)
        invariant RepliesKept(ch, GreatestRelations(ch, true), b, n, common) ==> failures == old(failures)
        decreases statuses
      {
        ghost var before, done := found, common - statuses;
        var s :| s in statuses;
        statuses := statuses - {s};
        ok := CompareResponse(b[s], n[s]);
        if !ok {
          return;
        }
        if failures == old(failures) {
          OneMoreReply(ch, before, found, b, n, done, s);
          assert common - statuses == done + {s};
        }
      }
      assert common - statuses == common;
      return true;
    }

    method CompareResponses(b: map<string, Reply>, n: map<string, Reply>) returns (ok: bool)
      requires Sound()
      requires forall s | s in b :: ch.baseline.FitsReply(b[s])
      requires forall s | s in n :: ch.current.FitsReply(n[s])
      modifies this
      ensures Sound() && Larger(old(found), found) && old(failures) <= failures
      ensures ok && failures == old(failures) ==> ResponsesKept(ch, found, b, n)
      ensures ResponsesKept(ch, GreatestRelations(ch, true), b, n) ==> ok && failures == old(failures)
    {
      var removed := set s | s in b && IsSuccess(s) && s !in n;
      FailUnless(removed == {}, RemovedSuccessResponses(removed));
      ok := CompareStatuses(b, n);
      if failures == old(failures) {
        assert forall s | s in b && IsSuccess(s) :: s !in removed;
      }
    }

    method CompareSecurity(b: Operation, n: Operation)
      modifies this`failures
      ensures old(failures) <= failures
      ensures failures == old(failures) <==> SecurityKept(ch, b, n)
    {
      var baseline := SortedAlternatives(ch.orders, ch.baseline.EffectiveSecurity(b));
      var current := SortedAlternatives(ch.orders, ch.current.EffectiveSecurity(n));
      FailUnless(baseline == current, ChangedSecurity);
    }

    method CompareSurface(b: Operation, n: Operation) returns (ok: bool)
      requires Sound() && ch.baseline.Fits(b) && ch.current.Fits(n)
      modifies this
      ensures Sound() && Larger(old(found), found) && old(failures) <= failures
      ensures ok && failures == old(failures) ==> SurfaceKept(ch, found, b, n)
      ensures SurfaceKept(ch, GreatestRelations(ch, true), b, n) ==> ok && failures == old(failures)
    {
      ok := CompareParameters(b, n);
      if !ok {
        return;
      }
      ghost var before := found;
      CompareSecurity(b, n);
      ok := CompareBody(b.body, n.body);
      if !ok {
        return;
      }
      ghost var between := found;
      ok := CompareResponses(b.responses, n.responses);
      if ok && failures == old(failures) {
        SurfaceMonotone(ch, before, between, found, b, n);
      }
    }

    method CompareOperation(o: string) returns (ok: bool)
      requires Sound() && o in ch.baseline.operations && o in ch.current.operations
      modifies this
      ensures Sound() && Larger(old(found), found) && old(failures) <= failures
      ensures ok && failures == old(failures) ==>
                OperationKept(ch, found, ch.baseline.operations[o], ch.current.operations[o])
      ensures OperationKept(ch, GreatestRelations(ch, true), ch.baseline.operations[o], ch.current.operations[o]) ==>
                ok && failures == old(failures)
    {
      var b, n := ch.baseline.operations[o], ch.current.operations[o];
      FailUnless((b.method_, b.path) == (n.method_, n.path), MovedOperation);
      if b.contractOnly && !n.contractOnly {
        return true;
      }
      ok := CompareSurface(b, n);
    }

    method CompareSecuritySchemes()
      modifies this`failures
      ensures old(failures) <= failures
      ensures failures == old(failures) <==> SecuritySchemesKept(ch)
    {
      var names := ch.baseline.securitySchemes.Keys;
      while names != {}
        invariant names <= ch.baseline.securitySchemes.Keys
        invariant old(failures) <= failures
        invariant failures == old(failures) <==>
                  forall s | s in ch.baseline.securitySchemes.Keys - names ::
                    s in ch.current.securitySchemes && ch.current.securitySchemes[s] == ch.baseline.securitySchemes[s]
        decreases names
      {
        var s :| s in names;
        names := names - {s};
        if s !in ch.current.securitySchemes {
          FailUnless(false, RemovedSecurityScheme);
        } else {
          FailUnless(ch.current.securitySchemes[s] == ch.baseline.securitySchemes[s], ChangedSecurityScheme);
        }
      }
    }

    method CompareOperations() returns (ok: bool)
      requires Sound()
      modifies this
      ensures Sound() && Larger(old(found), found) && old(failures) <= failures
      ensures ok && failures == old(failures) ==> OperationsKept(ch, found)
      ensures OperationsKept(ch, GreatestRelations(ch, true)) ==> ok && failures == old(failures)
    {
      var names := ch.baseline.operations.Keys;
      while names != {}
        invariant names <= ch.baseline.operations.Keys
        invariant Sound() && Larger(old(found), found) && old(failures) <= failures
        invariant failures == old(failures) ==>
            forall o | o in ch.baseline.operations.Keys - names ::
              && o in ch.current.operations
              && OperationKept(ch, found, ch.baseline.operations[o], ch.current.operations[o])
        invariant OperationsKept(ch, GreatestRelations(ch, true)) ==> failures == old(failures)
        decreases names
      {
        var o :| o in names;
        names := names - {o};
        if o in ch.current.operations {
          ghost var before := found;
          ok := CompareOperation(o);
          if !ok {
            return;
          }
          forall p | p in ch.baseline.operations && p in ch.current.operations
                     && OperationKept(ch, before, ch.baseline.operations[p], ch.current.operations[p])
            ensures OperationKept(ch, found, ch.baseline.operations[p], ch.current.operations[p])
          {
            OperationMonotone(ch, before, found, ch.baseline.operations[p], ch.current.operations[p]);
          }
        } else {
          FailUnless(false, RemovedOperation);
        }
      }
      return true;
    }

    method CompareContracts() returns (ok: bool)
      requires Sound()
      modifies this
      ensures Sound() && old(failures) <= failures
      ensures ok && failures == old(failures) ==> ContractKept(ch, found)
      ensures ContractKept(ch, GreatestRelations(ch, true)) ==> ok && failures == old(failures)
    {
      var removed := ch.baseline.schemas - ch.current.schemas;
      EmptyDifference(ch.baseline.schemas, ch.current.schemas);
      FailUnless(removed == {}, RemovedComponentSchemas(removed));
      CompareSecuritySchemes();
      ok := CompareOperations();
    }
  }

  method LowerNames(headers: seq<Header>) returns (r: Schemas)
    ensures r == ByLowerName(headers)
  {
    r := map[];
    for i := 0 to |headers|
      invariant r == ByLowerName(headers[..i])
    {
      assert headers[..i + 1][..i] == headers[..i];
      r := r[Lower(headers[i].name) := headers[i].schema];
    }
    assert headers[..|headers|] == headers;
  }

  lemma {:induction false} NormalizedKnown(contract: Contract, headers: seq<Header>)
    requires forall i | 0 <= i < |headers| :: contract.Known(headers[i].schema)
    ensures contract.AllKnown(ByLowerName(headers))
  {
    if headers != [] {
      NormalizedKnown(contract, headers[..|headers| - 1]);
    }
  }
}
