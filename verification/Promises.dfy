/**
 * What it takes to keep a contract, on the two contracts as they are written:
 * nothing that clients rely on goes, nothing new is demanded of them, and the
 * schemas at all compared places stay compatible.
 */
module Promises {
  import opened Wrappers
  import opened Strings
  import opened Documents
  import opened Compatibility
  import opened CanonicalForms
  import opened Parameters
  import opened Contracts
  import opened ContractReach

  // ---------------------------------------------------------------- security

  /** The operation is under this requirement: its own, or that of the document when it states none. */
  predicate IsUnder(contract: Contract, o: Operation, requirement: seq<Alternative>) {
    o.security == Some(requirement) || (o.security == None && requirement == contract.security)
  }

  ghost predicate SecurityStays(ch: Change, b: Operation, n: Operation) {
    forall x, y | IsUnder(ch.baseline, b, x) && IsUnder(ch.current, n, y) :: Meaning(x) == Meaning(y)
  }

  lemma UnderOne(contract: Contract, o: Operation)
    ensures forall x :: IsUnder(contract, o, x) <==> x == contract.EffectiveSecurity(o)
  {
  }

  lemma SecurityDecided(ch: Change, b: Operation, n: Operation)
    requires AreTotal(ch.orders)
    ensures SecurityKept(ch, b, n) <==> SecurityStays(ch, b, n)
  {
    UnderOne(ch.baseline, b);
    UnderOne(ch.current, n);
    SecurityFormIsExact(ch.orders, ch.baseline.EffectiveSecurity(b), ch.current.EffectiveSecurity(n));
  }

  // ---------------------------------------------------------------- parameters

  predicate HasParameter(o: Operation, key: ParameterKey) {
    Mentioned(o.shared, key) || Mentioned(o.own, key)
  }

  /** The parameter in force: the last own one, or else the last shared one. */
  predicate IsInForce(o: Operation, key: ParameterKey, p: Parameter) {
    if Mentioned(o.own, key) then IsLast(o.own, key, p) else IsLast(o.shared, key, p)
  }

  ghost predicate Demands(o: Operation, key: ParameterKey) {
    exists p :: IsInForce(o, key, p) && p.required
  }

  lemma InForceIsMerged(o: Operation, key: ParameterKey)
    ensures key in o.Parameters() <==> HasParameter(o, key)
    ensures forall p :: IsInForce(o, key, p) <==> key in o.Parameters() && o.Parameters()[key] == p
  {
    OwnHidesShared(o.shared, o.own);
    forall p ensures IsInForce(o, key, p) <==> key in o.Parameters() && o.Parameters()[key] == p {
      if IsInForce(o, key, p) {
        assert HasParameter(o, key);
        LastIsUnique(if Mentioned(o.own, key) then o.own else o.shared, key, p, o.Parameters()[key]);
      }
    }
  }

  lemma LastIsUnique(entries: seq<Listed>, key: ParameterKey, p: Parameter, q: Parameter)
    requires IsLast(entries, key, p) && IsLast(entries, key, q)
    ensures p == q
  {
    var i :| 0 <= i < |entries| && HasKey(entries[i], key) && entries[i].parameter == p
             && forall j | i < j < |entries| :: !HasKey(entries[j], key);
    var k :| 0 <= k < |entries| && HasKey(entries[k], key) && entries[k].parameter == q
             && forall j | k < j < |entries| :: !HasKey(entries[j], key);
    assert i == k;
  }

  ghost predicate ParametersStay(b: Operation, n: Operation) {
    && (forall key | HasParameter(b, key) :: HasParameter(n, key))
    && (forall key | Demands(n, key) :: Demands(b, key))
  }

  lemma ParametersDecided(b: Operation, n: Operation)
    ensures b.Parameters().Keys <= n.Parameters().Keys && RequiredParameters(n) <= RequiredParameters(b) <==>
            ParametersStay(b, n)
  {
    forall key
      ensures HasParameter(b, key) <==> key in b.Parameters()
      ensures HasParameter(n, key) <==> key in n.Parameters()
      ensures Demands(b, key) <==> key in RequiredParameters(b)
      ensures Demands(n, key) <==> key in RequiredParameters(n)
    {
      DemandedIsRequired(b, key);
      DemandedIsRequired(n, key);
    }
  }

  lemma DemandedIsRequired(o: Operation, key: ParameterKey)
    ensures HasParameter(o, key) <==> key in o.Parameters()
    ensures Demands(o, key) <==> key in RequiredParameters(o)
  {
    InForceIsMerged(o, key);
    if key in RequiredParameters(o) {
      assert IsInForce(o, key, o.Parameters()[key]);
    }
  }

  // ---------------------------------------------------------------- bodies and replies

  predicate BodyStays(b: Option<Body>, n: Option<Body>) {
    match (b, n)
    case (None, None) => true
    case (None, Some(added)) => !added.required
    case (Some(_), None) => false
    case (Some(before), Some(after)) =>
      (after.required ==> before.required) && forall media | media in before.content :: media in after.content
  }

  predicate HasHeader(reply: Reply, name: string) {
    exists j | 0 <= j < |reply.headers| :: Lower(reply.headers[j].name) == Lower(name)
  }

  predicate ReplyStays(b: Reply, n: Reply) {
    && (forall media | media in b.content :: media in n.content)
    && (forall i | 0 <= i < |b.headers| :: HasHeader(n, b.headers[i].name))
  }

  /** Statuses of the 200s stay; what other statuses promise stays as long as they do. */
  predicate RepliesStay(b: map<string, Reply>, n: map<string, Reply>) {
    && (forall status | status in b && |status| > 0 && status[0] == '2' :: status in n)
    && (forall status | status in b && status in n :: ReplyStays(b[status], n[status]))
  }

  lemma {:induction false} NamedHeaders(headers: seq<Header>, name: string)
    ensures Lower(name) in ByLowerName(headers) <==>
            exists j | 0 <= j < |headers| :: Lower(headers[j].name) == Lower(name)
  {
    if headers != [] {
      var n := |headers| - 1;
      NamedHeaders(headers[..n], name);
      assert forall j | 0 <= j < n :: headers[..n][j] == headers[j];
    }
  }

  // ---------------------------------------------------------------- operations

  /** Only a contract-only stub that becomes implemented may change its surface. */
  ghost predicate OperationStays(ch: Change, b: Operation, n: Operation) {
    && b.method_ == n.method_ && b.path == n.path
    && (!b.contractOnly || n.contractOnly ==>
          ParametersStay(b, n) && SecurityStays(ch, b, n) && BodyStays(b.body, n.body)
          && RepliesStay(b.responses, n.responses))
  }

  /** All that the contracts promise besides the schemas. */
  ghost predicate StructureStays(ch: Change) {
    && (forall name | name in ch.baseline.schemas :: name in ch.current.schemas)
    && (forall name | name in ch.baseline.securitySchemes ::
          name in ch.current.securitySchemes && ch.current.securitySchemes[name] == ch.baseline.securitySchemes[name])
    && (forall o | o in ch.baseline.operations ::
          o in ch.current.operations && OperationStays(ch, ch.baseline.operations[o], ch.current.operations[o]))
  }

  predicate PlaceStays(ch: Change, r: Relations, direction: Direction, e: Edge) {
    SchemaKept(ch, r, direction, e.0, e.1)
  }

  ghost predicate PlacesStay(ch: Change, r: Relations) {
    forall direction, e | IsPlace(ch, direction, e) :: PlaceStays(ch, r, direction, e)
  }

  ghost predicate OperationPlacesStay(ch: Change, r: Relations, b: Operation, n: Operation) {
    && (forall e | IsRequestPlace(b, n, e) :: PlaceStays(ch, r, Request, e))
    && (forall e | IsResponsePlace(b, n, e) :: PlaceStays(ch, r, Response, e))
  }

  lemma MediaDecided(ch: Change, r: Relations, direction: Direction, b: Schemas, n: Schemas)
    ensures MediaKept(ch, r, direction, b, n) <==>
            (forall media | media in b :: media in n)
            && forall e | IsMediaPlace(b, n, e) :: PlaceStays(ch, r, direction, e)
  {
    if (forall media | media in b :: media in n)
       && forall e | IsMediaPlace(b, n, e) :: PlaceStays(ch, r, direction, e) {
      forall m | m in b ensures m in n && SchemaKept(ch, r, direction, b[m], n[m]) {
        assert IsMediaPlace(b, n, (b[m], n[m]));
        assert PlaceStays(ch, r, direction, (b[m], n[m]));
      }
    }
  }

  lemma HeadersDecided(ch: Change, r: Relations, b: seq<Header>, n: seq<Header>)
    ensures HeadersKept(ch, r, b, n) <==>
            (forall i | 0 <= i < |b| :: Lower(b[i].name) in ByLowerName(n))
            && forall e | IsHeaderPlace(b, ByLowerName(n), e) :: PlaceStays(ch, r, Response, e)
  {
    var named := ByLowerName(n);
    if (forall i | 0 <= i < |b| :: Lower(b[i].name) in named)
       && forall e | IsHeaderPlace(b, named, e) :: PlaceStays(ch, r, Response, e)
    {
      forall i | 0 <= i < |b| ensures HeaderKept(ch, r, b[i], named) {
        assert IsHeaderPlace(b, named, (b[i].schema, named[Lower(b[i].name)]));
        assert PlaceStays(ch, r, Response, (b[i].schema, named[Lower(b[i].name)]));
      }
    }
    if HeadersKept(ch, r, b, n) {
      forall i | 0 <= i < |b| ensures HeaderKept(ch, r, b[i], named) {
      }
    }
  }

  lemma ReplyDecided(ch: Change, r: Relations, b: Reply, n: Reply)
    ensures ResponseKept(ch, r, b, n) <==>
            ReplyStays(b, n) && forall e | IsReplyPlace(b, n, e) :: PlaceStays(ch, r, Response, e)
  {
    MediaDecided(ch, r, Response, b.content, n.content);
    HeadersDecided(ch, r, b.headers, n.headers);
    forall i | 0 <= i < |b.headers|
      ensures HasHeader(n, b.headers[i].name) <==> Lower(b.headers[i].name) in ByLowerName(n.headers)
    {
      NamedHeaders(n.headers, b.headers[i].name);
    }
  }

  lemma RepliesDecided(ch: Change, r: Relations, b: Operation, n: Operation)
    ensures ResponsesKept(ch, r, b.responses, n.responses) <==>
            && RepliesStay(b.responses, n.responses)
            && forall e | IsResponsePlace(b, n, e) :: PlaceStays(ch, r, Response, e)
  {
    forall s | s in b.responses && s in n.responses
      ensures ResponseKept(ch, r, b.responses[s], n.responses[s]) <==>
              ReplyStays(b.responses[s], n.responses[s])
              && forall e | IsReplyPlace(b.responses[s], n.responses[s], e) :: PlaceStays(ch, r, Response, e)
    {
      ReplyDecided(ch, r, b.responses[s], n.responses[s]);
    }
    if forall e | IsResponsePlace(b, n, e) :: PlaceStays(ch, r, Response, e) {
      forall s, e | s in b.responses && s in n.responses && IsReplyPlace(b.responses[s], n.responses[s], e)
        ensures PlaceStays(ch, r, Response, e)
      {
        assert IsResponsePlace(b, n, e);
      }
    }
  }

  lemma BodyDecided(ch: Change, r: Relations, b: Option<Body>, n: Option<Body>)
    ensures BodyKept(ch, r, b, n) <==>
            BodyStays(b, n)
            && (b.Some? && n.Some? ==>
                  forall e | IsMediaPlace(b.value.content, n.value.content, e) :: PlaceStays(ch, r, Request, e))
  {
    if b.Some? && n.Some? {
      MediaDecided(ch, r, Request, b.value.content, n.value.content);
    }
  }

  lemma ParameterPlacesDecided(ch: Change, r: Relations, b: Operation, n: Operation)
    ensures ParameterSchemasKept(ch, r, b, n) <==>
            forall e | IsParameterPlace(b, n, e) :: PlaceStays(ch, r, Request, e)
  {
    if forall e | IsParameterPlace(b, n, e) :: PlaceStays(ch, r, Request, e) {
      forall k | k in b.Parameters() && k in n.Parameters()
        ensures SchemaKept(ch, r, Request, b.Parameters()[k].schema, n.Parameters()[k].schema)
      {
        assert IsParameterPlace(b, n, (b.Parameters()[k].schema, n.Parameters()[k].schema));
        assert PlaceStays(ch, r, Request, (b.Parameters()[k].schema, n.Parameters()[k].schema));
      }
    }
  }

  lemma SurfaceDecided(ch: Change, r: Relations, b: Operation, n: Operation)
    requires AreTotal(ch.orders)
    ensures SurfaceKept(ch, r, b, n) <==>
            ParametersStay(b, n) && SecurityStays(ch, b, n) && BodyStays(b.body, n.body)
            && RepliesStay(b.responses, n.responses) && OperationPlacesStay(ch, r, b, n)
  {
    ParametersDecided(b, n);
    ParameterPlacesDecided(ch, r, b, n);
    SecurityDecided(ch, b, n);
    BodyDecided(ch, r, b.body, n.body);
    RepliesDecided(ch, r, b, n);
  }

  lemma OperationDecided(ch: Change, r: Relations, b: Operation, n: Operation)
    requires AreTotal(ch.orders)
    ensures OperationKept(ch, r, b, n) <==>
            OperationStays(ch, b, n) && (!b.contractOnly || n.contractOnly ==> OperationPlacesStay(ch, r, b, n))
  {
    SurfaceDecided(ch, r, b, n);
  }

  lemma PlacesOfOperations(ch: Change, r: Relations)
    requires forall o | o in ch.baseline.operations :: o in ch.current.operations
    ensures PlacesStay(ch, r) <==>
            forall o | o in ch.baseline.operations
              && (!ch.baseline.operations[o].contractOnly || ch.current.operations[o].contractOnly) ::
              OperationPlacesStay(ch, r, ch.baseline.operations[o], ch.current.operations[o])
  {
    if PlacesStay(ch, r) {
      forall o | o in ch.baseline.operations
        && (!ch.baseline.operations[o].contractOnly || ch.current.operations[o].contractOnly)
        ensures OperationPlacesStay(ch, r, ch.baseline.operations[o], ch.current.operations[o])
      {
        var b, n := ch.baseline.operations[o], ch.current.operations[o];
        assert Continues(ch, o);
        forall e | IsRequestPlace(b, n, e) ensures PlaceStays(ch, r, Request, e) {
          assert IsPlaceOf(ch, Request, o, e);
        }
        forall e | IsResponsePlace(b, n, e) ensures PlaceStays(ch, r, Response, e) {
          assert IsPlaceOf(ch, Response, o, e);
        }
      }
    } else {
      var direction, e :| IsPlace(ch, direction, e) && !PlaceStays(ch, r, direction, e);
      var o :| Continues(ch, o) && IsPlaceOf(ch, direction, o, e);
      assert !OperationPlacesStay(ch, r, ch.baseline.operations[o], ch.current.operations[o]);
    }
  }

  /**
   * Main result: a contract is kept if and only if all that it promises besides
   * schemas stays, and the schemas at all compared places are kept.
   */
  lemma ContractDecided(ch: Change, r: Relations)
    requires AreTotal(ch.orders)
    ensures ContractKept(ch, r) <==> StructureStays(ch) && PlacesStay(ch, r)
  {
    if forall o | o in ch.baseline.operations :: o in ch.current.operations {
      PlacesOfOperations(ch, r);
      forall o | o in ch.baseline.operations
        ensures var b, n := ch.baseline.operations[o], ch.current.operations[o];
                OperationKept(ch, r, b, n) <==>
                OperationStays(ch, b, n) && (!b.contractOnly || n.contractOnly ==> OperationPlacesStay(ch, r, b, n))
      {
        OperationDecided(ch, r, ch.baseline.operations[o], ch.current.operations[o]);
      }
    }
  }

  /** An operation whose requirement changes its meaning is not kept, whatever the documents state. */
  lemma SecurityChangeIsReported(ch: Change, r: Relations, o: string, x: seq<Alternative>, y: seq<Alternative>)
    requires AreTotal(ch.orders) && o in ch.baseline.operations && o in ch.current.operations
    requires !ch.baseline.operations[o].contractOnly || ch.current.operations[o].contractOnly
    requires ch.baseline.operations[o].security == Some(x) && ch.current.operations[o].security == Some(y)
    requires Meaning(x) != Meaning(y)
    ensures !ContractKept(ch, r)
  {
    ContractDecided(ch, r);
    assert IsUnder(ch.baseline, ch.baseline.operations[o], x) && IsUnder(ch.current, ch.current.operations[o], y);
  }
}
