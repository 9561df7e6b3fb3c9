/**
 * What it means that a run of the scripts approved a schema.  The premises can
 * be checked on the two documents and on the pairs the run visited.
 */
module Approval {
  import opened Wrappers
  import opened Json
  import opened Documents
  import opened Compatibility
  import opened SchemaComparison
  import opened Instances
  import opened Inclusion
  import opened Senders
  import opened Premises
  import opened TypeScript
  import opened GeneratedClient

  /**
   * What the comparison leaves to the author of the contract, on a relation that
   * justifies itself: the visited pairs, or more.
   */
  ghost predicate RequestPremises(c: Comparison, relation: set<Pair>, roots: set<NodeId>,
                                  formats: (string, Json) -> bool) {
    && c.direction == Request
    && NoNulls(c.baseline) && NoNulls(c.current) && Grounded(c.current) && Consistent(c, relation, false)
    && forall p | p in relation :: RequestSafe(c, relation, DeclaredKeys(c.baseline, roots), formats, p)
  }

  ghost predicate ResponsePremises(c: Comparison, relation: set<Pair>, formats: (string, Json) -> bool) {
    && c.direction == Response
    && NoNulls(c.baseline) && NoNulls(c.current) && Grounded(c.baseline) && Consistent(c, relation, false)
    && forall p | p in relation :: ResponseSafe(c, relation, formats, p)
  }

  /** The same, read off the documents and the relation. */
  ghost predicate PlainRequests(c: Comparison, relation: set<Pair>, roots: set<NodeId>) {
    && c.direction == Request
    && NoNulls(c.baseline) && NoNulls(c.current) && Grounded(c.current) && Consistent(c, relation, false)
    && forall p | p in relation :: InRange(c, p) && PlainRequest(c, relation, roots, p)
  }

  predicate PlainResponses(c: Comparison, relation: set<Pair>) {
    && c.direction == Response
    && NoNulls(c.baseline) && NoNulls(c.current) && Grounded(c.baseline) && Consistent(c, relation, false)
    && forall p | p in relation :: InRange(c, p) && PlainResponse(c, relation, p)
  }

  lemma PlainRequestsSuffice(c: Comparison, relation: set<Pair>, roots: set<NodeId>, formats: (string, Json) -> bool)
    requires PlainRequests(c, relation, roots)
    ensures RequestPremises(c, relation, roots, formats)
  {
    forall p | p in relation ensures RequestSafe(c, relation, DeclaredKeys(c.baseline, roots), formats, p) {
      PlainRequestIsSafe(c, relation, roots, formats, p);
    }
  }

  lemma PlainResponsesSuffice(c: Comparison, relation: set<Pair>, formats: (string, Json) -> bool)
    requires PlainResponses(c, relation)
    ensures ResponsePremises(c, relation, formats)
  {
    forall p | p in relation ensures ResponseSafe(c, relation, formats, p) {
      PlainResponseIsSafe(c, relation, formats, p);
    }
  }

  ghost predicate GeneratorPremises(d: Document, root: NodeId) {
    && root < |d.nodes| && root !in d.components.Values && TypeOf(d, root).Some?
    && ComponentReferences(d) && GeneratorFragment(d) && NamesDistinct(d)
  }

  /**
   * A comparison of two request schemas: when it reports nothing, old clients are
   * still served, whatever schemas they write from.
   */
  method ApproveRequest(c: Comparison, b: NodeId, n: NodeId)
    returns (ok: bool, failures: seq<Failure>, visited: set<Pair>)
    requires b < |c.baseline.nodes| && n < |c.current.nodes|
    ensures ok && failures == [] ==>
              forall relation, roots, formats, v | visited <= relation && RequestPremises(c, relation, roots, formats)
                && Valid(Sent(c, DeclaredKeys(c.baseline, roots), formats), b, v) :: Valid(Received(c, formats), n, v)
  {
    ok, failures, visited := Compare(c, (Some(b), Some(n)));
    if ok && failures == [] {
      forall relation, roots, formats, v | visited <= relation && RequestPremises(c, relation, roots, formats)
        && Valid(Sent(c, DeclaredKeys(c.baseline, roots), formats), b, v)
        ensures Valid(Received(c, formats), n, v)
      {
        RequestAcceptancePreserved(c, relation, DeclaredKeys(c.baseline, roots), formats, b, n);
      }
    }
  }

  /**
   * A comparison of two response schemas and the generation of the baseline
   * types: when the one reports nothing, the other can hold every response.
   */
  method ApproveResponse(c: Comparison, b: NodeId, n: NodeId)
    returns (ok: bool, failures: seq<Failure>, visited: set<Pair>, types: Option<Declarations>)
    requires b < |c.baseline.nodes| && n < |c.current.nodes|
    ensures ok && failures == [] && types.Some? && GeneratorPremises(c.baseline, b) ==>
              forall relation, formats, v | visited <= relation && ResponsePremises(c, relation, formats)
                && Valid(Served(c, formats), n, v) :: HasTsType(types.value, TypeOf(c.baseline, b).value, v)
  {
    ok, failures, visited := Compare(c, (Some(b), Some(n)));
    types := GenerateTypes(c.baseline);
    if ok && failures == [] && types.Some? && GeneratorPremises(c.baseline, b) {
      forall relation, formats, v | visited <= relation && ResponsePremises(c, relation, formats)
        && Valid(Served(c, formats), n, v)
        ensures HasTsType(types.value, TypeOf(c.baseline, b).value, v)
      {
        ApprovedResponsesInhabitGeneratedTypes(c, relation, types.value, formats, b, n);
      }
    }
  }
}
