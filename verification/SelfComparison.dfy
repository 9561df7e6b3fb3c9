/**
 * A contract compared with itself.  Nothing is reported for a well-formed one,
 * except where two headers of a reply have names that differ in case only.
 */
module SelfComparison {
  import opened Wrappers
  import opened Strings
  import opened Documents
  import opened Compatibility
  import opened CanonicalForms
  import opened Contracts
  import opened Revisions

  function Unchanged(contract: Contract, orders: Orders): Change {
    Change(contract, contract, orders)
  }

  ghost function Best(contract: Contract, orders: Orders): Relations {
    GreatestRelations(Unchanged(contract, orders), true)
  }

  // ---------------------------------------------------------------- headers by lower-case name

  /** `j` is the last header whose name differs from that of `i` in case at most. */
  predicate LastNamed(headers: seq<Header>, i: int, j: int) {
    && 0 <= i <= j < |headers| && Lower(headers[i].name) == Lower(headers[j].name)
    && forall k | j < k < |headers| :: Lower(headers[k].name) != Lower(headers[j].name)
  }

  /** Of headers that differ in case only, all are compared with the schema of the last. */
  lemma {:induction false} LastNameCounts(headers: seq<Header>, i: int, j: int)
    requires LastNamed(headers, i, j)
    ensures Lower(headers[i].name) in ByLowerName(headers)
    ensures ByLowerName(headers)[Lower(headers[i].name)] == headers[j].schema
    decreases |headers|
  {
    var n := |headers| - 1;
    if j < n {
      LastNameCounts(headers[..n], i, j);
    }
  }

  lemma {:induction false} LastNameExists(headers: seq<Header>, i: int, from: int) returns (j: int)
    requires 0 <= i <= from < |headers| && Lower(headers[i].name) == Lower(headers[from].name)
    ensures LastNamed(headers, i, j)
    decreases |headers| - from
  {
    if k :| from < k < |headers| && Lower(headers[k].name) == Lower(headers[from].name) {
      j := LastNameExists(headers, i, k);
    } else {
      j := from;
    }
  }

  /** Every header is compatible with the one that takes its place in the comparison. */
  ghost predicate HeadersAgree(contract: Contract, orders: Orders, headers: seq<Header>) {
    forall i, j | LastNamed(headers, i, j) ::
      SchemaKept(Unchanged(contract, orders), Best(contract, orders), Response, headers[i].schema, headers[j].schema)
  }

  lemma HeadersKeptIffAgree(contract: Contract, orders: Orders, headers: seq<Header>)
    ensures HeadersKept(Unchanged(contract, orders), Best(contract, orders), headers, headers) <==>
            HeadersAgree(contract, orders, headers)
  {
    var ch, best := Unchanged(contract, orders), Best(contract, orders);
    if HeadersAgree(contract, orders, headers) {
      forall i | 0 <= i < |headers| ensures HeaderKept(ch, best, headers[i], ByLowerName(headers)) {
        var j := LastNameExists(headers, i, i);
        LastNameCounts(headers, i, j);
      }
    }
    if HeadersKept(ch, best, headers, headers) {
      forall i, j | LastNamed(headers, i, j)
        ensures SchemaKept(ch, best, Response, headers[i].schema, headers[j].schema)
      {
        assert HeaderKept(ch, best, headers[i], ByLowerName(headers));
        LastNameCounts(headers, i, j);
      }
    }
  }

  // ---------------------------------------------------------------- the rest of a contract

  lemma PlaceKept(contract: Contract, orders: Orders, direction: Direction, id: Option<NodeId>)
    requires WellFormed(contract.document) && contract.Known(id)
    ensures SchemaKept(Unchanged(contract, orders), Best(contract, orders), direction, id, id)
  {
    SelfIsCompatible(contract.document, direction, true, id);
  }

  lemma ContentKept(contract: Contract, orders: Orders, direction: Direction, content: Schemas)
    requires WellFormed(contract.document) && contract.AllKnown(content)
    ensures MediaKept(Unchanged(contract, orders), Best(contract, orders), direction, content, content)
  {
    forall m | m in content
      ensures SchemaKept(Unchanged(contract, orders), Best(contract, orders), direction, content[m], content[m])
    {
      PlaceKept(contract, orders, direction, content[m]);
    }
  }

  ghost predicate ClashesAgree(contract: Contract, orders: Orders, o: Operation) {
    forall s | s in o.responses :: HeadersAgree(contract, orders, o.responses[s].headers)
  }

  lemma RepliesKeptIffAgree(contract: Contract, orders: Orders, o: Operation)
    requires WellFormed(contract.document) && contract.Fits(o)
    ensures ResponsesKept(Unchanged(contract, orders), Best(contract, orders), o.responses, o.responses) <==>
            ClashesAgree(contract, orders, o)
  {
    var ch, best := Unchanged(contract, orders), Best(contract, orders);
    forall s | s in o.responses
      ensures ResponseKept(ch, best, o.responses[s], o.responses[s]) <==>
              HeadersAgree(contract, orders, o.responses[s].headers)
    {
      ContentKept(contract, orders, Response, o.responses[s].content);
      HeadersKeptIffAgree(contract, orders, o.responses[s].headers);
    }
  }

  lemma RequestSideKept(contract: Contract, orders: Orders, o: Operation)
    requires WellFormed(contract.document) && contract.Fits(o)
    ensures ParametersKept(Unchanged(contract, orders), Best(contract, orders), o, o)
    ensures BodyKept(Unchanged(contract, orders), Best(contract, orders), o.body, o.body)
  {
    forall k | k in o.Parameters()
      ensures SchemaKept(Unchanged(contract, orders), Best(contract, orders), Request,
                         o.Parameters()[k].schema, o.Parameters()[k].schema)
    {
      PlaceKept(contract, orders, Request, o.Parameters()[k].schema);
    }
    if o.body.Some? {
      ContentKept(contract, orders, Request, o.body.value.content);
    }
  }

  lemma OperationKeptIffAgrees(contract: Contract, orders: Orders, o: Operation)
    requires WellFormed(contract.document) && contract.Fits(o)
    ensures OperationKept(Unchanged(contract, orders), Best(contract, orders), o, o) <==>
            ClashesAgree(contract, orders, o)
  {
    RequestSideKept(contract, orders, o);
    RepliesKeptIffAgree(contract, orders, o);
  }

  /**
   * Main result: a well-formed contract is kept against itself if and only if
   * every response header is compatible with the last header of its reply whose
   * name differs in case at most.
   */
  lemma SelfKeptIffClashesAgree(contract: Contract, orders: Orders)
    requires WellFormed(contract.document)
    ensures ContractKept(Unchanged(contract, orders), Best(contract, orders)) <==>
            forall o | o in contract.operations :: ClashesAgree(contract, orders, contract.operations[o])
  {
    forall o | o in contract.operations
      ensures OperationKept(Unchanged(contract, orders), Best(contract, orders),
                            contract.operations[o], contract.operations[o]) <==>
              ClashesAgree(contract, orders, contract.operations[o])
    {
      OperationKeptIffAgrees(contract, orders, contract.operations[o]);
    }
  }

  // ---------------------------------------------------------------- distinct names

  /** No two headers of one reply have names that differ in case only. */
  predicate HeadersDistinct(headers: seq<Header>) {
    forall i, j | 0 <= i < j < |headers| :: Lower(headers[i].name) != Lower(headers[j].name)
  }

  predicate RepliesDistinct(contract: Contract) {
    forall o, s | o in contract.operations && s in contract.operations[o].responses ::
      HeadersDistinct(contract.operations[o].responses[s].headers)
  }

  /** Nothing is reported for a well-formed contract whose header names are distinct. */
  lemma SameContractIsKept(contract: Contract, orders: Orders)
    requires WellFormed(contract.document) && RepliesDistinct(contract)
    ensures ContractKept(Unchanged(contract, orders), Best(contract, orders))
  {
    forall o, s | o in contract.operations && s in contract.operations[o].responses
      ensures HeadersAgree(contract, orders, contract.operations[o].responses[s].headers)
    {
      var headers := contract.operations[o].responses[s].headers;
      assert contract.Fits(contract.operations[o]) && contract.FitsReply(contract.operations[o].responses[s]);
      forall i, j | LastNamed(headers, i, j)
        ensures SchemaKept(Unchanged(contract, orders), Best(contract, orders), Response,
                           headers[i].schema, headers[j].schema)
      {
        PlaceKept(contract, orders, Response, headers[i].schema);
      }
    }
    SelfKeptIffClashesAgree(contract, orders);
  }

  // ---------------------------------------------------------------- a clash

  const CLASH := [Header("X-A", Some(0)), Header("x-a", Some(1))]

  function Reporting(headers: seq<Header>): Operation {
    Operation("GET", "/", false, [], [], None, None, map["200" := Reply(map[], headers)])
  }

  /** One operation whose reply has an integer header X-A and a text header x-a. */
  function Clashing(): RawContract {
    RawContract(RawDocument([Schema(INTEGER), Schema(STRING)], map[], map[]),
                {}, map[], [], map["o" := Reporting(CLASH)])
  }

  lemma ClashIsLast()
    ensures LastNamed(CLASH, 0, 1)
  {
    assert Lower("X-A") == Lower("x-a") by {
      assert forall i | 0 <= i < 3 :: Lower("X-A")[i] == Lower("x-a")[i];
    }
  }

  lemma IntegerIsNotText(d: Document)
    requires |d.nodes| == 2 && d.nodes[0] == Schema(INTEGER) && d.nodes[1] == Schema(STRING)
    ensures !Compatible(Comparison(d, d, Response), true, (Some(0), Some(1)))
  {
    var c := Comparison(d, d, Response);
    GreatestUnfolds(c, (0, 1));
    assert "string" in TypeSet(STRING.typ).value;
    assert !KeywordsKept(c, (0, 1));
  }

  /** A well-formed contract that is reported against itself. */
  lemma ClashingHeadersReported(orders: Orders)
    ensures Clashing().Valid() && WellFormed(Clashing().document)
    ensures !ContractKept(Unchanged(Clashing(), orders), Best(Clashing(), orders))
  {
    var contract := Clashing();
    assert contract.operations["o"].Parameters() == map[];
    assert contract.Fits(contract.operations["o"]);
    ClashIsLast();
    IntegerIsNotText(contract.document);
    assert !HeadersAgree(contract, orders, CLASH);
    assert contract.operations["o"].responses["200"].headers == CLASH;
    assert !ClashesAgree(contract, orders, contract.operations["o"]);
    SelfKeptIffClashesAgree(contract, orders);
  }
}
