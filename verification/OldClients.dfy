/**
 * What an approved change of contract means for the clients of the baseline:
 * their requests are still accepted, and they can read the replies.
 */
module OldClients {
  import opened Wrappers
  import opened Strings
  import opened Json
  import opened Documents
  import opened CanonicalForms
  import opened Parameters
  import opened Contracts
  import opened Instances
  import opened Inclusion
  import opened Senders
  import opened TypeScript
  import opened GeneratedClient
  import opened ReturnTypes
  import opened Approval

  /** The verdict, as FindBreakingChanges justifies it. */
  predicate Approved(ch: Change, found: Relations) {
    !found.strict && Grounds(ch, found) && ContractKept(ch, found)
  }

  /** The premises of both directions, on the schema pairs that the comparison of the contracts met. */
  ghost predicate RequestsClear(ch: Change, roots: set<NodeId>, formats: (string, Json) -> bool, found: Relations) {
    RequestPremises(Side(ch, Request), found.request, roots, formats)
  }

  ghost predicate ResponsesClear(ch: Change, formats: (string, Json) -> bool, found: Relations) {
    ResponsePremises(Side(ch, Response), found.response, formats)
  }

  ghost function OldClient(ch: Change, roots: set<NodeId>, formats: (string, Json) -> bool): Reading {
    Sent(Side(ch, Request), DeclaredKeys(ch.baseline.document, roots), formats)
  }

  ghost function NewServer(ch: Change, formats: (string, Json) -> bool): Reading {
    Received(Side(ch, Request), formats)
  }

  ghost function NewReplies(ch: Change, formats: (string, Json) -> bool): Reading {
    Served(Side(ch, Response), formats)
  }

  ghost function OldReader(ch: Change, formats: (string, Json) -> bool): Reading {
    Read(Side(ch, Response), formats)
  }

  /** A value under a place that may hold a schema. */
  ghost predicate Conforms(r: Reading, schema: Option<NodeId>, v: Json)
    requires schema.Some? ==> schema.value < |r.doc.nodes|
  {
    schema.Some? ==> Valid(r, schema.value, v)
  }

  lemma KeptIsAccepted(ch: Change, found: Relations, roots: set<NodeId>, formats: (string, Json) -> bool,
                       b: Option<NodeId>, n: Option<NodeId>)
    requires Grounds(ch, found) && !found.strict && RequestsClear(ch, roots, formats, found)
    requires ch.baseline.Known(b) && ch.current.Known(n) && SchemaKept(ch, found, Request, b, n)
    requires AddedSchemaClear(b, NewServer(ch, formats), n)
    ensures b.Some? ==> n.Some?
    ensures forall v | Conforms(OldClient(ch, roots, formats), b, v) :: Conforms(NewServer(ch, formats), n, v)
  {
    if b.Some? {
      assert ch.baseline.document.nodes[b.value] != Literal(Null);
      RequestAcceptancePreserved(Side(ch, Request), found.request, DeclaredKeys(ch.baseline.document, roots), formats,
                                 b.value, n.value);
    }
  }

  lemma KeptIsReadable(ch: Change, found: Relations, formats: (string, Json) -> bool, b: NodeId, n: Option<NodeId>)
    requires Grounds(ch, found) && !found.strict && ResponsesClear(ch, formats, found)
    requires ch.baseline.Known(Some(b)) && ch.current.Known(n) && SchemaKept(ch, found, Response, Some(b), n)
    ensures n.Some?
    ensures forall v | Valid(NewReplies(ch, formats), n.value, v) :: Valid(OldReader(ch, formats), b, v)
  {
    assert ch.baseline.document.nodes[b] != Literal(Null);
    ResponseReadable(Side(ch, Response), found.response, formats, b, n.value);
  }

  // ---------------------------------------------------------------- requests

  /** Main result: a body an old client may send, to an operation of an approved contract, is still accepted. */
  lemma OldBodiesStillAccepted(ch: Change, found: Relations, o: string, media: string, roots: set<NodeId>,
                               formats: (string, Json) -> bool, b: NodeId)
    requires Approved(ch, found) && Continues(ch, o) && RequestsClear(ch, roots, formats, found)
    requires ch.baseline.operations[o].body.Some? && media in ch.baseline.operations[o].body.value.content
    requires ch.baseline.operations[o].body.value.content[media] == Some(b)
    ensures ch.current.operations[o].body.Some? && media in ch.current.operations[o].body.value.content
    ensures var n := ch.current.operations[o].body.value.content[media];
            && n.Some? && ch.current.Known(n) && ch.baseline.Known(Some(b))
            && forall v | Valid(OldClient(ch, roots, formats), b, v) :: Valid(NewServer(ch, formats), n.value, v)
  {
    assert ch.baseline.Fits(ch.baseline.operations[o]) && ch.current.Fits(ch.current.operations[o]);
    assert OperationKept(ch, found, ch.baseline.operations[o], ch.current.operations[o]);
    var n := ch.current.operations[o].body.value.content[media];
    assert ch.baseline.Known(ch.baseline.operations[o].body.value.content[media]) && ch.current.Known(n);
    KeptIsAccepted(ch, found, roots, formats, Some(b), n);
    forall v | Valid(OldClient(ch, roots, formats), b, v) ensures Valid(NewServer(ch, formats), n.value, v) {
      assert Conforms(OldClient(ch, roots, formats), Some(b), v);
    }
  }

  /** A client that need not send a body still need not. */
  lemma OmittedBodyStillAccepted(ch: Change, found: Relations, o: string)
    requires Approved(ch, found) && Continues(ch, o)
    requires ch.baseline.operations[o].body.Some? ==> !ch.baseline.operations[o].body.value.required
    ensures ch.current.operations[o].body.Some? ==> !ch.current.operations[o].body.value.required
  {
    assert OperationKept(ch, found, ch.baseline.operations[o], ch.current.operations[o]);
  }

  /** The parameters of a request: none is missing that is required, and each has a value of its schema. */
  ghost predicate Supplies(r: Reading, parameters: map<ParameterKey, Parameter>, values: map<ParameterKey, Json>)
    requires forall k | k in parameters :: parameters[k].schema.Some? ==> parameters[k].schema.value < |r.doc.nodes|
  {
    && (forall k | k in parameters && parameters[k].required :: k in values)
    && (forall k | k in parameters && k in values :: Conforms(r, parameters[k].schema, values[k]))
  }

  /** A schema given to a parameter that had none admits everything; the comparison does not look at it. */
  ghost predicate ParametersClear(ch: Change, formats: (string, Json) -> bool, b: Operation, n: Operation)
    requires ch.current.Fits(n)
  {
    forall k | k in b.Parameters() && k in n.Parameters() ::
      AddedSchemaClear(b.Parameters()[k].schema, NewServer(ch, formats), n.Parameters()[k].schema)
  }

  /** Main result: the declared parameters that an old client sends still suffice, and their values are accepted. */
  lemma OldParametersStillAccepted(ch: Change, found: Relations, o: string, roots: set<NodeId>,
                                   formats: (string, Json) -> bool, values: map<ParameterKey, Json>)
    requires Approved(ch, found) && Continues(ch, o) && RequestsClear(ch, roots, formats, found)
    requires ch.baseline.Fits(ch.baseline.operations[o]) && ch.current.Fits(ch.current.operations[o])
    requires ParametersClear(ch, formats, ch.baseline.operations[o], ch.current.operations[o])
    requires values.Keys <= ch.baseline.operations[o].Parameters().Keys
    requires Supplies(OldClient(ch, roots, formats), ch.baseline.operations[o].Parameters(), values)
    ensures Supplies(NewServer(ch, formats), ch.current.operations[o].Parameters(), values)
  {
    var b, n := ch.baseline.operations[o], ch.current.operations[o];
    assert OperationKept(ch, found, b, n);
    forall k | k in n.Parameters() && k in values
      ensures Conforms(NewServer(ch, formats), n.Parameters()[k].schema, values[k])
    {
      KeptIsAccepted(ch, found, roots, formats, b.Parameters()[k].schema, n.Parameters()[k].schema);
    }
    forall k | k in n.Parameters() && n.Parameters()[k].required ensures k in values {
      assert k in RequiredParameters(n) && k in RequiredParameters(b);
    }
  }

  // ---------------------------------------------------------------- replies

  /** Main result: a reply of an approved contract, under a status the baseline knows, fits the old client's type. */
  lemma NewRepliesFitOldTypes(ch: Change, found: Relations, declarations: Declarations, o: string, status: string,
                              media: string, formats: (string, Json) -> bool, b: NodeId, n: NodeId)
    requires Approved(ch, found) && Continues(ch, o) && ResponsesClear(ch, formats, found)
    requires GeneratorPremises(ch.baseline.document, b) && Emitted(ch.baseline.document, declarations)
    requires status in ch.baseline.operations[o].responses && status in ch.current.operations[o].responses
    requires media in ch.baseline.operations[o].responses[status].content
    requires ch.baseline.operations[o].responses[status].content[media] == Some(b)
    requires media in ch.current.operations[o].responses[status].content
    requires ch.current.operations[o].responses[status].content[media] == Some(n)
    requires n < |ch.current.document.nodes|
    ensures forall v | Valid(NewReplies(ch, formats), n, v) ::
              HasTsType(declarations, TypeOf(ch.baseline.document, b).value, v)
  {
    assert OperationKept(ch, found, ch.baseline.operations[o], ch.current.operations[o]);
    assert SchemaKept(ch, found, Response, Some(b), Some(n));
    ApprovedResponsesInhabitGeneratedTypes(Side(ch, Response), found.response, declarations, formats, b, n);
  }

  const JSON := "application/json"

  /** The status whose schema types the generated function: the first success status, as the interpreter sorts texts. */
  predicate IsReturnStatus(orders: Orders, o: Operation, status: string) {
    && status in o.responses && IsSuccess(status)
    && forall s | s in o.responses && IsSuccess(s) :: orders.texts(status, s)
  }

  /** The schema behind the return type of the generated function; without one it is void. */
  function ReturnSchema(o: Operation, status: string): Option<NodeId>
    requires status in o.responses
  {
    var content := o.responses[status].content;
    if JSON in content then content[JSON] else None
  }

  lemma ReturnKept(ch: Change, found: Relations, o: string, status: string, b: NodeId)
    requires Approved(ch, found) && Continues(ch, o)
    requires IsReturnStatus(ch.orders, ch.baseline.operations[o], status)
    requires ReturnSchema(ch.baseline.operations[o], status) == Some(b)
    ensures status in ch.current.operations[o].responses && JSON in ch.current.operations[o].responses[status].content
    ensures ch.current.Known(ReturnSchema(ch.current.operations[o], status)) && b < |ch.baseline.document.nodes|
    ensures SchemaKept(ch, found, Response, Some(b), ReturnSchema(ch.current.operations[o], status))
  {
    assert OperationKept(ch, found, ch.baseline.operations[o], ch.current.operations[o]);
    assert ResponseKept(ch, found, ch.baseline.operations[o].responses[status],
                        ch.current.operations[o].responses[status]);
  }

  /**
   * Main result: the function generated for an operation returns what its
   * emitted return type says, when that type survives the qualification and the
   * server replies with the status the type was taken from.
   */
  lemma GeneratedFunctionReturnsItsType(ch: Change, found: Relations, declarations: Declarations, o: string,
                                        status: string, formats: (string, Json) -> bool,
                                        dump: Json -> string, b: NodeId)
    requires Approved(ch, found) && Continues(ch, o) && ResponsesClear(ch, formats, found)
    requires IsReturnStatus(ch.orders, ch.baseline.operations[o], status)
    requires ReturnSchema(ch.baseline.operations[o], status) == Some(b)
    requires GeneratorPremises(ch.baseline.document, b) && Emitted(ch.baseline.document, declarations)
    requires DumpsJson(dump) && Survives(declarations, TypeOf(ch.baseline.document, b).value)
    ensures status in ch.current.operations[o].responses
    ensures var n := ReturnSchema(ch.current.operations[o], status);
            var denoted := Denoted(declarations, Write(TypeOf(ch.baseline.document, b).value, dump));
            && n.Some? && ch.current.Known(n) && denoted.Some?
            && forall v | Valid(NewReplies(ch, formats), n.value, v) :: HasTsType(declarations, denoted.value, v)
  {
    var t := TypeOf(ch.baseline.document, b).value;
    ReturnKept(ch, found, o, status, b);
    var n := ReturnSchema(ch.current.operations[o], status);
    KeptIsReadable(ch, found, formats, b, n);
    NewRepliesFitOldTypes(ch, found, declarations, o, status, JSON, formats, b, n.value);
    TypesAreWellNamed(ch.baseline.document, b);
    DenotedIffSurvives(declarations, t, dump);
    forall v | Valid(NewReplies(ch, formats), n.value, v) ensures HasTsType(declarations, Core(t), v) {
      CoreHasSameValues(declarations, t, v);
    }
  }

  /** The return types that the repository writes: a reference to a component whose name is no reserved word. */
  lemma ComponentReturnSurvives(d: Document, declarations: Declarations, b: NodeId)
    requires ComponentReferences(d) && IsReferenceAt(d, b) && Emitted(d, declarations)
    requires TypeOf(d, b) != Some(Named("void")) && TypeOf(d, b) != Some(Named("unknown"))
    ensures TypeOf(d, b).Some? && Survives(declarations, TypeOf(d, b).value)
  {
    var name := ReferenceIsNamed(d, b);
  }

  /** Main result: a header that an old client reads is still sent, with values that it can read. */
  lemma NewHeadersReadable(ch: Change, found: Relations, o: string, status: string, i: nat,
                           formats: (string, Json) -> bool)
    requires Approved(ch, found) && Continues(ch, o) && ResponsesClear(ch, formats, found)
    requires status in ch.baseline.operations[o].responses && status in ch.current.operations[o].responses
    requires i < |ch.baseline.operations[o].responses[status].headers|
    ensures var b := ch.baseline.operations[o].responses[status].headers[i];
            var current := ByLowerName(ch.current.operations[o].responses[status].headers);
            && Lower(b.name) in current && ch.baseline.Known(b.schema) && ch.current.Known(current[Lower(b.name)])
            && forall v | Conforms(NewReplies(ch, formats), current[Lower(b.name)], v) ::
                 Conforms(OldReader(ch, formats), b.schema, v)
  {
    var reply := ch.current.operations[o].responses[status];
    var b := ch.baseline.operations[o].responses[status].headers[i];
    assert OperationKept(ch, found, ch.baseline.operations[o], ch.current.operations[o]);
    assert ResponseKept(ch, found, ch.baseline.operations[o].responses[status], reply);
    assert HeaderKept(ch, found, b, ByLowerName(reply.headers));
    if b.schema.Some? {
      KeptIsReadable(ch, found, formats, b.schema.value, ByLowerName(reply.headers)[Lower(b.name)]);
    }
  }
}
