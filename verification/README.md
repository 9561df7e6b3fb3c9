# BIAICE contract gate, audit log, egress gateway and tenant isolation in Dafny

The project models the parts of the repository on which its guarantees rest,
and proves those guarantees for all inputs and all runs.

* **Contract gate** (`Documents`, `Compatibility`, `DepthFirst`,
  `SchemaComparison`, `ExternalReferences`, `Parameters`, `CanonicalForms`,
  `Contracts`, `Reach`, `ContractReach`). A contract is a finite, possibly cyclic
  graph of schemas. The
  comparison walks two such graphs with a set of visited pairs and a list of
  failures; it is proved step by step against a search function, and the verdict
  of the search is shown to be membership in the greatest relation that is closed
  under the local checks, for schemas and for whole contracts. Only pairs that the
  compared places reach are visited, and only those are needed to justify it.
* **What the checks decide** (`KeywordChecks`, `Visibility`, `Promises`). Each
  local check against a description that does not use it: types and formats by the
  values they admit, properties by `readOnly` and `writeOnly` themselves, a whole
  contract by what its operations state and what its documents state
  (`Promises.ContractDecided`).
* **What schemas mean** (`Instances`, `Judgements`). A schema accepts and refuses
  JSON values (JSON Schema 2020-12, section 6.1 of the Validation specification,
  sections 10.2.1 and 10.3 of Core; OpenAPI 3.1 for `readOnly` and `writeOnly`).
  Both judgements are inductive, since references may be cyclic; they never
  contradict each other (`Judgements.NeverBoth`), and they decide every value
  unless a schema is its own alternative (`Judgements.EveryValueDecided`). `oneOf` takes a value that one branch accepts and all others
  refuse.
* **What the gate promises** (`Inclusion`, `Senders`, `Premises`, `Approval`,
  `Nullable`, `TypedReply`, `ContractVerdict`, `SelfComparison`, `OldClients`,
  `Revisions`, `Transitivity`, `Exactness`, `Limits`). An approved contract still accepts the bodies and parameters that
  old clients send, whatever schemas are combined in them; its replies and
  headers can still be read; approval composes over releases; additive revisions
  are approved.
* **Type generator** (`TypeScript`, `EmittedTypes`, `GeneratedClient`,
  `ReturnTypes`). Which values have an emitted type, keyword by keyword and in both
  directions. The types emitted from a contract are sound for its responses. Together with the gate:
  every response of an approved contract inhabits the types the old client was
  generated with.
* **Audit log** (`AuditChain`, `AuditThreads`). One writer lock, many tenants in
  one list, availability that may flip at any step, an independent verifier.
* **Egress gateway** (`RateLimiting`, `Gateway`, `LimitedGateway`,
  `TunnelHistory`, `Allowlist`, `AllowlistLines`). A concurrent sliding-window
  limiter, the address check, a single-use grant before every tunnel, their
  composition, the steps that each tunnel has behind it, and the allowlist that is
  pinned by the digest of a canonical text.
* **Cursors, references, keys** (`Base64Url`, `Cursors`, `JsonPointers`,
  `ScopedKeys`, `Uuids`, `Strings`, `Listings`). Round trips and injectivity of the texts
  the system hands out (section 5 of RFC 4648, section 4 of RFC 6901).
* **Tenant isolation** (`TenantIsolation`, `TenantTransactions`,
  `CommittedRows`). The ORM guard and the PostgreSQL row policy decide the same
  rows, only guarded rows are ever committed, and a transaction commits either
  everything its block touched or nothing.

Loops and objects that the source updates in place are methods and classes;
expressions are functions. Threads and connections are steps of a state machine,
and a run is any sequence of such steps. SHA-256 and HMAC are uninterpreted
functions; where a theorem needs more it says so (`CollisionFree`, an injective
digest). Clocks, DNS, IDNA and the authorizer are inputs of the steps.

## What the proofs found

Several promises do not hold of the code as it stands. Each has a concrete
counterexample, and the condition under which the promise does hold. Where that
condition speaks of values, `Premises` gives conditions that can be read off the
documents and are enough.

* A `const` is compared with the interpreter's `==`: an added `const: null` and a
  change from `1` to `true` pass unnoticed (`Limits.NullConstMissed`,
  `Limits.BooleanConstMissedInRequest`, `Limits.BooleanConstMissedInResponse`).
  Exact condition: `Exactness.ConstClearIsExact`.
* Branches of a `oneOf` are compared one by one, so a branch may grow into
  another; a value that fitted one branch then fits two and is refused
  (`Limits.OneOfMissed`). Exact condition: `Exactness.OneOfClearIsExact`; on the
  current contract alone, `Exactness.DisjointIsExact`. Branches that list
  different types are disjoint (`Premises.ApartIsDisjoint`).
* Required names that are no property are not compared in either direction
  (`Limits.UndeclaredRequiredMissed`, `Limits.UndeclaredRequiredMissedInResponse`).
  Exact condition: `Exactness.RequiredClearIsExact`.
* Items added to a request schema are not compared (`Limits.AddedItemsMissed`).
  Exact condition: `Exactness.ItemsClearIsExact`.
* Keys that one side alone has a schema for are not compared: a property added to
  a free-form request object, a schema for undeclared properties that a request
  gains or a response loses, a declared response property where the reader has a
  general schema (`Limits.AddedPropertyMissed`, `Limits.MapSchemaMissedInRequest`,
  `Limits.MapSchemaMissedInResponse`, `Limits.AddedPropertyMissedInResponse`).
  Exact conditions: `Exactness.SentKeyClearIsExact`,
  `Exactness.AddedToFreeFormIsExact`, `Exactness.ServedKeyClearIsExact`,
  `Exactness.DroppedMapSchemaIsExact`.
* A schema for undeclared properties that is absent for one release breaks
  transitivity (`Limits.MapSchemaLostInTheMiddle`). Exact condition:
  `Transitivity.TransitiveIffLostMapsAgree`.
* An external reference is examined only where it is written and only on the
  first visit of a pair. Its change can hide behind a local reference, and where
  both lead to it the names of the properties decide, since they fix the order of
  the visits (`ExternalReferences.OrderDecides`). Every change is reported, in
  every order, if and only if no local reference of the baseline leads to an
  external one (`ExternalReferences.ReportedIffDirect`).
* The limiter does not always answer as a count over the full grant history
  would: a caller that waits for the lock while another with a later cutoff
  prunes the queue can be admitted (`RateLimiting.OvertakenCallerIsAdmitted`).
  The answers agree in every run if and only if no later cutoff came first or the
  limit is one (`RateLimiting.HarmlessIffNotOvertaken`). The limit per window
  holds all the same.
* A contract can be reported against itself: of two response headers whose names
  differ in case only, the earlier is compared with the schema of the later
  (`SelfComparison.ClashingHeadersReported`). A well-formed contract is kept
  against itself if and only if every header is compatible with the last one of
  its name (`SelfComparison.SelfKeptIffClashesAgree`).
* The return type of a generated function is qualified with the namespace of the
  declared types when its text is one bare identifier, and left alone otherwise:
  a text schema becomes `Models.string`, and a component inside an array loses its
  namespace (`ReturnTypes.BareWordUndeclared`, `ReturnTypes.NameInArrayUndeclared`).
  Exact condition: `ReturnTypes.DenotedIffSurvives`.

## Model

| member | source | states |
|---|---|---|
| Documents.Resolve | scripts/contracts/check_breaking_changes.py:58-75 | the reference loop ends on every document, cycles of references included, and gives the node at which following stops, or nothing when a local reference on the way cannot be evaluated |
| Documents.ResolveIdempotent | scripts/contracts/check_breaking_changes.py:58-75 | resolving a resolved node gives that node again, even when a cycle of references was cut |
| KeywordChecks.ReferenceFollowed | scripts/contracts/check_breaking_changes.py:58-75 | a local reference resolves to what the place it names resolves to, along chains of any length |
| KeywordChecks.NothingToFollow | scripts/contracts/check_breaking_changes.py:58-75 | an external reference, or a schema, resolves to itself; a local reference to nothing does not resolve |
| JsonPointers.JsonPointer | scripts/contracts/check_breaking_changes.py:46-55 | exactly the texts that do not start with "#/" are external; any other follows its unescaped tokens through dictionaries and fails where a key is missing |
| JsonPointers.PointerRoundTrip | scripts/contracts/check_breaking_changes.py:50-55 | any path of keys, escaped and joined, evaluates to exactly the value at that path |
| JsonPointers.ReferencesDistinct | scripts/contracts/check_breaking_changes.py:50-55 | different paths have different reference texts |
| JsonPointers.OrderMatters | scripts/contracts/check_breaking_changes.py:51 | undoing the two escapes in the other order would break the round trip |
| JsonPointers.StandardEscapes | scripts/contracts/check_breaking_changes.py:50-51 | ~1 stands for a slash and ~0 for a tilde, as in section 4 of RFC 6901 |
| SchemaComparison.Comparer.VisibleProperties | scripts/contracts/check_breaking_changes.py:113-135 | the loop keeps exactly the declared properties that the direction does not hide, each with its own schema, and fails when a property schema cannot be resolved (what is hidden: `Visibility.RequestPropertiesDecided`, `Visibility.ResponsePropertiesDecided`) |
| Visibility.RequestPropertiesDecided | scripts/contracts/check_breaking_changes.py:113-287 | the checks on the properties of a request pair pass if and only if every baseline property whose resolved schema is not readOnly is still there, still not readOnly, and compatible, and no such property is newly required |
| Visibility.ResponsePropertiesDecided | scripts/contracts/check_breaking_changes.py:113-287 | those of a response pair: if and only if every baseline property that is not writeOnly is still there, not writeOnly, compatible, and required if it was |
| Visibility.RequestKeepsProperty | scripts/contracts/check_breaking_changes.py:121-126 | a compatible request pair keeps every property that is not readOnly, a writeOnly secret included |
| Visibility.ResponseKeepsProperty | scripts/contracts/check_breaking_changes.py:128-133 | a compatible response pair keeps every property that is not writeOnly |
| Visibility.SecretRemovedIsReported | scripts/contracts/check_breaking_changes.py:256-262 | a request object that loses its required writeOnly api_key is not compatible |
| Visibility.SecretRetypedIsReported | scripts/contracts/check_breaking_changes.py:178-185 | nor is one whose writeOnly api_key becomes an integer |
| Visibility.HiddenMayGo | scripts/contracts/check_breaking_changes.py:256-262 | a readOnly property may go from a request, and a writeOnly one from a response, unreported |
| Visibility.RequestKeys | scripts/contracts/check_breaking_changes.py:113-135 | under a strict reading a request may carry a valid writeOnly key and no declared readOnly key |
| Visibility.ResponseKeys | scripts/contracts/check_breaking_changes.py:113-135 | a response may carry a valid readOnly key and no declared writeOnly key, which a tolerant reader ignores |
| Visibility.RequiredOfMessage | scripts/contracts/check_breaking_changes.py:264-265 | a message must carry exactly the required names that its direction does not hide |
| SchemaComparison.Comparer.CompareKeywords | scripts/contracts/check_breaking_changes.py:178-254 | a failure is added if and only if the type, format, enum or const of the pair breaks in this direction, or a list of alternatives appears, disappears or changes its length |
| KeywordChecks.TypeChangeDecided | scripts/contracts/check_breaking_changes.py:91-110 | types pass in a request if and only if every value of an old type has a new one, and in a response the other way round |
| KeywordChecks.TypeAddedOrDropped | scripts/contracts/check_breaking_changes.py:100-109 | a type that appears is reported in a request alone, and one that disappears in a response alone |
| KeywordChecks.ListedTypes | scripts/contracts/check_breaking_changes.py:82-88 | a type is a text or a list of texts; anything else counts as no type |
| KeywordChecks.FormatChangeDecided | scripts/contracts/check_breaking_changes.py:187-197 | formats pass if and only if no value is lost under any meaning that formats may have |
| KeywordChecks.EnumChangeDecided | scripts/contracts/check_breaking_changes.py:199-222 | a request may list more values but never fewer and may not begin to list any; a response the other way round |
| KeywordChecks.AlternativesDecided | scripts/contracts/check_breaking_changes.py:229-241 | alternatives stay absent or stay a list of as many branches |
| KeywordChecks.UndeclaredDecided | scripts/contracts/check_breaking_changes.py:289-295 | undeclared properties are compared by whether they are forbidden with false, and only a request that begins to forbid or a response that ceases to is reported |
| SchemaComparison.Comparer.SchemaBreakages | scripts/contracts/check_breaking_changes.py:142-176 | the recursion ends because unvisited pairs run out; failures and visited pairs become exactly those of the search |
| SchemaComparison.Comparer.CompareProperties | scripts/contracts/check_breaking_changes.py:277-287 | the common properties are compared one after the other, in the order of their names, as in the search |
| SchemaComparison.CompareInOrder | scripts/contracts/check_breaking_changes.py:142-322 | the comparison in a given order of names gives exactly the answer, the verdict and the visited pairs of the search |
| SchemaComparison.Compare | scripts/contracts/check_breaking_changes.py:142-322 | without a failure the visited pairs are closed under local checks and child pairs, so skipping a revisited pair was right; unless an external reference can be met twice, nothing is reported if and only if the roots lie in the greatest compatibility relation, whatever the order; only pairs that the roots reach are visited (what the local checks decide: `KeywordChecks`, `Visibility`) |
| DepthFirst.SearchSound | scripts/contracts/check_breaking_changes.py:142-322 | a silent search leaves its roots and all newly visited pairs justified by the visited pairs |
| DepthFirst.SearchComplete | scripts/contracts/check_breaking_changes.py:142-322 | a search from a compatible place reports nothing, whatever was visited before |
| DepthFirst.SearchEnds | scripts/contracts/check_breaking_changes.py:58-322 | a search is never abandoned when every local reference can be evaluated |
| DepthFirst.VerdictIsGreatest | scripts/contracts/check_breaking_changes.py:142-322 | in every order, compatible places pass and what passes is compatible up to external references met twice; without those the verdict is exact and independent of the order |
| Reach.SearchStays | scripts/contracts/check_breaking_changes.py:142-322 | in every order the search visits only pairs to which its place leads, directly or through the places below |
| Reach.TrimmedConsistent | scripts/contracts/check_breaking_changes.py:167-170 | a relation that justifies itself still does when only the reached pairs are left |
| ExternalReferences.ReportedIffDirect | scripts/contracts/check_breaking_changes.py:167-176 | against every current document and in every order a changed external reference of the baseline is reported, if and only if no local reference of the baseline leads to an external one |
| ExternalReferences.RenamingMissed | scripts/contracts/check_breaking_changes.py:167-176 | wherever a local reference does lead to one, changing it passes |
| ExternalReferences.OrderDecides | scripts/contracts/check_breaking_changes.py:167-176 | a property written as an external reference and one that refers to it: taken in one order the change is reported, in the other it is not |
| Compatibility.GreatestIsConsistent | scripts/contracts/check_breaking_changes.py:142-322 | the union of all closed relations is itself closed, so there is one greatest relation |
| Compatibility.ConsistentIncluded | scripts/contracts/check_breaking_changes.py:167-170 | any closed set of visited pairs lies inside the greatest relation |
| Compatibility.StrictnessIsExternal | scripts/contracts/check_breaking_changes.py:172-176 | without external references in the baseline it makes no difference when the external check is skipped |
| Inclusion.RequestAcceptancePreserved | scripts/contracts/check_breaking_changes.py:95-322 | a value that an old client can send at a kept request pair is valid under the new schema, through references, oneOf, anyOf, allOf, records, maps and arrays |
| Inclusion.ResponseReadable | scripts/contracts/check_breaking_changes.py:95-322 | a value the new schema serves at a kept response pair is valid for the old tolerant reader |
| Approval.ApproveRequest | scripts/contracts/check_breaking_changes.py:142-322 | when the comparison of two request schemas reports nothing, every value old clients can send is still accepted, for any reading of formats and any schemas the clients write from |
| Approval.PlainRequestsSuffice | scripts/contracts/check_breaking_changes.py:142-322 | the premises of the request result can be read off the two documents and a relation between their schemas, without a look at values |
| Approval.PlainResponsesSuffice | scripts/contracts/check_breaking_changes.py:142-322 | so can those of the response result, where a served property may follow the reader's schema for undeclared keys |
| Nullable.NullableBodyIsSent | packages/contracts/openapi.generated.json:18027-18042 | a non-empty object may be sent as such a body, a reference or null |
| Nullable.NullableBodyIsAccepted | scripts/contracts/check_breaking_changes.py:142-322 | when the referenced record gains optional properties the change is approved, no premise excludes it, and that object is accepted |
| TypedReply.GrownReplyFitsOldType | packages/contracts/openapi.generated.json:80575-80584 | a reply that refers to a component which gains required properties is approved, no premise excludes it, and what the new server sends has the old generated type |
| Approval.ApproveResponse | packages/contracts/scripts/generate_contracts.py:122-184 | when the comparison reports nothing, every value valid under the current schema has the type the generator emits from the baseline schema |
| Transitivity.CompatibilityComposes | scripts/contracts/check_breaking_changes.py:142-322 | the composition of two closed relations is closed |
| Transitivity.NoBreakageIsTransitive | scripts/contracts/check_breaking_changes.py:95-322 | if A to B and B to C are without breakage, so is A to C, in both directions, when schemas for undeclared properties are carried through B |
| Transitivity.TransitiveIffLostMapsAgree | scripts/contracts/check_breaking_changes.py:142-322 | no breakage is transitive between three documents if and only if, wherever the middle one lacks a schema for undeclared properties that both ends have, those two schemas are compatible |
| Revisions.AdditiveIsCompatible | scripts/contracts/check_breaking_changes.py:142-322 | schemas that requests reach may gain optional properties and require less, schemas that responses reach may gain any properties and require more; both are compatible with what they extend |
| Revisions.SelfIsCompatible | scripts/contracts/check_breaking_changes.py:142-322 | every schema of a well-formed document is compatible with itself |
| Revisions.MalformedIsReported | scripts/contracts/check_breaking_changes.py:58-236 | a place whose reference cannot be evaluated, or whose alternatives are no list, is reported even when nothing changed |
| Revisions.SelfCompatibleIffWellFormed | scripts/contracts/check_breaking_changes.py:58-322 | every place of a document is compatible with itself if and only if the document is well formed |
| Exactness.ConstClearIsExact | scripts/contracts/check_breaking_changes.py:224-227 | the premise on const holds if and only if every value the one const admits is admitted by the other |
| Limits.NullConstMissed | scripts/contracts/check_breaking_changes.py:224-227 | an added null const is not reported although it refuses values that were accepted |
| Limits.BooleanConstMissedInRequest | scripts/contracts/check_breaking_changes.py:224-227 | a request const changed from 1 to true is not reported although 1 is refused from then on |
| Limits.BooleanConstMissedInResponse | scripts/contracts/check_breaking_changes.py:224-227 | nor is the same change in a response, although old readers refuse true |
| Limits.OneOfMissed | scripts/contracts/check_breaking_changes.py:229-254 | a oneOf branch that grows into another is not reported although a value of the one branch is refused from then on |
| Limits.AddedItemsMissed | scripts/contracts/check_breaking_changes.py:312-322 | items added to a request schema are not compared |
| Limits.UndeclaredRequiredMissed | scripts/contracts/check_breaking_changes.py:264-275 | a newly required name that is no property is not reported |
| Limits.UndeclaredRequiredMissedInResponse | scripts/contracts/check_breaking_changes.py:264-275 | a response that stops requiring a name that is no property is not reported |
| Exactness.RequiredClearIsExact | scripts/contracts/check_breaking_changes.py:264-275 | where the required check passes, the objects of one side satisfy the required names of the other if and only if required names that are no property are required on both sides |
| Exactness.ItemsClearIsExact | scripts/contracts/check_breaking_changes.py:312-322 | where the stating side has no items, all its arrays pass if and only if the items of the other side accept every value |
| Exactness.OneOfClearIsExact | scripts/contracts/check_breaking_changes.py:229-254 | where branches are included one by one, every value of the one oneOf is a value of the other if and only if no further branch accepts it |
| Exactness.DisjointIsExact | scripts/contracts/check_breaking_changes.py:229-254 | the branches of the current oneOf are disjoint if and only if, whatever smaller sets of values the old branches admitted, a value of one alone is taken by that branch alone |
| Premises.ApartIsDisjoint | scripts/contracts/check_breaking_changes.py:229-254 | branches of a oneOf that list types with no value in common are disjoint |
| Exactness.SentKeyClearIsExact | scripts/contracts/check_breaking_changes.py:256-310 | a key that a client sends undeclared is still accepted if and only if the schema it newly falls under takes what the baseline lets stand there |
| Exactness.AddedToFreeFormIsExact | scripts/contracts/check_breaking_changes.py:256-310 | in a free-form object: if and only if the added schema accepts every value |
| Exactness.ServedKeyClearIsExact | scripts/contracts/check_breaking_changes.py:256-310 | a key that falls under the reader's schema for undeclared keys stays readable if and only if what is served under it fits that schema |
| Exactness.DroppedMapSchemaIsExact | scripts/contracts/check_breaking_changes.py:289-310 | where the server drops its schema for undeclared keys: if and only if the reader's accepts every value |
| Limits.AddedPropertyMissed | scripts/contracts/check_breaking_changes.py:256-287 | a property added to a free-form request object is not compared with what clients may already send |
| Limits.MapSchemaMissedInRequest | scripts/contracts/check_breaking_changes.py:289-310 | a schema for undeclared properties that a request gains is not compared |
| Limits.MapSchemaMissedInResponse | scripts/contracts/check_breaking_changes.py:289-310 | a schema for undeclared properties that a response loses is not compared |
| Limits.AddedPropertyMissedInResponse | scripts/contracts/check_breaking_changes.py:256-310 | a declared response property is not compared with the schema the old reader has for undeclared properties |
| Limits.MapSchemaLostInTheMiddle | scripts/contracts/check_breaking_changes.py:296-310 | A to B and B to C pass and A to C does not, when B drops the schema for undeclared properties |
| Limits.ExternalReferenceBehindLocal | scripts/contracts/check_breaking_changes.py:172-176 | an external reference whose change breaks compatibility where it is written does not where a local reference leads to it |
| CanonicalForms.SortIsCanonical | scripts/contracts/check_breaking_changes.py:360-372 | two lists sort alike exactly when they are permutations of each other |
| CanonicalForms.SortedAlternatives | scripts/contracts/check_breaking_changes.py:351-372 | the loop that collects and sorts the alternatives computes the normal form |
| CanonicalForms.SecurityFormIsExact | scripts/contracts/check_breaking_changes.py:351-372 | two security requirements normalise alike if and only if their bags of alternatives, schemes and scopes agree |
| Parameters.ParameterMap | scripts/contracts/check_breaking_changes.py:325-340 | each location and name maps to the operation's last own entry, or else to the last shared one; entries without either are skipped |
| Parameters.OwnHidesShared | scripts/contracts/check_breaking_changes.py:325-340 | the merged parameters are the operation's own last entries and, for other keys, the last shared ones |
| Contracts.ContractComparer.CompareSchema | scripts/contracts/check_breaking_changes.py:142-151 | each comparison starts from nothing visited; without a failure its pairs join the relation that justifies the whole contract |
| Contracts.ContractComparer.CompareParameters | scripts/contracts/check_breaking_changes.py:534-568 | the merged parameters are compared; no added failure means that none is removed, none newly required and the schemas hold under the visited pairs, and parameters kept under the greatest relations add none |
| Contracts.ContractComparer.CompareSecurity | scripts/contracts/check_breaking_changes.py:570-573 | a failure is added if and only if the effective security requirements, the document's own where an operation has none, differ in their normal form (in terms of both stated requirements: `Promises.SecurityDecided`) |
| Contracts.ContractComparer.CompareBody | scripts/contracts/check_breaking_changes.py:375-414 | no added failure means that the body is kept under the visited pairs, and a body kept under the greatest relations adds none: not newly required, not removed, every media type still there and compatible |
| Contracts.ContractComparer.CompareHeaders | scripts/contracts/check_breaking_changes.py:453-479 | no added failure means that every baseline header is still there under its name in lower case and its schema holds under the visited pairs; headers kept under the greatest relations add none |
| Contracts.ContractComparer.CompareResponses | scripts/contracts/check_breaking_changes.py:417-610 | no added failure means that success statuses, media types and headers are kept and compatible under the visited pairs, and responses kept under the greatest relations add none |
| Contracts.ContractComparer.CompareSecuritySchemes | scripts/contracts/check_breaking_changes.py:493-504 | no failure is added if and only if every security scheme is still there unchanged |
| Contracts.ContractComparer.CompareOperation | scripts/contracts/check_breaking_changes.py:513-610 | no added failure means that the operation is kept under the visited pairs, or a contract-only stub graduates without moving; operations kept under the greatest relations add none |
| ContractVerdict.FindBreakingChanges | scripts/contracts/check_breaking_changes.py:482-611 | one pair of closed relations, of pairs that the compared places reach, justifies the verdict; unless an external reference can be met twice, nothing is reported if and only if every promise of the baseline contract is kept under the greatest relations (what those promises are: `Promises.ContractDecided`) |
| Promises.ContractDecided | scripts/contracts/check_breaking_changes.py:343-611 | with a total order of names a contract is kept if and only if operations, parameters in force, requirements, bodies, success statuses, media types, header names, security schemes and component names stay, as the documents state them, and the schemas at the same places are compatible; only contract-only stubs that become implemented are exempt |
| Promises.SecurityDecided | scripts/contracts/check_breaking_changes.py:343-372 | an operation passes if and only if the requirement it is under, its own or else that of its document, keeps its meaning |
| Promises.SecurityChangeIsReported | scripts/contracts/check_breaking_changes.py:570-573 | an operation that states another requirement than before is not kept, whatever the two documents state |
| ContractVerdict.FoundIsGreatest | scripts/contracts/check_breaking_changes.py:482-611 | promises kept under the visited pairs are kept under the greatest relations |
| ContractReach.TrimmedSuffices | scripts/contracts/check_breaking_changes.py:482-611 | the pairs that the places of continuing operations reach are enough to keep every promise |
| ContractVerdict.AdditiveContractIsKept | scripts/contracts/check_breaking_changes.py:482-611 | new operations, optional parameters, optional bodies, statuses, media types, headers and component schemas are never reported, nor optional properties where requests reach, nor any properties and more required ones where responses reach |
| SelfComparison.SelfKeptIffClashesAgree | scripts/contracts/check_breaking_changes.py:453-611 | a well-formed contract is kept against itself if and only if every response header is compatible with the last header of its reply whose name differs in case at most |
| SelfComparison.ClashingHeadersReported | scripts/contracts/check_breaking_changes.py:457-479 | a well-formed contract with an integer header X-A and a text header x-a is reported against itself |
| SelfComparison.SameContractIsKept | scripts/contracts/check_breaking_changes.py:482-611 | a well-formed contract with header names distinct up to case reports nothing against itself |
| OldClients.OldBodiesStillAccepted | scripts/contracts/check_breaking_changes.py:375-611 | for every operation that continues, every body an old client may send is accepted by the approved contract |
| OldClients.OmittedBodyStillAccepted | scripts/contracts/check_breaking_changes.py:375-393 | a body that an old client need not send is still not required |
| OldClients.OldParametersStillAccepted | scripts/contracts/check_breaking_changes.py:534-568 | the declared parameters that an old client sends still suffice and their values are accepted |
| OldClients.NewRepliesFitOldTypes | packages/contracts/scripts/generate_contracts.py:122-184 | for every operation that continues and every status the baseline knows, every reply body fits the type generated from the baseline |
| OldClients.GeneratedFunctionReturnsItsType | packages/contracts/scripts/generate_contracts.py:187-247 | a reply with the status that typed the generated function, the first success status, fits the type that its emitted return type denotes, when that text denotes one |
| ReturnTypes.DenotedIffSurvives | packages/contracts/scripts/generate_contracts.py:240-247 | the emitted return type denotes the type of the schema if and only if that is a declared component, unknown, or a compound of built-in types alone |
| ReturnTypes.BareWordUndeclared | packages/contracts/scripts/generate_contracts.py:243-247 | the return type of a text schema names something that is not declared |
| ReturnTypes.NameInArrayUndeclared | packages/contracts/scripts/generate_contracts.py:243-247 | so does that of an array of a component |
| OldClients.ComponentReturnSurvives | packages/contracts/scripts/generate_contracts.py:243-247 | a reference to a component always survives, unless it is called void or unknown |
| OldClients.NewHeadersReadable | scripts/contracts/check_breaking_changes.py:453-479 | a header that an old client reads is still sent, with values that it can read |
| TypeScript.GenerateTypes | packages/contracts/scripts/generate_contracts.py:154-184 | emits one declaration per component, unless the type of some component raises; with distinct emitted names each component keeps its own declaration (what the declarations admit: `EmittedTypes.InterfacesExact`, `EmittedTypes.AliasesExact`) |
| EmittedTypes.SimpleTypesExact | packages/contracts/scripts/generate_contracts.py:145-150 | a value has the type emitted for a string, boolean or null schema if and only if it is one |
| EmittedTypes.NumbersExact | packages/contracts/scripts/generate_contracts.py:143-144 | for integer and number schemas: if and only if it is a number |
| EmittedTypes.ListedValuesExact | packages/contracts/scripts/generate_contracts.py:125-130 | for const and enum: if and only if it is a listed value |
| EmittedTypes.ArraysExact | packages/contracts/scripts/generate_contracts.py:136-137 | for arrays: if and only if it is an array whose elements have the type of the items |
| EmittedTypes.MapsExact | packages/contracts/scripts/generate_contracts.py:138-142 | for maps: if and only if it is an object whose values have the type of the schema for undeclared keys |
| EmittedTypes.AlternativesExact | packages/contracts/scripts/generate_contracts.py:131-134 | for alternatives: if and only if it has the type of a branch, anyOf before oneOf |
| EmittedTypes.OtherTypesExact | packages/contracts/scripts/generate_contracts.py:135-151 | without a type every value has the type; a list of types makes the generator raise |
| EmittedTypes.ReferencesExact | packages/contracts/scripts/generate_contracts.py:123-124 | for references: if and only if it has the type declared under the last segment |
| EmittedTypes.InterfacesExact | packages/contracts/scripts/generate_contracts.py:163-178 | an object has the interface of a component if and only if it has every required property and the properties it has are of their types |
| EmittedTypes.AliasesExact | packages/contracts/scripts/generate_contracts.py:179-182 | any other component is declared as the type of its schema |
| EmittedTypes.DeclarationExists | packages/contracts/scripts/generate_contracts.py:160-182 | the generator raises at a component exactly when the type of one of its properties, or its own, cannot be written |
| ReturnTypes.SanitizeLeavesIdentifiers | packages/contracts/scripts/generate_contracts.py:115-119 | identifiers are emitted as they are, and a leading digit gets an underscore |
| ReturnTypes.SanitizeDrops | packages/contracts/scripts/generate_contracts.py:115-116 | a character that identifiers cannot hold is dropped wherever it stands |
| TypeScript.LastSegmentOf | packages/contracts/scripts/generate_contracts.py:110-112 | the emitted name of a reference depends only on what follows the last slash |
| TypeScript.MoreUnfoldings | packages/contracts/scripts/generate_contracts.py:154-184 | a value keeps its type when names may be unfolded more often, so recursive declarations have a well-defined meaning |
| GeneratedClient.ChainInhabits | packages/contracts/scripts/generate_contracts.py:122-126 | a value of the component at the end of a chain of references has the type named by its first reference |
| GeneratedClient.GeneratedTypeSound | packages/contracts/scripts/generate_contracts.py:122-184 | every value a document accepts in a response inhabits the type generated from that document, recursive schemas included |
| GeneratedClient.ApprovedResponsesInhabitGeneratedTypes | packages/contracts/scripts/generate_contracts.py:122-184 | with a closed relation between the two contracts, every new response inhabits the old generated type |
| AuditChain.VerifyHashChain | apps/backend/src/biaice/core/audit.py:183-218 | succeeds if and only if the list is one chain of one scope from genesis, and then returns its final hash |
| AuditChain.ChainedIffGoesOn | apps/backend/src/biaice/core/audit.py:183-218 | a list is such a chain if and only if its first event names the hash of sixty-four zeros, every other the hash of the event before it and in the same scope, and every hash is the digest of its event |
| AuditChain.PrefixChained | apps/backend/src/biaice/core/audit.py:183-218 | every prefix of a verified list verifies |
| AuditChain.HeadDeterminesEvents | apps/backend/src/biaice/core/audit.py:183-218 | two verified lists with the same final hash are identical |
| AuditChain.TamperingShows | apps/backend/src/biaice/core/audit.py:183-218 | any edit, deletion, reordering or splice is rejected or changes the head |
| AuditChain.AppendKeepsChains | apps/backend/src/biaice/core/audit.py:150-175 | appending an event built on its scope's head keeps every scope's list a chain |
| AuditChain.InMemorySink.ListEvents | apps/backend/src/biaice/core/audit.py:116-121 | returns the scope's events in the order of the log |
| AuditChain.InMemorySink.LatestHash | apps/backend/src/biaice/core/audit.py:102-108 | returns the hash of the scope's last event, if it has one |
| AuditChain.InMemorySink.Append | apps/backend/src/biaice/core/audit.py:110-114 | appends exactly the event, or changes nothing when the sink is unavailable |
| AuditChain.HashChainWriter.Write | apps/backend/src/biaice/core/audit.py:136-175 | appends the signed event for the request and keeps every scope's chain; without availability nothing changes |
| AuditThreads.StepKeepsInvariant | apps/backend/src/biaice/core/audit.py:136-175 | whatever any thread does next, the lock holder's head stays current and all chains hold |
| AuditThreads.EveryScopeVerifiesAlways | apps/backend/src/biaice/core/audit.py:102-218 | in every state of every interleaving of any threads and tenants, with availability flipping, every scope's list is a verified chain |
| AuditThreads.LogIsAppendOnly | apps/backend/src/biaice/core/audit.py:110-114 | the log at one moment is a prefix of the log at any later moment |
| AuditThreads.AppendIsWrite | apps/backend/src/biaice/core/audit.py:150-175 | in every interleaving an append that succeeds leaves the log as one undivided write of the writer would |
| AuditThreads.EveryEventWasAskedFor | apps/backend/src/biaice/core/audit.py:136-175 | in every interleaving the log changes only when the sink is available, by one event: the request with which that thread called while the sink was available, signed on the present head of its scope |
| AuditThreads.UnavailableWritesNothing | apps/backend/src/biaice/core/audit.py:110-149 | a write that finds the sink unavailable, before the lock or at the end, leaves the log as it was and the lock free |
| AuditThreads.UnhinderedWrite | apps/backend/src/biaice/core/audit.py:148-175 | a thread that nobody hinders completes its write |
| AuditThreads.AnchoredHeadCommits | apps/backend/src/biaice/core/audit.py:183-218 | a verified list with the head that a scope had at some moment is that scope's list of that moment |
| AuditThreads.VerifyReachable | apps/backend/src/biaice/core/audit.py:183-218 | the verifier run at any moment returns the scope's latest hash, or genesis |
| RateLimiting.DropOld | infra/provider-egress/proxy.py:246-247 | the loop leaves what the cutoff leaves of the queue |
| RateLimiting.PruneKeepsLate | infra/provider-egress/proxy.py:246-247 | of a sorted queue, exactly the times at or after the cutoff stay |
| RateLimiting.PruneTwice | infra/provider-egress/proxy.py:246-247 | two prunings in either order leave what the later cutoff leaves |
| RateLimiting.RateLimiter.Allow | infra/provider-egress/proxy.py:242-251 | allows exactly when the pruned queue has room, and then notes the time; other keys are untouched |
| RateLimiting.StepsAreAllow | infra/provider-egress/proxy.py:242-251 | the steps of a caller inside the lock, with any time between them, do to its key what one call does |
| RateLimiting.StepKeepsInvariant | infra/provider-egress/proxy.py:242-251 | every step of every caller keeps the queue equal to the history after the newest cutoff, and grants spaced |
| RateLimiting.WindowNeverExceeded | infra/provider-egress/proxy.py:236-251 | in every interleaving, no key has more than `limit` grants in any window of sixty seconds |
| RateLimiting.SixtySeconds | infra/provider-egress/proxy.py:243 | the same with the number written out: at most `limit` grants from any moment to sixty seconds after it |
| RateLimiting.RefusedOnlyWhenFull | infra/provider-egress/proxy.py:248-249 | a refused caller has at least `limit` grants at or after its own cutoff |
| RateLimiting.QueueCountsFromNewestCutoff | infra/provider-egress/proxy.py:245-249 | the queue answers exactly as the full history counted from the newest cutoff |
| RateLimiting.HarmlessIffNotOvertaken | infra/provider-egress/proxy.py:243-249 | in every run a waiting caller gets the answer of the full history, if and only if its cutoff is not older than one used before or the limit is one |
| RateLimiting.OvertakenCallerIsAdmitted | infra/provider-egress/proxy.py:243-249 | a run in which an overtaken caller is admitted although its own window is full |
| Gateway.ValidateTarget | infra/provider-egress/proxy.py:144-186 | an address is chosen if and only if host, port and resolution pass, every resolved address is public and one is a candidate; it is the first candidate |
| Gateway.StepKeepsInvariant | infra/provider-egress/proxy.py:277-343 | every step of every connection keeps grants single-use and tunnels behind passes, checks and grants (for this host, and in which order: `TunnelHistory.TunnelHasHistory`) |
| TunnelHistory.TunnelHasHistory | infra/provider-egress/proxy.py:277-343 | in every run, behind each tunnel stand in this order: its request parsed, the limiter passed, the domains loaded, the lookup checked, a grant of 1 to 4096 characters unused until then consumed by an authorization for this host whose answer arrived, and a connection |
| TunnelHistory.RefusedGrantChangesNothing | infra/provider-egress/proxy.py:189-231 | a grant that is empty, too long, used or issued for another host closes the connection and uses up nothing |
| TunnelHistory.ClosedStaysClosed | infra/provider-egress/proxy.py:277-345 | a connection that was denied opens nothing any more |
| TunnelHistory.TunnelTargetsArePublic | infra/provider-egress/proxy.py:144-186 | the address behind a tunnel is global, in none of the six excluded classes, and of a stream answer |
| TunnelHistory.DenialReasons | infra/provider-egress/proxy.py:144-183 | each reason to deny a target is given exactly when its test is the first that fails |
| TunnelHistory.TunnelOpens | infra/provider-egress/proxy.py:277-343 | an approved host with a public address and an unused grant does get its tunnel |
| Gateway.NoGrantOpensTwoTunnels | infra/provider-egress/proxy.py:189-343 | in every interleaving, two tunnels never use the same grant |
| Gateway.TunnelsAreBounded | infra/provider-egress/proxy.py:326-343 | tunnels never outnumber consumed grants, which never outnumber limiter passes |
| Gateway.TunnelsGoWhereTheyWereChecked | infra/provider-egress/proxy.py:144-340 | a tunnel connects to the address its check chose, the first candidate of a lookup whose every address was public, for an approved host on port 443 |
| Gateway.TunnelEvidenceWasGathered | infra/provider-egress/proxy.py:329-340 | the lookup behind a tunnel was made by the check of its own connection, under domains that connection had loaded |
| LimitedGateway.StepKeepsInvariant | infra/provider-egress/proxy.py:242-343 | every step of the limiter and the connections together keeps each pass tied to a grant of its own |
| LimitedGateway.ClientsTunnelWithinLimit | infra/provider-egress/proxy.py:236-343 | in every interleaving each tunnel stands for its own limiter grant, and no client gets more than `limit` tunnels from the grants of any sixty seconds |
| LimitedGateway.TunnelOpensBehindLimiter | infra/provider-egress/proxy.py:242-343 | under every limit above zero such a request of a new client passes the limiter and gets its tunnel |
| Allowlist.ReadAllowlist | infra/provider-egress/proxy.py:113-136 | accepts exactly when no line is bad and some line names a domain, with exactly the named domains; otherwise gives the reason of the first bad line, or emptiness |
| AllowlistLines.LineDecided | infra/provider-egress/proxy.py:115-135 | a line names a domain, is an address or is invalid, if and only if its name, between white space, before final dots and before a comment, is so in lower case |
| AllowlistLines.BlankLines | infra/provider-egress/proxy.py:115-118 | a line of white space and a comment is skipped |
| AllowlistLines.LinesAreLines | infra/provider-egress/proxy.py:139 | the canonical text has one line per domain, each ended by a line break |
| Allowlist.LoadAllowlist | infra/provider-egress/proxy.py:113-141 | an accepted file has the pinned digest, and a mismatch is reported only when its domains do not have it |
| Allowlist.AllowlistDigestIsExact | infra/provider-egress/proxy.py:137-140 | with an injective digest, two allowlists have the same digest if and only if they name the same domains |
| Allowlist.PinnedFilesAgree | infra/provider-egress/proxy.py:113-141 | under one pinned digest two files pass together exactly when their lines name the same domains |
| Base64Url.SextetsRoundTrip | apps/backend/src/biaice/core/http.py:70-80 | regrouping bytes into sextets and back is the identity |
| Base64Url.DecodeIffEncoded | apps/backend/src/biaice/core/http.py:70-80 | a text decodes to some bytes if and only if it is their encoding |
| Base64Url.EncodingIsStandard | apps/backend/src/biaice/core/http.py:70-72 | each four characters of an encoding stand for the bits of the next three bytes, six by six from the highest, with zeros behind the end |
| Base64Url.EncodedLength | apps/backend/src/biaice/core/http.py:70-72 | an encoding has as many characters as the bits need, and no padding |
| Base64Url.AlphabetIsStandard | apps/backend/src/biaice/core/http.py:70-72 | the character of six bits is the one that table 2 of RFC 4648 gives to their number |
| Base64Url.LenientDecoderIsNotInjective | apps/backend/src/biaice/core/http.py:78-79 | without the canonicality check two texts decode to the same bytes |
| Cursors.CarriedIff | apps/backend/src/biaice/core/http.py:92-98 | a cursor carries a payload and a signature if and only if it is their one spelling |
| Cursors.AcceptedIffSigned | apps/backend/src/biaice/core/http.py:94-111 | a cursor is accepted if and only if it is the signed spelling of a live payload of this scope |
| Cursors.OneSpellingPerPayload | apps/backend/src/biaice/core/http.py:94-101 | two cursors that pass the signature check with the same payload bytes are the same text |
| Cursors.IssuedCursorReturns | apps/backend/src/biaice/core/http.py:82-111 | an issued cursor returns its payload until it expires and never under another scope |
| Uuids.TextInjective | apps/backend/src/biaice/core/db.py:86-91 | different identifiers have different texts |
| Uuids.TextGroups | apps/backend/src/biaice/core/db.py:86-91 | the text is the hexadecimal digits in groups of eight, four, four, four and twelve |
| TenantIsolation.MemberThroughText | apps/backend/migrations/versions/0001_core_governance.py:40-45 | membership survives joining with commas and splitting again, for the empty list too |
| TenantIsolation.GuardMatchesPolicy | apps/backend/src/biaice/core/auth.py:430-448 | the guard allows a row if and only if the row policy is true under the settings written for the scope |
| TenantIsolation.UnboundSeesNothing | apps/backend/migrations/versions/0001_core_governance.py:33-61 | with a tenant or domain setting that is NULL or empty the policy is true of no row |
| TenantTransactions.Session.EnforceScopeOnFlush | apps/backend/src/biaice/core/db.py:44-62 | the hook passes if and only if every pending tenant row is allowed by the bound scope |
| TenantTransactions.Session.TenantTransaction | apps/backend/src/biaice/core/db.py:65-101 | one transaction takes the session to the state given by begin, bind, block, unbind, and commit or rollback (what that state holds: `CommittedRows.CommitsAllOrNothing`) |
| CommittedRows.CommitsAllOrNothing | apps/backend/src/biaice/core/db.py:65-101 | exactly when the block does not raise, touches and finds pending no row outside the scope, and flushes every tenant row itself, everything pending and touched is committed, in order; otherwise nothing is |
| CommittedRows.RaiseCommitsNothing | apps/backend/src/biaice/core/db.py:71-101 | an exception that leaves the block commits nothing |
| CommittedRows.ForeignRowCommitsNothing | apps/backend/src/biaice/core/db.py:44-101 | one row outside the scope lets nothing be committed, even when the refused flush is caught |
| TenantTransactions.TransactionCommitsOwnRows | apps/backend/src/biaice/core/db.py:65-101 | a transaction appends only rows that its own scope allows, and leaves nothing bound or pending |
| TenantTransactions.CommitsIffNothingPending | apps/backend/src/biaice/core/db.py:44-101 | a block that leaves a tenant row pending, or ends with an exception, commits nothing, and any other commits (what those blocks are: `CommittedRows.CommitsAllOrNothing`) |
| TenantTransactions.CommittedRowsWereAllowed | apps/backend/src/biaice/core/db.py:44-101 | over every run of transactions each committed tenant row was allowed by the scope bound at its flush |
| TenantTransactions.CommittedRowsPassPolicy | apps/backend/migrations/versions/0001_core_governance.py:33-61 | each committed tenant row satisfies the row policy under the settings of that scope |
| ScopedKeys.NamespaceHasNoDoubleDot | apps/backend/src/biaice/core/storage.py:42 | the namespace that enters a storage key contains no double dot |
| ScopedKeys.StorageKeysNeverCollide | apps/backend/src/biaice/core/storage.py:28-48 | equal storage keys have equal tenant, domain, project, unit, object and cleaned namespace |
| ScopedKeys.CacheKeysAreInjective | apps/backend/src/biaice/core/cache.py:10-31 | a cache key determines every argument it was made from |
| ScopedKeys.KeysStayInside | apps/backend/src/biaice/core/storage.py:36-41 | a key is made if and only if the project and the unit, where given, are within the scope; a cache key needs a safe namespace too |
| ScopedKeys.StorageKeyIsPath | apps/backend/src/biaice/core/storage.py:42-48 | a storage key is the path of tenant, domain, project, unit, namespace and object |
| ScopedKeys.CacheKeyIsList | apps/backend/src/biaice/core/cache.py:29-31 | a cache key lists tenant, domain, project, unit, namespace and resource |

## Left out

- Documents.Resolve: does not model a `$ref` with sibling keywords, such as `default`. The source merges it into a fresh dictionary on every visit, so that its pairs are never found visited and a cycle through one would not end.
- JsonPointers.JsonPointer: that the `pointers` of a document agree with this evaluation on a JSON tree is an assumption on documents, which are given as graphs.
- Inclusion.RequestAcceptancePreserved: the premises are exact keyword by keyword, not jointly; a value that another keyword refuses anyway may make a premise stronger than needed. No null stands in place of a schema, and no cycle is made of references alone.
- Inclusion.ResponseReadable: the reader ignores unknown keys and does not count the branches of a `oneOf` that fit, as a generated client does not.
- Revisions.AdditiveIsCompatible: additions are appended nodes, components and properties; renumbering of nodes is not modelled.
- GeneratedClient.GeneratedTypeSound: needs references to components only, component objects with `type: object`, inline maps without declared properties and distinct emitted names; a top-level component is reached through a reference.
- TypeScript.GenerateTypes: types are syntax trees, not the emitted text; escaping of literals and quoting of property names are not modelled. A `type` that is a list makes the generator raise, as in the source. Duplicate emitted names, which the source would print twice, overwrite each other.
- OldClients.GeneratedFunctionReturnsItsType: the source types a function by one success status only, so nothing is claimed of replies with another; an empty schema, which the source prints as void, counts as unknown.
- OldClients.OldParametersStillAccepted: a schema given to a parameter that had none is not compared by the source; the result needs that such a schema accepts every value.
- Contracts.ContractComparer.CompareOperation: parameters, bodies, responses and headers are given with their own references resolved. Parts that are not dictionaries are not modelled.
- ContractVerdict.FindBreakingChanges: operations are given by operationId; the wording, location and order of failure messages are not modelled. Operation-level transitivity is not stated, since dropped non-2xx responses and graduating stubs make it conditional.
- Compatibility.GreatestIsConsistent: keywords the comparison never reads (`pattern`, lengths, numeric bounds, `not`) have no meaning here; `format` is a text, `enum` a list and `required` a set, their malformed values are not modelled; JSON numbers are exact reals.
- AuditChain.VerifyHashChain: the hash is a function of the unsigned event; that the JSON dump and the texts of identifiers and times determine the event is part of that assumption.
- Allowlist.LoadAllowlist: splitting the file into lines, IDNA and the recognition of addresses are inputs; the gate evidence, its signature and its expiry are not modelled.
- Gateway.ValidateTarget: IDNA, lower-casing and DNS are inputs of the check.
- Gateway.NoGrantOpensTwoTunnels: the authorizer is assumed to accept a grant atomically once and for its host; everything else that may deny after consumption is one lost answer. Reading the request header, parsing the CONNECT line and the health endpoint are not modelled.
- Base64Url.DecodeIffEncoded: of the library decoder only what the wrapper can see is modelled: it reads the alphabet with the padding that the wrapper adds.
- Cursors.IssuedCursorReturns: the expiry is part of the payload given to the encoder; the JSON dump and parse are functions with a stated round trip.
- TenantTransactions.Session.TenantTransaction: the dialect is supported and `set_config` succeeds, and the session is not already in a transaction; savepoints and explicit commits inside the block are not modelled.
- TenantIsolation.GuardMatchesPolicy: the scope's ids reach the settings as a list in some order without loss; sorting them is not modelled.
- HTTP routers, the web interface, the generated client functions beyond their return types, role tables, settings, readiness probes and the other migrations: plumbing or finite data.
