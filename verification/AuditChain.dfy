/**
 * The hash-chained audit log: events, the independent verifier and the
 * in-memory sink and writer as they run in one thread.
 *
 * SHA-256 over the canonical dump of the unsigned fields is a function `digest`
 * that is injective and never yields the genesis value.
 */
module AuditChain {
  import opened Wrappers

  type Hash = string

  datatype Scope = Scope(tenantId: string, dataDomainId: string)

  /** Everything that the event hash covers. */
  datatype Unsigned = Unsigned(
    auditId: string,
    scope: Scope,
    actorId: string,
    actorRoles: seq<string>,
    action: string,
    objectType: string,
    objectId: string,
    objectVersionId: Option<string>,
    requestId: string,
    reasonCode: string,
    outcome: string,
    trustedAt: string,
    previousHash: Hash)

  datatype Event = Event(body: Unsigned, eventHash: Hash)

  const GENESIS_HASH: Hash := "0000000000000000000000000000000000000000000000000000000000000000"

  /** The event for a request, once the head it continues is known. */
  function Sign(digest: Unsigned -> Hash, request: Unsigned, previousHash: Hash): Event {
    var body := request.(previousHash := previousHash);
    Event(body, digest(body))
  }

  ghost predicate CollisionFree(digest: Unsigned -> Hash) {
    && (forall x, y | digest(x) == digest(y) :: x == y)
    && (forall x :: digest(x) != GENESIS_HASH)
  }

  // ---------------------------------------------------------------- the verifier

  /** The head of the chain: the hash of the last event, or genesis. */
  function Head(events: seq<Event>): Hash {
    if events == [] then GENESIS_HASH else events[|events| - 1].eventHash
  }

  predicate Linked(digest: Unsigned -> Hash, events: seq<Event>, i: nat)
    requires i < |events|
  {
    && events[i].body.scope == events[0].body.scope
    && events[i].body.previousHash == Head(events[..i])
    && events[i].eventHash == digest(events[i].body)
  }

  /** The list is one unbroken chain of one scope, starting at genesis. */
  predicate Chained(digest: Unsigned -> Hash, events: seq<Event>) {
    forall i | 0 <= i < |events| :: Linked(digest, events, i)
  }

  /** The verifier: the final hash, or None when it raises AUDIT_INTEGRITY_FAILED. */
  method VerifyHashChain(digest: Unsigned -> Hash, events: seq<Event>) returns (r: Option<Hash>)
    ensures r.Some? <==> Chained(digest, events)
    ensures r.Some? ==> r.value == Head(events)
  {
    var previousHash := GENESIS_HASH;
    var expectedScope: Option<Scope> := None;
    for i := 0 to |events|
      invariant previousHash == Head(events[..i])
      invariant expectedScope == if i == 0 then None else Some(events[0].body.scope)
      invariant forall j | 0 <= j < i :: Linked(digest, events, j)
    {
      var event := events[i];
      if expectedScope.None? {
        expectedScope := Some(event.body.scope);
      }
      if event.body.scope != expectedScope.value || event.body.previousHash != previousHash {
        assert !Linked(digest, events, i);
        return None;
      }
      if digest(event.body) != event.eventHash {
        assert !Linked(digest, events, i);
        return None;
      }
      previousHash := event.eventHash;
    }
    assert events[..|events|] == events;
    return Some(previousHash);
  }

  /** One event after another: the scope stays, each names the hash before it, and every hash is that of its event. */
  predicate GoesOn(digest: Unsigned -> Hash, events: seq<Event>, i: nat)
    requires i < |events|
  {
    && events[i].eventHash == digest(events[i].body)
    && (i == 0 ==> events[i].body.previousHash == "0000000000000000000000000000000000000000000000000000000000000000")
    && (i > 0 ==> events[i].body.previousHash == events[i - 1].eventHash)
    && (i > 0 ==> events[i].body.scope == events[i - 1].body.scope)
  }

  lemma {:induction false} GoesOnInScope(digest: Unsigned -> Hash, events: seq<Event>, i: nat)
    requires i < |events| && forall j | 0 <= j < |events| :: GoesOn(digest, events, j)
    ensures events[i].body.scope == events[0].body.scope
  {
    if i > 0 {
      GoesOnInScope(digest, events, i - 1);
      assert GoesOn(digest, events, i);
    }
  }

  /** What is verified, event by event. */
  lemma ChainedIffGoesOn(digest: Unsigned -> Hash, events: seq<Event>)
    ensures Chained(digest, events) <==> forall i | 0 <= i < |events| :: GoesOn(digest, events, i)
  {
    if Chained(digest, events) {
      forall i | 0 <= i < |events| ensures GoesOn(digest, events, i) {
        assert Linked(digest, events, i);
        if i > 0 {
          assert Linked(digest, events, i - 1);
        }
      }
    }
    if forall i | 0 <= i < |events| :: GoesOn(digest, events, i) {
      forall i | 0 <= i < |events| ensures Linked(digest, events, i) {
        assert GoesOn(digest, events, i);
        GoesOnInScope(digest, events, i);
      }
    }
  }

  lemma PrefixChained(digest: Unsigned -> Hash, events: seq<Event>, n: nat)
    requires Chained(digest, events) && n <= |events|
    ensures Chained(digest, events[..n])
  {
    forall i | 0 <= i < n ensures Linked(digest, events[..n], i) {
      assert Linked(digest, events, i);
      assert events[..n][..i] == events[..i];
    }
  }

  /** A verified list is determined by its head: nothing can be edited, dropped, moved or spliced in under it. */
  lemma {:induction false} HeadDeterminesEvents(digest: Unsigned -> Hash, xs: seq<Event>, ys: seq<Event>)
    requires CollisionFree(digest)
    requires Chained(digest, xs) && Chained(digest, ys) && Head(xs) == Head(ys)
    ensures xs == ys
    decreases |xs|
  {
    if xs != [] {
      assert Linked(digest, xs, |xs| - 1);
    }
    if ys != [] {
      assert Linked(digest, ys, |ys| - 1);
    }
    if xs != [] && ys != [] {
      var m, n := |xs| - 1, |ys| - 1;
      PrefixChained(digest, xs, m);
      PrefixChained(digest, ys, n);
      HeadDeterminesEvents(digest, xs[..m], ys[..n]);
      assert xs == xs[..m] + [xs[m]] && ys == ys[..n] + [ys[n]];
    }
  }

  /** Whatever is done to a verified log either is rejected or changes the head that was anchored. */
  lemma TamperingShows(digest: Unsigned -> Hash, original: seq<Event>, tampered: seq<Event>)
    requires CollisionFree(digest) && Chained(digest, original) && tampered != original
    ensures !Chained(digest, tampered) || Head(tampered) != Head(original)
  {
    if Chained(digest, tampered) && Head(tampered) == Head(original) {
      HeadDeterminesEvents(digest, original, tampered);
    }
  }

  // ---------------------------------------------------------------- one list, many scopes

  /** The events of one scope, in order. */
  function OfScope(events: seq<Event>, scope: Scope): seq<Event> {
    if events == [] then []
    else
      var n := |events| - 1;
      OfScope(events[..n], scope) + if events[n].body.scope == scope then [events[n]] else []
  }

  lemma OfScopeAppend(events: seq<Event>, event: Event, scope: Scope)
    ensures OfScope(events + [event], scope) ==
            OfScope(events, scope) + if event.body.scope == scope then [event] else []
  {
    assert (events + [event])[..|events|] == events;
  }

  lemma {:induction false} OfScopeHasScope(events: seq<Event>, scope: Scope)
    ensures forall i | 0 <= i < |OfScope(events, scope)| :: OfScope(events, scope)[i].body.scope == scope
  {
    if events != [] {
      OfScopeHasScope(events[..|events| - 1], scope);
    }
  }

  /** Every scope has an unbroken chain of its own inside the shared list. */
  ghost predicate AllChained(digest: Unsigned -> Hash, events: seq<Event>) {
    forall scope :: Chained(digest, OfScope(events, scope))
  }

  /** A chain goes on with an event of its scope that is signed on its head. */
  lemma ChainGoesOn(digest: Unsigned -> Hash, chain: seq<Event>, event: Event)
    requires Chained(digest, chain) && (chain != [] ==> event.body.scope == chain[0].body.scope)
    requires event.body.previousHash == Head(chain) && event.eventHash == digest(event.body)
    ensures Chained(digest, chain + [event])
  {
    var longer := chain + [event];
    forall i | 0 <= i < |longer| ensures Linked(digest, longer, i) {
      if i < |chain| {
        assert Linked(digest, chain, i) && chain[..i] == longer[..i];
      } else {
        assert longer[..i] == chain;
      }
    }
  }

  /** An event that carries its own scope's head extends that chain and leaves every other alone. */
  lemma AppendKeepsChains(digest: Unsigned -> Hash, events: seq<Event>, event: Event)
    requires AllChained(digest, events)
    requires event.body.previousHash == Head(OfScope(events, event.body.scope))
    requires event.eventHash == digest(event.body)
    ensures AllChained(digest, events + [event])
    ensures Head(OfScope(events + [event], event.body.scope)) == event.eventHash
  {
    forall scope ensures Chained(digest, OfScope(events + [event], scope)) {
      OfScopeAppend(events, event, scope);
      OfScopeHasScope(events, scope);
      assert Chained(digest, OfScope(events, scope));
      assert OfScope(events, scope) + [] == OfScope(events, scope);
      if event.body.scope == scope {
        ChainGoesOn(digest, OfScope(events, scope), event);
      }
    }
    OfScopeAppend(events, event, event.body.scope);
  }

  // ---------------------------------------------------------------- the sink and the writer

  class InMemorySink {
    var events: seq<Event>
    var available: bool

    constructor ()
      ensures events == [] && available
    {
      events, available := [], true;
    }

    method SetAvailable(value: bool)
      modifies this`available
      ensures available == value
    {
      available := value;
    }

    method ListEvents(scope: Scope) returns (r: seq<Event>)
      ensures r == OfScope(events, scope)
    {
      r := [];
      for i := 0 to |events|
        invariant r == OfScope(events[..i], scope)
      {
        assert events[..i + 1] == events[..i] + [events[i]];
        OfScopeAppend(events[..i], events[i], scope);
        if events[i].body.scope == scope {
          r := r + [events[i]];
        }
      }
      assert events[..|events|] == events;
    }

    method LatestHash(scope: Scope) returns (r: Option<Hash>)
      ensures r == if OfScope(events, scope) == [] then None else Some(Head(OfScope(events, scope)))
    {
      var matches := ListEvents(scope);
      r := if matches == [] then None else Some(matches[|matches| - 1].eventHash);
    }

    /** False when the sink is unavailable; nothing but this method changes the list. */
    method Append(event: Event) returns (ok: bool)
      modifies this`events
      ensures ok == available
      ensures events == if ok then old(events) + [event] else old(events)
    {
      ok := available;
      if ok {
        events := events + [event];
      }
    }
  }

  /** The log after a write: one more event, signed on the head of its scope. */
  function Written(digest: Unsigned -> Hash, events: seq<Event>, request: Unsigned): seq<Event> {
    events + [Sign(digest, request, Head(OfScope(events, request.scope)))]
  }

  class HashChainWriter {
    const sink: InMemorySink
    const digest: Unsigned -> Hash

    constructor (sink: InMemorySink, digest: Unsigned -> Hash)
      ensures this.sink == sink && this.digest == digest
    {
      this.sink := sink;
      this.digest := digest;
    }

    /** `request` carries what the caller, the clock and the id generator supply; None is AUDIT_UNAVAILABLE. */
    method Write(request: Unsigned) returns (r: Option<Event>)
      requires AllChained(digest, sink.events)
      modifies sink`events
      ensures AllChained(digest, sink.events)
      ensures r.Some? <==> sink.available
      ensures r.None? ==> sink.events == old(sink.events)
      ensures r.Some? ==>
                && sink.events == old(sink.events) + [r.value] == Written(digest, old(sink.events), request)
                && r.value.body == request.(previousHash := Head(OfScope(old(sink.events), request.scope)))
                && Head(OfScope(sink.events, request.scope)) == r.value.eventHash
    {
      if !sink.available {
        return None;
      }
      var latest := sink.LatestHash(request.scope);
      var previousHash := if latest.Some? then latest.value else GENESIS_HASH;
      var event := Sign(digest, request, previousHash);
      var ok := sink.Append(event);
      if !ok {
        return None;
      }
      AppendKeepsChains(digest, old(sink.events), event);
      return Some(event);
    }
  }
}
