/**
 * Any number of threads writing audit events for any mix of tenants through one
 * writer, step by step, with the sink's availability flipping at any moment.
 */
module AuditThreads {
  import opened Wrappers
  import opened AuditChain

  type ThreadId = nat

  /** Where a thread stands inside `write`. */
  datatype Point =
    | Outside
    | Waiting(request: Unsigned)                      // found the sink available, wants the lock
    | Locked(request: Unsigned)                       // holds the lock
    | HasHead(request: Unsigned, previousHash: Hash)  // read the latest hash of its scope
    | HasEvent(event: Event)                          // built and hashed the event

  predicate HoldsLock(p: Point) {
    p.Locked? || p.HasHead? || p.HasEvent?
  }

  datatype State = State(
    events: seq<Event>,
    available: bool,
    lock: Option<ThreadId>,
    points: map<ThreadId, Point>)

  function At(s: State, t: ThreadId): Point {
    if t in s.points then s.points[t] else Outside
  }

  datatype Action =
    | SetAvailable(value: bool)
    | Call(thread: ThreadId, request: Unsigned)   // the availability check before the lock
    | Acquire(thread: ThreadId)
    | ReadHead(thread: ThreadId)
    | Build(thread: ThreadId)
    | Append(thread: ThreadId)                    // the sink's own check, the append and the release

  function Move(s: State, t: ThreadId, p: Point, lock: Option<ThreadId>): State {
    State(s.events, s.available, lock, s.points[t := p])
  }

  predicate Enabled(s: State, a: Action) {
    match a
    case SetAvailable(_) => true
    case Call(t, _) => At(s, t).Outside?
    case Acquire(t) => At(s, t).Waiting? && s.lock.None?
    case ReadHead(t) => At(s, t).Locked?
    case Build(t) => At(s, t).HasHead?
    case Append(t) => At(s, t).HasEvent?
  }

  function Step(digest: Unsigned -> Hash, s: State, a: Action): State
    requires Enabled(s, a)
  {
    match a
    case SetAvailable(value) => State(s.events, value, s.lock, s.points)
    case Call(t, request) => if s.available then Move(s, t, Waiting(request), s.lock) else s
    case Acquire(t) => Move(s, t, Locked(At(s, t).request), Some(t))
    case ReadHead(t) => Move(s, t, WithHead(s.events, At(s, t).request), s.lock)
    case Build(t) => Move(s, t, HasEvent(Sign(digest, At(s, t).request, At(s, t).previousHash)), s.lock)
    case Append(t) =>
      State(if s.available then s.events + [At(s, t).event] else s.events, s.available, None, s.points[t := Outside])
  }

  function WithHead(events: seq<Event>, request: Unsigned): Point {
    HasHead(request, Head(OfScope(events, request.scope)))
  }

  const INITIAL := State([], true, None, map[])

  predicate Takes(digest: Unsigned -> Hash, before: State, a: Action, after: State) {
    Enabled(before, a) && after == Step(digest, before, a)
  }

  /** A run: the states passed through, one action leading from each to the next. */
  ghost predicate IsRun(digest: Unsigned -> Hash, states: seq<State>, actions: seq<Action>) {
    && |states| == |actions| + 1
    && states[0] == INITIAL
    && forall i | 0 <= i < |actions| :: Takes(digest, states[i], actions[i], states[i + 1])
  }

  ghost predicate PointHolds(digest: Unsigned -> Hash, events: seq<Event>, p: Point) {
    match p
    case HasHead(request, previousHash) => previousHash == Head(OfScope(events, request.scope))
    case HasEvent(event) =>
      && event.body.previousHash == Head(OfScope(events, event.body.scope))
      && event.eventHash == digest(event.body)
    case _ => true
  }

  /** Only the lock holder is inside, and what it read of its scope's head is still so. */
  ghost predicate Invariant(digest: Unsigned -> Hash, s: State) {
    && AllChained(digest, s.events)
    && forall t | t in s.points ::
         (HoldsLock(s.points[t]) ==> s.lock == Some(t)) && PointHolds(digest, s.events, s.points[t])
  }

  lemma StepKeepsInvariant(digest: Unsigned -> Hash, s: State, a: Action)
    requires Invariant(digest, s) && Enabled(s, a)
    ensures Invariant(digest, Step(digest, s, a))
  {
    if a.Append? && s.available {
      AppendKeepsChains(digest, s.events, At(s, a.thread).event);
    }
  }

  lemma {:induction false} RunsKeepInvariant(digest: Unsigned -> Hash, states: seq<State>, actions: seq<Action>, i: nat)
    requires IsRun(digest, states, actions) && i < |states|
    ensures Invariant(digest, states[i])
  {
    if i > 0 {
      RunsKeepInvariant(digest, states, actions, i - 1);
      assert Takes(digest, states[i - 1], actions[i - 1], states[i]);
      StepKeepsInvariant(digest, states[i - 1], actions[i - 1]);
    }
  }

  /** Whatever happened in between, an append that succeeds is one undivided write of the method. */
  lemma AppendIsWrite(digest: Unsigned -> Hash, states: seq<State>, actions: seq<Action>, i: nat, t: ThreadId)
    requires IsRun(digest, states, actions) && i < |states| && At(states[i], t).HasEvent? && states[i].available
    ensures var s := states[i];
            Step(digest, s, Append(t)).events == Written(digest, s.events, At(s, t).event.body)
  {
    RunsKeepInvariant(digest, states, actions, i);
    assert PointHolds(digest, states[i].events, states[i].points[t]);
  }

  /** Main result: in every state of every run, every scope's list is a chain that the verifier accepts. */
  lemma EveryScopeVerifiesAlways(digest: Unsigned -> Hash, states: seq<State>, actions: seq<Action>)
    requires IsRun(digest, states, actions)
    ensures forall i, scope | 0 <= i < |states| :: Chained(digest, OfScope(states[i].events, scope))
  {
    forall i, scope | 0 <= i < |states| ensures Chained(digest, OfScope(states[i].events, scope)) {
      RunsKeepInvariant(digest, states, actions, i);
    }
  }

  /** The log only grows: an event once appended stays where it is. */
  lemma {:induction false} LogIsAppendOnly(digest: Unsigned -> Hash, states: seq<State>, actions: seq<Action>,
                                           i: nat, j: nat)
    requires IsRun(digest, states, actions) && i <= j < |states|
    ensures states[i].events <= states[j].events
  {
    if i < j {
      LogIsAppendOnly(digest, states, actions, i, j - 1);
      assert Takes(digest, states[j - 1], actions[j - 1], states[j]);
    }
  }

  /**
   * A head anchored at one moment commits to the scope's events at that moment:
   * any later verified copy of the log with the same head is that very list.
   */
  lemma AnchoredHeadCommits(digest: Unsigned -> Hash, states: seq<State>, actions: seq<Action>, i: nat,
                            scope: Scope, presented: seq<Event>)
    requires CollisionFree(digest) && IsRun(digest, states, actions) && i < |states|
    requires Chained(digest, presented) && Head(presented) == Head(OfScope(states[i].events, scope))
    ensures presented == OfScope(states[i].events, scope)
  {
    EveryScopeVerifiesAlways(digest, states, actions);
    HeadDeterminesEvents(digest, presented, OfScope(states[i].events, scope));
  }

  // ---------------------------------------------------------------- where events come from

  /** Before state i the thread asked to write this request, and the sink was available then. */
  ghost predicate WasCalled(states: seq<State>, actions: seq<Action>, i: nat, t: ThreadId, request: Unsigned) {
    exists k :: 0 <= k < i && k < |actions| && k < |states| && actions[k] == Call(t, request) && states[k].available
  }

  ghost predicate CameFromCall(states: seq<State>, actions: seq<Action>, i: nat, t: ThreadId, p: Point) {
    match p
    case Outside => true
    case Waiting(request) => WasCalled(states, actions, i, t, request)
    case Locked(request) => WasCalled(states, actions, i, t, request)
    case HasHead(request, _) => WasCalled(states, actions, i, t, request)
    case HasEvent(event) =>
      exists request ::
        WasCalled(states, actions, i, t, request) && event.body == request.(previousHash := event.body.previousHash)
  }

  lemma LaterStill(states: seq<State>, actions: seq<Action>, i: nat, t: ThreadId, p: Point)
    requires CameFromCall(states, actions, i, t, p)
    ensures CameFromCall(states, actions, i + 1, t, p)
  {
    if p.HasEvent? {
      var request :| WasCalled(states, actions, i, t, request)
                     && p.event.body == request.(previousHash := p.event.body.previousHash);
      assert WasCalled(states, actions, i + 1, t, request);
    }
  }

  lemma {:induction false} PointsCameFromCalls(digest: Unsigned -> Hash, states: seq<State>, actions: seq<Action>,
                                               i: nat, t: ThreadId)
    requires IsRun(digest, states, actions) && i < |states|
    ensures CameFromCall(states, actions, i, t, At(states[i], t))
  {
    if i > 0 {
      var s, a, s' := states[i - 1], actions[i - 1], states[i];
      PointsCameFromCalls(digest, states, actions, i - 1, t);
      assert Takes(digest, s, a, s');
      LaterStill(states, actions, i - 1, t, At(s, t));
      if a.Call? && a.thread == t && s.available {
        assert WasCalled(states, actions, i, t, a.request);
      }
      if a.Build? && a.thread == t {
        assert WasCalled(states, actions, i, t, At(s, t).request);
      }
    }
  }

  /**
   * Main result: the log changes only when a thread appends while the sink is
   * available.  It gains one event then: the request that this thread asked to
   * write while the sink was available, signed on the present head of its scope.
   */
  lemma EveryEventWasAskedFor(digest: Unsigned -> Hash, states: seq<State>, actions: seq<Action>, i: nat)
    requires IsRun(digest, states, actions) && i < |actions| && states[i + 1].events != states[i].events
    ensures states[i].available && actions[i].Append?
    ensures exists request ::
              && WasCalled(states, actions, i, actions[i].thread, request)
              && states[i + 1].events == Written(digest, states[i].events, request)
  {
    var s, a := states[i], actions[i];
    assert Takes(digest, s, a, states[i + 1]);
    var event := At(s, a.thread).event;
    PointsCameFromCalls(digest, states, actions, i, a.thread);
    AppendIsWrite(digest, states, actions, i, a.thread);
    var request :| WasCalled(states, actions, i, a.thread, request)
                   && event.body == request.(previousHash := event.body.previousHash);
    assert Sign(digest, request, Head(OfScope(s.events, request.scope))) ==
           Sign(digest, event.body, Head(OfScope(s.events, event.body.scope)));
  }

  /** A write that finds the sink unavailable, before the lock or at the end, leaves no event and frees the lock. */
  lemma UnavailableWritesNothing(digest: Unsigned -> Hash, s: State, t: ThreadId, request: Unsigned)
    requires !s.available
    ensures At(s, t).Outside? ==> Step(digest, s, Call(t, request)) == s
    ensures At(s, t).HasEvent? ==>
              var s' := Step(digest, s, Append(t)); s'.events == s.events && s'.lock.None? && At(s', t).Outside?
  {
  }

  /** A thread that is not hindered writes its event: the five steps do what the method does. */
  lemma UnhinderedWrite(digest: Unsigned -> Hash, s: State, t: ThreadId, request: Unsigned) returns (states: seq<State>)
    requires s.available && s.lock.None? && At(s, t).Outside?
    ensures |states| == 6 && states[0] == s
    ensures Takes(digest, states[0], Call(t, request), states[1]) && Takes(digest, states[1], Acquire(t), states[2])
    ensures Takes(digest, states[2], ReadHead(t), states[3]) && Takes(digest, states[3], Build(t), states[4])
    ensures Takes(digest, states[4], Append(t), states[5])
    ensures states[5].events == Written(digest, s.events, request) && states[5].lock.None? && At(states[5], t).Outside?
  {
    var s1 := Step(digest, s, Call(t, request));
    var s2 := Step(digest, s1, Acquire(t));
    var s3 := Step(digest, s2, ReadHead(t));
    var s4 := Step(digest, s3, Build(t));
    states := [s, s1, s2, s3, s4, Step(digest, s4, Append(t))];
  }

  /** The verifier run on any scope at any moment returns that scope's latest hash, or genesis. */
  method VerifyReachable(digest: Unsigned -> Hash, ghost states: seq<State>, ghost actions: seq<Action>,
                         ghost i: nat, events: seq<Event>, scope: Scope)
    returns (r: Option<Hash>)
    requires IsRun(digest, states, actions) && i < |states| && events == states[i].events
    ensures r == Some(Head(OfScope(events, scope)))
  {
    r := VerifyHashChain(digest, OfScope(events, scope));
    EveryScopeVerifiesAlways(digest, states, actions);
  }
}
