/**
 * The sliding-window limiter of the egress gateway.  Each caller reads the
 * clock for its cutoff before it takes the lock and reads it again, inside,
 * for the time of the grant; so callers can enter with a cutoff that is older
 * than one already used.
 */
module RateLimiting {
  import opened Wrappers

  const WINDOW := 60.0

  /** Removes what lies before the cutoff from the front of a queue. */
  function Prune(queue: seq<real>, cutoff: real): (r: seq<real>)
    ensures |r| <= |queue|
  {
    if queue == [] || queue[0] >= cutoff then queue else Prune(queue[1..], cutoff)
  }

  function Max(a: real, b: real): real {
    if a >= b then a else b
  }

  predicate Sorted(times: seq<real>) {
    forall i, j | 0 <= i <= j < |times| :: times[i] <= times[j]
  }

  lemma {:induction false} PruneKeepsLate(times: seq<real>, cutoff: real)
    requires Sorted(times)
    ensures forall i | 0 <= i < |times| :: times[i] >= cutoff <==> i >= |times| - |Prune(times, cutoff)|
  {
    if times != [] && times[0] < cutoff {
      PruneKeepsLate(times[1..], cutoff);
      forall i | 0 <= i < |times|
        ensures times[i] >= cutoff <==> i >= |times| - |Prune(times, cutoff)|
      {
        if i > 0 {
          assert times[i] == times[1..][i - 1];
        }
      }
    }
  }

  /** Two prunings in either order leave what the later cutoff leaves. */
  lemma {:induction false} PruneTwice(times: seq<real>, first: real, second: real)
    requires Sorted(times)
    ensures Prune(Prune(times, first), second) == Prune(times, Max(first, second))
  {
    if times != [] && times[0] < first {
      PruneTwice(times[1..], first, second);
    } else {
      PruneKeepsLate(times, second);
      PruneKeepsLate(times, Max(first, second));
    }
  }

  lemma {:induction false} PruneAppend(times: seq<real>, cutoff: real, now: real)
    requires now >= cutoff
    ensures Prune(times + [now], cutoff) == Prune(times, cutoff) + [now]
  {
    if times != [] && times[0] < cutoff {
      assert (times + [now])[1..] == times[1..] + [now];
      PruneAppend(times[1..], cutoff, now);
    }
  }

  // ---------------------------------------------------------------- one caller at a time

  /** The answer, and what the key's queue becomes. */
  function Answer(limit: nat, queue: seq<real>, cutoff: real, now: real): (bool, seq<real>) {
    var kept := Prune(queue, cutoff);
    if |kept| < limit then (true, kept + [now]) else (false, kept)
  }

  class RateLimiter {
    const limit: nat
    var events: map<string, seq<real>>

    constructor (limit: int)
      ensures this.limit == (if limit < 1 then 1 else if limit > 600 then 600 else limit)
      ensures events == map[]
    {
      this.limit := if limit < 1 then 1 else if limit > 600 then 600 else limit;
      this.events := map[];
    }

    function Queue(key: string): seq<real>
      reads this`events
    {
      if key in events then events[key] else []
    }

    /** `cutoff` was read before the lock was taken; `now` is what the clock says inside. */
    method Allow(key: string, cutoff: real, now: real) returns (allowed: bool)
      modifies this`events
      ensures (allowed, Queue(key)) == Answer(limit, old(Queue(key)), cutoff, now)
      ensures events == old(events)[key := Queue(key)]
    {
      var queue := DropOld(Queue(key), cutoff);
      allowed := |queue| < limit;
      if allowed {
        queue := queue + [now];
      }
      events := events[key := queue];
    }
  }

  method DropOld(times: seq<real>, cutoff: real) returns (queue: seq<real>)
    ensures queue == Prune(times, cutoff)
  {
    queue := times;
    while queue != [] && queue[0] < cutoff
      invariant Prune(queue, cutoff) == Prune(times, cutoff)
      decreases |queue|
    {
      queue := queue[1..];
    }
  }

  // ---------------------------------------------------------------- any number of callers

  type ThreadId = nat

  datatype Point =
    | Outside
    | Entering(key: string, cutoff: real)   // read the clock, wants the lock
    | Admitted(key: string)                 // holds the lock, found room

  /**
   * One key.  `queue` is the limiter's memory; `granted` and `newest` are what
   * an observer writes down: every grant ever made, and the latest cutoff with
   * which a caller has entered.
   */
  datatype Account = Account(queue: seq<real>, granted: seq<real>, newest: Option<real>)

  datatype State = State(
    clock: real,
    lock: Option<ThreadId>,
    accounts: map<string, Account>,
    points: map<ThreadId, Point>)

  datatype Action =
    | Tick(time: real)
    | ReadClock(thread: ThreadId, key: string)
    | Enter(thread: ThreadId)
    | Grant(thread: ThreadId)

  function At(s: State, t: ThreadId): Point {
    if t in s.points then s.points[t] else Outside
  }

  function Of(s: State, key: string): Account {
    if key in s.accounts then s.accounts[key] else Account([], [], None)
  }

  /** The later of the cutoff and those with which callers entered before. */
  function Newest(account: Account, cutoff: real): real {
    if account.newest.Some? then Max(account.newest.value, cutoff) else cutoff
  }

  predicate Enabled(s: State, a: Action) {
    match a
    case Tick(time) => time >= 0.0
    case ReadClock(t, _) => At(s, t).Outside?
    case Enter(t) => At(s, t).Entering? && s.lock.None?
    case Grant(t) => At(s, t).Admitted?
  }

  /** The answer the limiter gives to a caller that enters now. */
  predicate Admits(limit: nat, account: Account, cutoff: real) {
    |Prune(account.queue, cutoff)| < limit
  }

  function Entered(account: Account, cutoff: real): Account {
    Account(Prune(account.queue, cutoff), account.granted, Some(Newest(account, cutoff)))
  }

  function Granted(account: Account, now: real): Account {
    Account(account.queue + [now], account.granted + [now], account.newest)
  }

  function Move(s: State, t: ThreadId, p: Point, lock: Option<ThreadId>, key: string, account: Account): State {
    State(s.clock, lock, s.accounts[key := account], s.points[t := p])
  }

  function Step(limit: nat, s: State, a: Action): State
    requires Enabled(s, a)
  {
    match a
    case Tick(time) => State(s.clock + time, s.lock, s.accounts, s.points)
    case ReadClock(t, key) => State(s.clock, s.lock, s.accounts, s.points[t := Entering(key, s.clock - WINDOW)])
    case Enter(t) =>
      var key, cutoff := At(s, t).key, At(s, t).cutoff;
      if Admits(limit, Of(s, key), cutoff)
      then Move(s, t, Admitted(key), Some(t), key, Entered(Of(s, key), cutoff))
      else Move(s, t, Outside, None, key, Entered(Of(s, key), cutoff))
    case Grant(t) =>
      var key := At(s, t).key;
      Move(s, t, Outside, None, key, Granted(Of(s, key), s.clock))
  }

  /** The steps of a caller inside the lock, with any time between them, do to its key what Allow does. */
  lemma StepsAreAllow(limit: nat, s: State, t: ThreadId, time: real)
    requires At(s, t).Entering? && s.lock.None? && time >= 0.0
    ensures var key, cutoff, inside := At(s, t).key, At(s, t).cutoff, Step(limit, s, Enter(t));
            var (allowed, queue) := Answer(limit, Of(s, key).queue, cutoff, s.clock + time);
            if allowed then
              var later := Step(limit, inside, Tick(time));
              At(later, t) == Admitted(key) && Of(Step(limit, later, Grant(t)), key).queue == queue
            else At(inside, t).Outside? && Of(inside, key).queue == queue
  {
  }

  /** The clock counts from wherever it likes. */
  function Initial(clock: real): State {
    State(clock, None, map[], map[])
  }

  ghost predicate IsRun(limit: nat, states: seq<State>, actions: seq<Action>) {
    && |states| == |actions| + 1
    && states[0] == Initial(states[0].clock)
    && forall i | 0 <= i < |actions| :: Takes(limit, states[i], actions[i], states[i + 1])
  }

  predicate Takes(limit: nat, before: State, a: Action, after: State) {
    Enabled(before, a) && after == Step(limit, before, a)
  }

  /** More than `limit` grants in a row span more than one window. */
  predicate Spaced(limit: nat, times: seq<real>) {
    forall i, j | 0 <= i && i + limit <= j < |times| :: times[i] + WINDOW < times[j]
  }

  /** What holds of one key at any time. */
  predicate Consistent(limit: nat, clock: real, account: Account) {
    && Sorted(account.granted) && Spaced(limit, account.granted)
    && (account.granted != [] ==> account.granted[|account.granted| - 1] <= clock)
    && match account.newest
       case None => account.granted == [] && account.queue == []
       case Some(cutoff) => cutoff <= clock - WINDOW && account.queue == Prune(account.granted, cutoff)
  }

  predicate KeyHolds(limit: nat, s: State, key: string) {
    Consistent(limit, s.clock, Of(s, key))
  }

  predicate PointHolds(limit: nat, s: State, t: ThreadId) {
    match At(s, t)
    case Outside => true
    case Entering(_, cutoff) => cutoff <= s.clock - WINDOW
    case Admitted(key) => s.lock == Some(t) && Of(s, key).newest.Some? && |Of(s, key).queue| < limit
  }

  ghost predicate Invariant(limit: nat, s: State) {
    && (forall key :: KeyHolds(limit, s, key))
    && (forall t :: PointHolds(limit, s, t))
  }

  lemma EnterKeepsKey(limit: nat, clock: real, account: Account, cutoff: real)
    requires Consistent(limit, clock, account) && cutoff <= clock - WINDOW
    ensures Consistent(limit, clock, Entered(account, cutoff))
  {
    if account.newest.Some? {
      PruneTwice(account.granted, account.newest.value, cutoff);
    }
  }

  lemma SortedAppend(granted: seq<real>, now: real)
    requires Sorted(granted) && (granted != [] ==> granted[|granted| - 1] <= now)
    ensures Sorted(granted + [now])
  {
  }

  /** A grant keeps the limit because few recent grants are left in the queue. */
  lemma SpacedAppend(limit: nat, granted: seq<real>, cutoff: real, now: real)
    requires Sorted(granted) && Spaced(limit, granted)
    requires cutoff <= now - WINDOW && |Prune(granted, cutoff)| < limit
    ensures Spaced(limit, granted + [now])
  {
    PruneKeepsLate(granted, cutoff);
    var longer := granted + [now];
    forall i, j | 0 <= i && i + limit <= j < |longer| ensures longer[i] + WINDOW < longer[j] {
      assert longer[i] == granted[i];
      if j < |granted| {
        assert longer[j] == granted[j];
      } else {
        assert longer[j] == now && granted[i] < cutoff;
      }
    }
  }

  lemma GrantKeepsKey(limit: nat, now: real, account: Account)
    requires Consistent(limit, now, account) && account.newest.Some? && |account.queue| < limit
    ensures Consistent(limit, now, Granted(account, now))
  {
    SortedAppend(account.granted, now);
    SpacedAppend(limit, account.granted, account.newest.value, now);
    PruneAppend(account.granted, account.newest.value, now);
  }

  /** While one caller changes one key, everything else stays as it was. */
  lemma MoveKeeps(limit: nat, s: State, t: ThreadId, p: Point, lock: Option<ThreadId>, key: string, account: Account)
    requires Invariant(limit, s) && Consistent(limit, s.clock, account)
    requires s.lock.None? || s.lock == Some(t)
    requires PointHolds(limit, Move(s, t, p, lock, key, account), t)
    ensures Invariant(limit, Move(s, t, p, lock, key, account))
  {
    var s' := Move(s, t, p, lock, key, account);
    forall k ensures KeyHolds(limit, s', k) {
      assert KeyHolds(limit, s, k);
    }
    forall u ensures PointHolds(limit, s', u) {
      assert PointHolds(limit, s, u);
    }
  }

  lemma StepKeepsInvariant(limit: nat, s: State, a: Action)
    requires Invariant(limit, s) && Enabled(s, a)
    ensures Invariant(limit, Step(limit, s, a))
  {
    match a
    case Enter(t) =>
      var key, cutoff := At(s, t).key, At(s, t).cutoff;
      assert KeyHolds(limit, s, key) && PointHolds(limit, s, t);
      EnterKeepsKey(limit, s.clock, Of(s, key), cutoff);
      if Admits(limit, Of(s, key), cutoff) {
        MoveKeeps(limit, s, t, Admitted(key), Some(t), key, Entered(Of(s, key), cutoff));
      } else {
        MoveKeeps(limit, s, t, Outside, None, key, Entered(Of(s, key), cutoff));
      }
    case Grant(t) =>
      var key := At(s, t).key;
      assert KeyHolds(limit, s, key) && PointHolds(limit, s, t);
      GrantKeepsKey(limit, s.clock, Of(s, key));
      MoveKeeps(limit, s, t, Outside, None, key, Granted(Of(s, key), s.clock));
    case _ =>
      var s' := Step(limit, s, a);
      forall k ensures KeyHolds(limit, s', k) {
        assert KeyHolds(limit, s, k);
      }
      forall u ensures PointHolds(limit, s', u) {
        assert PointHolds(limit, s, u);
      }
  }

  lemma {:induction false} RunsKeepInvariant(limit: nat, states: seq<State>, actions: seq<Action>, i: nat)
    requires IsRun(limit, states, actions) && i < |states|
    ensures Invariant(limit, states[i])
  {
    if i > 0 {
      RunsKeepInvariant(limit, states, actions, i - 1);
      assert Takes(limit, states[i - 1], actions[i - 1], states[i]);
      StepKeepsInvariant(limit, states[i - 1], actions[i - 1]);
    }
  }

  // ---------------------------------------------------------------- what callers can rely on

  /** The grants inside the closed window that starts at `from`, as positions in the list. */
  function InWindow(times: seq<real>, from: real): set<nat> {
    set i | 0 <= i < |times| && from <= times[i] <= from + WINDOW
  }

  lemma {:induction false} FewInRange(positions: set<nat>, low: nat, size: nat)
    requires forall i | i in positions :: low <= i < low + size
    ensures |positions| <= size
    decreases size
  {
    if size > 0 {
      var rest := positions - {low + size - 1};
      FewInRange(rest, low, size - 1);
      assert positions <= rest + {low + size - 1};
      if low + size - 1 in positions {
        assert positions == rest + {low + size - 1};
      } else {
        assert positions == rest;
      }
    } else {
      assert positions == {};
    }
  }

  lemma SpacedFitsWindow(limit: nat, times: seq<real>, from: real)
    requires Sorted(times) && Spaced(limit, times)
    ensures |InWindow(times, from)| <= limit
  {
    var positions := InWindow(times, from);
    if positions != {} {
      var low: nat :| low in positions && forall i | i in positions :: low <= i by {
        var some :| some in positions;
        Least(positions, some);
      }
      assert forall i | i in positions :: times[i] <= times[low] + WINDOW;
      FewInRange(positions, low, limit);
    }
  }

  lemma {:induction false} Least(positions: set<nat>, some: nat)
    requires some in positions
    ensures exists low: nat :: low in positions && forall i | i in positions :: low <= i
    decreases some
  {
    if smaller: nat :| smaller in positions && smaller < some {
      Least(positions, smaller);
    } else {
      assert some in positions && forall i | i in positions :: some <= i;
    }
  }

  /** Main result: no key is granted more than `limit` times in any window of sixty seconds, in any interleaving. */
  lemma WindowNeverExceeded(limit: nat, states: seq<State>, actions: seq<Action>, i: nat, key: string, from: real)
    requires IsRun(limit, states, actions) && i < |states|
    ensures |InWindow(Of(states[i], key).granted, from)| <= limit
  {
    RunsKeepInvariant(limit, states, actions, i);
    assert KeyHolds(limit, states[i], key);
    SpacedFitsWindow(limit, Of(states[i], key).granted, from);
  }

  /** Written out: of the grants of a key, no more than the limit lie within sixty seconds of any moment. */
  lemma SixtySeconds(limit: nat, states: seq<State>, actions: seq<Action>, i: nat, key: string, from: real)
    requires IsRun(limit, states, actions) && i < |states|
    ensures var granted := Of(states[i], key).granted;
            |set n | 0 <= n < |granted| && from <= granted[n] <= from + 60.0| <= limit
  {
    WindowNeverExceeded(limit, states, actions, i, key, from);
    var granted := Of(states[i], key).granted;
    assert InWindow(granted, from) == set n | 0 <= n < |granted| && from <= granted[n] <= from + 60.0;
  }

  lemma {:induction false} LaterCutoffKeepsFewer(times: seq<real>, early: real, late: real)
    requires early <= late
    ensures |Prune(times, late)| <= |Prune(times, early)|
  {
    if times != [] && times[0] < early {
      LaterCutoffKeepsFewer(times[1..], early, late);
    }
  }

  lemma AnswerOfAccount(limit: nat, clock: real, account: Account, cutoff: real)
    requires Consistent(limit, clock, account)
    ensures Prune(account.queue, cutoff) == Prune(account.granted, Newest(account, cutoff))
    ensures |Prune(account.queue, cutoff)| <= |Prune(account.granted, cutoff)|
  {
    if account.newest.Some? {
      PruneTwice(account.granted, account.newest.value, cutoff);
    }
    LaterCutoffKeepsFewer(account.granted, cutoff, Newest(account, cutoff));
  }

  /** A refusal is never arbitrary: at least `limit` grants lie at or after the caller's own cutoff. */
  lemma RefusedOnlyWhenFull(limit: nat, states: seq<State>, actions: seq<Action>, i: nat, key: string, cutoff: real)
    requires IsRun(limit, states, actions) && i < |states|
    requires !Admits(limit, Of(states[i], key), cutoff)
    ensures |Prune(Of(states[i], key).granted, cutoff)| >= limit
  {
    RunsKeepInvariant(limit, states, actions, i);
    assert KeyHolds(limit, states[i], key);
    AnswerOfAccount(limit, states[i].clock, Of(states[i], key), cutoff);
  }

  /**
   * The pruned queue answers like a count over the full history from the newest
   * cutoff that any caller brought; from the caller's own cutoff when no later
   * one came first.
   */
  lemma QueueCountsFromNewestCutoff(limit: nat, states: seq<State>, actions: seq<Action>, i: nat, key: string,
                                    cutoff: real)
    requires IsRun(limit, states, actions) && i < |states|
    ensures var account := Of(states[i], key);
            && (Admits(limit, account, cutoff) <==> |Prune(account.granted, Newest(account, cutoff))| < limit)
            && (Newest(account, cutoff) == cutoff ==>
                  (Admits(limit, account, cutoff) <==> |Prune(account.granted, cutoff)| < limit))
  {
    RunsKeepInvariant(limit, states, actions, i);
    assert KeyHolds(limit, states[i], key);
    AnswerOfAccount(limit, states[i].clock, Of(states[i], key), cutoff);
  }

  /** What the limiter would answer if it never forgot a grant. */
  predicate FullHistoryAdmits(limit: nat, account: Account, cutoff: real) {
    |Prune(account.granted, cutoff)| < limit
  }

  lemma {:induction false} PruneEqualTimes(count: nat, time: real, cutoff: real)
    ensures Prune(seq(count, _ => time), cutoff) == if time >= cutoff then seq(count, _ => time) else []
    decreases count
  {
    if count > 0 && time < cutoff {
      assert seq(count, _ => time)[1..] == seq(count - 1, _ => time);
      PruneEqualTimes(count - 1, time, cutoff);
    }
  }

  /** With a limit of one, a queue is empty only before the first caller and while an admitted one is inside. */
  ghost predicate Occupied(s: State) {
    forall key | Of(s, key).newest.Some? && Of(s, key).queue == [] ::
      s.lock.Some? && At(s, s.lock.value) == Admitted(key)
  }

  lemma StepKeepsOccupied(s: State, a: Action)
    requires Invariant(1, s) && Occupied(s) && Enabled(s, a)
    ensures Occupied(Step(1, s, a))
  {
    var s' := Step(1, s, a);
    if a.Grant? {
      assert PointHolds(1, s, a.thread);
      assert forall key | key != At(s, a.thread).key :: Of(s', key) == Of(s, key);
    }
    forall key | Of(s', key).newest.Some? && Of(s', key).queue == []
      ensures s'.lock.Some? && At(s', s'.lock.value) == Admitted(key)
    {
      match a
      case Grant(t) =>
      case Enter(t) =>
        assert key != At(s, t).key ==> Of(s', key) == Of(s, key);
      case _ =>
        assert Of(s', key) == Of(s, key);
    }
  }

  lemma {:induction false} RunsKeepOccupied(states: seq<State>, actions: seq<Action>, i: nat)
    requires IsRun(1, states, actions) && i < |states|
    ensures Occupied(states[i])
  {
    if i > 0 {
      RunsKeepOccupied(states, actions, i - 1);
      RunsKeepInvariant(1, states, actions, i - 1);
      assert Takes(1, states[i - 1], actions[i - 1], states[i]);
      StepKeepsOccupied(states[i - 1], actions[i - 1]);
    }
  }

  /** In the run, the caller waits with this cutoff, next in line, after `newest` was the latest cutoff used. */
  ghost predicate Waits(limit: nat, states: seq<State>, actions: seq<Action>, i: nat, t: ThreadId, key: string,
                        newest: real, cutoff: real)
  {
    && IsRun(limit, states, actions) && i < |states|
    && At(states[i], t) == Entering(key, cutoff) && states[i].lock.None?
    && Of(states[i], key).newest == Some(newest)
  }

  ghost predicate AnswersFromFullHistory(limit: nat, newest: real, cutoff: real) {
    forall states, actions, i, t, key | Waits(limit, states, actions, i, t, key, newest, cutoff) ::
      Admits(limit, Of(states[i], key), cutoff) == FullHistoryAdmits(limit, Of(states[i], key), cutoff)
  }

  lemma AnswerWhenWaiting(limit: nat, states: seq<State>, actions: seq<Action>, i: nat, t: ThreadId, key: string,
                          newest: real, cutoff: real)
    requires Waits(limit, states, actions, i, t, key, newest, cutoff) && (cutoff >= newest || limit == 1)
    ensures Admits(limit, Of(states[i], key), cutoff) == FullHistoryAdmits(limit, Of(states[i], key), cutoff)
  {
    var account := Of(states[i], key);
    RunsKeepInvariant(limit, states, actions, i);
    assert KeyHolds(limit, states[i], key);
    AnswerOfAccount(limit, states[i].clock, account, cutoff);
    if cutoff < newest {
      RunsKeepOccupied(states, actions, i);
      assert Prune(account.queue, cutoff) == account.queue;
    }
  }

  // ---------------------------------------------------------------- an overtaken caller

  lemma Continue(limit: nat, states: seq<State>, actions: seq<Action>, a: Action)
    returns (states': seq<State>, actions': seq<Action>)
    requires IsRun(limit, states, actions) && Enabled(states[|states| - 1], a)
    ensures IsRun(limit, states', actions') && states' == states + [Step(limit, states[|states| - 1], a)]
  {
    states', actions' := states + [Step(limit, states[|states| - 1], a)], actions + [a];
    forall i | 0 <= i < |actions'| ensures Takes(limit, states'[i], actions'[i], states'[i + 1]) {
      if i < |actions| {
        assert Takes(limit, states[i], actions[i], states[i + 1]);
      }
    }
  }

  /** A caller that meets room and nobody else is granted at once. */
  lemma ServeAlone(limit: nat, states: seq<State>, actions: seq<Action>, key: string)
    returns (states': seq<State>, actions': seq<Action>)
    requires IsRun(limit, states, actions)
    requires var s := states[|states| - 1];
             At(s, 1).Outside? && s.lock.None? && |Prune(Of(s, key).queue, s.clock - WINDOW)| < limit
    ensures IsRun(limit, states', actions')
    ensures var s, s' := states[|states| - 1], states'[|states'| - 1];
            && s'.clock == s.clock && s'.lock.None? && s'.points == s.points[1 := Outside]
            && Of(s', key) == Granted(Entered(Of(s, key), s.clock - WINDOW), s.clock)
  {
    states', actions' := Continue(limit, states, actions, ReadClock(1, key));
    states', actions' := Continue(limit, states', actions', Enter(1));
    states', actions' := Continue(limit, states', actions', Grant(1));
    assert states'[|states'| - 1].points == states[|states| - 1].points[1 := Outside];
  }

  function Times(count: nat, time: real): seq<real> {
    seq(count, _ => time)
  }

  /** `count` grants at the moment the clock starts. */
  lemma {:induction false} ServeMany(limit: nat, count: nat, start: real, key: string)
    returns (states: seq<State>, actions: seq<Action>)
    requires count <= limit
    ensures IsRun(limit, states, actions)
    ensures var s := states[|states| - 1];
            && s.clock == start && s.lock.None? && At(s, 1).Outside? && At(s, 2).Outside?
            && Of(s, key) == Account(Times(count, start), Times(count, start),
                                     if count == 0 then None else Some(start - WINDOW))
  {
    if count == 0 {
      states, actions := [Initial(start)], [];
    } else {
      states, actions := ServeMany(limit, count - 1, start, key);
      PruneEqualTimes(count - 1, start, start - WINDOW);
      states, actions := ServeAlone(limit, states, actions, key);
      assert Times(count - 1, start) + [start] == Times(count, start);
    }
  }

  /**
   * A caller that waits for the lock while another, with a later cutoff, prunes
   * the queue: it is admitted although its own cutoff has `limit` grants after it.
   */
  lemma OvertakenCaller(limit: nat, newest: real, cutoff: real, key: string)
    returns (states: seq<State>, actions: seq<Action>, i: nat)
    requires limit > 1 && cutoff < newest
    ensures Waits(limit, states, actions, i, 2, key, newest, cutoff)
    ensures Admits(limit, Of(states[i], key), cutoff) && !FullHistoryAdmits(limit, Of(states[i], key), cutoff)
  {
    states, actions := ServeMany(limit, limit, cutoff, key);
    states, actions := Continue(limit, states, actions, Tick(WINDOW));
    states, actions := Continue(limit, states, actions, ReadClock(2, key));
    states, actions := Continue(limit, states, actions, Tick(newest - cutoff));
    PruneEqualTimes(limit, cutoff, newest);
    states, actions := ServeAlone(limit, states, actions, key);
    i := |states| - 1;
    var now := newest + WINDOW;
    assert Of(states[i], key) == Account([now], Times(limit, cutoff) + [now], Some(newest));
    PruneEqualTimes(limit, cutoff, cutoff);
    PruneAppend(Times(limit, cutoff), cutoff, now);
  }

  /**
   * Main result: exactly when forgetting is harmless.  In every run a waiting
   * caller gets the answer of the full history if and only if no later cutoff
   * came first, or the limit is one.
   */
  lemma HarmlessIffNotOvertaken(limit: nat, newest: real, cutoff: real)
    requires limit > 0
    ensures AnswersFromFullHistory(limit, newest, cutoff) <==> cutoff >= newest || limit == 1
  {
    if cutoff >= newest || limit == 1 {
      forall states, actions, i, t, key | Waits(limit, states, actions, i, t, key, newest, cutoff)
        ensures Admits(limit, Of(states[i], key), cutoff) == FullHistoryAdmits(limit, Of(states[i], key), cutoff)
      {
        AnswerWhenWaiting(limit, states, actions, i, t, key, newest, cutoff);
      }
    } else {
      var states, actions, i := OvertakenCaller(limit, newest, cutoff, "key");
      assert Waits(limit, states, actions, i, 2, "key", newest, cutoff);
    }
  }

  /** With a limit of two and twenty seconds of waiting. */
  lemma OvertakenCallerIsAdmitted(key: string)
    returns (states: seq<State>, actions: seq<Action>, i: nat, t: ThreadId, cutoff: real)
    ensures IsRun(2, states, actions) && i < |states|
    ensures At(states[i], t) == Entering(key, cutoff) && Enabled(states[i], Enter(t))
    ensures Admits(2, Of(states[i], key), cutoff)
    ensures |Prune(Of(states[i], key).granted, cutoff)| >= 2
  {
    t, cutoff := 2, -10.0;
    states, actions, i := OvertakenCaller(2, 10.0, cutoff, key);
  }
}
