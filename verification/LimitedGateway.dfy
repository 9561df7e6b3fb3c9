/**
 * The limiter and the connection protocol together: connections ask the limiter
 * under the address of their client, in any interleaving with everything else
 * that happens at the gateway.
 */
module LimitedGateway {
  import opened Wrappers
  import Limiter = RateLimiting
  import Gate = Gateway

  type ConnectionId = Gate.ConnectionId

  /** `tickets` notes for each connection that passed the limiter which of its client's grants it was. */
  datatype State = State(
    limiter: Limiter.State,
    gateway: Gate.State,
    tickets: map<ConnectionId, nat>)

  datatype Action =
    | Tick(time: real)
    | Serve(action: Gate.Action)                 // any step of a connection but the limiter's answer
    | ReadClock(connection: ConnectionId)
    | Enter(connection: ConnectionId)
    | Grant(connection: ConnectionId)

  /** The gateway as configured, and the client address of every connection. */
  datatype Setting = Setting(limit: nat, client: ConnectionId -> string)

  predicate Enabled(g: Setting, s: State, a: Action) {
    match a
    case Tick(time) => time >= 0.0
    case Serve(action) => !action.Limit? && Gate.Enabled(s.gateway, action)
    case ReadClock(n) => Gate.At(s.gateway, n).Parsed? && Limiter.At(s.limiter, n).Outside?
    case Enter(n) => Gate.At(s.gateway, n).Parsed? && Limiter.Enabled(s.limiter, Limiter.Enter(n))
    case Grant(n) => Gate.At(s.gateway, n).Parsed? && Limiter.Enabled(s.limiter, Limiter.Grant(n))
  }

  function Granted(s: State, client: string): seq<real> {
    Limiter.Of(s.limiter, client).granted
  }

  function Step(g: Setting, s: State, a: Action): State
    requires Enabled(g, s, a)
  {
    match a
    case Tick(time) => s.(limiter := Limiter.Step(g.limit, s.limiter, Limiter.Tick(time)))
    case Serve(action) => s.(gateway := Gate.Step(s.gateway, action))
    case ReadClock(n) => s.(limiter := Limiter.Step(g.limit, s.limiter, Limiter.ReadClock(n, g.client(n))))
    case Enter(n) =>
      var s' := s.(limiter := Limiter.Step(g.limit, s.limiter, Limiter.Enter(n)));
      if Limiter.At(s'.limiter, n).Outside? then s'.(gateway := Gate.Step(s.gateway, Gate.Limit(n, false))) else s'
    case Grant(n) =>
      State(Limiter.Step(g.limit, s.limiter, Limiter.Grant(n)),
            Gate.Step(s.gateway, Gate.Limit(n, true)),
            s.tickets[n := |Granted(s, g.client(n))|])
  }

  function Initial(clock: real): State {
    State(Limiter.Initial(clock), Gate.INITIAL, map[])
  }

  predicate Takes(g: Setting, before: State, a: Action, after: State) {
    Enabled(g, before, a) && after == Step(g, before, a)
  }

  ghost predicate IsRun(g: Setting, states: seq<State>, actions: seq<Action>) {
    && |states| == |actions| + 1
    && states[0] == Initial(states[0].limiter.clock)
    && forall i | 0 <= i < |actions| :: Takes(g, states[i], actions[i], states[i + 1])
  }

  /** A connection waits at the limiter under the address of its own client. */
  predicate AsksForItself(g: Setting, s: State, n: ConnectionId) {
    var p := Limiter.At(s.limiter, n);
    p.Outside? || p.key == g.client(n)
  }

  /** Every pass of the limiter is one of its grants, and no two passes share one. */
  predicate TicketsSound(g: Setting, s: State) {
    && s.tickets.Keys == s.gateway.passes
    && (forall n | n in s.tickets :: s.tickets[n] < |Granted(s, g.client(n))|)
    && (forall m, n | m in s.tickets && n in s.tickets && m != n && g.client(m) == g.client(n) ::
          s.tickets[m] != s.tickets[n])
  }

  ghost predicate Invariant(g: Setting, s: State) {
    && Limiter.Invariant(g.limit, s.limiter)
    && Gate.Invariant(s.gateway)
    && (forall n :: AsksForItself(g, s, n))
    && TicketsSound(g, s)
  }

  lemma EnterKeepsInvariant(g: Setting, s: State, n: ConnectionId)
    requires Invariant(g, s) && Enabled(g, s, Enter(n))
    ensures Invariant(g, Step(g, s, Enter(n)))
  {
    var s' := Step(g, s, Enter(n));
    Limiter.StepKeepsInvariant(g.limit, s.limiter, Limiter.Enter(n));
    Gate.StepKeepsInvariant(s.gateway, Gate.Limit(n, false));
    assert AsksForItself(g, s, n);
    forall m ensures AsksForItself(g, s', m) {
      assert AsksForItself(g, s, m);
    }
    forall client ensures Granted(s', client) == Granted(s, client) {
    }
    assert TicketsSound(g, s');
  }

  lemma GrantKeepsInvariant(g: Setting, s: State, n: ConnectionId)
    requires Invariant(g, s) && Enabled(g, s, Grant(n))
    ensures Invariant(g, Step(g, s, Grant(n)))
  {
    var s' := Step(g, s, Grant(n));
    Limiter.StepKeepsInvariant(g.limit, s.limiter, Limiter.Grant(n));
    Gate.StepKeepsInvariant(s.gateway, Gate.Limit(n, true));
    assert AsksForItself(g, s, n);
    forall m ensures AsksForItself(g, s', m) {
      assert AsksForItself(g, s, m);
    }
    var client := g.client(n);
    assert Granted(s', client) == Granted(s, client) + [s.limiter.clock];
    forall other | other != client ensures Granted(s', other) == Granted(s, other) {
    }
    assert TicketsSound(g, s');
  }

  lemma StepKeepsInvariant(g: Setting, s: State, a: Action)
    requires Invariant(g, s) && Enabled(g, s, a)
    ensures Invariant(g, Step(g, s, a))
  {
    var s' := Step(g, s, a);
    match a
    case Enter(n) => EnterKeepsInvariant(g, s, n);
    case Grant(n) => GrantKeepsInvariant(g, s, n);
    case Serve(action) =>
      Gate.StepKeepsInvariant(s.gateway, action);
      assert forall n :: AsksForItself(g, s, n) ==> AsksForItself(g, s', n);
    case Tick(time) =>
      Limiter.StepKeepsInvariant(g.limit, s.limiter, Limiter.Tick(time));
      assert forall n :: AsksForItself(g, s, n) ==> AsksForItself(g, s', n);
    case ReadClock(n) =>
      Limiter.StepKeepsInvariant(g.limit, s.limiter, Limiter.ReadClock(n, g.client(n)));
      assert forall m :: AsksForItself(g, s, m) ==> AsksForItself(g, s', m);
  }

  lemma {:induction false} RunsKeepInvariant(g: Setting, states: seq<State>, actions: seq<Action>, i: nat)
    requires IsRun(g, states, actions) && i < |states|
    ensures Invariant(g, states[i])
  {
    if i > 0 {
      RunsKeepInvariant(g, states, actions, i - 1);
      assert Takes(g, states[i - 1], actions[i - 1], states[i]);
      StepKeepsInvariant(g, states[i - 1], actions[i - 1]);
    }
  }

  /** The tunnels of a client whose connections passed the limiter within a minute of `from`. */
  ghost function TunnelsIn(g: Setting, s: State, client: string, from: real): set<ConnectionId> {
    set n | n in s.gateway.tunnels && n in s.tickets && g.client(n) == client
            && s.tickets[n] in Limiter.InWindow(Granted(s, client), from)
  }

  lemma TunnelsHaveTickets(g: Setting, s: State)
    requires Invariant(g, s)
    ensures s.gateway.tunnels.Keys <= s.tickets.Keys
  {
    forall n | n in s.gateway.tunnels ensures n in s.tickets {
      assert Gate.TunnelSound(s.gateway, n);
    }
  }

  lemma TunnelsFitWindow(g: Setting, s: State, client: string, from: real)
    requires TicketsSound(g, s) && Limiter.KeyHolds(g.limit, s.limiter, client)
    ensures |TunnelsIn(g, s, client, from)| <= g.limit
  {
    var here := TunnelsIn(g, s, client, from);
    var positions := map n | n in here :: s.tickets[n];
    Limiter.SpacedFitsWindow(g.limit, Granted(s, client), from);
    Gate.InjectiveKeysFit(positions, Limiter.InWindow(Granted(s, client), from));
    assert positions.Keys == here;
  }

  /**
   * Main result: in every interleaving, each tunnel stands for a limiter grant of
   * its own, and no client gets more than `limit` tunnels out of the grants of
   * any sixty seconds.
   */
  lemma ClientsTunnelWithinLimit(g: Setting, states: seq<State>, actions: seq<Action>, i: nat, client: string,
                                 from: real)
    requires IsRun(g, states, actions) && i < |states|
    ensures TicketsSound(g, states[i])
    ensures states[i].gateway.tunnels.Keys <= states[i].tickets.Keys
    ensures |TunnelsIn(g, states[i], client, from)| <= g.limit
  {
    RunsKeepInvariant(g, states, actions, i);
    TunnelsHaveTickets(g, states[i]);
    assert Limiter.KeyHolds(g.limit, states[i].limiter, client);
    TunnelsFitWindow(g, states[i], client, from);
  }

  // ---------------------------------------------------------------- and then a tunnel

  ghost predicate Connects(g: Setting, states: seq<State>, actions: seq<Action>) {
    |states| == |actions| + 1 && forall i | 0 <= i < |actions| :: Takes(g, states[i], actions[i], states[i + 1])
  }

  /** A connection whose client has no grants yet passes the limiter. */
  lemma FirstPasses(g: Setting, clock: real, n: ConnectionId, ask: Gate.Ask)
    returns (states: seq<State>, actions: seq<Action>)
    requires g.limit > 0
    ensures IsRun(g, states, actions)
    ensures var s := states[|states| - 1];
            Gate.At(s.gateway, n) == Gate.Passed(ask) && s.gateway.consumed == map[] && s.gateway.tunnels == map[]
            && s.gateway.passes == {n}
  {
    var s0 := Initial(clock);
    var s1 := Step(g, s0, Serve(Gate.Parse(n, ask)));
    var s2 := Step(g, s1, ReadClock(n));
    assert Limiter.Of(s2.limiter, g.client(n)).queue == [];
    var s3 := Step(g, s2, Enter(n));
    assert Limiter.At(s3.limiter, n).Admitted?;
    var s4 := Step(g, s3, Grant(n));
    states := [s0, s1, s2, s3, s4];
    actions := [Serve(Gate.Parse(n, ask)), ReadClock(n), Enter(n), Grant(n)];
  }

  /** A connection that passed goes on to its tunnel. */
  lemma PassedConnects(g: Setting, s: State, n: ConnectionId, ask: Gate.Ask, domains: set<Gate.Host>,
                       answers: seq<Gate.Resolved>, target: Gate.Resolved)
    returns (states: seq<State>, actions: seq<Action>)
    requires Gate.At(s.gateway, n) == Gate.Passed(ask) && ask.grant !in s.gateway.consumed && 1 <= |ask.grant| <= 4096
    requires Gate.Validate(Gate.Lookup(ask.host, ask.isIpLiteral, ask.port, Some(answers)), domains) ==
             Gate.Chosen(target)
    ensures Connects(g, states, actions) && states[0] == s
    ensures var s' := states[|states| - 1];
            n in s'.gateway.tunnels && s'.gateway.tunnels[n].ask == ask && s'.gateway.tunnels[n].target == target
  {
    var s1 := Step(g, s, Serve(Gate.LoadGate(n, Some(domains))));
    var s2 := Step(g, s1, Serve(Gate.Check(n, Some(answers))));
    var s3 := Step(g, s2, Serve(Gate.Consume(n, true, false)));
    var s4 := Step(g, s3, Serve(Gate.Connect(n, true)));
    states := [s, s1, s2, s3, s4];
    actions := [Serve(Gate.LoadGate(n, Some(domains))), Serve(Gate.Check(n, Some(answers))),
                Serve(Gate.Consume(n, true, false)), Serve(Gate.Connect(n, true))];
  }

  /** Main result: under every limit that admits anyone, a well-formed request of a new client gets its tunnel. */
  lemma TunnelOpensBehindLimiter(g: Setting, clock: real, n: ConnectionId, ask: Gate.Ask, domains: set<Gate.Host>,
                                 answers: seq<Gate.Resolved>, target: Gate.Resolved)
    returns (states: seq<State>, actions: seq<Action>)
    requires g.limit > 0 && 1 <= |ask.grant| <= 4096
    requires Gate.Validate(Gate.Lookup(ask.host, ask.isIpLiteral, ask.port, Some(answers)), domains) ==
             Gate.Chosen(target)
    ensures IsRun(g, states, actions)
    ensures var s := states[|states| - 1];
            n in s.gateway.tunnels && s.gateway.tunnels[n].ask == ask && s.gateway.tunnels[n].target == target
  {
    var before, first := FirstPasses(g, clock, n, ask);
    var after, second := PassedConnects(g, before[|before| - 1], n, ask, domains, answers, target);
    states, actions := before + after[1..], first + second;
    forall i | 0 <= i < |actions| ensures Takes(g, states[i], actions[i], states[i + 1]) {
      if i >= |first| {
        assert Takes(g, after[i - |first|], second[i - |first|], after[i - |first| + 1]);
        assert states[i] == after[i - |first|];
      }
    }
  }
}
