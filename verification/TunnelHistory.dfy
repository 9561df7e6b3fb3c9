/**
 * What must have happened before a tunnel, and what suffices for one: the whole
 * protocol of a connection, stated on the actions of a run.
 */
module TunnelHistory {
  import opened Wrappers
  import opened Gateway

  // ---------------------------------------------------------------- the addresses

  /** Every test on an address, and the stream test of the answer that is used. */
  lemma TunnelTargetsArePublic(states: seq<State>, actions: seq<Action>, i: nat, n: ConnectionId)
    requires IsRun(states, actions) && i < |states| && n in states[i].tunnels
    ensures var tunnel := states[i].tunnels[n];
            var lookup := tunnel.evidence.lookup;
            && lookup.port == 443 && !lookup.isIpLiteral && lookup.host == tunnel.ask.host && lookup.host.Some?
            && lookup.host.value in tunnel.evidence.domains && lookup.answers.Some?
            && tunnel.target in lookup.answers.value && tunnel.target.isStream
            && (tunnel.target.protocol == 0 || tunnel.target.protocol == 6)
            && forall r | r in lookup.answers.value ::
                 && r.address.isGlobal && !r.address.isPrivate && !r.address.isLoopback && !r.address.isLinkLocal
                 && !r.address.isMulticast && !r.address.isReserved && !r.address.isUnspecified
  {
    RunsKeepInvariant(states, actions, i);
    assert TunnelSound(states[i], n);
    var answers := states[i].tunnels[n].evidence.lookup.answers.value;
    forall r | r in answers ensures IsPublic(r.address) {
      var k :| 0 <= k < |answers| && answers[k] == r;
      assert IsPublic(answers[k].address);
    }
  }

  /** Each reason to deny a target, on the request and the answers themselves. */
  lemma DenialReasons(q: Lookup, domains: set<Host>)
    ensures Validate(q, domains) == Denied(HostInvalid) <==> q.host.None?
    ensures Validate(q, domains) == Denied(PortDenied) <==> q.host.Some? && q.port != 443
    ensures Validate(q, domains) == Denied(IpLiteralDenied) <==> q.host.Some? && q.port == 443 && q.isIpLiteral
    ensures Validate(q, domains) == Denied(HostNotApproved) <==>
            q.host.Some? && q.port == 443 && !q.isIpLiteral && q.host.value !in domains
    ensures Validate(q, domains) == Denied(DnsFailed) <==>
            q.host.Some? && q.port == 443 && !q.isIpLiteral && q.host.value in domains
            && (q.answers.None? || q.answers.value == [])
    ensures Validate(q, domains) == Denied(PrivateOrReserved) <==>
            q.host.Some? && q.port == 443 && !q.isIpLiteral && q.host.value in domains
            && q.answers.Some?
            && exists i | 0 <= i < |q.answers.value| ::
                 var a := q.answers.value[i].address;
                 !a.isGlobal || a.isPrivate || a.isLoopback || a.isLinkLocal
                 || a.isMulticast || a.isReserved || a.isUnspecified
    ensures Validate(q, domains).Chosen? <==>
            q.host.Some? && q.port == 443 && !q.isIpLiteral && q.host.value in domains
            && q.answers.Some?
            && (forall i | 0 <= i < |q.answers.value| ::
                  var a := q.answers.value[i].address;
                  a.isGlobal && !a.isPrivate && !a.isLoopback && !a.isLinkLocal
                  && !a.isMulticast && !a.isReserved && !a.isUnspecified)
            && exists i | 0 <= i < |q.answers.value| ::
                 q.answers.value[i].isStream && (q.answers.value[i].protocol == 0 || q.answers.value[i].protocol == 6)
  {
  }

  // ---------------------------------------------------------------- before a tunnel

  /** Only the acting connection moves. */
  lemma OthersStand(s: State, a: Action, n: ConnectionId)
    requires Enabled(s, a) && n != a.connection
    ensures At(Step(s, a), n) == At(s, n)
  {
  }

  /** What brings a connection into a phase, and from where. */
  predicate Enters(s: State, a: Action, p: Phase) {
    match p
    case Idle => false
    case Parsed(ask) => a.Parse? && a.ask == ask
    case Passed(ask) => a.Limit? && a.allowed && At(s, a.connection) == Parsed(ask)
    case Gated(ask, domains) =>
      a.LoadGate? && a.evidence == Some(domains) && At(s, a.connection) == Passed(ask)
    case Checked(ask, target, evidence) =>
      a.Check? && a.answers == evidence.lookup.answers && At(s, a.connection) == Gated(ask, evidence.domains)
    case Authorized(ask, target, evidence) =>
      a.Consume? && a.issuedForHost && !a.answerLost && At(s, a.connection) == Checked(ask, target, evidence)
      && 1 <= |ask.grant| <= 4096 && ask.grant !in s.consumed
    case Closed => true
  }

  lemma StepEnters(s: State, a: Action)
    requires Enabled(s, a) && At(Step(s, a), a.connection) != At(s, a.connection)
    ensures Enters(s, a, At(Step(s, a), a.connection))
  {
  }

  /** The step that brought a connection where it stands. */
  lemma {:induction false} PhaseWasEntered(states: seq<State>, actions: seq<Action>, i: nat, n: ConnectionId)
    returns (j: nat)
    requires IsRun(states, actions) && i < |states| && At(states[i], n) != Idle
    ensures j < i && actions[j].connection == n && Enters(states[j], actions[j], At(states[i], n))
    decreases i
  {
    j := i - 1;
    assert Takes(states[j], actions[j], states[i]);
    if At(states[j], n) == At(states[i], n) {
      j := PhaseWasEntered(states, actions, j, n);
    } else {
      if actions[j].connection != n {
        OthersStand(states[j], actions[j], n);
      }
      StepEnters(states[j], actions[j]);
    }
  }

  lemma {:induction false} TunnelWasOpened(states: seq<State>, actions: seq<Action>, i: nat, n: ConnectionId)
    returns (j: nat)
    requires IsRun(states, actions) && i < |states| && n in states[i].tunnels
    ensures j < i && actions[j] == Connect(n, true)
    ensures var t := states[i].tunnels[n];
            At(states[j], n) == Authorized(t.ask, t.target, t.evidence)
    decreases i
  {
    assert Takes(states[i - 1], actions[i - 1], states[i]);
    if n in states[i - 1].tunnels && states[i - 1].tunnels[n] == states[i].tunnels[n]
       && actions[i - 1] != Connect(n, true) {
      j := TunnelWasOpened(states, actions, i - 1, n);
    } else {
      j := i - 1;
    }
  }

  /**
   * Main result: before a tunnel its own connection asked, was let through by the
   * limiter, loaded the approved domains, had the answers of its lookup checked,
   * and consumed its grant, in this order.  The authorizer had issued the grant
   * for this host, its answer arrived, and the grant was unused until then.
   */
  lemma TunnelHasHistory(states: seq<State>, actions: seq<Action>, i: nat, n: ConnectionId)
    returns (parsed: nat, passed: nat, gated: nat, checked: nat, consumed: nat, connected: nat)
    requires IsRun(states, actions) && i < |states| && n in states[i].tunnels
    ensures parsed < passed < gated < checked < consumed < connected < i
    ensures var tunnel := states[i].tunnels[n];
            && actions[parsed] == Parse(n, tunnel.ask)
            && actions[passed] == Limit(n, true)
            && actions[gated] == LoadGate(n, Some(tunnel.evidence.domains))
            && actions[checked] == Check(n, tunnel.evidence.lookup.answers)
            && actions[consumed] == Consume(n, true, false)
            && actions[connected] == Connect(n, true)
            && 1 <= |tunnel.ask.grant| <= 4096 && tunnel.ask.grant !in states[consumed].consumed
  {
    connected := TunnelWasOpened(states, actions, i, n);
    consumed := PhaseWasEntered(states, actions, connected, n);
    checked := PhaseWasEntered(states, actions, consumed, n);
    gated := PhaseWasEntered(states, actions, checked, n);
    passed := PhaseWasEntered(states, actions, gated, n);
    parsed := PhaseWasEntered(states, actions, passed, n);
  }

  /** A refused grant closes the connection and is not recorded as used by it. */
  lemma RefusedGrantChangesNothing(s: State, n: ConnectionId, issuedForHost: bool, answerLost: bool)
    requires At(s, n).Checked?
    requires var grant := At(s, n).ask.grant;
             !issuedForHost || grant == "" || |grant| > 4096 || grant in s.consumed
    ensures var s' := Step(s, Consume(n, issuedForHost, answerLost));
            At(s', n) == Closed && s'.consumed == s.consumed && s'.tunnels == s.tunnels && s'.passes == s.passes
  {
  }

  /** A connection that was denied opens nothing any more. */
  lemma {:induction false} ClosedStaysClosed(states: seq<State>, actions: seq<Action>, i: nat, j: nat, n: ConnectionId)
    requires IsRun(states, actions) && i <= j < |states| && At(states[i], n) == Closed
    ensures At(states[j], n) == Closed
    ensures n in states[j].tunnels <==> n in states[i].tunnels
    decreases j
  {
    if i < j {
      ClosedStaysClosed(states, actions, i, j - 1, n);
      assert Takes(states[j - 1], actions[j - 1], states[j]);
    }
  }

  // ---------------------------------------------------------------- and then a tunnel

  /**
   * Main result: a request for an approved host whose lookup passes the checks,
   * with an unused grant, does get its tunnel.
   */
  lemma TunnelOpens(n: ConnectionId, ask: Ask, domains: set<Host>, answers: seq<Resolved>, target: Resolved)
    returns (states: seq<State>, actions: seq<Action>)
    requires Validate(Lookup(ask.host, ask.isIpLiteral, ask.port, Some(answers)), domains) == Chosen(target)
    requires 1 <= |ask.grant| <= 4096
    ensures IsRun(states, actions)
    ensures var s := states[|states| - 1];
            n in s.tunnels && s.tunnels[n].ask == ask && s.tunnels[n].target == target
  {
    var s1 := Step(INITIAL, Parse(n, ask));
    var s2 := Step(s1, Limit(n, true));
    var s3 := Step(s2, LoadGate(n, Some(domains)));
    var s4 := Step(s3, Check(n, Some(answers)));
    var s5 := Step(s4, Consume(n, true, false));
    var s6 := Step(s5, Connect(n, true));
    states := [INITIAL, s1, s2, s3, s4, s5, s6];
    actions := [Parse(n, ask), Limit(n, true), LoadGate(n, Some(domains)), Check(n, Some(answers)),
                Consume(n, true, false), Connect(n, true)];
  }
}
