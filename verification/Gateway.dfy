/**
 * The egress gateway: which address a request may be tunnelled to, and the
 * order in which any number of connections pass the limiter, check their
 * target, consume their single-use grant and connect.
 */
module Gateway {
  import opened Wrappers

  type Host = string
  type Grant = string

  // ---------------------------------------------------------------- one target

  datatype Address = Address(
    text: string,
    isGlobal: bool,
    isPrivate: bool,
    isLoopback: bool,
    isLinkLocal: bool,
    isMulticast: bool,
    isReserved: bool,
    isUnspecified: bool)

  /** One answer of the resolver. */
  datatype Resolved = Resolved(family: int, isStream: bool, protocol: int, address: Address, port: int)

  datatype Denial =
    | PortDenied
    | HostInvalid
    | IpLiteralDenied
    | HostNotApproved
    | DnsFailed
    | PrivateOrReserved
    | NoPublicAddress

  datatype Verdict = Denied(reason: Denial) | Chosen(target: Resolved)

  const IPPROTO_TCP := 6

  predicate IsPublic(a: Address) {
    a.isGlobal && !a.isPrivate && !a.isLoopback && !a.isLinkLocal && !a.isMulticast && !a.isReserved && !a.isUnspecified
  }

  predicate IsCandidate(r: Resolved) {
    r.isStream && (r.protocol == 0 || r.protocol == IPPROTO_TCP)
  }

  predicate AllPublic(answers: seq<Resolved>) {
    forall i | 0 <= i < |answers| :: IsPublic(answers[i].address)
  }

  /** The first answer a stream connection can use. */
  predicate IsFirstCandidate(answers: seq<Resolved>, r: Resolved) {
    exists i | 0 <= i < |answers| ::
      answers[i] == r && IsCandidate(r) && forall j | 0 <= j < i :: !IsCandidate(answers[j])
  }

  /** `host` is the normalised name, None when IDNA refuses it; `answers` is None when resolution fails. */
  datatype Lookup = Lookup(host: Option<Host>, isIpLiteral: bool, port: int, answers: Option<seq<Resolved>>)

  predicate MayLookUp(q: Lookup, domains: set<Host>) {
    q.host.Some? && q.port == 443 && !q.isIpLiteral && q.host.value in domains
  }

  function FirstCandidate(answers: seq<Resolved>): (r: Option<Resolved>)
    ensures r.Some? ==> IsFirstCandidate(answers, r.value)
    ensures r.None? <==> forall i | 0 <= i < |answers| :: !IsCandidate(answers[i])
  {
    if answers == [] then None
    else if IsCandidate(answers[0]) then Some(answers[0])
    else
      var r := FirstCandidate(answers[1..]);
      assert r.Some? ==> IsFirstCandidate(answers, r.value) by {
        if r.Some? {
          var i :| 0 <= i < |answers[1..]| && answers[1..][i] == r.value && IsCandidate(r.value)
                   && forall j | 0 <= j < i :: !IsCandidate(answers[1..][j]);
          assert answers[i + 1] == r.value;
          assert forall j | 0 < j < i + 1 :: answers[j] == answers[1..][j - 1];
        }
      }
      assert forall i | 0 < i < |answers| :: answers[i] == answers[1..][i - 1];
      r
  }

  function Validate(q: Lookup, domains: set<Host>): Verdict {
    if q.host.None? then Denied(HostInvalid)
    else if q.port != 443 then Denied(PortDenied)
    else if q.isIpLiteral then Denied(IpLiteralDenied)
    else if q.host.value !in domains then Denied(HostNotApproved)
    else if q.answers.None? || q.answers.value == [] then Denied(DnsFailed)
    else if !AllPublic(q.answers.value) then Denied(PrivateOrReserved)
    else match FirstCandidate(q.answers.value)
         case None => Denied(NoPublicAddress)
         case Some(r) => Chosen(r)
  }

  /** The check as it runs: one private answer anywhere in the list denies the whole target. */
  method ValidateTarget(q: Lookup, domains: set<Host>) returns (v: Verdict)
    ensures v == Validate(q, domains)
    ensures v.Chosen? <==>
            MayLookUp(q, domains) && q.answers.Some? && AllPublic(q.answers.value)
            && exists i | 0 <= i < |q.answers.value| :: IsCandidate(q.answers.value[i])
    ensures v.Chosen? ==> IsPublic(v.target.address) && IsFirstCandidate(q.answers.value, v.target)
  {
    if q.host.None? {
      return Denied(HostInvalid);
    }
    if q.port != 443 {
      return Denied(PortDenied);
    }
    if q.isIpLiteral {
      return Denied(IpLiteralDenied);
    }
    if q.host.value !in domains {
      return Denied(HostNotApproved);
    }
    if q.answers.None? || q.answers.value == [] {
      return Denied(DnsFailed);
    }
    var answers := q.answers.value;
    var candidates: seq<Resolved> := [];
    for i := 0 to |answers|
      invariant AllPublic(answers[..i])
      invariant candidates == [] <==> forall j | 0 <= j < i :: !IsCandidate(answers[j])
      invariant candidates != [] ==> Some(candidates[0]) == FirstCandidate(answers)
      invariant candidates == [] ==> FirstCandidate(answers) == FirstCandidate(answers[i..])
    {
      if !IsPublic(answers[i].address) {
        return Denied(PrivateOrReserved);
      }
      assert answers[i..][1..] == answers[i + 1..];
      if IsCandidate(answers[i]) {
        candidates := candidates + [answers[i]];
      }
    }
    assert answers[..|answers|] == answers;
    if candidates == [] {
      return Denied(NoPublicAddress);
    }
    return Chosen(candidates[0]);
  }

  // ---------------------------------------------------------------- any number of connections

  type ConnectionId = nat

  /** What a connection's CONNECT line and headers ask for; `host` is None when IDNA refuses the name. */
  datatype Ask = Ask(host: Option<Host>, isIpLiteral: bool, port: int, grant: Grant)

  /** What an observer notes of a check: the lookup that was made, and the approved domains. */
  datatype Evidence = Evidence(lookup: Lookup, domains: set<Host>)

  datatype Phase =
    | Idle
    | Parsed(ask: Ask)
    | Passed(ask: Ask)                                           // the limiter let it through
    | Gated(ask: Ask, domains: set<Host>)                        // gate evidence loaded
    | Checked(ask: Ask, target: Resolved, evidence: Evidence)      // target validated
    | Authorized(ask: Ask, target: Resolved, evidence: Evidence)   // grant consumed
    | Closed

  datatype Tunnel = Tunnel(ask: Ask, target: Resolved, evidence: Evidence)

  /**
   * `passes` and `tunnels` record which connections got how far; `consumed` is
   * the authorizer's own record of which connection used up which grant.
   */
  datatype State = State(
    phases: map<ConnectionId, Phase>,
    passes: set<ConnectionId>,
    consumed: map<Grant, ConnectionId>,
    tunnels: map<ConnectionId, Tunnel>)

  datatype Action =
    | Parse(connection: ConnectionId, ask: Ask)
    | Limit(connection: ConnectionId, allowed: bool)
    | LoadGate(connection: ConnectionId, evidence: Option<set<Host>>)
    | Check(connection: ConnectionId, answers: Option<seq<Resolved>>)
    | Consume(connection: ConnectionId, issuedForHost: bool, answerLost: bool)
    | Connect(connection: ConnectionId, reached: bool)

  function At(s: State, n: ConnectionId): Phase {
    if n in s.phases then s.phases[n] else Idle
  }

  function Go(s: State, n: ConnectionId, p: Phase): State {
    s.(phases := s.phases[n := p])
  }

  predicate Enabled(s: State, a: Action) {
    match a
    case Parse(n, _) => n !in s.phases
    case Limit(n, _) => At(s, n).Parsed?
    case LoadGate(n, _) => At(s, n).Passed?
    case Check(n, _) => At(s, n).Gated?
    case Consume(n, _, _) => At(s, n).Checked?
    case Connect(n, _) => At(s, n).Authorized?
  }

  /** The authorizer is atomic: it accepts a grant once, for the host it was issued for. */
  function ConsumeStep(s: State, n: ConnectionId, issuedForHost: bool, answerLost: bool): State
    requires At(s, n).Checked?
  {
    var p := At(s, n);
    if p.ask.grant == "" || |p.ask.grant| > 4096 || !issuedForHost || p.ask.grant in s.consumed then Go(s, n, Closed)
    else
      var next := if answerLost then Closed else Authorized(p.ask, p.target, p.evidence);
      Go(s, n, next).(consumed := s.consumed[p.ask.grant := n])
  }

  function Step(s: State, a: Action): State
    requires Enabled(s, a)
  {
    match a
    case Parse(n, ask) => Go(s, n, Parsed(ask))
    case Limit(n, allowed) =>
      if allowed then Go(s, n, Passed(At(s, n).ask)).(passes := s.passes + {n}) else Go(s, n, Closed)
    case LoadGate(n, evidence) =>
      Go(s, n, if evidence.Some? then Gated(At(s, n).ask, evidence.value) else Closed)
    case Check(n, answers) =>
      var p := At(s, n);
      var lookup := Lookup(p.ask.host, p.ask.isIpLiteral, p.ask.port, answers);
      var verdict := Validate(lookup, p.domains);
      Go(s, n, if verdict.Chosen? then Checked(p.ask, verdict.target, Evidence(lookup, p.domains)) else Closed)
    case Consume(n, issuedForHost, answerLost) => ConsumeStep(s, n, issuedForHost, answerLost)
    case Connect(n, reached) =>
      var p := At(s, n);
      if reached
      then Go(s, n, Closed).(tunnels := s.tunnels[n := Tunnel(p.ask, p.target, p.evidence)])
      else Go(s, n, Closed)
  }

  const INITIAL := State(map[], {}, map[], map[])

  predicate Takes(before: State, a: Action, after: State) {
    Enabled(before, a) && after == Step(before, a)
  }

  ghost predicate IsRun(states: seq<State>, actions: seq<Action>) {
    && |states| == |actions| + 1
    && states[0] == INITIAL
    && forall i | 0 <= i < |actions| :: Takes(states[i], actions[i], states[i + 1])
  }

  /** A connection has used its grant exactly when it is authorized or has been. */
  predicate MayHaveConsumed(p: Phase) {
    p.Authorized? || p.Closed?
  }

  /** The target is what the check of this request chose. */
  predicate WasChecked(ask: Ask, target: Resolved, evidence: Evidence) {
    Validate(evidence.lookup, evidence.domains) == Chosen(target) && evidence.lookup.host == ask.host
    && evidence.lookup.port == ask.port
  }

  predicate TunnelSound(s: State, n: ConnectionId)
    requires n in s.tunnels
  {
    var tunnel := s.tunnels[n];
    && At(s, n).Closed?
    && tunnel.ask.grant in s.consumed && s.consumed[tunnel.ask.grant] == n
    && WasChecked(tunnel.ask, tunnel.target, tunnel.evidence)
  }

  predicate PhaseSound(s: State, n: ConnectionId) {
    match At(s, n)
    case Passed(_) => n in s.passes
    case Gated(_, _) => n in s.passes
    case Checked(ask, target, evidence) => n in s.passes && WasChecked(ask, target, evidence)
    case Authorized(ask, target, evidence) =>
      && n in s.passes && WasChecked(ask, target, evidence)
      && ask.grant in s.consumed && s.consumed[ask.grant] == n
    case _ => true
  }

  /** No connection uses up two grants. */
  predicate OneGrantEach(s: State) {
    forall g, h | g in s.consumed && h in s.consumed && s.consumed[g] == s.consumed[h] :: g == h
  }

  ghost predicate Invariant(s: State) {
    && (forall n :: PhaseSound(s, n))
    && (forall n | n in s.tunnels :: TunnelSound(s, n))
    && (forall g | g in s.consumed :: s.consumed[g] in s.passes && MayHaveConsumed(At(s, s.consumed[g])))
    && OneGrantEach(s)
  }

  /** Whatever a connection does, the others stand where they stood. */
  lemma OthersStay(s: State, s': State, n: ConnectionId)
    requires Invariant(s)
    requires forall m | m != n :: At(s', m) == At(s, m)
    requires s.passes <= s'.passes
    requires forall g | g in s.consumed :: g in s'.consumed && s'.consumed[g] == s.consumed[g]
    requires forall m | m in s'.tunnels && m != n :: m in s.tunnels && s'.tunnels[m] == s.tunnels[m]
    requires PhaseSound(s', n) && (n in s'.tunnels ==> TunnelSound(s', n))
    ensures forall m :: PhaseSound(s', m)
    ensures forall m | m in s'.tunnels :: TunnelSound(s', m)
  {
    forall m ensures PhaseSound(s', m) && (m in s'.tunnels ==> TunnelSound(s', m)) {
      if m != n {
        assert PhaseSound(s, m);
        assert m in s.tunnels ==> TunnelSound(s, m);
      }
    }
  }

  lemma EarlyStepKeepsInvariant(s: State, a: Action)
    requires Invariant(s) && Enabled(s, a) && !a.Consume? && !a.Connect?
    ensures Invariant(Step(s, a))
  {
    var n := a.connection;
    assert PhaseSound(s, n) && !At(s, n).Closed?;
    assert n in s.tunnels ==> TunnelSound(s, n);
    OthersStay(s, Step(s, a), n);
  }

  lemma ConsumeKeepsInvariant(s: State, a: Action)
    requires Invariant(s) && Enabled(s, a) && a.Consume?
    ensures Invariant(Step(s, a))
  {
    var n := a.connection;
    assert PhaseSound(s, n);
    assert n in s.tunnels ==> TunnelSound(s, n);
    OthersStay(s, Step(s, a), n);
  }

  lemma ConnectKeepsInvariant(s: State, a: Action)
    requires Invariant(s) && Enabled(s, a) && a.Connect?
    ensures Invariant(Step(s, a))
  {
    var n := a.connection;
    assert PhaseSound(s, n);
    assert n in s.tunnels ==> TunnelSound(s, n);
    OthersStay(s, Step(s, a), n);
  }

  lemma StepKeepsInvariant(s: State, a: Action)
    requires Invariant(s) && Enabled(s, a)
    ensures Invariant(Step(s, a))
  {
    match a
    case Consume(_, _, _) => ConsumeKeepsInvariant(s, a);
    case Connect(_, _) => ConnectKeepsInvariant(s, a);
    case _ => EarlyStepKeepsInvariant(s, a);
  }

  lemma {:induction false} RunsKeepInvariant(states: seq<State>, actions: seq<Action>, i: nat)
    requires IsRun(states, actions) && i < |states|
    ensures Invariant(states[i])
  {
    if i > 0 {
      RunsKeepInvariant(states, actions, i - 1);
      assert Takes(states[i - 1], actions[i - 1], states[i]);
      StepKeepsInvariant(states[i - 1], actions[i - 1]);
    }
  }

  lemma {:induction false} InjectiveKeysFit<X, Y>(m: map<X, Y>, ys: set<Y>)
    requires forall x | x in m :: m[x] in ys
    requires forall x, x' | x in m && x' in m && m[x] == m[x'] :: x == x'
    ensures |m| <= |ys|
    decreases |m|
  {
    if m != map[] {
      var x :| x in m;
      var rest := map k | k in m && k != x :: m[k];
      assert rest.Keys == m.Keys - {x};
      assert |rest.Keys| == |m.Keys| - 1;
      InjectiveKeysFit(rest, ys - {m[x]});
    }
  }

  /** Main result: no grant opens two tunnels, whatever the interleaving. */
  lemma NoGrantOpensTwoTunnels(states: seq<State>, actions: seq<Action>, i: nat, m: ConnectionId, n: ConnectionId)
    requires IsRun(states, actions) && i < |states|
    requires m in states[i].tunnels && n in states[i].tunnels && m != n
    ensures states[i].tunnels[m].ask.grant != states[i].tunnels[n].ask.grant
  {
    RunsKeepInvariant(states, actions, i);
    assert TunnelSound(states[i], m) && TunnelSound(states[i], n);
  }

  /** Main result: tunnels never outnumber consumed grants, nor those the limiter's passes. */
  lemma TunnelsAreBounded(states: seq<State>, actions: seq<Action>, i: nat)
    requires IsRun(states, actions) && i < |states|
    ensures |states[i].tunnels| <= |states[i].consumed| <= |states[i].passes|
  {
    var s := states[i];
    RunsKeepInvariant(states, actions, i);
    forall n | n in s.tunnels ensures TunnelSound(s, n) {
    }
    InjectiveKeysFit(map n | n in s.tunnels :: s.tunnels[n].ask.grant, s.consumed.Keys);
    assert (map n | n in s.tunnels :: s.tunnels[n].ask.grant).Keys == s.tunnels.Keys;
    InjectiveKeysFit(s.consumed, s.passes);
  }

  /** Main result: a tunnel goes to the very answer that the check chose, and every answer of that lookup was public. */
  lemma TunnelsGoWhereTheyWereChecked(states: seq<State>, actions: seq<Action>, i: nat, n: ConnectionId)
    requires IsRun(states, actions) && i < |states| && n in states[i].tunnels
    ensures var tunnel, evidence := states[i].tunnels[n], states[i].tunnels[n].evidence;
            && evidence.lookup.host == tunnel.ask.host && evidence.lookup.port == tunnel.ask.port
            && MayLookUp(evidence.lookup, evidence.domains) && evidence.lookup.answers.Some?
            && AllPublic(evidence.lookup.answers.value)
            && IsFirstCandidate(evidence.lookup.answers.value, tunnel.target)
  {
    RunsKeepInvariant(states, actions, i);
    assert TunnelSound(states[i], n);
  }

  /** The evidence is no invention: the connection's own check made that lookup, under domains it had loaded. */
  lemma {:induction false} EvidenceWasGathered(states: seq<State>, actions: seq<Action>, i: nat, n: ConnectionId)
    requires IsRun(states, actions) && i < |states|
    requires At(states[i], n).Checked? || At(states[i], n).Authorized?
    ensures exists j | 0 <= j < i :: GathersEvidence(states[j], actions[j], n, At(states[i], n).evidence)
    decreases i
  {
    assert Takes(states[i - 1], actions[i - 1], states[i]);
    if !GathersEvidence(states[i - 1], actions[i - 1], n, At(states[i], n).evidence) {
      EvidenceWasGathered(states, actions, i - 1, n);
    }
  }

  predicate GathersEvidence(s: State, a: Action, n: ConnectionId, evidence: Evidence) {
    && a.Check? && a.connection == n && At(s, n).Gated?
    && evidence.domains == At(s, n).domains && evidence.lookup.answers == a.answers
  }

  /** So for the evidence of every tunnel. */
  lemma {:induction false} TunnelEvidenceWasGathered(states: seq<State>, actions: seq<Action>, i: nat, n: ConnectionId)
    requires IsRun(states, actions) && i < |states| && n in states[i].tunnels
    ensures exists j | 0 <= j < i :: GathersEvidence(states[j], actions[j], n, states[i].tunnels[n].evidence)
    decreases i
  {
    assert Takes(states[i - 1], actions[i - 1], states[i]);
    if n in states[i - 1].tunnels && states[i - 1].tunnels[n] == states[i].tunnels[n] {
      TunnelEvidenceWasGathered(states, actions, i - 1, n);
    } else {
      EvidenceWasGathered(states, actions, i - 1, n);
    }
  }
}
