/**
 The rotation protocol when requests the Bridge gave up on may still reach the Host later, in any order. When
 one of them strands the Bridge, exactly.
 */
module Stragglers {
  import opened Wrappers
  import opened Credentials
  import opened BridgeDisk
  import R = Recovery

  /** `astray` holds the tokens of the requests given up on. */
  datatype State = State(protocol: R.State, astray: multiset<Token>)

  datatype Step = Protocol(step: R.Step) | Arrive(token: Token, saveOk: bool)

  /** A late request is handled like any other; nobody reads the reply. */
  function Arrived(p: R.State, token: Token, saveOk: bool, grace: int): R.State {
    match R.HostPlan(p, token, grace)
    case Answer(_) => p
    case Commit(next, reply) =>
      if !saveOk then p.(serial := p.serial + 1)
      else if reply.Granted? then
        p.(host := next, serial := p.serial + 1, successes := p.successes + 1,
           behindSeen := p.behindSeen + 1, behindKept := p.behindKept + 1)
      else p.(host := next)
  }

  /** The Bridge stops waiting for an answer to a request that has not reached the Host. */
  predicate GivesUp(p: R.State, step: R.Step) {
    p.phase.Requesting? && (step.LoseRequest? || step.Crash? || step.PowerCut?)
  }

  function Next(s: State, step: Step, grace: int): State {
    match step
    case Protocol(p) =>
      State(R.Next(s.protocol, p, grace),
            if GivesUp(s.protocol, p) then s.astray + multiset{s.protocol.phase.presented} else s.astray)
    case Arrive(token, saveOk) =>
      if token in s.astray then State(Arrived(s.protocol, token, saveOk, grace), s.astray - multiset{token}) else s
  }

  function Run(s: State, steps: seq<Step>, grace: int): State
    decreases |steps|
  {
    if steps == [] then s else Run(Next(s, steps[0], grace), steps[1..], grace)
  }

  /** The token the Bridge will use next: the one on its way to the disk, or the one there. */
  function Holding(p: R.State): Token {
    if p.phase.Replying? || p.phase.Saving? then p.phase.next.token else p.seen.token
  }

  predicate HoldsCurrent(p: R.State) { !p.host.revoked && p.host.current == HashOf(Holding(p)) }

  /** The Host still knows what the Bridge holds, as current or previous. */
  predicate Usable(p: R.State) {
    !p.host.revoked && (p.host.current == HashOf(Holding(p)) || p.host.previous == HashOf(Holding(p)))
  }

  /** A step takes from the Bridge, which held the current token, every use of it. */
  predicate Strands(p: R.State, q: R.State) {
    HoldsCurrent(p) && !Usable(q)
  }

  /** A late request arrives, and is saved, while its token is the previous one and the Bridge holds the current one. */
  predicate Overtaken(s: State, step: Step) {
    && step.Arrive? && step.saveOk && step.token in s.astray
    && s.protocol.host.previous == HashOf(step.token) && HoldsCurrent(s.protocol)
  }

  // ---- The invariant ----

  /** The disk holds what readers see. */
  predicate Settled(p: R.State) { p.kept == p.seen && p.behindKept == p.behindSeen && p.landedKept == p.landedSeen }

  /** What is astray was once in the file; if it is current it still is, flushed if cuts matter. */
  ghost predicate AstrayOk(p: R.State, token: Token, cuts: bool) {
    !p.host.revoked ==>
      && token.serial < p.serial
      && (p.phase.Replying? || p.phase.Saving? ==> token != p.phase.next.token)
      && (p.host.current == HashOf(token) ==> p.seen.token == token && (cuts ==> Settled(p)))
  }

  ghost predicate Inv(s: State, cuts: bool) {
    && R.Inv(s.protocol, cuts)
    && (s.protocol.phase.Requesting? ==> AstrayOk(s.protocol, s.protocol.phase.presented, cuts))
    && (forall token :: token in s.astray ==> AstrayOk(s.protocol, token, cuts))
  }

  /** As in `Recovery`: each refresh begins flushed, or no power cut undoes a rename. */
  predicate Careful(p: R.State, step: Step, cuts: bool) {
    step.Protocol? ==>
      if cuts then (step.step.Begin? && p.phase.Idle? ==> Settled(p))
      else !(step.step.PowerCut? && step.step.reverts)
  }

  predicate CarefulRun(s: State, steps: seq<Step>, grace: int, cuts: bool)
    decreases |steps|
  {
    steps == [] || (Careful(s.protocol, steps[0], cuts) && CarefulRun(Next(s, steps[0], grace), steps[1..], grace, cuts))
  }

  lemma StaysAstrayOk(p: R.State, step: R.Step, token: Token, cuts: bool, grace: int)
    requires R.Inv(p, cuts) && AstrayOk(p, token, cuts) && Careful(p, Protocol(step), cuts)
    ensures AstrayOk(R.Next(p, step, grace), token, cuts)
  {
  }

  /** A request is of the token in the file, and will be astray if it is given up. */
  lemma RequestsAreAstrayOk(p: R.State, cuts: bool)
    requires R.Inv(p, cuts) && p.phase.Requesting?
    ensures AstrayOk(p, p.phase.presented, cuts)
  {
  }

  /** On its own the protocol never strands the Bridge. */
  lemma ProtocolNeverStrands(s: State, step: R.Step, cuts: bool, grace: int)
    requires Inv(s, cuts) && Careful(s.protocol, Protocol(step), cuts)
    ensures Inv(Next(s, Protocol(step), grace), cuts) && !Strands(s.protocol, R.Next(s.protocol, step, grace))
  {
    var q := R.Next(s.protocol, step, grace);
    R.InvNext(s.protocol, step, grace, cuts);
    if q.phase.Requesting? {
      RequestsAreAstrayOk(q, cuts);
    }
    forall token | token in Next(s, Protocol(step), grace).astray ensures AstrayOk(q, token, cuts) {
      StaysAstrayOk(s.protocol, step, token, cuts, grace);
    }
    OwnStepsStrandNobody(s.protocol, step, cuts, grace);
  }

  lemma OwnStepsStrandNobody(p: R.State, step: R.Step, cuts: bool, grace: int)
    requires R.Inv(p, cuts) && Careful(p, Protocol(step), cuts)
    ensures !Strands(p, R.Next(p, step, grace))
  {
  }

  /** A late request strands the Bridge exactly if it is overtaken; otherwise all stays as it should be. */
  lemma ArrivalStrandsExactlyIfOvertaken(s: State, token: Token, saveOk: bool, cuts: bool, grace: int)
    requires Inv(s, cuts)
    ensures Strands(s.protocol, Next(s, Arrive(token, saveOk), grace).protocol) <==> Overtaken(s, Arrive(token, saveOk))
    ensures !Overtaken(s, Arrive(token, saveOk)) ==> Inv(Next(s, Arrive(token, saveOk), grace), cuts)
  {
    if token in s.astray {
      var q := Arrived(s.protocol, token, saveOk, grace);
      ArrivedKeeps(s, token, saveOk, cuts, grace);
      forall other | other in s.astray - multiset{token} ensures !Overtaken(s, Arrive(token, saveOk)) ==> AstrayOk(q, other, cuts) {
        ArrivedSpares(s.protocol, token, saveOk, other, cuts, grace);
      }
      if s.protocol.phase.Requesting? {
        ArrivedSpares(s.protocol, token, saveOk, s.protocol.phase.presented, cuts, grace);
      }
    }
  }

  lemma ArrivedKeeps(s: State, token: Token, saveOk: bool, cuts: bool, grace: int)
    requires Inv(s, cuts) && token in s.astray
    ensures Strands(s.protocol, Arrived(s.protocol, token, saveOk, grace)) <==> Overtaken(s, Arrive(token, saveOk))
    ensures !Overtaken(s, Arrive(token, saveOk)) ==> R.Inv(Arrived(s.protocol, token, saveOk, grace), cuts)
  {
    assert AstrayOk(s.protocol, token, cuts);
  }

  lemma ArrivedSpares(p: R.State, token: Token, saveOk: bool, other: Token, cuts: bool, grace: int)
    requires R.Inv(p, cuts) && AstrayOk(p, token, cuts) && AstrayOk(p, other, cuts)
    ensures AstrayOk(Arrived(p, token, saveOk, grace), other, cuts)
  {
  }

  // ---- Over whole runs ----

  predicate NeverStranded(s: State, steps: seq<Step>, grace: int)
    decreases |steps|
  {
    steps == []
    || (!Strands(s.protocol, Next(s, steps[0], grace).protocol) && NeverStranded(Next(s, steps[0], grace), steps[1..], grace))
  }

  predicate NeverOvertaken(s: State, steps: seq<Step>, grace: int)
    decreases |steps|
  {
    steps == [] || (!Overtaken(s, steps[0]) && NeverOvertaken(Next(s, steps[0], grace), steps[1..], grace))
  }

  lemma StepStrandsExactlyIfOvertaken(s: State, step: Step, grace: int, cuts: bool)
    requires Inv(s, cuts) && Careful(s.protocol, step, cuts)
    ensures Strands(s.protocol, Next(s, step, grace).protocol) <==> Overtaken(s, step)
    ensures !Overtaken(s, step) ==> Inv(Next(s, step, grace), cuts)
  {
    match step
    case Protocol(p) => ProtocolNeverStrands(s, p, cuts, grace);
    case Arrive(token, saveOk) => ArrivalStrandsExactlyIfOvertaken(s, token, saveOk, cuts, grace);
  }

  lemma {:induction false} StrandedExactlyIfOvertaken(s: State, steps: seq<Step>, grace: int, cuts: bool)
    requires Inv(s, cuts) && CarefulRun(s, steps, grace, cuts)
    ensures NeverStranded(s, steps, grace) <==> NeverOvertaken(s, steps, grace)
    ensures NeverOvertaken(s, steps, grace) ==> Inv(Run(s, steps, grace), cuts)
    decreases |steps|
  {
    if steps != [] {
      StepStrandsExactlyIfOvertaken(s, steps[0], grace, cuts);
      if !Overtaken(s, steps[0]) {
        StrandedExactlyIfOvertaken(Next(s, steps[0], grace), steps[1..], grace, cuts);
      }
    }
  }

  function Start(bridge: BridgeId, now: int): State { State(R.Enrolled(bridge, now), multiset{}) }

  /**
   Late requests, exactly. In every run from enrolment the Bridge is at no step deprived of the current token it
   held, if and only if no late request is saved while its token is the previous one and the Bridge holds the
   current one. In such a run the file's token is current or previous for as long as the family lives.
   */
  lemma LateRequestsAreHarmlessExactlyIf(bridge: BridgeId, now: int, steps: seq<Step>, grace: int, cuts: bool)
    requires CarefulRun(Start(bridge, now), steps, grace, cuts)
    ensures NeverStranded(Start(bridge, now), steps, grace) <==> NeverOvertaken(Start(bridge, now), steps, grace)
    ensures NeverOvertaken(Start(bridge, now), steps, grace) ==>
              var p := Run(Start(bridge, now), steps, grace).protocol;
              !p.host.revoked ==> R.DiskIsLive(p)
  {
    StrandedExactlyIfOvertaken(Start(bridge, now), steps, grace, cuts);
  }

  function Lifted(steps: seq<R.Step>): (r: seq<Step>)
    ensures |r| == |steps|
  {
    seq(|steps|, i requires 0 <= i < |steps| => Protocol(steps[i]))
  }

  lemma {:induction false} LiftedRun(s: State, steps: seq<R.Step>, grace: int)
    ensures Run(s, Lifted(steps), grace).protocol == R.Run(s.protocol, steps, grace)
    ensures s.astray <= Run(s, Lifted(steps), grace).astray
    decreases |steps|
  {
    if steps != [] {
      assert Lifted(steps)[1..] == Lifted(steps[1..]);
      LiftedRun(Next(s, Protocol(steps[0]), grace), steps[1..], grace);
    }
  }

  /** A run in which it happens: a request is given up, the next refresh goes through, and then it arrives. */
  lemma AStragglerCanStrand(bridge: BridgeId, now: int, grace: int)
    ensures var steps := [R.Begin, R.LoseRequest] + R.CleanRefresh();
            var s := Run(Start(bridge, now), Lifted(steps), grace);
            Overtaken(s, Arrive(Token(0), true)) && Strands(s.protocol, Next(s, Arrive(Token(0), true), grace).protocol)
  {
    var steps := [R.Begin, R.LoseRequest] + R.CleanRefresh();
    var s := Run(Start(bridge, now), Lifted(steps), grace);
    LiftedRun(Start(bridge, now), steps, grace);
    R.StaleRequestIsReachable(bridge, now, grace);
    GivenUpFirst(bridge, now, grace);
  }

  lemma GivenUpFirst(bridge: BridgeId, now: int, grace: int)
    ensures Token(0) in Run(Start(bridge, now), Lifted([R.Begin, R.LoseRequest] + R.CleanRefresh()), grace).astray
  {
    var steps := [R.Begin, R.LoseRequest] + R.CleanRefresh();
    var s0 := Start(bridge, now);
    var s1 := Next(s0, Protocol(R.Begin), grace);
    var s2 := Next(s1, Protocol(R.LoseRequest), grace);
    assert Token(0) in s2.astray;
    assert Lifted(steps)[1..] == Lifted(steps[1..]) && steps[1..][1..] == steps[2..];
    assert Lifted(steps[1..])[1..] == Lifted(steps[2..]);
    assert Run(s0, Lifted(steps), grace) == Run(s1, Lifted(steps[1..]), grace);
    assert Run(s1, Lifted(steps[1..]), grace) == Run(s2, Lifted(steps[2..]), grace);
    LiftedRun(s2, steps[2..], grace);
  }
}
