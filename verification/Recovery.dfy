/**
 The rotation protocol end to end: one Host family, one Bridge file, and everything that can go wrong
 between them. Requests and replies are lost, Host saves fail, and the Bridge dies or loses power at
 any point. What can be said of the token on the Bridge's disk in every such run, and exactly when.
 */
module Recovery {
  import opened Wrappers
  import opened Credentials
  import opened BridgeDisk
  import A = AtomicFiles

  /** Where the Bridge stands in one refresh. `next` is the credential the Host's reply carries. */
  datatype Phase =
    | Idle
    | Requesting(presented: Token, generation: nat)
    | Replying(next: Credential)
    | Saving(next: Credential)
    | Flushing

  /**
   `seen` is the credential any reader of the file sees, `kept` what a power cut would leave. The rest
   are history: `successes` counts Host rotations that were saved; `behindSeen` and `behindKept` count
   those since each credential was the Host's current one; `landedSeen` and `landedKept` count the
   results in the lineage of each.
   */
  datatype State = State(
    host: Family,
    seen: Credential,
    kept: Credential,
    phase: Phase,
    now: int,
    serial: nat,
    successes: nat,
    behindSeen: nat,
    behindKept: nat,
    landedSeen: nat,
    landedKept: nat)

  datatype Step =
    | Tick(elapsed: nat)
    | Begin
    | LoseRequest
    | HostHandles(saveOk: bool)
    | LoseReply
    | ReceiveReply
    | FailBeforeRename
    | Rename
    | FlushDirectory(flushed: bool)
    | Crash
    | PowerCut(reverts: bool)
    | BackgroundFlush

  function HostPlan(s: State, presented: Token, grace: int): Plan {
    PlanRotate(s.host.bridge, Some(s.host), presented, s.now, grace, Token(s.serial))
  }

  /** The Host's turn: what it decides, and whether its save succeeds. */
  function Handled(s: State, saveOk: bool, grace: int): State
    requires s.phase.Requesting?
  {
    match HostPlan(s, s.phase.presented, grace)
    case Answer(_) => s.(phase := Idle)
    case Commit(next, reply) =>
      if !saveOk then s.(phase := Idle, serial := s.serial + 1)
      else if reply.Granted? then
        s.(host := next, serial := s.serial + 1, successes := s.successes + 1,
           behindSeen := s.behindSeen + 1, behindKept := s.behindKept + 1,
           phase := Replying(Credential(s.host.bridge, reply.refresh, s.phase.generation + 1)))
      else s.(host := next, phase := Idle)
  }

  /** One step; a step that does not apply leaves the state as it is, so every list of steps is a run. */
  function Next(s: State, step: Step, grace: int): State {
    match step
    case Tick(elapsed) => s.(now := s.now + elapsed)
    case Begin => if s.phase.Idle? then s.(phase := Requesting(s.seen.token, s.seen.generation)) else s
    case LoseRequest => if s.phase.Requesting? then s.(phase := Idle) else s
    case HostHandles(saveOk) => if s.phase.Requesting? then Handled(s, saveOk, grace) else s
    case LoseReply => if s.phase.Replying? then s.(phase := Idle) else s
    case ReceiveReply => if s.phase.Replying? then s.(phase := Saving(s.phase.next)) else s
    case FailBeforeRename => if s.phase.Saving? then s.(phase := Idle) else s
    case Rename =>
      if s.phase.Saving? then
        s.(seen := s.phase.next, phase := Flushing, behindSeen := 0, landedSeen := s.landedSeen + 1)
      else s
    case FlushDirectory(flushed) =>
      if !s.phase.Flushing? then s
      else if flushed then Flushed(s).(phase := Idle) else s.(phase := Idle)
    case Crash => s.(phase := Idle)
    case PowerCut(reverts) =>
      if reverts then s.(phase := Idle, seen := s.kept, behindSeen := s.behindKept, landedSeen := s.landedKept)
      else Flushed(s).(phase := Idle)
    case BackgroundFlush => Flushed(s)
  }

  function Flushed(s: State): State {
    s.(kept := s.seen, behindKept := s.behindSeen, landedKept := s.landedSeen)
  }

  function Run(s: State, steps: seq<Step>, grace: int): State
    decreases |steps|
  {
    if steps == [] then s else Run(Next(s, steps[0], grace), steps[1..], grace)
  }

  /** The moment after enrolment: the Host's generation is one and so is the Bridge's. */
  function Enrolled(bridge: BridgeId, now: int): State {
    var c := Credential(bridge, Token(0), 1);
    State(Family(bridge, HashOf(Token(0)), NoHash, 0, false, 1, false, ""), c, c, Idle, now, 1, 0, 0, 0, 0, 0)
  }

  /**
   The condition under which power cuts are harmless: no refresh begins while the last rename is
   still unflushed. Runs in which no power cut ever undoes a rename need no condition.
   */
  ghost predicate Orderly(s: State, steps: seq<Step>, grace: int)
    decreases |steps|
  {
    steps == [] || ((steps[0].Begin? && s.phase.Idle? ==> s.seen == s.kept && s.behindSeen == s.behindKept && s.landedSeen == s.landedKept)
                    && Orderly(Next(s, steps[0], grace), steps[1..], grace))
  }

  ghost predicate NothingReverts(steps: seq<Step>) {
    forall step :: step in steps ==> !(step.PowerCut? && step.reverts)
  }

  lemma RunFive(s: State, steps: seq<Step>, grace: int)
    requires |steps| == 5
    ensures Run(s, steps, grace)
         == Next(Next(Next(Next(Next(s, steps[0], grace), steps[1], grace), steps[2], grace), steps[3], grace), steps[4], grace)
  {
    var s1 := Next(s, steps[0], grace);
    var s2 := Next(s1, steps[1], grace);
    var s3 := Next(s2, steps[2], grace);
    var s4 := Next(s3, steps[3], grace);
    assert steps[1..][1..] == steps[2..] && steps[2..][1..] == steps[3..] && steps[3..][1..] == steps[4..] && steps[4..][1..] == [];
    assert Run(s, steps, grace) == Run(s1, steps[1..], grace);
    assert Run(s1, steps[1..], grace) == Run(s2, steps[2..], grace);
    assert Run(s2, steps[2..], grace) == Run(s3, steps[3..], grace);
    assert Run(s3, steps[3..], grace) == Run(s4, steps[4..], grace);
    assert Run(Next(s4, steps[4], grace), [], grace) == Next(s4, steps[4], grace);
  }

  /** The steps one call of the client's refresh takes, by what the network and the disk do to it. */
  function StepsOf(exchange: Exchange, saveOk: bool, fault: A.SaveFault): seq<Step> {
    match exchange
    case RequestLost => [Begin, LoseRequest, Tick(0), Tick(0), Tick(0)]
    case ReplyLost => [Begin, HostHandles(saveOk), LoseReply, Tick(0), Tick(0)]
    case Delivered =>
      [Begin, HostHandles(saveOk), ReceiveReply] +
      match fault
      case NoFault => [Rename, FlushDirectory(true)]
      case DiesAfterRename => [Rename, Crash]
      case DirectoryOpenFails => [Rename, FlushDirectory(false)]
      case DirectorySyncRefused => [Rename, FlushDirectory(false)]
      case _ => [FailBeforeRename, Tick(0)]
  }

  /** The client's refresh is a run: these steps change the Host and the file as `BridgeDisk.Refresh` promises. */
  lemma RefreshIsARun(s: State, exchange: Exchange, saveOk: bool, fault: A.SaveFault, grace: int)
    requires s.phase.Idle? && s.seen.bridge == s.host.bridge
    ensures var s' := Run(s, StepsOf(exchange, saveOk, fault), grace);
            var b := s.host.bridge;
            var (families, reply) := Atomic(map[b := s.host], Rotate(s.seen.token), b, true, s.now, grace, Token(s.serial), saveOk);
            && s'.phase.Idle?
            && s'.host == (if exchange.RequestLost? then s.host else families[b])
            && (if exchange.Delivered? && reply.Granted? then
                  var next := Credential(b, reply.refresh, s.seen.generation + 1);
                  s'.seen == (if A.Renames(fault) then next else s.seen) && s'.kept == (if A.Flushes(fault) then next else s.kept)
                else s'.seen == s.seen && s'.kept == s.kept)
  {
    RunFive(s, StepsOf(exchange, saveOk, fault), grace);
    var t := Next(s, Begin, grace);
    HandledIsAtomic(t, saveOk, grace);
  }

  /** The Host's turn is the atomic rotation of the presented token. */
  lemma HandledIsAtomic(t: State, saveOk: bool, grace: int)
    requires t.phase.Requesting?
    ensures var b := t.host.bridge;
            var (families, reply) := Atomic(map[b := t.host], Rotate(t.phase.presented), b, true, t.now, grace, Token(t.serial), saveOk);
            var u := Handled(t, saveOk, grace);
            && b in families && u.host == families[b] && u.seen == t.seen && u.kept == t.kept
            && (reply.Granted? <==> u.phase.Replying?)
            && (reply.Granted? ==> u.phase.next == Credential(b, reply.refresh, t.phase.generation + 1))
            && (!reply.Granted? ==> u.phase.Idle?)
  {
  }

  // ---- The invariant ----

  /**
   A credential stands `behind` Host rotations after it was current: none and it is current; one and
   it is the unused previous one; two and it is the previous one, already used to recover.
   */
  ghost predicate Standing(host: Family, c: Credential, behind: nat) {
    && c.bridge == host.bridge
    && behind <= 2
    && (behind == 0 ==> host.current == HashOf(c.token))
    && (behind == 1 ==> host.previous == HashOf(c.token) && !host.consumed)
    && (behind == 2 ==> host.previous == HashOf(c.token) && host.consumed)
  }

  ghost predicate PhaseInv(s: State) {
    match s.phase
    case Requesting(presented, generation) => presented == s.seen.token && generation == s.seen.generation
    case Replying(next) => NextIsCurrent(s, next) && 1 <= s.behindSeen
    case Saving(next) => NextIsCurrent(s, next) && 1 <= s.behindSeen
    case _ => true
  }

  ghost predicate NextIsCurrent(s: State, next: Credential) {
    s.host.current == HashOf(next.token) && next.bridge == s.host.bridge && next.generation == s.seen.generation + 1
  }

  ghost predicate Account(s: State) {
    && s.host.generation == 1 + s.successes
    && s.seen.generation == 1 + s.landedSeen
    && s.kept.generation == 1 + s.landedKept
    && s.landedSeen + s.behindSeen <= s.successes
    && s.landedKept + s.behindKept <= s.successes
  }

  /** `cuts` says whether a power cut may undo a rename in the run at hand. */
  ghost predicate Inv(s: State, cuts: bool) {
    && Account(s)
    && Minted(s.host, s.serial)
    && (!s.host.revoked ==> Standing(s.host, s.seen, s.behindSeen))
    && (!s.host.revoked ==> PhaseInv(s))
    && (s.host.revoked ==> !s.phase.Replying? && !s.phase.Saving? && (s.phase.Requesting? ==> s.phase.generation == s.seen.generation))
    && (s.host.revoked ==> s.behindSeen >= 1)
    && (cuts ==> Undoable(s))
  }

  /** Undoing the last rename leaves a credential in good standing, and no request is out meanwhile. */
  ghost predicate Undoable(s: State) {
    && (!s.host.revoked ==> Standing(s.host, s.kept, s.behindKept))
    && (s.host.revoked ==> s.behindKept >= 1)
    && (s.phase.Requesting? || s.phase.Replying? || s.phase.Saving? || s.host.revoked ==>
          s.kept == s.seen && s.behindKept == s.behindSeen && s.landedKept == s.landedSeen)
    && (s.kept != s.seen ==> s.behindSeen == 0)
  }

  lemma InvNext(s: State, step: Step, grace: int, cuts: bool)
    requires Inv(s, cuts)
    requires !cuts ==> !(step.PowerCut? && step.reverts)
    requires cuts && step.Begin? && s.phase.Idle? ==> s.seen == s.kept && s.behindSeen == s.behindKept && s.landedSeen == s.landedKept
    ensures Inv(Next(s, step, grace), cuts)
  {
    if step.HostHandles? {
      if s.phase.Requesting? {
        InvHandled(s, step.saveOk, grace, cuts);
      }
    }
  }

  lemma InvHandled(s: State, saveOk: bool, grace: int, cuts: bool)
    requires Inv(s, cuts) && s.phase.Requesting?
    ensures Inv(Handled(s, saveOk, grace), cuts)
  {
  }

  lemma {:induction false} InvRun(s: State, steps: seq<Step>, grace: int, cuts: bool)
    requires Inv(s, cuts)
    requires if cuts then Orderly(s, steps, grace) else NothingReverts(steps)
    ensures Inv(Run(s, steps, grace), cuts)
    decreases |steps|
  {
    if steps != [] {
      InvNext(s, steps[0], grace, cuts);
      InvRun(Next(s, steps[0], grace), steps[1..], grace, cuts);
    }
  }

  // ---- What holds in every run ----

  /** Power cuts are harmless in this run: each refresh begins flushed, or no cut undoes a rename. */
  ghost predicate Harmless(s: State, steps: seq<Step>, grace: int) {
    Orderly(s, steps, grace) || NothingReverts(steps)
  }

  /** The token on disk is the family's current or previous one. */
  ghost predicate DiskIsLive(s: State) {
    s.host.current == HashOf(s.seen.token) || s.host.previous == HashOf(s.seen.token)
  }

  lemma ReachableInv(bridge: BridgeId, start: int, steps: seq<Step>, grace: int) returns (cuts: bool)
    requires Harmless(Enrolled(bridge, start), steps, grace)
    ensures Inv(Run(Enrolled(bridge, start), steps, grace), cuts)
  {
    cuts := !NothingReverts(steps);
    InvRun(Enrolled(bridge, start), steps, grace, cuts);
  }

  /** While the family is not revoked, whatever was lost or crashed, the Bridge can still present something. */
  lemma DiskStaysLive(bridge: BridgeId, start: int, steps: seq<Step>, grace: int)
    requires Harmless(Enrolled(bridge, start), steps, grace)
    ensures var s := Run(Enrolled(bridge, start), steps, grace); !s.host.revoked ==> DiskIsLive(s)
  {
    var cuts := ReachableInv(bridge, start, steps, grace);
  }

  /**
   What the Host answers in any run, told by how many of its results the disk has missed since it was
   last current: none, a rotation; one, a recovery inside the window and the end of the family outside
   it; two, the end of the family. The Bridge's own token is never unknown to the Host.
   */
  lemma HostVerdict(bridge: BridgeId, start: int, steps: seq<Step>, grace: int)
    requires Harmless(Enrolled(bridge, start), steps, grace)
    requires Run(Enrolled(bridge, start), steps, grace).phase.Requesting?
    requires !Run(Enrolled(bridge, start), steps, grace).host.revoked
    ensures var s := Run(Enrolled(bridge, start), steps, grace);
            var plan := HostPlan(s, s.phase.presented, grace);
            var late := s.now - s.host.issuedAt > grace;
            && plan.Commit?
            && (s.behindSeen == 0 <==> plan.reply.Granted? && plan.reply.outcome == Rotated)
            && (s.behindSeen == 1 && !late <==> plan.reply.Granted? && plan.reply.outcome == Recovered)
            && ((s.behindSeen == 1 && late) || s.behindSeen == 2 <==> plan.reply == Refused(ReuseDetected))
  {
    var cuts := ReachableInv(bridge, start, steps, grace);
  }

  /** A refresh in which nothing goes wrong. */
  function CleanRefresh(): seq<Step> {
    [Begin, HostHandles(true), ReceiveReply, Rename, FlushDirectory(true)]
  }

  /**
   One lost result retried inside the window always recovers: from every such state of every run, a
   refresh in which nothing goes wrong leaves the Bridge holding the Host's current token, flushed.
   */
  lemma LostResultRecovers(bridge: BridgeId, start: int, steps: seq<Step>, grace: int)
    requires Harmless(Enrolled(bridge, start), steps, grace)
    requires var s := Run(Enrolled(bridge, start), steps, grace);
             && !s.host.revoked && s.phase.Idle?
             && (s.behindSeen == 0 || (s.behindSeen == 1 && s.now - s.host.issuedAt <= grace))
    ensures var s := Run(Run(Enrolled(bridge, start), steps, grace), CleanRefresh(), grace);
            !s.host.revoked && s.phase.Idle? && s.kept == s.seen && s.behindSeen == 0
            && s.host.current == HashOf(s.seen.token)
  {
    var cuts := ReachableInv(bridge, start, steps, grace);
    var s0 := Run(Enrolled(bridge, start), steps, grace);
    var s1 := Next(s0, Begin, grace);
    InvNext(Flushed(s0), Begin, grace, false);
    var s2 := Next(s1, HostHandles(true), grace);
    assert s2.phase.Replying?;
    var s3 := Next(s2, ReceiveReply, grace);
    var s4 := Next(s3, Rename, grace);
    var s5 := Next(s4, FlushDirectory(true), grace);
    RunFive(s0, CleanRefresh(), grace);
  }

  /** The step of a run that ended the family, and the state it was taken in. */
  ghost predicate EndsFamily(s: State, step: Step, grace: int) {
    && step == HostHandles(true)
    && s.phase.Requesting? && s.phase.presented == s.seen.token
    && !s.host.revoked
    && (s.behindSeen == 2 || (s.behindSeen == 1 && s.now - s.host.issuedAt > grace))
  }

  lemma RevokingStep(s: State, step: Step, grace: int, cuts: bool)
    requires Inv(s, cuts) && !s.host.revoked && Next(s, step, grace).host.revoked
    ensures EndsFamily(s, step, grace)
  {
  }

  lemma {:induction false} CauseOfRevocation(s: State, steps: seq<Step>, grace: int, cuts: bool) returns (k: nat)
    requires Inv(s, cuts) && !s.host.revoked
    requires if cuts then Orderly(s, steps, grace) else NothingReverts(steps)
    requires Run(s, steps, grace).host.revoked
    ensures k < |steps| && EndsFamily(Run(s, steps[..k], grace), steps[k], grace)
    decreases |steps|
  {
    InvNext(s, steps[0], grace, cuts);
    var s' := Next(s, steps[0], grace);
    if s'.host.revoked {
      RevokingStep(s, steps[0], grace, cuts);
      assert steps[..0] == [];
      k := 0;
    } else {
      k := CauseOfRevocation(s', steps[1..], grace, cuts);
      assert steps[..k + 1][1..] == steps[1..][..k];
      k := k + 1;
    }
  }

  /**
   A family whose Bridge is the only one to present its tokens ends for one of two reasons only: one
   result was lost and the retry came late, or the recovery's own result was lost too.
   */
  lemma RevocationHasACause(bridge: BridgeId, start: int, steps: seq<Step>, grace: int)
    requires Harmless(Enrolled(bridge, start), steps, grace)
    requires Run(Enrolled(bridge, start), steps, grace).host.revoked
    ensures exists k :: 0 <= k < |steps| && EndsFamily(Run(Enrolled(bridge, start), steps[..k], grace), steps[k], grace)
  {
    var k := CauseOfRevocation(Enrolled(bridge, start), steps, grace, !NothingReverts(steps));
  }

  // ---- The generation figure ----

  ghost predicate GenerationInv(s: State) {
    && s.host.generation == 1 + s.successes
    && s.seen.generation == 1 + s.landedSeen
    && s.kept.generation == 1 + s.landedKept
    && s.landedSeen <= s.successes && s.landedKept <= s.successes
    && (s.phase.Requesting? ==> s.phase.generation == s.seen.generation)
    && (s.phase.Replying? || s.phase.Saving? ==>
          s.phase.next.generation == s.seen.generation + 1 && s.landedSeen < s.successes)
  }

  lemma GenerationInvNext(s: State, step: Step, grace: int)
    requires GenerationInv(s)
    ensures GenerationInv(Next(s, step, grace))
  {
  }

  lemma {:induction false} GenerationInvRun(s: State, steps: seq<Step>, grace: int)
    requires GenerationInv(s)
    ensures GenerationInv(Run(s, steps, grace))
    decreases |steps|
  {
    if steps != [] {
      GenerationInvNext(s, steps[0], grace);
      GenerationInvRun(Next(s, steps[0], grace), steps[1..], grace);
    }
  }

  /**
   In every run at all, the Host's generation is the Bridge's stored one plus the number of saved Host
   rotations whose result is not in the file. The stored figure is therefore never ahead, and it is
   exact, as the client's comment claims it always is, only when no result was lost.
   */
  lemma GenerationCountsLostResults(bridge: BridgeId, start: int, steps: seq<Step>, grace: int)
    ensures var s := Run(Enrolled(bridge, start), steps, grace);
            && s.host.generation == s.seen.generation + (s.successes - s.landedSeen)
            && s.seen.generation <= s.host.generation
            && (s.seen.generation == s.host.generation <==> s.successes == s.landedSeen)
  {
    GenerationInvRun(Enrolled(bridge, start), steps, grace);
  }

  // ---- Where the promise ends ----

  /**
   `Orderly` is the exact condition. In any state a run of orderly steps reaches in which the disk is
   current, begin a refresh, let the Host save it and cut the power: the disk is live afterwards if and
   only if the previous rename had been flushed when the refresh began.
   */
  lemma UnflushedRefreshStrands(s: State, grace: int)
    requires Inv(s, true) && !s.host.revoked && s.phase.Idle? && s.behindSeen == 0
    ensures var s1 := Next(s, Begin, grace);
            var s2 := Next(s1, HostHandles(true), grace);
            var s3 := Next(s2, PowerCut(true), grace);
            DiskIsLive(s3) <==> s.kept.token == s.seen.token
  {
  }

  /** Such an unflushed state is reached by one refresh whose directory flush was refused. */
  lemma UnflushedStateIsReachable(bridge: BridgeId, start: int, grace: int)
    ensures var steps := [Begin, HostHandles(true), ReceiveReply, Rename, FlushDirectory(false)];
            var s := Run(Enrolled(bridge, start), steps, grace);
            Inv(s, true) && !s.host.revoked && s.phase.Idle? && s.behindSeen == 0 && s.kept.token != s.seen.token
  {
    var steps := [Begin, HostHandles(true), ReceiveReply, Rename, FlushDirectory(false)];
    RunFive(Enrolled(bridge, start), steps, grace);
  }

  /**
   A request the Bridge gave up on must not arrive later. If an earlier request's token `stale` reaches
   the Host after the Bridge has moved on, it changes nothing exactly when it is no longer the previous
   token; otherwise the Bridge's own token is dead, by a recovery nobody receives or by revocation.
   */
  lemma StaleRequestStrands(s: State, stale: Token, cuts: bool, grace: int)
    requires Inv(s, cuts) && !s.host.revoked && s.behindSeen == 0 && stale != s.seen.token
    ensures var host := Present(s.host, Presentation(stale, s.now, true), grace, Token(s.serial)).0;
            && (host == s.host <==> s.host.previous != HashOf(stale))
            && (host != s.host ==> host.revoked || !DiskIsLive(s.(host := host)))
  {
  }

  /** Such a state is reached by giving up on one request and then refreshing without trouble. */
  lemma StaleRequestIsReachable(bridge: BridgeId, start: int, grace: int)
    ensures var s := Run(Enrolled(bridge, start), [Begin, LoseRequest] + CleanRefresh(), grace);
            && Inv(s, true) && !s.host.revoked && s.behindSeen == 0 && s.seen.token != Token(0)
            && s.host.previous == HashOf(Token(0))
            && var host := Present(s.host, Presentation(Token(0), s.now, true), grace, Token(s.serial)).0;
               host != s.host && (host.revoked || !DiskIsLive(s.(host := host)))
  {
    var s0 := Enrolled(bridge, start);
    RunAppend(s0, [Begin, LoseRequest], CleanRefresh(), grace);
    assert Run(s0, [Begin, LoseRequest], grace) == s0 by {
      assert [Begin, LoseRequest][1..] == [LoseRequest];
      assert Run(Next(Next(s0, Begin, grace), LoseRequest, grace), [], grace) == s0;
    }
    RunFive(s0, CleanRefresh(), grace);
    var s1 := Next(s0, Begin, grace);
    var s2 := Next(s1, HostHandles(true), grace);
    assert s2.host.previous == HashOf(Token(0)) && s2.host.current == HashOf(Token(1));
    var s := Run(s0, CleanRefresh(), grace);
    assert s.seen.token == Token(1) && s.host == s2.host && Inv(s, true);
    StaleRequestStrands(s, Token(0), true, grace);
  }

  lemma {:induction false} RunAppend(s: State, xs: seq<Step>, ys: seq<Step>, grace: int)
    ensures Run(s, xs + ys, grace) == Run(Run(s, xs, grace), ys, grace)
    decreases |xs|
  {
    if xs == [] {
      assert xs + ys == ys;
    } else {
      assert (xs + ys)[1..] == xs[1..] + ys;
      RunAppend(Next(s, xs[0], grace), xs[1..], ys, grace);
    }
  }
}
