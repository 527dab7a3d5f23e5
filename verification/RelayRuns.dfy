/**
 Every interleaving of the relay's goroutines: handlers, pairers, timeouts and revocations over any
 number of grants, one critical section or channel operation at a time.
 */
module RelayRuns {
  import opened Wrappers
  import opened Relay

  /** Where a connection's goroutine stands. From `Paired` on it owns `peer` as well as itself. */
  datatype Stage =
    | Arrived
    | Parking
    | TimerFired
    | Paired(peer: ConnId)
    | Admitted(peer: ConnId)
    | Failing(peer: ConnId)
    | Greeted(peer: ConnId)
    | Entering(peer: ConnId)
    | Copying(peer: ConnId, remaining: nat)
    | Draining(peer: ConnId)
    | Leaving(peer: ConnId)
    | Finished

  /** Who took a parked connection out of its grant's waiting slot. */
  datatype Taker = ByWaiter | ByPairer(conn: ConnId) | ByRevoker

  /**
   A connection: its goroutine's stage, the signals sent on its hand-off channel (capacity one), and
   the history of everyone who took it.
   */
  datatype Conn = Conn(grant: GrantId, role: Role, stage: Stage, signals: nat, takers: seq<Taker>)

  /** `signalling` holds the connections a revocation has taken and not yet signalled. */
  datatype System = System(grants: map<GrantId, Grant>, conns: map<ConnId, Conn>, active: nat, signalling: set<ConnId>)

  datatype Step =
    | Arrive(c: ConnId, grant: GrantId, role: Role)
    | Enter(c: ConnId)
    | Wake(c: ConnId)
    | Timer(c: ConnId)
    | Expire(c: ConnId)
    | Admit(c: ConnId)
    | Ack(c: ConnId, ok: bool)
    | Signal(c: ConnId)
    | Begin(c: ConnId, expired: bool)
    | Record(c: ConnId, n: nat)
    | Clear(c: ConnId)
    | Release(c: ConnId)
    | Revoke(grant: GrantId)
    | RevokeSignal(c: ConnId)

  const EMPTY := System(map[], map[], 0, {})

  function SetConn(s: System, c: ConnId, conn: Conn): System { s.(conns := s.conns[c := conn]) }

  function SetStage(s: System, c: ConnId, stage: Stage): System
    requires c in s.conns
  {
    SetConn(s, c, s.conns[c].(stage := stage))
  }

  function SetGrant(s: System, g: GrantId, grant: Grant): System { s.(grants := s.grants[g := grant]) }

  /** Record that `taker` took `c` out of the waiting slot. */
  function Taken(s: System, c: ConnId, taker: Taker): System {
    if c in s.conns then SetConn(s, c, s.conns[c].(takers := s.conns[c].takers + [taker])) else s
  }

  function Signalled(s: System, c: ConnId): System {
    if c in s.conns then SetConn(s, c, s.conns[c].(signals := s.conns[c].signals + 1)) else s
  }

  function Released(active: nat): nat { if active > 0 then active - 1 else 0 }

  /** Every connection's grant has a record. */
  predicate Known(s: System, c: ConnId) { c in s.conns && s.conns[c].grant in s.grants }

  function NextEnter(s: System, c: ConnId): System
    requires Known(s, c)
  {
    var conn := s.conns[c];
    var (g, verdict) := EnterSection(s.grants[conn.grant], c, conn.role);
    match verdict
    case RejectRevoked => SetStage(s, c, Finished)
    case PairWith(peer, _) => SetStage(Taken(SetGrant(s, conn.grant, g), peer, ByPairer(c)), c, Paired(peer))
    case ParkSelf => SetStage(SetGrant(s, conn.grant, g), c, Parking)
  }

  function NextExpire(s: System, c: ConnId): System
    requires Known(s, c)
  {
    var g := s.grants[s.conns[c].grant];
    if WaitsHere(g, c) then
      SetStage(Taken(SetGrant(s, s.conns[c].grant, ExpireSection(g, c)), c, ByWaiter), c, Finished)
    else SetStage(s, c, Finished)
  }

  function NextRevoke(s: System, g: GrantId): System {
    var before := if g in s.grants then s.grants[g] else NEW_GRANT;
    var s1 := SetGrant(s, g, RevokeSection(before));
    if before.waiting.Some? then
      var w := before.waiting.value.conn;
      Taken(s1, w, ByRevoker).(signalling := s.signalling + {w})
    else s1
  }

  function NextBegin(s: System, c: ConnId, peer: ConnId, expired: bool, max: nat): System
    requires Known(s, c)
  {
    var conn := s.conns[c];
    var (g, remaining) := BeginSection(s.grants[conn.grant], PairOf(c, conn.role, peer), max);
    var s1 := SetGrant(s, conn.grant, g);
    if remaining.None? then SetStage(s1, c, Leaving(peer))
    else if remaining.value == 0 || expired then SetStage(s1, c, Draining(peer))
    else SetStage(s1, c, Copying(peer, remaining.value))
  }

  function NextSignal(s: System, c: ConnId, peer: ConnId, stage: Stage): System
    requires Known(s, c)
  {
    Signalled(SetStage(s, c, stage), peer)
  }

  /** One step of the machine; a step that does not apply changes nothing, so every list is a run. */
  function Next(s: System, step: Step, config: Config): System {
    if step.Arrive? then
      if step.c in s.conns then s
      else SetConn(SetGrant(s, step.grant, if step.grant in s.grants then s.grants[step.grant] else NEW_GRANT),
                   step.c, Conn(step.grant, step.role, Arrived, 0, []))
    else if step.Revoke? then NextRevoke(s, step.grant)
    else if step.RevokeSignal? then
      if step.c !in s.signalling then s
      else if Known(s, step.c) && s.conns[step.c].signals == 0 then
        Signalled(s, step.c).(signalling := s.signalling - {step.c})
      else s.(signalling := s.signalling - {step.c})
    else if !Known(s, step.c) then s
    else if step.Enter? || step.Wake? || step.Timer? || step.Expire? || step.Signal? then NextPairing(s, step)
    else NextSession(s, step, config)
  }

  /** The steps by which connections park, pair and hand over. */
  function NextPairing(s: System, step: Step): System
    requires !step.Arrive? && !step.Revoke? && !step.RevokeSignal? && Known(s, step.c)
  {
    var c, conn := step.c, s.conns[step.c];
    match (step, conn.stage)
    case (Enter(_), Arrived) => NextEnter(s, c)
    case (Wake(_), Parking) => if conn.signals > 0 then SetStage(s, c, Finished) else s
    case (Timer(_), Parking) => SetStage(s, c, TimerFired)
    case (Expire(_), TimerFired) => NextExpire(s, c)
    case (Signal(_), Failing(peer)) => NextSignal(s, c, peer, Finished)
    case (Signal(_), Greeted(peer)) => NextSignal(s, c, peer, Entering(peer))
    case _ => s
  }

  /** The steps by which a pairer admits, greets, relays and leaves. */
  function NextSession(s: System, step: Step, config: Config): System
    requires !step.Arrive? && !step.Revoke? && !step.RevokeSignal? && Known(s, step.c)
  {
    var c, conn := step.c, s.conns[step.c];
    match (step, conn.stage)
    case (Admit(_), Paired(peer)) =>
      if s.active < config.MaxConcurrent() then SetStage(s, c, Admitted(peer)).(active := s.active + 1)
      else SetStage(s, c, Failing(peer))
    case (Ack(_, ok), Admitted(peer)) =>
      if ok then SetStage(s, c, Greeted(peer)) else SetStage(s, c, Failing(peer)).(active := Released(s.active))
    case (Begin(_, expired), Entering(peer)) => NextBegin(s, c, peer, expired, config.MaxBytes())
    case (Record(_, n), Copying(peer, remaining)) =>
      if n <= remaining then
        SetStage(SetGrant(s, conn.grant, RecordSection(s.grants[conn.grant], n)), c, Draining(peer))
      else s
    case (Clear(_), Draining(peer)) =>
      SetStage(SetGrant(s, conn.grant, ClearSection(s.grants[conn.grant])), c, Leaving(peer))
    case (Release(_), Leaving(_)) => SetStage(s, c, Finished).(active := Released(s.active))
    case _ => s
  }

  function Run(s: System, steps: seq<Step>, config: Config): System
    decreases |steps|
  {
    if steps == [] then s else Run(Next(s, steps[0], config), steps[1..], config)
  }

  // ---- Ownership ----

  predicate OwesSignal(stage: Stage) {
    stage.Paired? || stage.Admitted? || stage.Failing? || stage.Greeted?
  }

  /** The waiting slot names a parked connection nobody has taken or signalled. */
  ghost predicate SlotInv(s: System) {
    forall g :: g in s.grants && s.grants[g].waiting.Some? ==>
      var w := s.grants[g].waiting.value;
      && w.conn in s.conns && s.conns[w.conn].grant == g && s.conns[w.conn].role == w.role
      && (s.conns[w.conn].stage.Parking? || s.conns[w.conn].stage.TimerFired?)
      && s.conns[w.conn].takers == []
      && s.conns[w.conn].signals == 0
  }

  /** A goroutine that owes its peer a signal is that peer's only taker, and none has been sent. */
  ghost predicate OwedInv(s: System) {
    forall c :: c in s.conns && OwesSignal(s.conns[c].stage) ==>
      var p := s.conns[c].stage.peer;
      p in s.conns && s.conns[p].takers == [ByPairer(c)] && s.conns[p].signals == 0
      && s.conns[p].grant == s.conns[c].grant && s.conns[p].role != s.conns[c].role
  }

  ghost predicate SignallingInv(s: System) {
    forall c :: c in s.signalling ==> c in s.conns && s.conns[c].takers == [ByRevoker] && s.conns[c].signals == 0
  }

  ghost predicate ConnInv(s: System) {
    forall c :: c in s.conns ==>
      && s.conns[c].grant in s.grants
      && |s.conns[c].takers| <= 1
      && s.conns[c].signals <= |s.conns[c].takers|
      && (s.conns[c].stage.Arrived? ==> s.conns[c].takers == [])
  }

  ghost predicate RevokedInv(s: System) {
    forall g :: g in s.grants && s.grants[g].revoked ==> s.grants[g].waiting.None?
  }

  ghost predicate Inv(s: System) {
    SlotInv(s) && OwedInv(s) && SignallingInv(s) && ConnInv(s) && RevokedInv(s)
  }

  /** A goroutine moves on without taking or signalling anyone, and keeps owing what it owes. */
  lemma InvSetStage(s: System, c: ConnId, stage: Stage)
    requires Inv(s) && c in s.conns
    requires !s.conns[c].stage.Parking? && !s.conns[c].stage.TimerFired? && !stage.Arrived?
    requires OwesSignal(stage) ==> OwesSignal(s.conns[c].stage) && stage.peer == s.conns[c].stage.peer
    ensures Inv(SetStage(s, c, stage))
  {
  }

  /** A record changes in the fields that pairing does not use. */
  lemma InvSetGrant(s: System, g: GrantId, grant: Grant)
    requires Inv(s) && g in s.grants
    requires grant.waiting == s.grants[g].waiting && grant.revoked == s.grants[g].revoked
    ensures Inv(SetGrant(s, g, grant))
  {
  }

  lemma InvArrive(s: System, c: ConnId, g: GrantId, role: Role)
    requires Inv(s) && c !in s.conns
    ensures Inv(SetConn(SetGrant(s, g, if g in s.grants then s.grants[g] else NEW_GRANT), c, Conn(g, role, Arrived, 0, [])))
  {
  }

  /** Pairing: the waiter leaves the slot and becomes this goroutine's peer. */
  lemma InvPair(s: System, c: ConnId, g: GrantId, peer: ConnId)
    requires Inv(s) && c in s.conns && s.conns[c].stage.Arrived? && s.conns[c].grant == g
    requires g in s.grants && WaitsHere(s.grants[g], peer) && s.grants[g].waiting.value.role != s.conns[c].role
    ensures Inv(SetStage(Taken(SetGrant(s, g, s.grants[g].(waiting := None)), peer, ByPairer(c)), c, Paired(peer)))
  {
    var s' := SetStage(Taken(SetGrant(s, g, s.grants[g].(waiting := None)), peer, ByPairer(c)), c, Paired(peer));
    assert peer != c && s'.conns[peer] == s.conns[peer].(takers := [ByPairer(c)]);
  }

  lemma InvPark(s: System, c: ConnId, g: GrantId)
    requires Inv(s) && c in s.conns && s.conns[c].stage.Arrived? && s.conns[c].grant == g
    requires g in s.grants && !s.grants[g].revoked
    ensures Inv(SetStage(SetGrant(s, g, s.grants[g].(waiting := Some(Parked(c, s.conns[c].role)))), c, Parking))
  {
  }

  lemma InvEnter(s: System, c: ConnId)
    requires Inv(s) && Known(s, c) && s.conns[c].stage.Arrived?
    ensures Inv(NextEnter(s, c))
  {
    var conn := s.conns[c];
    match EnterSection(s.grants[conn.grant], c, conn.role).1
    case RejectRevoked => InvSetStage(s, c, Finished);
    case PairWith(peer, _) => InvPair(s, c, conn.grant, peer);
    case ParkSelf => InvPark(s, c, conn.grant);
  }

  lemma InvExpire(s: System, c: ConnId)
    requires Inv(s) && Known(s, c) && s.conns[c].stage.TimerFired?
    ensures Inv(NextExpire(s, c))
  {
    var g := s.grants[s.conns[c].grant];
    if WaitsHere(g, c) {
      assert NextExpire(s, c).conns[c] == s.conns[c].(takers := [ByWaiter], stage := Finished);
    }
  }

  lemma InvWake(s: System, c: ConnId, stage: Stage)
    requires Inv(s) && c in s.conns && s.conns[c].stage.Parking?
    requires stage.TimerFired? || (stage.Finished? && s.conns[c].signals > 0)
    ensures Inv(SetStage(s, c, stage))
  {
  }

  lemma InvRevoke(s: System, g: GrantId)
    requires Inv(s)
    ensures Inv(NextRevoke(s, g))
  {
    var before := if g in s.grants then s.grants[g] else NEW_GRANT;
    if before.waiting.Some? {
      var w := before.waiting.value.conn;
      assert NextRevoke(s, g).conns[w] == s.conns[w].(takers := [ByRevoker]);
    }
  }

  /** The one signal a taken connection gets, once its taker has stopped owing it. */
  lemma InvSignalled(s: System, p: ConnId)
    requires Inv(s) && p in s.conns && s.conns[p].signals == 0 && |s.conns[p].takers| == 1 && p !in s.signalling
    requires forall d :: d in s.conns && OwesSignal(s.conns[d].stage) ==> s.conns[d].stage.peer != p
    ensures Inv(Signalled(s, p))
  {
  }

  lemma InvSignal(s: System, c: ConnId, stage: Stage)
    requires Inv(s) && Known(s, c) && OwesSignal(s.conns[c].stage)
    requires !OwesSignal(stage) && !stage.Arrived?
    ensures s.conns[c].stage.peer in s.conns && s.conns[s.conns[c].stage.peer].signals == 0
    ensures Inv(NextSignal(s, c, s.conns[c].stage.peer, stage))
  {
    var p := s.conns[c].stage.peer;
    assert p != c;
    InvSetStage(s, c, stage);
    InvSignalled(SetStage(s, c, stage), p);
  }

  lemma InvRevokeSignal(s: System, c: ConnId)
    requires Inv(s) && c in s.signalling
    ensures Known(s, c) && s.conns[c].signals == 0
    ensures Inv(Signalled(s, c).(signalling := s.signalling - {c}))
  {
  }

  lemma InvNext(s: System, step: Step, config: Config)
    requires Inv(s)
    ensures Inv(Next(s, step, config))
  {
    if step.Arrive? {
      if step.c !in s.conns { InvArrive(s, step.c, step.grant, step.role); }
    } else if step.Revoke? {
      InvRevoke(s, step.grant);
    } else if step.RevokeSignal? {
      if step.c in s.signalling { InvRevokeSignal(s, step.c); }
    } else if Known(s, step.c) {
      InvStep(s, step, config);
    }
  }

  lemma InvStep(s: System, step: Step, config: Config)
    requires Inv(s) && !step.Arrive? && !step.Revoke? && !step.RevokeSignal? && Known(s, step.c)
    ensures Inv(Next(s, step, config))
  {
    if step.Enter? || step.Wake? || step.Timer? || step.Expire? || step.Signal? {
      InvPairing(s, step);
    } else {
      InvSession(s, step, config);
    }
  }

  lemma InvPairing(s: System, step: Step)
    requires Inv(s) && !step.Arrive? && !step.Revoke? && !step.RevokeSignal? && Known(s, step.c)
    ensures Inv(NextPairing(s, step))
  {
    var c, conn := step.c, s.conns[step.c];
    match (step, conn.stage)
    case (Enter(_), Arrived) => InvEnter(s, c);
    case (Wake(_), Parking) => if conn.signals > 0 { InvWake(s, c, Finished); }
    case (Timer(_), Parking) => InvWake(s, c, TimerFired);
    case (Expire(_), TimerFired) => InvExpire(s, c);
    case (Signal(_), Failing(peer)) => InvSignal(s, c, Finished);
    case (Signal(_), Greeted(peer)) => InvSignal(s, c, Entering(peer));
    case _ =>
  }

  /** A pairer updates its grant's counters and moves on to a stage that owes nothing. */
  lemma InvWork(s: System, c: ConnId, grant: Grant, stage: Stage)
    requires Inv(s) && Known(s, c) && !OwesSignal(stage) && !stage.Arrived?
    requires !s.conns[c].stage.Parking? && !s.conns[c].stage.TimerFired?
    requires grant.waiting == s.grants[s.conns[c].grant].waiting && grant.revoked == s.grants[s.conns[c].grant].revoked
    ensures Inv(SetStage(SetGrant(s, s.conns[c].grant, grant), c, stage))
  {
    InvSetGrant(s, s.conns[c].grant, grant);
    InvSetStage(SetGrant(s, s.conns[c].grant, grant), c, stage);
  }

  lemma InvBegin(s: System, c: ConnId, peer: ConnId, expired: bool, max: nat)
    requires Inv(s) && Known(s, c) && s.conns[c].stage.Entering?
    ensures Inv(NextBegin(s, c, peer, expired, max))
  {
    var conn := s.conns[c];
    var (g, remaining) := BeginSection(s.grants[conn.grant], PairOf(c, conn.role, peer), max);
    InvWork(s, c, g, if remaining.None? then Leaving(peer)
                     else if remaining.value == 0 || expired then Draining(peer) else Copying(peer, remaining.value));
  }

  /** Only the count of sessions differs. */
  lemma InvActive(s: System, active: nat)
    requires Inv(s)
    ensures Inv(s.(active := active))
  {
  }

  lemma InvSession(s: System, step: Step, config: Config)
    requires Inv(s) && !step.Arrive? && !step.Revoke? && !step.RevokeSignal? && Known(s, step.c)
    ensures Inv(NextSession(s, step, config))
  {
    var c, conn := step.c, s.conns[step.c];
    var g := s.grants[conn.grant];
    match (step, conn.stage)
    case (Begin(_, expired), Entering(peer)) => InvBegin(s, c, peer, expired, config.MaxBytes());
    case (Record(_, n), Copying(peer, remaining)) => InvWork(s, c, RecordSection(g, n), Draining(peer));
    case (Clear(_), Draining(peer)) => InvWork(s, c, ClearSection(g), Leaving(peer));
    case (Admit(_), Paired(peer)) =>
      if s.active < config.MaxConcurrent() {
        InvSetStage(s, c, Admitted(peer));
        InvActive(SetStage(s, c, Admitted(peer)), s.active + 1);
      } else {
        InvSetStage(s, c, Failing(peer));
      }
    case (Ack(_, ok), Admitted(peer)) =>
      if ok {
        InvSetStage(s, c, Greeted(peer));
      } else {
        InvSetStage(s, c, Failing(peer));
        InvActive(SetStage(s, c, Failing(peer)), Released(s.active));
      }
    case (Release(_), Leaving(_)) =>
      InvSetStage(s, c, Finished);
      InvActive(SetStage(s, c, Finished), Released(s.active));
    case _ =>
  }

  lemma {:induction false} InvRun(s: System, steps: seq<Step>, config: Config)
    requires Inv(s)
    ensures Inv(Run(s, steps, config))
    decreases |steps|
  {
    if steps != [] {
      InvNext(s, steps[0], config);
      InvRun(Next(s, steps[0], config), steps[1..], config);
    }
  }

  /**
   In every interleaving a parked connection is taken by at most one of its waiter, a pairer and a
   revocation, and its channel gets at most one signal, from whoever took it. A pairer about to signal
   finds the channel empty, so its send never blocks.
   */
  lemma HandOffIsExclusive(steps: seq<Step>, config: Config, c: ConnId)
    requires c in Run(EMPTY, steps, config).conns
    ensures var s := Run(EMPTY, steps, config);
            && s.conns[c].signals <= |s.conns[c].takers| <= 1
            && (OwesSignal(s.conns[c].stage) ==>
                  var p := s.conns[c].stage.peer;
                  p in s.conns && s.conns[p].takers == [ByPairer(c)] && s.conns[p].signals == 0
                  && s.conns[p].grant == s.conns[c].grant && s.conns[p].role != s.conns[c].role)
            && (c in s.signalling ==> s.conns[c].takers == [ByRevoker] && s.conns[c].signals == 0)
  {
    InvRun(EMPTY, steps, config);
  }

  // ---- Revocation ----

  /** The connections of a grant that have just been paired, and those whose pipe is copying. */
  function Pairings(s: System, g: GrantId): set<ConnId> {
    set c | c in s.conns && s.conns[c].grant == g && s.conns[c].stage.Paired?
  }

  function Copies(s: System, g: GrantId): set<ConnId> {
    set c | c in s.conns && s.conns[c].grant == g && s.conns[c].stage.Copying?
  }

  ghost predicate StaysStopped(s: System, s': System, g: GrantId) {
    && g in s'.grants && s'.grants[g].revoked
    && Pairings(s', g) <= Pairings(s, g)
    && Copies(s', g) <= Copies(s, g)
  }

  lemma RevokedPairing(s: System, step: Step, g: GrantId)
    requires g in s.grants && s.grants[g].revoked
    requires !step.Arrive? && !step.Revoke? && !step.RevokeSignal? && Known(s, step.c)
    ensures StaysStopped(s, NextPairing(s, step), g)
  {
    PairingMovesOne(s, step);
  }

  lemma RevokedSession(s: System, step: Step, config: Config, g: GrantId)
    requires g in s.grants && s.grants[g].revoked
    requires !step.Arrive? && !step.Revoke? && !step.RevokeSignal? && Known(s, step.c)
    ensures StaysStopped(s, NextSession(s, step, config), g)
  {
    SessionMovesOne(s, step, config);
  }

  lemma RevokedStep(s: System, step: Step, config: Config, g: GrantId)
    requires g in s.grants && s.grants[g].revoked
    ensures StaysStopped(s, Next(s, step, config), g)
  {
    if step.Arrive? || step.Revoke? || step.RevokeSignal? || !Known(s, step.c) {
      OtherStepsMoveNone(s, step, config, 0);
    } else if step.Enter? || step.Wake? || step.Timer? || step.Expire? || step.Signal? {
      RevokedPairing(s, step, g);
    } else {
      RevokedSession(s, step, config, g);
    }
  }

  /**
   Once a revocation's critical section has run, whatever happens afterwards, the grant stays revoked,
   no pairing is made for it and no pipe starts copying for it: each later set of pairings and of
   copying pipes is contained in the one the revocation found.
   */
  lemma {:induction false} RevocationStopsTheGrant(s: System, steps: seq<Step>, config: Config, g: GrantId)
    requires g in s.grants && s.grants[g].revoked
    ensures StaysStopped(s, Run(s, steps, config), g)
    decreases |steps|
  {
    if steps != [] {
      RevokedStep(s, steps[0], config, g);
      RevocationStopsTheGrant(Next(s, steps[0], config), steps[1..], config, g);
    }
  }

  /** The revocation itself: from any state, known grant or not, and whatever happens after it. */
  lemma ARevocationTakesHold(s: System, g: GrantId, steps: seq<Step>, config: Config)
    ensures var t := Run(Next(s, Revoke(g), config), steps, config);
            && g in t.grants && t.grants[g].revoked
            && Pairings(t, g) <= Pairings(s, g) && Copies(t, g) <= Copies(s, g)
  {
    var s1 := Next(s, Revoke(g), config);
    assert g in s1.grants && s1.grants[g].revoked;
    OtherStepsMoveNone(s, Revoke(g), config, 0);
    assert Pairings(s1, g) == Pairings(s, g) && Copies(s1, g) == Copies(s, g);
    RevocationStopsTheGrant(s1, steps, config, g);
  }

  /** It takes the waiter, which is to be signalled, and turns away whoever connects for the grant later. */
  lemma ARevocationTakesTheWaiter(s: System, g: GrantId, config: Config)
    requires Inv(s)
    ensures var s1 := Next(s, Revoke(g), config);
            && g in s1.grants && s1.grants[g].waiting.None?
            && (g in s.grants && s.grants[g].waiting.Some? ==>
                  s.grants[g].waiting.value.conn in s1.signalling
                  && s1.conns[s.grants[g].waiting.value.conn].takers == [ByRevoker])
  {
  }

  lemma ARevokedGrantTurnsAway(s: System, c: ConnId, config: Config)
    requires Known(s, c) && s.conns[c].stage.Arrived? && s.grants[s.conns[c].grant].revoked
    ensures var s1 := Next(s, Enter(c), config);
            s1.conns == s.conns[c := s.conns[c].(stage := Finished)] && s1.grants == s.grants && s1.active == s.active
  {
  }

  // ---- Connections nobody answers ----

  /** A parked connection that has lost its grant's waiting slot to a later one of the same role. */
  ghost predicate Displaced(s: System, c: ConnId) {
    && Known(s, c)
    && (s.conns[c].stage.Parking? || s.conns[c].stage.TimerFired? || s.conns[c].stage.Finished?)
    && s.conns[c].takers == [] && s.conns[c].signals == 0
    && !WaitsHere(s.grants[s.conns[c].grant], c)
  }

  /**
   When a waiting connection is displaced: at a step, exactly if a second connection of the same grant and
   role then runs its pairing section. Nothing else does it.
   */
  lemma OnlyASecondOfARoleDisplaces(s: System, step: Step, config: Config, w: ConnId)
    requires Inv(s) && Known(s, w) && WaitsHere(s.grants[s.conns[w].grant], w)
    ensures Displaced(Next(s, step, config), w)
       <==> && step.Enter? && Known(s, step.c) && s.conns[step.c].stage.Arrived?
            && s.conns[step.c].grant == s.conns[w].grant && s.conns[step.c].role == s.conns[w].role
  {
    if step.Arrive? || step.Revoke? || step.RevokeSignal? || !Known(s, step.c) {
      WaiterOutlastsOthers(s, step, config, w);
    } else if step.Enter? && s.conns[step.c].stage.Arrived? {
      WaiterMeetsNewcomer(s, step.c, w);
    } else if step.Enter? || step.Wake? || step.Timer? || step.Expire? || step.Signal? {
      WaiterOutlastsPairing(s, step, w);
    } else {
      WaiterOutlastsSession(s, step, config, w);
    }
  }

  lemma WaiterMeetsNewcomer(s: System, c: ConnId, w: ConnId)
    requires Inv(s) && Known(s, w) && WaitsHere(s.grants[s.conns[w].grant], w)
    requires Known(s, c) && s.conns[c].stage.Arrived?
    ensures Displaced(NextEnter(s, c), w) <==> s.conns[c].grant == s.conns[w].grant && s.conns[c].role == s.conns[w].role
  {
  }

  lemma WaiterOutlastsPairing(s: System, step: Step, w: ConnId)
    requires Inv(s) && Known(s, w) && WaitsHere(s.grants[s.conns[w].grant], w)
    requires !step.Arrive? && !step.Revoke? && !step.RevokeSignal? && Known(s, step.c)
    requires !(step.Enter? && s.conns[step.c].stage.Arrived?)
    ensures !Displaced(NextPairing(s, step), w)
  {
  }

  lemma WaiterOutlastsSession(s: System, step: Step, config: Config, w: ConnId)
    requires Inv(s) && Known(s, w) && WaitsHere(s.grants[s.conns[w].grant], w)
    requires !step.Arrive? && !step.Revoke? && !step.RevokeSignal? && Known(s, step.c)
    ensures !Displaced(NextSession(s, step, config), w)
  {
  }

  lemma WaiterOutlastsOthers(s: System, step: Step, config: Config, w: ConnId)
    requires Inv(s) && Known(s, w) && WaitsHere(s.grants[s.conns[w].grant], w)
    requires step.Arrive? || step.Revoke? || step.RevokeSignal? || !Known(s, step.c)
    ensures !Displaced(Next(s, step, config), w)
  {
  }

  lemma DisplacedPairing(s: System, step: Step, c: ConnId)
    requires Inv(s) && Displaced(s, c)
    requires !step.Arrive? && !step.Revoke? && !step.RevokeSignal? && Known(s, step.c)
    ensures Displaced(NextPairing(s, step), c)
  {
    if step.Signal? && OwesSignal(s.conns[step.c].stage) {
      assert s.conns[step.c].stage.peer != c;
    }
  }

  lemma DisplacedSession(s: System, step: Step, config: Config, c: ConnId)
    requires Inv(s) && Displaced(s, c)
    requires !step.Arrive? && !step.Revoke? && !step.RevokeSignal? && Known(s, step.c)
    ensures Displaced(NextSession(s, step, config), c)
  {
  }

  lemma DisplacedOther(s: System, step: Step, config: Config, c: ConnId)
    requires Inv(s) && Displaced(s, c)
    requires step.Arrive? || step.Revoke? || step.RevokeSignal? || !Known(s, step.c)
    ensures Displaced(Next(s, step, config), c)
  {
  }

  lemma DisplacedStep(s: System, step: Step, config: Config, c: ConnId)
    requires Inv(s) && Displaced(s, c)
    ensures Displaced(Next(s, step, config), c)
  {
    if step.Arrive? || step.Revoke? || step.RevokeSignal? || !Known(s, step.c) {
      DisplacedOther(s, step, config, c);
    } else if step.Enter? || step.Wake? || step.Timer? || step.Expire? || step.Signal? {
      DisplacedPairing(s, step, c);
    } else {
      DisplacedSession(s, step, config, c);
    }
  }

  /** Nobody ever takes, signals, answers or closes a displaced connection. */
  lemma {:induction false} DisplacedIsForgotten(s: System, steps: seq<Step>, config: Config, c: ConnId)
    requires Inv(s) && Displaced(s, c)
    ensures Displaced(Run(s, steps, config), c)
    decreases |steps|
  {
    if steps != [] {
      InvNext(s, steps[0], config);
      DisplacedStep(s, steps[0], config, c);
      DisplacedIsForgotten(Next(s, steps[0], config), steps[1..], config, c);
    }
  }

  // ---- The session count ----

  predicate InSession(stage: Stage) {
    stage.Admitted? || stage.Greeted? || stage.Entering? || stage.Copying? || stage.Draining? || stage.Leaving?
  }

  function Sessions(s: System): set<ConnId> {
    set c | c in s.conns && InSession(s.conns[c].stage)
  }

  ghost predicate CountInv(s: System, config: Config) {
    s.active == |Sessions(s)| && s.active <= config.MaxConcurrent()
  }

  /** No goroutine but c's own moves, and no connection changes grant. */
  ghost predicate OnlyMoves(s: System, s': System, c: ConnId) {
    && s.conns.Keys <= s'.conns.Keys
    && (forall d :: d in s.conns ==> s'.conns[d].grant == s.conns[d].grant && (d != c ==> s'.conns[d].stage == s.conns[d].stage))
    && (forall d :: d in s'.conns && d !in s.conns ==> d == c && s'.conns[d].stage.Arrived?)
  }

  lemma StepMovesOne(s: System, step: Step, config: Config)
    requires !step.Revoke? && !step.RevokeSignal? && !step.Arrive? && Known(s, step.c)
    ensures OnlyMoves(s, Next(s, step, config), step.c)
  {
    if step.Enter? || step.Wake? || step.Timer? || step.Expire? || step.Signal? {
      PairingMovesOne(s, step);
    } else {
      SessionMovesOne(s, step, config);
    }
  }

  lemma PairingMovesOne(s: System, step: Step)
    requires !step.Revoke? && !step.RevokeSignal? && !step.Arrive? && Known(s, step.c)
    ensures OnlyMoves(s, NextPairing(s, step), step.c)
  {
    match (step, s.conns[step.c].stage)
    case (Enter(c), Arrived) => EnterMovesOne(s, c);
    case (Expire(c), TimerFired) => ExpireMovesOne(s, c);
    case (Signal(c), Failing(peer)) => SignalMovesOne(s, c, peer, Finished);
    case (Signal(c), Greeted(peer)) => SignalMovesOne(s, c, peer, Entering(peer));
    case _ =>
  }

  lemma SessionMovesOne(s: System, step: Step, config: Config)
    requires !step.Revoke? && !step.RevokeSignal? && !step.Arrive? && Known(s, step.c)
    ensures OnlyMoves(s, NextSession(s, step, config), step.c)
  {
  }

  lemma SignalMovesOne(s: System, c: ConnId, peer: ConnId, stage: Stage)
    requires Known(s, c)
    ensures OnlyMoves(s, NextSignal(s, c, peer, stage), c)
  {
  }

  lemma EnterMovesOne(s: System, c: ConnId)
    requires Known(s, c)
    ensures OnlyMoves(s, NextEnter(s, c), c)
  {
  }

  lemma ExpireMovesOne(s: System, c: ConnId)
    requires Known(s, c)
    ensures OnlyMoves(s, NextExpire(s, c), c)
  {
  }

  lemma OtherStepsMoveNone(s: System, step: Step, config: Config, c: ConnId)
    requires step.Revoke? || step.RevokeSignal? || step.Arrive? || !Known(s, step.c)
    ensures OnlyMoves(s, Next(s, step, config), if step.Revoke? then c else step.c)
    ensures Next(s, step, config).active == s.active
    ensures forall d :: d in s.conns ==> Next(s, step, config).conns[d].stage == s.conns[d].stage
    ensures forall g :: BytesOf(Next(s, step, config), g) == BytesOf(s, g)
  {
  }

  /** How one goroutine's step changes its own stage, the session count and its grant's bytes. */
  lemma OwnStep(s: System, step: Step, config: Config)
    requires !step.Revoke? && !step.RevokeSignal? && !step.Arrive? && Known(s, step.c)
    ensures var s' := Next(s, step, config);
            var conn, stage, stage' := s.conns[step.c], s.conns[step.c].stage, s'.conns[step.c].stage;
            var enters := step.Admit? && stage.Paired? && s.active < config.MaxConcurrent();
            var leaves := (step.Ack? && !step.ok && stage.Admitted?) || (step.Release? && stage.Leaving?);
            && s'.active == (if enters then s.active + 1 else if leaves then Released(s.active) else s.active)
            && InSession(stage') == (if enters then true else if leaves then false else InSession(stage))
            && (leaves ==> InSession(stage)) && (enters ==> !InSession(stage))
  {
  }

  /** A pipe starts within the room left, and stops having moved no more than it was given. */
  ghost predicate BytesMove(s: System, s': System, c: ConnId, max: nat)
    requires c in s.conns && c in s'.conns
  {
    var conn, stage, stage' := s.conns[c], s.conns[c].stage, s'.conns[c].stage;
    && (stage'.Copying? && !stage.Copying? ==> stage'.remaining + BytesOf(s, conn.grant) <= max)
    && (stage'.Copying? && stage.Copying? ==> stage' == stage)
    && (stage.Copying? && !stage'.Copying? ==> BytesOf(s', conn.grant) <= BytesOf(s, conn.grant) + stage.remaining)
    && (!stage.Copying? || stage'.Copying? ==> BytesOf(s', conn.grant) == BytesOf(s, conn.grant))
    && (forall g :: g != conn.grant ==> BytesOf(s', g) == BytesOf(s, g))
  }

  lemma OwnBytes(s: System, step: Step, config: Config)
    requires !step.Revoke? && !step.RevokeSignal? && !step.Arrive? && Known(s, step.c)
    ensures step.c in Next(s, step, config).conns && BytesMove(s, Next(s, step, config), step.c, config.MaxBytes())
  {
  }

  lemma CountMove(s: System, s': System, c: ConnId, config: Config, enters: bool, leaves: bool)
    requires CountInv(s, config) && c in s.conns && OnlyMoves(s, s', c)
    requires s'.active == if enters then s.active + 1 else if leaves then Released(s.active) else s.active
    requires InSession(s'.conns[c].stage) == if enters then true else if leaves then false else InSession(s.conns[c].stage)
    requires (enters ==> !InSession(s.conns[c].stage) && s.active < config.MaxConcurrent()) && (leaves ==> InSession(s.conns[c].stage))
    ensures CountInv(s', config)
  {
    SessionsChange(s, s', c);
    if InSession(s.conns[c].stage) {
      SubsetSize({c}, Sessions(s));
    }
  }

  lemma CountNext(s: System, step: Step, config: Config)
    requires CountInv(s, config)
    ensures CountInv(Next(s, step, config), config)
  {
    if step.Revoke? || step.RevokeSignal? || step.Arrive? || !Known(s, step.c) {
      OtherStepsMoveNone(s, step, config, 0);
      assert Sessions(Next(s, step, config)) == Sessions(s);
    } else {
      StepMovesOne(s, step, config);
      OwnStep(s, step, config);
      var stage := s.conns[step.c].stage;
      CountMove(s, Next(s, step, config), step.c, config,
                step.Admit? && stage.Paired? && s.active < config.MaxConcurrent(),
                (step.Ack? && !step.ok && stage.Admitted?) || (step.Release? && stage.Leaving?));
    }
  }

  lemma SessionsChange(s: System, s': System, c: ConnId)
    requires OnlyMoves(s, s', c) && c in s.conns
    ensures Sessions(s') == if InSession(s'.conns[c].stage) then Sessions(s) + {c} else Sessions(s) - {c}
    ensures c in Sessions(s) <==> InSession(s.conns[c].stage)
  {
  }

  /** The counter is exactly the number of admitted sessions not yet released, and never over the cap. */
  lemma {:induction false} EachSessionIsReleasedOnce(s: System, steps: seq<Step>, config: Config)
    requires CountInv(s, config)
    ensures CountInv(Run(s, steps, config), config)
    decreases |steps|
  {
    if steps != [] {
      CountNext(s, steps[0], config);
      EachSessionIsReleasedOnce(Next(s, steps[0], config), steps[1..], config);
    }
  }

  // ---- The byte budget ----

  /** The copying pipes of a grant and what each may still move. */
  function Running(s: System, g: GrantId): map<ConnId, nat> {
    map c | c in s.conns && s.conns[c].grant == g && s.conns[c].stage.Copying? :: s.conns[c].stage.remaining
  }

  ghost function Sum(m: map<ConnId, nat>): nat
    decreases |m|
  {
    if m == map[] then 0
    else var c :| c in m; m[c] + Sum(m - {c})
  }

  lemma {:induction false} SumWithout(m: map<ConnId, nat>, c: ConnId)
    requires c in m
    ensures Sum(m) == m[c] + Sum(m - {c})
    decreases |m|
  {
    var d :| d in m && Sum(m) == m[d] + Sum(m - {d});
    if d != c {
      SumWithout(m - {d}, c);
      assert m - {d} - {c} == m - {c} - {d};
      SumWithout(m - {c}, d);
    }
  }

  lemma OneMore(n: nat, max: nat)
    ensures n * max + max == (n + 1) * max
  {
  }

  lemma AtMostTimes(n: nat, k: nat, max: nat)
    requires n <= k
    ensures n * max <= k * max
  {
  }

  lemma {:induction false} SumBound(m: map<ConnId, nat>, max: nat)
    requires forall c :: c in m ==> m[c] <= max
    ensures Sum(m) <= |m| * max
    decreases |m|
  {
    if m != map[] {
      var c :| c in m;
      var rest := m - {c};
      SumWithout(m, c);
      assert rest.Keys == m.Keys - {c};
      assert |rest| + 1 == |m|;
      SumBound(rest, max);
      OneMore(|rest|, max);
    }
  }

  function BytesOf(s: System, g: GrantId): nat {
    if g in s.grants then s.grants[g].bytesRelayed else 0
  }

  ghost predicate BudgetInv(s: System, g: GrantId, k: nat, max: nat) {
    && (forall c :: c in Running(s, g) ==> Running(s, g)[c] <= max)
    && BytesOf(s, g) + Sum(Running(s, g)) <= k * max
  }

  /** Starting a pipe within the room left keeps the bound: it is one more session's worth. */
  lemma BudgetStart(bytes: nat, r: map<ConnId, nat>, r': map<ConnId, nat>, c: ConnId, k: nat, max: nat)
    requires (forall d :: d in r ==> r[d] <= max) && |r'| <= k
    requires c !in r && c in r' && r' - {c} == r && r'[c] + bytes <= max
    ensures (forall d :: d in r' ==> r'[d] <= max) && bytes + Sum(r') <= k * max
  {
    SumWithout(r', c);
    SumBound(r, max);
    assert r'.Keys == r.Keys + {c};
    assert |r'| == |r| + 1;
    OneMore(|r|, max);
    AtMostTimes(|r'|, k, max);
    forall d | d in r' ensures r'[d] <= max {
      if d != c { assert d in r' - {c}; }
    }
  }

  /** Stopping a pipe moves part of its budget into the bytes and drops the rest. */
  lemma BudgetStop(bytes: nat, bytes': nat, r: map<ConnId, nat>, c: ConnId)
    requires c in r && bytes' <= bytes + r[c]
    ensures bytes' + Sum(r - {c}) <= bytes + Sum(r)
  {
    SumWithout(r, c);
  }

  lemma RunningChange(s: System, s': System, c: ConnId, g: GrantId)
    requires OnlyMoves(s, s', c) && c in s.conns
    ensures s.conns[c].grant != g ==> Running(s', g) == Running(s, g)
    ensures s.conns[c].grant == g && s'.conns[c].stage == s.conns[c].stage ==> Running(s', g) == Running(s, g)
    ensures s.conns[c].grant == g && !s.conns[c].stage.Copying? && !s'.conns[c].stage.Copying? ==> Running(s', g) == Running(s, g)
    ensures s.conns[c].grant == g && !s.conns[c].stage.Copying? && s'.conns[c].stage.Copying? ==>
              c !in Running(s, g) && c in Running(s', g) && Running(s', g) - {c} == Running(s, g)
              && Running(s', g)[c] == s'.conns[c].stage.remaining
    ensures s.conns[c].grant == g && s.conns[c].stage.Copying? && !s'.conns[c].stage.Copying? ==>
              c in Running(s, g) && Running(s', g) == Running(s, g) - {c} && Running(s, g)[c] == s.conns[c].stage.remaining
  {
  }

  lemma BudgetMove(s: System, s': System, c: ConnId, g: GrantId, k: nat, max: nat)
    requires BudgetInv(s, g, k, max) && |Running(s', g)| <= k
    requires c in s.conns && OnlyMoves(s, s', c) && BytesMove(s, s', c, max)
    ensures BudgetInv(s', g, k, max)
  {
    RunningChange(s, s', c, g);
    if c !in Running(s, g) && c in Running(s', g) {
      BudgetStart(BytesOf(s, g), Running(s, g), Running(s', g), c, k, max);
    } else if c in Running(s, g) && c !in Running(s', g) {
      BudgetStop(BytesOf(s, g), BytesOf(s', g), Running(s, g), c);
    }
  }

  lemma RunningQuiet(s: System, step: Step, config: Config, g: GrantId)
    requires step.Revoke? || step.RevokeSignal? || step.Arrive? || !Known(s, step.c)
    ensures Running(Next(s, step, config), g) == Running(s, g) && BytesOf(Next(s, step, config), g) == BytesOf(s, g)
  {
    OtherStepsMoveNone(s, step, config, 0);
  }

  lemma BudgetNext(s: System, step: Step, config: Config, g: GrantId, k: nat)
    requires BudgetInv(s, g, k, config.MaxBytes())
    requires |Running(Next(s, step, config), g)| <= k
    ensures BudgetInv(Next(s, step, config), g, k, config.MaxBytes())
  {
    if step.Revoke? || step.RevokeSignal? || step.Arrive? || !Known(s, step.c) {
      RunningQuiet(s, step, config, g);
    } else {
      StepMovesOne(s, step, config);
      OwnBytes(s, step, config);
      BudgetMove(s, Next(s, step, config), step.c, g, k, config.MaxBytes());
    }
  }

  /** At most k pipes of the grant copy at once, at every point of the run. */
  ghost predicate OverlapAtMost(s: System, steps: seq<Step>, config: Config, g: GrantId, k: nat)
    decreases |steps|
  {
    |Running(s, g)| <= k && (steps == [] || OverlapAtMost(Next(s, steps[0], config), steps[1..], config, g, k))
  }

  lemma {:induction false} BudgetRun(s: System, steps: seq<Step>, config: Config, g: GrantId, k: nat)
    requires BudgetInv(s, g, k, config.MaxBytes()) && OverlapAtMost(s, steps, config, g, k)
    ensures BudgetInv(Run(s, steps, config), g, k, config.MaxBytes())
    decreases |steps|
  {
    if steps != [] {
      BudgetNext(s, steps[0], config, g, k);
      BudgetRun(Next(s, steps[0], config), steps[1..], config, g, k);
    }
  }

  /**
   The byte cap, with the overlap it depends on. If at most k sessions of a grant ever copy at once,
   then at every point the bytes recorded for it and the budgets still open come to at most k times
   the cap; with k equal to one the cap holds as configured, over any number of reconnects.
   */
  lemma BytesAreBounded(steps: seq<Step>, config: Config, g: GrantId, k: nat)
    requires OverlapAtMost(EMPTY, steps, config, g, k)
    ensures var s := Run(EMPTY, steps, config); BytesOf(s, g) + Sum(Running(s, g)) <= k * config.MaxBytes()
  {
    assert Running(EMPTY, g) == map[];
    BudgetRun(EMPTY, steps, config, g, k);
  }

  lemma {:induction false} OverlapIsAdmitted(s: System, steps: seq<Step>, config: Config, g: GrantId)
    requires CountInv(s, config)
    ensures OverlapAtMost(s, steps, config, g, config.MaxConcurrent())
    decreases |steps|
  {
    SubsetSize(Running(s, g).Keys, Sessions(s));
    if steps != [] {
      CountNext(s, steps[0], config);
      OverlapIsAdmitted(Next(s, steps[0], config), steps[1..], config, g);
    }
  }

  lemma {:induction false} SubsetSize(a: set<ConnId>, b: set<ConnId>)
    requires a <= b
    ensures |a| <= |b|
    decreases |a|
  {
    if a != {} {
      var c :| c in a;
      SubsetSize(a - {c}, b - {c});
    }
  }

  /** Whatever overlaps, the server's own session cap bounds the bytes of every grant in every run. */
  lemma BytesAreBoundedByAdmission(steps: seq<Step>, config: Config, g: GrantId)
    ensures var s := Run(EMPTY, steps, config);
            BytesOf(s, g) + Sum(Running(s, g)) <= config.MaxConcurrent() * config.MaxBytes()
  {
    assert Sessions(EMPTY) == {};
    OverlapIsAdmitted(EMPTY, steps, config, g);
    BytesAreBounded(steps, config, g, config.MaxConcurrent());
  }

  // ---- One session, as the calls make it ----

  function PipeSteps(c: ConnId, expired: bool, n: nat): seq<Step> {
    [Begin(c, expired), Record(c, n), Clear(c), Release(c)]
  }

  lemma {:induction false} RunSplit(s: System, xs: seq<Step>, ys: seq<Step>, config: Config)
    ensures Run(s, xs + ys, config) == Run(Run(s, xs, config), ys, config)
    decreases |xs|
  {
    if xs == [] {
      assert xs + ys == ys;
    } else {
      assert (xs + ys)[1..] == xs[1..] + ys;
      RunSplit(Next(s, xs[0], config), xs[1..], ys, config);
    }
  }

  lemma RunTwo(s: System, a: Step, b: Step, config: Config)
    ensures Run(s, [a, b], config) == Next(Next(s, a, config), b, config)
  {
    assert [a, b][1..] == [b];
    assert Run(Next(Next(s, a, config), b, config), [], config) == Next(Next(s, a, config), b, config);
    assert [b][1..] == [];
  }

  /** From the copy's end, or from where it was never begun, to the end of the pipe. */
  lemma PipeEnds(s: System, c: ConnId, config: Config)
    requires Known(s, c) && (s.conns[c].stage.Draining? || s.conns[c].stage.Leaving?)
    ensures var t := Run(s, [Clear(c), Release(c)], config);
            var g := s.conns[c].grant;
            && t.grants == s.grants[g := if s.conns[c].stage.Draining? then ClearSection(s.grants[g]) else s.grants[g]]
            && t.active == Released(s.active)
            && t.conns == s.conns[c := s.conns[c].(stage := Finished)]
  {
    RunTwo(s, Clear(c), Release(c), config);
  }

  lemma PipeBegins(s: System, c: ConnId, expired: bool, n: nat, config: Config)
    requires Known(s, c) && s.conns[c].stage.Entering?
    requires n <= if s.grants[s.conns[c].grant].revoked || expired then 0 else Budget(s.grants[s.conns[c].grant], config.MaxBytes())
    ensures var t := Run(s, [Begin(c, expired), Record(c, n)], config);
            var g := s.conns[c].grant;
            && Known(t, c) && t.conns[c].grant == g && (s.grants[g].revoked <==> t.conns[c].stage.Leaving?)
            && (!s.grants[g].revoked ==> t.conns[c].stage.Draining?)
            && t.grants == s.grants[g := t.grants[g]] && t.active == s.active
            && (if s.grants[g].revoked then t.grants[g] == s.grants[g]
                else ClearSection(t.grants[g]) == Piped(s.grants[g], n))
            && t.conns == s.conns[c := s.conns[c].(stage := t.conns[c].stage)]
  {
    RunTwo(s, Begin(c, expired), Record(c, n), config);
  }

  /** A pipe left to itself is its critical sections one after the other. */
  lemma PipeIsARun(s: System, c: ConnId, expired: bool, n: nat, config: Config)
    requires Known(s, c) && s.conns[c].stage.Entering?
    requires n <= if s.grants[s.conns[c].grant].revoked || expired then 0 else Budget(s.grants[s.conns[c].grant], config.MaxBytes())
    ensures var t := Run(s, PipeSteps(c, expired, n), config);
            var g := s.conns[c].grant;
            && t.grants == s.grants[g := Piped(s.grants[g], n)] && t.active == Released(s.active)
            && t.conns == s.conns[c := s.conns[c].(stage := Finished)]
  {
    assert PipeSteps(c, expired, n) == [Begin(c, expired), Record(c, n)] + [Clear(c), Release(c)];
    RunSplit(s, [Begin(c, expired), Record(c, n)], [Clear(c), Release(c)], config);
    PipeBegins(s, c, expired, n, config);
    PipeEnds(Run(s, [Begin(c, expired), Record(c, n)], config), c, config);
  }

  function GreetingSteps(c: ConnId, acked: bool): seq<Step> { [Admit(c), Ack(c, acked)] + [Signal(c)] }

  /** The session is admitted and both sides are told so. */
  predicate Greets(s: System, acked: bool, config: Config) { s.active < config.MaxConcurrent() && acked }

  lemma GreetingIsARun(s: System, c: ConnId, acked: bool, config: Config)
    requires Inv(s) && Known(s, c) && s.conns[c].stage.Paired?
    ensures var t := Run(s, GreetingSteps(c, acked), config);
            var peer := s.conns[c].stage.peer;
            && t.grants == s.grants && t.active == (if Greets(s, acked, config) then s.active + 1 else s.active)
            && Known(t, c) && t.conns[c].grant == s.conns[c].grant
            && t.conns[c].stage == (if Greets(s, acked, config) then Entering(peer) else Finished)
            && peer != c && peer in t.conns && t.conns[peer].signals == 1
  {
    RunSplit(s, [Admit(c), Ack(c, acked)], [Signal(c)], config);
    Acknowledged(s, c, acked, config);
    var u := Run(s, [Admit(c), Ack(c, acked)], config);
    assert Run(u, [Signal(c)], config) == Run(Next(u, Signal(c), config), [], config);
    assert s.conns[s.conns[c].stage.peer].signals == 0;
    SignalsPeer(u, c, config);
  }

  lemma Acknowledged(s: System, c: ConnId, acked: bool, config: Config)
    requires Known(s, c) && s.conns[c].stage.Paired?
    ensures var u := Run(s, [Admit(c), Ack(c, acked)], config);
            var peer := s.conns[c].stage.peer;
            u == SetStage(s, c, if Greets(s, acked, config) then Greeted(peer) else Failing(peer))
                 .(active := if Greets(s, acked, config) then s.active + 1 else s.active)
  {
    RunTwo(s, Admit(c), Ack(c, acked), config);
    var peer := s.conns[c].stage.peer;
    var t := Next(s, Admit(c), config);
    if s.active < config.MaxConcurrent() {
      assert t == SetStage(s, c, Admitted(peer)).(active := s.active + 1);
      var stage := if acked then Greeted(peer) else Failing(peer);
      assert t.conns[c := t.conns[c].(stage := stage)] == s.conns[c := s.conns[c].(stage := stage)];
    } else {
      assert t == SetStage(s, c, Failing(peer));
    }
  }

  lemma SignalsPeer(u: System, c: ConnId, config: Config)
    requires Known(u, c) && (u.conns[c].stage.Greeted? || u.conns[c].stage.Failing?)
    requires u.conns[c].stage.peer in u.conns && u.conns[c].stage.peer != c
    ensures var t := Next(u, Signal(c), config);
            var peer := u.conns[c].stage.peer;
            && t.grants == u.grants && t.active == u.active && Known(t, c) && t.conns[c].grant == u.conns[c].grant
            && t.conns[c].stage == (if u.conns[c].stage.Greeted? then Entering(peer) else Finished)
            && peer in t.conns && t.conns[peer].signals == u.conns[peer].signals + 1
  {
  }

  lemma FinishedStays(s: System, c: ConnId, expired: bool, n: nat, config: Config)
    requires Known(s, c) && s.conns[c].stage.Finished?
    ensures Run(s, PipeSteps(c, expired, n), config) == s
  {
    assert PipeSteps(c, expired, n) == [Begin(c, expired), Record(c, n)] + [Clear(c), Release(c)];
    RunSplit(s, [Begin(c, expired), Record(c, n)], [Clear(c), Release(c)], config);
    RunTwo(s, Begin(c, expired), Record(c, n), config);
    RunTwo(s, Clear(c), Release(c), config);
  }

  /**
   A pairer left to itself, from the pairing to the end: its peer is signalled once, its slot is given back,
   and the record changes as `Server.PairAndRelay` changes it.
   */
  lemma SessionIsARun(s: System, c: ConnId, acked: bool, expired: bool, n: nat, config: Config)
    requires Inv(s) && Known(s, c) && s.conns[c].stage.Paired?
    requires n <= if s.grants[s.conns[c].grant].revoked || expired then 0 else Budget(s.grants[s.conns[c].grant], config.MaxBytes())
    ensures var t := Run(s, GreetingSteps(c, acked) + PipeSteps(c, expired, n), config);
            var g, peer := s.conns[c].grant, s.conns[c].stage.peer;
            && t.grants == (if Greets(s, acked, config) then s.grants[g := Piped(s.grants[g], n)] else s.grants)
            && t.active == s.active && c in t.conns && t.conns[c].stage.Finished?
            && peer in t.conns && t.conns[peer].signals == 1
  {
    RunSplit(s, GreetingSteps(c, acked), PipeSteps(c, expired, n), config);
    GreetingIsARun(s, c, acked, config);
    if Greets(s, acked, config) {
      PipeIsARun(Run(s, GreetingSteps(c, acked), config), c, expired, n, config);
    } else {
      FinishedStays(Run(s, GreetingSteps(c, acked), config), c, expired, n, config);
    }
  }

  // ---- Which way the bytes go ----

  predicate HasPeer(stage: Stage) {
    OwesSignal(stage) || stage.Entering? || stage.Copying? || stage.Draining? || stage.Leaving?
  }

  /** A source and a sink of one grant. */
  predicate Facing(s: System, g: GrantId, pair: Pair) {
    && pair.source in s.conns && s.conns[pair.source].grant == g && s.conns[pair.source].role == Source
    && pair.sink in s.conns && s.conns[pair.sink].grant == g && s.conns[pair.sink].role == Sink
  }

  predicate PairerFaces(s: System, c: ConnId)
    requires c in s.conns
  {
    var conn := s.conns[c];
    HasPeer(conn.stage) ==> Facing(s, conn.grant, PairOf(c, conn.role, conn.stage.peer))
  }

  predicate GrantFaces(s: System, g: GrantId)
    requires g in s.grants
  {
    s.grants[g].active.Some? ==> Facing(s, g, s.grants[g].active.value)
  }

  ghost predicate FacingInv(s: System) {
    (forall c :: c in s.conns ==> PairerFaces(s, c)) && (forall g :: g in s.grants ==> GrantFaces(s, g))
  }

  /** No connection changes sides. */
  ghost predicate SidesStay(s: System, s': System) {
    forall c :: c in s.conns ==> c in s'.conns && s'.conns[c].grant == s.conns[c].grant && s'.conns[c].role == s.conns[c].role
  }

  lemma FacingStays(s: System, s': System, g: GrantId, pair: Pair)
    requires SidesStay(s, s') && Facing(s, g, pair)
    ensures Facing(s', g, pair)
  {
  }

  /** Sides stay, and so do the pairs that relay. */
  ghost predicate SidesAndPairsStay(s: System, s': System) {
    SidesStay(s, s') && forall g :: g in s'.grants ==> g in s.grants && s'.grants[g].active == s.grants[g].active
  }

  lemma PairingSides(s: System, step: Step)
    requires !step.Arrive? && !step.Revoke? && !step.RevokeSignal? && Known(s, step.c)
    ensures SidesAndPairsStay(s, NextPairing(s, step))
  {
    match (step, s.conns[step.c].stage)
    case (Enter(c), Arrived) => EnterSides(s, c);
    case (Expire(c), TimerFired) => ExpireSides(s, c);
    case (Signal(c), Failing(peer)) => SignalSides(s, c, peer, Finished);
    case (Signal(c), Greeted(peer)) => SignalSides(s, c, peer, Entering(peer));
    case _ =>
  }

  lemma EnterSides(s: System, c: ConnId)
    requires Known(s, c)
    ensures SidesAndPairsStay(s, NextEnter(s, c))
  {
  }

  lemma ExpireSides(s: System, c: ConnId)
    requires Known(s, c)
    ensures SidesAndPairsStay(s, NextExpire(s, c))
  {
  }

  lemma SignalSides(s: System, c: ConnId, peer: ConnId, stage: Stage)
    requires Known(s, c)
    ensures SidesAndPairsStay(s, NextSignal(s, c, peer, stage))
  {
  }

  lemma SessionSides(s: System, step: Step, config: Config)
    requires !step.Arrive? && !step.Revoke? && !step.RevokeSignal? && Known(s, step.c)
    ensures SidesStay(s, NextSession(s, step, config))
  {
  }

  lemma PairingFaces(s: System, step: Step)
    requires Inv(s) && FacingInv(s) && !step.Arrive? && !step.Revoke? && !step.RevokeSignal? && Known(s, step.c)
    ensures PairerFaces(NextPairing(s, step), step.c)
  {
    assert PairerFaces(s, step.c);
    match (step, s.conns[step.c].stage)
    case (Enter(c), Arrived) =>
      var g := s.grants[s.conns[c].grant];
      if !g.revoked && g.waiting.Some? && g.waiting.value.role != s.conns[c].role {
        assert NextEnter(s, c).conns[c].stage == Paired(g.waiting.value.conn);
      }
    case _ =>
  }

  /** A pairer keeps its peer, and its grant's pair becomes theirs, stays or goes. */
  lemma SessionKeepsItsPeer(s: System, step: Step, config: Config)
    requires !step.Arrive? && !step.Revoke? && !step.RevokeSignal? && Known(s, step.c)
    ensures var s', conn := NextSession(s, step, config), s.conns[step.c];
            && step.c in s'.conns
            && (HasPeer(s'.conns[step.c].stage) ==> HasPeer(conn.stage) && s'.conns[step.c].stage.peer == conn.stage.peer)
            && (forall g :: g in s'.grants ==> g in s.grants)
            && (forall g :: g in s'.grants && s'.grants[g].active.Some? && s'.grants[g].active != s.grants[g].active ==>
                  g == conn.grant && HasPeer(conn.stage)
                  && s'.grants[g].active.value == PairOf(step.c, conn.role, conn.stage.peer))
  {
  }

  lemma SessionFaces(s: System, step: Step, config: Config, g: GrantId)
    requires FacingInv(s) && !step.Arrive? && !step.Revoke? && !step.RevokeSignal? && Known(s, step.c)
    requires SidesStay(s, NextSession(s, step, config))
    ensures step.c in NextSession(s, step, config).conns && PairerFaces(NextSession(s, step, config), step.c)
    ensures g in NextSession(s, step, config).grants ==> GrantFaces(NextSession(s, step, config), g)
  {
    var s', conn := NextSession(s, step, config), s.conns[step.c];
    assert PairerFaces(s, step.c);
    assert g in s.grants ==> GrantFaces(s, g);
    SessionKeepsItsPeer(s, step, config);
    if HasPeer(conn.stage) {
      FacingStays(s, s', conn.grant, PairOf(step.c, conn.role, conn.stage.peer));
    }
  }

  lemma OthersFace(s: System, step: Step, config: Config)
    requires step.Arrive? || step.Revoke? || step.RevokeSignal? || !Known(s, step.c)
    ensures var s' := Next(s, step, config);
            && SidesStay(s, s')
            && (forall c :: c in s'.conns ==> if c in s.conns then s'.conns[c].stage == s.conns[c].stage else s'.conns[c].stage == Arrived)
            && (forall g :: g in s'.grants ==> s'.grants[g].active == if g in s.grants then s.grants[g].active else None)
  {
  }

  lemma FacingOther(s: System, step: Step, config: Config)
    requires FacingInv(s)
    requires step.Arrive? || step.Revoke? || step.RevokeSignal? || !Known(s, step.c)
    ensures FacingInv(Next(s, step, config))
  {
    var s' := Next(s, step, config);
    OthersFace(s, step, config);
    forall c | c in s'.conns ensures PairerFaces(s', c) {
      assert c in s.conns ==> PairerFaces(s, c);
    }
    forall g | g in s'.grants ensures GrantFaces(s', g) {
      assert g in s.grants ==> GrantFaces(s, g);
    }
  }

  lemma FacingPairing(s: System, step: Step)
    requires Inv(s) && FacingInv(s) && !step.Arrive? && !step.Revoke? && !step.RevokeSignal? && Known(s, step.c)
    ensures FacingInv(NextPairing(s, step))
  {
    var s' := NextPairing(s, step);
    PairingSides(s, step);
    PairingMovesOne(s, step);
    forall c | c in s'.conns ensures PairerFaces(s', c) {
      if c == step.c {
        PairingFaces(s, step);
      } else {
        assert PairerFaces(s, c);
      }
    }
    forall g | g in s'.grants ensures GrantFaces(s', g) {
      assert GrantFaces(s, g);
    }
  }

  lemma FacingSession(s: System, step: Step, config: Config)
    requires FacingInv(s) && !step.Arrive? && !step.Revoke? && !step.RevokeSignal? && Known(s, step.c)
    ensures FacingInv(NextSession(s, step, config))
  {
    var s' := NextSession(s, step, config);
    SessionSides(s, step, config);
    SessionMovesOne(s, step, config);
    forall c | c in s'.conns ensures PairerFaces(s', c) {
      if c == step.c {
        SessionFaces(s, step, config, 0);
      } else {
        assert PairerFaces(s, c);
      }
    }
    forall g | g in s'.grants ensures GrantFaces(s', g) {
      SessionFaces(s, step, config, g);
    }
  }

  lemma {:induction false} FacingRun(s: System, steps: seq<Step>, config: Config)
    requires Inv(s) && FacingInv(s)
    ensures FacingInv(Run(s, steps, config))
    decreases |steps|
  {
    if steps != [] {
      var step := steps[0];
      InvNext(s, step, config);
      if step.Arrive? || step.Revoke? || step.RevokeSignal? || !Known(s, step.c) {
        FacingOther(s, step, config);
      } else if step.Enter? || step.Wake? || step.Timer? || step.Expire? || step.Signal? {
        FacingPairing(s, step);
      } else {
        FacingSession(s, step, config);
      }
      FacingRun(Next(s, step, config), steps[1..], config);
    }
  }

  /**
   In every interleaving a pipe copies from a source to a sink of one and the same grant, whichever of them
   made the pairing, and the pair a revocation would close is such a pair.
   */
  lemma PipesRunFromASourceToASink(steps: seq<Step>, config: Config, c: ConnId, g: GrantId)
    ensures var s := Run(EMPTY, steps, config);
            && (c in s.conns && s.conns[c].stage.Copying? ==>
                  Facing(s, s.conns[c].grant, PairOf(c, s.conns[c].role, s.conns[c].stage.peer)))
            && (g in s.grants && s.grants[g].active.Some? ==> Facing(s, g, s.grants[g].active.value))
  {
    FacingRun(EMPTY, steps, config);
    var s := Run(EMPTY, steps, config);
    assert c in s.conns ==> PairerFaces(s, c);
    assert g in s.grants ==> GrantFaces(s, g);
  }
}
