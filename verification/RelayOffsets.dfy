/**
 The offset a relayed connection is told. A pairing reads the grant's count in its own critical section,
 holds it while it is admitted, and acknowledges it to both sides, who resume there; meanwhile other pipes of
 the grant may record. Every run of the relay is watched here for what its connections get to see.
 */
module RelayOffsets {
  import opened Numbers
  import opened Wrappers
  import opened Relay
  import opened RelayRuns
  import L = RelayLimits
  import T = Transport

  /** What a grant's connections see of the relay, in order. */
  datatype Event =
    | Meets(grant: GrantId, pairer: ConnId, offset: nat)
    | Tells(grant: GrantId, pairer: ConnId, offset: nat)
    | Starts(grant: GrantId, pairer: ConnId, budget: nat)
    | Moves(grant: GrantId, pairer: ConnId, n: nat)

  /** The relay, what each pairer holds since its pairing section, and everything seen so far. */
  datatype Watched = Watched(system: System, held: map<ConnId, nat>, log: seq<Event>)

  const UNWATCHED := Watched(EMPTY, map[], [])

  /** What one step shows: a pairing, its acknowledgement, the start of its pipe, or the end of its copy. */
  function Shown(w: Watched, step: Step, config: Config): Option<Event> {
    if step.Arrive? || step.Revoke? || step.RevokeSignal? || !Known(w.system, step.c) then None
    else
      var c, conn := step.c, w.system.conns[step.c];
      var g := w.system.grants[conn.grant];
      match (step, conn.stage)
      case (Enter(_), Arrived) =>
        (match EnterSection(g, c, conn.role).1
         case PairWith(_, resumeAt) => Some(Meets(conn.grant, c, resumeAt))
         case _ => None)
      case (Ack(_, ok), Admitted(_)) => if ok && c in w.held then Some(Tells(conn.grant, c, w.held[c])) else None
      case (Begin(_, _), Entering(peer)) =>
        (match BeginSection(g, PairOf(c, conn.role, peer), config.MaxBytes()).1
         case Some(budget) => Some(Starts(conn.grant, c, budget))
         case None => None)
      case (Record(_, n), Copying(_, remaining)) => if n <= remaining then Some(Moves(conn.grant, c, n)) else None
      case _ => None
  }

  function WatchNext(w: Watched, step: Step, config: Config): Watched {
    var seen := Shown(w, step, config);
    Watched(
      Next(w.system, step, config),
      if seen.Some? && seen.value.Meets? then w.held[seen.value.pairer := seen.value.offset] else w.held,
      if seen.Some? then w.log + [seen.value] else w.log)
  }

  function Watch(w: Watched, steps: seq<Step>, config: Config): Watched
    decreases |steps|
  {
    if steps == [] then w else Watch(WatchNext(w, steps[0], config), steps[1..], config)
  }

  /** Watching changes nothing. */
  lemma {:induction false} WatchedSystem(w: Watched, steps: seq<Step>, config: Config)
    ensures Watch(w, steps, config).system == Run(w.system, steps, config)
    decreases |steps|
  {
    if steps != [] {
      WatchedSystem(WatchNext(w, steps[0], config), steps[1..], config);
    }
  }

  /** All that the pipes of a grant have moved. */
  function Moved(log: seq<Event>, g: GrantId): nat {
    if log == [] then 0 else Moved(log[..|log| - 1], g) + MovedBy(log[|log| - 1], g)
  }

  function MovedBy(e: Event, g: GrantId): nat { if e.Moves? && e.grant == g then e.n else 0 }

  lemma MovedOneMore(log: seq<Event>, e: Event, g: GrantId)
    ensures Moved(log + [e], g) == Moved(log, g) + MovedBy(e, g)
  {
    assert (log + [e])[..|log|] == log;
  }

  lemma {:induction false} MovedBetween(log: seq<Event>, i: nat, j: nat, g: GrantId)
    requires i <= j <= |log|
    ensures Moved(log[..j], g) == Moved(log[..i], g) + Moved(log[i..j], g)
    decreases j
  {
    if i < j {
      MovedBetween(log, i, j - 1, g);
      assert log[..j][..j - 1] == log[..j - 1];
      assert log[i..j][..j - i - 1] == log[i..j - 1];
    }
  }

  // ---- What the log says of the relay ----

  /** One more event, against those before it. */
  ghost predicate Sound(log: seq<Event>, e: Event, max: nat) {
    match e
    case Meets(g, c, offset) => offset == Moved(log, g) && forall d :: d in log && d.Meets? ==> d.pairer != c
    case Tells(g, c, offset) => Meets(g, c, offset) in log
    case Starts(g, c, budget) => budget == (if max > Moved(log, g) then max - Moved(log, g) else 0)
    case Moves(g, c, n) => exists budget :: Starts(g, c, budget) in log && n <= budget
  }

  ghost predicate Honest(log: seq<Event>, max: nat) {
    log == [] || (Honest(log[..|log| - 1], max) && Sound(log[..|log| - 1], log[|log| - 1], max))
  }

  lemma {:induction false} SoundAt(log: seq<Event>, i: nat, max: nat)
    requires Honest(log, max) && i < |log|
    ensures Sound(log[..i], log[i], max)
    decreases |log|
  {
    if i < |log| - 1 {
      SoundAt(log[..|log| - 1], i, max);
      assert log[..|log| - 1][..i] == log[..i];
    }
  }

  /** What a pairer's stage owes to the log. */
  ghost predicate Backed(w: Watched, c: ConnId)
    requires c in w.system.conns
  {
    var conn := w.system.conns[c];
    && (conn.stage.Paired? || conn.stage.Admitted? ==> c in w.held && Meets(conn.grant, c, w.held[c]) in w.log)
    && (conn.stage.Copying? ==> Starts(conn.grant, c, conn.stage.remaining) in w.log)
  }

  ghost predicate WatchInv(w: Watched, max: nat) {
    && Honest(w.log, max)
    && (forall g :: BytesOf(w.system, g) == Moved(w.log, g))
    && (forall c :: c in w.system.conns ==> Backed(w, c))
    && (forall e :: e in w.log && e.Meets? ==> e.pairer in w.system.conns && !w.system.conns[e.pairer].stage.Arrived?)
  }

  /** A step's event is sound, and the counts move by it. */
  lemma ShownIsSound(w: Watched, step: Step, config: Config)
    requires WatchInv(w, config.MaxBytes())
    ensures Shown(w, step, config).Some? ==> Sound(w.log, Shown(w, step, config).value, config.MaxBytes())
  {
    var seen := Shown(w, step, config);
    if seen.Some? {
      var c := step.c;
      assert Backed(w, c);
      assert BytesOf(w.system, w.system.conns[c].grant) == Moved(w.log, w.system.conns[c].grant);
    }
  }

  lemma ShownIsRecorded(w: Watched, step: Step, config: Config, g: GrantId)
    ensures BytesOf(Next(w.system, step, config), g)
         == BytesOf(w.system, g) + if Shown(w, step, config).Some? then MovedBy(Shown(w, step, config).value, g) else 0
  {
    if step.Arrive? || step.Revoke? || step.RevokeSignal? || !Known(w.system, step.c) {
      OtherStepsMoveNone(w.system, step, config, 0);
    } else if step.Enter? || step.Wake? || step.Timer? || step.Expire? || step.Signal? {
      PairingRecordsNone(w.system, step, g);
    } else {
      SessionRecords(w, step, config, g);
    }
  }

  lemma PairingRecordsNone(s: System, step: Step, g: GrantId)
    requires !step.Arrive? && !step.Revoke? && !step.RevokeSignal? && Known(s, step.c)
    ensures BytesOf(NextPairing(s, step), g) == BytesOf(s, g)
  {
  }

  lemma SessionRecords(w: Watched, step: Step, config: Config, g: GrantId)
    requires !step.Arrive? && !step.Revoke? && !step.RevokeSignal? && Known(w.system, step.c)
    requires !(step.Enter? || step.Wake? || step.Timer? || step.Expire? || step.Signal?)
    ensures BytesOf(NextSession(w.system, step, config), g)
         == BytesOf(w.system, g) + if Shown(w, step, config).Some? then MovedBy(Shown(w, step, config).value, g) else 0
  {
  }

  /** The goroutine that moved owes what the log now shows. */
  lemma OwnBacking(w: Watched, step: Step, config: Config)
    requires !step.Arrive? && !step.Revoke? && !step.RevokeSignal? && Known(w.system, step.c)
    requires Backed(w, step.c)
    ensures StillBacked(w, step, config)
  {
    if step.Enter? || step.Wake? || step.Timer? || step.Expire? || step.Signal? {
      PairingBacking(w, step, config);
    } else {
      SessionBacking(w, step, config);
    }
  }

  ghost predicate StillBacked(w: Watched, step: Step, config: Config)
    requires !step.Arrive? && !step.Revoke? && !step.RevokeSignal? && Known(w.system, step.c)
  {
    var w', seen := WatchNext(w, step, config), Shown(w, step, config);
    && step.c in w'.system.conns && Backed(w', step.c)
    && (w'.system.conns[step.c].stage.Arrived? ==>
          w.system.conns[step.c].stage.Arrived? && !(seen.Some? && seen.value.Meets?))
    && (seen.Some? ==> seen.value.pairer == step.c)
  }

  lemma PairingBacking(w: Watched, step: Step, config: Config)
    requires !step.Arrive? && !step.Revoke? && !step.RevokeSignal? && Known(w.system, step.c)
    requires step.Enter? || step.Wake? || step.Timer? || step.Expire? || step.Signal?
    requires Backed(w, step.c)
    ensures StillBacked(w, step, config)
  {
    PairingMovesOne(w.system, step);
    var s' := NextPairing(w.system, step);
    assert s'.conns[step.c].grant == w.system.conns[step.c].grant;
  }

  lemma SessionBacking(w: Watched, step: Step, config: Config)
    requires !step.Arrive? && !step.Revoke? && !step.RevokeSignal? && Known(w.system, step.c)
    requires !(step.Enter? || step.Wake? || step.Timer? || step.Expire? || step.Signal?)
    requires Backed(w, step.c)
    ensures StillBacked(w, step, config)
  {
    SessionMovesOne(w.system, step, config);
    var s' := NextSession(w.system, step, config);
    assert s'.conns[step.c].grant == w.system.conns[step.c].grant;
  }

  lemma BackingNext(w: Watched, step: Step, config: Config)
    requires WatchInv(w, config.MaxBytes())
    ensures var w' := WatchNext(w, step, config);
            && (forall c :: c in w'.system.conns ==> Backed(w', c))
            && (forall e :: e in w'.log && e.Meets? ==> e.pairer in w'.system.conns && !w'.system.conns[e.pairer].stage.Arrived?)
  {
    var w' := WatchNext(w, step, config);
    if step.Arrive? || step.Revoke? || step.RevokeSignal? || !Known(w.system, step.c) {
      OtherStepsMoveNone(w.system, step, config, 0);
      forall c | c in w'.system.conns ensures Backed(w', c) {
        if c in w.system.conns {
          assert Backed(w, c);
        }
      }
    } else {
      StepMovesOne(w.system, step, config);
      OwnBacking(w, step, config);
      forall c | c in w'.system.conns ensures Backed(w', c) {
        if c != step.c {
          assert Backed(w, c);
        }
      }
    }
  }

  lemma WatchInvNext(w: Watched, step: Step, config: Config)
    requires WatchInv(w, config.MaxBytes())
    ensures WatchInv(WatchNext(w, step, config), config.MaxBytes())
  {
    var w' := WatchNext(w, step, config);
    BackingNext(w, step, config);
    ShownIsSound(w, step, config);
    if Shown(w, step, config).Some? {
      assert w'.log[..|w.log|] == w.log;
    }
    forall g ensures BytesOf(w'.system, g) == Moved(w'.log, g) {
      assert BytesOf(w.system, g) == Moved(w.log, g);
      ShownIsRecorded(w, step, config, g);
      if Shown(w, step, config).Some? {
        MovedOneMore(w.log, Shown(w, step, config).value, g);
      }
    }
  }

  lemma {:induction false} WatchInvRun(w: Watched, steps: seq<Step>, config: Config)
    requires WatchInv(w, config.MaxBytes())
    ensures WatchInv(Watch(w, steps, config), config.MaxBytes())
    decreases |steps|
  {
    if steps != [] {
      WatchInvNext(w, steps[0], config);
      WatchInvRun(WatchNext(w, steps[0], config), steps[1..], config);
    }
  }

  ghost function Log(steps: seq<Step>, config: Config): seq<Event> { Watch(UNWATCHED, steps, config).log }

  lemma LogIsHonest(steps: seq<Step>, config: Config)
    ensures Honest(Log(steps, config), config.MaxBytes())
    ensures forall g :: BytesOf(Run(EMPTY, steps, config), g) == Moved(Log(steps, config), g)
  {
    WatchInvRun(UNWATCHED, steps, config);
    WatchedSystem(UNWATCHED, steps, config);
  }

  // ---- The offset told ----

  /** Where in the log a pairing was made. */
  ghost predicate MeetsAt(log: seq<Event>, j: nat, g: GrantId, c: ConnId, offset: nat) {
    j < |log| && log[j] == Meets(g, c, offset)
  }

  /**
   In every interleaving, the offset both sides are told is the one their own pairing section read, and that
   is all the pipes of the grant had moved by then, over however many sessions. A grant's record is all they
   have moved in the whole run.
   */
  lemma TheOffsetToldIsTheBytesMoved(steps: seq<Step>, config: Config, i: nat)
    requires i < |Log(steps, config)| && Log(steps, config)[i].Tells?
    ensures var log := Log(steps, config);
            var e := log[i];
            && BytesOf(Run(EMPTY, steps, config), e.grant) == Moved(log, e.grant)
            && exists j: nat :: j < i && MeetsAt(log, j, e.grant, e.pairer, e.offset) && e.offset == Moved(log[..j], e.grant)
  {
    var log := Log(steps, config);
    LogIsHonest(steps, config);
    SoundAt(log, i, config.MaxBytes());
    var j: nat :| j < i && log[..i][j] == Meets(log[i].grant, log[i].pairer, log[i].offset);
    SoundAt(log, j, config.MaxBytes());
    assert MeetsAt(log, j, log[i].grant, log[i].pairer, log[i].offset);
  }

  /** Whatever has run so far, the next pairing of a grant reads all that its pipes have moved. */
  lemma TheNextPairingReadsItAll(steps: seq<Step>, config: Config, c: ConnId)
    requires var s := Run(EMPTY, steps, config);
             && Known(s, c) && s.conns[c].stage.Arrived?
             && EnterSection(s.grants[s.conns[c].grant], c, s.conns[c].role).1.PairWith?
    ensures var w := Watch(UNWATCHED, steps, config);
            var g := Run(EMPTY, steps, config).conns[c].grant;
            && Shown(w, Enter(c), config) == Some(Meets(g, c, Moved(w.log, g)))
            && Moved(w.log, g) == BytesOf(Run(EMPTY, steps, config), g)
  {
    WatchInvRun(UNWATCHED, steps, config);
    WatchedSystem(UNWATCHED, steps, config);
    assert BytesOf(Run(EMPTY, steps, config), Run(EMPTY, steps, config).conns[c].grant)
        == Moved(Watch(UNWATCHED, steps, config).log, Run(EMPTY, steps, config).conns[c].grant);
  }

  /** A connection pairs at most once, so the pairing an acknowledgement belongs to is the only one. */
  lemma APairingIsMadeOnce(steps: seq<Step>, config: Config, i: nat, j: nat)
    requires i < j < |Log(steps, config)| && Log(steps, config)[i].Meets? && Log(steps, config)[j].Meets?
    ensures Log(steps, config)[i].pairer != Log(steps, config)[j].pairer
  {
    var log := Log(steps, config);
    LogIsHonest(steps, config);
    SoundAt(log, j, config.MaxBytes());
    assert log[..j][i] == log[i];
  }

  /** From one pairing of a grant to a later one the offset grows by exactly what its pipes moved in between. */
  lemma OffsetsNeverFallBack(steps: seq<Step>, config: Config, i: nat, j: nat)
    requires i <= j < |Log(steps, config)| && Log(steps, config)[i].Meets? && Log(steps, config)[j].Meets?
    requires Log(steps, config)[i].grant == Log(steps, config)[j].grant
    ensures var log := Log(steps, config);
            log[j].offset == log[i].offset + Moved(log[i..j], log[i].grant)
  {
    var log := Log(steps, config);
    LogIsHonest(steps, config);
    SoundAt(log, i, config.MaxBytes());
    SoundAt(log, j, config.MaxBytes());
    MovedBetween(log, i, j, log[i].grant);
  }

  /**
   What was told and what has been moved by the time it is told: they agree if and only if no pipe of the
   grant recorded between the pairing and its acknowledgement.
   */
  lemma AnOffsetIsStaleExactlyIf(steps: seq<Step>, config: Config, j: nat, i: nat)
    requires j <= i < |Log(steps, config)| && Log(steps, config)[i].Tells?
    requires MeetsAt(Log(steps, config), j, Log(steps, config)[i].grant, Log(steps, config)[i].pairer, Log(steps, config)[i].offset)
    ensures var log := Log(steps, config);
            var e := log[i];
            && e.offset <= Moved(log[..i], e.grant)
            && (e.offset == Moved(log[..i], e.grant) <==> Moved(log[j..i], e.grant) == 0)
  {
    var log := Log(steps, config);
    LogIsHonest(steps, config);
    SoundAt(log, j, config.MaxBytes());
    MovedBetween(log, j, i, log[i].grant);
  }

  /**
   The budget a pipe starts with is what the cap leaves of the offset it was told and of what other pipes have
   moved since; so it is the cap less the offset exactly if they moved nothing, as long as any room was left.
   */
  lemma TheBudgetIsWhatTheOffsetLeaves(steps: seq<Step>, config: Config, j: nat, k: nat)
    requires j < k < |Log(steps, config)| && Log(steps, config)[j].Meets? && Log(steps, config)[k].Starts?
    requires Log(steps, config)[j].grant == Log(steps, config)[k].grant
    ensures var log, max := Log(steps, config), config.MaxBytes();
            var offset, since := log[j].offset, Moved(log[j..k], log[j].grant);
            && log[k].budget == (if max > offset + since then max - offset - since else 0)
            && (offset < max ==> (log[k].budget == max - offset <==> since == 0))
  {
    var log := Log(steps, config);
    LogIsHonest(steps, config);
    SoundAt(log, j, config.MaxBytes());
    SoundAt(log, k, config.MaxBytes());
    MovedBetween(log, j, k, log[j].grant);
  }

  // ---- Without overlap ----

  lemma {:induction false} NothingMovesWhileNoneCopies(s: System, steps: seq<Step>, config: Config, g: GrantId)
    requires OverlapAtMost(s, steps, config, g, 0)
    ensures BytesOf(Run(s, steps, config), g) == BytesOf(s, g)
    decreases |steps|
  {
    if steps != [] {
      var step := steps[0];
      ShownIsRecorded(Watched(s, map[], []), step, config, g);
      assert Running(s, g) == map[];
      NothingMovesWhileNoneCopies(Next(s, step, config), steps[1..], config, g);
    }
  }

  /**
   Sessions one after the other: if no pipe of the grant copies from a pairing to the start of its own pipe,
   the pipe's budget is exactly the cap less the offset the pairing read.
   */
  lemma WithoutOverlapTheBudgetIsTheRest(s: System, c: ConnId, offset: nat, s1: System, steps: seq<Step>, t: System, expired: bool,
                                         config: Config)
    requires Known(s, c) && s.conns[c].stage.Arrived? && s1 == Next(s, Enter(c), config) && t == Run(s1, steps, config)
    requires Shown(Watched(s, map[], []), Enter(c), config) == Some(Meets(s.conns[c].grant, c, offset))
    requires OverlapAtMost(s1, steps, config, s.conns[c].grant, 0)
    requires Known(t, c) && t.conns[c].grant == s.conns[c].grant && t.conns[c].stage.Entering? && !t.grants[t.conns[c].grant].revoked
    ensures var g := s.conns[c].grant;
            var rest := if config.MaxBytes() > offset then config.MaxBytes() - offset else 0;
            && Shown(Watched(t, map[], []), Begin(c, expired), config) == Some(Starts(g, c, rest))
            && (rest > 0 && !expired ==> Running(Next(t, Begin(c, expired), config), g) == map[c := rest])
  {
    var g := s.conns[c].grant;
    PairingReads(s, c, offset, config);
    NothingMovesWhileNoneCopies(s1, steps, config, g);
    OverlapEnds(s1, steps, config, g, 0);
    OnlyPipe(t, c, expired, config);
  }

  lemma PairingReads(s: System, c: ConnId, offset: nat, config: Config)
    requires Known(s, c) && s.conns[c].stage.Arrived?
    requires Shown(Watched(s, map[], []), Enter(c), config) == Some(Meets(s.conns[c].grant, c, offset))
    ensures BytesOf(Next(s, Enter(c), config), s.conns[c].grant) == offset
  {
  }

  lemma OnlyPipe(t: System, c: ConnId, expired: bool, config: Config)
    requires Known(t, c) && t.conns[c].stage.Entering? && !t.grants[t.conns[c].grant].revoked
    requires |Running(t, t.conns[c].grant)| == 0
    ensures var g := t.conns[c].grant;
            var rest := if config.MaxBytes() > BytesOf(t, g) then config.MaxBytes() - BytesOf(t, g) else 0;
            && Shown(Watched(t, map[], []), Begin(c, expired), config) == Some(Starts(g, c, rest))
            && (rest > 0 && !expired ==> Running(Next(t, Begin(c, expired), config), g) == map[c := rest])
  {
    var g := t.conns[c].grant;
    assert Running(t, g) == map[];
    SessionMovesOne(t, Begin(c, expired), config);
    RunningChange(t, Next(t, Begin(c, expired), config), c, g);
  }

  lemma {:induction false} OverlapEnds(s: System, steps: seq<Step>, config: Config, g: GrantId, k: nat)
    requires OverlapAtMost(s, steps, config, g, k)
    ensures |Running(Run(s, steps, config), g)| <= k
    decreases |steps|
  {
    if steps != [] {
      OverlapEnds(Next(s, steps[0], config), steps[1..], config, g, k);
    }
  }

  // ---- With overlap ----

  /**
   A pairing made while a pipe of its grant still copies, in any run: if the pipe records before the pairing is
   acknowledged, both sides are told less than was moved.
   */
  lemma AnOverlapMakesTheOffsetStale(steps: seq<Step>, config: Config, c: ConnId, d: ConnId, n: nat)
    requires var s := Run(EMPTY, steps, config);
             && c in s.conns && d in s.conns && s.conns[c].grant == s.conns[d].grant
             && s.conns[c].stage.Paired? && s.active < config.MaxConcurrent()
             && s.conns[d].stage.Copying? && 0 < n <= s.conns[d].stage.remaining
    ensures var w := Watch(UNWATCHED, steps, config);
            c in w.held && c in w.system.conns && ToldShort(w, c, d, n, config)
  {
    var w := Watch(UNWATCHED, steps, config);
    WatchedSystem(UNWATCHED, steps, config);
    WatchInvRun(UNWATCHED, steps, config);
    InvRun(EMPTY, steps, config);
    HeldIsMoved(w, c, config);
    RecordedBeside(w, c, d, n, config);
    ToldAfterAdmission(WatchNext(w, Record(d, n), config), c, config);
  }

  /** Pipe d records n bytes, then pairer c is admitted and acknowledges fewer than its grant has relayed. */
  ghost predicate ToldShort(w: Watched, c: ConnId, d: ConnId, n: nat, config: Config)
    requires c in w.held && c in w.system.conns
  {
    var w' := WatchNext(WatchNext(w, Record(d, n), config), Admit(c), config);
    var g := w.system.conns[c].grant;
    Shown(w', Ack(c, true), config) == Some(Tells(g, c, w.held[c])) && w.held[c] + n <= BytesOf(w'.system, g)
  }

  lemma ToldAfterAdmission(w: Watched, c: ConnId, config: Config)
    requires Known(w.system, c) && w.system.conns[c].stage.Paired? && w.system.active < config.MaxConcurrent() && c in w.held
    ensures var w' := WatchNext(w, Admit(c), config);
            && Shown(w', Ack(c, true), config) == Some(Tells(w.system.conns[c].grant, c, w.held[c]))
            && w'.system.grants == w.system.grants
  {
  }

  lemma HeldIsMoved(w: Watched, c: ConnId, config: Config)
    requires WatchInv(w, config.MaxBytes()) && c in w.system.conns && w.system.conns[c].stage.Paired?
    ensures c in w.held && w.held[c] <= BytesOf(w.system, w.system.conns[c].grant)
  {
    var g := w.system.conns[c].grant;
    assert Backed(w, c);
    var j: nat :| j < |w.log| && w.log[j] == Meets(g, c, w.held[c]);
    SoundAt(w.log, j, config.MaxBytes());
    MovedBetween(w.log, j, |w.log|, g);
    assert w.log[..|w.log|] == w.log;
  }

  lemma RecordedBeside(w: Watched, c: ConnId, d: ConnId, n: nat, config: Config)
    requires Known(w.system, c) && Known(w.system, d) && c != d && w.system.conns[c].grant == w.system.conns[d].grant
    requires w.system.conns[d].stage.Copying? && n <= w.system.conns[d].stage.remaining
    ensures var w' := WatchNext(w, Record(d, n), config);
            && Known(w'.system, c) && w'.system.conns[c] == w.system.conns[c] && w'.held == w.held
            && w'.system.active == w.system.active
            && BytesOf(w'.system, w.system.conns[c].grant) == BytesOf(w.system, w.system.conns[c].grant) + n
  {
  }

  /** A reconnect while the old pipe still copies. */
  function Reconnect(g: GrantId): seq<Step> { L.OpenSession(0, 1, g) + L.OpenSession(2, 3, g)[..4] }

  lemma SuchAnOverlapIsReached(config: Config, g: GrantId)
    requires config.MaxConcurrent() >= 2
    ensures var s := Run(EMPTY, Reconnect(g), config);
            && 3 in s.conns && 1 in s.conns && s.conns[3].grant == s.conns[1].grant == g
            && s.conns[3].stage.Paired? && s.active < config.MaxConcurrent()
            && s.conns[1].stage.Copying? && s.conns[1].stage.remaining == config.MaxBytes()
  {
    RunSplit(EMPTY, L.OpenSession(0, 1, g), L.OpenSession(2, 3, g)[..4], config);
    L.SessionOpens(EMPTY, 0, 1, g, config);
    L.SessionPairs(Run(EMPTY, L.OpenSession(0, 1, g), config), 2, 3, g, config);
  }

  // ---- What a sender's dials hear ----

  /** One dial of a sender: through the relay, answered by the pairing at that place of the log, or direct. */
  datatype Turn =
    | Relayed(pairing: nat, accepts: nat)
    | Straight(accepts: nat)

  /** The last pairing the sender has heard of, `from` being the last one heard of before. */
  function LastHeard(turns: seq<Turn>, from: nat): nat {
    if turns == [] then from
    else if turns[|turns| - 1].Relayed? then turns[|turns| - 1].pairing
    else LastHeard(turns[..|turns| - 1], from)
  }

  /** The pairings heard of are the grant's, each later than the one before. */
  ghost predicate Successive(log: seq<Event>, g: GrantId, turns: seq<Turn>, from: nat) {
    turns == []
    || (var init, last := turns[..|turns| - 1], turns[|turns| - 1];
        && Successive(log, g, init, from)
        && (last.Relayed? ==>
              LastHeard(init, from) <= last.pairing < |log| && log[last.pairing].Meets? && log[last.pairing].grant == g))
  }

  /** The same dials as the transport sees them: before each answer the relay writes down what its pipes have moved since the last. */
  function Dials(log: seq<Event>, g: GrantId, turns: seq<Turn>, from: nat): seq<T.Attempt>
    requires from <= |log| && Successive(log, g, turns, from)
    ensures T.AllOpen(Dials(log, g, turns, from)) && LastHeard(turns, from) <= |log|
  {
    if turns == [] then []
    else
      var init, last := turns[..|turns| - 1], turns[|turns| - 1];
      Dials(log, g, init, from)
        + [match last
           case Relayed(pairing, accepts) => T.RelayOpens(Moved(log[LastHeard(init, from)..pairing], g), accepts)
           case Straight(accepts) => T.DirectOpens(accepts)]
  }

  /** Whenever the relay answers, its pipes have moved no more than the sender's connections to it took. */
  ghost predicate Carried(log: seq<Event>, g: GrantId, turns: seq<Turn>, from: nat, x: T.Trip, limit: nat)
    requires from <= |log| && Successive(log, g, turns, from)
  {
    turns == []
    || (var init, last := turns[..|turns| - 1], turns[|turns| - 1];
        && Carried(log, g, init, from, x, limit)
        && (last.Relayed? ==> Moved(log[..last.pairing], g) <= T.AfterDials(x, Dials(log, g, init, from), limit).relayed))
  }

  /** Each relayed dial of the transport is answered with the offset its pairing acknowledges, and goes on from there. */
  ghost predicate Answered(log: seq<Event>, g: GrantId, turns: seq<Turn>, from: nat, x: T.Trip, limit: nat)
    requires from <= |log| && Successive(log, g, turns, from)
  {
    turns == []
    || (var init, last := turns[..|turns| - 1], turns[|turns| - 1];
        && Answered(log, g, init, from, x, limit)
        && (last.Relayed? ==> AnsweredWith(T.AfterDials(x, Dials(log, g, init, from), limit),
                                           T.AfterDials(x, Dials(log, g, turns, from), limit),
                                           log[last.pairing].offset, last.accepts, limit)))
  }

  predicate AnsweredWith(x: T.Trip, y: T.Trip, offset: nat, accepts: nat, limit: nat)
  {
    && y.recorded == offset
    && y.offset == Max(x.offset, offset) + T.Takes(Max(x.offset, offset), accepts, limit)
  }

  /**
   The relay's answers are the transport's. A sender that dials any number of times, by either route, in any run
   of the relay: the count each relayed dial of `Transport` is answered with is the offset the pairing acknowledged
   if and only if the relay never moved more than the sender's connections to it had taken.
   */
  lemma {:induction false} DialsAreAnsweredByTheRelay(log: seq<Event>, g: GrantId, turns: seq<Turn>, from: nat, x: T.Trip,
                                                      limit: nat, max: nat)
    requires Honest(log, max) && from <= |log| && Successive(log, g, turns, from)
    requires x.recorded == Moved(log[..from], g)
    ensures Carried(log, g, turns, from, x, limit) <==> Answered(log, g, turns, from, x, limit)
    ensures Carried(log, g, turns, from, x, limit) ==>
              T.AfterDials(x, Dials(log, g, turns, from), limit).recorded == Moved(log[..LastHeard(turns, from)], g)
    decreases |turns|
  {
    if turns != [] {
      var init, last := turns[..|turns| - 1], turns[|turns| - 1];
      DialsAreAnsweredByTheRelay(log, g, init, from, x, limit, max);
      var dials := Dials(log, g, turns, from);
      assert dials[..|dials| - 1] == Dials(log, g, init, from);
      if last.Relayed? {
        SoundAt(log, last.pairing, max);
        MovedBetween(log, LastHeard(init, from), last.pairing, g);
      }
    }
  }

  /** So it is for every run from the relay's start and a sender's first transfer. */
  lemma ASenderHearsTheRecord(steps: seq<Step>, config: Config, g: GrantId, turns: seq<Turn>, limit: nat)
    requires Successive(Log(steps, config), g, turns, 0)
    ensures var log, x := Log(steps, config), T.Trip(0, [], 0, 0);
            Carried(log, g, turns, 0, x, limit) <==> Answered(log, g, turns, 0, x, limit)
  {
    LogIsHonest(steps, config);
    DialsAreAnsweredByTheRelay(Log(steps, config), g, turns, 0, T.Trip(0, [], 0, 0), limit, config.MaxBytes());
  }
}
