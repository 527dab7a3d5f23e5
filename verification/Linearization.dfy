/**
 The Host's directory layer: any number of concurrent callers, one mutex per Bridge id, and a store
 whose read and write are separate steps. Every interleaving gives the store and the answers of some
 sequential run of whole operations, in an order that respects real time.
 */
module Linearization {
  import opened Wrappers
  import opened Credentials

  type ThreadId = nat

  datatype Call = Call(op: Operation, bridge: BridgeId)

  /** Where a caller stands. `view` is what its read returned. */
  datatype Stage =
    | Ready
    | Locked
    | Loaded(readOk: bool, view: Option<Family>)
    | Answered(reply: Reply)
    | Finished(reply: Reply)

  datatype Thread = Thread(call: Call, stage: Stage)

  /** `held` maps a Bridge id to the caller inside its mutex. */
  datatype System = System(families: Families, held: map<BridgeId, ThreadId>, threads: map<ThreadId, Thread>)

  datatype Step =
    | Spawn(tid: ThreadId, call: Call)
    | Acquire(tid: ThreadId)
    | Read(tid: ThreadId, readOk: bool)
    | Decide(tid: ThreadId, now: int, minted: Token, saveOk: bool)
    | Release(tid: ThreadId)

  predicate NeedsLock(op: Operation) { !op.Authenticate? }

  function At(s: System, tid: ThreadId, stage: Stage): System
    requires tid in s.threads
  {
    s.(threads := s.threads[tid := s.threads[tid].(stage := stage)])
  }

  /**
   One step of one caller. A step that is not possible yet (a mutex another caller holds, say) leaves
   the system as it is, so every list of steps is a run. `locking` is true in the source; with false
   the mutex is skipped.
   */
  function Next(s: System, step: Step, grace: int, locking: bool): System {
    if step.Spawn? then
      if step.tid in s.threads then s
      else s.(threads := s.threads[step.tid := Thread(step.call, Ready)])
    else if step.tid !in s.threads then s
    else
      var t := s.threads[step.tid];
      var b := t.call.bridge;
      match step
      case Acquire(tid) =>
        if t.stage.Ready? && NeedsLock(t.call.op) && (!locking || b !in s.held)
        then At(s, tid, Locked).(held := s.held[b := tid]) else s
      case Read(tid, readOk) =>
        if t.stage.Locked? || (t.stage.Ready? && !NeedsLock(t.call.op))
        then At(s, tid, Loaded(readOk, if readOk then Lookup(s.families, b) else None)) else s
      case Decide(tid, now, minted, saveOk) =>
        if t.stage.Loaded? then
          var (families, reply) := Carry(s.families, PlanFor(t.call.op, b, t.stage.view, now, grace, minted), saveOk);
          At(s, tid, Answered(reply)).(families := families)
        else s
      case Release(tid) =>
        if t.stage.Answered? then
          At(s, tid, Finished(t.stage.reply)).(held := if NeedsLock(t.call.op) then s.held - {b} else s.held)
        else s
  }

  function Run(s: System, steps: seq<Step>, grace: int, locking: bool): System {
    if steps == [] then s
    else Next(Run(s, steps[..|steps| - 1], grace, locking), steps[|steps| - 1], grace, locking)
  }

  /** One whole operation, and the index of the step of the run at which it takes effect. */
  datatype Event = Event(tid: ThreadId, call: Call, readOk: bool, now: int, minted: Token, saveOk: bool, at: nat)

  function Effect(families: Families, e: Event, grace: int): (Families, Reply) {
    Atomic(families, e.call.op, e.call.bridge, e.readOk, e.now, grace, e.minted, e.saveOk)
  }

  function Replay(families: Families, order: seq<Event>, grace: int): Families {
    if order == [] then families
    else Effect(Replay(families, order[..|order| - 1], grace), order[|order| - 1], grace).0
  }

  function ReplyAt(families: Families, order: seq<Event>, k: nat, grace: int): Reply
    requires k < |order|
  {
    Effect(Replay(families, order[..k], grace), order[k], grace).1
  }

  /**
   The event a step completes, if any: an unlocked reader takes effect when it reads, everyone else
   when it decides.
   */
  function EventOf(s: System, step: Step, at: nat): seq<Event> {
    if step.Spawn? || step.tid !in s.threads then []
    else
      var t := s.threads[step.tid];
      if step.Read? && t.stage.Ready? && !NeedsLock(t.call.op) then
        [Event(step.tid, t.call, step.readOk, 0, Token(0), true, at)]
      else if step.Decide? && t.stage.Loaded? && NeedsLock(t.call.op) then
        [Event(step.tid, t.call, t.stage.readOk, step.now, step.minted, step.saveOk, at)]
      else []
  }

  /** The sequential order of a run. */
  function Order(s: System, steps: seq<Step>, grace: int): seq<Event> {
    if steps == [] then []
    else
      var before := steps[..|steps| - 1];
      Order(s, before, grace) + EventOf(Run(s, before, grace, true), steps[|steps| - 1], |before|)
  }

  predicate Holding(t: Thread) {
    NeedsLock(t.call.op) && (t.stage.Locked? || t.stage.Loaded? || t.stage.Answered?)
  }

  /** An operation has taken effect: its answer is fixed, or it is a reader that has read. */
  predicate Effective(t: Thread) {
    t.stage.Answered? || t.stage.Finished? || (t.stage.Loaded? && !NeedsLock(t.call.op))
  }

  /** The answer of an operation that has taken effect. */
  function FixedReply(t: Thread, grace: int): Reply
    requires Effective(t)
  {
    if t.stage.Loaded? then
      var plan := PlanFor(t.call.op, t.call.bridge, t.stage.view, 0, grace, Token(0));
      if plan.Answer? then plan.reply else Refused(StoreFailed)
    else t.stage.reply
  }

  /** Mutual exclusion, and a view that stays current because of it. */
  ghost predicate LockInv(s: System) {
    && (forall tid :: tid in s.threads && Holding(s.threads[tid]) ==>
          s.threads[tid].call.bridge in s.held && s.held[s.threads[tid].call.bridge] == tid)
    && (forall tid :: tid in s.threads && Holding(s.threads[tid]) && s.threads[tid].stage.Loaded? ==>
          s.threads[tid].stage.view
          == if s.threads[tid].stage.readOk then Lookup(s.families, s.threads[tid].call.bridge) else None)
    && (forall tid :: tid in s.threads && s.threads[tid].stage.Locked? ==> NeedsLock(s.threads[tid].call.op))
    && WellKeyed(s.families)
  }

  lemma PlanKeepsKey(op: Operation, bridge: BridgeId, loaded: Option<Family>, now: int, grace: int, minted: Token)
    requires loaded.Some? ==> loaded.value.bridge == bridge
    ensures var plan := PlanFor(op, bridge, loaded, now, grace, minted); plan.Commit? ==> plan.next.bridge == bridge
  {
  }

  /** Only a reader skips the mutex, and a reader saves nothing and uses neither clock nor token. */
  lemma PlanIsReadOnly(op: Operation, bridge: BridgeId, loaded: Option<Family>, now: int, grace: int, minted: Token)
    requires !NeedsLock(op)
    ensures PlanFor(op, bridge, loaded, now, grace, minted) == PlanFor(op, bridge, loaded, 0, grace, Token(0))
    ensures PlanFor(op, bridge, loaded, now, grace, minted).Answer?
  {
  }

  /** A step of a caller keeps mutual exclusion and every lock holder's view. */
  lemma NextKeepsLockInv(s: System, step: Step, grace: int)
    requires LockInv(s)
    ensures LockInv(Next(s, step, grace, true))
  {
    if step.tid in s.threads && step.Decide? && s.threads[step.tid].stage.Loaded? {
      var t := s.threads[step.tid];
      assert Holding(t) || t.call.op.Authenticate?;
      if t.call.op.Authenticate? {
        PlanIsReadOnly(t.call.op, t.call.bridge, t.stage.view, step.now, grace, step.minted);
      } else {
        PlanKeepsKey(t.call.op, t.call.bridge, t.stage.view, step.now, grace, step.minted);
      }
    }
  }

  ghost predicate Accounted(init: Families, s: System, order: seq<Event>, tid: ThreadId, k: nat, grace: int) {
    && k < |order|
    && order[k].tid == tid
    && tid in s.threads
    && order[k].call == s.threads[tid].call
    && Effective(s.threads[tid])
    && ReplyAt(init, order, k, grace) == FixedReply(s.threads[tid], grace)
  }

  /** The order explains the system: same store, one event for each caller that has taken effect. */
  ghost predicate Explains(init: Families, s: System, order: seq<Event>, grace: int) {
    && Replay(init, order, grace) == s.families
    && (forall k :: 0 <= k < |order| ==> Accounted(init, s, order, order[k].tid, k, grace))
    && (forall i, j :: 0 <= i < j < |order| ==> order[i].tid != order[j].tid)
    && (forall tid :: tid in s.threads && Effective(s.threads[tid]) ==> exists k :: 0 <= k < |order| && order[k].tid == tid)
  }

  lemma AppendEvent(init: Families, order: seq<Event>, e: Event, grace: int)
    ensures Replay(init, order + [e], grace) == Effect(Replay(init, order, grace), e, grace).0
    ensures ReplyAt(init, order + [e], |order|, grace) == Effect(Replay(init, order, grace), e, grace).1
    ensures forall k :: 0 <= k < |order| ==> ReplyAt(init, order + [e], k, grace) == ReplyAt(init, order, k, grace)
  {
    assert (order + [e])[..|order|] == order;
    forall k | 0 <= k < |order|
      ensures ReplyAt(init, order + [e], k, grace) == ReplyAt(init, order, k, grace)
    {
      assert (order + [e])[..k] == order[..k];
    }
  }

  /** What `UneventfulStep` promises of the system after the step. */
  ghost predicate Quiet(s: System, s': System, grace: int) {
    && s'.families == s.families
    && (forall tid :: tid in s.threads ==> tid in s'.threads && s'.threads[tid].call == s.threads[tid].call)
    && (forall tid :: tid in s'.threads && Effective(s'.threads[tid]) ==> tid in s.threads && Effective(s.threads[tid]))
    && (forall tid :: tid in s.threads && Effective(s.threads[tid]) ==>
          Effective(s'.threads[tid]) && FixedReply(s'.threads[tid], grace) == FixedReply(s.threads[tid], grace))
  }

  /** What `EventfulStep` promises: the event is the whole operation, applied to the current store. */
  ghost predicate Takes(s: System, s': System, e: Event, grace: int) {
    && e.tid in s.threads && e.call == s.threads[e.tid].call && !Effective(s.threads[e.tid])
    && s'.threads.Keys == s.threads.Keys
    && (forall tid :: tid in s.threads && tid != e.tid ==> s'.threads[tid] == s.threads[tid])
    && s'.threads[e.tid].call == e.call
    && Effective(s'.threads[e.tid])
    && Effect(s.families, e, grace) == (s'.families, FixedReply(s'.threads[e.tid], grace))
  }

  lemma ExplainQuiet(init: Families, s: System, s': System, order: seq<Event>, grace: int)
    requires Explains(init, s, order, grace) && Quiet(s, s', grace)
    ensures Explains(init, s', order, grace)
  {
    forall k | 0 <= k < |order| ensures Accounted(init, s', order, order[k].tid, k, grace) {
      assert Accounted(init, s, order, order[k].tid, k, grace);
    }
  }

  lemma ExplainEvent(init: Families, s: System, s': System, order: seq<Event>, e: Event, grace: int)
    requires Explains(init, s, order, grace) && Takes(s, s', e, grace)
    ensures Explains(init, s', order + [e], grace)
  {
    var order' := order + [e];
    AppendEvent(init, order, e, grace);
    forall k | 0 <= k < |order'|
      ensures Accounted(init, s', order', order'[k].tid, k, grace) && (k < |order| ==> order'[k].tid != e.tid)
    {
      if k < |order| {
        assert Accounted(init, s, order, order[k].tid, k, grace);
      }
    }
    forall tid | tid in s'.threads && Effective(s'.threads[tid])
      ensures exists k :: 0 <= k < |order'| && order'[k].tid == tid
    {
      if tid == e.tid {
        assert order'[|order|].tid == tid;
      } else {
        var k :| 0 <= k < |order| && order[k].tid == tid;
        assert order'[k].tid == tid;
      }
    }
  }

  lemma ExplainNext(init: Families, s: System, order: seq<Event>, step: Step, at: nat, grace: int)
    requires LockInv(s) && Explains(init, s, order, grace)
    ensures Explains(init, Next(s, step, grace, true), order + EventOf(s, step, at), grace)
  {
    var extra := EventOf(s, step, at);
    if extra == [] {
      UneventfulStep(s, step, at, grace);
      ExplainQuiet(init, s, Next(s, step, grace, true), order, grace);
      assert order + extra == order;
    } else {
      EventfulStep(s, step, at, grace);
      ExplainEvent(init, s, Next(s, step, grace, true), order, extra[0], grace);
    }
  }

  /** A step without an event changes no row, and no caller's effect or answer. */
  lemma UneventfulStep(s: System, step: Step, at: nat, grace: int)
    requires LockInv(s) && EventOf(s, step, at) == []
    ensures Quiet(s, Next(s, step, grace, true), grace)
  {
    if step.Decide? {
      UneventfulDecision(s, step, at, grace);
    }
  }

  lemma UneventfulDecision(s: System, step: Step, at: nat, grace: int)
    requires LockInv(s) && EventOf(s, step, at) == [] && step.Decide?
    ensures Quiet(s, Next(s, step, grace, true), grace)
  {
    if step.tid in s.threads && s.threads[step.tid].stage.Loaded? {
      var t := s.threads[step.tid];
      PlanIsReadOnly(t.call.op, t.call.bridge, t.stage.view, step.now, grace, step.minted);
    }
  }

  /** A step with an event is the whole operation of its caller, applied to the current store. */
  lemma EventfulStep(s: System, step: Step, at: nat, grace: int)
    requires LockInv(s) && EventOf(s, step, at) != []
    ensures |EventOf(s, step, at)| == 1
    ensures Takes(s, Next(s, step, grace, true), EventOf(s, step, at)[0], grace)
  {
    var t := s.threads[step.tid];
    if step.Read? {
      PlanIsReadOnly(t.call.op, t.call.bridge, if step.readOk then Lookup(s.families, t.call.bridge) else None, 0, grace, Token(0));
    }
  }

  /** The store starts with any well-keyed rows and no callers. */
  function Start(init: Families): System {
    System(init, map[], map[])
  }

  lemma {:induction false} RunIsExplained(init: Families, steps: seq<Step>, grace: int)
    requires WellKeyed(init)
    ensures LockInv(Run(Start(init), steps, grace, true))
    ensures Explains(init, Run(Start(init), steps, grace, true), Order(Start(init), steps, grace), grace)
    decreases |steps|
  {
    if steps != [] {
      var before := steps[..|steps| - 1];
      RunIsExplained(init, before, grace);
      var s := Run(Start(init), before, grace, true);
      NextKeepsLockInv(s, steps[|steps| - 1], grace);
      ExplainNext(init, s, Order(Start(init), before, grace), steps[|steps| - 1], |before|, grace);
    }
  }

  /** Events come in the order of the steps that caused them, each a step of its own caller. */
  ghost predicate InTime(order: seq<Event>, steps: seq<Step>) {
    && (forall k :: 0 <= k < |order| ==> order[k].at < |steps| && steps[order[k].at].tid == order[k].tid)
    && (forall i, j :: 0 <= i < j < |order| ==> order[i].at < order[j].at)
  }

  lemma {:induction false} OrderRespectsTime(s: System, steps: seq<Step>, grace: int)
    ensures InTime(Order(s, steps, grace), steps)
    decreases |steps|
  {
    if steps != [] {
      var before := steps[..|steps| - 1];
      OrderRespectsTime(s, before, grace);
      var prior := Order(s, before, grace);
      var extra := EventOf(Run(s, before, grace, true), steps[|steps| - 1], |before|);
      AppendInTime(prior, before, extra, steps[|steps| - 1]);
      assert before + [steps[|steps| - 1]] == steps;
    }
  }

  lemma AppendInTime(order: seq<Event>, before: seq<Step>, extra: seq<Event>, last: Step)
    requires InTime(order, before)
    requires |extra| <= 1 && forall e :: e in extra ==> e.at == |before| && e.tid == last.tid
    ensures InTime(order + extra, before + [last])
  {
    assert |extra| == 1 ==> extra[0] in extra;
  }

  /** The event's step is the very one at which its caller's operation takes effect. */
  ghost predicate EffectsAt(s: System, steps: seq<Step>, e: Event, grace: int) {
    && e.at < |steps|
    && NotYet(Run(s, steps[..e.at], grace, true), e.tid)
    && Already(Run(s, steps[..e.at + 1], grace, true), e.tid)
  }

  predicate NotYet(s: System, tid: ThreadId) { tid in s.threads && !Effective(s.threads[tid]) }

  predicate Already(s: System, tid: ThreadId) { tid in s.threads && Effective(s.threads[tid]) }

  lemma EventTakesEffect(s: System, step: Step, at: nat, grace: int)
    requires EventOf(s, step, at) != []
    ensures EventOf(s, step, at)[0].at == at
    ensures NotYet(s, EventOf(s, step, at)[0].tid) && Already(Next(s, step, grace, true), EventOf(s, step, at)[0].tid)
  {
  }

  lemma {:induction false} EventsTakeEffect(s: System, steps: seq<Step>, grace: int)
    ensures forall k :: 0 <= k < |Order(s, steps, grace)| ==> EffectsAt(s, steps, Order(s, steps, grace)[k], grace)
    decreases |steps|
  {
    if steps != [] {
      var n := |steps| - 1;
      var before, prior := steps[..n], Order(s, steps[..n], grace);
      EventsTakeEffect(s, before, grace);
      forall k | 0 <= k < |Order(s, steps, grace)| ensures EffectsAt(s, steps, Order(s, steps, grace)[k], grace) {
        if k < |prior| {
          EffectsStay(s, steps, prior[k], grace);
        } else {
          EventTakesEffect(Run(s, before, grace, true), steps[n], n, grace);
          assert steps[..n + 1] == steps;
        }
      }
    }
  }

  lemma EffectsStay(s: System, steps: seq<Step>, e: Event, grace: int)
    requires steps != [] && EffectsAt(s, steps[..|steps| - 1], e, grace)
    ensures EffectsAt(s, steps, e, grace)
  {
    var before := steps[..|steps| - 1];
    assert before[..e.at] == steps[..e.at] && before[..e.at + 1] == steps[..e.at + 1];
  }

  lemma StepKeepsProgress(s: System, step: Step, tid: ThreadId, grace: int)
    ensures tid in s.threads ==> tid in Next(s, step, grace, true).threads
    ensures Already(s, tid) ==> Already(Next(s, step, grace, true), tid)
  {
  }

  /** A caller once present stays present, and an operation once in effect stays so. */
  lemma {:induction false} ProgressStays(s: System, steps: seq<Step>, p: nat, q: nat, tid: ThreadId, grace: int)
    requires p <= q <= |steps|
    ensures tid in Run(s, steps[..p], grace, true).threads ==> tid in Run(s, steps[..q], grace, true).threads
    ensures Already(Run(s, steps[..p], grace, true), tid) ==> Already(Run(s, steps[..q], grace, true), tid)
    decreases q - p
  {
    if p < q {
      ProgressStays(s, steps, p, q - 1, tid, grace);
      RunStep(s, steps, q - 1, grace, true);
      StepKeepsProgress(Run(s, steps[..q - 1], grace, true), steps[q - 1], tid, grace);
    }
  }

  /** At some point of the run `a` had finished and `b` had not yet been called. */
  ghost predicate Precedes(s: System, steps: seq<Step>, a: ThreadId, b: ThreadId, p: nat, grace: int) {
    && p <= |steps|
    && a in Run(s, steps[..p], grace, true).threads && Run(s, steps[..p], grace, true).threads[a].stage.Finished?
    && b !in Run(s, steps[..p], grace, true).threads
  }

  /** The order agrees with real time: an operation that had finished before another was called comes first. */
  ghost predicate RealTime(s: System, steps: seq<Step>, order: seq<Event>, grace: int) {
    forall i, j, p :: 0 <= i < |order| && 0 <= j < |order| && Precedes(s, steps, order[i].tid, order[j].tid, p, grace) ==> i < j
  }

  lemma FinishedComesFirst(s: System, steps: seq<Step>, order: seq<Event>, i: nat, j: nat, p: nat, grace: int)
    requires i < |order| && j < |order| && InTime(order, steps)
    requires EffectsAt(s, steps, order[i], grace) && EffectsAt(s, steps, order[j], grace)
    requires Precedes(s, steps, order[i].tid, order[j].tid, p, grace)
    ensures i < j
  {
    if p <= order[i].at {
      ProgressStays(s, steps, p, order[i].at, order[i].tid, grace);
    }
    if order[j].at < p {
      ProgressStays(s, steps, order[j].at, p, order[j].tid, grace);
    }
    assert order[i].at < p <= order[j].at;
  }

  lemma OrderIsRealTime(s: System, steps: seq<Step>, grace: int)
    ensures RealTime(s, steps, Order(s, steps, grace), grace)
  {
    var order := Order(s, steps, grace);
    OrderRespectsTime(s, steps, grace);
    EventsTakeEffect(s, steps, grace);
    forall i, j, p | 0 <= i < |order| && 0 <= j < |order| && Precedes(s, steps, order[i].tid, order[j].tid, p, grace)
      ensures i < j
    {
      FinishedComesFirst(s, steps, order, i, j, p, grace);
    }
  }

  /** Every finished caller got the answer of one place in the order. */
  ghost predicate AnswersComeFrom(init: Families, s: System, order: seq<Event>, grace: int) {
    forall tid :: tid in s.threads && s.threads[tid].stage.Finished? ==> exists k :: AnsweredAt(init, s, order, tid, k, grace)
  }

  ghost predicate AnsweredAt(init: Families, s: System, order: seq<Event>, tid: ThreadId, k: nat, grace: int) {
    && k < |order| && order[k].tid == tid && tid in s.threads && s.threads[tid].stage.Finished?
    && order[k].call == s.threads[tid].call
    && ReplyAt(init, order, k, grace) == s.threads[tid].stage.reply
  }

  lemma ExplainedAnswers(init: Families, s: System, order: seq<Event>, grace: int)
    requires Explains(init, s, order, grace)
    ensures AnswersComeFrom(init, s, order, grace)
  {
    forall tid | tid in s.threads && s.threads[tid].stage.Finished?
      ensures exists k :: AnsweredAt(init, s, order, tid, k, grace)
    {
      assert Effective(s.threads[tid]);
      var k :| 0 <= k < |order| && order[k].tid == tid;
      assert Accounted(init, s, order, order[k].tid, k, grace);
      assert AnsweredAt(init, s, order, tid, k, grace);
    }
  }

  /**
   Linearizability. After any interleaving of any callers' steps, running the operations of `Order`
   one after another from the same initial store gives the same store; every caller that has finished
   got exactly the answer of its place in that order, and no caller has two places; each operation's place
   is the step at which it takes effect; and an operation that had finished before another was called comes
   first.
   */
  lemma EveryInterleavingIsSequential(init: Families, steps: seq<Step>, grace: int)
    requires WellKeyed(init)
    ensures var s := Run(Start(init), steps, grace, true);
            var order := Order(Start(init), steps, grace);
            && Replay(init, order, grace) == s.families
            && AnswersComeFrom(init, s, order, grace)
            && (forall i, j :: 0 <= i < j < |order| ==> order[i].tid != order[j].tid)
            && (forall k :: 0 <= k < |order| ==> EffectsAt(Start(init), steps, order[k], grace))
            && RealTime(Start(init), steps, order, grace)
  {
    RunIsExplained(init, steps, grace);
    EventsTakeEffect(Start(init), steps, grace);
    OrderIsRealTime(Start(init), steps, grace);
    ExplainedAnswers(init, Run(Start(init), steps, grace, true), Order(Start(init), steps, grace), grace);
  }

  // ---- What the mutex is for ----

  /** Two rotations of the same current token that both read before either saves. */
  function RaceSteps(a: Token): seq<Step> {
    var call := Call(Operation.Rotate(a), 7);
    [Spawn(1, call), Spawn(2, call), Acquire(1), Acquire(2), Read(1, true), Read(2, true),
     Decide(1, 0, Token(1), true), Decide(2, 0, Token(2), true)]
  }

  lemma RunStep(s: System, steps: seq<Step>, k: nat, grace: int, locking: bool)
    requires k < |steps|
    ensures Run(s, steps[..k + 1], grace, locking) == Next(Run(s, steps[..k], grace, locking), steps[k], grace, locking)
  {
    assert steps[..k + 1][..k] == steps[..k];
  }

  function RaceStart(a: Token): Families {
    map[7 := Family(7, HashOf(a), NoHash, 0, false, 1, false, "")]
  }

  /** The store is as it began and both callers stand at the given stage. */
  predicate BothAt(s: System, one: Stage, two: Stage) {
    && s.families == RaceStart(Token(0))
    && s.threads.Keys == {1, 2}
    && s.threads[1] == Thread(Call(Operation.Rotate(Token(0)), 7), one)
    && s.threads[2] == Thread(Call(Operation.Rotate(Token(0)), 7), two)
  }

  lemma RaceSpawns(grace: int)
    ensures BothAt(Run(Start(RaceStart(Token(0))), RaceSteps(Token(0))[..2], grace, false), Ready, Ready)
  {
    var steps, s0 := RaceSteps(Token(0)), Start(RaceStart(Token(0)));
    RunStep(s0, steps, 0, grace, false);
    RunStep(s0, steps, 1, grace, false);
  }

  /** Spawned, locked and read: a step of one caller without the mutex. */
  lemma RaceStep(s: System, one: Stage, two: Stage, step: Step, grace: int)
    requires BothAt(s, one, two) && (step.tid == 1 || step.tid == 2) && (step.Acquire? || step.Read?)
    ensures var stage := if step.tid == 1 then one else two;
            var after := if step.Acquire? && stage.Ready? then Locked
                         else if step.Read? && stage.Locked? then
                           Loaded(step.readOk, if step.readOk then Some(RaceStart(Token(0))[7]) else None)
                         else stage;
            BothAt(Next(s, step, grace, false), if step.tid == 1 then after else one, if step.tid == 2 then after else two)
  {
  }

  lemma RaceAdvance(k: nat, one: Stage, two: Stage, grace: int)
    requires 2 <= k < 6
    requires BothAt(Run(Start(RaceStart(Token(0))), RaceSteps(Token(0))[..k], grace, false), one, two)
    ensures var step := RaceSteps(Token(0))[k];
            var stage := if step.tid == 1 then one else two;
            var after := if step.Acquire? && stage.Ready? then Locked
                         else if step.Read? && stage.Locked? then Loaded(true, Some(RaceStart(Token(0))[7]))
                         else stage;
            BothAt(Run(Start(RaceStart(Token(0))), RaceSteps(Token(0))[..k + 1], grace, false),
                   if step.tid == 1 then after else one, if step.tid == 2 then after else two)
  {
    RunStep(Start(RaceStart(Token(0))), RaceSteps(Token(0)), k, grace, false);
    RaceStep(Run(Start(RaceStart(Token(0))), RaceSteps(Token(0))[..k], grace, false), one, two, RaceSteps(Token(0))[k], grace);
  }

  lemma RaceAcquires(grace: int)
    ensures BothAt(Run(Start(RaceStart(Token(0))), RaceSteps(Token(0))[..4], grace, false), Locked, Locked)
  {
    RaceSpawns(grace);
    RaceAdvance(2, Ready, Ready, grace);
    RaceAdvance(3, Locked, Ready, grace);
  }

  /** Without the mutex both callers read the row before either has saved. */
  lemma RaceReads(grace: int)
    ensures var view := Loaded(true, Some(RaceStart(Token(0))[7]));
            BothAt(Run(Start(RaceStart(Token(0))), RaceSteps(Token(0))[..6], grace, false), view, view)
  {
    var view := Loaded(true, Some(RaceStart(Token(0))[7]));
    RaceAcquires(grace);
    RaceAdvance(4, Locked, Locked, grace);
    RaceAdvance(5, view, Locked, grace);
  }

  lemma RaceDecides(grace: int)
    ensures var s := Run(Start(RaceStart(Token(0))), RaceSteps(Token(0)), grace, false);
            && 1 in s.threads && s.threads[1].stage == Answered(Granted(Rotated, Token(1), 2))
            && 2 in s.threads && s.threads[2].stage == Answered(Granted(Rotated, Token(2), 2))
  {
    var steps, s0 := RaceSteps(Token(0)), Start(RaceStart(Token(0)));
    RaceReads(grace);
    RunStep(s0, steps, 6, grace, false);
    RunStep(s0, steps, 7, grace, false);
    assert steps[..8] == steps;
  }

  /** One after the other, two rotations never both take the normal path with the same token. */
  lemma NoOrderRotatesTwice(init: Families, e1: Event, e2: Event, a: Token, grace: int)
    requires WellKeyed(init)
    requires e1.call == e2.call == Call(Operation.Rotate(a), 7) && e1.minted != a
    ensures !(ReplyAt(init, [e1, e2], 0, grace).Granted? && ReplyAt(init, [e1, e2], 0, grace).outcome == Rotated
              && ReplyAt(init, [e1, e2], 1, grace).Granted? && ReplyAt(init, [e1, e2], 1, grace).outcome == Rotated)
  {
    assert [e1, e2][..0] == [] && [e1, e2][..1] == [e1];
    assert Replay(init, [e1], grace) == Effect(init, e1, grace).0 by {
      assert [e1][..0] == [];
    }
  }

  /**
   The mutex is what this rests on: with it taken out, two rotations both take the normal path with
   the same token, an outcome that no sequential order of the two gives, whatever their clocks, reads
   and saves.
   */
  lemma WithoutTheMutexThereIsNoOrder(grace: int)
    ensures var call := Call(Operation.Rotate(Token(0)), 7);
            var init := RaceStart(Token(0));
            var s := Run(Start(init), RaceSteps(Token(0)), grace, false);
            && WellKeyed(init)
            && 1 in s.threads && s.threads[1].stage == Answered(Granted(Rotated, Token(1), 2))
            && 2 in s.threads && s.threads[2].stage == Answered(Granted(Rotated, Token(2), 2))
            && (forall e1: Event, e2: Event {:trigger [e1, e2]} :: e1.call == e2.call == call && e1.minted != Token(0) ==>
                  !(ReplyAt(init, [e1, e2], 0, grace).Granted? && ReplyAt(init, [e1, e2], 0, grace).outcome == Rotated
                    && ReplyAt(init, [e1, e2], 1, grace).Granted? && ReplyAt(init, [e1, e2], 1, grace).outcome == Rotated))
  {
    var call := Call(Operation.Rotate(Token(0)), 7);
    var init := RaceStart(Token(0));
    RaceDecides(grace);
    forall e1: Event, e2: Event | e1.call == e2.call == call && e1.minted != Token(0)
      ensures !(ReplyAt(init, [e1, e2], 0, grace).Granted? && ReplyAt(init, [e1, e2], 0, grace).outcome == Rotated
                && ReplyAt(init, [e1, e2], 1, grace).Granted? && ReplyAt(init, [e1, e2], 1, grace).outcome == Rotated)
    {
      NoOrderRotatesTwice(init, e1, e2, Token(0), grace);
    }
  }

  // ---- Nobody waits for ever ----

  /** Every held mutex has its caller inside. */
  ghost predicate NoneLeftHeld(s: System) {
    forall b :: b in s.held ==>
      s.held[b] in s.threads && Holding(s.threads[s.held[b]]) && s.threads[s.held[b]].call.bridge == b
  }

  lemma NextLeavesNoneHeld(s: System, step: Step, grace: int)
    requires LockInv(s) && NoneLeftHeld(s)
    ensures NoneLeftHeld(Next(s, step, grace, true))
  {
  }

  lemma {:induction false} NoMutexIsLeftHeld(s: System, steps: seq<Step>, grace: int)
    requires LockInv(s) && NoneLeftHeld(s)
    ensures LockInv(Run(s, steps, grace, true)) && NoneLeftHeld(Run(s, steps, grace, true))
    decreases |steps|
  {
    if steps != [] {
      var before := steps[..|steps| - 1];
      NoMutexIsLeftHeld(s, before, grace);
      NextKeepsLockInv(Run(s, before, grace, true), steps[|steps| - 1], grace);
      NextLeavesNoneHeld(Run(s, before, grace, true), steps[|steps| - 1], grace);
    }
  }

  /** One caller goes on alone: it gets its mutex and reads, and then it saves, answers and lets go. */
  function GoneIn(s: System, tid: ThreadId, grace: int): System {
    Next(Next(s, Acquire(tid), grace, true), Read(tid, true), grace, true)
  }

  function GoneOut(s: System, tid: ThreadId, now: int, minted: Token, grace: int): System {
    Next(Next(s, Decide(tid, now, minted, true), grace, true), Release(tid), grace, true)
  }

  function Through(s: System, tid: ThreadId, now: int, minted: Token, grace: int): System {
    GoneOut(GoneIn(s, tid, grace), tid, now, minted, grace)
  }

  /** Only this caller's stage differs. */
  ghost predicate OnlyAdvances(s: System, t: System, tid: ThreadId) {
    && tid in s.threads && tid in t.threads && t.threads[tid].call == s.threads[tid].call
    && (forall other :: other in s.threads && other != tid ==> other in t.threads && t.threads[other] == s.threads[other])
  }

  lemma GetsIn(s: System, tid: ThreadId, grace: int)
    requires tid in s.threads
    requires s.threads[tid].stage.Ready? && NeedsLock(s.threads[tid].call.op) ==> s.threads[tid].call.bridge !in s.held
    ensures var t := GoneIn(s, tid, grace);
            && OnlyAdvances(s, t, tid)
            && (t.threads[tid].stage.Loaded? || t.threads[tid].stage.Answered? || t.threads[tid].stage.Finished?)
            && (Holding(s.threads[tid]) ==> Holding(t.threads[tid]))
  {
  }

  lemma GetsOut(s: System, tid: ThreadId, now: int, minted: Token, grace: int)
    requires tid in s.threads && !s.threads[tid].stage.Ready? && !s.threads[tid].stage.Locked?
    ensures var t := GoneOut(s, tid, now, minted, grace);
            && OnlyAdvances(s, t, tid) && t.threads[tid].stage.Finished?
            && (Holding(s.threads[tid]) ==> s.threads[tid].call.bridge !in t.held)
  {
  }

  /** A caller that is inside its mutex, finds it free or needs none gets through, and leaves it free. */
  lemma GetsThrough(s: System, tid: ThreadId, now: int, minted: Token, grace: int)
    requires tid in s.threads
    requires s.threads[tid].stage.Ready? && NeedsLock(s.threads[tid].call.op) ==> s.threads[tid].call.bridge !in s.held
    ensures var t := Through(s, tid, now, minted, grace);
            && OnlyAdvances(s, t, tid) && t.threads[tid].stage.Finished?
            && (Holding(s.threads[tid]) ==> s.threads[tid].call.bridge !in t.held)
  {
    GetsIn(s, tid, grace);
    GetsOut(GoneIn(s, tid, grace), tid, now, minted, grace);
  }

  /**
   From every reachable state every caller can still be answered: whoever holds its mutex can go through to the end,
   and then it can.
   */
  lemma EveryCallerCanFinish(s: System, steps: seq<Step>, grace: int, tid: ThreadId, now: int, minted: Token, later: int, next: Token)
    requires LockInv(s) && NoneLeftHeld(s) && tid in Run(s, steps, grace, true).threads
    ensures var u := Run(s, steps, grace, true);
            var b := u.threads[tid].call.bridge;
            var v := if b in u.held then Through(u, u.held[b], now, minted, grace) else u;
            var w := Through(v, tid, later, next, grace);
            tid in w.threads && w.threads[tid].stage.Finished? && w.threads[tid].call == u.threads[tid].call
  {
    NoMutexIsLeftHeld(s, steps, grace);
    var u := Run(s, steps, grace, true);
    var b := u.threads[tid].call.bridge;
    if b in u.held {
      GetsThrough(u, u.held[b], now, minted, grace);
      GetsThrough(Through(u, u.held[b], now, minted, grace), tid, later, next, grace);
    } else {
      GetsThrough(u, tid, later, next, grace);
    }
  }
}
