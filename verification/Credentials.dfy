/**
 The Host's half of the rotating refresh credential: the record kept for one Bridge, the five
 operations on it, and what a whole sequence of presentations can and cannot obtain.

 A token is identified by the serial of the call that minted it, so two mintings never agree, and
 its stored hash is an injective image of it. `NoHash` is the empty string the source stores for
 "no such token".
 */
module Credentials {
  import opened Wrappers

  /** Identifiers are opaque: only their equality is used. */
  type BridgeId = nat

  datatype Token = Token(serial: nat)

  datatype Hash = NoHash | HashOf(token: Token)

  /** One Bridge's credential family. `issuedAt` says when `previous` stopped being current. */
  datatype Family = Family(
    bridge: BridgeId,
    current: Hash,
    previous: Hash,
    issuedAt: int,
    consumed: bool,
    generation: nat,
    revoked: bool,
    reason: string)

  datatype AuthError = UnknownToken | FamilyRevoked | ReuseDetected | WrongBridge | StoreFailed

  datatype Outcome = Rotated | Recovered

  datatype Reply =
    | Granted(outcome: Outcome, refresh: Token, generation: nat)
    | Issued(token: Token)
    | Done
    | Refused(error: AuthError)

  datatype Operation =
    | Rotate(presented: Token)
    | Authenticate(presented: Token)
    | Revoke(reason: string)
    | ReEnroll
    | Enroll

  /** What an operation decides once it has loaded the family: answer at once, or save and answer. */
  datatype Plan =
    | Answer(reply: Reply)
    | Commit(next: Family, reply: Reply)

  const GRACE_WINDOW: int := 45_000_000_000

  const PRESENTED_TWICE := "the previous credential was presented twice"

  const PRESENTED_LATE := "the previous credential was presented after the recovery window closed"

  /** The window in force: a configured positive value, or the default. Nanoseconds. */
  function Grace(configured: int): (window: int)
    ensures window > 0
    ensures configured >= 1 ==> window == configured
    ensures configured < 1 ==> window == 45 * 1_000_000_000
  {
    if configured > 0 then configured else GRACE_WINDOW
  }

  function Ended(f: Family, reason: string): Family {
    f.(revoked := true, reason := reason, current := NoHash, previous := NoHash)
  }

  function PlanRotate(bridge: BridgeId, loaded: Option<Family>, presented: Token, now: int, grace: int, minted: Token): Plan {
    match loaded
    case None => Answer(Refused(UnknownToken))
    case Some(f) =>
      if f.revoked then Answer(Refused(FamilyRevoked))
      else if f.bridge != bridge then Answer(Refused(WrongBridge))
      else if HashOf(presented) == f.current then
        Commit(f.(previous := f.current, issuedAt := now, consumed := false,
                  current := HashOf(minted), generation := f.generation + 1),
               Granted(Rotated, minted, f.generation + 1))
      else if HashOf(presented) == f.previous then
        if f.consumed then Commit(Ended(f, PRESENTED_TWICE), Refused(ReuseDetected))
        else if now - f.issuedAt > grace then Commit(Ended(f, PRESENTED_LATE), Refused(ReuseDetected))
        else Commit(f.(consumed := true, current := HashOf(minted), generation := f.generation + 1),
                    Granted(Recovered, minted, f.generation + 1))
      else Answer(Refused(UnknownToken))
  }

  function PlanAuthenticate(bridge: BridgeId, loaded: Option<Family>, presented: Token): Plan {
    match loaded
    case None => Answer(Refused(UnknownToken))
    case Some(f) =>
      if f.revoked then Answer(Refused(FamilyRevoked))
      else if f.bridge != bridge then Answer(Refused(WrongBridge))
      else if HashOf(presented) != f.current then Answer(Refused(UnknownToken))
      else Answer(Done)
  }

  function PlanFor(op: Operation, bridge: BridgeId, loaded: Option<Family>, now: int, grace: int, minted: Token): Plan {
    match op
    case Rotate(presented) => PlanRotate(bridge, loaded, presented, now, grace, minted)
    case Authenticate(presented) => PlanAuthenticate(bridge, loaded, presented)
    case Revoke(reason) =>
      if loaded.None? then Answer(Refused(UnknownToken)) else Commit(Ended(loaded.value, reason), Done)
    case ReEnroll =>
      if loaded.None? then Answer(Refused(UnknownToken))
      else Commit(loaded.value.(revoked := false, reason := "", current := HashOf(minted), previous := NoHash,
                                consumed := false, issuedAt := 0, generation := loaded.value.generation + 1),
                  Issued(minted))
    case Enroll =>
      Commit(Family(bridge, HashOf(minted), NoHash, 0, false, 1, false, ""), Issued(minted))
  }

  type Families = map<BridgeId, Family>

  function Lookup(families: Families, bridge: BridgeId): Option<Family> {
    if bridge in families then Some(families[bridge]) else None
  }

  /** A store keyed by Bridge: every row carries its own key. */
  ghost predicate WellKeyed(families: Families) {
    forall b :: b in families ==> families[b].bridge == b
  }

  /** The store and the answer after a plan, when its save succeeds or not. */
  function Carry(families: Families, plan: Plan, saveOk: bool): (Families, Reply) {
    match plan
    case Answer(reply) => (families, reply)
    case Commit(next, reply) =>
      if saveOk then (families[next.bridge := next], reply) else (families, Refused(StoreFailed))
  }

  /**
   One whole operation as if nothing else ran: load, decide, save. `readOk` is false when the read
   fails, which the source reports as an absent family.
   */
  function Atomic(families: Families, op: Operation, bridge: BridgeId, readOk: bool, now: int, grace: int,
                  minted: Token, saveOk: bool): (Families, Reply)
  {
    var loaded := if readOk then Lookup(families, bridge) else None;
    Carry(families, PlanFor(op, bridge, loaded, now, grace, minted), saveOk)
  }

  /** The Host's table of families. Each save either replaces one row or fails and changes nothing. */
  class Store {
    var families: Families

    constructor ()
      ensures families == map[]
    {
      families := map[];
    }

    method Load(bridge: BridgeId, readOk: bool) returns (loaded: Option<Family>)
      ensures loaded == if readOk then Lookup(families, bridge) else None
    {
      if readOk && bridge in families {
        loaded := Some(families[bridge]);
      } else {
        loaded := None;
      }
    }

    method Save(state: Family, saveOk: bool) returns (stored: bool)
      modifies this
      ensures stored == saveOk
      ensures families == if saveOk then old(families)[state.bridge := state] else old(families)
    {
      if saveOk {
        families := families[state.bridge := state];
      }
      stored := saveOk;
    }
  }

  /**
   The Host's verifier. The clock reading, the minted token and whether the store's read and write
   succeed are inputs of each call.
   */
  class Verifier {
    const store: Store
    const configuredGrace: int

    constructor (store: Store, configuredGrace: int)
      ensures this.store == store && this.configuredGrace == configuredGrace
    {
      this.store := store;
      this.configuredGrace := configuredGrace;
    }

    method Enroll(bridge: BridgeId, minted: Token, saveOk: bool) returns (reply: Reply)
      modifies store
      ensures (store.families, reply) == Atomic(old(store.families), Operation.Enroll, bridge, true, 0, Grace(configuredGrace), minted, saveOk)
    {
      var stored := store.Save(Family(bridge, HashOf(minted), NoHash, 0, false, 1, false, ""), saveOk);
      reply := if stored then Issued(minted) else Refused(StoreFailed);
    }

    method Rotate(bridge: BridgeId, presented: Token, now: int, minted: Token, readOk: bool, saveOk: bool) returns (reply: Reply)
      modifies store
      ensures (store.families, reply)
           == Atomic(old(store.families), Operation.Rotate(presented), bridge, readOk, now, Grace(configuredGrace), minted, saveOk)
    {
      var loaded := store.Load(bridge, readOk);
      if loaded.None? {
        return Refused(UnknownToken);
      }
      var state := loaded.value;
      if state.revoked {
        return Refused(FamilyRevoked);
      }
      if state.bridge != bridge {
        return Refused(WrongBridge);
      }
      var hash := HashOf(presented);
      if hash == state.current {
        state := state.(previous := state.current, issuedAt := now, consumed := false);
        state := state.(current := HashOf(minted), generation := state.generation + 1);
        var stored := store.Save(state, saveOk);
        return if stored then Granted(Rotated, minted, state.generation) else Refused(StoreFailed);
      }
      if state.previous != NoHash && hash == state.previous {
        if state.consumed {
          reply := EndFamily(state, PRESENTED_TWICE, saveOk);
        } else if now - state.issuedAt > Grace(configuredGrace) {
          reply := EndFamily(state, PRESENTED_LATE, saveOk);
        } else {
          state := state.(consumed := true, current := HashOf(minted), generation := state.generation + 1);
          var stored := store.Save(state, saveOk);
          reply := if stored then Granted(Recovered, minted, state.generation) else Refused(StoreFailed);
        }
        return;
      }
      reply := Refused(UnknownToken);
    }

    /** The source's unexported `revoke`: end the family and report the reuse. */
    method EndFamily(state: Family, reason: string, saveOk: bool) returns (reply: Reply)
      modifies store
      ensures store.families == if saveOk then old(store.families)[state.bridge := Ended(state, reason)] else old(store.families)
      ensures reply == Refused(if saveOk then ReuseDetected else StoreFailed)
    {
      var ended := state.(revoked := true, reason := reason);
      ended := ended.(previous := NoHash, current := NoHash);
      var stored := store.Save(ended, saveOk);
      reply := if stored then Refused(ReuseDetected) else Refused(StoreFailed);
    }

    method Authenticate(bridge: BridgeId, presented: Token, readOk: bool) returns (reply: Reply)
      ensures (store.families, reply)
           == Atomic(store.families, Operation.Authenticate(presented), bridge, readOk, 0, Grace(configuredGrace), presented, true)
    {
      var loaded := store.Load(bridge, readOk);
      if loaded.None? {
        return Refused(UnknownToken);
      }
      var state := loaded.value;
      if state.revoked {
        return Refused(FamilyRevoked);
      }
      if state.bridge != bridge {
        return Refused(WrongBridge);
      }
      reply := if HashOf(presented) != state.current then Refused(UnknownToken) else Done;
    }

    method Revoke(bridge: BridgeId, reason: string, readOk: bool, saveOk: bool) returns (reply: Reply)
      modifies store
      ensures (store.families, reply)
           == Atomic(old(store.families), Operation.Revoke(reason), bridge, readOk, 0, Grace(configuredGrace), Token(0), saveOk)
    {
      var loaded := store.Load(bridge, readOk);
      if loaded.None? {
        return Refused(UnknownToken);
      }
      var state := loaded.value.(revoked := true, reason := reason);
      state := state.(current := NoHash, previous := NoHash);
      var stored := store.Save(state, saveOk);
      reply := if stored then Done else Refused(StoreFailed);
    }

    method ReEnroll(bridge: BridgeId, minted: Token, readOk: bool, saveOk: bool) returns (reply: Reply)
      modifies store
      ensures (store.families, reply)
           == Atomic(old(store.families), Operation.ReEnroll, bridge, readOk, 0, Grace(configuredGrace), minted, saveOk)
    {
      var loaded := store.Load(bridge, readOk);
      if loaded.None? {
        return Refused(UnknownToken);
      }
      var state := loaded.value.(revoked := false, reason := "", current := HashOf(minted));
      state := state.(previous := NoHash, consumed := false, issuedAt := 0, generation := state.generation + 1);
      var stored := store.Save(state, saveOk);
      reply := if stored then Issued(minted) else Refused(StoreFailed);
    }
  }

  /** Every operation keeps the store keyed by Bridge, so `WrongBridge` is never reported from it. */
  lemma AtomicKeepsKeys(families: Families, op: Operation, bridge: BridgeId, readOk: bool, now: int, grace: int,
                        minted: Token, saveOk: bool)
    requires WellKeyed(families)
    ensures var (next, reply) := Atomic(families, op, bridge, readOk, now, grace, minted, saveOk);
            && WellKeyed(next)
            && reply != Refused(WrongBridge)
            && (forall b :: b in families && b != bridge ==> b in next && next[b] == families[b])
            && (forall b :: b in next && b != bridge ==> b in families)
  {
  }

  // ---- Whole sequences of presentations against one family ----

  /** One call of `Rotate` by whoever: the token shown, the clock and whether the save succeeded. */
  datatype Presentation = Presentation(token: Token, now: int, saveOk: bool)

  /** The family after one presentation. Call number k mints the token with serial k. */
  function Present(f: Family, p: Presentation, grace: int, minted: Token): (Family, Reply) {
    match PlanRotate(f.bridge, Some(f), p.token, p.now, grace, minted)
    case Answer(reply) => (f, reply)
    case Commit(next, reply) => if p.saveOk then (next, reply) else (f, Refused(StoreFailed))
  }

  function Grants(f: Family, ps: seq<Presentation>, grace: int, serial: nat, t: Token): (n: nat)
    decreases |ps|
  {
    if ps == [] then 0
    else
      var (next, reply) := Present(f, ps[0], grace, Token(serial));
      (if reply.Granted? && ps[0].token == t then 1 else 0) + Grants(next, ps[1..], grace, serial + 1, t)
  }

  /** How many more times a token can still be honoured, read off the two hashes. */
  function Credit(f: Family, t: Token, serial: nat): nat {
    if f.revoked then 0
    else if HashOf(t) == f.current then 2
    else if HashOf(t) == f.previous then (if f.consumed then 0 else 1)
    else if t.serial >= serial then 2
    else 0
  }

  /** The two hashes name tokens already minted. */
  ghost predicate Minted(f: Family, serial: nat) {
    && (f.current.HashOf? ==> f.current.token.serial < serial)
    && (f.previous.HashOf? ==> f.previous.token.serial < serial)
    && (f.current.HashOf? ==> f.current != f.previous)
  }

  /**
   Whoever presents whatever, in any order and at any times, one token is honoured at most twice in
   the life of a family: once as current and once as previous.
   */
  lemma {:induction false} HonouredAtMostTwice(f: Family, ps: seq<Presentation>, grace: int, serial: nat, t: Token)
    requires Minted(f, serial)
    ensures Grants(f, ps, grace, serial, t) <= Credit(f, t, serial) <= 2
    decreases |ps|
  {
    if ps != [] {
      var (next, reply) := Present(f, ps[0], grace, Token(serial));
      HonouredAtMostTwice(next, ps[1..], grace, serial + 1, t);
    }
  }

  /** Once a family is revoked no presentation is ever honoured and the record never changes again. */
  lemma {:induction false} RevocationIsFinal(f: Family, ps: seq<Presentation>, grace: int, serial: nat, t: Token)
    requires f.revoked
    ensures Grants(f, ps, grace, serial, t) == 0
    ensures forall p, minted :: Present(f, p, grace, minted) == (f, Refused(FamilyRevoked))
    decreases |ps|
  {
    if ps != [] {
      RevocationIsFinal(f, ps[1..], grace, serial + 1, t);
    }
  }

  /**
   A presentation ends a live family exactly when it shows the previous token a second time or too
   late, and its save succeeds. In particular a token older than the previous one is only refused:
   the package comment's account of a race, in which the loser's next attempt revokes the family,
   does not hold for the token that the recovery dropped.
   */
  lemma RevokesExactlyOnReuse(f: Family, p: Presentation, grace: int, minted: Token)
    requires !f.revoked && Minted(f, minted.serial)
    ensures Present(f, p, grace, minted).0.revoked
       <==> p.saveOk && HashOf(p.token) == f.previous && (f.consumed || p.now - f.issuedAt > grace)
  {
  }

  /** The dropped token of a recovery: refused as unknown, and the family lives on. */
  lemma DroppedTokenIsOnlyRefused(f: Family, a: Token, t1: int, t2: int, p: Presentation, grace: int, serial: nat)
    requires !f.revoked && f.current == HashOf(a) && Minted(f, serial)
    requires t2 - t1 <= grace && p.token == Token(serial)
    ensures var f1 := Present(f, Presentation(a, t1, true), grace, Token(serial)).0;
            var f2 := Present(f1, Presentation(a, t2, true), grace, Token(serial + 1)).0;
            Present(f2, p, grace, Token(serial + 2)) == (f2, Refused(UnknownToken)) && !f2.revoked
  {
  }

  // ---- Which tokens an operation leaves accepted ----

  /** A Bridge's live check: the reply to `Authenticate` once its family is read. */
  function Checks(families: Families, bridge: BridgeId, t: Token): Reply {
    Atomic(families, Operation.Authenticate(t), bridge, true, 0, GRACE_WINDOW, t, true).1
  }

  /** The live check changes nothing, and accepts exactly the current token of a family that is not revoked. */
  lemma AuthenticateAcceptsOnlyTheCurrentToken(families: Families, bridge: BridgeId, t: Token, readOk: bool, now: int, grace: int,
                                               minted: Token, saveOk: bool)
    requires WellKeyed(families)
    ensures var (next, reply) := Atomic(families, Operation.Authenticate(t), bridge, readOk, now, grace, minted, saveOk);
            && next == families
            && (reply == Done <==>
                  readOk && bridge in families && !families[bridge].revoked && families[bridge].current == HashOf(t))
            && (reply == Refused(FamilyRevoked) <==> readOk && bridge in families && families[bridge].revoked)
            && (reply != Done && reply != Refused(FamilyRevoked) ==> reply == Refused(UnknownToken))
  {
  }

  /** A family under one live token: nothing is left over from before. */
  ghost predicate StartsAfresh(families: Families, bridge: BridgeId, minted: Token, generation: nat) {
    && bridge in families
    && var f := families[bridge];
       f.bridge == bridge && !f.revoked && f.reason == "" && f.current == HashOf(minted) && f.previous == NoHash
       && !f.consumed && f.issuedAt == 0 && f.generation == generation
  }

  /** Enrolment: a family of generation one under the minted token, whatever the Bridge had before; or no change. */
  lemma EnrollStartsAfresh(families: Families, bridge: BridgeId, readOk: bool, now: int, grace: int, minted: Token, saveOk: bool)
    ensures var (next, reply) := Atomic(families, Operation.Enroll, bridge, readOk, now, grace, minted, saveOk);
            if saveOk then reply == Issued(minted) && StartsAfresh(next, bridge, minted, 1)
            else reply == Refused(StoreFailed) && next == families
  {
  }

  /**
   Re-enrolment, the owner's way out of a revocation: a family that was read and saved starts afresh, one
   generation on. An unknown or unreadable family and a failed save change nothing.
   */
  lemma ReEnrollStartsAfresh(families: Families, bridge: BridgeId, readOk: bool, now: int, grace: int, minted: Token, saveOk: bool)
    requires WellKeyed(families)
    ensures var (next, reply) := Atomic(families, Operation.ReEnroll, bridge, readOk, now, grace, minted, saveOk);
            if !readOk || bridge !in families then reply == Refused(UnknownToken) && next == families
            else if !saveOk then reply == Refused(StoreFailed) && next == families
            else reply == Issued(minted) && StartsAfresh(next, bridge, minted, families[bridge].generation + 1)
  {
  }

  /**
   What a family that starts afresh accepts: the minted token passes the live check and is exchanged by the
   normal path, and any other token is refused as unknown, early or late, without ending the family.
   */
  lemma OnlyTheMintedTokenIsAccepted(families: Families, bridge: BridgeId, minted: Token, generation: nat, t: Token,
                                     now: int, grace: int, next: Token, saveOk: bool)
    requires StartsAfresh(families, bridge, minted, generation)
    ensures Checks(families, bridge, t) == if t == minted then Done else Refused(UnknownToken)
    ensures var (after, reply) := Atomic(families, Operation.Rotate(t), bridge, true, now, grace, next, saveOk);
            if t != minted then after == families && reply == Refused(UnknownToken)
            else if !saveOk then after == families && reply == Refused(StoreFailed)
            else reply == Granted(Rotated, next, generation + 1) && Checks(after, bridge, next) == Done
  {
  }

  /** Both enrolments, whatever was stored: of all tokens exactly the minted one is accepted afterwards. */
  lemma EnrolmentLeavesOneToken(families: Families, op: Operation, bridge: BridgeId, now: int, grace: int, minted: Token, t: Token,
                                later: int, next: Token)
    requires WellKeyed(families)
    requires op == Operation.Enroll || (op == Operation.ReEnroll && bridge in families)
    ensures var after := Atomic(families, op, bridge, true, now, grace, minted, true).0;
            var (last, reply) := Atomic(after, Operation.Rotate(t), bridge, true, later, grace, next, true);
            && Checks(after, bridge, t) == (if t == minted then Done else Refused(UnknownToken))
            && (t == minted ==> reply.Granted? && reply.outcome == Rotated && reply.refresh == next)
            && (t != minted ==> reply == Refused(UnknownToken) && last == after && !last[bridge].revoked)
  {
    var after := Atomic(families, op, bridge, true, now, grace, minted, true).0;
    EnrollStartsAfresh(families, bridge, true, now, grace, minted, true);
    ReEnrollStartsAfresh(families, bridge, true, now, grace, minted, true);
    OnlyTheMintedTokenIsAccepted(after, bridge, minted, after[bridge].generation, t, later, grace, next, true);
  }

  /**
   The administrator's revocation: once it is saved no token of the Bridge is accepted by anything, and the
   reason stands in the record. An unknown or unreadable family and a failed save change nothing.
   */
  lemma RevokeLeavesNoToken(families: Families, bridge: BridgeId, reason: string, readOk: bool, saveOk: bool, grace: int, minted: Token,
                            t: Token, now: int, next: Token, again: bool)
    requires WellKeyed(families)
    ensures var (after, reply) := Atomic(families, Operation.Revoke(reason), bridge, readOk, now, grace, minted, saveOk);
            if !readOk || bridge !in families then reply == Refused(UnknownToken) && after == families
            else if !saveOk then reply == Refused(StoreFailed) && after == families
            else
              && reply == Done && bridge in after && after[bridge].revoked && after[bridge].reason == reason
              && after[bridge].current == NoHash && after[bridge].previous == NoHash
              && after[bridge].generation == families[bridge].generation
              && Checks(after, bridge, t) == Refused(FamilyRevoked)
              && Atomic(after, Operation.Rotate(t), bridge, true, now, grace, next, again) == (after, Refused(FamilyRevoked))
  {
  }

  /**
   A rotation by the current token. The new token passes the live check and the old one no longer does; shown
   again, the old one is exchanged within the window and ends the family after it.
   */
  lemma RotationKeepsTheOldTokenForTheWindow(families: Families, bridge: BridgeId, a: Token, at: int, grace: int, b: Token,
                                             t: Token, later: int, c: Token)
    requires WellKeyed(families) && bridge in families && !families[bridge].revoked && families[bridge].current == HashOf(a)
    requires a != b
    ensures var (next, reply) := Atomic(families, Operation.Rotate(a), bridge, true, at, grace, b, true);
            var (last, answer) := Atomic(next, Operation.Rotate(a), bridge, true, later, grace, c, true);
            && reply == Granted(Rotated, b, families[bridge].generation + 1)
            && next[bridge].generation == families[bridge].generation + 1
            && Checks(next, bridge, t) == (if t == b then Done else Refused(UnknownToken))
            && (if later - at <= grace then
                  answer == Granted(Recovered, c, families[bridge].generation + 2)
                  && Checks(last, bridge, t) == (if t == c then Done else Refused(UnknownToken))
                else answer == Refused(ReuseDetected) && Checks(last, bridge, t) == Refused(FamilyRevoked)
                     && last[bridge].reason == "the previous credential was presented after the recovery window closed")
  {
  }

  /**
   A recovery by the previous token is the only one: shown a third time, at whatever moment, that token ends
   the family, and nothing is accepted any more.
   */
  lemma RecoveryIsTheOnlyOne(families: Families, bridge: BridgeId, a: Token, at: int, grace: int, c: Token, t: Token, later: int, d: Token)
    requires WellKeyed(families) && bridge in families && !families[bridge].revoked && families[bridge].previous == HashOf(a)
    requires families[bridge].current != HashOf(a) && !families[bridge].consumed && at - families[bridge].issuedAt <= grace && a != c
    ensures var (next, reply) := Atomic(families, Operation.Rotate(a), bridge, true, at, grace, c, true);
            var (last, answer) := Atomic(next, Operation.Rotate(a), bridge, true, later, grace, d, true);
            && reply == Granted(Recovered, c, families[bridge].generation + 1)
            && next[bridge].generation == families[bridge].generation + 1
            && Checks(next, bridge, t) == (if t == c then Done else Refused(UnknownToken))
            && answer == Refused(ReuseDetected) && Checks(last, bridge, t) == Refused(FamilyRevoked)
            && last[bridge].reason == "the previous credential was presented twice"
  {
  }

  // ---- Whole sequences of operations ----

  /** One call on the Host, by whomever, with what the store does and the token it would mint. */
  datatype HostCall = HostCall(op: Operation, bridge: BridgeId, readOk: bool, now: int, minted: Token, saveOk: bool)

  function Served(families: Families, c: HostCall, grace: int): (Families, Reply) {
    Atomic(families, c.op, c.bridge, c.readOk, c.now, grace, c.minted, c.saveOk)
  }

  function AfterCalls(families: Families, calls: seq<HostCall>, grace: int): Families
    decreases |calls|
  {
    if calls == [] then families else AfterCalls(Served(families, calls[0], grace).0, calls[1..], grace)
  }

  /** A call that enrols a Bridge, again or for the first time, and takes effect. */
  predicate Enrols(c: HostCall, bridge: BridgeId) {
    c.bridge == bridge && c.saveOk && (c.op.Enroll? || (c.op.ReEnroll? && c.readOk))
  }

  /** One call lifts a revocation exactly if it enrols the Bridge. */
  lemma OneCallLiftsExactlyIfItEnrols(families: Families, c: HostCall, grace: int, bridge: BridgeId)
    requires WellKeyed(families) && bridge in families && families[bridge].revoked
    ensures var (next, reply) := Served(families, c, grace);
            && WellKeyed(next) && bridge in next
            && (!next[bridge].revoked <==> Enrols(c, bridge))
            && (c.bridge == bridge && !Enrols(c, bridge) ==> !reply.Granted? && !reply.Issued? && (c.op.Authenticate? ==> reply != Done))
  {
    AtomicKeepsKeys(families, c.op, c.bridge, c.readOk, c.now, grace, c.minted, c.saveOk);
  }

  /**
   Nothing on the automatic path brings a revoked family back: over any sequence of calls on any Bridges, by
   anyone, with any failures of the store, it stays revoked as long as no enrolment of the Bridge takes effect.
   */
  lemma {:induction false} OnlyAnEnrolmentLiftsARevocation(families: Families, calls: seq<HostCall>, grace: int, bridge: BridgeId)
    requires WellKeyed(families) && bridge in families && families[bridge].revoked
    requires forall k :: 0 <= k < |calls| ==> !Enrols(calls[k], bridge)
    ensures var last := AfterCalls(families, calls, grace);
            && WellKeyed(last) && bridge in last && last[bridge].revoked
            && (forall t :: Checks(last, bridge, t) == Refused(FamilyRevoked))
    decreases |calls|
  {
    if calls != [] {
      assert !Enrols(calls[0], bridge);
      assert forall k :: 0 <= k < |calls[1..]| ==> calls[1..][k] == calls[k + 1];
      OneCallLiftsExactlyIfItEnrols(families, calls[0], grace, bridge);
      OnlyAnEnrolmentLiftsARevocation(Served(families, calls[0], grace).0, calls[1..], grace, bridge);
    }
  }
}
