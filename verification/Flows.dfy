/**
 The receiving flow: stage, verify, hand off, wait for ingestion, activate. Every step is recorded in the
 journal before the next is taken, while a moderator may quarantine the transfer at any moment and the
 journal's own writes may fail.
 */
module Flows {
  import opened Wrappers
  import opened Digests
  import opened Destination
  import opened Journals
  import opened Reconcile
  import A = AtomicFiles

  /**
   What one run of the flow meets. `faults` and `moderated` say, for the k-th attempt to advance, what the
   journal's write does and whether a moderator quarantines the transfer just before it; `readable` whether
   the current state can be read. Beyond their ends nothing goes wrong.
   */
  datatype Environment = Environment(
    faults: seq<Fault>,
    moderated: seq<bool>,
    readable: seq<bool>,
    spaceOk: bool,
    receiveOk: bool,
    payload: Digest,
    readBackOk: bool,
    uploader: bool,
    uploadOk: bool,
    publisher: bool,
    publishOk: bool,
    library: bool,
    polls: seq<Poll>,
    manifest: bool,
    republishOk: bool)
  {
    function FaultAt(k: nat): Fault { if k < |faults| then faults[k] else Saving(A.NoFault) }

    function ModeratedAt(k: nat): bool { k < |moderated| && moderated[k] }

    function ReadableAt(k: nat): bool { k < |readable| ==> readable[k] }
  }

  /** What may follow a transfer's path. */
  predicate Welcomes(path: seq<State>, to: State) {
    if path == [] then to == Receiving else Transition(path[|path| - 1], to) == None
  }

  /** A transfer's path after the moderator's turn. */
  function Moderated(path: seq<State>, env: Environment, k: nat): seq<State> {
    if env.ModeratedAt(k) && Welcomes(path, Quarantined) then path + [Quarantined] else path
  }

  /** One attempt to advance: it succeeds exactly on a legal move and a clean write, and records what it reaches. */
  ghost predicate Advances(path: seq<State>, path': seq<State>, to: State, env: Environment, k: nat, ok: bool) {
    var m := Moderated(path, env, k);
    && (ok <==> Welcomes(m, to) && Clean(env.FaultAt(k)))
    && path' == (if Welcomes(m, to) && Reaches(env.FaultAt(k)) then m + [to] else m)
  }

  /** The k-th advance did not record `to`, although the flow goes on to report it. */
  predicate Blocked(env: Environment, k: nat, to: State) {
    if env.ModeratedAt(k) then to != Quarantined else !Reaches(env.FaultAt(k))
  }

  lemma AppendedAt(h: History, e: Entry)
    ensures Path(h + [e]) == Path(h) + [e.to] && (Admits(h, e) <==> Welcomes(Path(h), e.to))
  {
    assert h != [] ==> h[|h| - 1].to == Path(h)[|h| - 1];
  }

  /** What the two checks and one append amount to. */
  lemma Explain(
    path: seq<State>, h: History, h': History, from: Option<State>, to: State, env: Environment, k: nat, ok: bool)
    requires Path(h) == Moderated(path, env, k)
    requires from == if env.ReadableAt(k) then Last(h) else None
    requires if from.Some? && Transition(from.value, to) != None then !ok && h' == h
             else && ok == (Clean(env.FaultAt(k)) && Admits(h, Entry(from, to, 0)))
                  && h' == (if Reaches(env.FaultAt(k)) && Admits(h, Entry(from, to, 0)) then h + [Entry(from, to, 0)] else h)
    ensures Advances(path, Path(h'), to, env, k, ok)
  {
    AppendedAt(h, Entry(from, to, 0));
    assert h != [] ==> h[|h| - 1].to == Path(h)[|h| - 1];
  }

  /** Nothing new is recorded but one state, and the moderator's if there is one. */
  ghost predicate Adds(path: seq<State>, path': seq<State>, to: State, env: Environment) {
    forall s :: s in path' ==> s in path || s == to || (s == Quarantined && true in env.moderated)
  }

  /** An advance that succeeds adds exactly its state to the path; undisturbed, it succeeds when the move is legal. */
  lemma Advanced(path: seq<State>, path': seq<State>, to: State, env: Environment, k: nat, ok: bool)
    requires Advances(path, path', to, env, k, ok)
    ensures ok ==> path' == path + [to] && Welcomes(path, to) && (path != [] ==> !Blocked(env, k, to))
    ensures Calm(env) ==> (ok <==> Welcomes(path, to))
    ensures Adds(path, path', to, env)
  {
  }

  /** A last move from a state that may be quarantined is on record unless the moderator or the write was in its way. */
  lemma Ignored(path: seq<State>, path': seq<State>, to: State, env: Environment, k: nat, ok: bool)
    requires Advances(path, path', to, env, k, ok) && Welcomes(path, to) && path != []
    requires QuarantinableFrom(path[|path| - 1]) && !QuarantinableFrom(to)
    ensures EndsAt(path', to) <==> !Blocked(env, k, to)
  {
  }

  predicate EndsAt(path: seq<State>, s: State) { path != [] && path[|path| - 1] == s }

  /** What the flow reports: a state, or none when it could not classify what happened. */
  datatype Report = Report(state: Option<State>, failed: bool)

  class Flow {
    const mode: Mode
    const journal: FileJournal
    var staged: map<TransferId, Digest>
    /** How many attempts to advance this run has made. */
    var attempts: nat

    constructor (mode: Mode, journal: FileJournal)
      ensures this.mode == mode && this.journal == journal && staged == map[] && attempts == 0
    {
      this.mode, this.journal, staged, attempts := mode, journal, map[], 0;
    }

    /** The states the journal has recorded for a transfer. */
    ghost function Passed(id: TransferId): seq<State>
      reads journal
    {
      Path(Of(journal.files, id))
    }

    /** Before the k-th advance a moderator may quarantine the transfer. */
    method Moderate(id: TransferId, env: Environment, k: nat)
      requires journal.Valid()
      modifies journal`files, journal.store.volume
      ensures journal.Valid()
      ensures Passed(id) == Moderated(old(Passed(id)), env, k)
      ensures forall other :: other != id ==> Of(journal.files, other) == old(Of(journal.files, other))
    {
      if env.ModeratedAt(k) {
        AppendedAt(Of(journal.files, id), Entry(None, Quarantined, 0));
        var _ := journal.Append(id, Entry(None, Quarantined, 0), Saving(A.NoFault), true);
      }
    }

    /** Read the current state, validate the transition and record it. */
    method Attempt(id: TransferId, to: State, env: Environment) returns (ok: bool)
      requires journal.Valid()
      modifies journal`files, journal.store.volume, this`attempts
      ensures journal.Valid()
      ensures attempts == old(attempts) + 1
      ensures Advances(old(Passed(id)), Passed(id), to, env, old(attempts), ok)
      ensures forall other :: other != id ==> Of(journal.files, other) == old(Of(journal.files, other))
    {
      var k := attempts;
      attempts := attempts + 1;
      Moderate(id, env, k);
      ghost var between := Of(journal.files, id);
      var from := journal.Current(id, env.ReadableAt(k));
      if from.Some? && Transition(from.value, to) != None {
        ok := false;
      } else {
        ok := journal.Append(id, Entry(from, to, 0), env.FaultAt(k), true);
      }
      Explain(old(Passed(id)), between, Of(journal.files, id), from, to, env, k, ok);
    }

    /** One attempt, and what it means for the evidence. */
    method Advance(id: TransferId, to: State, env: Environment, ghost e: Expected) returns (ok: bool)
      requires journal.Valid()
      modifies journal`files, journal.store.volume, this`attempts
      ensures journal.Valid()
      ensures attempts == old(attempts) + 1
      ensures ok ==> Passed(id) == old(Passed(id)) + [to] && Welcomes(old(Passed(id)), to)
      ensures ok && old(Passed(id)) != [] ==> !Blocked(env, old(attempts), to)
      ensures Calm(env) ==> (ok <==> Welcomes(old(Passed(id)), to))
      ensures Supported(mode, e, env, old(Passed(id))) && Warrants(mode, e, env, to) ==> Supported(mode, e, env, Passed(id))
      ensures forall other :: other != id ==> Of(journal.files, other) == old(Of(journal.files, other))
    {
      ok := Attempt(id, to, env);
      Advanced(old(Passed(id)), Passed(id), to, env, old(attempts), ok);
      StillSupported(mode, e, env, old(Passed(id)), Passed(id), to);
    }

    /** An advance whose error the flow ignores: it reaches its state exactly when nothing blocks it. */
    method AdvanceAnyway(id: TransferId, to: State, env: Environment, ghost e: Expected)
      requires journal.Valid()
      requires Welcomes(Passed(id), to) && Passed(id) != []
      requires QuarantinableFrom(Passed(id)[|Passed(id)| - 1]) && !QuarantinableFrom(to)
      modifies journal`files, journal.store.volume, this`attempts
      ensures journal.Valid()
      ensures attempts == old(attempts) + 1
      ensures EndsAt(Passed(id), to) <==> !Blocked(env, old(attempts), to)
      ensures Supported(mode, e, env, old(Passed(id))) && Warrants(mode, e, env, to) ==> Supported(mode, e, env, Passed(id))
    {
      var ok := Attempt(id, to, env);
      Ignored(old(Passed(id)), Passed(id), to, env, old(attempts), ok);
      Advanced(old(Passed(id)), Passed(id), to, env, old(attempts), ok);
      StillSupported(mode, e, env, old(Passed(id)), Passed(id), to);
    }

    /**
     The whole flow. A transfer the journal already knows is refused before anything is staged. Whatever
     state is reported is the one the evidence settles, and undisturbed it is always reported. It is the
     journal's last one unless the final advance was blocked, which is exactly when it is not.
     */
    method Receive(id: TransferId, e: Expected, env: Environment) returns (r: Report)
      requires journal.Valid()
      requires env.polls != [] && env.polls[|env.polls| - 1].cancelled
      modifies this, journal`files, journal.store.volume
      ensures journal.Valid()
      ensures r.state.None? ==> r.failed
      ensures old(Passed(id)) != [] ==> r == Report(None, true) && staged == old(staged)
      ensures r.state.Some? ==> r == Settled(mode, e, env)
      ensures Calm(env) && old(Passed(id)) == [] ==> r == Settled(mode, e, env)
      ensures r.state.Some? ==> attempts > 0 && (EndsAt(Passed(id), r.state.value) <==> !Blocked(env, attempts - 1, r.state.value))
      ensures r.state == Some(SourceActive) ==> HandOffState(mode).Some? && Passed(id) == SourcePath(HandOffState(mode).value)
      ensures old(Passed(id)) == [] ==> Supported(mode, e, env, Passed(id))
      ensures r.state.Some? ==> staged == Keeps(old(staged), id, e, env)
    {
      attempts := 0;
      if mode.UnsupportedMode? || !Complete(e) {
        return Report(None, true);
      }
      var done;
      done, r := Stage(id, e, env);
      if done {
        return;
      }
      r := Deliver(id, e, env);
    }

    /** From a verified payload to the end. */
    method Deliver(id: TransferId, e: Expected, env: Environment) returns (r: Report)
      requires journal.Valid()
      requires Passed(id) == [Receiving, VerifiedInStaging] && !mode.UnsupportedMode? && Complete(e)
      requires Supported(mode, e, env, Passed(id)) && Staged(e, env)
      requires env.polls != [] && env.polls[|env.polls| - 1].cancelled
      modifies this`attempts, journal`files, journal.store.volume
      ensures journal.Valid()
      ensures r.state.None? ==> r.failed
      ensures r.state.Some? ==> r == SettledDelivery(mode, e, env)
      ensures Calm(env) ==> r == SettledDelivery(mode, e, env)
      ensures r.state.Some? ==> attempts > 0 && (EndsAt(Passed(id), r.state.value) <==> !Blocked(env, attempts - 1, r.state.value))
      ensures r.state == Some(SourceActive) ==> HandOffState(mode).Some? && Passed(id) == SourcePath(HandOffState(mode).value)
      ensures Supported(mode, e, env, Passed(id))
    {
      var done;
      done, r := HandOff(id, e, env);
      if done {
        return;
      }
      r := Activate(id, e, env);
    }

    /** Steps one to four: begin, stage, verify while staged, record the checkpoint. */
    method Stage(id: TransferId, e: Expected, env: Environment) returns (done: bool, r: Report)
      requires journal.Valid()
      requires attempts == 0 && !mode.UnsupportedMode? && Complete(e)
      modifies this`staged, this`attempts, journal`files, journal.store.volume
      ensures journal.Valid()
      ensures done && r.state.None? ==> r.failed
      ensures old(Passed(id)) != [] ==> done && r == Report(None, true) && staged == old(staged)
      ensures done && r.state.Some? ==>
                && attempts > 0 && SettledStaging(e, env) == Some(r)
                && (EndsAt(Passed(id), r.state.value) <==> !Blocked(env, attempts - 1, r.state.value))
      ensures !done ==> Passed(id) == [Receiving, VerifiedInStaging] && SettledStaging(e, env).None?
      ensures Calm(env) && old(Passed(id)) == [] && done ==> SettledStaging(e, env) == Some(r)
      ensures old(Passed(id)) == [] ==> Supported(mode, e, env, Passed(id))
      ensures r.state.Some? || !done ==> staged == Keeps(old(staged), id, e, env)
    {
      var ok := Advance(id, Receiving, env, e);
      if !ok {
        return true, Report(None, true);
      }
      done, r := Store(id, e, env);
    }

    /** The payload goes into staging if there is room for it and it arrives. */
    method Store(id: TransferId, e: Expected, env: Environment) returns (done: bool, r: Report)
      requires journal.Valid()
      requires !mode.UnsupportedMode? && Complete(e) && Passed(id) == [Receiving]
      modifies this`staged, this`attempts, journal`files, journal.store.volume
      ensures journal.Valid()
      ensures done && r.state.None? ==> r.failed
      ensures done && r.state.Some? ==>
                && attempts > 0 && SettledStaging(e, env) == Some(r)
                && (EndsAt(Passed(id), r.state.value) <==> !Blocked(env, attempts - 1, r.state.value))
      ensures !done ==> Passed(id) == [Receiving, VerifiedInStaging] && SettledStaging(e, env).None?
      ensures Calm(env) && done ==> SettledStaging(e, env) == Some(r)
      ensures Supported(mode, e, env, Passed(id))
      ensures staged == Keeps(old(staged), id, e, env)
    {
      if e.canonical.size > 0 && !env.spaceOk {
        AdvanceAnyway(id, Cancelled, env, e);
        return true, Report(Some(Cancelled), false);
      }
      staged := staged[id := env.payload];
      if !env.receiveOk {
        AdvanceAnyway(id, Cancelled, env, e);
        return true, Report(Some(Cancelled), false);
      }
      done, r := Check(id, e, env);
    }

    /** Steps two to four: the staged bytes are read back and must agree with what was promised. */
    method Check(id: TransferId, e: Expected, env: Environment) returns (done: bool, r: Report)
      requires journal.Valid()
      requires !mode.UnsupportedMode? && Complete(e) && Passed(id) == [Receiving]
      requires id in staged && staged[id] == env.payload
      requires (e.canonical.size > 0 ==> env.spaceOk) && env.receiveOk
      modifies this`staged, this`attempts, journal`files, journal.store.volume
      ensures journal.Valid()
      ensures done && r.state.None? ==> r.failed
      ensures attempts > 0
      ensures done && r.state.Some? ==>
                && r == Report(Some(VerificationConflict), false) && !ReadBack(e, env)
                && (EndsAt(Passed(id), VerificationConflict) <==> !Blocked(env, attempts - 1, VerificationConflict))
      ensures !done ==> Passed(id) == [Receiving, VerifiedInStaging] && ReadBack(e, env)
      ensures Calm(env) && done ==> r.state.Some?
      ensures Supported(mode, e, env, Passed(id))
      ensures staged == if ReadBack(e, env) then old(staged) else old(staged) - {id}
    {
      var verified := env.readBackOk;
      if verified {
        var strength, agrees := CompareFields(staged[id], e.canonical);
        verified := agrees && Digests.Rank(strength) >= Digests.Rank(Strong);
      }
      assert verified == ReadBack(e, env);
      if !verified {
        staged := staged - {id};
        AdvanceAnyway(id, VerificationConflict, env, e);
        return true, Report(Some(VerificationConflict), false);
      }
      var ok := Advance(id, VerifiedInStaging, env, e);
      done, r := !ok, Report(None, true);
    }

    /** Step five: exactly one destination flow. */
    method HandOff(id: TransferId, e: Expected, env: Environment) returns (done: bool, r: Report)
      requires journal.Valid()
      requires Passed(id) == [Receiving, VerifiedInStaging] && !mode.UnsupportedMode?
      requires Supported(mode, e, env, Passed(id)) && Staged(e, env)
      modifies this`attempts, journal`files, journal.store.volume
      ensures journal.Valid()
      ensures done && r.state.None? ==> r.failed
      ensures done && r.state.Some? ==>
                && attempts > 0 && SettledHandOff(mode, env) == Some(r)
                && (EndsAt(Passed(id), r.state.value) <==> !Blocked(env, attempts - 1, r.state.value))
      ensures !done ==>
                Passed(id) == [Receiving, VerifiedInStaging, HandOffState(mode).value] && SettledHandOff(mode, env).None?
      ensures Calm(env) && done ==> SettledHandOff(mode, env) == Some(r)
      ensures Supported(mode, e, env, Passed(id))
    {
      if mode.ApiOnly? {
        done, r := Upload(id, e, env);
      } else {
        done, r := Publish(id, e, env);
      }
    }

    /** API-only mode: the hand-off is recorded first, and then RomM's own upload takes the payload. */
    method Upload(id: TransferId, e: Expected, env: Environment) returns (done: bool, r: Report)
      requires journal.Valid()
      requires Passed(id) == [Receiving, VerifiedInStaging] && mode.ApiOnly?
      requires Supported(mode, e, env, Passed(id)) && Staged(e, env)
      modifies this`attempts, journal`files, journal.store.volume
      ensures journal.Valid()
      ensures done && r.state.None? ==> r.failed
      ensures done && r.state.Some? ==>
                && attempts > 0 && SettledHandOff(mode, env) == Some(r)
                && (EndsAt(Passed(id), r.state.value) <==> !Blocked(env, attempts - 1, r.state.value))
      ensures !done ==>
                Passed(id) == [Receiving, VerifiedInStaging, HandOffState(mode).value] && SettledHandOff(mode, env).None?
      ensures Calm(env) && done ==> SettledHandOff(mode, env) == Some(r)
      ensures Supported(mode, e, env, Passed(id))
    {
      if !env.uploader {
        return true, Report(None, true);
      }
      var ok := Advance(id, UploadingToRomm, env, e);
      if !ok {
        return true, Report(None, true);
      }
      if !env.uploadOk {
        AdvanceAnyway(id, VerificationConflict, env, e);
        return true, Report(Some(VerificationConflict), true);
      }
      done, r := false, Report(None, false);
    }

    /** Publication mode: the payload is put into the library first, and then the hand-off is recorded. */
    method Publish(id: TransferId, e: Expected, env: Environment) returns (done: bool, r: Report)
      requires journal.Valid()
      requires Passed(id) == [Receiving, VerifiedInStaging] && mode.FilesystemPublication?
      requires Supported(mode, e, env, Passed(id)) && Staged(e, env)
      modifies this`attempts, journal`files, journal.store.volume
      ensures journal.Valid()
      ensures done && r.state.None? ==> r.failed
      ensures done && r.state.Some? ==>
                && attempts > 0 && SettledHandOff(mode, env) == Some(r)
                && (EndsAt(Passed(id), r.state.value) <==> !Blocked(env, attempts - 1, r.state.value))
      ensures !done ==>
                Passed(id) == [Receiving, VerifiedInStaging, HandOffState(mode).value] && SettledHandOff(mode, env).None?
      ensures Calm(env) && done ==> SettledHandOff(mode, env) == Some(r)
      ensures Supported(mode, e, env, Passed(id))
    {
      if !env.publisher {
        return true, Report(None, true);
      }
      if !env.publishOk {
        AdvanceAnyway(id, Cancelled, env, e);
        return true, Report(Some(Cancelled), true);
      }
      var ok := Advance(id, PublishedToFilesystem, env, e);
      done, r := !ok, Report(None, !ok);
    }

    /** Wait for RomM to index the item and record what it says. */
    method Wait(id: TransferId, e: Expected, env: Environment) returns (state: Option<State>)
      requires journal.Valid()
      requires !mode.UnsupportedMode? && Complete(e)
      requires Passed(id) == [Receiving, VerifiedInStaging, HandOffState(mode).value]
      requires Supported(mode, e, env, Passed(id)) && Staged(e, env) && HandedOver(mode, env)
      requires env.polls != [] && env.polls[|env.polls| - 1].cancelled
      modifies this`attempts, journal`files, journal.store.volume
      ensures journal.Valid()
      ensures attempts > 0
      ensures state.Some? ==>
                && !Blocked(env, attempts - 1, state.value)
                && Passed(id) == old(Passed(id)) + [AwaitingRommIngestion, state.value]
                && env.library && state.value == Awaited(e, env.polls)
                && state.value in {RommMatched, RommUnmatched, IngestionTimeout}
      ensures Calm(env) ==> (state.Some? <==> env.library)
      ensures Supported(mode, e, env, Passed(id))
    {
      var ok := Advance(id, AwaitingRommIngestion, env, e);
      if !ok {
        return None;
      }
      state := Judge(e, env);
      if state.Some? {
        ok := Record(id, e, env, state.value);
        if !ok {
          return None;
        }
      }
    }

    /** The wait's outcome goes into the journal first. */
    method Record(id: TransferId, e: Expected, env: Environment, state: State) returns (ok: bool)
      requires journal.Valid()
      requires Passed(id) != [] && Passed(id)[|Passed(id)| - 1] == AwaitingRommIngestion
      requires state in {RommMatched, RommUnmatched, IngestionTimeout}
      requires Supported(mode, e, env, Passed(id)) && Warrants(mode, e, env, state)
      modifies this`attempts, journal`files, journal.store.volume
      ensures journal.Valid()
      ensures attempts > 0
      ensures ok ==> Passed(id) == old(Passed(id)) + [state] && !Blocked(env, attempts - 1, state)
      ensures Calm(env) ==> ok
      ensures Supported(mode, e, env, Passed(id))
    {
      ok := Advance(id, state, env, e);
    }

    /** What the poll decides, if it starts at all. */
    method Judge(e: Expected, env: Environment) returns (state: Option<State>)
      requires Complete(e) && env.polls != [] && env.polls[|env.polls| - 1].cancelled
      ensures state == if env.library then Some(Awaited(e, env.polls)) else None
      ensures state.Some? ==> state.value in {RommMatched, RommUnmatched, IngestionTimeout}
    {
      var result := AwaitIngestion(e, env.library, env.polls);
      if result.NotStarted? {
        return None;
      }
      AwaitedIs(e, env.polls, result.attempts - 1);
      state := Some(result.state);
    }

    /** Wait for RomM, republish, activate. */
    method Activate(id: TransferId, e: Expected, env: Environment) returns (r: Report)
      requires journal.Valid()
      requires !mode.UnsupportedMode? && Complete(e)
      requires Passed(id) == [Receiving, VerifiedInStaging, HandOffState(mode).value]
      requires Supported(mode, e, env, Passed(id)) && Staged(e, env) && HandedOver(mode, env)
      requires env.polls != [] && env.polls[|env.polls| - 1].cancelled
      modifies this`attempts, journal`files, journal.store.volume
      ensures journal.Valid()
      ensures r.state.None? ==> r.failed
      ensures r.state.Some? ==> r == SettledEnd(e, env)
      ensures Calm(env) ==> r == SettledEnd(e, env)
      ensures r.state.Some? ==>
                attempts > 0 && (EndsAt(Passed(id), r.state.value) <==> !Blocked(env, attempts - 1, r.state.value))
      ensures r.state == Some(SourceActive) ==> Passed(id) == SourcePath(HandOffState(mode).value)
      ensures Supported(mode, e, env, Passed(id))
    {
      var state := Wait(id, e, env);
      if state.None? {
        return Report(None, true);
      }
      if state.value != RommMatched {
        return Report(state, false);
      }
      r := Republish(id, e, env);
    }

    /** A source is advertised only once the manifest names it. */
    method Republish(id: TransferId, e: Expected, env: Environment) returns (r: Report)
      requires journal.Valid()
      requires EndsAt(Passed(id), RommMatched) && Supported(mode, e, env, Passed(id)) && Warrants(mode, e, env, RommMatched)
      modifies this`attempts, journal`files, journal.store.volume
      ensures journal.Valid()
      ensures r.state.None? ==> r.failed
      ensures attempts > 0
      ensures r.state.Some? ==>
                && r == SettledRepublish(env)
                && (EndsAt(Passed(id), r.state.value) <==> !Blocked(env, attempts - 1, r.state.value))
      ensures r.state == Some(SourceActive) ==> Passed(id) == old(Passed(id)) + [SourceActive]
      ensures Calm(env) ==> r == SettledRepublish(env)
      ensures Supported(mode, e, env, Passed(id))
    {
      if env.manifest && !env.republishOk {
        AdvanceAnyway(id, Quarantined, env, e);
        return Report(Some(Quarantined), true);
      }
      var ok := Advance(id, SourceActive, env, e);
      r := if ok then Report(Some(SourceActive), false) else Report(None, true);
    }
  }

  // ---- The evidence for each phase ----

  /** Nothing disturbs the journal. */
  ghost predicate Calm(env: Environment) {
    forall k: nat :: Clean(env.FaultAt(k)) && !env.ModeratedAt(k)
  }

  /** What was read back agrees on SHA-256 and nothing contradicts it. */
  predicate ReadBack(e: Expected, env: Environment) {
    env.readBackOk && Agrees(env.payload.sha256, e.canonical.sha256) && !Contradicts(env.payload, e.canonical)
  }

  /** The payload fitted, was stored and was read back intact. */
  predicate Staged(e: Expected, env: Environment) {
    !NoRoom(e, env) && env.receiveOk && ReadBack(e, env)
  }

  predicate HandedOver(mode: Mode, env: Environment) {
    if mode.ApiOnly? then env.uploader && env.uploadOk else env.publisher && env.publishOk
  }

  /** The first round that ends the wait is one whose observation proves the match. */
  ghost predicate Matched(e: Expected, env: Environment) {
    exists i: nat :: MatchedAt(e, env, i)
  }

  /** There is no room for a payload of the promised size. */
  predicate NoRoom(e: Expected, env: Environment) { e.canonical.size > 0 && !env.spaceOk }

  /** What a transfer leaves staged: its payload, unless there was no room for it or it was not what was promised. */
  function Keeps(staged: map<TransferId, Digest>, id: TransferId, e: Expected, env: Environment): map<TransferId, Digest> {
    if NoRoom(e, env) then staged
    else if NotAccepted(e, env) then staged - {id}
    else staged[id := env.payload]
  }

  /** What being in a state rests on, whoever reads it from the journal. A moderator may quarantine at any time. */
  predicate Warrants(mode: Mode, e: Expected, env: Environment, s: State) {
    match s
    case Receiving => !mode.UnsupportedMode? && Complete(e)
    case VerifiedInStaging => Staged(e, env)
    case UploadingToRomm => mode.ApiOnly? && Staged(e, env)
    case PublishedToFilesystem => !mode.ApiOnly? && Staged(e, env) && HandedOver(mode, env)
    case AwaitingRommIngestion => Staged(e, env) && HandedOver(mode, env)
    case RommMatched => Proved(mode, e, env)
    case SourceActive => Proved(mode, e, env) && (env.manifest ==> env.republishOk)
    case Cancelled => NoRoom(e, env) || !env.receiveOk || PublicationRefused(mode, e, env)
    case VerificationConflict => NotAccepted(e, env) || UploadFailed(mode, e, env)
    case RommUnmatched => Judged(mode, e, env, RommUnmatched)
    case IngestionTimeout => Judged(mode, e, env, IngestionTimeout)
    case Quarantined => true in env.moderated || (Proved(mode, e, env) && env.manifest && !env.republishOk)
    case Undefined(_) => false
  }

  /** The payload arrived and its bytes are not what was promised. */
  predicate NotAccepted(e: Expected, env: Environment) { !NoRoom(e, env) && env.receiveOk && !ReadBack(e, env) }

  predicate UploadFailed(mode: Mode, e: Expected, env: Environment) {
    Staged(e, env) && mode.ApiOnly? && env.uploader && !env.uploadOk
  }

  predicate PublicationRefused(mode: Mode, e: Expected, env: Environment) {
    Staged(e, env) && !mode.ApiOnly? && env.publisher && !env.publishOk
  }

  /** Stored, read back, handed over, and then judged by RomM. */
  predicate Judged(mode: Mode, e: Expected, env: Environment, s: State) {
    Staged(e, env) && HandedOver(mode, env) && env.library && Awaited(e, env.polls) == s
  }

  /** Stored, read back, handed over and recognised. */
  predicate Proved(mode: Mode, e: Expected, env: Environment) {
    Judged(mode, e, env, RommMatched)
  }

  /** Every state the journal holds has its evidence, whether or not the flow came to report it. */
  ghost predicate Supported(mode: Mode, e: Expected, env: Environment, path: seq<State>) {
    forall s :: s in path ==> Warrants(mode, e, env, s)
  }

  lemma StillSupported(mode: Mode, e: Expected, env: Environment, path: seq<State>, path': seq<State>, to: State)
    requires Adds(path, path', to, env)
    ensures Supported(mode, e, env, path) && Warrants(mode, e, env, to) ==> Supported(mode, e, env, path')
  {
  }

  /** RomM shows the item with a full identity. */
  predicate Identified(p: Poll) { p.answer.Some? && p.answer.value.present && p.answer.value.canonical.sha256 != "" }

  /** The wait is given up: no answer after the deadline, the deadline at the end of the round, or the caller. */
  predicate GivenUp(p: Poll) { (p.answer.None? && p.past) || p.reached || p.cancelled }

  /** Round i is the first in which RomM identifies the item or the wait is given up. */
  ghost predicate DecidesAt(env: Environment, i: nat) {
    && i < |env.polls| && (Identified(env.polls[i]) || GivenUp(env.polls[i]))
    && (forall j :: 0 <= j < i ==> !Identified(env.polls[j]) && !GivenUp(env.polls[j]))
  }

  ghost predicate MatchedAt(e: Expected, env: Environment, i: nat) {
    DecidesAt(env, i) && Identified(env.polls[i]) && Proves(e, env.polls[i].answer.value)
  }

  ghost predicate UnmatchedAt(e: Expected, env: Environment, i: nat) {
    DecidesAt(env, i) && Identified(env.polls[i]) && !Proves(e, env.polls[i].answer.value)
  }

  ghost predicate TimedOutAt(env: Environment, i: nat) { DecidesAt(env, i) && !Identified(env.polls[i]) }

  // ---- What the evidence settles ----

  /** No room or no payload cancels; bytes that do not agree are a conflict; otherwise the flow goes on. */
  function SettledStaging(e: Expected, env: Environment): Option<Report> {
    if (e.canonical.size > 0 && !env.spaceOk) || !env.receiveOk then Some(Report(Some(Cancelled), false))
    else if !ReadBack(e, env) then Some(Report(Some(VerificationConflict), false))
    else None
  }

  /** A failed upload is already past the hand-off; a refused publication is not. */
  function SettledHandOff(mode: Mode, env: Environment): Option<Report> {
    if mode.ApiOnly? then
      if !env.uploader then Some(Report(None, true))
      else if !env.uploadOk then Some(Report(Some(VerificationConflict), true))
      else None
    else if !env.publisher then Some(Report(None, true))
    else if !env.publishOk then Some(Report(Some(Cancelled), true))
    else None
  }

  function SettledRepublish(env: Environment): Report {
    if env.manifest && !env.republishOk then Report(Some(Quarantined), true) else Report(Some(SourceActive), false)
  }

  function SettledEnd(e: Expected, env: Environment): Report {
    if !env.library then Report(None, true)
    else if Awaited(e, env.polls) != RommMatched then Report(Some(Awaited(e, env.polls)), false)
    else SettledRepublish(env)
  }

  function Settled(mode: Mode, e: Expected, env: Environment): Report {
    if mode.UnsupportedMode? || !Complete(e) then Report(None, true)
    else if SettledStaging(e, env).Some? then SettledStaging(e, env).value
    else SettledDelivery(mode, e, env)
  }

  function SettledDelivery(mode: Mode, e: Expected, env: Environment): Report {
    if SettledHandOff(mode, env).Some? then SettledHandOff(mode, env).value else SettledEnd(e, env)
  }

  /** What the poll decides: the verdict of the first round that ends it, or a timeout. */
  function Awaited(e: Expected, polls: seq<Poll>): State {
    if polls == [] then IngestionTimeout
    else if !Ends(e, polls[0]) then Awaited(e, polls[1..])
    else if Verdict(e, polls[0]).Some? then Verdict(e, polls[0]).value
    else IngestionTimeout
  }

  lemma {:induction false} AwaitedIs(e: Expected, polls: seq<Poll>, n: nat)
    requires n < |polls| && Ends(e, polls[n]) && forall i :: 0 <= i < n ==> !Ends(e, polls[i])
    ensures Awaited(e, polls) == if Verdict(e, polls[n]).Some? then Verdict(e, polls[n]).value else IngestionTimeout
    ensures Awaited(e, polls) in {RommMatched, RommUnmatched, IngestionTimeout}
    decreases n
  {
    if n > 0 {
      AwaitedIs(e, polls[1..], n - 1);
    }
  }

  lemma EndsIsByEvidence(e: Expected, p: Poll)
    requires Complete(e)
    ensures Ends(e, p) <==> Identified(p) || GivenUp(p)
    ensures Verdict(e, p) == if !Identified(p) then None else if Proves(e, p.answer.value) then Some(RommMatched) else Some(RommUnmatched)
  {
    if p.answer.Some? {
      ClassifyIsByEvidence(e, p.answer.value);
    }
  }

  /** There is exactly one deciding round. */
  lemma TheDecidingRound(e: Expected, env: Environment) returns (n: nat)
    requires Complete(e) && env.polls != [] && env.polls[|env.polls| - 1].cancelled
    ensures DecidesAt(env, n) && (forall i: nat :: DecidesAt(env, i) ==> i == n)
    ensures Awaited(e, env.polls) == if !Identified(env.polls[n]) then IngestionTimeout
                                     else if Proves(e, env.polls[n].answer.value) then RommMatched else RommUnmatched
  {
    n := FirstEnd(e, env.polls);
    AwaitedIs(e, env.polls, n);
    EndsIsByEvidence(e, env.polls[n]);
    forall j | 0 <= j < n ensures !Identified(env.polls[j]) && !GivenUp(env.polls[j]) {
      EndsIsByEvidence(e, env.polls[j]);
    }
  }

  /**
   What the wait ends in: a match if and only if the deciding round identifies the item and proves it, a
   mismatch if and only if it identifies the item and does not, a timeout if and only if it does not identify it.
   */
  lemma {:induction false} AwaitedMatch(e: Expected, env: Environment)
    requires Complete(e) && env.polls != [] && env.polls[|env.polls| - 1].cancelled
    ensures Awaited(e, env.polls) == RommMatched <==> Matched(e, env)
    ensures Awaited(e, env.polls) == RommUnmatched <==> exists i: nat :: UnmatchedAt(e, env, i)
    ensures Awaited(e, env.polls) == IngestionTimeout <==> exists i: nat :: TimedOutAt(env, i)
    ensures Awaited(e, env.polls) in {RommMatched, RommUnmatched, IngestionTimeout}
  {
    var n := TheDecidingRound(e, env);
    assert Identified(env.polls[n]) && Proves(e, env.polls[n].answer.value) ==> MatchedAt(e, env, n);
    assert Identified(env.polls[n]) && !Proves(e, env.polls[n].answer.value) ==> UnmatchedAt(e, env, n);
    assert !Identified(env.polls[n]) ==> TimedOutAt(env, n);
    assert forall i: nat :: MatchedAt(e, env, i) || UnmatchedAt(e, env, i) || TimedOutAt(env, i) ==> i == n;
  }

  lemma {:induction false} FirstEnd(e: Expected, polls: seq<Poll>) returns (n: nat)
    requires polls != [] && polls[|polls| - 1].cancelled
    ensures n < |polls| && Ends(e, polls[n]) && forall i :: 0 <= i < n ==> !Ends(e, polls[i])
    decreases |polls|
  {
    n := 0;
    if !Ends(e, polls[0]) {
      var m := FirstEnd(e, polls[1..]);
      n := m + 1;
    }
  }

  /**
   The only way to become a source: the payload fitted, was stored and read back with SHA-256 agreement,
   was handed over, was proved by RomM's own observation, and the manifest names it.
   */
  lemma SourceActiveIsEarned(mode: Mode, e: Expected, env: Environment)
    requires env.polls != [] && env.polls[|env.polls| - 1].cancelled
    ensures Settled(mode, e, env).state == Some(SourceActive)
       <==> && !mode.UnsupportedMode? && Complete(e)
            && Staged(e, env) && HandedOver(mode, env) && env.library && Matched(e, env)
            && (env.manifest ==> env.republishOk)
  {
    if Complete(e) {
      AwaitedMatch(e, env);
    }
  }

  /**
   Cancelled exactly if there was no room, the payload did not arrive, or the payload was accepted and a
   configured publisher refused it.
   */
  lemma CancelledExactlyIf(mode: Mode, e: Expected, env: Environment)
    requires env.polls != [] && env.polls[|env.polls| - 1].cancelled
    ensures Settled(mode, e, env).state == Some(Cancelled)
       <==> && !mode.UnsupportedMode? && Complete(e)
            && ((e.canonical.size > 0 && !env.spaceOk) || !env.receiveOk
                || (ReadBack(e, env) && mode.FilesystemPublication? && env.publisher && !env.publishOk))
  {
    if Complete(e) {
      AwaitedMatch(e, env);
    }
  }

  /**
   In conflict exactly if the payload arrived and was not accepted on read-back, or it was and a configured
   uploader failed with it.
   */
  lemma ConflictExactlyIf(mode: Mode, e: Expected, env: Environment)
    requires env.polls != [] && env.polls[|env.polls| - 1].cancelled
    ensures Settled(mode, e, env).state == Some(VerificationConflict)
       <==> && !mode.UnsupportedMode? && Complete(e)
            && (e.canonical.size > 0 ==> env.spaceOk) && env.receiveOk
            && (!ReadBack(e, env) || (mode.ApiOnly? && env.uploader && !env.uploadOk))
  {
    if Complete(e) {
      AwaitedMatch(e, env);
    }
  }

  /** The two verdicts RomM's silence or contradiction leads to, each exactly on its deciding round. */
  lemma ReviewStatesExactlyIf(mode: Mode, e: Expected, env: Environment)
    requires env.polls != [] && env.polls[|env.polls| - 1].cancelled
    ensures Settled(mode, e, env).state == Some(RommUnmatched)
       <==> && !mode.UnsupportedMode? && Complete(e) && Staged(e, env) && HandedOver(mode, env) && env.library
            && exists i: nat :: UnmatchedAt(e, env, i)
    ensures Settled(mode, e, env).state == Some(IngestionTimeout)
       <==> && !mode.UnsupportedMode? && Complete(e) && Staged(e, env) && HandedOver(mode, env) && env.library
            && exists i: nat :: TimedOutAt(env, i)
  {
    if Complete(e) {
      AwaitedMatch(e, env);
    }
  }

  /** Quarantined by the flow itself exactly if the item was proved and the manifest could not be republished. */
  lemma QuarantinedExactlyIf(mode: Mode, e: Expected, env: Environment)
    requires env.polls != [] && env.polls[|env.polls| - 1].cancelled
    ensures Settled(mode, e, env).state == Some(Quarantined)
       <==> && !mode.UnsupportedMode? && Complete(e)
            && Staged(e, env) && HandedOver(mode, env) && env.library && Matched(e, env)
            && env.manifest && !env.republishOk
  {
    if Complete(e) {
      AwaitedMatch(e, env);
    }
  }

  /**
   No state at all exactly if the flow is not set up for the transfer: an unsupported mode, an incomplete
   promise, nobody to hand the accepted payload to, or no library to poll. An error comes with a state exactly
   if the upload, the publication or the republication failed.
   */
  lemma UnclassifiedExactlyIf(mode: Mode, e: Expected, env: Environment)
    requires env.polls != [] && env.polls[|env.polls| - 1].cancelled
    ensures var r := Settled(mode, e, env);
            && (r.state == None
                <==> mode.UnsupportedMode? || e.platform == "" || e.canonical.sha256 == "" || !e.fileIdValid
                     || (Staged(e, env) && !(if mode.ApiOnly? then env.uploader else env.publisher))
                     || (Staged(e, env) && HandedOver(mode, env) && !env.library))
            && (r.failed
                <==> r.state == None || r.state == Some(Quarantined)
                     || (Staged(e, env) && (if mode.ApiOnly? then !env.uploadOk else !env.publishOk)))
  {
    if Complete(e) {
      AwaitedMatch(e, env);
    }
  }

  /**
   Whatever the flow came to report: if the journal holds romm_matched or source_active, the payload was
   stored, read back with SHA-256 agreement, handed over, and proved by RomM's own observation; and if it
   holds source_active, the manifest names it.
   */
  lemma JournalStatesAreProved(mode: Mode, e: Expected, env: Environment, path: seq<State>)
    requires Complete(e) && env.polls != [] && env.polls[|env.polls| - 1].cancelled
    requires Supported(mode, e, env, path)
    ensures RommMatched in path || SourceActive in path ==>
              Staged(e, env) && HandedOver(mode, env) && env.library && Matched(e, env)
    ensures SourceActive in path ==> (env.manifest ==> env.republishOk)
  {
    AwaitedMatch(e, env);
    assert RommMatched in path ==> Warrants(mode, e, env, RommMatched);
    assert SourceActive in path ==> Warrants(mode, e, env, SourceActive);
  }

  /**
   And so for the states an operator is shown, even if the flow came to report something else: cancelled and in
   conflict rest on what the flow met, and quarantine on a republication that failed unless it is the moderator's.
   */
  lemma JournalFailuresAreProved(mode: Mode, e: Expected, env: Environment, path: seq<State>)
    requires Supported(mode, e, env, path)
    ensures Cancelled in path ==>
              (e.canonical.size > 0 && !env.spaceOk) || !env.receiveOk
              || (Staged(e, env) && !mode.ApiOnly? && env.publisher && !env.publishOk)
    ensures VerificationConflict in path ==>
              env.receiveOk && (!ReadBack(e, env) || (Staged(e, env) && mode.ApiOnly? && env.uploader && !env.uploadOk))
    ensures Quarantined in path && true !in env.moderated ==> Proved(mode, e, env) && env.manifest && !env.republishOk
  {
    assert Cancelled in path ==> Warrants(mode, e, env, Cancelled);
    assert VerificationConflict in path ==> Warrants(mode, e, env, VerificationConflict);
    assert Quarantined in path ==> Warrants(mode, e, env, Quarantined);
  }

  /** Unmatched and timed out rest on the deciding round. */
  lemma JournalVerdictsAreProved(mode: Mode, e: Expected, env: Environment, path: seq<State>)
    requires Complete(e) && env.polls != [] && env.polls[|env.polls| - 1].cancelled
    requires Supported(mode, e, env, path)
    ensures RommUnmatched in path ==> exists i: nat :: UnmatchedAt(e, env, i)
    ensures IngestionTimeout in path ==> exists i: nat :: TimedOutAt(env, i)
    ensures RommUnmatched in path || IngestionTimeout in path ==> Staged(e, env) && HandedOver(mode, env) && env.library
  {
    if RommUnmatched in path || IngestionTimeout in path {
      AwaitedMatch(e, env);
      assert RommUnmatched in path ==> Warrants(mode, e, env, RommUnmatched);
      assert IngestionTimeout in path ==> Warrants(mode, e, env, IngestionTimeout);
    }
  }

  /** Every settled state is one a transfer can end in. */
  lemma SettledStatesAreTerminal(mode: Mode, e: Expected, env: Environment)
    requires env.polls != [] && env.polls[|env.polls| - 1].cancelled
    ensures Settled(mode, e, env).state.Some? ==> Terminal(Settled(mode, e, env).state.value)
  {
    if Complete(e) {
      AwaitedMatch(e, env);
    }
  }
}
