/** Waiting for RomM to index what was handed over, and judging what it reports. */
module Reconcile {
  import opened Wrappers
  import opened Digests
  import opened Destination

  type PlatformId = string

  datatype Expected = Expected(platform: PlatformId, fileIdValid: bool, canonical: Digest)

  predicate Complete(e: Expected) {
    e.platform != "" && e.canonical.sha256 != "" && e.fileIdValid
  }

  datatype Observation = Observation(present: bool, platform: PlatformId, canonical: Digest)

  /**
   One round of the poll: what RomM answered (nothing on a transient failure), whether the clock was past
   the deadline when that was checked, and whether the wait was cancelled afterwards.
   */
  datatype Poll = Poll(answer: Option<Observation>, past: bool, reached: bool, cancelled: bool)

  /** What an observation decides, if anything. */
  function Classify(e: Expected, o: Observation): Option<State> {
    if o.canonical.sha256 == "" then None
    else
      var c := Compare(o.canonical, e.canonical);
      if !c.ok || Digests.Rank(c.strength) < Digests.Rank(Strong) then Some(RommUnmatched)
      else if o.platform != "" && o.platform != e.platform then Some(RommUnmatched)
      else Some(RommMatched)
  }

  /** The evidence a match rests on: SHA-256 agreement, nothing contradicting it, and the right platform. */
  predicate Proves(e: Expected, o: Observation) {
    && Agrees(o.canonical.sha256, e.canonical.sha256)
    && !Contradicts(o.canonical, e.canonical)
    && (o.platform == "" || o.platform == e.platform)
  }

  /** A match is reported exactly on that evidence, and a mismatch only on a full identity without it. */
  lemma ClassifyIsByEvidence(e: Expected, o: Observation)
    requires Complete(e)
    ensures Classify(e, o) == Some(RommMatched) <==> Proves(e, o)
    ensures Classify(e, o) == Some(RommUnmatched) <==> o.canonical.sha256 != "" && !Proves(e, o)
  {
  }

  /** The verdict of one round, if the observation settles it. */
  function Verdict(e: Expected, p: Poll): Option<State> {
    if p.answer.Some? && p.answer.value.present then Classify(e, p.answer.value) else None
  }

  /** The round ends the wait one way or another. */
  predicate Ends(e: Expected, p: Poll) {
    Verdict(e, p).Some? || (p.answer.None? && p.past) || p.reached || p.cancelled
  }

  datatype Await = Await(state: State, attempts: nat) | NotStarted

  /**
   The polling loop. It stops at the first round that ends the wait; the last round given is the one
   in which the caller cancels. The state is that round's verdict, or a timeout when it has none.
   */
  method AwaitIngestion(e: Expected, libraryPresent: bool, polls: seq<Poll>) returns (result: Await)
    requires polls != [] && polls[|polls| - 1].cancelled
    ensures result.NotStarted? <==> !Complete(e) || !libraryPresent
    ensures result.Await? ==>
              && 1 <= result.attempts <= |polls|
              && Ends(e, polls[result.attempts - 1])
              && (forall i :: 0 <= i < result.attempts - 1 ==> !Ends(e, polls[i]))
              && result.state == (if Verdict(e, polls[result.attempts - 1]).Some?
                                  then Verdict(e, polls[result.attempts - 1]).value else IngestionTimeout)
  {
    if !Complete(e) || !libraryPresent {
      return NotStarted;
    }
    var attempts := 0;
    while attempts < |polls|
      invariant attempts <= |polls|
      invariant forall i :: 0 <= i < attempts ==> !Ends(e, polls[i])
    {
      var p := polls[attempts];
      attempts := attempts + 1;
      if p.answer.None? {
        if p.past {
          return Await(IngestionTimeout, attempts);
        }
      } else if p.answer.value.present {
        var decided := Classify(e, p.answer.value);
        if decided.Some? {
          return Await(decided.value, attempts);
        }
      }
      if p.reached {
        return Await(IngestionTimeout, attempts);
      }
      if p.cancelled {
        return Await(IngestionTimeout, attempts);
      }
    }
    assert Ends(e, polls[|polls| - 1]);
    assert false;
  }
}
