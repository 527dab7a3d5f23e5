/** The receiving Bridge's state for one transfer, as a closed table of moves. */
module Destination {
  import opened Wrappers

  datatype State =
    | Receiving
    | VerifiedInStaging
    | UploadingToRomm
    | PublishedToFilesystem
    | AwaitingRommIngestion
    | RommMatched
    | SourceActive
    | Cancelled
    | VerificationConflict
    | RommUnmatched
    | IngestionTimeout
    | Quarantined
    | Undefined(code: nat)

  datatype Mode = ApiOnly | FilesystemPublication | UnsupportedMode

  datatype TransitionError = UnknownSource | UnknownTarget | Illegal

  function Moves(s: State): set<State> {
    match s
    case Receiving => {VerifiedInStaging, VerificationConflict, Cancelled}
    case VerifiedInStaging => {UploadingToRomm, PublishedToFilesystem, Cancelled}
    case UploadingToRomm => {AwaitingRommIngestion, VerificationConflict}
    case PublishedToFilesystem => {AwaitingRommIngestion}
    case AwaitingRommIngestion => {RommMatched, RommUnmatched, IngestionTimeout}
    case RommMatched => {SourceActive}
    case _ => {}
  }

  predicate QuarantinableFrom(s: State) {
    s.Receiving? || s.VerifiedInStaging? || s.UploadingToRomm? || s.PublishedToFilesystem?
    || s.AwaitingRommIngestion? || s.RommMatched? || s.SourceActive?
  }

  predicate Known(s: State) { !s.Undefined? }

  predicate Terminal(s: State) { Known(s) && Moves(s) == {} }

  predicate CanTransition(from: State, to: State) {
    if to.Quarantined? then QuarantinableFrom(from) else to in Moves(from)
  }

  function Transition(from: State, to: State): Option<TransitionError> {
    if !Known(from) then Some(UnknownSource)
    else if !Known(to) then Some(UnknownTarget)
    else if !CanTransition(from, to) then Some(Illegal)
    else None
  }

  function HandOffState(mode: Mode): Option<State> {
    match mode
    case ApiOnly => Some(UploadingToRomm)
    case FilesystemPublication => Some(PublishedToFilesystem)
    case UnsupportedMode => None
  }

  /** How far along a state is. */
  function Rank(s: State): nat {
    match s
    case Receiving => 0
    case VerifiedInStaging => 1
    case UploadingToRomm => 2
    case PublishedToFilesystem => 2
    case AwaitingRommIngestion => 3
    case RommMatched => 4
    case SourceActive => 5
    case _ => 6
  }

  /** A transfer's history: it begins at receiving and every step is a legal transition. */
  ghost predicate LegalPath(path: seq<State>) {
    && (path != [] ==> path[0] == Receiving)
    && (forall i :: 0 < i < |path| ==> Transition(path[i - 1], path[i]) == None)
  }

  /** Every transition moves forward, so no history visits a state twice or returns to receiving. */
  lemma TransitionsAdvance(from: State, to: State)
    requires Transition(from, to) == None
    ensures Rank(from) < Rank(to)
  {
  }

  lemma {:induction false} PathsAdvance(path: seq<State>)
    requires LegalPath(path)
    ensures forall i, j :: 0 <= i < j < |path| ==> Rank(path[i]) < Rank(path[j])
    ensures |path| <= 7
    ensures path != [] ==> |path| <= Rank(path[|path| - 1]) + 1
    decreases |path|
  {
    if |path| > 1 {
      var init := path[..|path| - 1];
      PathsAdvance(init);
      TransitionsAdvance(path[|path| - 2], path[|path| - 1]);
      forall i, j | 0 <= i < j < |path| ensures Rank(path[i]) < Rank(path[j]) {
        assert path[i] == init[i];
        if j < |init| { assert path[j] == init[j]; }
      }
    }
  }

  /** The one way to become a source. */
  function SourcePath(handOff: State): seq<State> {
    [Receiving, VerifiedInStaging, handOff, AwaitingRommIngestion, RommMatched, SourceActive]
  }

  /**
   A history reaches source_active only through verification, exactly one hand-off, awaiting and
   romm_matched, in that order and with nothing else; and both such histories are legal.
   */
  lemma SourceActivePathIsForced(path: seq<State>, i: nat)
    requires LegalPath(path) && i < |path| && path[i] == SourceActive
    ensures i == 5
    ensures path[..6] == SourcePath(UploadingToRomm) || path[..6] == SourcePath(PublishedToFilesystem)
  {
    Predecessor(path, i);
    Predecessor(path, i - 1);
    Predecessor(path, i - 2);
    Predecessor(path, i - 3);
    Predecessor(path, i - 4);
    Predecessor(path, i - 5);
    assert path[..6] == [path[0], path[1], path[2], path[3], path[4], path[5]];
  }

  lemma Predecessor(path: seq<State>, i: nat)
    requires LegalPath(path) && i < |path|
    ensures path[i] == SourceActive ==> i > 0 && path[i - 1] == RommMatched
    ensures path[i] == RommMatched ==> i > 0 && path[i - 1] == AwaitingRommIngestion
    ensures path[i] == AwaitingRommIngestion ==> i > 0 && (path[i - 1] == UploadingToRomm || path[i - 1] == PublishedToFilesystem)
    ensures path[i] == UploadingToRomm || path[i] == PublishedToFilesystem ==> i > 0 && path[i - 1] == VerifiedInStaging
    ensures path[i] == VerifiedInStaging ==> i > 0 && path[i - 1] == Receiving
    ensures path[i] == Receiving ==> i == 0
  {
    if i > 0 {
      assert Transition(path[i - 1], path[i]) == None;
    }
  }

  lemma SourcePathsAreLegal(handOff: State)
    ensures LegalPath(SourcePath(handOff)) <==> handOff == UploadingToRomm || handOff == PublishedToFilesystem
  {
    var p := SourcePath(handOff);
    if LegalPath(p) {
      assert Transition(p[1], p[2]) == None && Transition(p[2], p[3]) == None;
    }
  }

  /**
   `Terminal` is documented as "no further transition is possible". That is exact for every defined
   state but source_active, which it calls terminal although quarantine still leaves it.
   */
  lemma TerminalIsExactButForSourceActive(s: State)
    requires Known(s)
    ensures (exists to :: Transition(s, to) == None) <==> !Terminal(s) || s == SourceActive
  {
    if !Terminal(s) {
      var to :| to in Moves(s);
      assert Transition(s, to) == None;
    } else if s == SourceActive {
      assert Transition(s, Quarantined) == None;
    }
  }

  /** The table read the other way: for each state, exactly where it can be reached from. Receiving is only a beginning. */
  lemma EveryMoveByItsTarget(from: State)
    ensures Transition(from, VerifiedInStaging) == None <==> from == Receiving
    ensures Transition(from, UploadingToRomm) == None <==> from == VerifiedInStaging
    ensures Transition(from, PublishedToFilesystem) == None <==> from == VerifiedInStaging
    ensures Transition(from, AwaitingRommIngestion) == None <==> from == UploadingToRomm || from == PublishedToFilesystem
    ensures Transition(from, RommMatched) == None <==> from == AwaitingRommIngestion
    ensures Transition(from, SourceActive) == None <==> from == RommMatched
    ensures Transition(from, Cancelled) == None <==> from == Receiving || from == VerifiedInStaging
    ensures Transition(from, VerificationConflict) == None <==> from == Receiving || from == UploadingToRomm
    ensures Transition(from, RommUnmatched) == None <==> from == AwaitingRommIngestion
    ensures Transition(from, IngestionTimeout) == None <==> from == AwaitingRommIngestion
    ensures Transition(from, Receiving) != None
  {
  }

  /** Quarantine is open to every live state and to no other; a code that is no state is never reached. */
  lemma QuarantineOverridesEveryLiveState(from: State, code: nat)
    ensures Transition(from, Quarantined) == None
       <==> from == Receiving || from == VerifiedInStaging || from == UploadingToRomm || from == PublishedToFilesystem
            || from == AwaitingRommIngestion || from == RommMatched || from == SourceActive
    ensures Transition(from, Undefined(code)) != None && Transition(Undefined(code), from) != None
  {
  }
}
