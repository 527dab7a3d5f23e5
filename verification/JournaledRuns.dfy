/**
 The runs of `PublicationRuns` with the journal on its files: which transfers are known and which recorded is
 what readers find in the journal's directory and what the disk holds of it.
 */
module JournaledRuns {
  import opened Wrappers
  import opened Filesystem
  import A = AtomicFiles
  import D = Destination
  import J = Journals
  import P = PublicationRuns

  type Id = nat

  type JournalFiles = Files<A.FileName<Id>, J.Mark>

  /** `folderKept` says whether the journal directory's own entry is on the disk. */
  datatype State = State(publication: P.State, journal: JournalFiles, folderKept: bool)

  /**
   A step of a transfer, outsider or disk; the first entry of a transfer, with which its flow begins; a later
   entry; an entry of the journal's directory, or the directory's own, reaching the disk; a power cut.
   */
  datatype Step =
    | Move(step: P.Step)
    | Receive(id: Id, flow: P.Flow, at: int, fault: A.SaveFault, removes: bool)
    | Advance(id: Id, entry: J.Entry, fault: A.SaveFault, removes: bool)
    | SettleEntry(id: Id)
    | SettleFolder
    | PowerCut(
        damage: map<Ino, P.Bytes>,
        lost: set<P.Name>,
        journalDamage: map<Ino, seq<J.Mark>>,
        journalLost: set<A.FileName<Id>>,
        folderLost: bool)

  function History(fs: JournalFiles, id: Id): J.History {
    var h := J.Parsed(A.Seen(fs, id));
    if h.Some? then h.value else []
  }

  function First(at: int): J.Entry { J.Entry(None, D.Receiving, at) }

  function AfterAppend(fs: JournalFiles, id: Id, entry: J.Entry, fault: A.SaveFault, removes: bool): JournalFiles {
    A.AfterSave(fs, id, J.Encode(History(fs, id) + [entry]), fault, removes)
  }

  function AfterCut(s: State, step: Step): JournalFiles
    requires step.PowerCut?
  {
    AfterFolderCut(s.journal, step.journalDamage, step.journalLost, s.folderKept || !step.folderLost)
  }

  /** The transfers the journal does not show after the cut. */
  function Forgets(s: State, step: Step): set<Id>
    requires step.PowerCut?
  {
    set id | id in s.publication.known && A.Seen(AfterCut(s, step), id).None?
  }

  /** What the step is to the publication. */
  function Shown(s: State, step: Step): P.Step {
    match step
    case Move(m) => if m.Begin? || m.SettleJournal? || m.PowerCut? then P.SettleJournal({}) else m
    case Receive(id, f, at, fault, _) =>
      if J.Admits(History(s.journal, id), First(at)) && A.Renames(fault) then
        P.Begin(id, f.dest, f.expected, f.sameFilesystem, A.ReportsSuccess(fault), A.Flushes(fault) && s.folderKept)
      else P.SettleJournal({})
    case Advance(id, entry, fault, _) =>
      P.SettleJournal(if Continues(s, id, entry) && A.Flushes(fault) && s.folderKept then {id} else {})
    case SettleEntry(id) => P.SettleJournal(if s.folderKept then {id} else {})
    case SettleFolder => P.SettleJournal(set id | id in s.publication.known && A.Kept(s.journal, id).Some?)
    case PowerCut(damage, lost, _, _, _) => P.PowerCut(damage, lost, Forgets(s, step))
  }

  predicate Continues(s: State, id: Id, entry: J.Entry) {
    History(s.journal, id) != [] && J.Admits(History(s.journal, id), entry)
  }

  function NextJournal(s: State, step: Step): JournalFiles {
    match step
    case Receive(id, _, at, fault, removes) =>
      if J.Admits(History(s.journal, id), First(at)) then AfterAppend(s.journal, id, First(at), fault, removes) else s.journal
    case Advance(id, entry, fault, removes) =>
      if Continues(s, id, entry) then AfterAppend(s.journal, id, entry, fault, removes) else s.journal
    case SettleEntry(id) => FlushEntry(s.journal, A.Final(id))
    case PowerCut(_, _, _, _, _) => AfterCut(s, step)
    case _ => s.journal
  }

  /** A directory that is gone is made anew; one that is not is on the disk. */
  function Next(s: State, step: Step): State {
    State(P.Next(s.publication, Shown(s, step)), NextJournal(s, step),
          if step.PowerCut? then s.folderKept || !step.folderLost else s.folderKept || step.SettleFolder?)
  }

  function Run(s: State, steps: seq<Step>): State
    decreases |steps|
  {
    if steps == [] then s else Run(Next(s, steps[0]), steps[1..])
  }

  function Trace(s: State, steps: seq<Step>): seq<P.Step>
    decreases |steps|
  {
    if steps == [] then [] else [Shown(s, steps[0])] + Trace(Next(s, steps[0]), steps[1..])
  }

  // ---- What the publication takes the journal for is what it is ----

  /** A journal file is the whole encoding of a history that has begun. */
  predicate Whole(content: Option<seq<J.Mark>>) {
    content.Some? ==> J.Parsed(content).Some? && J.Parsed(content).value != []
  }

  /** What the publication takes the journal for, of one transfer. */
  predicate Matches(s: State, id: Id) {
    && Whole(A.Seen(s.journal, id)) && Whole(A.Kept(s.journal, id))
    && (A.Kept(s.journal, id).Some? ==> A.Seen(s.journal, id).Some?)
    && (id in s.publication.known <==> A.Seen(s.journal, id).Some?)
    && (id in s.publication.recorded <==> s.folderKept && A.Kept(s.journal, id).Some?)
  }

  ghost predicate Coupled(s: State) { A.FilesOk(s.journal) && forall id: Id :: Matches(s, id) }

  /** What an append does to one file, seen and kept. */
  predicate AppendedTo(fs: JournalFiles, fs': JournalFiles, id: Id, fault: A.SaveFault, k: Id) {
    && (if k == id && A.Renames(fault) then A.Seen(fs', k).Some? && Whole(A.Seen(fs', k)) else A.Seen(fs', k) == A.Seen(fs, k))
    && (if k == id && A.Flushes(fault) then A.Kept(fs', k).Some? && Whole(A.Kept(fs', k)) else A.Kept(fs', k) == A.Kept(fs, k))
  }

  lemma AppendedFile(fs: JournalFiles, id: Id, entry: J.Entry, fault: A.SaveFault, removes: bool, k: Id)
    requires A.FilesOk(fs)
    ensures var fs' := AfterAppend(fs, id, entry, fault, removes); A.FilesOk(fs') && AppendedTo(fs, fs', id, fault, k)
  {
    var h := History(fs, id) + [entry];
    J.DecodingUndoesEncoding(h);
    A.SavesAreWholeOrNothing(fs, id, J.Encode(h), fault, removes, k);
  }

  lemma MatchesAppended(s: State, t: State, id: Id, fault: A.SaveFault, k: Id)
    requires Matches(s, k) && AppendedTo(s.journal, t.journal, id, fault, k) && t.folderKept == s.folderKept
    requires k in t.publication.known <==> k in s.publication.known || (k == id && A.Renames(fault))
    requires k in t.publication.recorded <==> k in s.publication.recorded || (k == id && A.Flushes(fault) && s.folderKept)
    ensures Matches(t, k)
  {
  }

  lemma CoupledFirst(s: State, step: Step, k: Id)
    requires Coupled(s) && step.Receive?
    ensures A.FilesOk(Next(s, step).journal) && Matches(Next(s, step), k)
  {
    assert Matches(s, k);
    FirstMeansUnknown(s, step.id, step.at);
    if step.id !in s.publication.known {
      AppendedFile(s.journal, step.id, First(step.at), step.fault, step.removes, k);
      MatchesAppended(s, Next(s, step), step.id, step.fault, k);
    }
  }

  lemma CoupledLater(s: State, step: Step, k: Id)
    requires Coupled(s) && step.Advance?
    ensures A.FilesOk(Next(s, step).journal) && Matches(Next(s, step), k)
  {
    assert Matches(s, k) && Matches(s, step.id);
    var t := Next(s, step);
    if Continues(s, step.id, step.entry) {
      AppendedFile(s.journal, step.id, step.entry, step.fault, step.removes, k);
      LaterIs(s, step);
      MatchesAppended(s, t, step.id, step.fault, k);
    } else {
      assert t == s;
    }
  }

  lemma LaterIs(s: State, step: Step)
    requires step.Advance? && Continues(s, step.id, step.entry) && Matches(s, step.id)
    ensures var t := Next(s, step);
            && t.journal == AfterAppend(s.journal, step.id, step.entry, step.fault, step.removes)
            && t.folderKept == s.folderKept && t.publication.known == s.publication.known && step.id in s.publication.known
            && t.publication.recorded
               == s.publication.recorded + if A.Flushes(step.fault) && s.folderKept then {step.id} else {}
  {
  }

  /** A first entry is admitted exactly for a transfer without a file. */
  lemma FirstMeansUnknown(s: State, id: Id, at: int)
    requires Coupled(s)
    ensures J.Admits(History(s.journal, id), First(at)) <==> id !in s.publication.known
  {
    assert Matches(s, id);
    if History(s.journal, id) != [] {
      J.NeverReceivesTwice(History(s.journal, id), First(at));
    }
  }

  lemma CoupledCut(s: State, step: Step, k: Id)
    requires Coupled(s) && step.PowerCut?
    ensures A.FilesOk(Next(s, step).journal) && Matches(Next(s, step), k)
  {
    assert Matches(s, k);
    A.PowerCutsSpareWholeContents(A.State(s.journal, A.Idle), step.journalDamage, step.journalLost, k);
  }

  lemma CoupledSettle(s: State, id: Id, k: Id)
    requires Coupled(s)
    ensures A.FilesOk(Next(s, SettleEntry(id)).journal) && Matches(Next(s, SettleEntry(id)), k)
  {
    assert Matches(s, k) && Matches(s, id);
    SettledFile(s.journal, id, k);
  }

  lemma SettledFile(fs: JournalFiles, id: Id, k: Id)
    requires A.FilesOk(fs)
    ensures var fs' := FlushEntry(fs, A.Final(id));
            && A.FilesOk(fs') && A.Seen(fs', k) == A.Seen(fs, k)
            && A.Kept(fs', k) == if k == id then A.Seen(fs, k) else A.Kept(fs, k)
  {
    A.EntriesSettle(A.State(fs, A.Idle), A.Settle(A.Final(id)), k);
  }

  lemma CoupledFolder(s: State, k: Id)
    requires Coupled(s)
    ensures Matches(Next(s, SettleFolder), k)
  {
    assert Matches(s, k);
  }

  lemma OtherStepsKeepTheJournal(p: P.State, step: P.Step)
    requires !step.Begin? && !step.SettleJournal? && !step.PowerCut?
    ensures P.Next(p, step).known == p.known && P.Next(p, step).recorded == p.recorded
  {
  }

  lemma CoupledMove(s: State, step: Step, k: Id)
    requires Coupled(s) && step.Move?
    ensures Matches(Next(s, step), k)
  {
    assert Matches(s, k);
    var m := step.step;
    if !m.Begin? && !m.SettleJournal? && !m.PowerCut? {
      OtherStepsKeepTheJournal(s.publication, m);
    }
  }

  lemma CoupledNext(s: State, step: Step)
    requires Coupled(s)
    ensures Coupled(Next(s, step))
  {
    MatchesNext(s, step, 0);
    forall k: Id ensures Matches(Next(s, step), k) {
      MatchesNext(s, step, k);
    }
  }

  lemma MatchesNext(s: State, step: Step, k: Id)
    requires Coupled(s)
    ensures A.FilesOk(Next(s, step).journal) && Matches(Next(s, step), k)
  {
    match step
    case Move(m) => CoupledMove(s, step, k);
    case Receive(_, _, _, _, _) => CoupledFirst(s, step, k);
    case Advance(_, _, _, _) => CoupledLater(s, step, k);
    case SettleEntry(id) => CoupledSettle(s, id, k);
    case SettleFolder => CoupledFolder(s, k);
    case PowerCut(_, _, _, _, _) => CoupledCut(s, step, k);
  }

  /**
   Every run with the journal on its files is a run of `PublicationRuns`, and throughout the transfers known are
   those a reader finds in the journal and those recorded are those the disk holds, directory and all.
   */
  lemma {:induction false} CoupledRun(s: State, steps: seq<Step>)
    requires Coupled(s)
    ensures Coupled(Run(s, steps)) && Run(s, steps).publication == P.Run(s.publication, Trace(s, steps))
    decreases |steps|
  {
    if steps != [] {
      CoupledNext(s, steps[0]);
      CoupledRun(Next(s, steps[0]), steps[1..]);
      assert Trace(s, steps)[1..] == Trace(Next(s, steps[0]), steps[1..]);
    }
  }

  /** Nothing refuses the journal's directory flush on a first entry, and disks store what they are given. */
  predicate Honest(step: Step) {
    (step.Receive? ==> !step.fault.DirectorySyncRefused?) && (step.Move? && step.step.CopySome? ==> step.step.instead.None?)
  }

  lemma {:induction false} HonestTraces(s: State, steps: seq<Step>)
    requires s.folderKept && forall k :: 0 <= k < |steps| ==> Honest(steps[k])
    ensures forall k :: 0 <= k < |Trace(s, steps)| ==> P.Honoured(Trace(s, steps)[k])
    decreases |steps|
  {
    if steps != [] {
      assert Honest(steps[0]);
      assert forall k :: 0 <= k < |steps[1..]| ==> steps[1..][k] == steps[k + 1];
      HonestTraces(Next(s, steps[0]), steps[1..]);
    }
  }

  /**
   What the library rests on, in terms of the disk: if the journal's directory is on it and the directory's flush
   is honoured for each first entry, every run is proper, so that whatever is in the library is whole and what
   the disk holds of it stays.
   */
  lemma TheJournalProtectsTheLibrary(s: State, steps: seq<Step>, p: P.Path)
    requires Coupled(s) && P.Init(s.publication) && s.folderKept && forall k :: 0 <= k < |steps| ==> Honest(steps[k])
    ensures var t := Run(s, steps).publication;
            && P.Inv(t) && P.Lasting(s.publication.fs, t.fs)
            && (P.Library(p) in t.fs.names ==>
                  && t.fs.Holds(P.Library(p))
                  && (|| (p in t.foreign && t.fs.Content(P.Library(p)) == t.foreign[p])
                      || (p in t.published && t.published[p](t.fs.Content(P.Library(p))))))
  {
    CoupledRun(s, steps);
    HonestTraces(s, steps);
    P.HonouredRunsAreProper(s.publication, Trace(s, steps));
    P.InitIsInv(s.publication);
    P.InvRun(s.publication, Trace(s, steps));
    P.LibraryIsWhole(Run(s, steps).publication, p);
  }
}
