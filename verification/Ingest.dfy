/**
 The receiving flow on the files it works with: what its staging directory, its publisher and the library hold
 when it reports, or its journal holds, a state.
 */
module Ingest {
  import opened Wrappers
  import opened Digests
  import opened Filesystem
  import opened Publication
  import opened PublicationRuns
  import D = Destination
  import F = Flows
  import R = Reconcile

  /** What one transfer finds: the files, what arrives, and what the disk does with it. */
  datatype Meeting = Meeting(
    hashes: Hashes,
    fs: Fs,
    id: TransferId,
    dest: Path,
    upload: Upload,
    readable: bool,
    conditions: Conditions)
  {
    function Staged(): Fs { Received(fs, id, upload) }

    predicate Delivers(e: R.Expected) { Reaches(Staged(), id, dest, Accepting(hashes, e.canonical), conditions) }

    function After(e: R.Expected): Fs { AfterPublish(Staged(), id, dest, Accepting(hashes, e.canonical), conditions) }
  }

  /** The flow's environment is the staging area's and the publisher's doing. */
  ghost predicate Meets(env: F.Environment, e: R.Expected, m: Meeting) {
    && FilesOk(m.fs) && (Library(m.dest) in m.fs.kept ==> Library(m.dest) in m.fs.names)
    && env.receiveOk == m.upload.Complete()
    && env.payload == m.hashes.DigestOf(m.upload.Stored())
    && env.readBackOk == m.readable
    && env.publishOk == (m.Delivers(e) && m.conditions.dirOpens)
  }

  lemma StagedFilesOk(m: Meeting)
    requires FilesOk(m.fs)
    ensures FilesOk(m.Staged()) && m.Staged().Holds(Part(m.id)) && m.Staged().Content(Part(m.id)) == m.upload.Stored()
    ensures m.upload.Complete() ==> m.Staged().names[Part(m.id)] in m.Staged().flushed
  {
  }

  /** The flow goes on past staging exactly if the promise accepts the bytes on the disk, which are flushed. */
  lemma StagedMeansAccepted(e: R.Expected, env: F.Environment, m: Meeting)
    requires Meets(env, e, m)
    ensures F.Staged(e, env) <==>
              && (e.canonical.size > 0 ==> env.spaceOk) && m.upload.Complete() && m.readable
              && Accepting(m.hashes, e.canonical)(m.Staged().Content(Part(m.id)))
  {
    StagedFilesOk(m);
  }

  /**
   Whoever reads published_to_filesystem, or anything later but an upload, from the journal finds the file in
   the library: whole, as it was staged, and accepted; for good, exactly if the directory's flush was honoured
   and the directory's own entry was on the disk already.
   */
  lemma PublishedStatesAreInTheLibrary(e: R.Expected, env: F.Environment, m: Meeting, path: seq<D.State>)
    requires Meets(env, e, m) && F.Supported(D.FilesystemPublication, e, env, path)
    requires D.PublishedToFilesystem in path || D.AwaitingRommIngestion in path || D.SourceActive in path
    ensures var t := m.After(e);
            && t.Holds(Library(m.dest)) && t.Content(Library(m.dest)) == m.upload.Stored()
            && Accepting(m.hashes, e.canonical)(t.Content(Library(m.dest)))
            && (Durable(t, m.dest) <==> m.conditions.dirFlushes && Folder(m.dest.folder) in m.fs.kept)
            && Undisturbed(m.Staged(), t)
  {
    assert F.Warrants(D.FilesystemPublication, e, env, D.PublishedToFilesystem)
        || F.Warrants(D.FilesystemPublication, e, env, D.AwaitingRommIngestion)
        || F.Warrants(D.FilesystemPublication, e, env, D.SourceActive);
    StagedMeansAccepted(e, env, m);
    StagedFilesOk(m);
    PublishedIsWholeOrAbsent(m.Staged(), m.id, m.dest, Accepting(m.hashes, e.canonical), m.conditions);
  }

  /**
   A publication refused is reported as cancelled, on the grounds that nothing reached the library. That is so
   unless the link was made and its directory could then not be opened to be flushed.
   */
  lemma CancelledMayHaveReachedTheLibrary(e: R.Expected, env: F.Environment, m: Meeting)
    requires Meets(env, e, m) && F.SettledHandOff(D.FilesystemPublication, env) == Some(F.Report(Some(D.Cancelled), true))
    ensures OnlyRivalAdded(m.Staged(), m.After(e), m.dest, m.conditions) <==> !m.Delivers(e) || m.conditions.dirOpens
    ensures m.Delivers(e) ==>
              m.After(e).Holds(Library(m.dest)) && m.After(e).Content(Library(m.dest)) == m.upload.Stored()
  {
    StagedFilesOk(m);
    PublishedIsWholeOrAbsent(m.Staged(), m.id, m.dest, Accepting(m.hashes, e.canonical), m.conditions);
  }
}
