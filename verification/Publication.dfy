/**
 The staging area and the publisher, one call at a time: receiving into staging, reading back, abandoning,
 cleaning up, and putting a verified payload into the library. Each call ends in the filesystem that its
 steps in `PublicationRuns` give, so what holds in every run holds of these.
 */
module Publication {
  import opened Numbers
  import opened Wrappers
  import opened Streams
  import opened Digests
  import opened Filesystem
  import opened PublicationRuns

  type Disk = Volume<Name, Byte>

  /** The four hash functions. Nothing is assumed of them. */
  datatype Hashes = Hashes(crc32: Bytes -> string, md5: Bytes -> string, sha1: Bytes -> string, sha256: Bytes -> string) {
    function DigestOf(content: Bytes): Digest {
      Digest(|content|, crc32(content), md5(content), sha1(content), sha256(content))
    }
  }

  /** A digest is accepted on SHA-256 agreement, if nothing recorded on both sides contradicts it. */
  predicate Accepts(got: Digest, expected: Digest) { Compare(got, expected) == Comparison(Strong, true) }

  /** What a digest promises: the contents it is accepted for. */
  function Accepting(h: Hashes, expected: Digest): Promise {
    (content: Bytes) => Accepts(h.DigestOf(content), expected)
  }

  /**
   A promise with the payload's own SHA-256 accepts the payload exactly if nothing else recorded contradicts
   it, and then, short of a collision, only the payload.
   */
  lemma PromiseIsOfThePayload(h: Hashes, expected: Digest, payload: Bytes, content: Bytes)
    requires Agrees(h.sha256(payload), expected.sha256)
    ensures Accepting(h, expected)(payload) <==> !Contradicts(h.DigestOf(payload), expected)
    ensures Accepting(h, expected)(content) ==>
              && Lower(h.sha256(content)) == Lower(h.sha256(payload))
              && (expected.size == 0 || |content| == 0 || |content| == expected.size)
  {
  }

  function Concat(chunks: seq<Bytes>): Bytes {
    if chunks == [] then [] else Concat(chunks[..|chunks| - 1]) + chunks[|chunks| - 1]
  }

  /** What arrives: the pieces, whether the stream ended properly, and what the disk does with them. */
  datatype Upload = Upload(chunks: seq<Bytes>, ends: bool, room: nat, flushes: bool) {
    function Stored(): Bytes { Concat(chunks[..Min(room, |chunks|)]) }

    predicate Complete() { ends && |chunks| <= room && flushes }
  }

  /** The filesystem after receiving: one file holding what was stored, flushed only if all of it was. */
  function Received(fs: Fs, id: TransferId, u: Upload): Fs {
    var o := OpenTruncated(fs, Part(id));
    var ino := o.names[Part(id)];
    o.(data := o.data[ino := u.Stored()], flushed := if u.Complete() then o.flushed + {ino} else o.flushed - {ino})
  }

  /**
   A received file holds the pieces that fitted, and is on the disk exactly if the stream ended properly, all of
   it fitted and the flush was honoured.
   */
  lemma ReceivedIsFlushedExactlyIf(fs: Fs, id: TransferId, u: Upload)
    ensures var t := Received(fs, id, u);
            && t.Holds(Part(id)) && t.Content(Part(id)) == Concat(u.chunks[..Min(u.room, |u.chunks|)])
            && (t.names[Part(id)] in t.flushed <==> u.ends && |u.chunks| <= u.room && u.flushes)
            && (|u.chunks| <= u.room ==> t.Content(Part(id)) == Concat(u.chunks))
  {
    assert u.chunks[..|u.chunks|] == u.chunks;
  }

  /** One entry of the staging directory; `others` are not transfers. */
  datatype DirEntry = DirEntry(isDirectory: bool, part: Option<TransferId>, statOk: bool, modified: int, removable: bool)

  const DEFAULT_ABANDONED_AFTER := 48 * 3600

  predicate Abandoned(e: DirEntry, olderThan: int, now: int) {
    && !e.isDirectory && e.part.Some? && e.statOk
    && now - e.modified >= (if olderThan <= 0 then DEFAULT_ABANDONED_AFTER else olderThan)
  }

  /**
   Which staged files count as abandoned: those last written at least the window ago, 48 hours unless a positive
   one is given; never a directory, anything else in the folder, or a file whose age could not be read.
   */
  lemma AbandonedExactlyIf(e: DirEntry, olderThan: int, now: int)
    ensures Abandoned(e, olderThan, now)
       <==> && !e.isDirectory && e.part.Some? && e.statOk
            && (olderThan > 0 ==> e.modified + olderThan <= now)
            && (olderThan <= 0 ==> e.modified + 172_800 <= now)
    ensures e.modified > now ==> !Abandoned(e, olderThan, now)
  {
  }

  /** An abandoned entry whose name can be removed, and is still there. */
  predicate Goes(names: set<Name>, e: DirEntry, olderThan: int, now: int) {
    Abandoned(e, olderThan, now) && e.removable && Part(e.part.value) in names
  }

  /** The staged names a cleanup removes. */
  function Swept(names: set<Name>, entries: seq<DirEntry>, olderThan: int, now: int): set<Name> {
    set k | 0 <= k < |entries| && Goes(names, entries[k], olderThan, now) :: Part(entries[k].part.value)
  }

  class Staging {
    const disk: Disk
    const hashes: Hashes

    constructor (disk: Disk, hashes: Hashes)
      ensures this.disk == disk && this.hashes == hashes
    {
      this.disk, this.hashes := disk, hashes;
    }

    /** Write the pieces one by one, then flush. Nothing but the transfer's own staged file changes. */
    method Receive(id: TransferId, u: Upload) returns (ok: bool)
      modifies disk
      ensures ok == u.Complete()
      ensures disk.View() == Received(old(disk.View()), id, u)
    {
      var ino := disk.OpenForWriting(Part(id));
      ghost var begun := disk.View();
      var i := 0;
      while i < |u.chunks|
        invariant i <= |u.chunks| && i <= u.room && ino in disk.data
        invariant disk.View() == begun.(data := begun.data[ino := Concat(u.chunks[..i])])
      {
        if i == u.room {
          return false;
        }
        assert u.chunks[..i + 1][..i] == u.chunks[..i];
        disk.Append(ino, u.chunks[i]);
        i := i + 1;
      }
      assert u.chunks[..Min(u.room, |u.chunks|)] == u.chunks[..i];
      if !u.ends || !u.flushes {
        return false;
      }
      disk.Sync(ino);
      ok := true;
    }

    /**
     Read the staged bytes back. They are accepted exactly if the promise accepts them, and what was received
     is reported either way. Reading changes nothing.
     */
    method Verify(id: TransferId, expected: Digest, readable: bool) returns (got: Digest, ok: bool)
      requires Sound(disk.View())
      ensures ok <==> readable && disk.View().Holds(Part(id)) && Accepting(hashes, expected)(disk.View().Content(Part(id)))
      ensures readable && disk.View().Holds(Part(id)) ==> got == hashes.DigestOf(disk.View().Content(Part(id)))
    {
      if !readable || Part(id) !in disk.names {
        return Digest(0, "", "", "", ""), false;
      }
      got := hashes.DigestOf(disk.data[disk.names[Part(id)]]);
      var strength, agrees := CompareFields(got, expected);
      ok := agrees && Rank(strength) >= Rank(Strong);
    }

    method Abandon(id: TransferId, removable: bool) returns (ok: bool)
      modifies disk
      ensures ok == (removable || Part(id) !in old(disk.names))
      ensures disk.View() == if removable then Remove(old(disk.View()), Part(id)) else old(disk.View())
    {
      var present := Part(id) in disk.names;
      var removed := disk.Unlink(Part(id), removable);
      ok := removed || !present;
    }

    /** One entry of the listing: what is not a transfer's, or is too recent, is left alone. */
    method Consider(e: DirEntry, window: int, ghost olderThan: int, now: int) returns (gone: bool, hindered: bool)
      requires window == if olderThan <= 0 then DEFAULT_ABANDONED_AFTER else olderThan
      modifies disk
      ensures gone == Goes(old(disk.names).Keys, e, olderThan, now)
      ensures hindered == Hinders(old(disk.names).Keys, e, olderThan, now)
      ensures disk.View() == if gone then Remove(old(disk.View()), Part(e.part.value)) else old(disk.View())
    {
      if e.isDirectory || e.part.None? {
        return false, false;
      }
      if !e.statOk {
        return false, true;
      }
      if now - e.modified < window {
        return false, false;
      }
      gone := disk.Unlink(Part(e.part.value), e.removable);
      hindered := !gone;
    }

    /**
     Remove the staged names untouched for the whole window. The names removed are exactly those, no bytes
     are lost under any other name, and the error reports that some entry could not be looked at or removed.
     An entry that has gone since the listing was read counts as one that could not be removed.
     */
    method CleanupAbandoned(entries: seq<DirEntry>, olderThan: int, now: int) returns (removed: nat, failed: bool)
      requires DistinctEntries(entries)
      modifies disk
      ensures disk.View() == old(disk.View()).(names := old(disk.names) - Swept(old(disk.names).Keys, entries, olderThan, now))
      ensures removed == |Swept(old(disk.names).Keys, entries, olderThan, now)|
      ensures failed <==> AnyHinders(old(disk.names).Keys, entries, olderThan, now)
    {
      var window := if olderThan <= 0 then DEFAULT_ABANDONED_AFTER else olderThan;
      ghost var names := disk.names.Keys;
      removed, failed := 0, false;
      var i := 0;
      while i < |entries|
        invariant i <= |entries|
        invariant disk.View() == old(disk.View()).(names := old(disk.names) - Swept(names, entries[..i], olderThan, now))
        invariant removed == |Swept(names, entries[..i], olderThan, now)|
        invariant failed <==> AnyHinders(names, entries[..i], olderThan, now)
      {
        SweptByOne(old(disk.View()), entries, i, olderThan, now);
        var gone, hindered := Consider(entries[i], window, olderThan, now);
        i := i + 1;
        if gone {
          removed := removed + 1;
        }
        failed := failed || hindered;
      }
      assert entries[..i] == entries;
    }
  }

  predicate AnyHinders(names: set<Name>, entries: seq<DirEntry>, olderThan: int, now: int) {
    && entries != []
    && (|| AnyHinders(names, entries[..|entries| - 1], olderThan, now)
        || Hinders(names, entries[|entries| - 1], olderThan, now))
  }

  /** One entry more: those before it make no difference to it. */
  lemma SweptByOne(fs: Fs, entries: seq<DirEntry>, i: nat, olderThan: int, now: int)
    requires i < |entries| && DistinctEntries(entries)
    ensures var names, e := fs.names.Keys, entries[i];
            var before, after := Swept(names, entries[..i], olderThan, now), Swept(names, entries[..i + 1], olderThan, now);
            var left := fs.(names := fs.names - before);
            && (Goes(left.names.Keys, e, olderThan, now) <==> Goes(names, e, olderThan, now))
            && (Hinders(left.names.Keys, e, olderThan, now) <==> Hinders(names, e, olderThan, now))
            && (AnyHinders(names, entries[..i + 1], olderThan, now) <==>
                  AnyHinders(names, entries[..i], olderThan, now) || Hinders(names, e, olderThan, now))
            && (if Goes(names, e, olderThan, now) then
                  |after| == |before| + 1 && Remove(left, Part(e.part.value)) == fs.(names := fs.names - after)
                else after == before)
  {
    var names, e := fs.names.Keys, entries[i];
    assert entries[..i + 1][..i] == entries[..i];
    SweptGrows(names, entries, i, olderThan, now);
    if Goes(names, e, olderThan, now) {
      var before := Swept(names, entries[..i], olderThan, now);
      assert fs.names - before - {Part(e.part.value)} == fs.names - (before + {Part(e.part.value)});
    }
  }

  /** A directory lists each name once. */
  predicate DistinctEntries(entries: seq<DirEntry>) {
    forall j, k :: 0 <= j < k < |entries| && entries[j].part.Some? ==> entries[j].part != entries[k].part
  }

  /** An entry that should have been looked at or removed and could not be. */
  predicate Hinders(names: set<Name>, e: DirEntry, olderThan: int, now: int) {
    || (!e.isDirectory && e.part.Some? && !e.statOk)
    || (Abandoned(e, olderThan, now) && !Goes(names, e, olderThan, now))
  }

  /**
   What becomes of one entry: an abandoned file is removed, or it is an error, and not both: an error exactly if
   its removal is refused or its name has gone. A file whose age cannot be read is an error and stays; a recent
   one, a directory and anything that is no transfer's is left alone without one.
   */
  lemma AbandonedIsRemovedOrAnError(names: set<Name>, e: DirEntry, olderThan: int, now: int)
    ensures var gone, error := Goes(names, e, olderThan, now), Hinders(names, e, olderThan, now);
            && !(gone && error)
            && (gone <==> Abandoned(e, olderThan, now) && e.removable && Part(e.part.value) in names)
            && (Abandoned(e, olderThan, now) && error <==>
                  Abandoned(e, olderThan, now) && !(e.removable && Part(e.part.value) in names))
            && (error && !Abandoned(e, olderThan, now) <==> e.part.Some? && !e.isDirectory && !e.statOk)
  {
  }

  lemma SweptGrows(names: set<Name>, entries: seq<DirEntry>, i: nat, olderThan: int, now: int)
    requires i < |entries| && DistinctEntries(entries)
    ensures var e := entries[i];
            var before := Swept(names, entries[..i], olderThan, now);
            && (e.part.Some? ==> Part(e.part.value) !in before)
            && Swept(names, entries[..i + 1], olderThan, now)
               == before + if Goes(names, e, olderThan, now) then {Part(e.part.value)} else {}
  {
    var before, after := Swept(names, entries[..i], olderThan, now), Swept(names, entries[..i + 1], olderThan, now);
    forall n | n in before ensures n in after {
      var k :| 0 <= k < i && Goes(names, entries[..i][k], olderThan, now) && n == Part(entries[..i][k].part.value);
      assert entries[..i + 1][k] == entries[..i][k];
    }
    forall n | n in after ensures n in before || (Goes(names, entries[i], olderThan, now) && n == Part(entries[i].part.value)) {
      var k :| 0 <= k < i + 1 && Goes(names, entries[..i + 1][k], olderThan, now) && n == Part(entries[..i + 1][k].part.value);
      if k < i { assert entries[..i][k] == entries[..i + 1][k]; }
    }
    if Goes(names, entries[i], olderThan, now) {
      assert entries[..i + 1][i] == entries[i];
    }
  }

  // ---- Publishing ----

  /**
   What one publication meets: whether the staged file is on the library's filesystem, how much of a copy
   fits, what is refused, and what somebody else may put at the path between the check and the link.
   */
  datatype Conditions = Conditions(
    sameFilesystem: bool,
    room: nat,
    tempOk: bool,
    flushOk: bool,
    chmodOk: bool,
    folderOk: bool,
    rival: Option<Bytes>,
    linkOk: bool,
    dirOpens: bool,
    dirFlushes: bool,
    removes: bool)

  datatype Outcome = Published | DestinationExists | Refused

  /** A copy that reaches the library's filesystem whole and hashes to what was promised. */
  predicate CopySucceeds(fs: Fs, id: TransferId, promise: Promise, c: Conditions) {
    && c.tempOk && fs.Holds(Part(id)) && |fs.Content(Part(id))| <= c.room && c.flushOk
    && promise(fs.Content(Part(id))) && c.chmodOk
  }

  /** The copy: a new file, with the whole content if it succeeds and no name if it does not. */
  function AfterCopy(fs: Fs, id: TransferId, promise: Promise, c: Conditions): Fs {
    if !c.tempOk || !fs.Holds(Part(id)) then fs
    else
      var made := Create(fs, Temp(fs.next));
      var source := fs.Content(Part(id));
      var written := Write(made, fs.next, source[..Min(c.room, |source|)]);
      var done := if |source| <= c.room && c.flushOk then Flush(written, fs.next) else written;
      if CopySucceeds(fs, id, promise, c) || !c.removes then done else Remove(done, Temp(fs.next))
  }

  function WithRival(fs: Fs, dest: Path, c: Conditions): Fs {
    if c.rival.Some? then Place(fs, Library(dest), c.rival.value) else fs
  }

  /** The link, the flush of its directory, and the removal of what is left over. */
  function AfterInstall(fs: Fs, source: Name, dest: Path, c: Conditions): Fs {
    var lands := c.linkOk && Linkable(fs, source, Library(dest));
    var linked := if lands then Link(fs, source, Library(dest)) else fs;
    var settled := if lands && c.dirOpens && c.dirFlushes then FlushEntry(linked, Library(dest)) else linked;
    if c.removes && ((lands && c.dirOpens) || source.Temp?) then Remove(settled, source) else settled
  }

  function AfterLink(fs: Fs, source: Name, dest: Path, c: Conditions): Fs {
    AfterInstall(WithRival(fs, dest, c), source, dest, c)
  }

  /** Once the folder is there. */
  function AfterDelivery(fs: Fs, id: TransferId, dest: Path, promise: Promise, c: Conditions): Fs {
    if Library(dest) in fs.names || Part(id) !in fs.names then fs
    else if c.sameFilesystem then AfterLink(fs, Part(id), dest, c)
    else if CopySucceeds(fs, id, promise, c) then
      AfterLink(AfterCopy(fs, id, promise, c), Temp(fs.next), dest, c)
    else AfterCopy(fs, id, promise, c)
  }

  /** Making a folder that is there succeeds. */
  predicate FolderReady(fs: Fs, dest: Path, c: Conditions) { Folder(dest.folder) in fs.names || c.folderOk }

  function AfterPublish(fs: Fs, id: TransferId, dest: Path, promise: Promise, c: Conditions): Fs {
    if FolderReady(fs, dest, c) then AfterDelivery(WithFolder(fs, dest), id, dest, promise, c) else fs
  }

  /** Exactly when the payload gets into the library. */
  predicate Reaches(fs: Fs, id: TransferId, dest: Path, promise: Promise, c: Conditions) {
    && FolderReady(fs, dest, c) && Library(dest) !in fs.names && Part(id) in fs.names && c.linkOk && c.rival.None?
    && (c.sameFilesystem || CopySucceeds(fs, id, promise, c))
  }

  lemma WriteTwice(fs: Fs, ino: Ino, a: Bytes, b: Bytes)
    ensures Write(Write(fs, ino, a), ino, b) == Write(fs, ino, a + b)
  {
    if ino in fs.data {
      assert fs.data[ino] + a + b == fs.data[ino] + (a + b);
      assert Write(Write(fs, ino, a), ino, b).data == Write(fs, ino, a + b).data;
    }
  }

  lemma WriteMore(fs: Fs, ino: Ino, source: Bytes, i: nat, j: nat)
    requires i <= j <= |source|
    ensures source[..i] + source[i..j] == source[..j]
    ensures Write(Write(fs, ino, source[..i]), ino, source[i..j]) == Write(fs, ino, source[..j])
  {
    assert source[..i] + source[i..j] == source[..j];
    WriteTwice(fs, ino, source[..i], source[i..j]);
  }

  lemma WriteNothing(fs: Fs, ino: Ino)
    requires ino !in fs.flushed
    ensures Write(fs, ino, []) == fs
  {
    if ino in fs.data {
      assert fs.data[ino] + [] == fs.data[ino];
    }
  }

  /** Somebody else's file took the path between the check and the link. */
  predicate Outrun(fs: Fs, id: TransferId, dest: Path, promise: Promise, c: Conditions) {
    && FolderReady(fs, dest, c) && Part(id) in fs.names && (c.sameFilesystem || CopySucceeds(fs, id, promise, c)) && c.linkOk && c.rival.Some?
  }

  class Publisher {
    const disk: Disk
    const hashes: Hashes

    constructor (disk: Disk, hashes: Hashes)
      ensures this.disk == disk && this.hashes == hashes
    {
      this.disk, this.hashes := disk, hashes;
    }

    /** Copy onto the library's filesystem piece by piece, flush, and check the hash of what was copied. */
    method Copy(id: TransferId, expected: Digest, c: Conditions, pieces: seq<nat>) returns (ok: bool, tmp: nat)
      requires FilesOk(disk.View()) && Part(id) in disk.names
      modifies disk
      ensures ok == CopySucceeds(old(disk.View()), id, Accepting(hashes, expected), c)
      ensures disk.View() == AfterCopy(old(disk.View()), id, Accepting(hashes, expected), c)
      ensures ok ==> tmp == old(disk.next)
    {
      ok, tmp := false, disk.next;
      if !c.tempOk {
        return;
      }
      var source := disk.data[disk.names[Part(id)]];
      var ino := disk.New(Temp(tmp));
      var limit := Min(c.room, |source|);
      var hashed := CopyBytes(source[..limit], ino, pieces);
      assert source[..|source|] == source;
      if limit < |source| || !c.flushOk {
        var _ := disk.Unlink(Temp(tmp), c.removes);
        return;
      }
      disk.Sync(ino);
      var strength, agrees := CompareFields(hashes.DigestOf(hashed), expected);
      if !agrees || Rank(strength) < Rank(Strong) || !c.chmodOk {
        var _ := disk.Unlink(Temp(tmp), c.removes);
        return;
      }
      ok := true;
    }

    /** The bytes go to the new file in pieces, and are hashed on the way. */
    method CopyBytes(source: Bytes, ino: Ino, pieces: seq<nat>) returns (hashed: Bytes)
      requires ino in disk.data && ino !in disk.flushed
      modifies disk`data, disk`flushed
      ensures disk.View() == Write(old(disk.View()), ino, source) && hashed == source
    {
      hashed := [];
      var k := 0;
      WriteNothing(disk.View(), ino);
      while |hashed| < |source|
        invariant |hashed| <= |source| && hashed == source[..|hashed|] && ino in disk.data
        invariant disk.View() == Write(old(disk.View()), ino, hashed)
      {
        var left := |source| - |hashed|;
        var size := if k < |pieces| && pieces[k] > 0 then Min(pieces[k], left) else left;
        var chunk := source[|hashed|..|hashed| + size];
        disk.Append(ino, chunk);
        WriteMore(old(disk.View()), ino, source, |hashed|, |hashed| + size);
        hashed, k := hashed + chunk, k + 1;
      }
    }

    /**
     Put a staged payload at its path. The path shows the staged bytes whole exactly if `Reaches`, and
     otherwise nothing of this transfer is in the library. Nothing already there is touched either way. The
     call fails although the payload is there exactly if the directory then cannot be opened to be flushed.
     */
    method Publish(id: TransferId, dest: Path, expected: Digest, c: Conditions, pieces: seq<nat>) returns (r: Outcome)
      requires FilesOk(disk.View())
      modifies disk
      ensures r.Published? <==> Reaches(old(disk.View()), id, dest, Accepting(hashes, expected), c) && c.dirOpens
      ensures r.DestinationExists? <==>
                Library(dest) in old(disk.names) || Outrun(old(disk.View()), id, dest, Accepting(hashes, expected), c)
      ensures disk.View() == AfterPublish(old(disk.View()), id, dest, Accepting(hashes, expected), c)
    {
      FolderChangesNoFile(disk.View(), dest, id, Accepting(hashes, expected), c);
      if Folder(dest.folder) !in disk.names {
        if !c.folderOk {
          return Refused;
        }
        var _ := disk.New(Folder(dest.folder));
      }
      r := Deliver(id, dest, expected, c, pieces);
    }

    /** The path is free, the staged file is there, and it or a copy of it is linked. */
    method Deliver(id: TransferId, dest: Path, expected: Digest, c: Conditions, pieces: seq<nat>) returns (r: Outcome)
      requires FilesOk(disk.View()) && Folder(dest.folder) in disk.names
      modifies disk
      ensures r.Published? <==> Reaches(old(disk.View()), id, dest, Accepting(hashes, expected), c) && c.dirOpens
      ensures r.DestinationExists? <==>
                Library(dest) in old(disk.names) || Outrun(old(disk.View()), id, dest, Accepting(hashes, expected), c)
      ensures disk.View() == AfterDelivery(old(disk.View()), id, dest, Accepting(hashes, expected), c)
    {
      if Library(dest) in disk.names {
        return DestinationExists;
      }
      if Part(id) !in disk.names {
        return Refused;
      }
      var source := Part(id);
      if !c.sameFilesystem {
        var ok, tmp := Copy(id, expected, c, pieces);
        if !ok {
          return Refused;
        }
        source := Temp(tmp);
      }
      if c.rival.Some? {
        disk.Rival(Library(dest), c.rival.value);
      }
      r := Install(source, dest, c);
    }

    /** The link that fails if anything has the name by now, then the flush, then what is left over. */
    method Install(source: Name, dest: Path, c: Conditions) returns (r: Outcome)
      requires source in disk.names && !source.Library?
      modifies disk
      ensures r.Published? <==> c.linkOk && Library(dest) !in old(disk.names) && c.dirOpens
      ensures r.DestinationExists? <==> c.linkOk && Library(dest) in old(disk.names)
      ensures disk.View() == AfterInstall(old(disk.View()), source, dest, c)
    {
      var linked := disk.HardLink(source, Library(dest), c.linkOk);
      r := if c.linkOk && !linked then DestinationExists else Refused;
      if linked && c.dirOpens {
        r := Published;
        if c.dirFlushes {
          disk.SyncEntry(Library(dest));
        }
      }
      if r.Published? || source.Temp? {
        var _ := disk.Unlink(source, c.removes);
      }
    }
  }

  /** Making a folder changes no file and nothing a copy depends on. */
  lemma FolderChangesNoFile(fs: Fs, dest: Path, id: TransferId, promise: Promise, c: Conditions)
    requires FilesOk(fs)
    ensures var t := WithFolder(fs, dest);
            && FilesOk(t) && Folder(dest.folder) in t.names && t.kept == fs.kept
            && (forall n :: n != Folder(dest.folder) ==>
                  (n in t.names <==> n in fs.names) && (n in fs.names ==> t.names[n] == fs.names[n])
                  && (t.Holds(n) <==> fs.Holds(n)) && (fs.Holds(n) ==> t.Content(n) == fs.Content(n)))
            && (CopySucceeds(t, id, promise, c) <==> CopySucceeds(fs, id, promise, c))
  {
  }

  /** The library's files of `fs` are there in `t`, and nothing else is but what somebody else may have put at `dest`. */
  ghost predicate OnlyRivalAdded(fs: Fs, t: Fs, dest: Path, c: Conditions) {
    && Undisturbed(fs, t)
    && (forall p: Path :: Library(p) in t.names && Library(p) !in fs.names ==>
          p == dest && c.rival.Some? && t.Holds(Library(p)) && t.Content(Library(p)) == c.rival.value)
  }

  ghost predicate Undisturbed(fs: Fs, t: Fs) {
    forall p: Path :: fs.Holds(Library(p)) ==> t.Holds(Library(p)) && t.Content(Library(p)) == fs.Content(Library(p))
  }

  lemma CopyTouchesNoLibraryFile(fs: Fs, id: TransferId, promise: Promise, c: Conditions)
    requires FilesOk(fs)
    ensures var t := AfterCopy(fs, id, promise, c);
            && Undisturbed(fs, t) && FilesOk(t) && (forall p: Path :: Library(p) in t.names <==> Library(p) in fs.names)
            && (CopySucceeds(fs, id, promise, c) ==> t.Holds(Temp(fs.next)) && t.Content(Temp(fs.next)) == fs.Content(Part(id)))
  {
    if CopySucceeds(fs, id, promise, c) {
      var source := fs.Content(Part(id));
      assert [] + source[..Min(c.room, |source|)] == source;
    }
  }

  lemma LinkAddsOneFile(fs: Fs, source: Name, dest: Path, c: Conditions)
    requires FilesOk(fs) && source in fs.names && !source.Library? && Library(dest) !in fs.names && Library(dest) !in fs.kept
    ensures var t := AfterLink(fs, source, dest, c);
            && (c.linkOk && c.rival.None? ==>
                  && Undisturbed(fs, t) && t.Holds(Library(dest)) && t.Content(Library(dest)) == fs.Content(source)
                  && (Library(dest) in t.kept <==> c.dirOpens && c.dirFlushes)
                  && (forall d: nat :: Folder(d) in t.kept <==> Folder(d) in fs.kept))
            && (!(c.linkOk && c.rival.None?) ==> OnlyRivalAdded(fs, t, dest, c))
  {
  }

  lemma DeliveredIsWholeOrAbsent(fs: Fs, id: TransferId, dest: Path, promise: Promise, c: Conditions)
    requires FilesOk(fs) && Folder(dest.folder) in fs.names && (Library(dest) in fs.kept ==> Library(dest) in fs.names)
    ensures var t := AfterDelivery(fs, id, dest, promise, c);
            if Reaches(fs, id, dest, promise, c) then
              && Undisturbed(fs, t) && t.Holds(Library(dest)) && t.Content(Library(dest)) == fs.Content(Part(id))
              && (Durable(t, dest) <==> c.dirOpens && c.dirFlushes && Folder(dest.folder) in fs.kept)
            else OnlyRivalAdded(fs, t, dest, c)
  {
    CopyTouchesNoLibraryFile(fs, id, promise, c);
    if Library(dest) !in fs.names && Part(id) in fs.names {
      if c.sameFilesystem {
        LinkAddsOneFile(fs, Part(id), dest, c);
      } else if CopySucceeds(fs, id, promise, c) {
        LinkAddsOneFile(AfterCopy(fs, id, promise, c), Temp(fs.next), dest, c);
      }
    }
  }

  /**
   What a publication leaves in the library, whatever it reports. The file is there for good exactly if the
   flush of its directory was honoured and the directory's own entry was on the disk already.
   */
  lemma PublishedIsWholeOrAbsent(fs: Fs, id: TransferId, dest: Path, promise: Promise, c: Conditions)
    requires FilesOk(fs) && (Library(dest) in fs.kept ==> Library(dest) in fs.names)
    ensures var t := AfterPublish(fs, id, dest, promise, c);
            if Reaches(fs, id, dest, promise, c) then
              && Undisturbed(fs, t) && t.Holds(Library(dest)) && t.Content(Library(dest)) == fs.Content(Part(id))
              && (Durable(t, dest) <==> c.dirOpens && c.dirFlushes && Folder(dest.folder) in fs.kept)
            else OnlyRivalAdded(fs, t, dest, c)
  {
    FolderChangesNoFile(fs, dest, id, promise, c);
    if FolderReady(fs, dest, c) {
      DeliveredIsWholeOrAbsent(WithFolder(fs, dest), id, dest, promise, c);
      ThroughTheFolder(fs, dest, AfterPublish(fs, id, dest, promise, c), c);
    }
  }

  lemma ThroughTheFolder(fs: Fs, dest: Path, t: Fs, c: Conditions)
    requires FilesOk(fs)
    ensures Undisturbed(WithFolder(fs, dest), t) ==> Undisturbed(fs, t)
    ensures OnlyRivalAdded(WithFolder(fs, dest), t, dest, c) ==> OnlyRivalAdded(fs, t, dest, c)
  {
  }

  // ---- Each call is a run of its steps ----

  function WriteSteps(id: TransferId, chunks: seq<Bytes>): seq<Step> {
    seq(|chunks|, i requires 0 <= i < |chunks| => WriteSome(id, chunks[i]))
  }

  lemma {:induction false} WritesAccumulate(s: State, id: TransferId, chunks: seq<Bytes>)
    requires id in s.flows && s.flows[id].phase.Writing? && s.flows[id].phase.ino !in s.fs.flushed
    ensures Run(s, WriteSteps(id, chunks)) == s.(fs := Write(s.fs, s.flows[id].phase.ino, Concat(chunks)))
    decreases |chunks|
  {
    var ino := s.flows[id].phase.ino;
    if chunks == [] {
      WriteNothing(s.fs, ino);
    } else {
      var init, last := chunks[..|chunks| - 1], chunks[|chunks| - 1];
      assert WriteSteps(id, chunks) == WriteSteps(id, init) + [WriteSome(id, last)];
      RunSplit(s, WriteSteps(id, init), [WriteSome(id, last)]);
      WritesAccumulate(s, id, init);
      RunOne(Run(s, WriteSteps(id, init)), WriteSome(id, last));
      WriteTwice(s.fs, ino, Concat(init), last);
    }
  }

  function ReceiveSteps(id: TransferId, u: Upload): seq<Step> {
    [Open(id)] + WriteSteps(id, u.chunks[..Min(u.room, |u.chunks|)]) + [if u.Complete() then FlushStaged(id) else GiveUp(id, false)]
  }

  /** Receiving is opening, writing each piece, and flushing or giving up. */
  lemma ReceiveIsARun(s: State, id: TransferId, u: Upload)
    requires id in s.flows && s.flows[id].phase.Begun?
    ensures Run(s, ReceiveSteps(id, u)).fs == Received(s.fs, id, u)
  {
    var chunks := u.chunks[..Min(u.room, |u.chunks|)];
    var t := NextOpen(s, id);
    var last := if u.Complete() then FlushStaged(id) else GiveUp(id, false);
    RunSplit(s, [Open(id)] + WriteSteps(id, chunks), [last]);
    RunSplit(s, [Open(id)], WriteSteps(id, chunks));
    RunOne(s, Open(id));
    WritesAccumulate(t, id, chunks);
    LastIsARun(t, id, u);
    StoredIs(s.fs, id, u);
  }

  lemma LastIsARun(t: State, id: TransferId, u: Upload)
    requires id in t.flows && t.flows[id].phase.Writing?
    ensures var ino := t.flows[id].phase.ino;
            var w := Write(t.fs, ino, u.Stored());
            Run(t.(fs := w), [if u.Complete() then FlushStaged(id) else GiveUp(id, false)]).fs
            == if u.Complete() then Flush(w, ino) else w
  {
    var w := Write(t.fs, t.flows[id].phase.ino, u.Stored());
    RunOne(t.(fs := w), if u.Complete() then FlushStaged(id) else GiveUp(id, false));
  }

  lemma StoredIs(fs: Fs, id: TransferId, u: Upload)
    ensures var o := OpenTruncated(fs, Part(id));
            var w := Write(o, o.names[Part(id)], u.Stored());
            Received(fs, id, u) == if u.Complete() then Flush(w, o.names[Part(id)]) else w
  {
    var o := OpenTruncated(fs, Part(id));
    var ino := o.names[Part(id)];
    assert o.data[ino] + u.Stored() == u.Stored();
    assert Write(o, ino, u.Stored()).data == o.data[ino := u.Stored()];
    assert o.flushed - {ino} + {ino} == o.flushed + {ino};
  }

  /** From the rechecked path to the end: a rival may come first, then the link, then what is left over goes. */
  function LinkSteps(id: TransferId, dest: Path, c: Conditions): seq<Step> {
    (if c.rival.Some? then [Outsider(dest, c.rival.value)] else []) + EndSteps(id, c)
  }

  function EndSteps(id: TransferId, c: Conditions): seq<Step> {
    if c.linkOk then [PutInPlace(id), FlushLibrary(id, c.dirOpens, c.dirFlushes, c.removes), Tidy(id, c.removes)]
    else [GiveUp(id, c.removes)]
  }

  lemma LinkIsARun(s: State, id: TransferId, source: Name, c: Conditions)
    requires id in s.flows && Linkable(s.fs, source, Library(s.flows[id].dest))
    requires Ready(s, id, source) && Folder(s.flows[id].dest.folder) in s.fs.names
    ensures Run(s, LinkSteps(id, s.flows[id].dest, c)).fs == AfterLink(s.fs, source, s.flows[id].dest, c)
  {
    var dest := s.flows[id].dest;
    var rival := if c.rival.Some? then [Outsider(dest, c.rival.value)] else [];
    var t := if c.rival.Some? then NextOutsider(s, dest, c.rival.value) else s;
    RunSplit(s, rival, EndSteps(id, c));
    if c.rival.Some? {
      RunOne(s, Outsider(dest, c.rival.value));
    }
    EndIsARun(t, id, source, c);
  }

  lemma EndIsARun(t: State, id: TransferId, source: Name, c: Conditions)
    requires Ready(t, id, source)
    ensures Run(t, EndSteps(id, c)).fs == AfterInstall(t.fs, source, t.flows[id].dest, c)
  {
    if c.linkOk {
      RunThree(t, PutInPlace(id), FlushLibrary(id, c.dirOpens, c.dirFlushes, c.removes), Tidy(id, c.removes));
      InstallIsARun(t, id, source, c);
    } else {
      RunOne(t, GiveUp(id, c.removes));
      GivingUpIsARun(t, id, source, c);
    }
  }

  lemma GivingUpIsARun(t: State, id: TransferId, source: Name, c: Conditions)
    requires Ready(t, id, source) && !c.linkOk
    ensures NextGiveUp(t, id, c.removes).fs == AfterInstall(t.fs, source, t.flows[id].dest, c)
  {
  }

  /** The phase from which `source` is linked. */
  ghost predicate Ready(s: State, id: TransferId, source: Name) {
    && id in s.flows && source in s.fs.names
    && (|| (s.flows[id].phase.Clear? && s.flows[id].sameFilesystem && source == Part(id))
        || (s.flows[id].phase.Copied? && source == Temp(s.flows[id].phase.tmp)))
  }

  lemma InstallIsARun(t: State, id: TransferId, source: Name, c: Conditions)
    requires Ready(t, id, source) && c.linkOk
    ensures NextTidy(NextFlushLibrary(NextPut(t, id), id, c.dirOpens, c.dirFlushes, c.removes), id, c.removes).fs
            == AfterInstall(t.fs, source, t.flows[id].dest, c)
  {
    var u := NextPut(t, id);
    if Linkable(t.fs, source, Library(t.flows[id].dest)) {
      FlushAndTidy(u, id, source, c);
    } else {
      assert u.fs == t.fs && (id in u.flows ==> u.flows[id].phase == Closing(source));
      assert id in u.flows <==> source.Temp?;
    }
  }

  lemma FlushAndTidy(u: State, id: TransferId, source: Name, c: Conditions)
    requires id in u.flows && u.flows[id].phase == Linked(source)
    ensures var settled := if c.dirOpens && c.dirFlushes then FlushEntry(u.fs, Library(u.flows[id].dest)) else u.fs;
            NextTidy(NextFlushLibrary(u, id, c.dirOpens, c.dirFlushes, c.removes), id, c.removes).fs
            == if c.removes && (c.dirOpens || source.Temp?) then Remove(settled, source) else settled
  {
  }

  function CopySteps(id: TransferId, size: nat, c: Conditions): seq<Step> {
    if !c.tempOk then [GiveUp(id, c.removes)]
    else if size > c.room || !c.flushOk then [StartCopy(id), CopySome(id, c.room, None), GiveUp(id, c.removes)]
    else if c.chmodOk then [StartCopy(id), CopySome(id, c.room, None), FinishCopy(id, c.removes)]
    else [StartCopy(id), CopySome(id, c.room, None), FinishCopy(id, c.removes), GiveUp(id, c.removes)]
  }

  lemma CopyIsARun(s: State, id: TransferId, c: Conditions)
    requires FilesOk(s.fs) && id in s.flows && s.flows[id].phase.Clear? && !s.flows[id].sameFilesystem
    requires Part(id) in s.fs.names
    ensures var t := Run(s, CopySteps(id, |s.fs.Content(Part(id))|, c));
            && t.fs == AfterCopy(s.fs, id, s.flows[id].expected, c)
            && (CopySucceeds(s.fs, id, s.flows[id].expected, c) ==>
                  id in t.flows && t.flows[id] == s.flows[id].(phase := Copied(s.fs.next)))
  {
    if !c.tempOk {
      RunOne(s, GiveUp(id, c.removes));
    } else {
      var steps := CopySteps(id, |s.fs.Content(Part(id))|, c);
      var head := [StartCopy(id), CopySome(id, c.room, None)];
      assert steps == head + steps[2..];
      RunSplit(s, head, steps[2..]);
      CopyWrites(s, id, c);
      CopyFinishes(s, Run(s, head), id, c);
    }
  }

  /** What the copy has written when the stream ends or the disk is full. */
  ghost predicate Copies(s: State, t: State, id: TransferId, c: Conditions)
    requires id in s.flows && s.fs.Holds(Part(id))
  {
    var source := s.fs.Content(Part(id));
    var n := Min(c.room, |source|);
    && id in t.flows
    && t.flows[id] == s.flows[id].(phase := Copying(s.fs.next, s.fs.next, s.fs.names[Part(id)], n, source[..n]))
    && t.fs == Write(Create(s.fs, Temp(s.fs.next)), s.fs.next, source[..n])
    && s.fs.names[Part(id)] in t.fs.data && t.fs.data[s.fs.names[Part(id)]] == source
  }

  lemma CopyWrites(s: State, id: TransferId, c: Conditions)
    requires FilesOk(s.fs) && id in s.flows && s.flows[id].phase.Clear? && !s.flows[id].sameFilesystem
    requires Part(id) in s.fs.names
    ensures Copies(s, Run(s, [StartCopy(id), CopySome(id, c.room, None)]), id, c)
  {
    RunTwo(s, StartCopy(id), CopySome(id, c.room, None));
    var source := s.fs.Content(Part(id));
    var chunk := Chunk(source, 0, c.room);
    assert chunk == source[..Min(c.room, |source|)];
    assert [] + chunk == chunk;
  }

  lemma CopyFinishes(s: State, t: State, id: TransferId, c: Conditions)
    requires id in s.flows && s.fs.Holds(Part(id)) && Copies(s, t, id, c) && c.tempOk
    ensures var u := Run(t, CopySteps(id, |s.fs.Content(Part(id))|, c)[2..]);
            && u.fs == AfterCopy(s.fs, id, s.flows[id].expected, c)
            && (CopySucceeds(s.fs, id, s.flows[id].expected, c) ==>
                  id in u.flows && u.flows[id] == s.flows[id].(phase := Copied(s.fs.next)))
  {
    var source := s.fs.Content(Part(id));
    var rest := CopySteps(id, |source|, c)[2..];
    if |source| > c.room || !c.flushOk {
      assert rest == [GiveUp(id, c.removes)];
      RunOne(t, GiveUp(id, c.removes));
    } else {
      var u := NextFinishCopy(t, id, c.removes);
      CopyIsJudged(s, t, id, c);
      if c.chmodOk {
        assert rest == [FinishCopy(id, c.removes)];
        RunOne(t, FinishCopy(id, c.removes));
      } else {
        assert rest == [FinishCopy(id, c.removes), GiveUp(id, c.removes)];
        RunTwo(t, FinishCopy(id, c.removes), GiveUp(id, c.removes));
      }
    }
  }

  /** A whole copy is flushed, and kept exactly if what was hashed is accepted. */
  lemma CopyIsJudged(s: State, t: State, id: TransferId, c: Conditions)
    requires id in s.flows && s.fs.Holds(Part(id)) && Copies(s, t, id, c) && |s.fs.Content(Part(id))| <= c.room
    ensures var source := s.fs.Content(Part(id));
            var made := Flush(Write(Create(s.fs, Temp(s.fs.next)), s.fs.next, source[..Min(c.room, |source|)]), s.fs.next);
            var u := NextFinishCopy(t, id, c.removes);
            if s.flows[id].expected(source) then
              u.fs == made && id in u.flows && u.flows[id] == s.flows[id].(phase := Copied(s.fs.next))
            else
              id !in u.flows && u.fs == if c.removes then Remove(made, Temp(s.fs.next)) else made
  {
    var source := s.fs.Content(Part(id));
    assert source[..|source|] == source;
  }

  function PublishSteps(fs: Fs, id: TransferId, dest: Path, promise: Promise, c: Conditions): seq<Step> {
    [Recheck(id, c.folderOk)]
    + if !FolderReady(fs, dest, c) || Library(dest) in fs.names then []
      else if !fs.Holds(Part(id)) then [GiveUp(id, c.removes)]
      else if c.sameFilesystem then LinkSteps(id, dest, c)
      else if CopySucceeds(fs, id, promise, c) then CopySteps(id, |fs.Content(Part(id))|, c) + LinkSteps(id, dest, c)
      else CopySteps(id, |fs.Content(Part(id))|, c)
  }

  /** Publishing is a run of a verified flow's steps. */
  lemma PublishIsARun(s: State, id: TransferId, c: Conditions)
    requires FilesOk(s.fs) && id in s.flows && s.flows[id].phase.Verified?
    requires s.flows[id].sameFilesystem == c.sameFilesystem
    ensures var f := s.flows[id];
            Run(s, PublishSteps(s.fs, id, f.dest, f.expected, c)).fs == AfterPublish(s.fs, id, f.dest, f.expected, c)
  {
    var f := s.flows[id];
    var rest := PublishSteps(s.fs, id, f.dest, f.expected, c)[1..];
    assert PublishSteps(s.fs, id, f.dest, f.expected, c) == [Recheck(id, c.folderOk)] + rest;
    RunSplit(s, [Recheck(id, c.folderOk)], rest);
    RunOne(s, Recheck(id, c.folderOk));
    FolderChangesNoFile(s.fs, f.dest, id, f.expected, c);
    if !FolderReady(s.fs, f.dest, c) || Library(f.dest) in s.fs.names {
      assert rest == [];
    } else {
      DeliveryIsARun(s.fs, NextRecheck(s, id, c.folderOk), id, rest, c);
    }
  }

  lemma DeliveryIsARun(fs: Fs, t: State, id: TransferId, rest: seq<Step>, c: Conditions)
    requires FilesOk(fs) && id in t.flows && t.flows[id].phase.Clear? && t.fs == WithFolder(fs, t.flows[id].dest)
    requires t.flows[id].sameFilesystem == c.sameFilesystem && FolderReady(fs, t.flows[id].dest, c)
    requires Library(t.flows[id].dest) !in fs.names
    requires rest == PublishSteps(fs, id, t.flows[id].dest, t.flows[id].expected, c)[1..]
    ensures Run(t, rest).fs == AfterDelivery(t.fs, id, t.flows[id].dest, t.flows[id].expected, c)
  {
    var f := t.flows[id];
    FolderChangesNoFile(fs, f.dest, id, f.expected, c);
    if Part(id) !in fs.names {
      assert rest == [GiveUp(id, c.removes)];
      RunOne(t, GiveUp(id, c.removes));
    } else if c.sameFilesystem {
      assert rest == LinkSteps(id, f.dest, c);
      LinkIsARun(t, id, Part(id), c);
    } else {
      CopyIsARun(t, id, c);
      var copy := CopySteps(id, |t.fs.Content(Part(id))|, c);
      if CopySucceeds(t.fs, id, f.expected, c) {
        assert rest == copy + LinkSteps(id, f.dest, c);
        RunSplit(t, copy, LinkSteps(id, f.dest, c));
        LinkIsARun(Run(t, copy), id, Temp(t.fs.next), c);
      } else {
        assert rest == copy;
      }
    }
  }
}
