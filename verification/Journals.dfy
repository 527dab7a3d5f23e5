/**
 The journals of destination states: one in memory, one file per transfer. Both refuse illegal
 transitions; the file journal refines the memory one up to failed reads and writes, over files replaced by
 the atomic recipe.
 */
module Journals {
  import opened Wrappers
  import opened Destination
  import opened Filesystem
  import A = AtomicFiles

  type TransferId = nat

  /** One recorded change. `from` is what the writer believed; only `to` is checked. */
  datatype Entry = Entry(from: Option<State>, to: State, at: int)

  type History = seq<Entry>

  type Histories = map<TransferId, History>

  function Of(hs: Histories, id: TransferId): History {
    if id in hs then hs[id] else []
  }

  function Path(h: History): seq<State> {
    seq(|h|, i requires 0 <= i < |h| => h[i].to)
  }

  function Last(h: History): Option<State> {
    if h == [] then None else Some(h[|h| - 1].to)
  }

  /** Whether an entry may follow a history. */
  predicate Admits(h: History, e: Entry) {
    if h == [] then e.to == Receiving else Transition(h[|h| - 1].to, e.to) == None
  }

  function Appended(hs: Histories, id: TransferId, e: Entry): Histories {
    if Admits(Of(hs, id), e) then hs[id := Of(hs, id) + [e]] else hs
  }

  /** Every transfer's history is a legal path. */
  ghost predicate AllLegal(hs: Histories) {
    forall id :: id in hs ==> LegalPath(Path(hs[id]))
  }

  lemma AppendKeepsLegal(h: History, e: Entry)
    requires LegalPath(Path(h)) && Admits(h, e)
    ensures LegalPath(Path(h + [e]))
  {
    assert Path(h + [e]) == Path(h) + [e.to];
  }

  /** The journal kept in memory. */
  class MemoryJournal {
    var history: Histories

    constructor ()
      ensures history == map[]
    {
      history := map[];
    }

    method Append(id: TransferId, e: Entry) returns (ok: bool)
      modifies this
      ensures ok == Admits(Of(old(history), id), e)
      ensures history == Appended(old(history), id, e)
    {
      var existing := if id in history then history[id] else [];
      if |existing| > 0 {
        if Transition(existing[|existing| - 1].to, e.to) != None {
          return false;
        }
      } else if e.to != Receiving {
        return false;
      }
      history := history[id := existing + [e]];
      ok := true;
    }

    method Current(id: TransferId) returns (state: Option<State>)
      ensures state == Last(Of(history, id))
    {
      if id !in history || |history[id]| == 0 {
        return None;
      }
      state := Some(history[id][|history[id]| - 1].to);
    }
  }

  /** What the filesystem does to one append: the history cannot be read, or the save stops somewhere or nowhere. */
  datatype Fault = ReadFails | Saving(save: A.SaveFault)

  /** The append reached the file. */
  predicate Reaches(fault: Fault) { fault.Saving? && A.Renames(fault.save) }

  /** The append reports success, if the entry is admitted. */
  predicate Clean(fault: Fault) { fault.Saving? && A.ReportsSuccess(fault.save) }

  /** What a journal file is made of. */
  datatype Mark = EntryMark(entry: Entry) | CloseMark

  function Encode(h: History): seq<Mark> {
    seq(|h|, i requires 0 <= i < |h| => EntryMark(h[i])) + [CloseMark]
  }

  /** A file cut short lacks its end and is unreadable. */
  function Decode(marks: seq<Mark>): Option<History> {
    if marks == [] then None
    else if marks[0].CloseMark? then (if |marks| == 1 then Some([]) else None)
    else
      var rest := Decode(marks[1..]);
      if rest.Some? then Some([marks[0].entry] + rest.value) else None
  }

  /** Reading back what was written gives it back. */
  lemma {:induction false} DecodingUndoesEncoding(h: History)
    ensures Decode(Encode(h)) == Some(h)
    decreases |h|
  {
    if h == [] {
      assert Encode(h) == [CloseMark];
    } else {
      assert Encode(h)[1..] == Encode(h[1..]);
      DecodingUndoesEncoding(h[1..]);
      assert h == [h[0]] + h[1..];
    }
  }

  /** A file cut short gives nothing. */
  lemma {:induction false} CutFilesAreUnreadable(h: History, n: nat)
    requires n < |Encode(h)|
    ensures Decode(Encode(h)[..n]).None?
    decreases |h|
  {
    var cut := Encode(h)[..n];
    if n > 0 && h != [] {
      assert Encode(h)[1..] == Encode(h[1..]);
      assert cut[1..] == Encode(h[1..])[..n - 1];
      CutFilesAreUnreadable(h[1..], n - 1);
    }
  }

  function Parsed(content: Option<seq<Mark>>): Option<History> {
    if content.None? then Some([]) else Decode(content.value)
  }

  /** The journal kept in one file per transfer. `files` is what any reader finds in them. */
  class FileJournal {
    const store: A.AtomicStore<TransferId, Mark>
    ghost var files: Histories

    constructor ()
      ensures fresh(store) && fresh(store.volume) && Valid() && files == map[]
    {
      store := new A.AtomicStore();
      files := map[];
    }

    /** Every file reads as the history recorded in it; a transfer without one has no history. */
    ghost predicate Valid()
      reads this, store.volume
    {
      store.Valid() && forall id {:trigger A.Seen(store.volume.View(), id)} :: Parsed(A.Seen(store.volume.View(), id)) == Some(Of(files, id))
    }

    /**
     As the memory journal, except that a fault is reported as an error. After an error the file holds
     the old history, or the new one if the rename had happened.
     */
    method Append(id: TransferId, e: Entry, fault: Fault, removes: bool) returns (ok: bool)
      requires Valid()
      modifies this`files, store.volume
      ensures Valid()
      ensures ok == (Clean(fault) && Admits(Of(old(files), id), e))
      ensures files == if Reaches(fault) then Appended(old(files), id, e) else old(files)
    {
      if fault.ReadFails? {
        return false;
      }
      var existing := ReadHistory(id);
      if |existing| > 0 {
        if Transition(existing[|existing| - 1].to, e.to) != None {
          return false;
        }
      } else if e.to != Receiving {
        return false;
      }
      ok := Write(id, existing + [e], fault.save, removes);
    }

    method ReadHistory(id: TransferId) returns (h: History)
      requires Valid()
      ensures h == Of(files, id)
    {
      var content := store.Read(id);
      assert Parsed(content) == Some(Of(files, id));
      h := if content.None? then [] else Decode(content.value).value;
    }

    /** Temporary file, flush, rename, flush the directory: readers find the whole old history or the whole new one. */
    method Write(id: TransferId, history: History, fault: A.SaveFault, removes: bool) returns (ok: bool)
      requires Valid()
      modifies this`files, store.volume
      ensures Valid() && ok == A.ReportsSuccess(fault)
      ensures store.volume.View()
           == A.Run(A.State(old(store.volume.View()), A.Idle), A.SaveSteps(id, Encode(history), fault, removes), true).fs
      ensures files == if A.Renames(fault) then old(files)[id := history] else old(files)
    {
      DecodingUndoesEncoding(history);
      ok := store.Replace(id, Encode(history), fault, removes);
      if A.Renames(fault) {
        files := files[id := history];
      }
    }

    method Current(id: TransferId, readOk: bool) returns (state: Option<State>)
      requires Valid()
      ensures state == if readOk then Last(Of(files, id)) else None
    {
      if !readOk {
        return None;
      }
      var h := ReadHistory(id);
      state := if |h| == 0 then None else Some(h[|h| - 1].to);
    }
  }

  /**
   A first entry reported as recorded can be forgotten. A power cut that undoes all that is pending leaves the
   journal without it, ready to admit the transfer again, exactly if the directory's flush was refused or the
   directory is new, since its own entry in the one above is never flushed.
   */
  lemma ForgottenExactlyIfNotFlushed(
    fs: Files<A.FileName<TransferId>, Mark>, id: TransferId, e: Entry, fault: A.SaveFault, removes: bool,
    damage: map<Ino, seq<Mark>>, folderKept: bool)
    requires A.FilesOk(fs) && A.Seen(fs, id).None? && A.Kept(fs, id).None?
    requires Admits([], e) && A.ReportsSuccess(fault)
    ensures var cut := AfterFolderCut(A.AfterSave(fs, id, Encode([e]), fault, removes), damage, {A.Final(id)}, folderKept);
            && Parsed(A.Seen(cut, id)) == Some(if A.Flushes(fault) && folderKept then [e] else [])
            && (Admits(Parsed(A.Seen(cut, id)).value, e) <==> fault == A.DirectorySyncRefused || !folderKept)
  {
    var cut := AfterFolderCut(A.AfterSave(fs, id, Encode([e]), fault, removes), damage, {A.Final(id)}, folderKept);
    SeenAfterTheCut(fs, id, Encode([e]), fault, removes, damage, folderKept);
    FirstEntryReads(A.Seen(cut, id), e, A.Flushes(fault) && folderKept);
  }

  lemma FirstEntryReads(content: Option<seq<Mark>>, e: Entry, kept: bool)
    requires Admits([], e) && content == if kept then Some(Encode([e])) else None
    ensures Parsed(content) == Some(if kept then [e] else [])
    ensures Admits(Parsed(content).value, e) <==> !kept
  {
    DecodingUndoesEncoding([e]);
  }

  /** The file of a first save after that power cut: all of it, or none. */
  lemma SeenAfterTheCut(
    fs: Files<A.FileName<TransferId>, Mark>, id: TransferId, content: seq<Mark>, fault: A.SaveFault, removes: bool,
    damage: map<Ino, seq<Mark>>, folderKept: bool)
    requires A.FilesOk(fs) && A.Seen(fs, id).None? && A.Kept(fs, id).None? && A.ReportsSuccess(fault)
    ensures var cut := AfterFolderCut(A.AfterSave(fs, id, content, fault, removes), damage, {A.Final(id)}, folderKept);
            A.Seen(cut, id) == if A.Flushes(fault) && folderKept then Some(content) else None
  {
    var saved := A.AfterSave(fs, id, content, fault, removes);
    A.SavesAreWholeOrNothing(fs, id, content, fault, removes, id);
    A.PowerCutsSpareWholeContents(A.State(saved, A.Idle), damage, {A.Final(id)}, id);
  }

  // ---- Any sequence of appends ----

  datatype Write = Write(id: TransferId, entry: Entry, fault: Fault)

  /** The histories after any appends by anyone, faults and refusals included. */
  function AppendAll(hs: Histories, ws: seq<Write>): Histories
    decreases |ws|
  {
    if ws == [] then hs
    else AppendAll(if Reaches(ws[0].fault) then Appended(hs, ws[0].id, ws[0].entry) else hs, ws[1..])
  }

  lemma AppendedKeepsLegal(hs: Histories, id: TransferId, e: Entry)
    requires AllLegal(hs)
    ensures AllLegal(Appended(hs, id, e))
  {
    if Admits(Of(hs, id), e) {
      AppendKeepsLegal(Of(hs, id), e);
    }
  }

  lemma {:induction false} AppendAllKeepsLegal(hs: Histories, ws: seq<Write>)
    requires AllLegal(hs)
    ensures AllLegal(AppendAll(hs, ws))
    decreases |ws|
  {
    if ws != [] {
      AppendedKeepsLegal(hs, ws[0].id, ws[0].entry);
      AppendAllKeepsLegal(if Reaches(ws[0].fault) then Appended(hs, ws[0].id, ws[0].entry) else hs, ws[1..]);
    }
  }

  /**
   Every history any sequence of appends can produce has at most seven entries, moves forward at each,
   and contains source_active only at the end of the one forced path. This is for the memory journal
   (no faults) and the file journal alike.
   */
  lemma ReachableHistories(ws: seq<Write>, id: TransferId)
    ensures var h := Of(AppendAll(map[], ws), id);
            var p := Path(h);
            && LegalPath(p) && |h| <= 7
            && (forall i, j :: 0 <= i < j < |p| ==> Destination.Rank(p[i]) < Destination.Rank(p[j]))
            && (forall i :: 0 <= i < |p| && p[i] == SourceActive ==>
                  i == 5 && (p[..6] == SourcePath(UploadingToRomm) || p[..6] == SourcePath(PublishedToFilesystem)))
  {
    AppendAllKeepsLegal(map[], ws);
    var p := Path(Of(AppendAll(map[], ws), id));
    PathsAdvance(p);
    forall i | 0 <= i < |p| && p[i] == SourceActive
      ensures i == 5 && (p[..6] == SourcePath(UploadingToRomm) || p[..6] == SourcePath(PublishedToFilesystem))
    {
      SourceActivePathIsForced(p, i);
    }
  }

  /** A history only grows: what is recorded stays, whoever appends next. */
  lemma {:induction false} HistoriesOnlyGrow(hs: Histories, ws: seq<Write>, id: TransferId)
    ensures Of(hs, id) <= Of(AppendAll(hs, ws), id)
    decreases |ws|
  {
    if ws != [] {
      HistoriesOnlyGrow(if Reaches(ws[0].fault) then Appended(hs, ws[0].id, ws[0].entry) else hs, ws[1..], id);
    }
  }

  /** A transfer that has begun is never admitted to begin again. */
  lemma NeverReceivesTwice(h: History, e: Entry)
    requires h != [] && e.to == Receiving
    ensures !Admits(h, e)
  {
  }
}
