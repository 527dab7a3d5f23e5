/**
 A filesystem as names to inodes to contents, with what a power cut spares. A hard link gives one inode a
 second name, so a write through either name is seen through both. Contents survive a power cut once their
 inode is flushed, and a name once its directory entry is.
 */
module Filesystem {
  type Ino = nat

  /**
   `names` is what every process sees and `kept` what is on the disk; `flushed` holds the inodes whose
   contents are on the disk; `next` is an unused inode number.
   */
  datatype Files<!N(==), T> = Files(names: map<N, Ino>, kept: map<N, Ino>, data: map<Ino, seq<T>>, flushed: set<Ino>, next: Ino) {
    predicate Holds(name: N) { name in names && names[name] in data }

    function Content(name: N): seq<T>
      requires Holds(name)
    {
      data[names[name]]
    }
  }

  ghost predicate Sound<N(!new), T>(fs: Files<N, T>) {
    && (forall n :: n in fs.names ==> fs.names[n] in fs.data)
    && (forall n :: n in fs.kept ==> fs.kept[n] in fs.data)
    && (forall i :: i in fs.data ==> i < fs.next)
  }

  function Create<N, T>(fs: Files<N, T>, name: N): Files<N, T> {
    fs.(names := fs.names[name := fs.next], data := fs.data[fs.next := []], flushed := fs.flushed - {fs.next}, next := fs.next + 1)
  }

  /** A file somebody else has finished writing. */
  function Place<N, T>(fs: Files<N, T>, name: N, content: seq<T>): Files<N, T> {
    fs.(names := fs.names[name := fs.next], data := fs.data[fs.next := content], flushed := fs.flushed + {fs.next}, next := fs.next + 1)
  }

  function OpenTruncated<N, T>(fs: Files<N, T>, name: N): (r: Files<N, T>)
    ensures name in r.names
  {
    if name in fs.names then
      fs.(data := fs.data[fs.names[name] := []], flushed := fs.flushed - {fs.names[name]})
    else Create(fs, name)
  }

  function Write<N, T>(fs: Files<N, T>, ino: Ino, content: seq<T>): Files<N, T> {
    if ino in fs.data then fs.(data := fs.data[ino := fs.data[ino] + content], flushed := fs.flushed - {ino}) else fs
  }

  function Flush<N, T>(fs: Files<N, T>, ino: Ino): Files<N, T> { fs.(flushed := fs.flushed + {ino}) }

  predicate Linkable<N(==), T>(fs: Files<N, T>, from: N, to: N) { from in fs.names && to !in fs.names }

  /** Fails when the new name exists; it never replaces one. */
  function Link<N, T>(fs: Files<N, T>, from: N, to: N): Files<N, T> {
    if Linkable(fs, from, to) then fs.(names := fs.names[to := fs.names[from]]) else fs
  }

  /** Replaces whatever had the new name, in one step. */
  function Rename<N, T>(fs: Files<N, T>, from: N, to: N): Files<N, T> {
    if from in fs.names then fs.(names := (fs.names - {from})[to := fs.names[from]]) else fs
  }

  function Remove<N, T>(fs: Files<N, T>, name: N): Files<N, T> { fs.(names := fs.names - {name}) }

  /** The directory entry of a name, or its absence, reaches the disk. */
  function FlushEntry<N, T>(fs: Files<N, T>, name: N): Files<N, T> {
    fs.(kept := if name in fs.names then fs.kept[name := fs.names[name]] else fs.kept - {name})
  }

  /** Where a name points after a power cut in which the pending changes to the entries of `lost` are undone. */
  function Spared<N, T>(fs: Files<N, T>, lost: set<N>): map<N, Ino> {
    map n | n in fs.names.Keys + fs.kept.Keys && (if n in lost then n in fs.kept else n in fs.names)
      :: if n in lost then fs.kept[n] else fs.names[n]
  }

  /** Contents never flushed turn into anything; changes to entries never flushed are undone, or not. */
  function AfterPowerCut<N, T>(fs: Files<N, T>, damage: map<Ino, seq<T>>, lost: set<N>): Files<N, T> {
    fs.(names := Spared(fs, lost), kept := Spared(fs, lost),
        data := map i | i in fs.data :: if i in damage && i !in fs.flushed then damage[i] else fs.data[i])
  }

  /** As before, for files in a directory of their own: it goes and takes them along unless its own entry is on the disk. */
  function AfterFolderCut<N, T>(fs: Files<N, T>, damage: map<Ino, seq<T>>, lost: set<N>, folderKept: bool): Files<N, T> {
    var cut := AfterPowerCut(fs, damage, lost);
    if folderKept then cut else cut.(names := map[], kept := map[])
  }

  // ---- In place ----

  class Volume<!N(==), T> {
    var names: map<N, Ino>
    var kept: map<N, Ino>
    var data: map<Ino, seq<T>>
    var flushed: set<Ino>
    var next: Ino

    constructor ()
      ensures View() == Files(map[], map[], map[], {}, 0)
    {
      names, kept, data, flushed, next := map[], map[], map[], {}, 0;
    }

    ghost function View(): Files<N, T>
      reads this
    {
      Files(names, kept, data, flushed, next)
    }

    /** A new file under a name nothing has. */
    method New(name: N) returns (ino: Ino)
      requires name !in names
      modifies this`names, this`data, this`flushed, this`next
      ensures ino == old(next) && View() == Create(old(View()), name)
    {
      ino := next;
      names, data, flushed, next := names[name := ino], data[ino := []], flushed - {ino}, next + 1;
    }

    /** Open for writing, creating the file or emptying it. */
    method OpenForWriting(name: N) returns (ino: Ino)
      modifies this`names, this`data, this`flushed, this`next
      ensures View() == OpenTruncated(old(View()), name) && names[name] == ino
    {
      if name !in names {
        ino := New(name);
      } else {
        ino := names[name];
        data, flushed := data[ino := []], flushed - {ino};
      }
    }

    method Append(ino: Ino, content: seq<T>)
      requires ino in data
      modifies this`data, this`flushed
      ensures View() == Write(old(View()), ino, content)
    {
      data, flushed := data[ino := data[ino] + content], flushed - {ino};
    }

    method Sync(ino: Ino)
      modifies this`flushed
      ensures View() == Flush(old(View()), ino)
    {
      flushed := flushed + {ino};
    }

    /** A hard link; it fails when the new name exists. */
    method HardLink(from: N, to: N, permitted: bool) returns (ok: bool)
      modifies this`names
      ensures ok == (permitted && Linkable(old(View()), from, to))
      ensures View() == if permitted then Link(old(View()), from, to) else old(View())
    {
      ok := permitted && from in names && to !in names;
      if ok {
        names := names[to := names[from]];
      }
    }

    method Move(from: N, to: N)
      requires from in names
      modifies this`names
      ensures View() == Rename(old(View()), from, to)
    {
      var ino := names[from];
      names := (names - {from})[to := ino];
    }

    /** Removing a name that is not there fails; one that is there may be refused. */
    method Unlink(name: N, permitted: bool) returns (ok: bool)
      modifies this`names
      ensures ok == (permitted && name in old(names))
      ensures View() == if permitted then Remove(old(View()), name) else old(View())
    {
      ok := permitted && name in names;
      if permitted {
        names := names - {name};
      }
    }

    method SyncEntry(name: N)
      modifies this`kept
      ensures View() == FlushEntry(old(View()), name)
    {
      kept := if name in names then kept[name := names[name]] else kept - {name};
    }

    /** Somebody else finishes a file of their own. */
    method Rival(name: N, content: seq<T>)
      requires name !in names
      modifies this`names, this`data, this`flushed, this`next
      ensures View() == Place(old(View()), name, content)
    {
      names, data, flushed, next := names[name := next], data[next := content], flushed + {next}, next + 1;
    }
  }
}
