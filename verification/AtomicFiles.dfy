/**
 The save recipe shared by the credential file and the transfer journals: write a temporary file, flush it,
 rename it over the file, flush the directory. Each step is its own, a power cut or a crash can come between
 any two, and what readers see is always one of the contents that were saved, whole.
 */
module AtomicFiles {
  import opened Wrappers
  import opened Filesystem

  /** The file of a key, and temporary files beside it. */
  datatype FileName<K> = Final(key: K) | Scratch(serial: nat)

  /** Where one save stands. The temporary file's number is also its inode's. */
  datatype Save<K, T> =
    | Idle
    | Filling(key: K, content: seq<T>, scratch: nat, written: nat)
    | Synced(key: K, content: seq<T>, scratch: nat)
    | Renamed(key: K)

  datatype State<!K(==), T> = State(fs: Files<FileName<K>, T>, save: Save<K, T>)

  datatype Step<!K(==), T> =
    | Make(key: K, content: seq<T>)
    | Put(count: nat)
    | Sync
    | Swap
    | SyncDirectory(honoured: bool)
    | Abandon(removes: bool)
    | Die
    | PowerCut(damage: map<Ino, seq<T>>, lost: set<FileName<K>>)
    | Settle(name: FileName<K>)

  function Rest<T>(content: seq<T>, written: nat, count: nat): seq<T> {
    if written >= |content| then []
    else if count <= |content| - written then content[written..written + count]
    else content[written..]
  }

  /**
   One step; one that does not apply changes nothing. `careful` is true in the source; with false the
   temporary file is renamed without having been flushed.
   */
  function Next<K, T>(s: State<K, T>, step: Step<K, T>, careful: bool): State<K, T> {
    match step
    case Make(key, content) =>
      if s.save.Idle? then State(Create(s.fs, Scratch(s.fs.next)), Filling(key, content, s.fs.next, 0)) else s
    case Put(count) =>
      if s.save.Filling? then
        var rest := Rest(s.save.content, s.save.written, count);
        State(Write(s.fs, s.save.scratch, rest), s.save.(written := s.save.written + |rest|))
      else s
    case Sync =>
      if s.save.Filling? && s.save.written == |s.save.content| then
        State(Flush(s.fs, s.save.scratch), Synced(s.save.key, s.save.content, s.save.scratch))
      else s
    case Swap =>
      if s.save.Synced? || (!careful && s.save.Filling? && s.save.written == |s.save.content|) then
        State(Rename(s.fs, Scratch(s.save.scratch), Final(s.save.key)), Renamed(s.save.key))
      else s
    case SyncDirectory(honoured) =>
      if s.save.Renamed? then State(if honoured then FlushEntry(s.fs, Final(s.save.key)) else s.fs, Idle) else s
    case Abandon(removes) =>
      if s.save.Filling? || s.save.Synced? then
        State(if removes then Remove(s.fs, Scratch(s.save.scratch)) else s.fs, Idle)
      else s
    case Die => s.(save := Idle)
    case PowerCut(damage, lost) => State(AfterPowerCut(s.fs, damage, lost), Idle)
    case Settle(name) => s.(fs := FlushEntry(s.fs, name))
  }

  function Run<K, T>(s: State<K, T>, steps: seq<Step<K, T>>, careful: bool): State<K, T>
    decreases |steps|
  {
    if steps == [] then s else Run(Next(s, steps[0], careful), steps[1..], careful)
  }

  // ---- What a reader finds ----

  function Seen<K(==), T>(fs: Files<FileName<K>, T>, key: K): Option<seq<T>> {
    if fs.Holds(Final(key)) then Some(fs.Content(Final(key))) else None
  }

  /** What a reader would find after a power cut that undoes the pending rename. */
  function Kept<K(==), T>(fs: Files<FileName<K>, T>, key: K): Option<seq<T>> {
    if Final(key) in fs.kept && fs.kept[Final(key)] in fs.data then Some(fs.data[fs.kept[Final(key)]]) else None
  }

  /** A temporary file being written has its own inode, and holds what has been written of the content. */
  ghost predicate SaveOk<K(!new), T>(s: State<K, T>) {
    s.save.Filling? || s.save.Synced? ==>
      && s.save.scratch in s.fs.data
      && Scratch(s.save.scratch) in s.fs.names && s.fs.names[Scratch(s.save.scratch)] == s.save.scratch
      && Unpublished(s.fs, s.save.scratch)
      && (s.save.Filling? ==> s.save.written <= |s.save.content| && s.fs.data[s.save.scratch] == s.save.content[..s.save.written])
      && (s.save.Synced? ==> s.fs.data[s.save.scratch] == s.save.content && s.save.scratch in s.fs.flushed)
  }

  ghost predicate Unpublished<K(!new), T>(fs: Files<FileName<K>, T>, ino: Ino) {
    && (forall k: K :: Final(k) in fs.names ==> fs.names[Final(k)] != ino)
    && (forall k: K :: Final(k) in fs.kept ==> fs.kept[Final(k)] != ino)
  }

  /** Every file, as seen and as kept, has its contents on the disk. */
  ghost predicate FilesOk<K(!new), T>(fs: Files<FileName<K>, T>) {
    && Sound(fs)
    && (forall k: K :: Final(k) in fs.names ==> fs.names[Final(k)] in fs.flushed)
    && (forall k: K :: Final(k) in fs.kept ==> fs.kept[Final(k)] in fs.flushed)
    && (forall n: nat :: Scratch(n) in fs.names || Scratch(n) in fs.kept ==> n < fs.next)
  }

  ghost predicate Inv<K(!new), T>(s: State<K, T>) { FilesOk(s.fs) && SaveOk(s) }

  /** The save puts its content in place: the one step at which a reader's view changes. */
  predicate Lands<K(==), T>(s: State<K, T>, step: Step<K, T>, key: K) {
    step.Swap? && s.save.Synced? && s.save.key == key
  }

  /** The entry of a key's file reaches the disk. */
  predicate Settles<K(==), T>(s: State<K, T>, step: Step<K, T>, key: K) {
    (step.SyncDirectory? && step.honoured && s.save.Renamed? && s.save.key == key) || step == Settle(Final(key))
  }

  ghost function NextSeen<K, T>(s: State<K, T>, step: Step<K, T>, key: K): Option<seq<T>> {
    if Lands(s, step, key) then Some(s.save.content)
    else if step.PowerCut? && Final(key) in step.lost then Kept(s.fs, key)
    else Seen(s.fs, key)
  }

  ghost function NextKept<K, T>(s: State<K, T>, step: Step<K, T>, key: K): Option<seq<T>> {
    if Settles(s, step, key) || (step.PowerCut? && Final(key) !in step.lost) then Seen(s.fs, key) else Kept(s.fs, key)
  }

  /** Names, inodes and bytes behave as two whole values per file, the one seen and the one kept. */
  lemma StepsActOnWholeContents<K(!new), T(!new)>(s: State<K, T>, step: Step<K, T>, key: K)
    requires Inv(s)
    ensures Inv(Next(s, step, true))
    ensures Seen(Next(s, step, true).fs, key) == NextSeen(s, step, key)
    ensures Kept(Next(s, step, true).fs, key) == NextKept(s, step, key)
  {
    if step.PowerCut? {
      PowerCutsSpareWholeContents(s, step.damage, step.lost, key);
    } else if step.Swap? {
      SwapsLandWholeContents(s, key);
    } else if step.SyncDirectory? || step.Settle? {
      EntriesSettle(s, step, key);
    }
  }

  lemma EntriesSettle<K(!new), T(!new)>(s: State<K, T>, step: Step<K, T>, key: K)
    requires Inv(s) && (step.SyncDirectory? || step.Settle?)
    ensures Inv(Next(s, step, true))
    ensures Seen(Next(s, step, true).fs, key) == Seen(s.fs, key)
    ensures Kept(Next(s, step, true).fs, key) == NextKept(s, step, key)
  {
  }

  lemma PowerCutsSpareWholeContents<K(!new), T(!new)>(s: State<K, T>, damage: map<Ino, seq<T>>, lost: set<FileName<K>>, key: K)
    requires Inv(s)
    ensures var fs := AfterPowerCut(s.fs, damage, lost);
            var value := if Final(key) in lost then Kept(s.fs, key) else Seen(s.fs, key);
            FilesOk(fs) && Seen(fs, key) == value && Kept(fs, key) == value
  {
  }

  lemma SwapsLandWholeContents<K(!new), T(!new)>(s: State<K, T>, key: K)
    requires Inv(s)
    ensures Inv(Next(s, Swap, true))
    ensures Seen(Next(s, Swap, true).fs, key) == NextSeen(s, Swap, key)
    ensures Kept(Next(s, Swap, true).fs, key) == Kept(s.fs, key)
  {
  }

  /** A content a reader may find under a key: what was there, what was kept, or what a save was given. */
  ghost predicate Given<K, T>(s: State<K, T>, steps: seq<Step<K, T>>, key: K, value: Option<seq<T>>) {
    || value == Seen(s.fs, key) || value == Kept(s.fs, key)
    || ((s.save.Filling? || s.save.Synced?) && s.save.key == key && value == Some(s.save.content))
    || (exists k :: 0 <= k < |steps| && Gives(steps[k], key, value))
  }

  ghost predicate Gives<K, T>(step: Step<K, T>, key: K, value: Option<seq<T>>) {
    step.Make? && step.key == key && value == Some(step.content)
  }

  lemma GivenBefore<K(!new), T(!new)>(s: State<K, T>, steps: seq<Step<K, T>>, key: K, value: Option<seq<T>>)
    requires Inv(s) && steps != [] && Given(Next(s, steps[0], true), steps[1..], key, value)
    ensures Given(s, steps, key, value)
  {
    var s' := Next(s, steps[0], true);
    StepsActOnWholeContents(s, steps[0], key);
    if exists k :: 0 <= k < |steps[1..]| && Gives(steps[1..][k], key, value) {
      var k :| 0 <= k < |steps[1..]| && Gives(steps[1..][k], key, value);
      assert Gives(steps[k + 1], key, value);
    } else if (s'.save.Filling? || s'.save.Synced?) && s'.save.key == key && value == Some(s'.save.content) {
      assert Gives(steps[0], key, value) || ((s.save.Filling? || s.save.Synced?) && s.save.key == key && s.save.content == s'.save.content);
    }
  }

  /**
   In every run, with crashes, failures and power cuts between any two steps, a reader at any moment finds
   under each key something that was put there whole: nothing half-written is ever seen or kept.
   */
  lemma {:induction false} ReadersFindWholeContents<K(!new), T(!new)>(s: State<K, T>, steps: seq<Step<K, T>>, key: K)
    requires Inv(s)
    ensures Inv(Run(s, steps, true))
    ensures Given(s, steps, key, Seen(Run(s, steps, true).fs, key))
    ensures Given(s, steps, key, Kept(Run(s, steps, true).fs, key))
    decreases |steps|
  {
    if steps != [] {
      var s' := Next(s, steps[0], true);
      StepsActOnWholeContents(s, steps[0], key);
      ReadersFindWholeContents(s', steps[1..], key);
      GivenBefore(s, steps, key, Seen(Run(s, steps, true).fs, key));
      GivenBefore(s, steps, key, Kept(Run(s, steps, true).fs, key));
    }
  }

  /** A save that skips the flush, and a power cut right after the rename. */
  function Hasty<K, T>(key: K, content: seq<T>, ino: Ino, garbage: seq<T>): seq<Step<K, T>> {
    [Make(key, content), Put(|content|), Swap, PowerCut(map[ino := garbage], {})]
  }

  /**
   The flush of the temporary file is what this rests on. Without it, from any state between saves, a power
   cut after the rename can leave anything at all under the key; with it, the same steps leave what was there.
   */
  lemma WithoutTheFlushAnythingIsFound<K(!new), T(!new)>(s: State<K, T>, key: K, content: seq<T>, garbage: seq<T>)
    requires Inv(s) && s.save.Idle?
    ensures Seen(Run(s, Hasty(key, content, s.fs.next, garbage), false).fs, key) == Some(garbage)
    ensures Seen(Run(s, Hasty(key, content, s.fs.next, garbage), true).fs, key) == Seen(s.fs, key)
  {
    HastyRun(s, key, content, garbage, false);
    HastyRun(s, key, content, garbage, true);
    HastyCareless(s, key, content, garbage);
    HastyCareful(s, key, content, garbage);
  }

  lemma HastyCareless<K(!new), T(!new)>(s: State<K, T>, key: K, content: seq<T>, garbage: seq<T>)
    requires Inv(s) && s.save.Idle?
    ensures Seen(Next(Next(Next(Next(s, Make(key, content), false), Put(|content|), false), Swap, false),
                      PowerCut(map[s.fs.next := garbage], {}), false).fs, key) == Some(garbage)
  {
    var s2 := Next(Next(s, Make(key, content), false), Put(|content|), false);
    assert s2.save == Filling(key, content, s.fs.next, |content|);
    var s3 := Next(s2, Swap, false);
    assert s3.fs.names[Final(key)] == s.fs.next && s.fs.next !in s3.fs.flushed && s.fs.next in s3.fs.data;
  }

  lemma HastyCareful<K(!new), T(!new)>(s: State<K, T>, key: K, content: seq<T>, garbage: seq<T>)
    requires Inv(s) && s.save.Idle?
    ensures Seen(Next(Next(Next(Next(s, Make(key, content), true), Put(|content|), true), Swap, true),
                      PowerCut(map[s.fs.next := garbage], {}), true).fs, key) == Seen(s.fs, key)
  {
    var s1 := Next(s, Make(key, content), true);
    var s2 := Next(s1, Put(|content|), true);
    StepsActOnWholeContents(s, Make(key, content), key);
    StepsActOnWholeContents(s1, Put(|content|), key);
    PowerCutsSpareWholeContents(s2, map[s.fs.next := garbage], {}, key);
  }

  lemma HastyRun<K, T>(s: State<K, T>, key: K, content: seq<T>, garbage: seq<T>, careful: bool)
    ensures Run(s, Hasty(key, content, s.fs.next, garbage), careful)
         == Next(Next(Next(Next(s, Make(key, content), careful), Put(|content|), careful), Swap, careful),
                 PowerCut(map[s.fs.next := garbage], {}), careful)
  {
    var steps := Hasty(key, content, s.fs.next, garbage);
    RunSplit(s, [steps[0], steps[1], steps[2]], [steps[3]], careful);
    assert [steps[0], steps[1], steps[2]] + [steps[3]] == steps;
    RunThree(s, steps[0], steps[1], steps[2], careful);
    RunOne(Run(s, [steps[0], steps[1], steps[2]], careful), steps[3], careful);
  }

  lemma RunOne<K, T>(s: State<K, T>, a: Step<K, T>, careful: bool)
    ensures Run(s, [a], careful) == Next(s, a, careful)
  {
    assert Run(Next(s, a, careful), [], careful) == Next(s, a, careful);
  }

  lemma {:induction false} RunSplit<K, T>(s: State<K, T>, xs: seq<Step<K, T>>, ys: seq<Step<K, T>>, careful: bool)
    ensures Run(s, xs + ys, careful) == Run(Run(s, xs, careful), ys, careful)
    decreases |xs|
  {
    if xs == [] {
      assert xs + ys == ys;
    } else {
      assert (xs + ys)[1..] == xs[1..] + ys;
      RunSplit(Next(s, xs[0], careful), xs[1..], ys, careful);
    }
  }

  // ---- One save, as a call ----

  /** Where a save stops. The early faults remove the temporary file, if that succeeds. */
  datatype SaveFault =
    | NoFault
    | CreateFails
    | WriteStops(after: nat)
    | SyncFails
    | RenameFails
    | DiesAfterRename
    | DirectoryOpenFails
    | DirectorySyncRefused

  /** The new content is in place for every reader. */
  predicate Renames(fault: SaveFault) {
    fault.NoFault? || fault.DiesAfterRename? || fault.DirectoryOpenFails? || fault.DirectorySyncRefused?
  }

  /** The save reports success. A refused directory flush is not reported. */
  predicate ReportsSuccess(fault: SaveFault) { fault.NoFault? || fault.DirectorySyncRefused? }

  /** The rename itself has reached the disk. */
  predicate Flushes(fault: SaveFault) { fault.NoFault? }

  function SaveSteps<K, T>(key: K, content: seq<T>, fault: SaveFault, removes: bool): seq<Step<K, T>> {
    match fault
    case CreateFails => []
    case WriteStops(after) => [Make(key, content), Put(after), Abandon(removes)]
    case SyncFails => [Make(key, content), Put(|content|), Abandon(removes)]
    case RenameFails => [Make(key, content), Put(|content|), Sync, Abandon(removes)]
    case DiesAfterRename => [Make(key, content), Put(|content|), Sync, Swap, Die]
    case _ => [Make(key, content), Put(|content|), Sync, Swap, SyncDirectory(fault.NoFault?)]
  }

  /** Files of whole contents, each replaced by the recipe. */
  class AtomicStore<!K(==,!new), T(!new)> {
    const volume: Volume<FileName<K>, T>

    constructor ()
      ensures fresh(volume) && Valid() && forall k :: Seen(volume.View(), k).None?
    {
      volume := new Volume();
    }

    ghost predicate Valid()
      reads volume
    {
      FilesOk(volume.View())
    }

    method Read(key: K) returns (content: Option<seq<T>>)
      requires Valid()
      ensures content == Seen(volume.View(), key)
    {
      content := if Final(key) in volume.names then Some(volume.data[volume.names[Final(key)]]) else None;
    }

    /**
     One save. It is the run of its steps; success and failure alike leave the key's file with its whole old
     content or the whole new one, and every other file as it was.
     */
    method Replace(key: K, content: seq<T>, fault: SaveFault, removes: bool) returns (ok: bool)
      requires Valid()
      modifies volume
      ensures Valid() && ok == ReportsSuccess(fault)
      ensures volume.View() == Run(State(old(volume.View()), Idle), SaveSteps(key, content, fault, removes), true).fs
      ensures forall k :: Seen(volume.View(), k) == if Renames(fault) && k == key then Some(content) else Seen(old(volume.View()), k)
      ensures forall k :: Kept(volume.View(), k) == if Flushes(fault) && k == key then Some(content) else Kept(old(volume.View()), k)
    {
      ghost var before := volume.View();
      SaveIsARun(State(before, Idle), key, content, fault, removes);
      forall k {
        SavesAreWholeOrNothing(before, key, content, fault, removes, k);
      }
      SavesAreWholeOrNothing(before, key, content, fault, removes, key);
      if fault.CreateFails? {
        return false;
      }
      ok := false;
      var serial := volume.next;
      var ino := volume.New(Scratch(serial));
      if fault.WriteStops? {
        volume.Append(ino, Rest(content, 0, fault.after));
        var _ := volume.Unlink(Scratch(serial), removes);
        return;
      }
      volume.Append(ino, content);
      if fault.SyncFails? {
        var _ := volume.Unlink(Scratch(serial), removes);
        return;
      }
      volume.Sync(ino);
      if fault.RenameFails? {
        var _ := volume.Unlink(Scratch(serial), removes);
        return;
      }
      volume.Move(Scratch(serial), Final(key));
      if fault.DiesAfterRename? || fault.DirectoryOpenFails? {
        return;
      }
      if fault.NoFault? {
        volume.SyncEntry(Final(key));
      }
      ok := true;
    }
  }

  /** The filesystem a save leaves behind. */
  function AfterSave<K(==), T>(fs: Files<FileName<K>, T>, key: K, content: seq<T>, fault: SaveFault, removes: bool): Files<FileName<K>, T> {
    var made := Create(fs, Scratch(fs.next));
    var filled := Write(made, fs.next, content);
    var landed := Rename(Flush(filled, fs.next), Scratch(fs.next), Final(key));
    match fault
    case CreateFails => fs
    case WriteStops(after) =>
      var partly := Write(made, fs.next, Rest(content, 0, after));
      if removes then Remove(partly, Scratch(fs.next)) else partly
    case SyncFails => if removes then Remove(filled, Scratch(fs.next)) else filled
    case RenameFails => if removes then Remove(Flush(filled, fs.next), Scratch(fs.next)) else Flush(filled, fs.next)
    case NoFault => FlushEntry(landed, Final(key))
    case _ => landed
  }

  lemma SaveIsARun<K(!new), T(!new)>(s: State<K, T>, key: K, content: seq<T>, fault: SaveFault, removes: bool)
    requires Inv(s) && s.save.Idle?
    ensures Run(s, SaveSteps(key, content, fault, removes), true) == State(AfterSave(s.fs, key, content, fault, removes), Idle)
  {
    match fault
    case CreateFails =>
    case WriteStops(after) =>
      RunThree(s, Make(key, content), Put(after), Abandon(removes), true);
    case SyncFails =>
      RunThree(s, Make(key, content), Put(|content|), Abandon(removes), true);
      FilledWhole(s, key, content);
    case RenameFails =>
      UnrenamedIsARun(s, key, content, removes);
    case _ =>
      RenamedIsARun(s, key, content, if fault.DiesAfterRename? then Die else SyncDirectory(fault.NoFault?));
  }

  lemma UnrenamedIsARun<K(!new), T(!new)>(s: State<K, T>, key: K, content: seq<T>, removes: bool)
    requires Inv(s) && s.save.Idle?
    ensures Run(s, [Make(key, content), Put(|content|), Sync, Abandon(removes)], true)
         == State(AfterSave(s.fs, key, content, RenameFails, removes), Idle)
  {
    var head: seq<Step<K, T>> := [Make(key, content), Put(|content|), Sync];
    assert [Make(key, content), Put(|content|), Sync, Abandon(removes)] == head + [Abandon(removes)];
    RunSplit(s, head, [Abandon(removes)], true);
    SyncedWhole(s, key, content);
    SyncedAbandoned(Flush(Write(Create(s.fs, Scratch(s.fs.next)), s.fs.next, content), s.fs.next), key, content, s.fs.next, removes);
  }

  lemma SyncedAbandoned<K, T>(fs: Files<FileName<K>, T>, key: K, content: seq<T>, scratch: nat, removes: bool)
    ensures Run(State(fs, Synced(key, content, scratch)), [Abandon(removes)], true)
         == State(if removes then Remove(fs, Scratch(scratch)) else fs, Idle)
  {
    RunOne(State(fs, Synced(key, content, scratch)), Abandon(removes), true);
  }

  lemma SyncedRenamed<K, T>(fs: Files<FileName<K>, T>, key: K, content: seq<T>, scratch: nat, last: Step<K, T>)
    requires last.Die? || last.SyncDirectory?
    ensures var landed := Rename(fs, Scratch(scratch), Final(key));
            Run(State(fs, Synced(key, content, scratch)), [Swap, last], true)
            == State(if last.SyncDirectory? && last.honoured then FlushEntry(landed, Final(key)) else landed, Idle)
  {
    RunTwo(State(fs, Synced(key, content, scratch)), Swap, last, true);
  }

  lemma RenamedIsARun<K(!new), T(!new)>(s: State<K, T>, key: K, content: seq<T>, last: Step<K, T>)
    requires Inv(s) && s.save.Idle? && (last.Die? || last.SyncDirectory?)
    ensures Run(s, [Make(key, content), Put(|content|), Sync, Swap, last], true)
         == State(AfterSave(s.fs, key, content, if last.SyncDirectory? && last.honoured then NoFault else DiesAfterRename, false), Idle)
  {
    var head: seq<Step<K, T>> := [Make(key, content), Put(|content|), Sync];
    assert [Make(key, content), Put(|content|), Sync, Swap, last] == head + [Swap, last];
    RunSplit(s, head, [Swap, last], true);
    SyncedWhole(s, key, content);
    SyncedRenamed(Flush(Write(Create(s.fs, Scratch(s.fs.next)), s.fs.next, content), s.fs.next), key, content, s.fs.next, last);
  }

  lemma SyncedWhole<K(!new), T(!new)>(s: State<K, T>, key: K, content: seq<T>)
    requires Inv(s) && s.save.Idle?
    ensures Run(s, [Make(key, content), Put(|content|), Sync], true)
         == State(Flush(Write(Create(s.fs, Scratch(s.fs.next)), s.fs.next, content), s.fs.next), Synced(key, content, s.fs.next))
  {
    RunThree(s, Make(key, content), Put(|content|), Sync, true);
    FilledWhole(s, key, content);
  }

  lemma FilledWhole<K(!new), T(!new)>(s: State<K, T>, key: K, content: seq<T>)
    requires Inv(s) && s.save.Idle?
    ensures Next(Next(s, Make(key, content), true), Put(|content|), true)
         == State(Write(Create(s.fs, Scratch(s.fs.next)), s.fs.next, content), Filling(key, content, s.fs.next, |content|))
  {
    assert Rest(content, 0, |content|) == content;
  }

  lemma RunTwo<K, T>(s: State<K, T>, a: Step<K, T>, b: Step<K, T>, careful: bool)
    ensures Run(s, [a, b], careful) == Next(Next(s, a, careful), b, careful)
  {
    assert [a, b][1..] == [b];
    RunOne(Next(s, a, careful), b, careful);
  }

  lemma RunThree<K, T>(s: State<K, T>, a: Step<K, T>, b: Step<K, T>, c: Step<K, T>, careful: bool)
    ensures Run(s, [a, b, c], careful) == Next(Next(Next(s, a, careful), b, careful), c, careful)
  {
    assert [a, b, c][1..] == [b, c];
    RunTwo(Next(s, a, careful), b, c, careful);
  }

  /** What a save means for a reader, whatever stopped it. */
  lemma SavesAreWholeOrNothing<K(!new), T(!new)>(
    fs: Files<FileName<K>, T>, key: K, content: seq<T>, fault: SaveFault, removes: bool, k: K)
    requires FilesOk(fs)
    ensures var fs' := AfterSave(fs, key, content, fault, removes);
            && FilesOk(fs')
            && Seen(fs', k) == (if Renames(fault) && k == key then Some(content) else Seen(fs, k))
            && Kept(fs', k) == (if Flushes(fault) && k == key then Some(content) else Kept(fs, k))
  {
    if Renames(fault) {
      LandedIsWhole(fs, key, content, k);
      SettledIsWhole(AfterSave(fs, key, content, DiesAfterRename, false), key, k);
    } else if fault.WriteStops? {
      ScratchIsInvisible(fs, Rest(content, 0, fault.after), false, removes, k);
    } else if !fault.CreateFails? {
      ScratchIsInvisible(fs, content, fault.RenameFails?, removes, k);
    }
  }

  lemma LandedIsWhole<K(!new), T(!new)>(fs: Files<FileName<K>, T>, key: K, content: seq<T>, k: K)
    requires FilesOk(fs)
    ensures var landed := AfterSave(fs, key, content, DiesAfterRename, false);
            && FilesOk(landed) && Final(key) in landed.names
            && Seen(landed, k) == (if k == key then Some(content) else Seen(fs, k))
            && Kept(landed, k) == Kept(fs, k)
  {
    var filled := Flush(Write(Create(fs, Scratch(fs.next)), fs.next, content), fs.next);
    assert [] + content == content;
    assert filled.data[fs.next] == content;
    assert filled.flushed == fs.flushed + {fs.next};
  }

  lemma SettledIsWhole<K(!new), T(!new)>(fs: Files<FileName<K>, T>, key: K, k: K)
    requires FilesOk(fs)
    ensures FilesOk(FlushEntry(fs, Final(key))) && Seen(FlushEntry(fs, Final(key)), k) == Seen(fs, k)
    ensures Kept(FlushEntry(fs, Final(key)), k) == if k == key then Seen(fs, k) else Kept(fs, k)
  {
  }

  lemma ScratchIsInvisible<K(!new), T(!new)>(fs: Files<FileName<K>, T>, part: seq<T>, flushed: bool, removed: bool, k: K)
    requires FilesOk(fs)
    ensures var filled := Write(Create(fs, Scratch(fs.next)), fs.next, part);
            var left := if flushed then Flush(filled, fs.next) else filled;
            var end := if removed then Remove(left, Scratch(fs.next)) else left;
            FilesOk(end) && Seen(end, k) == Seen(fs, k) && Kept(end, k) == Kept(fs, k)
  {
    var filled := Write(Create(fs, Scratch(fs.next)), fs.next, part);
    assert forall i :: i in fs.data ==> filled.data[i] == fs.data[i];
    assert fs.flushed - {fs.next} <= filled.flushed;
  }
}
