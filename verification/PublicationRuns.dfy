/**
 Any number of receiving flows staging, verifying and publishing at once, with cleanup, outsiders adding
 files, failures and power cuts between any two steps. A power cut can damage bytes never flushed and undo
 links, removals and journal entries never flushed. What the library shows throughout.
 */
module PublicationRuns {
  import opened Numbers
  import opened Wrappers
  import opened Streams
  import opened Filesystem

  type Bytes = seq<Byte>
  type TransferId = nat

  /** A file of the library and the folder it is in. */
  datatype Path = Path(folder: nat, file: nat)

  /** The staging directory, the publication staging directory, the library, and the library's folders. */
  datatype Name = Part(id: TransferId) | Temp(serial: nat) | Library(path: Path) | Folder(folder: nat)

  type Fs = Files<Name, Byte>

  /** What a transfer is promised: the contents its verification accepts. */
  type Promise = Bytes -> bool

  /** Where one flow stands. A flow that has ended is no longer listed. */
  datatype Phase =
    | Begun
    | Writing(ino: Ino)
    | Written
    | Verified
    | Clear
    | Copying(tmp: nat, to: Ino, from: Ino, offset: nat, hashed: Bytes)
    | Copied(tmp: nat)
    | Linked(leftover: Name)
    | Closing(leftover: Name)

  datatype Flow = Flow(dest: Path, expected: Promise, sameFilesystem: bool, phase: Phase)

  /**
   `known` is the transfers whose journal entry any reader finds and `recorded` those whose entry is on the
   disk. `published` and `foreign` are history: what each publication promised for its path, and what others
   put into the library.
   */
  datatype State = State(
    fs: Fs,
    flows: map<TransferId, Flow>,
    known: set<TransferId>,
    recorded: set<TransferId>,
    published: map<Path, Promise>,
    foreign: map<Path, Bytes>)

  datatype Step =
    | Begin(id: TransferId, dest: Path, expected: Promise, sameFilesystem: bool, proceeds: bool, flushed: bool)
    | Open(id: TransferId)
    | WriteSome(id: TransferId, bytes: Bytes)
    | FlushStaged(id: TransferId)
    | VerifyStaged(id: TransferId, readable: bool, removes: bool)
    | Recheck(id: TransferId, makes: bool)
    | StartCopy(id: TransferId)
    | CopySome(id: TransferId, count: nat, instead: Option<Bytes>)
    | FinishCopy(id: TransferId, removes: bool)
    | PutInPlace(id: TransferId)
    | FlushLibrary(id: TransferId, opens: bool, honoured: bool, removes: bool)
    | Tidy(id: TransferId, removes: bool)
    | GiveUp(id: TransferId, removes: bool)
    | Cleanup(id: TransferId)
    | Outsider(path: Path, bytes: Bytes)
    | Settle(name: Name)
    | SettleJournal(ids: set<TransferId>)
    | PowerCut(damage: map<Ino, Bytes>, lost: set<Name>, forgets: set<TransferId>)

  // ---- The steps ----

  predicate At(s: State, id: TransferId) { id in s.flows }

  function Move(s: State, id: TransferId, fs: Fs, phase: Phase): State
    requires At(s, id)
  {
    s.(fs := fs, flows := s.flows[id := s.flows[id].(phase := phase)])
  }

  function End(s: State, id: TransferId, fs: Fs): State {
    s.(fs := fs, flows := s.flows - {id})
  }

  /** The journal admits a transfer once; its directory flush may be refused without anyone noticing. */
  function NextBegin(
    s: State, id: TransferId, dest: Path, expected: Promise, same: bool, proceeds: bool, flushed: bool): State
  {
    if id in s.known then s
    else s.(known := s.known + {id},
            recorded := if flushed then s.recorded + {id} else s.recorded,
            flows := if proceeds then s.flows[id := Flow(dest, expected, same, Begun)] else s.flows)
  }

  function NextOpen(s: State, id: TransferId): State {
    if !At(s, id) || !s.flows[id].phase.Begun? then s
    else
      var fs := OpenTruncated(s.fs, Part(id));
      Move(s, id, fs, Writing(fs.names[Part(id)]))
  }

  function NextWrite(s: State, id: TransferId, bytes: Bytes): State {
    if !At(s, id) || !s.flows[id].phase.Writing? then s
    else s.(fs := Write(s.fs, s.flows[id].phase.ino, bytes))
  }

  function NextFlush(s: State, id: TransferId): State {
    if !At(s, id) || !s.flows[id].phase.Writing? then s
    else Move(s, id, Flush(s.fs, s.flows[id].phase.ino), Written)
  }

  /** Read the staged name back; a file that does not agree is abandoned. */
  function NextVerify(s: State, id: TransferId, readable: bool, removes: bool): State {
    if !At(s, id) || !s.flows[id].phase.Written? then s
    else if readable && s.fs.Holds(Part(id)) && s.flows[id].expected(s.fs.Content(Part(id))) then
      Move(s, id, s.fs, Verified)
    else End(s, id, if removes then Remove(s.fs, Part(id)) else s.fs)
  }

  /** The folder of a path, made if it is not there. Its own entry in the folder above is never flushed. */
  function WithFolder(fs: Fs, path: Path): Fs {
    if Folder(path.folder) in fs.names then fs else Create(fs, Folder(path.folder))
  }

  /** The folder is made, or cannot be; then the path must be free. */
  function NextRecheck(s: State, id: TransferId, makes: bool): State {
    if !At(s, id) || !s.flows[id].phase.Verified? then s
    else
      var dest := s.flows[id].dest;
      if Folder(dest.folder) !in s.fs.names && !makes then End(s, id, s.fs)
      else if Library(dest) in s.fs.names then End(s, id, WithFolder(s.fs, dest))
      else Move(s, id, WithFolder(s.fs, dest), Clear)
  }

  function NextStartCopy(s: State, id: TransferId): State {
    if !At(s, id) || !s.flows[id].phase.Clear? || s.flows[id].sameFilesystem || Part(id) !in s.fs.names then s
    else
      Move(s, id, Create(s.fs, Temp(s.fs.next)), Copying(s.fs.next, s.fs.next, s.fs.names[Part(id)], 0, []))
  }

  function Chunk(source: Bytes, offset: nat, count: nat): Bytes {
    if offset < |source| then source[offset..offset + Min(count, |source| - offset)] else []
  }

  function Progress(c: Phase, chunk: Bytes): Phase
    requires c.Copying?
  {
    c.(offset := c.offset + |chunk|, hashed := c.hashed + chunk)
  }

  function Stored(chunk: Bytes, instead: Option<Bytes>): Bytes {
    if instead.Some? then instead.value else chunk
  }

  /** Some bytes are read, hashed and written to the copy, where the disk may store others instead. */
  function NextCopy(s: State, id: TransferId, count: nat, instead: Option<Bytes>): State {
    if !At(s, id) || !s.flows[id].phase.Copying? || s.flows[id].phase.from !in s.fs.data then s
    else
      var c := s.flows[id].phase;
      var chunk := Chunk(s.fs.data[c.from], c.offset, count);
      Move(s, id, Write(s.fs, c.to, Stored(chunk, instead)), Progress(c, chunk))
  }

  function NextFinishCopy(s: State, id: TransferId, removes: bool): State {
    if !At(s, id) || !s.flows[id].phase.Copying? then s
    else
      var c := s.flows[id].phase;
      if c.from !in s.fs.data || c.offset < |s.fs.data[c.from]| then s
      else if s.flows[id].expected(c.hashed) then Move(s, id, Flush(s.fs, c.to), Copied(c.tmp))
      else End(s, id, if removes then Remove(Flush(s.fs, c.to), Temp(c.tmp)) else Flush(s.fs, c.to))
  }

  /** The link that makes the payload visible. It fails if anything has the name by now. */
  function NextPut(s: State, id: TransferId): State {
    if !At(s, id) then s
    else
      var f := s.flows[id];
      if !(f.phase.Clear? && f.sameFilesystem) && !f.phase.Copied? then s
      else
        var source := if f.phase.Copied? then Temp(f.phase.tmp) else Part(id);
        if Linkable(s.fs, source, Library(f.dest)) then
          Move(s, id, Link(s.fs, source, Library(f.dest)), Linked(source)).(published := s.published[f.dest := f.expected])
        else if f.phase.Copied? then Move(s, id, s.fs, Closing(source))
        else End(s, id, s.fs)
  }

  /**
   The library directory is opened and flushed. If it cannot be opened the call fails although the link is
   there, and only a copy's temporary name is removed; a refused flush is not noticed.
   */
  function NextFlushLibrary(s: State, id: TransferId, opens: bool, honoured: bool, removes: bool): State {
    if !At(s, id) || !s.flows[id].phase.Linked? then s
    else
      var leftover := s.flows[id].phase.leftover;
      if !opens then End(s, id, if removes && leftover.Temp? then Remove(s.fs, leftover) else s.fs)
      else Move(s, id, if honoured then FlushEntry(s.fs, Library(s.flows[id].dest)) else s.fs, Closing(leftover))
  }

  /** Removing what is left over may fail; then the name survives. */
  function NextTidy(s: State, id: TransferId, removes: bool): State {
    if !At(s, id) || !s.flows[id].phase.Closing? then s
    else End(s, id, if removes then Remove(s.fs, s.flows[id].phase.leftover) else s.fs)
  }

  /** A flow can fail anywhere; a half-made copy is removed, or not. */
  function NextGiveUp(s: State, id: TransferId, removes: bool): State {
    if !At(s, id) then s
    else
      var phase := s.flows[id].phase;
      End(s, id, if !removes then s.fs
                 else if HasTemp(phase) then Remove(s.fs, Temp(TempOf(phase))) else s.fs)
  }

  function NextOutsider(s: State, path: Path, bytes: Bytes): State {
    if Library(path) in s.fs.names then s
    else s.(fs := Place(WithFolder(s.fs, path), Library(path), bytes), foreign := s.foreign[path := bytes])
  }

  /** A folder that is gone takes its files with it. */
  function Attached(names: map<Name, Ino>): map<Name, Ino> {
    map n | n in names && (n.Library? ==> Folder(n.path.folder) in names) :: names[n]
  }

  function Cut(fs: Fs, damage: map<Ino, Bytes>, lost: set<Name>): Fs {
    var cut := AfterPowerCut(fs, damage, lost);
    cut.(names := Attached(cut.names), kept := Attached(cut.kept))
  }

  /** Every flow ends; what was never flushed is damaged, undone or forgotten, or not. What is left is on the disk. */
  function NextPowerCut(s: State, damage: map<Ino, Bytes>, lost: set<Name>, forgets: set<TransferId>): State {
    var fs := Cut(s.fs, damage, lost);
    s.(flows := map[], fs := fs,
       known := s.known - (forgets - s.recorded), recorded := s.known - (forgets - s.recorded),
       published := map p | p in s.published && Library(p) in fs.names :: s.published[p],
       foreign := map p | p in s.foreign && Library(p) in fs.names :: s.foreign[p])
  }

  function Next(s: State, step: Step): State {
    match step
    case Begin(id, dest, expected, same, proceeds, flushed) => NextBegin(s, id, dest, expected, same, proceeds, flushed)
    case Open(id) => NextOpen(s, id)
    case WriteSome(id, bytes) => NextWrite(s, id, bytes)
    case FlushStaged(id) => NextFlush(s, id)
    case VerifyStaged(id, readable, removes) => NextVerify(s, id, readable, removes)
    case Recheck(id, makes) => NextRecheck(s, id, makes)
    case StartCopy(id) => NextStartCopy(s, id)
    case CopySome(id, count, instead) => NextCopy(s, id, count, instead)
    case FinishCopy(id, removes) => NextFinishCopy(s, id, removes)
    case PutInPlace(id) => NextPut(s, id)
    case FlushLibrary(id, opens, honoured, removes) => NextFlushLibrary(s, id, opens, honoured, removes)
    case Tidy(id, removes) => NextTidy(s, id, removes)
    case GiveUp(id, removes) => NextGiveUp(s, id, removes)
    case Cleanup(id) => s.(fs := Remove(s.fs, Part(id)))
    case Outsider(path, bytes) => NextOutsider(s, path, bytes)
    case Settle(name) => s.(fs := FlushEntry(s.fs, name))
    case SettleJournal(ids) => s.(recorded := s.recorded + ids * s.known)
    case PowerCut(damage, lost, forgets) => NextPowerCut(s, damage, lost, forgets)
  }

  function Run(s: State, steps: seq<Step>): State
    decreases |steps|
  {
    if steps == [] then s else Run(Next(s, steps[0]), steps[1..])
  }

  lemma {:induction false} RunSplit(s: State, xs: seq<Step>, ys: seq<Step>)
    ensures Run(s, xs + ys) == Run(Run(s, xs), ys)
    decreases |xs|
  {
    if xs == [] {
      assert xs + ys == ys;
    } else {
      assert (xs + ys)[1..] == xs[1..] + ys;
      RunSplit(Next(s, xs[0]), xs[1..], ys);
    }
  }

  lemma RunOne(s: State, a: Step)
    ensures Run(s, [a]) == Next(s, a)
  {
    assert Run(Next(s, a), []) == Next(s, a);
  }

  lemma RunTwo(s: State, a: Step, b: Step)
    ensures Run(s, [a, b]) == Next(Next(s, a), b)
  {
    assert [a, b][1..] == [b];
    RunOne(Next(s, a), b);
  }

  lemma RunThree(s: State, a: Step, b: Step, c: Step)
    ensures Run(s, [a, b, c]) == Next(Next(Next(s, a), b), c)
  {
    assert [a, b, c][1..] == [b, c];
    RunTwo(Next(s, a), b, c);
  }

  lemma RunFour(s: State, a: Step, b: Step, c: Step, d: Step)
    ensures Run(s, [a, b, c, d]) == Next(Next(Next(Next(s, a), b), c), d)
  {
    assert [a, b, c, d][1..] == [b, c, d];
    RunThree(Next(s, a), b, c, d);
  }

  // ---- The invariant ----

  /** The inode a flow is writing, under the one name it may have. */
  predicate Writes(phase: Phase) { phase.Writing? || phase.Copying? }

  function Target(phase: Phase): Ino
    requires Writes(phase)
  {
    if phase.Writing? then phase.ino else phase.to
  }

  function OwnName(id: TransferId, phase: Phase): Name
    requires Writes(phase)
  {
    if phase.Writing? then Part(id) else Temp(phase.tmp)
  }

  predicate Ending(phase: Phase) { phase.Linked? || phase.Closing? }

  predicate HasTemp(phase: Phase) { phase.Copying? || phase.Copied? || (Ending(phase) && phase.leftover.Temp?) }

  function TempOf(phase: Phase): nat
    requires HasTemp(phase)
  {
    if Ending(phase) then phase.leftover.serial else phase.tmp
  }

  /** No name but one leads to an inode, or would after a power cut. */
  ghost predicate OnlyName(fs: Fs, ino: Ino, name: Name) {
    && (forall n :: n in fs.names && fs.names[n] == ino ==> n == name)
    && (forall n :: n in fs.kept && fs.kept[n] == ino ==> n == name)
  }

  /** A staged name, if there is one, is all that leads to its file. */
  ghost predicate Loose(fs: Fs, id: TransferId) {
    && (Part(id) in fs.names ==> OnlyName(fs, fs.names[Part(id)], Part(id)))
    && (Part(id) in fs.kept ==> OnlyName(fs, fs.kept[Part(id)], Part(id)))
  }

  /** What holds of one flow. What it writes has no other name; what it has verified stays as verified. */
  ghost predicate FlowOk(fs: Fs, id: TransferId, f: Flow) {
    && (f.phase.Begun? ==> Loose(fs, id))
    && (Writes(f.phase) ==> Target(f.phase) in fs.data && OnlyName(fs, Target(f.phase), OwnName(id, f.phase)))
    && (f.phase.Writing? ==> Part(id) in fs.names ==> fs.names[Part(id)] == f.phase.ino)
    && (f.phase.Written? || f.phase.Verified? || f.phase.Clear? ==>
          Part(id) in fs.names ==> fs.names[Part(id)] in fs.flushed)
    && (f.phase.Verified? || f.phase.Clear? ==> fs.Holds(Part(id)) ==> f.expected(fs.Content(Part(id))))
    && (f.phase.Copying? ==>
          Temp(f.phase.tmp) in fs.names && fs.names[Temp(f.phase.tmp)] == f.phase.to && fs.data[f.phase.to] == f.phase.hashed)
    && (f.phase.Copied? ==>
          && fs.Holds(Temp(f.phase.tmp)) && fs.names[Temp(f.phase.tmp)] in fs.flushed
          && f.expected(fs.Content(Temp(f.phase.tmp))))
    && (Ending(f.phase) ==> (f.phase.leftover.Part? || f.phase.leftover.Temp?) && (f.phase.leftover.Part? ==> f.phase.leftover.id == id))
    && (HasTemp(f.phase) ==> TempOf(f.phase) < fs.next)
    && (f.phase.Clear? || f.phase.Copying? || f.phase.Copied? ==> Folder(f.dest.folder) in fs.names)
  }

  /** No two flows share an inode being written or a temporary name. */
  ghost predicate Apart(f: Flow, g: Flow) {
    && (Writes(f.phase) && Writes(g.phase) ==> Target(f.phase) != Target(g.phase))
    && (HasTemp(f.phase) && HasTemp(g.phase) ==> TempOf(f.phase) != TempOf(g.phase))
  }

  /**
   The library's side: every name is of flushed bytes and as promised or as its owner left it, and a name on
   the disk leads where it is seen to lead.
   */
  ghost predicate LibraryOk(s: State) {
    && (forall p: Path :: Library(p) in s.fs.names ==> s.fs.names[Library(p)] in s.fs.flushed)
    && (forall p: Path :: Library(p) in s.fs.kept ==>
          Library(p) in s.fs.names && s.fs.kept[Library(p)] == s.fs.names[Library(p)])
    && (forall p: Path :: Library(p) in s.fs.names ==> p in s.published || p in s.foreign)
    && (forall p :: p in s.published ==> s.fs.Holds(Library(p)) && s.published[p](s.fs.Content(Library(p))))
    && (forall p :: p in s.foreign ==>
          p !in s.published && s.fs.Holds(Library(p)) && s.fs.Content(Library(p)) == s.foreign[p])
  }

  ghost predicate FilesOk(fs: Fs) {
    && Sound(fs)
    && (forall k: nat :: Temp(k) in fs.names || Temp(k) in fs.kept ==> k < fs.next)
    && (forall d: nat :: Folder(d) in fs.kept ==> Folder(d) in fs.names)
    && (forall p: Path :: Library(p) in fs.names ==> Folder(p.folder) in fs.names)
  }

  /** Only a transfer the journal knows may have a staged name of a file that has another. */
  ghost predicate StagedOk(s: State) {
    forall id: TransferId {:trigger Loose(s.fs, id)} :: id !in s.known ==> Loose(s.fs, id)
  }

  ghost predicate FlowsOk(s: State) { forall id :: id in s.flows ==> id in s.known && FlowOk(s.fs, id, s.flows[id]) }

  ghost predicate AllApart(s: State) {
    forall a, b :: a in s.flows && b in s.flows && a != b ==> Apart(s.flows[a], s.flows[b])
  }

  ghost predicate Inv(s: State) {
    && FilesOk(s.fs)
    && StagedOk(s)
    && FlowsOk(s)
    && AllApart(s)
    && LibraryOk(s)
  }

  /** What the journal on the disk does not hold has nothing staged and no flow. */
  ghost predicate Remembered(s: State) {
    && s.recorded <= s.known
    && forall id: TransferId :: id !in s.recorded ==> Part(id) !in s.fs.names && Part(id) !in s.fs.kept && id !in s.flows
  }

  /** Any library, safely on the disk, and nothing staged. */
  ghost predicate Init(s: State) {
    && FilesOk(s.fs) && s.fs.kept == s.fs.names
    && s.flows == map[] && s.known == {} && s.recorded == {} && s.published == map[]
    && (forall n :: n in s.fs.names ==> n.Folder? || (n.Library? && n.path in s.foreign))
    && LibraryOk(s)
  }

  /**
   What a step leaves of the library: every name shows the bytes it showed, or is gone, which only one whose
   entry or folder was not flushed can be; and every name on the disk stays there with its bytes.
   */
  ghost predicate LibraryKept(fs: Fs, fs': Fs) {
    && (forall p: Path :: fs.Holds(Library(p)) ==>
          if Library(p) in fs'.names then fs'.Holds(Library(p)) && fs'.Content(Library(p)) == fs.Content(Library(p))
          else !Durable(fs, p))
    && Lasting(fs, fs')
  }

  /** Its own entry and its folder's are on the disk. */
  predicate Durable(fs: Fs, p: Path) { Library(p) in fs.kept && Folder(p.folder) in fs.kept }

  ghost predicate Lasting(fs: Fs, fs': Fs) {
    forall p: Path :: fs.Holds(Library(p)) && Durable(fs, p) ==>
      Durable(fs', p) && fs'.Holds(Library(p)) && fs'.Content(Library(p)) == fs.Content(Library(p))
  }

  // ---- What one change to the filesystem means for a flow it does not belong to ----

  lemma RemoveSpares(fs: Fs, n: Name, id: TransferId, f: Flow)
    requires FlowOk(fs, id, f) && (n.Part? || n.Temp?) && (n.Temp? && HasTemp(f.phase) ==> TempOf(f.phase) != n.serial)
    ensures FlowOk(Remove(fs, n), id, f)
  {
  }

  lemma CreateSpares(fs: Fs, n: Name, id: TransferId, f: Flow)
    requires FilesOk(fs) && FlowOk(fs, id, f) && n !in fs.names && n != Part(id)
    ensures FlowOk(Create(fs, n), id, f)
  {
  }

  lemma WriteSpares(fs: Fs, ino: Ino, own: Name, bytes: Bytes, id: TransferId, f: Flow)
    requires FlowOk(fs, id, f) && OnlyName(fs, ino, own)
    requires own != Part(id) && (own.Temp? && HasTemp(f.phase) ==> TempOf(f.phase) != own.serial)
    requires Writes(f.phase) ==> Target(f.phase) != ino
    ensures FlowOk(Write(fs, ino, bytes), id, f)
  {
  }

  lemma LinkSpares(fs: Fs, from: Name, p: Path, id: TransferId, f: Flow)
    requires FlowOk(fs, id, f) && Linkable(fs, from, Library(p))
    requires (Writes(f.phase) ==> Target(f.phase) != fs.names[from]) && (f.phase.Begun? ==> from != Part(id))
    ensures FlowOk(Link(fs, from, Library(p)), id, f)
  {
  }

  // ---- What it means for the staged names of transfers the journal does not know ----

  /** Every name leads where one led before, but for one that may be new. */
  ghost predicate Leads(fs: Fs, fs': Fs, new_: Name) {
    && (forall n :: n in fs'.names && n != new_ ==> n in fs.names && fs'.names[n] == fs.names[n])
    && (new_ in fs'.names ==> (new_ in fs.names && fs'.names[new_] == fs.names[new_]) || fs'.names[new_] >= fs.next)
    && (forall n :: n in fs'.kept ==>
          (n in fs.kept && fs'.kept[n] == fs.kept[n]) || (n in fs.names && fs'.kept[n] == fs.names[n]))
  }

  lemma StaysLoose(fs: Fs, fs': Fs, new_: Name, id: TransferId)
    requires Sound(fs) && Leads(fs, fs', new_) && new_ != Part(id) && Loose(fs, id)
    ensures Loose(fs', id)
  {
  }

  lemma StagedFollows(s: State, t: State, new_: Name)
    requires Sound(s.fs) && Leads(s.fs, t.fs, new_) && (new_.Part? ==> new_.id in t.known)
    requires StagedOk(s) && s.known <= t.known
    ensures StagedOk(t)
  {
    forall id: TransferId | id !in t.known ensures Loose(t.fs, id) {
      StaysLoose(s.fs, t.fs, new_, id);
    }
  }

  lemma LinkStaysLoose(fs: Fs, from: Name, p: Path, id: TransferId)
    requires Linkable(fs, from, Library(p)) && from != Part(id) && Loose(fs, id)
    ensures Loose(Link(fs, from, Library(p)), id)
  {
  }

  // ---- Every step keeps the invariant, and the library ----

  ghost predicate Keeps(s: State, s': State) { Inv(s') && LibraryKept(s.fs, s'.fs) }

  lemma BeginKeeps(
    s: State, id: TransferId, dest: Path, expected: Promise, same: bool, proceeds: bool, flushed: bool)
    requires Inv(s)
    ensures Keeps(s, NextBegin(s, id, dest, expected, same, proceeds, flushed))
  {
    if id !in s.known {
      assert Loose(s.fs, id);
      var t := NextBegin(s, id, dest, expected, same, proceeds, flushed);
      forall a, b | a in t.flows && b in t.flows && a != b ensures Apart(t.flows[a], t.flows[b]) {
        assert a in s.flows && b in s.flows ==> Apart(s.flows[a], s.flows[b]);
      }
      assert LibraryOk(t);
    }
  }

  /** A flow that ends leaves the others as they were. */
  lemma EndKeeps(s: State, id: TransferId)
    requires Inv(s)
    ensures Keeps(s, End(s, id, s.fs))
  {
  }

  lemma RemoveKeepsLibrary(s: State, n: Name)
    requires FilesOk(s.fs) && LibraryOk(s) && (n.Part? || n.Temp?)
    ensures var fs := Remove(s.fs, n); LibraryOk(s.(fs := fs)) && LibraryKept(s.fs, fs) && FilesOk(fs)
  {
  }

  /** Removing a staged name, or the temporary name of a flow no longer listed. */
  lemma RemoveKeeps(s: State, n: Name)
    requires Inv(s) && (n.Part? || n.Temp?)
    requires n.Temp? ==> forall id :: id in s.flows && HasTemp(s.flows[id].phase) ==> TempOf(s.flows[id].phase) != n.serial
    ensures Keeps(s, s.(fs := Remove(s.fs, n)))
  {
    StagedFollows(s, s.(fs := Remove(s.fs, n)), Temp(0));
    RemoveKeepsLibrary(s, n);
    forall id | id in s.flows ensures FlowOk(Remove(s.fs, n), id, s.flows[id]) {
      RemoveSpares(s.fs, n, id, s.flows[id]);
    }
  }

  lemma EndRemoving(s: State, id: TransferId, n: Name)
    requires Inv(s) && id in s.flows
    requires n == Part(id) || (HasTemp(s.flows[id].phase) && n == Temp(TempOf(s.flows[id].phase)))
    ensures Keeps(s, End(s, id, Remove(s.fs, n)))
  {
    EndKeeps(s, id);
    var t := End(s, id, s.fs);
    forall other | other in t.flows && HasTemp(t.flows[other].phase) && n.Temp?
      ensures TempOf(t.flows[other].phase) != n.serial
    {
      assert Apart(s.flows[id], s.flows[other]);
    }
    RemoveKeeps(t, n);
    assert End(s, id, Remove(s.fs, n)) == t.(fs := Remove(t.fs, n));
  }

  /** A flow moves on while the files stay as they are. */
  lemma MoveKeeps(s: State, id: TransferId, phase: Phase)
    requires Inv(s) && id in s.flows && FlowOk(s.fs, id, s.flows[id].(phase := phase))
    requires !Writes(phase)
    requires HasTemp(phase) ==> HasTemp(s.flows[id].phase) && TempOf(phase) == TempOf(s.flows[id].phase)
    ensures Keeps(s, Move(s, id, s.fs, phase))
  {
    var t := Move(s, id, s.fs, phase);
    forall a, b | a in t.flows && b in t.flows && a != b ensures Apart(t.flows[a], t.flows[b]) {
      assert Apart(s.flows[a], s.flows[b]);
    }
  }

  lemma CreateKeepsLibrary(s: State, n: Name)
    requires Inv(s) && n !in s.fs.names && (n.Part? || n.Temp?) && (n.Temp? ==> n.serial == s.fs.next)
    ensures LibraryOk(s.(fs := Create(s.fs, n))) && LibraryKept(s.fs, Create(s.fs, n)) && FilesOk(Create(s.fs, n))
  {
    var fs := Create(s.fs, n);
    assert fs.names[n] == s.fs.next;
  }

  lemma OpenKeeps(s: State, id: TransferId)
    requires Inv(s)
    ensures Keeps(s, NextOpen(s, id))
  {
    if id in s.flows && s.flows[id].phase.Begun? {
      if Part(id) in s.fs.names {
        ReopenKeeps(s, id);
      } else {
        CreateKeepsLibrary(s, Part(id));
        Created(s, id, Part(id), Writing(s.fs.next));
      }
    }
  }

  lemma TruncateSpares(fs: Fs, id: TransferId, other: TransferId, f: Flow)
    requires FlowOk(fs, other, f) && Loose(fs, id) && Part(id) in fs.names && id != other
    ensures FlowOk(OpenTruncated(fs, Part(id)), other, f)
    ensures Writes(f.phase) ==> Target(f.phase) != fs.names[Part(id)]
  {
  }

  lemma TruncateKeepsLibrary(s: State, id: TransferId)
    requires FilesOk(s.fs) && LibraryOk(s) && Loose(s.fs, id) && Part(id) in s.fs.names
    ensures var fs := OpenTruncated(s.fs, Part(id));
            LibraryOk(s.(fs := fs)) && LibraryKept(s.fs, fs) && FilesOk(fs)
  {
  }

  /** A staged name left from before leads to a file of nobody else, which is emptied. */
  lemma ReopenKeeps(s: State, id: TransferId)
    requires Inv(s) && id in s.flows && s.flows[id].phase.Begun? && Part(id) in s.fs.names
    ensures Keeps(s, NextOpen(s, id))
  {
    var t := NextOpen(s, id);
    StagedFollows(s, t, Temp(0));
    TruncateKeepsLibrary(s, id);
    assert LibraryOk(t);
    forall other | other in t.flows ensures FlowOk(t.fs, other, t.flows[other]) {
      if other == id {
        ReopenedIsOwn(s.fs, id, s.flows[id]);
      } else {
        TruncateSpares(s.fs, id, other, s.flows[other]);
      }
    }
    ReopenedIsApart(s, id);
  }

  lemma ReopenedIsOwn(fs: Fs, id: TransferId, f: Flow)
    requires FilesOk(fs) && Loose(fs, id) && Part(id) in fs.names
    ensures FlowOk(OpenTruncated(fs, Part(id)), id, f.(phase := Writing(fs.names[Part(id)])))
  {
  }

  lemma ReopenedIsApart(s: State, id: TransferId)
    requires FlowsOk(s) && AllApart(s) && id in s.flows && s.flows[id].phase.Begun? && Part(id) in s.fs.names
    ensures AllApart(NextOpen(s, id))
  {
    var t := NextOpen(s, id);
    forall a, b | a in t.flows && b in t.flows && a != b ensures Apart(t.flows[a], t.flows[b]) {
      assert Apart(s.flows[a], s.flows[b]);
      if a == id {
        TruncateSpares(s.fs, id, b, s.flows[b]);
      } else if b == id {
        TruncateSpares(s.fs, id, a, s.flows[a]);
      }
    }
  }

  lemma NewTargetsAreApart(fs: Fs, f: Flow, other: TransferId, g: Flow)
    requires FilesOk(fs) && FlowOk(fs, other, g) && Writes(f.phase) && Target(f.phase) == fs.next
    requires HasTemp(f.phase) ==> TempOf(f.phase) == fs.next
    ensures Apart(f, g) && Apart(g, f)
  {
  }

  lemma CreatedIsOwn(fs: Fs, id: TransferId, f: Flow, n: Name, phase: Phase)
    requires FilesOk(fs) && Writes(phase) && Target(phase) == fs.next && n == OwnName(id, phase)
    requires n.Temp? ==> n.serial == fs.next && phase.hashed == [] && Folder(f.dest.folder) in fs.names
    ensures FlowOk(Create(fs, n), id, f.(phase := phase))
  {
  }

  /** A flow creates a file and begins writing it. */
  lemma Created(s: State, id: TransferId, n: Name, phase: Phase)
    requires Inv(s) && id in s.flows && n !in s.fs.names && (n.Part? || n.Temp?)
    requires Writes(phase) && Target(phase) == s.fs.next && n == OwnName(id, phase)
    requires n.Temp? ==>
               n.serial == s.fs.next && phase.from in s.fs.data && phase.hashed == [] && Folder(s.flows[id].dest.folder) in s.fs.names
    requires !HasTemp(s.flows[id].phase)
    ensures Keeps(s, Move(s, id, Create(s.fs, n), phase))
  {
    var t := Move(s, id, Create(s.fs, n), phase);
    StagedFollows(s, t, n);
    CreateKeepsLibrary(s, n);
    assert LibraryOk(t);
    forall other | other in t.flows ensures FlowOk(t.fs, other, t.flows[other]) {
      if other == id {
        CreatedIsOwn(s.fs, id, s.flows[id], n, phase);
      } else {
        CreateSpares(s.fs, n, other, s.flows[other]);
      }
    }
    CreatedIsApart(s, id, n, phase);
  }

  lemma CreatedIsApart(s: State, id: TransferId, n: Name, phase: Phase)
    requires FilesOk(s.fs) && FlowsOk(s) && AllApart(s) && id in s.flows && Writes(phase) && Target(phase) == s.fs.next
    requires HasTemp(phase) ==> TempOf(phase) == s.fs.next
    ensures AllApart(Move(s, id, Create(s.fs, n), phase))
  {
    var t := Move(s, id, Create(s.fs, n), phase);
    forall a, b | a in t.flows && b in t.flows && a != b ensures Apart(t.flows[a], t.flows[b]) {
      assert Apart(s.flows[a], s.flows[b]);
      if a == id {
        NewTargetsAreApart(s.fs, t.flows[a], b, s.flows[b]);
      } else if b == id {
        NewTargetsAreApart(s.fs, t.flows[b], a, s.flows[a]);
      }
    }
  }

  lemma StartCopyKeeps(s: State, id: TransferId)
    requires Inv(s)
    ensures Keeps(s, NextStartCopy(s, id))
  {
    if NextStartCopy(s, id) != s {
      Created(s, id, Temp(s.fs.next), Copying(s.fs.next, s.fs.next, s.fs.names[Part(id)], 0, []));
    }
  }

  /** The phase after writing `bytes`: a copy has also hashed them. */
  predicate Wrote(phase: Phase, phase': Phase, bytes: Bytes) {
    || (phase.Writing? && phase' == phase)
    || (phase.Copying? && phase'.Copying? && phase' == phase.(offset := phase'.offset, hashed := phase.hashed + bytes))
  }

  /** A flow writes the file that only it has under a name. */
  lemma WriteKeeps(s: State, id: TransferId, bytes: Bytes, phase: Phase)
    requires Inv(s) && id in s.flows && Wrote(s.flows[id].phase, phase, bytes)
    ensures Keeps(s, Move(s, id, Write(s.fs, Target(phase), bytes), phase))
  {
    var t := Move(s, id, Write(s.fs, Target(phase), bytes), phase);
    StagedFollows(s, t, Temp(0));
    forall other | other in t.flows ensures FlowOk(t.fs, other, t.flows[other]) {
      if other != id {
        assert Apart(s.flows[id], s.flows[other]);
        WriteSpares(s.fs, Target(phase), OwnName(id, phase), bytes, other, s.flows[other]);
      }
    }
    WroteIsApart(s, id, bytes, phase);
    WriteKeepsLibrary(s, Target(phase), OwnName(id, phase), bytes);
  }

  lemma WroteIsApart(s: State, id: TransferId, bytes: Bytes, phase: Phase)
    requires AllApart(s) && id in s.flows && Wrote(s.flows[id].phase, phase, bytes)
    ensures AllApart(Move(s, id, Write(s.fs, Target(phase), bytes), phase))
  {
    var t := Move(s, id, Write(s.fs, Target(phase), bytes), phase);
    forall a, b | a in t.flows && b in t.flows && a != b ensures Apart(t.flows[a], t.flows[b]) {
      assert Apart(s.flows[a], s.flows[b]);
    }
  }

  lemma WriteSomeKeeps(s: State, id: TransferId, bytes: Bytes)
    requires Inv(s)
    ensures Keeps(s, NextWrite(s, id, bytes))
  {
    if id in s.flows && s.flows[id].phase.Writing? {
      WriteKeeps(s, id, bytes, s.flows[id].phase);
      assert s.flows[id := s.flows[id]] == s.flows;
    }
  }

  lemma WriteKeepsLibrary(s: State, ino: Ino, own: Name, bytes: Bytes)
    requires FilesOk(s.fs) && LibraryOk(s) && OnlyName(s.fs, ino, own) && !own.Library?
    ensures LibraryOk(s.(fs := Write(s.fs, ino, bytes))) && LibraryKept(s.fs, Write(s.fs, ino, bytes))
    ensures FilesOk(Write(s.fs, ino, bytes))
  {
  }

  lemma FlushKeepsLibrary(s: State, ino: Ino)
    requires FilesOk(s.fs) && LibraryOk(s)
    ensures var fs := Flush(s.fs, ino); LibraryOk(s.(fs := fs)) && LibraryKept(s.fs, fs) && FilesOk(fs)
  {
  }

  /** A file flushed. */
  lemma FlushKeeps(s: State, ino: Ino)
    requires Inv(s)
    ensures Keeps(s, s.(fs := Flush(s.fs, ino)))
  {
    StagedFollows(s, s.(fs := Flush(s.fs, ino)), Temp(0));
    FlushKeepsLibrary(s, ino);
    forall id | id in s.flows ensures FlowOk(Flush(s.fs, ino), id, s.flows[id]) {
      FlushSpares(s.fs, ino, id, s.flows[id]);
    }
  }

  lemma FlushSpares(fs: Fs, ino: Ino, id: TransferId, f: Flow)
    requires FlowOk(fs, id, f)
    ensures FlowOk(Flush(fs, ino), id, f)
  {
  }

  lemma FlushStagedKeeps(s: State, id: TransferId)
    requires Inv(s)
    ensures Keeps(s, NextFlush(s, id))
  {
    if id in s.flows && s.flows[id].phase.Writing? {
      var t := s.(fs := Flush(s.fs, s.flows[id].phase.ino));
      FlushKeeps(s, s.flows[id].phase.ino);
      MoveKeeps(t, id, Written);
    }
  }

  lemma VerifyKeeps(s: State, id: TransferId, readable: bool, removes: bool)
    requires Inv(s)
    ensures Keeps(s, NextVerify(s, id, readable, removes))
  {
    if id in s.flows && s.flows[id].phase.Written? {
      if readable && s.fs.Holds(Part(id)) && s.flows[id].expected(s.fs.Content(Part(id))) {
        MoveKeeps(s, id, Verified);
      } else {
        EndKeeps(s, id);
        EndRemoving(s, id, Part(id));
      }
    }
  }

  lemma FolderSpares(fs: Fs, d: nat, id: TransferId, f: Flow)
    requires FilesOk(fs) && FlowOk(fs, id, f) && Folder(d) !in fs.names
    ensures FlowOk(Create(fs, Folder(d)), id, f)
  {
  }

  lemma FolderKeepsLibrary(s: State, d: nat)
    requires FilesOk(s.fs) && LibraryOk(s) && Folder(d) !in s.fs.names
    ensures var fs := Create(s.fs, Folder(d));
            LibraryOk(s.(fs := fs)) && LibraryKept(s.fs, fs) && FilesOk(fs)
  {
  }

  /** A folder is made, if it is not there. */
  lemma WithFolderKeeps(s: State, path: Path)
    requires Inv(s)
    ensures Keeps(s, s.(fs := WithFolder(s.fs, path)))
  {
    if Folder(path.folder) !in s.fs.names {
      StagedFollows(s, s.(fs := Create(s.fs, Folder(path.folder))), Folder(path.folder));
      forall id | id in s.flows ensures FlowOk(Create(s.fs, Folder(path.folder)), id, s.flows[id]) {
        FolderSpares(s.fs, path.folder, id, s.flows[id]);
      }
      FolderKeepsLibrary(s, path.folder);
    }
  }

  lemma RecheckKeeps(s: State, id: TransferId, makes: bool)
    requires Inv(s)
    ensures Keeps(s, NextRecheck(s, id, makes))
  {
    if id in s.flows && s.flows[id].phase.Verified? {
      var t := s.(fs := WithFolder(s.fs, s.flows[id].dest));
      WithFolderKeeps(s, s.flows[id].dest);
      EndKeeps(s, id);
      EndKeeps(t, id);
      if Library(s.flows[id].dest) !in s.fs.names {
        MoveKeeps(t, id, Clear);
      }
    }
  }

  lemma CopyKeeps(s: State, id: TransferId, count: nat)
    requires Inv(s)
    ensures Keeps(s, NextCopy(s, id, count, None))
  {
    if id in s.flows && s.flows[id].phase.Copying? && s.flows[id].phase.from in s.fs.data {
      var c := s.flows[id].phase;
      var chunk := Chunk(s.fs.data[c.from], c.offset, count);
      WriteKeeps(s, id, chunk, Progress(c, chunk));
    }
  }

  lemma FinishCopyKeeps(s: State, id: TransferId, removes: bool)
    requires Inv(s)
    ensures Keeps(s, NextFinishCopy(s, id, removes))
  {
    if NextFinishCopy(s, id, removes) != s {
      var c := s.flows[id].phase;
      var t := s.(fs := Flush(s.fs, c.to));
      FlushKeeps(s, c.to);
      if s.flows[id].expected(c.hashed) {
        MoveKeeps(t, id, Copied(c.tmp));
      } else {
        EndKeeps(t, id);
        EndRemoving(t, id, Temp(c.tmp));
      }
    }
  }

  lemma TidyKeeps(s: State, id: TransferId, removes: bool)
    requires Inv(s)
    ensures Keeps(s, NextTidy(s, id, removes))
  {
    if id in s.flows && s.flows[id].phase.Closing? {
      EndKeeps(s, id);
      EndRemoving(s, id, s.flows[id].phase.leftover);
    }
  }

  lemma GiveUpKeeps(s: State, id: TransferId, removes: bool)
    requires Inv(s)
    ensures Keeps(s, NextGiveUp(s, id, removes))
  {
    if id in s.flows {
      EndKeeps(s, id);
      if HasTemp(s.flows[id].phase) {
        EndRemoving(s, id, Temp(TempOf(s.flows[id].phase)));
      }
    }
  }

  lemma LinkKeepsLibrary(s: State, source: Name, p: Path, expected: Promise)
    requires FilesOk(s.fs) && LibraryOk(s) && Linkable(s.fs, source, Library(p)) && s.fs.Holds(source)
    requires Folder(p.folder) in s.fs.names
    requires s.fs.names[source] in s.fs.flushed && expected(s.fs.Content(source))
    ensures var t := s.(fs := Link(s.fs, source, Library(p)), published := s.published[p := expected]);
            LibraryOk(t) && LibraryKept(s.fs, t.fs) && FilesOk(t.fs)
  {
  }

  /** The payload becomes visible: whole, flushed, under a name nothing had, and nobody is writing it. */
  lemma LinkKeeps(s: State, id: TransferId, source: Name)
    requires Inv(s) && id in s.flows && Linkable(s.fs, source, Library(s.flows[id].dest)) && s.fs.Holds(source)
    requires Folder(s.flows[id].dest.folder) in s.fs.names
    requires (source == Part(id) || source.Temp?) && !s.flows[id].phase.Begun?
    requires s.fs.names[source] in s.fs.flushed && s.flows[id].expected(s.fs.Content(source))
    requires forall o :: o in s.flows && Writes(s.flows[o].phase) ==> OwnName(o, s.flows[o].phase) != source
    ensures var p := s.flows[id].dest;
            Keeps(s, s.(fs := Link(s.fs, source, Library(p)), published := s.published[p := s.flows[id].expected]))
  {
    var p := s.flows[id].dest;
    forall o: TransferId | o !in s.known ensures Loose(Link(s.fs, source, Library(p)), o) {
      LinkStaysLoose(s.fs, source, p, o);
    }
    forall o | o in s.flows ensures FlowOk(Link(s.fs, source, Library(p)), o, s.flows[o]) {
      LinkSpares(s.fs, source, p, o, s.flows[o]);
    }
    LinkKeepsLibrary(s, source, p, s.flows[id].expected);
  }

  lemma PutKeeps(s: State, id: TransferId)
    requires Inv(s)
    ensures Keeps(s, NextPut(s, id))
  {
    if id in s.flows && (s.flows[id].phase.Copied? || (s.flows[id].phase.Clear? && s.flows[id].sameFilesystem)) {
      var f := s.flows[id];
      var source := if f.phase.Copied? then Temp(f.phase.tmp) else Part(id);
      if Linkable(s.fs, source, Library(f.dest)) {
        forall o | o in s.flows && Writes(s.flows[o].phase) ensures OwnName(o, s.flows[o].phase) != source {
          if o != id { assert Apart(f, s.flows[o]); }
        }
        LinkKeeps(s, id, source);
        var t := s.(fs := Link(s.fs, source, Library(f.dest)), published := s.published[f.dest := f.expected]);
        MoveKeeps(t, id, Linked(source));
      } else if f.phase.Copied? {
        MoveKeeps(s, id, Closing(source));
      } else {
        EndKeeps(s, id);
      }
    }
  }

  lemma PlaceSpares(fs: Fs, p: Path, bytes: Bytes, id: TransferId, f: Flow)
    requires FilesOk(fs) && FlowOk(fs, id, f) && Library(p) !in fs.names
    ensures FlowOk(Place(fs, Library(p), bytes), id, f)
  {
  }

  lemma OutsiderKeeps(s: State, path: Path, bytes: Bytes)
    requires Inv(s)
    ensures Keeps(s, NextOutsider(s, path, bytes))
  {
    if Library(path) !in s.fs.names {
      WithFolderKeeps(s, path);
      var t := s.(fs := WithFolder(s.fs, path));
      forall id | id in t.flows ensures FlowOk(Place(t.fs, Library(path), bytes), id, t.flows[id]) {
        PlaceSpares(t.fs, path, bytes, id, t.flows[id]);
      }
      OutsiderKeepsLibrary(t, path, bytes);
      StagedFollows(t, NextOutsider(t, path, bytes), Library(path));
      assert WithFolder(t.fs, path) == t.fs;
      assert NextOutsider(s, path, bytes) == NextOutsider(t, path, bytes);
      LibraryKeptThrough(s.fs, t.fs, NextOutsider(t, path, bytes).fs);
    }
  }

  lemma OutsiderKeepsLibrary(s: State, path: Path, bytes: Bytes)
    requires FilesOk(s.fs) && LibraryOk(s) && Library(path) !in s.fs.names && Folder(path.folder) in s.fs.names
    ensures var t := NextOutsider(s, path, bytes); LibraryOk(t) && LibraryKept(s.fs, t.fs) && FilesOk(t.fs)
  {
    assert WithFolder(s.fs, path) == s.fs;
    PlaceKeepsLibrary(s.fs, path, bytes);
    var t := NextOutsider(s, path, bytes);
    forall p | p in t.published ensures t.fs.Holds(Library(p)) && t.published[p](t.fs.Content(Library(p))) {
      assert s.fs.Holds(Library(p));
    }
  }

  lemma PlaceKeepsLibrary(fs: Fs, path: Path, bytes: Bytes)
    requires FilesOk(fs) && Library(path) !in fs.names && Folder(path.folder) in fs.names
    ensures LibraryKept(fs, Place(fs, Library(path), bytes)) && FilesOk(Place(fs, Library(path), bytes))
  {
  }

  lemma LibraryKeptThrough(a: Fs, b: Fs, c: Fs)
    requires LibraryKept(a, b) && LibraryKept(b, c) && forall p: Path :: Library(p) in a.names ==> Library(p) in b.names
    ensures LibraryKept(a, c)
  {
  }

  lemma SettleKeepsLibrary(s: State, n: Name)
    requires FilesOk(s.fs) && LibraryOk(s)
    ensures var fs := FlushEntry(s.fs, n); LibraryOk(s.(fs := fs)) && LibraryKept(s.fs, fs) && FilesOk(fs)
  {
  }

  /** A directory entry reaches the disk. */
  lemma SettleKeeps(s: State, n: Name)
    requires Inv(s)
    ensures Keeps(s, s.(fs := FlushEntry(s.fs, n)))
  {
    StagedFollows(s, s.(fs := FlushEntry(s.fs, n)), Temp(0));
    SettleKeepsLibrary(s, n);
    forall id | id in s.flows ensures FlowOk(FlushEntry(s.fs, n), id, s.flows[id]) {
      EntrySpares(s.fs, n, id, s.flows[id]);
    }
  }

  lemma EntrySpares(fs: Fs, n: Name, id: TransferId, f: Flow)
    requires FlowOk(fs, id, f)
    ensures FlowOk(FlushEntry(fs, n), id, f)
  {
  }

  lemma FlushLibraryKeeps(s: State, id: TransferId, opens: bool, honoured: bool, removes: bool)
    requires Inv(s)
    ensures Keeps(s, NextFlushLibrary(s, id, opens, honoured, removes))
  {
    if id in s.flows && s.flows[id].phase.Linked? {
      var leftover := s.flows[id].phase.leftover;
      if !opens {
        EndKeeps(s, id);
        if leftover.Temp? {
          EndRemoving(s, id, leftover);
        }
      } else {
        var entry := Library(s.flows[id].dest);
        SettleKeeps(s, entry);
        MoveKeeps(if honoured then s.(fs := FlushEntry(s.fs, entry)) else s, id, Closing(leftover));
      }
    }
  }

  /** A transfer this power cut makes the journal forget has left no staged name of a file in the library. */
  ghost predicate Recalls(s: State, lost: set<Name>, forgets: set<TransferId>) {
    forall id: TransferId :: id in forgets && id in s.known && id !in s.recorded ==> Loose(Cut(s.fs, map[], lost), id)
  }

  lemma PowerCutKeepsLibrary(s: State, damage: map<Ino, Bytes>, lost: set<Name>, forgets: set<TransferId>)
    requires FilesOk(s.fs) && LibraryOk(s)
    ensures var t := NextPowerCut(s, damage, lost, forgets); LibraryOk(t) && LibraryKept(s.fs, t.fs)
  {
    var t := NextPowerCut(s, damage, lost, forgets);
    forall p: Path | Library(p) in t.fs.names
      ensures Library(p) in s.fs.names && t.fs.names[Library(p)] == s.fs.names[Library(p)] && t.fs.Holds(Library(p))
              && t.fs.Content(Library(p)) == s.fs.Content(Library(p))
    {
    }
  }

  lemma PowerCutKeepsFiles(fs: Fs, damage: map<Ino, Bytes>, lost: set<Name>)
    requires FilesOk(fs)
    ensures FilesOk(Cut(fs, damage, lost)) && Cut(fs, damage, lost).kept == Cut(fs, damage, lost).names
  {
  }

  lemma StillLoose(fs: Fs, damage: map<Ino, Bytes>, lost: set<Name>, id: TransferId)
    ensures Loose(Cut(fs, damage, lost), id) <==> Loose(Cut(fs, map[], lost), id)
    ensures Loose(fs, id) ==> Loose(Cut(fs, damage, lost), id)
  {
  }

  /** A power cut keeps the invariant exactly if the journal does. */
  lemma PowerCutKeeps(s: State, damage: map<Ino, Bytes>, lost: set<Name>, forgets: set<TransferId>)
    requires Inv(s)
    ensures Inv(NextPowerCut(s, damage, lost, forgets)) <==> Recalls(s, lost, forgets)
    ensures LibraryKept(s.fs, NextPowerCut(s, damage, lost, forgets).fs)
  {
    PowerCutKeepsFiles(s.fs, damage, lost);
    PowerCutKeepsLibrary(s, damage, lost, forgets);
    var t := NextPowerCut(s, damage, lost, forgets);
    forall id: TransferId ensures Loose(t.fs, id) <==> Loose(Cut(s.fs, map[], lost), id) {
      StillLoose(s.fs, damage, lost, id);
    }
    forall id: TransferId | id !in s.known ensures Loose(t.fs, id) {
      StillLoose(s.fs, damage, lost, id);
    }
  }

  /** What is asked of a step: the disk stores what it is given, and no power cut makes the journal forget. */
  ghost predicate Proper(s: State, step: Step) {
    match step
    case CopySome(_, _, instead) => instead.None?
    case PowerCut(_, lost, forgets) => Recalls(s, lost, forgets)
    case _ => true
  }

  ghost predicate ProperRun(s: State, steps: seq<Step>)
    decreases |steps|
  {
    steps == [] || (Proper(s, steps[0]) && ProperRun(Next(s, steps[0]), steps[1..]))
  }

  lemma InvNext(s: State, step: Step)
    requires Inv(s) && Proper(s, step)
    ensures Keeps(s, Next(s, step))
  {
    match step
    case Begin(id, dest, expected, same, proceeds, flushed) => BeginKeeps(s, id, dest, expected, same, proceeds, flushed);
    case Open(id) => OpenKeeps(s, id);
    case WriteSome(id, bytes) => WriteSomeKeeps(s, id, bytes);
    case FlushStaged(id) => FlushStagedKeeps(s, id);
    case VerifyStaged(id, readable, removes) => VerifyKeeps(s, id, readable, removes);
    case Recheck(id, makes) => RecheckKeeps(s, id, makes);
    case StartCopy(id) => StartCopyKeeps(s, id);
    case CopySome(id, count, _) => CopyKeeps(s, id, count);
    case FinishCopy(id, removes) => FinishCopyKeeps(s, id, removes);
    case PutInPlace(id) => PutKeeps(s, id);
    case FlushLibrary(id, opens, honoured, removes) => FlushLibraryKeeps(s, id, opens, honoured, removes);
    case Tidy(id, removes) => TidyKeeps(s, id, removes);
    case GiveUp(id, removes) => GiveUpKeeps(s, id, removes);
    case Cleanup(id) => RemoveKeeps(s, Part(id));
    case Outsider(path, bytes) => OutsiderKeeps(s, path, bytes);
    case Settle(name) => SettleKeeps(s, name);
    case SettleJournal(_) =>
    case PowerCut(damage, lost, forgets) => PowerCutKeeps(s, damage, lost, forgets);
  }

  lemma {:induction false} InvRun(s: State, steps: seq<Step>)
    requires Inv(s) && ProperRun(s, steps)
    ensures Inv(Run(s, steps)) && Lasting(s.fs, Run(s, steps).fs)
    decreases |steps|
  {
    if steps != [] {
      var t := Next(s, steps[0]);
      InvNext(s, steps[0]);
      InvRun(t, steps[1..]);
      LastingIsTransitive(s.fs, t.fs, Run(t, steps[1..]).fs);
    }
  }

  lemma LastingIsTransitive(a: Fs, b: Fs, c: Fs)
    requires Lasting(a, b) && Lasting(b, c)
    ensures Lasting(a, c)
  {
  }

  /** If no flow starts on an entry the disk does not hold, and disks store what they are given, every run is proper. */
  lemma {:induction false} HonouredRunsAreProper(s: State, steps: seq<Step>)
    requires Remembered(s)
    requires forall k :: 0 <= k < |steps| ==> Honoured(steps[k])
    ensures ProperRun(s, steps)
    decreases |steps|
  {
    if steps != [] {
      assert Honoured(steps[0]);
      assert forall k :: 0 <= k < |steps[1..]| ==> steps[1..][k] == steps[k + 1];
      RememberedNext(s, steps[0]);
      HonouredRunsAreProper(Next(s, steps[0]), steps[1..]);
    }
  }

  lemma RememberedNext(s: State, step: Step)
    requires Remembered(s) && Honoured(step)
    ensures Remembered(Next(s, step)) && Proper(s, step)
  {
    if step.PowerCut? {
      RememberedAfterCut(s, step.damage, step.lost, step.forgets);
    } else if step.Begin? || step.SettleJournal? || step.Settle? || step.Outsider? {
      RememberedAfterEntry(s, step);
    }
  }

  lemma RememberedAfterEntry(s: State, step: Step)
    requires Remembered(s) && Honoured(step) && (step.Begin? || step.SettleJournal? || step.Settle? || step.Outsider?)
    ensures Remembered(Next(s, step))
  {
  }

  lemma RememberedAfterCut(s: State, damage: map<Ino, Bytes>, lost: set<Name>, forgets: set<TransferId>)
    requires Remembered(s)
    ensures Remembered(NextPowerCut(s, damage, lost, forgets)) && Recalls(s, lost, forgets)
  {
  }

  predicate Honoured(step: Step) {
    match step
    case Begin(_, _, _, _, proceeds, flushed) => proceeds ==> flushed
    case CopySome(_, _, instead) => instead.None?
    case _ => true
  }

  // ---- What the library shows ----

  lemma InitIsInv(s: State)
    requires Init(s)
    ensures Inv(s) && Remembered(s)
  {
  }

  /**
   In every proper run from any library with nothing staged, whatever is in the library at any moment is what
   an outsider left there, byte for byte, or the whole payload its publication promised; and whatever the
   disk holds of the library at one moment is there unchanged ever after.
   */
  lemma LibraryShowsOnlyWholeFiles(s: State, before: seq<Step>, after: seq<Step>, p: Path)
    requires Init(s) && ProperRun(s, before + after)
    ensures var t, u := Run(s, before), Run(s, before + after);
            && (Library(p) in t.fs.names ==>
                  && t.fs.Holds(Library(p))
                  && (|| (p in t.foreign && t.fs.Content(Library(p)) == t.foreign[p])
                      || (p in t.published && t.published[p](t.fs.Content(Library(p))))))
            && (Durable(t.fs, p) ==>
                  && t.fs.Holds(Library(p)) && u.fs.Holds(Library(p))
                  && u.fs.Content(Library(p)) == t.fs.Content(Library(p)))
  {
    ProperSplit(s, before, after);
    InvRun(s, before);
    var t := Run(s, before);
    InvRun(t, after);
    RunSplit(s, before, after);
    LibraryIsWhole(t, p);
    assert Lasting(t.fs, Run(t, after).fs);
  }

  lemma LibraryIsWhole(t: State, p: Path)
    requires Inv(t)
    ensures Library(p) in t.fs.names ==>
              && t.fs.Holds(Library(p))
              && (|| (p in t.foreign && t.fs.Content(Library(p)) == t.foreign[p])
                  || (p in t.published && t.published[p](t.fs.Content(Library(p)))))
    ensures Library(p) in t.fs.kept ==> t.fs.Holds(Library(p))
  {
  }

  lemma {:induction false} ProperSplit(s: State, xs: seq<Step>, ys: seq<Step>)
    requires ProperRun(s, xs + ys)
    ensures ProperRun(s, xs) && ProperRun(Run(s, xs), ys)
    decreases |xs|
  {
    if xs == [] {
      assert xs + ys == ys;
    } else {
      assert (xs + ys)[1..] == xs[1..] + ys;
      ProperSplit(Next(s, xs[0]), xs[1..], ys);
    }
  }

  ghost predicate Promises(f: Flow, p: Path, promise: Promise) { f.dest == p && f.expected == promise }

  ghost predicate Asks(step: Step, p: Path, promise: Promise) { step.Begin? && step.dest == p && step.expected == promise }

  /** A publication already made, one under way, or one a transfer in this run asks for. */
  ghost predicate Promised(s: State, steps: seq<Step>, p: Path, promise: Promise) {
    || (p in s.published && s.published[p] == promise)
    || (exists id :: id in s.flows && Promises(s.flows[id], p, promise))
    || (exists k :: 0 <= k < |steps| && Asks(steps[k], p, promise))
  }

  lemma PromisedNext(s: State, step: Step, p: Path, promise: Promise)
    requires Promised(Next(s, step), [], p, promise)
    ensures Promised(s, [step], p, promise)
  {
    var t := Next(s, step);
    if !(p in s.published && s.published[p] == promise) {
      if p in t.published && t.published[p] == promise {
        assert step.PutInPlace? && Promises(s.flows[step.id], p, promise);
      } else {
        var id :| id in t.flows && Promises(t.flows[id], p, promise);
        FlowsKeepTheirPromise(s, step, id);
        if !(id in s.flows && Promises(s.flows[id], p, promise)) {
          assert Asks([step][0], p, promise);
        }
      }
    }
  }

  /** A flow's destination and expected payload are those it began with. */
  lemma FlowsKeepTheirPromise(s: State, step: Step, id: TransferId)
    requires id in Next(s, step).flows
    ensures var f := Next(s, step).flows[id];
            (id in s.flows && Promises(s.flows[id], f.dest, f.expected)) || Asks(step, f.dest, f.expected)
  {
  }

  /** Every publication delivers exactly what some transfer of the run expected at that path. */
  lemma {:induction false} PublicationsWereAskedFor(s: State, steps: seq<Step>, p: Path)
    requires p in Run(s, steps).published
    ensures Promised(s, steps, p, Run(s, steps).published[p])
    decreases |steps|
  {
    if steps != [] {
      var t, promise := Next(s, steps[0]), Run(s, steps).published[p];
      PublicationsWereAskedFor(t, steps[1..], p);
      if exists k :: 0 <= k < |steps[1..]| && Asks(steps[1..][k], p, promise) {
        var k :| 0 <= k < |steps[1..]| && Asks(steps[1..][k], p, promise);
        assert Asks(steps[k + 1], p, promise);
      } else {
        PromisedNext(s, steps[0], p, promise);
        if exists k :: 0 <= k < 1 && Asks([steps[0]][k], p, promise) {
          assert Asks(steps[0], p, promise);
        }
      }
    }
  }

  // ---- An undisturbed transfer ----

  function Receiving(id: TransferId, f: Flow, payload: Bytes, flushed: bool): seq<Step> {
    [Begin(id, f.dest, f.expected, f.sameFilesystem, true, flushed), Open(id), WriteSome(id, payload), FlushStaged(id)]
  }

  function Duplicating(id: TransferId, count: nat, instead: Option<Bytes>): seq<Step> {
    [StartCopy(id), CopySome(id, count, instead), FinishCopy(id, true)]
  }

  function Ends(id: TransferId, removes: bool): seq<Step> {
    [PutInPlace(id), FlushLibrary(id, true, true, true), Tidy(id, removes)]
  }

  function Publishing(id: TransferId, size: nat, instead: Option<Bytes>, same: bool, removes: bool): seq<Step> {
    [VerifyStaged(id, true, true), Recheck(id, true)] + (if same then [] else Duplicating(id, size, instead)) + Ends(id, removes)
  }

  /** The payload lies whole and flushed under the staged name, and the path is free. */
  ghost predicate Arrived(s: State, id: TransferId, f: Flow, payload: Bytes) {
    && FilesOk(s.fs) && id in s.flows && s.flows[id] == f && f.expected(payload)
    && s.fs.Holds(Part(id)) && s.fs.Content(Part(id)) == payload && s.fs.names[Part(id)] in s.fs.flushed
    && Library(f.dest) !in s.fs.names
  }

  lemma Arrives(s: State, id: TransferId, f: Flow, payload: Bytes, flushed: bool)
    requires Inv(s) && id !in s.known && Library(f.dest) !in s.fs.names && f.expected(payload) && f.phase.Written?
    ensures var t := Run(s, Receiving(id, f, payload, flushed));
            && Arrived(t, id, f, payload)
            && t.fs.kept == s.fs.kept
            && t.known == s.known + {id} && t.recorded == if flushed then s.recorded + {id} else s.recorded
  {
    var begin := Begin(id, f.dest, f.expected, f.sameFilesystem, true, flushed);
    RunFour(s, begin, Open(id), WriteSome(id, payload), FlushStaged(id));
    Stages(Next(s, begin), id, payload);
    assert Next(s, begin).fs == s.fs;
  }

  lemma Stages(s: State, id: TransferId, payload: Bytes)
    requires FilesOk(s.fs) && id in s.flows && s.flows[id].phase.Begun?
    requires Library(s.flows[id].dest) !in s.fs.names && s.flows[id].expected(payload)
    ensures var t := NextFlush(NextWrite(NextOpen(s, id), id, payload), id);
            && Arrived(t, id, s.flows[id].(phase := Phase.Written), payload)
            && t.fs.kept == s.fs.kept && t.known == s.known && t.recorded == s.recorded
  {
    var fs := OpenTruncated(s.fs, Part(id));
    var ino := fs.names[Part(id)];
    var t := Move(s, id, fs, Writing(ino));
    assert NextOpen(s, id) == t;
    assert NextWrite(t, id, payload) == t.(fs := Write(fs, ino, payload));
    StagesFile(s.fs, id, payload);
  }

  lemma StagesFile(fs: Fs, id: TransferId, payload: Bytes)
    requires FilesOk(fs)
    ensures var o := OpenTruncated(fs, Part(id));
            var t := Flush(Write(o, o.names[Part(id)], payload), o.names[Part(id)]);
            && FilesOk(t) && t.Holds(Part(id)) && t.Content(Part(id)) == payload && t.names[Part(id)] in t.flushed
            && t.kept == fs.kept && forall p: Path :: Library(p) in t.names <==> Library(p) in fs.names
  {
    var o := OpenTruncated(fs, Part(id));
    assert o.data[o.names[Part(id)]] == [] && [] + payload == payload;
  }

  lemma FolderMade(s: State, id: TransferId, f: Flow, payload: Bytes)
    requires Arrived(s, id, f, payload)
    ensures Arrived(Move(s, id, WithFolder(s.fs, f.dest), Clear), id, f.(phase := Clear), payload)
  {
  }

  /** The staged bytes agree, the folder is there and the path is still free. */
  lemma Cleared(s: State, id: TransferId, f: Flow, payload: Bytes)
    requires Arrived(s, id, f, payload) && f.phase.Written?
    ensures Run(s, [VerifyStaged(id, true, true), Recheck(id, true)]) == Move(s, id, WithFolder(s.fs, f.dest), Clear)
    ensures Arrived(Move(s, id, WithFolder(s.fs, f.dest), Clear), id, f.(phase := Clear), payload)
  {
    RunTwo(s, VerifyStaged(id, true, true), Recheck(id, true));
    var t := Move(s, id, s.fs, Verified);
    assert NextVerify(s, id, true, true) == t;
    assert Move(t, id, WithFolder(s.fs, f.dest), Clear) == Move(s, id, WithFolder(s.fs, f.dest), Clear);
    FolderMade(s, id, f, payload);
  }

  /** What `source` names is in the library, safely on the disk. */
  ghost predicate Landed(s: State, t: State, id: TransferId, source: Name, dest: Path, removes: bool) {
    && s.fs.Holds(source) && t.fs.Holds(Library(dest)) && t.fs.names[Library(dest)] == s.fs.names[source]
    && t.fs.Content(Library(dest)) == s.fs.Content(source) && t.fs.kept == s.fs.kept[Library(dest) := s.fs.names[source]]
    && t.fs.flushed == s.fs.flushed
    && id !in t.flows && t.known == s.known && t.recorded == s.recorded && (source in t.fs.names <==> !removes)
    && (forall n :: n != source && n != Library(dest) ==> (n in t.fs.names <==> n in s.fs.names))
  }

  lemma LandsFiles(fs: Fs, source: Name, dest: Path, removes: bool)
    requires fs.Holds(source) && Library(dest) !in fs.names
    ensures var linked := FlushEntry(Link(fs, source, Library(dest)), Library(dest));
            var t := if removes then Remove(linked, source) else linked;
            && t.Holds(Library(dest)) && t.names[Library(dest)] == fs.names[source]
            && t.data == fs.data && t.flushed == fs.flushed && t.kept == fs.kept[Library(dest) := fs.names[source]]
            && (source in t.names <==> !removes)
            && (forall n :: n != source && n != Library(dest) ==> (n in t.names <==> n in fs.names))
  {
  }

  lemma Lands(s: State, id: TransferId, source: Name, removes: bool)
    requires id in s.flows && s.fs.Holds(source) && Library(s.flows[id].dest) !in s.fs.names
    requires || (s.flows[id].phase.Clear? && s.flows[id].sameFilesystem && source == Part(id))
             || (s.flows[id].phase.Copied? && source == Temp(s.flows[id].phase.tmp))
    ensures var t := Run(s, Ends(id, removes));
            && Landed(s, t, id, source, s.flows[id].dest, removes)
            && s.flows[id].dest in t.published && t.published[s.flows[id].dest] == s.flows[id].expected
  {
    RunThree(s, PutInPlace(id), FlushLibrary(id, true, true, true), Tidy(id, removes));
    var dest := s.flows[id].dest;
    var fs := Link(s.fs, source, Library(dest));
    var t := Move(s, id, fs, Linked(source)).(published := s.published[dest := s.flows[id].expected]);
    assert NextPut(s, id) == t;
    var u := Move(t, id, FlushEntry(fs, Library(dest)), Closing(source));
    assert NextFlushLibrary(t, id, true, true, true) == u;
    LandsFiles(s.fs, source, dest, removes);
  }

  /** What the copy holds is what the disk stored, while what was hashed is what was read. */
  lemma CopyCompletes(s: State, id: TransferId, f: Flow, payload: Bytes, instead: Option<Bytes>)
    requires Arrived(s, id, f, payload) && f.phase.Clear? && !f.sameFilesystem
    ensures var t := Run(s, Duplicating(id, |payload|, instead));
            && id in t.flows && t.flows[id] == f.(phase := Copied(s.fs.next))
            && t.fs.Holds(Temp(s.fs.next)) && t.fs.Content(Temp(s.fs.next)) == Stored(payload, instead)
            && t.fs.names == s.fs.names[Temp(s.fs.next) := s.fs.next] && t.fs.kept == s.fs.kept
  {
    CopyRuns(s, id, f, payload, instead);
    CopiedFile(s.fs, Stored(payload, instead));
  }

  /** The filesystem once a copy is made and flushed. */
  function WithCopy(fs: Fs, stored: Bytes): Fs {
    Flush(Write(Create(fs, Temp(fs.next)), fs.next, stored), fs.next)
  }

  lemma CopiedFile(fs: Fs, stored: Bytes)
    ensures var t := WithCopy(fs, stored);
            && t.Holds(Temp(fs.next)) && t.Content(Temp(fs.next)) == stored
            && t.names == fs.names[Temp(fs.next) := fs.next] && t.kept == fs.kept
  {
    assert [] + stored == stored;
  }

  lemma CopyRuns(s: State, id: TransferId, f: Flow, payload: Bytes, instead: Option<Bytes>)
    requires Arrived(s, id, f, payload) && f.phase.Clear? && !f.sameFilesystem
    ensures Run(s, Duplicating(id, |payload|, instead)) == Move(s, id, WithCopy(s.fs, Stored(payload, instead)), Copied(s.fs.next))
  {
    var from, to := s.fs.names[Part(id)], s.fs.next;
    var stored := Stored(payload, instead);
    var t := Move(s, id, Create(s.fs, Temp(to)), Copying(to, to, from, 0, []));
    var u := Move(s, id, Write(Create(s.fs, Temp(to)), to, stored), Copying(to, to, from, |payload|, payload));
    var v := Move(s, id, WithCopy(s.fs, stored), Copied(to));
    CopyStarts(s, id, t);
    CopyGoesOn(s, id, f, payload, instead, t, u);
    CopyEnds(s, id, f, payload, stored, u, v);
    RunsThrough(s, StartCopy(id), CopySome(id, |payload|, instead), FinishCopy(id, true), t, u, v);
  }

  lemma RunsThrough(s: State, a: Step, b: Step, c: Step, t: State, u: State, v: State)
    requires Next(s, a) == t && Next(t, b) == u && Next(u, c) == v
    ensures Run(s, [a, b, c]) == v
  {
    RunThree(s, a, b, c);
  }

  lemma CopyStarts(s: State, id: TransferId, t: State)
    requires id in s.flows && s.flows[id].phase.Clear? && !s.flows[id].sameFilesystem && Part(id) in s.fs.names
    requires t == Move(s, id, Create(s.fs, Temp(s.fs.next)), Copying(s.fs.next, s.fs.next, s.fs.names[Part(id)], 0, []))
    ensures Next(s, StartCopy(id)) == t
  {
  }

  lemma CopyGoesOn(s: State, id: TransferId, f: Flow, payload: Bytes, instead: Option<Bytes>, t: State, u: State)
    requires Arrived(s, id, f, payload)
    requires var from, to := s.fs.names[Part(id)], s.fs.next;
             && t == Move(s, id, Create(s.fs, Temp(to)), Copying(to, to, from, 0, []))
             && u == Move(s, id, Write(Create(s.fs, Temp(to)), to, Stored(payload, instead)), Copying(to, to, from, |payload|, payload))
    ensures Next(t, CopySome(id, |payload|, instead)) == u
  {
    assert Chunk(payload, 0, |payload|) == payload && [] + payload == payload;
  }

  lemma CopyEnds(s: State, id: TransferId, f: Flow, payload: Bytes, stored: Bytes, u: State, v: State)
    requires Arrived(s, id, f, payload)
    requires var from, to := s.fs.names[Part(id)], s.fs.next;
             && u == Move(s, id, Write(Create(s.fs, Temp(to)), to, stored), Copying(to, to, from, |payload|, payload))
             && v == Move(s, id, WithCopy(s.fs, stored), Copied(to))
    ensures Next(u, FinishCopy(id, true)) == v
  {
    assert u.fs.data[s.fs.names[Part(id)]] == payload;
  }

  /** The file is in the library, and on the disk as far as its folder is. */
  ghost predicate Delivered(s: State, t: State, id: TransferId, f: Flow, content: Bytes) {
    && t.fs.Holds(Library(f.dest)) && t.fs.Content(Library(f.dest)) == content
    && Folder(f.dest.folder) in t.fs.names
    && t.fs.kept == s.fs.kept[Library(f.dest) := t.fs.names[Library(f.dest)]]
    && id !in t.flows && f.dest in t.published && t.published[f.dest] == f.expected
  }

  lemma CopiedOver(s: State, id: TransferId, f: Flow, payload: Bytes, instead: Option<Bytes>, removes: bool)
    requires Arrived(s, id, f, payload) && f.phase.Clear? && !f.sameFilesystem && Folder(f.dest.folder) in s.fs.names
    ensures var t := Run(s, Duplicating(id, |payload|, instead) + Ends(id, removes));
            Delivered(s, t, id, f, Stored(payload, instead)) && Part(id) in t.fs.names
  {
    RunSplit(s, Duplicating(id, |payload|, instead), Ends(id, removes));
    CopyCompletes(s, id, f, payload, instead);
    Lands(Run(s, Duplicating(id, |payload|, instead)), id, Temp(s.fs.next), removes);
  }

  /** On the library's own filesystem the two names share one inode; only removal parts them. */
  lemma LinkedOver(s: State, id: TransferId, f: Flow, payload: Bytes, removes: bool)
    requires Arrived(s, id, f, payload) && f.phase.Written? && f.sameFilesystem
    ensures var t := Run(s, Publishing(id, |payload|, None, true, removes));
            && Delivered(s, t, id, f, payload) && t.fs.names[Library(f.dest)] == s.fs.names[Part(id)]
            && t.known == s.known && t.recorded == s.recorded && (Part(id) in t.fs.names <==> !removes)
  {
    var head := [VerifyStaged(id, true, true), Recheck(id, true)];
    assert Publishing(id, |payload|, None, true, removes) == head + Ends(id, removes);
    RunSplit(s, head, Ends(id, removes));
    Cleared(s, id, f, payload);
    assert WithFolder(s.fs, f.dest).names[Part(id)] == s.fs.names[Part(id)];
    Lands(Run(s, head), id, Part(id), removes);
  }

  /** Across filesystems the library gets a copy of its own. */
  lemma CopiedAcross(s: State, id: TransferId, f: Flow, payload: Bytes, instead: Option<Bytes>, removes: bool)
    requires Arrived(s, id, f, payload) && f.phase.Written? && !f.sameFilesystem
    ensures var t := Run(s, Publishing(id, |payload|, instead, false, removes));
            && Delivered(s, t, id, f, Stored(payload, instead)) && Part(id) in t.fs.names
  {
    var head, rest := [VerifyStaged(id, true, true), Recheck(id, true)], Duplicating(id, |payload|, instead) + Ends(id, removes);
    assert Publishing(id, |payload|, instead, false, removes) == head + rest;
    RunSplit(s, head, rest);
    Cleared(s, id, f, payload);
    CopiedOver(Run(s, head), id, f.(phase := Clear), payload, instead, removes);
  }

  /**
   Undisturbed, a transfer that is new and meets no file at its path is published. With every flush honoured it
   is there for good exactly if the folder's own entry was on the disk before, because nothing flushes that.
   */
  lemma UndisturbedTransferIsPublished(s: State, id: TransferId, f: Flow, payload: Bytes, flushed: bool, removes: bool)
    requires Inv(s) && id !in s.known && Library(f.dest) !in s.fs.names && f.expected(payload) && f.phase.Written?
    ensures var t := Run(s, Receiving(id, f, payload, flushed) + Publishing(id, |payload|, None, f.sameFilesystem, removes));
            && Delivered(s, t, id, f, payload) && (Part(id) in t.fs.names <==> !f.sameFilesystem || !removes)
            && (Durable(t.fs, f.dest) <==> Folder(f.dest.folder) in s.fs.kept)
  {
    RunSplit(s, Receiving(id, f, payload, flushed), Publishing(id, |payload|, None, f.sameFilesystem, removes));
    Arrives(s, id, f, payload, flushed);
    var t := Run(s, Receiving(id, f, payload, flushed));
    if f.sameFilesystem {
      LinkedOver(t, id, f, payload, removes);
    } else {
      CopiedAcross(t, id, f, payload, None, removes);
    }
  }

  /**
   The copy's hash is taken of what was read, never of what the library's filesystem holds. Whatever that
   filesystem stores is published, and the library is as promised exactly if the promise accepts it.
   */
  lemma CopyIsNotReadBack(s: State, id: TransferId, f: Flow, payload: Bytes, stored: Bytes, removes: bool)
    requires Inv(s) && id !in s.known && Library(f.dest) !in s.fs.names
    requires f.expected(payload) && f.phase.Written? && !f.sameFilesystem
    ensures var t := Run(s, Receiving(id, f, payload, true) + Publishing(id, |payload|, Some(stored), false, removes));
            && Delivered(s, t, id, f, stored)
            && (t.published[f.dest](t.fs.Content(Library(f.dest))) <==> f.expected(stored))
  {
    RunSplit(s, Receiving(id, f, payload, true), Publishing(id, |payload|, Some(stored), false, removes));
    Arrives(s, id, f, payload, true);
    CopiedAcross(Run(s, Receiving(id, f, payload, true)), id, f, payload, Some(stored), removes);
  }

  /**
   The input on which it fails: the first file of a new folder. Every flush is honoured, and a power cut that
   undoes the making of the folder takes the published file with it; in a folder on the disk it takes nothing.
   */
  lemma TheFirstFileOfAFolderCanVanish(s: State, id: TransferId, f: Flow, payload: Bytes, removes: bool)
    requires Inv(s) && id !in s.known && Library(f.dest) !in s.fs.names && f.expected(payload) && f.phase.Written?
    ensures var t := Run(s, Receiving(id, f, payload, true) + Publishing(id, |payload|, None, f.sameFilesystem, removes));
            var u := NextPowerCut(t, map[], {Folder(f.dest.folder)}, {});
            && (Folder(f.dest.folder) !in s.fs.kept ==> Library(f.dest) !in u.fs.names && f.dest !in u.published)
            && (Folder(f.dest.folder) in s.fs.kept ==> u.fs.Holds(Library(f.dest)) && u.fs.Content(Library(f.dest)) == payload)
  {
    UndisturbedTransferIsPublished(s, id, f, payload, true, removes);
  }
}
