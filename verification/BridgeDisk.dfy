/**
 The Bridge's half of the rotating credential: the file it is kept in, replaced by the atomic recipe, and the
 refresh that persists before it reports.
 */
module BridgeDisk {
  import opened Wrappers
  import opened Filesystem
  import opened AtomicFiles
  import opened Credentials

  datatype Credential = Credential(bridge: BridgeId, token: Token, generation: nat)

  /** What the file is made of, in the order it is written. */
  datatype Mark = BridgeMark(bridge: BridgeId) | TokenMark(token: Token) | GenerationMark(generation: nat) | EndMark

  function Encode(c: Credential): seq<Mark> {
    [BridgeMark(c.bridge), TokenMark(c.token), GenerationMark(c.generation), EndMark]
  }

  /** Anything but a whole encoding is unreadable, which the source treats as no credential. */
  function Decode(marks: seq<Mark>): Option<Credential> {
    if |marks| == 4 && marks[0].BridgeMark? && marks[1].TokenMark? && marks[2].GenerationMark? && marks[3].EndMark? then
      Some(Credential(marks[0].bridge, marks[1].token, marks[2].generation))
    else None
  }

  /** Reading back what was written gives it back, and a file cut short gives nothing. */
  lemma OnlyWholeFilesAreRead(c: Credential, marks: seq<Mark>)
    ensures Decode(marks) == Some(c) <==> marks == Encode(c)
    ensures marks <= Encode(c) && marks != Encode(c) ==> Decode(marks).None?
  {
    if Decode(marks) == Some(c) {
      assert marks == [marks[0], marks[1], marks[2], marks[3]];
    }
  }

  /** There is one credential file. */
  type Key = nat

  const CREDENTIAL: Key := 0

  type Disk = Files<FileName<Key>, Mark>

  function Parsed(content: Option<seq<Mark>>): Option<Credential> {
    if content.Some? then Decode(content.value) else None
  }

  /** The credential any reader of the file finds, and the one a power cut would leave. */
  function Visible(disk: Disk): Option<Credential> { Parsed(Seen(disk, CREDENTIAL)) }

  function Durable(disk: Disk): Option<Credential> { Parsed(Kept(disk, CREDENTIAL)) }

  /**
   What the flush of the temporary file is for: skip it, and a power cut after the rename can leave a file
   that reads as no credential at all, whatever was saved before and is being saved now.
   */
  lemma SkippingTheFlushLosesTheCredential(s: State<Key, Mark>, c: Credential)
    requires Inv(s) && s.save.Idle?
    ensures Visible(Run(s, Hasty(CREDENTIAL, Encode(c), s.fs.next, []), false).fs).None?
    ensures Visible(Run(s, Hasty(CREDENTIAL, Encode(c), s.fs.next, []), true).fs) == Visible(s.fs)
  {
    WithoutTheFlushAnythingIsFound(s, CREDENTIAL, Encode(c), []);
  }

  class FileStore {
    const store: AtomicStore<Key, Mark>

    constructor ()
      ensures fresh(store) && fresh(store.volume) && Valid() && Visible(View()).None?
    {
      store := new AtomicStore();
    }

    ghost predicate Valid()
      reads store.volume
    {
      store.Valid()
    }

    ghost function View(): Disk
      reads store.volume
    {
      store.volume.View()
    }

    method Load() returns (c: Option<Credential>)
      requires Valid()
      ensures c == Visible(View())
    {
      var content := store.Read(CREDENTIAL);
      c := if content.Some? then Decode(content.value) else None;
    }

    /**
     Write a temporary file, flush it, rename it over the file, flush the directory. Whatever stops it, the
     file reads as the whole old credential or the whole new one, and so does what a power cut would leave.
     */
    method Save(c: Credential, fault: SaveFault, removes: bool) returns (ok: bool)
      requires Valid()
      modifies store.volume
      ensures Valid() && ok == ReportsSuccess(fault)
      ensures View() == Run(State(old(View()), Idle), SaveSteps(CREDENTIAL, Encode(c), fault, removes), true).fs
      ensures Visible(View()) == if Renames(fault) then Some(c) else old(Visible(View()))
      ensures Durable(View()) == if Flushes(fault) then Some(c) else old(Durable(View()))
    {
      OnlyWholeFilesAreRead(c, Encode(c));
      ok := store.Replace(CREDENTIAL, Encode(c), fault, removes);
    }
  }

  /** What the network does with one exchange. */
  datatype Exchange = RequestLost | ReplyLost | Delivered

  /** Result of `Client.Refresh`: the reply, or one of the ways there is none. */
  datatype Refreshed = NoCredential | NoReply | HostRefused(error: AuthError) | NotStored | Refreshed(next: Credential)

  /**
   One refresh: read the file, exchange its token, persist, report. The reply's generation is the
   stored one plus one, because the wire carries none. A credential is reported only once the file
   holds it; after a failed save the file holds the old one or the new one and nothing else.
   */
  method Refresh(file: FileStore, host: Verifier, exchange: Exchange, now: int, minted: Token, saveOk: bool,
                 fault: SaveFault, removes: bool)
    returns (result: Refreshed)
    requires file.Valid()
    modifies file.store.volume, host.store
    ensures file.Valid()
    ensures old(Visible(file.View())).None? ==>
              result == NoCredential && file.View() == old(file.View()) && host.store.families == old(host.store.families)
    ensures old(Visible(file.View())).Some? ==>
      var c := old(Visible(file.View())).value;
      var (families, reply) :=
        Atomic(old(host.store.families), Rotate(c.token), c.bridge, true, now, Grace(host.configuredGrace), minted, saveOk);
      && host.store.families == (if exchange.RequestLost? then old(host.store.families) else families)
      && (if exchange.Delivered? && reply.Granted? then
            var next := Credential(c.bridge, reply.refresh, c.generation + 1);
            && Visible(file.View()) == (if Renames(fault) then Some(next) else Some(c))
            && Durable(file.View()) == (if Flushes(fault) then Some(next) else old(Durable(file.View())))
            && result == (if ReportsSuccess(fault) then Refreshed(next) else NotStored)
          else
            file.View() == old(file.View()) && !result.Refreshed?)
    ensures result.Refreshed? ==> Visible(file.View()) == Some(result.next)
  {
    var current := file.Load();
    if current.None? {
      return NoCredential;
    }
    if exchange.RequestLost? {
      return NoReply;
    }
    var reply := host.Rotate(current.value.bridge, current.value.token, now, minted, true, saveOk);
    if exchange.ReplyLost? {
      return NoReply;
    }
    match reply {
      case Granted(_, refresh, _) =>
        var next := Credential(current.value.bridge, refresh, current.value.generation + 1);
        var ok := file.Save(next, fault, removes);
        result := if ok then Refreshed(next) else NotStored;
      case Refused(error) => result := HostRefused(error);
      case _ => result := NoReply;
    }
  }
}
