/**
 The rotation protocol over the real file: the Bridge's save runs step by step on a filesystem, and a crash or
 a power cut can come between any two of its steps. Every such run is a run of the protocol in `Recovery`,
 and the file always reads as the whole credential that run says it holds.
 */
module Crashes {
  import opened Wrappers
  import opened Filesystem
  import opened Credentials
  import opened BridgeDisk
  import A = AtomicFiles
  import R = Recovery

  /** The protocol's own account of the run, and the files beside it. */
  datatype State = State(protocol: R.State, disk: A.State<Key, Mark>)

  datatype Step = Wire(message: R.Step) | OnDisk(move: A.Step<Key, Mark>)

  /** The steps of the protocol in which no file is written. */
  predicate OverTheWire(step: R.Step) {
    step.Tick? || step.Begin? || step.LoseRequest? || step.HostHandles? || step.LoseReply? || step.ReceiveReply?
  }

  /** What a step on the files is to the protocol. */
  function Shown(s: State, step: A.Step<Key, Mark>): R.Step {
    match step
    case Swap => if s.disk.save.Synced? then R.Rename else R.Tick(0)
    case SyncDirectory(honoured) => if s.disk.save.Renamed? then R.FlushDirectory(honoured) else R.Tick(0)
    case Abandon(_) => if s.protocol.phase.Saving? then R.FailBeforeRename else R.Tick(0)
    case Die => R.Crash
    case PowerCut(_, lost) => R.PowerCut(A.Final(CREDENTIAL) in lost)
    case Settle(name) => if name == A.Final(CREDENTIAL) then R.BackgroundFlush else R.Tick(0)
    case _ => R.Tick(0)
  }

  /** A save begins with the credential the Host granted, and with no other. */
  predicate Allowed(s: State, step: A.Step<Key, Mark>) {
    step.Make? ==> s.protocol.phase.Saving? && step.key == CREDENTIAL && step.content == Encode(s.protocol.phase.next)
  }

  function ProtocolStep(s: State, step: Step): R.Step {
    match step
    case Wire(w) => if OverTheWire(w) then w else R.Tick(0)
    case OnDisk(d) => if Allowed(s, d) then Shown(s, d) else R.Tick(0)
  }

  function Next(s: State, step: Step, grace: int): State {
    State(R.Next(s.protocol, ProtocolStep(s, step), grace),
          if step.OnDisk? && Allowed(s, step.move) then A.Next(s.disk, step.move, true) else s.disk)
  }

  function Run(s: State, steps: seq<Step>, grace: int): State
    decreases |steps|
  {
    if steps == [] then s else Run(Next(s, steps[0], grace), steps[1..], grace)
  }

  /** The protocol's steps in a run. */
  function Trace(s: State, steps: seq<Step>, grace: int): seq<R.Step>
    decreases |steps|
  {
    if steps == [] then [] else [ProtocolStep(s, steps[0])] + Trace(Next(s, steps[0], grace), steps[1..], grace)
  }

  /** The moment after enrolment, its credential safely in the file. */
  function Start(bridge: BridgeId, now: int): State {
    var p := R.Enrolled(bridge, now);
    var file := map[A.Final(CREDENTIAL) := 0];
    State(p, A.State(Files(file, file, map[0 := Encode(p.seen)], {0}, 1), A.Idle))
  }

  /** The file reads as the protocol says, seen and kept; and a save under way is of the granted credential. */
  ghost predicate Coupled(s: State) {
    && A.Inv(s.disk)
    && Visible(s.disk.fs) == Some(s.protocol.seen) && Durable(s.disk.fs) == Some(s.protocol.kept)
    && (s.disk.save.Filling? || s.disk.save.Synced? ==>
          s.protocol.phase.Saving? && s.disk.save.key == CREDENTIAL && s.disk.save.content == Encode(s.protocol.phase.next))
    && (s.disk.save.Renamed? <==> s.protocol.phase.Flushing?)
    && (s.disk.save.Renamed? ==> s.disk.save.key == CREDENTIAL)
  }

  lemma MessagesLeaveTheFile(p: R.State, w: R.Step, grace: int)
    requires OverTheWire(w)
    ensures var q := R.Next(p, w, grace);
            && q.seen == p.seen && q.kept == p.kept
            && (p.phase.Saving? || p.phase.Flushing? ==> q.phase == p.phase)
            && (q.phase.Flushing? ==> p.phase.Flushing?)
  {
  }

  lemma CoupledMessage(s: State, w: R.Step, grace: int)
    requires Coupled(s) && OverTheWire(w)
    ensures Coupled(s.(protocol := R.Next(s.protocol, w, grace)))
  {
    MessagesLeaveTheFile(s.protocol, w, grace);
  }

  /** A step on the files changes what they read as just as the protocol says. */
  lemma CoupledMove(s: State, d: A.Step<Key, Mark>, grace: int)
    requires Coupled(s) && Allowed(s, d)
    ensures Coupled(State(R.Next(s.protocol, Shown(s, d), grace), A.Next(s.disk, d, true)))
  {
    A.StepsActOnWholeContents(s.disk, d, CREDENTIAL);
    if s.protocol.phase.Saving? {
      OnlyWholeFilesAreRead(s.protocol.phase.next, Encode(s.protocol.phase.next));
    }
  }

  lemma CoupledNext(s: State, step: Step, grace: int)
    requires Coupled(s)
    ensures Coupled(Next(s, step, grace))
  {
    if step.OnDisk? && Allowed(s, step.move) {
      CoupledMove(s, step.move, grace);
    } else {
      CoupledMessage(s, ProtocolStep(s, step), grace);
    }
  }

  lemma {:induction false} CoupledRun(s: State, steps: seq<Step>, grace: int)
    requires Coupled(s)
    ensures Coupled(Run(s, steps, grace))
    ensures Run(s, steps, grace).protocol == R.Run(s.protocol, Trace(s, steps, grace), grace)
    decreases |steps|
  {
    if steps != [] {
      CoupledNext(s, steps[0], grace);
      CoupledRun(Next(s, steps[0], grace), steps[1..], grace);
    }
  }

  lemma StartIsCoupled(bridge: BridgeId, now: int)
    ensures Coupled(Start(bridge, now))
  {
    OnlyWholeFilesAreRead(R.Enrolled(bridge, now).seen, Encode(R.Enrolled(bridge, now).seen));
  }

  /**
   Crash safety. In every run since enrolment, whatever failed, crashed or lost power between any two steps
   of any save, the file reads as one whole credential, and so does what a power cut would leave; and the
   run is one of the protocol, so what holds in every run of `Recovery` holds of the file.
   */
  lemma TheFileIsAlwaysWhole(bridge: BridgeId, now: int, steps: seq<Step>, grace: int)
    ensures var s := Run(Start(bridge, now), steps, grace);
            var trace := Trace(Start(bridge, now), steps, grace);
            && s.protocol == R.Run(R.Enrolled(bridge, now), trace, grace)
            && Visible(s.disk.fs) == Some(s.protocol.seen) && Durable(s.disk.fs) == Some(s.protocol.kept)
  {
    StartIsCoupled(bridge, now);
    CoupledRun(Start(bridge, now), steps, grace);
  }

  /**
   While the family is not revoked, the file reads as a credential whose token is the family's current or
   previous one: always when no power cut undoes a rename, and otherwise when each refresh began flushed.
   */
  lemma TheFileStaysLive(bridge: BridgeId, now: int, steps: seq<Step>, grace: int)
    requires R.Harmless(R.Enrolled(bridge, now), Trace(Start(bridge, now), steps, grace), grace)
    ensures var s := Run(Start(bridge, now), steps, grace);
            && Visible(s.disk.fs).Some?
            && (!s.protocol.host.revoked ==>
                  var token := Visible(s.disk.fs).value.token;
                  s.protocol.host.current == HashOf(token) || s.protocol.host.previous == HashOf(token))
  {
    TheFileIsAlwaysWhole(bridge, now, steps, grace);
    R.DiskStaysLive(bridge, now, Trace(Start(bridge, now), steps, grace), grace);
  }

  /**
   The directory the file is in, too, is made without its own entry being flushed. In every run, a power cut
   that undoes all that is pending leaves the credential the disk holds exactly if that entry is on the disk,
   and no credential at all otherwise.
   */
  lemma TheFileNeedsItsFolder(
    bridge: BridgeId, now: int, steps: seq<Step>, grace: int, damage: map<Ino, seq<Mark>>, folderKept: bool)
    ensures var s := Run(Start(bridge, now), steps, grace);
            Visible(AfterFolderCut(s.disk.fs, damage, {A.Final(CREDENTIAL)}, folderKept))
            == if folderKept then Some(s.protocol.kept) else None
  {
    StartIsCoupled(bridge, now);
    CoupledRun(Start(bridge, now), steps, grace);
    A.PowerCutsSpareWholeContents(Run(Start(bridge, now), steps, grace).disk, damage, {A.Final(CREDENTIAL)}, CREDENTIAL);
  }
}
