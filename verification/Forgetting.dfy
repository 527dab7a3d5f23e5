/**
 What it takes for the journal to forget a transfer, and what the library then stands to lose.
 */
module Forgetting {
  import opened Wrappers
  import opened Streams
  import opened Filesystem
  import opened PublicationRuns

  // ---- Why the journal must remember, exactly ----

  function Inodes(fs: Fs, n: Name): set<Ino> {
    (if n in fs.names then {fs.names[n]} else {}) + (if n in fs.kept then {fs.kept[n]} else {})
  }

  /** Only the library's names share files with others. */
  ghost predicate StagedApart(fs: Fs) {
    forall m: Name, n: Name :: !m.Library? && !n.Library? && m != n ==> Inodes(fs, m) !! Inodes(fs, n)
  }

  lemma ApartFollows(fs: Fs, fs': Fs, new_: Name)
    requires Sound(fs) && Leads(fs, fs', new_) && StagedApart(fs)
    ensures StagedApart(fs')
  {
    forall n ensures Inodes(fs', n) <= Inodes(fs, n) || (n == new_ && forall i :: i in Inodes(fs', n) ==> i in Inodes(fs, n) || i >= fs.next) {
    }
    forall m: Name, n: Name | !m.Library? && !n.Library? && m != n ensures Inodes(fs', m) !! Inodes(fs', n) {
      assert Inodes(fs, m) !! Inodes(fs, n);
    }
  }

  lemma ApartAfterLink(fs: Fs, from: Name, p: Path)
    requires StagedApart(fs)
    ensures StagedApart(Link(fs, from, Library(p)))
  {
    forall n: Name | !n.Library? ensures Inodes(Link(fs, from, Library(p)), n) == Inodes(fs, n) {
    }
  }

  lemma ApartAfterCut(fs: Fs, damage: map<Ino, Bytes>, lost: set<Name>)
    requires StagedApart(fs)
    ensures StagedApart(Cut(fs, damage, lost))
  {
    forall n ensures Inodes(Cut(fs, damage, lost), n) <= Inodes(fs, n) {
    }
  }

  lemma ApartNext(s: State, step: Step)
    requires FilesOk(s.fs) && StagedApart(s.fs)
    ensures StagedApart(Next(s, step).fs)
  {
    match step
    case PutInPlace(id) => ApartAfterPut(s, id);
    case Outsider(path, bytes) => ApartAfterOutsider(s, path, bytes);
    case PowerCut(damage, lost, _) => ApartAfterCut(s.fs, damage, lost);
    case _ =>
      var new_ := NewName(s, step);
      StepLeads(s, step, new_);
      ApartFollows(s.fs, Next(s, step).fs, new_);
  }

  /** The one name a step may make, if it makes one. */
  function NewName(s: State, step: Step): Name {
    match step
    case Open(id) => Part(id)
    case StartCopy(_) => Temp(s.fs.next)
    case Recheck(id, _) => if id in s.flows then Folder(s.flows[id].dest.folder) else Temp(0)
    case _ => Temp(0)
  }

  lemma StepLeads(s: State, step: Step, new_: Name)
    requires FilesOk(s.fs) && !step.PutInPlace? && !step.Outsider? && !step.PowerCut? && new_ == NewName(s, step)
    ensures Leads(s.fs, Next(s, step).fs, new_)
  {
    if step.Open? || step.StartCopy? || step.Recheck? {
      MakingLeads(s, step, new_);
    } else if step.WriteSome? || step.CopySome? {
      WritingLeads(s, step, new_);
    } else {
      RemovingLeads(s, step, new_);
    }
  }

  lemma MakingLeads(s: State, step: Step, new_: Name)
    requires FilesOk(s.fs) && (step.Open? || step.StartCopy? || step.Recheck?) && new_ == NewName(s, step)
    ensures Leads(s.fs, Next(s, step).fs, new_)
  {
  }

  lemma WritingLeads(s: State, step: Step, new_: Name)
    requires step.WriteSome? || step.CopySome?
    ensures Leads(s.fs, Next(s, step).fs, new_)
  {
  }

  lemma RemovingLeads(s: State, step: Step, new_: Name)
    requires !step.PutInPlace? && !step.Outsider? && !step.PowerCut?
    requires !step.Open? && !step.StartCopy? && !step.Recheck? && !step.WriteSome? && !step.CopySome?
    ensures Leads(s.fs, Next(s, step).fs, new_)
  {
  }

  lemma ApartAfterPut(s: State, id: TransferId)
    requires StagedApart(s.fs)
    ensures StagedApart(NextPut(s, id).fs)
  {
    if id in s.flows {
      var f := s.flows[id];
      ApartAfterLink(s.fs, if f.phase.Copied? then Temp(f.phase.tmp) else Part(id), f.dest);
    }
  }

  lemma ApartAfterOutsider(s: State, path: Path, bytes: Bytes)
    requires FilesOk(s.fs) && StagedApart(s.fs)
    ensures StagedApart(NextOutsider(s, path, bytes).fs)
  {
    if Library(path) !in s.fs.names {
      var fs := WithFolder(s.fs, path);
      ApartFollows(s.fs, fs, Folder(path.folder));
      ApartFollows(fs, Place(fs, Library(path), bytes), Library(path));
    }
  }

  /** So it is in every proper run from a library in which it is so. */
  lemma {:induction false} ApartRun(s: State, steps: seq<Step>)
    requires Inv(s) && StagedApart(s.fs) && ProperRun(s, steps)
    ensures StagedApart(Run(s, steps).fs)
    decreases |steps|
  {
    if steps != [] {
      ApartNext(s, steps[0]);
      InvNext(s, steps[0]);
      ApartRun(Next(s, steps[0]), steps[1..]);
    }
  }

  /** A forgotten transfer is received again and writes something other than `content`. */
  function Harm(id: TransferId, dest: Path, content: Bytes): seq<Step> {
    [Begin(id, dest, (x: Bytes) => true, true, true, true), Open(id), WriteSome(id, if content == [] then [0] else [])]
  }

  lemma HarmIsDone(t: State, id: TransferId, p: Path)
    requires t.flows == map[] && id !in t.known && Part(id) in t.fs.names && t.fs.Holds(Library(p))
    requires t.fs.names[Part(id)] == t.fs.names[Library(p)]
    ensures var steps := Harm(id, p, t.fs.Content(Library(p)));
            && ProperRun(t, steps)
            && Run(t, steps).fs.Holds(Library(p)) && Run(t, steps).fs.Content(Library(p)) != t.fs.Content(Library(p))
  {
    var steps := Harm(id, p, t.fs.Content(Library(p)));
    RunThree(t, steps[0], steps[1], steps[2]);
    var u := Next(t, steps[0]);
    assert u.fs == t.fs && u.flows == map[id := Flow(p, steps[0].expected, true, Begun)];
    var v := Next(u, steps[1]);
    assert v.fs == OpenTruncated(t.fs, Part(id)) && v.flows[id].phase == Writing(t.fs.names[Part(id)]);
    assert [] + steps[2].bytes == steps[2].bytes;
    ProperThree(t, steps);
  }

  lemma ProperThree(t: State, steps: seq<Step>)
    requires |steps| == 3 && steps[0].Begin? && steps[1].Open? && steps[2].WriteSome?
    ensures ProperRun(t, steps)
  {
    var u := Next(t, steps[0]);
    var v := Next(u, steps[1]);
    assert steps[1..][1..] == steps[2..] && steps[2..][1..] == [];
    assert ProperRun(v, steps[2..]);
    assert ProperRun(u, steps[1..]);
  }

  /** What a power cut makes the journal forget does harm in some continuation, or in none. */
  lemma ForgottenButShared(s: State, damage: map<Ino, Bytes>, lost: set<Name>, forgets: set<TransferId>)
    returns (id: TransferId, p: Path)
    requires Inv(s) && StagedApart(s.fs) && !Recalls(s, lost, forgets)
    ensures var t := NextPowerCut(s, damage, lost, forgets);
            && id !in t.known && Part(id) in t.fs.names && Library(p) in t.fs.names
            && t.fs.names[Part(id)] == t.fs.names[Library(p)]
  {
    id :| id in forgets && id in s.known && id !in s.recorded && !Loose(Cut(s.fs, map[], lost), id);
    var t := NextPowerCut(s, damage, lost, forgets);
    StillLoose(s.fs, damage, lost, id);
    PowerCutKeepsFiles(s.fs, damage, lost);
    ApartAfterCut(s.fs, damage, lost);
    var n :| n in t.fs.names && t.fs.names[n] == t.fs.names[Part(id)] && n != Part(id);
    assert t.fs.names[n] in Inodes(t.fs, n) && t.fs.names[n] in Inodes(t.fs, Part(id));
    p := n.path;
  }

  /**
   The condition on the journal, exactly. After a power cut nothing that can happen next changes or removes a
   file the library still has, if and only if every transfer the journal forgot has left no staged name of one.
   */
  lemma ACutIsSafeExactlyIfRecalled(s: State, damage: map<Ino, Bytes>, lost: set<Name>, forgets: set<TransferId>)
    requires Inv(s) && StagedApart(s.fs)
    ensures var t := NextPowerCut(s, damage, lost, forgets);
            && (forall p: Path :: Library(p) in t.fs.names ==> t.fs.Holds(Library(p)) && Durable(t.fs, p))
            && (Recalls(s, lost, forgets) <==> forall steps :: ProperRun(t, steps) ==> Lasting(t.fs, Run(t, steps).fs))
  {
    var t := NextPowerCut(s, damage, lost, forgets);
    PowerCutKeepsFiles(s.fs, damage, lost);
    if Recalls(s, lost, forgets) {
      PowerCutKeeps(s, damage, lost, forgets);
      forall steps | ProperRun(t, steps) ensures Lasting(t.fs, Run(t, steps).fs) {
        InvRun(t, steps);
      }
    } else {
      var id, p := ForgottenButShared(s, damage, lost, forgets);
      var steps := Harm(id, p, t.fs.Content(Library(p)));
      HarmIsDone(t, id, p);
      assert ProperRun(t, steps) && !Lasting(t.fs, Run(t, steps).fs);
    }
  }

  // ---- A transfer the journal forgets ----

  /** The staged name comes back, or was never removed, and the journal may have lost the transfer. */
  function Relapse(id: TransferId, g: Flow): seq<Step> {
    [PowerCut(map[], {Part(id)}, {id}), Begin(id, g.dest, g.expected, g.sameFilesystem, true, true), Open(id)]
  }

  lemma Relapses(s: State, id: TransferId, g: Flow, p: Path)
    requires s.fs.Holds(Library(p)) && Part(id) in s.fs.kept && s.fs.kept[Part(id)] == s.fs.names[Library(p)]
    requires id in s.known && Folder(p.folder) in s.fs.names
    ensures var t := Run(s, Relapse(id, g));
            t.fs.Holds(Library(p)) && t.fs.Content(Library(p)) == if id in s.recorded then s.fs.Content(Library(p)) else []
  {
    var cut := NextPowerCut(s, map[], {Part(id)}, {id});
    RunThree(s, Relapse(id, g)[0], Relapse(id, g)[1], Relapse(id, g)[2]);
    CutBringsBack(s, id, p);
    ReceivesAgain(cut, id, g, p);
  }

  /** After the power cut the staged name leads where the library's does, and the journal knows what it recorded. */
  lemma CutBringsBack(s: State, id: TransferId, p: Path)
    requires s.fs.Holds(Library(p)) && Part(id) in s.fs.kept && s.fs.kept[Part(id)] == s.fs.names[Library(p)] && id in s.known
    requires Folder(p.folder) in s.fs.names
    ensures var t := NextPowerCut(s, map[], {Part(id)}, {id});
            && t.fs.Holds(Library(p)) && t.fs.Content(Library(p)) == s.fs.Content(Library(p)) && t.flows == map[]
            && Part(id) in t.fs.names && t.fs.names[Part(id)] == t.fs.names[Library(p)]
            && (id in t.known <==> id in s.recorded)
  {
  }

  lemma ReceivesAgain(s: State, id: TransferId, g: Flow, p: Path)
    requires s.fs.Holds(Library(p)) && s.flows == map[]
    requires Part(id) in s.fs.names && s.fs.names[Part(id)] == s.fs.names[Library(p)]
    ensures var t := NextOpen(NextBegin(s, id, g.dest, g.expected, g.sameFilesystem, true, true), id);
            t.fs.Holds(Library(p)) && t.fs.Content(Library(p)) == if id in s.known then s.fs.Content(Library(p)) else []
  {
    if id !in s.known {
      var t := NextBegin(s, id, g.dest, g.expected, g.sameFilesystem, true, true);
      assert t.flows[id] == Flow(g.dest, g.expected, g.sameFilesystem, Begun) && t.fs == s.fs;
      assert NextOpen(t, id).fs == OpenTruncated(s.fs, Part(id));
    }
  }

  lemma PublishesAndRelapses(s: State, id: TransferId, f: Flow, payload: Bytes, removes: bool, g: Flow)
    requires Arrived(s, id, f, payload) && f.phase.Written? && f.sameFilesystem && id in s.known
    requires Part(id) in s.fs.kept && s.fs.kept[Part(id)] == s.fs.names[Part(id)]
    ensures var t := Run(s, Publishing(id, |payload|, None, true, removes) + Relapse(id, g));
            t.fs.Holds(Library(f.dest)) && t.fs.Content(Library(f.dest)) == if id in s.recorded then payload else []
  {
    RunSplit(s, Publishing(id, |payload|, None, true, removes), Relapse(id, g));
    LinkedOver(s, id, f, payload, removes);
    Relapses(Run(s, Publishing(id, |payload|, None, true, removes)), id, g, f.dest);
  }

  lemma ArrivesAndSettles(s: State, id: TransferId, f: Flow, payload: Bytes, flushed: bool)
    requires Inv(s) && id !in s.known && Library(f.dest) !in s.fs.names && f.expected(payload) && f.phase.Written?
    ensures var t := Run(s, Receiving(id, f, payload, flushed) + [Settle(Part(id))]);
            && Arrived(t, id, f, payload)
            && id in t.known && t.recorded == (if flushed then s.recorded + {id} else s.recorded)
            && Part(id) in t.fs.kept && t.fs.kept[Part(id)] == t.fs.names[Part(id)]
  {
    var receiving := Receiving(id, f, payload, flushed);
    RunSplit(s, receiving, [Settle(Part(id))]);
    Arrives(s, id, f, payload, flushed);
    RunOne(Run(s, receiving), Settle(Part(id)));
  }

  /**
   Why the journal must never admit a transfer twice, and why its own flush matters. A staged name is never
   flushed away, so a power cut may bring it back as a second name of the file in the library. If the journal's
   entry was on the disk, receiving the transfer again is refused; if not, it empties the library's file.
   */
  lemma ForgettingWouldTruncateTheLibrary(
    s: State, id: TransferId, f: Flow, payload: Bytes, flushed: bool, removes: bool, g: Flow)
    requires Inv(s) && id !in s.known && id !in s.recorded && Library(f.dest) !in s.fs.names
    requires f.expected(payload) && f.phase.Written? && f.sameFilesystem
    ensures var first := Receiving(id, f, payload, flushed) + [Settle(Part(id))];
            var t := Run(s, first + (Publishing(id, |payload|, None, true, removes) + Relapse(id, g)));
            t.fs.Holds(Library(f.dest)) && t.fs.Content(Library(f.dest)) == if flushed then payload else []
  {
    var first := Receiving(id, f, payload, flushed) + [Settle(Part(id))];
    RunSplit(s, first, Publishing(id, |payload|, None, true, removes) + Relapse(id, g));
    ArrivesAndSettles(s, id, f, payload, flushed);
    PublishesAndRelapses(Run(s, first), id, f, payload, removes, g);
  }
}
