/**
 Sender, relay and receiver at once, one dial, write, delivery or record at a time, with links that may lose
 what they accepted and a sender that may restart and forget its count. When what arrives is the source in
 order, exactly.
 */
module TransferRuns {
  import opened Numbers
  import opened Wrappers
  import opened Transport

  /**
   `offset` is the sender's count and `link` the route it is connected on; `flying` and `dst` are the places of
   the source whose bytes the links hold and the receiver has written; `direct` and `relayed` count what each
   route took, `recorded` what the relay has written down of that; `lost` counts what will never arrive.
   */
  datatype Transfer = Transfer(
    offset: nat,
    link: Option<Route>,
    flying: seq<nat>,
    dst: seq<nat>,
    direct: nat,
    relayed: nat,
    recorded: nat,
    lost: nat)

  datatype Step =
    | Dial(route: Route)
    | Accept(n: nat)
    | Deliver(n: nat)
    | Record(n: nat)
    | Lose(n: nat)
    | Restart

  const START := Transfer(0, None, [], [], 0, 0, 0, 0)

  predicate Accepts(t: Transfer, n: nat, size: nat) { t.link.Some? && t.offset + n <= size }

  function Accepted(t: Transfer, n: nat, size: nat): Transfer
    requires Accepts(t, n, size)
  {
    var u := t.(offset := t.offset + n, flying := t.flying + Span(t.offset, n));
    if t.link.value.ViaRelay? then u.(relayed := t.relayed + n) else u.(direct := t.direct + n)
  }

  /** Realigning: the relay's count corrects the sender's upward, the direct route's echo changes nothing. */
  function Dialled(t: Transfer, route: Route): Transfer {
    t.(link := Some(route), offset := if route.ViaRelay? then Max(t.offset, t.recorded) else t.offset)
  }

  function Next(t: Transfer, step: Step, size: nat): Transfer {
    match step
    case Dial(route) => Dialled(t, route)
    case Accept(n) => if Accepts(t, n, size) then Accepted(t, n, size) else t
    case Deliver(n) =>
      if n <= |t.flying| && |t.dst| + n <= size then t.(dst := t.dst + t.flying[..n], flying := t.flying[n..]) else t
    case Record(n) => if t.recorded + n <= t.relayed then t.(recorded := t.recorded + n) else t
    case Lose(n) => if n <= |t.flying| then t.(flying := t.flying[..|t.flying| - n], lost := t.lost + n) else t
    case Restart => t.(offset := 0, link := None)
  }

  function Run(t: Transfer, steps: seq<Step>, size: nat): Transfer
    decreases |steps|
  {
    if steps == [] then t else Run(Next(t, steps[0], size), steps[1..], size)
  }

  /** Everything that has arrived or is on its way. */
  function Coming(t: Transfer): seq<nat> { t.dst + t.flying }

  // ---- The books ----

  ghost predicate Inv(t: Transfer, size: nat) {
    && t.recorded <= t.relayed && |t.dst| <= size
    && |Coming(t)| + t.lost == t.direct + t.relayed
    && (forall p :: p in Coming(t) ==> p < size)
  }

  lemma InvNext(t: Transfer, step: Step, size: nat)
    requires Inv(t, size)
    ensures Inv(Next(t, step, size), size)
  {
    match step
    case Accept(n) => if Accepts(t, n, size) { InvAccepted(t, n, size); }
    case Deliver(n) => if n <= |t.flying| && |t.dst| + n <= size { DeliveringKeepsWhatIsComing(t, n); }
    case Lose(n) => if n <= |t.flying| { InvLost(t, n, size); }
    case _ =>
  }

  lemma InvAccepted(t: Transfer, n: nat, size: nat)
    requires Inv(t, size) && Accepts(t, n, size)
    ensures Inv(Accepted(t, n, size), size)
  {
    var u := Accepted(t, n, size);
    assert Coming(u) == Coming(t) + Span(t.offset, n);
    forall p | p in Coming(u) ensures p < size {
      assert p in Coming(t) || p in Span(t.offset, n);
    }
  }

  lemma InvLost(t: Transfer, n: nat, size: nat)
    requires Inv(t, size) && n <= |t.flying|
    ensures Inv(Next(t, Lose(n), size), size)
  {
    var u := Next(t, Lose(n), size);
    assert Coming(u) == Coming(t)[..|Coming(t)| - n];
    forall p | p in Coming(u) ensures p < size {
      assert p in Coming(t);
    }
  }

  lemma DeliveringKeepsWhatIsComing(t: Transfer, n: nat)
    requires n <= |t.flying|
    ensures (t.dst + t.flying[..n]) + t.flying[n..] == Coming(t)
    ensures forall size {:trigger Next(t, Deliver(n), size)} :: |t.dst| + n <= size ==> Coming(Next(t, Deliver(n), size)) == Coming(t)
  {
    assert t.flying == t.flying[..n] + t.flying[n..];
  }

  /** In every run what was accepted is what was delivered, flies or was lost, and the relay never counts more than it took. */
  lemma {:induction false} InvRun(t: Transfer, steps: seq<Step>, size: nat)
    requires Inv(t, size)
    ensures Inv(Run(t, steps, size), size)
    decreases |steps|
  {
    if steps != [] {
      InvNext(t, steps[0], size);
      InvRun(Next(t, steps[0], size), steps[1..], size);
    }
  }

  // ---- In order ----

  /** As far as the receiver will read, the places come in order, each once and none left out. */
  ghost predicate InOrder(t: Transfer, size: nat) {
    forall i :: 0 <= i < |Coming(t)| && i < size ==> Coming(t)[i] == i
  }

  ghost predicate AlwaysInOrder(t: Transfer, steps: seq<Step>, size: nat)
    decreases |steps|
  {
    InOrder(t, size) && (steps == [] || AlwaysInOrder(Next(t, steps[0], size), steps[1..], size))
  }

  /** Bytes the receiver still needs are accepted. */
  predicate Matters(t: Transfer, step: Step, size: nat) {
    step.Accept? && step.n > 0 && Accepts(t, step.n, size) && |Coming(t)| < size
  }

  /** The sender's count is what has arrived or is on its way. */
  predicate Aligned(t: Transfer) { t.offset == |Coming(t)| }

  predicate AlwaysAligned(t: Transfer, steps: seq<Step>, size: nat)
    decreases |steps|
  {
    steps == [] || ((Matters(t, steps[0], size) ==> Aligned(t)) && AlwaysAligned(Next(t, steps[0], size), steps[1..], size))
  }

  /** One step keeps the order exactly if it accepts nothing, or the count is aligned. */
  lemma OrderNext(t: Transfer, step: Step, size: nat)
    requires InOrder(t, size)
    ensures InOrder(Next(t, step, size), size) <==> (Matters(t, step, size) ==> Aligned(t))
  {
    var u := Next(t, step, size);
    match step
    case Deliver(n) =>
      if u != t {
        DeliveringKeepsWhatIsComing(t, n);
      }
    case Accept(n) =>
      if Accepts(t, n, size) {
        assert Coming(u) == Coming(t) + Span(t.offset, n);
        if Matters(t, step, size) {
          assert Coming(u)[|Coming(t)|] == t.offset;
        }
      }
    case Lose(n) =>
      if n <= |t.flying| {
        assert Coming(u) == Coming(t)[..|Coming(t)| - n];
      }
    case _ =>
      assert Coming(u) == Coming(t);
  }

  /**
   The exact condition, over every run with losses, late records, switches and restarts: what arrives is in
   order throughout if and only if, whenever bytes are accepted that the receiver still needs, the sender's
   count is what has arrived or is on its way.
   */
  lemma {:induction false} InOrderExactlyIfAligned(t: Transfer, steps: seq<Step>, size: nat)
    requires InOrder(t, size)
    ensures AlwaysInOrder(t, steps, size) <==> AlwaysAligned(t, steps, size)
    decreases |steps|
  {
    if steps != [] {
      var u := Next(t, steps[0], size);
      OrderNext(t, steps[0], size);
      if InOrder(u, size) {
        InOrderExactlyIfAligned(u, steps[1..], size);
      } else {
        assert !AlwaysInOrder(u, steps[1..], size);
      }
    }
  }

  /** All that flies is delivered, as far as the receiver reads. */
  function Arrived(t: Transfer, size: nat): Transfer
    requires |t.dst| <= size
  {
    Next(t, Deliver(Min(|t.flying|, size - |t.dst|)), size)
  }

  /** The receiver's output shows the order, or the disorder, as soon as what flies is delivered. */
  lemma TheOutputShowsIt(t: Transfer, size: nat)
    requires |t.dst| <= size
    ensures InOrder(t, size) <==> Arrived(t, size).dst == Upto(|Arrived(t, size).dst|)
    ensures InOrder(t, size) ==> t.dst == Upto(|t.dst|)
  {
    var n := Min(|t.flying|, size - |t.dst|);
    var out := Arrived(t, size).dst;
    assert out == Coming(t)[..|t.dst| + n];
    assert forall i :: 0 <= i < |out| ==> out[i] == Coming(t)[i];
    if InOrder(t, size) {
      assert forall i :: 0 <= i < |t.dst| ==> t.dst[i] == Coming(t)[i];
    } else {
      var i :| 0 <= i < |Coming(t)| && i < size && Coming(t)[i] != i;
      assert out[i] != i;
    }
  }

  /**
   For every run from the start: the output is a prefix of the source's places at every moment, whatever is
   delivered of what flies, if and only if the sender is aligned whenever it matters.
   */
  lemma ReceiverHoldsAPrefix(steps: seq<Step>, size: nat)
    ensures AlwaysAligned(START, steps, size) ==>
              Run(START, steps, size).dst == Upto(|Run(START, steps, size).dst|) && |Run(START, steps, size).dst| <= size
    ensures AlwaysAligned(START, steps, size) <==> AlwaysAPrefix(START, steps, size)
  {
    InOrderExactlyIfAligned(START, steps, size);
    PrefixExactlyIfInOrder(START, steps, size);
    InvRun(START, steps, size);
    if AlwaysAligned(START, steps, size) {
      EndsInOrder(START, steps, size);
      TheOutputShowsIt(Run(START, steps, size), size);
    }
  }

  ghost predicate AlwaysAPrefix(t: Transfer, steps: seq<Step>, size: nat)
    decreases |steps|
  {
    && |t.dst| <= size && Arrived(t, size).dst == Upto(|Arrived(t, size).dst|)
    && (steps == [] || AlwaysAPrefix(Next(t, steps[0], size), steps[1..], size))
  }

  lemma {:induction false} PrefixExactlyIfInOrder(t: Transfer, steps: seq<Step>, size: nat)
    requires Inv(t, size)
    ensures AlwaysAPrefix(t, steps, size) <==> AlwaysInOrder(t, steps, size)
    decreases |steps|
  {
    TheOutputShowsIt(t, size);
    if steps != [] {
      InvNext(t, steps[0], size);
      PrefixExactlyIfInOrder(Next(t, steps[0], size), steps[1..], size);
    }
  }

  lemma {:induction false} EndsInOrder(t: Transfer, steps: seq<Step>, size: nat)
    requires AlwaysInOrder(t, steps, size)
    ensures InOrder(Run(t, steps, size), size)
    decreases |steps|
  {
    if steps != [] {
      EndsInOrder(Next(t, steps[0], size), steps[1..], size);
    }
  }

  // ---- A sender that keeps its count ----

  predicate Uninterrupted(steps: seq<Step>) { forall k :: 0 <= k < |steps| ==> !steps[k].Restart? }

  predicate Lossless(steps: seq<Step>) { forall k :: 0 <= k < |steps| ==> !(steps[k].Lose? && steps[k].n > 0) }

  /** The sender's count is all that was ever accepted, and the relay's never leads it. */
  predicate Counts(t: Transfer, size: nat) {
    t.recorded <= t.relayed && t.direct + t.relayed == t.offset && t.offset <= size
  }

  lemma {:induction false} CountsRun(t: Transfer, steps: seq<Step>, size: nat)
    requires Counts(t, size) && Uninterrupted(steps)
    ensures Counts(Run(t, steps, size), size)
    decreases |steps|
  {
    if steps != [] {
      assert !steps[0].Restart?;
      assert forall k :: 0 <= k < |steps[1..]| ==> steps[1..][k] == steps[k + 1];
      CountsRun(Next(t, steps[0], size), steps[1..], size);
    }
  }

  /**
   A sender that never restarts over links that lose nothing is always aligned: for every pattern of dials,
   switches, partial writes and late records, realigning neither skips nor repeats.
   */
  lemma {:induction false} KeptCountsStayAligned(t: Transfer, steps: seq<Step>, size: nat)
    requires Inv(t, size) && Counts(t, size) && t.lost == 0 && Uninterrupted(steps) && Lossless(steps)
    ensures AlwaysAligned(t, steps, size) && Run(t, steps, size).lost == 0 && Aligned(Run(t, steps, size))
    decreases |steps|
  {
    if steps != [] {
      var u := Next(t, steps[0], size);
      assert !steps[0].Restart? && !(steps[0].Lose? && steps[0].n > 0);
      assert forall k :: 0 <= k < |steps[1..]| ==> steps[1..][k] == steps[k + 1];
      InvNext(t, steps[0], size);
      KeptCountsStayAligned(u, steps[1..], size);
    }
  }

  // ---- A sender that restarts ----

  /** A restart, one dial, and the first bytes after it. */
  function Resuming(route: Route, n: nat): seq<Step> { [Restart, Dial(route), Accept(n)] }

  lemma RunThree(t: Transfer, a: Step, b: Step, c: Step, size: nat)
    ensures Run(t, [a, b, c], size) == Next(Next(Next(t, a, size), b, size), c, size)
  {
    var u := Next(t, a, size);
    var v := Next(u, b, size);
    assert [a, b, c][1..] == [b, c] && [b, c][1..] == [c] && [c][1..] == [];
    assert Run(v, [c], size) == Run(Next(v, c, size), [], size);
    assert Run(u, [b, c], size) == Run(v, [c], size);
  }

  /**
   After a restart the sender resumes where the relay's record ends, or at zero on the direct route. The
   places accepted next stand there, so the order is kept exactly if that is what has arrived or is on its
   way. With nothing lost this means that everything went by the relay and is recorded, and the relay is
   dialled.
   */
  lemma ARestartResumesExactly(t: Transfer, route: Route, n: nat, size: nat)
    requires Inv(t, size) && InOrder(t, size) && |Coming(t)| < size && n > 0
    requires (if route.ViaRelay? then t.recorded else 0) + n <= size
    ensures var resumed := if route.ViaRelay? then t.recorded else 0;
            var u := Run(t, Resuming(route, n), size);
            && Coming(u) == Coming(t) + Span(resumed, n)
            && (InOrder(u, size) <==> resumed == |Coming(t)|)
            && (t.lost == 0 && Coming(t) != [] ==>
                  (InOrder(u, size) <==> route.ViaRelay? && t.direct == 0 && t.recorded == t.relayed))
  {
    RunThree(t, Restart, Dial(route), Accept(n), size);
    var v := Next(Next(t, Restart, size), Dial(route), size);
    OrderNext(v, Accept(n), size);
    assert Coming(v) == Coming(t);
    assert Coming(Accepted(v, n, size)) == Coming(v) + Span(v.offset, n);
  }

  /**
   The same over whole lossless runs: whether the sender's count is good is told by its restarts and dials.
   A restart makes it bad if anything was accepted before; a relay that took everything and has recorded it
   makes it good again; nothing else changes it.
   */
  predicate StaysGood(t: Transfer, step: Step, good: bool) {
    match step
    case Restart => t.direct + t.relayed == 0
    case Dial(route) => good || (route.ViaRelay? && t.direct == 0 && t.recorded == t.relayed)
    case _ => good
  }

  predicate Resumes(t: Transfer, steps: seq<Step>, size: nat, good: bool)
    decreases |steps|
  {
    steps == []
    || ((Matters(t, steps[0], size) ==> good)
        && Resumes(Next(t, steps[0], size), steps[1..], size, StaysGood(t, steps[0], good)))
  }

  /** While the order holds, the sender never leads and its count is good exactly when it is aligned. */
  predicate Tells(t: Transfer, size: nat, good: bool) {
    t.lost == 0 && t.offset <= |Coming(t)| && (|Coming(t)| < size ==> (good <==> Aligned(t)))
  }

  lemma TellsNext(t: Transfer, step: Step, size: nat, good: bool)
    requires Inv(t, size) && Tells(t, size, good) && !(step.Lose? && step.n > 0)
    requires Matters(t, step, size) ==> good
    ensures Tells(Next(t, step, size), size, StaysGood(t, step, good))
  {
    var u := Next(t, step, size);
    match step
    case Deliver(n) =>
      if u != t {
        DeliveringKeepsWhatIsComing(t, n);
      }
    case Accept(n) =>
      if Accepts(t, n, size) {
        assert Coming(u) == Coming(t) + Span(t.offset, n);
      }
    case _ =>
      assert Coming(u) == Coming(t);
  }

  lemma {:induction false} AlignedExactlyIfResumes(t: Transfer, steps: seq<Step>, size: nat, good: bool)
    requires Inv(t, size) && Tells(t, size, good) && Lossless(steps)
    ensures AlwaysAligned(t, steps, size) <==> Resumes(t, steps, size, good)
    decreases |steps|
  {
    if steps != [] {
      assert !(steps[0].Lose? && steps[0].n > 0);
      assert forall k :: 0 <= k < |steps[1..]| ==> steps[1..][k] == steps[k + 1];
      if Matters(t, steps[0], size) ==> good {
        InvNext(t, steps[0], size);
        TellsNext(t, steps[0], size, good);
        AlignedExactlyIfResumes(Next(t, steps[0], size), steps[1..], size, StaysGood(t, steps[0], good));
      }
    }
  }

  /**
   Restarts, exactly. Over links that lose nothing the output stays a prefix in a run if and only if after
   each restart that something was accepted before, no byte the receiver still needs is accepted until a
   relay that took everything so far has answered with all of it.
   */
  lemma RestartsAreHarmlessExactlyIf(steps: seq<Step>, size: nat)
    requires Lossless(steps)
    ensures AlwaysAPrefix(START, steps, size) <==> Resumes(START, steps, size, true)
  {
    ReceiverHoldsAPrefix(steps, size);
    AlignedExactlyIfResumes(START, steps, size, true);
  }

  function OneByteDirect(): seq<Step> { [Dial(Direct), Accept(1), Restart] }

  /**
   The input on which it fails: one byte goes direct, the sender restarts, and the relay, which has carried
   nothing, answers zero. Nothing is lost, and the first byte is delivered twice.
   */
  lemma ARestartCanRepeat(size: nat)
    requires size >= 3
    ensures var t := Run(Run(START, OneByteDirect(), size), [Dial(ViaRelay), Accept(2), Deliver(3)], size);
            t.dst == [0, 0, 1] && t.lost == 0 && t.flying == []
  {
    RunThree(START, Dial(Direct), Accept(1), Restart, size);
    var t := Run(START, OneByteDirect(), size);
    assert t.flying == [0];
    RunThree(t, Dial(ViaRelay), Accept(2), Deliver(3), size);
    var u := Next(Next(t, Dial(ViaRelay), size), Accept(2), size);
    assert u.flying == [0, 0, 1];
    assert u.flying[..3] == u.flying && u.flying[3..] == [];
  }

  /**
   And one on which it skips: the relay takes a byte and has not recorded it when the restarted sender dials;
   it takes the same byte again, records both, and its count then leads the sender past a byte never sent.
   */
  lemma ARestartCanSkip(size: nat)
    requires size >= 3
    ensures var t := Run(Run(Run(START, [Dial(ViaRelay), Accept(1), Restart], size), [Dial(ViaRelay), Accept(1), Record(2)], size),
                         [Dial(ViaRelay), Accept(1), Deliver(3)], size);
            t.dst == [0, 0, 2] && t.lost == 0 && t.flying == []
  {
    RunThree(START, Dial(ViaRelay), Accept(1), Restart, size);
    var t := Run(START, [Dial(ViaRelay), Accept(1), Restart], size);
    assert t.flying == [0];
    RunThree(t, Dial(ViaRelay), Accept(1), Record(2), size);
    var u := Run(t, [Dial(ViaRelay), Accept(1), Record(2)], size);
    assert u.flying == [0, 0] && u.recorded == 2 && u.offset == 1;
    RunThree(u, Dial(ViaRelay), Accept(1), Deliver(3), size);
    var v := Next(Next(u, Dial(ViaRelay), size), Accept(1), size);
    assert v.flying == [0, 0, 2];
    assert v.flying[..3] == v.flying && v.flying[3..] == [];
  }

  // ---- Losses ----

  /** Once the sender believes itself done, nothing more is accepted while it keeps its count. */
  lemma {:induction false} DoneSendsNoMore(t: Transfer, steps: seq<Step>, size: nat)
    requires t.offset >= size && |t.dst| <= size && Uninterrupted(steps)
    ensures |Coming(Run(t, steps, size))| <= |Coming(t)|
    decreases |steps|
  {
    if steps != [] {
      assert !steps[0].Restart?;
      assert forall k :: 0 <= k < |steps[1..]| ==> steps[1..][k] == steps[k + 1];
      DoneSendsNoMore(Next(t, steps[0], size), steps[1..], size);
    }
  }

  /**
   The sender believes itself done once its count is full, whether its links accepted that much or the relay
   said so. In any run, from there the receiver can still be given a full transfer if and only if enough has
   arrived or is on its way; and if the sender never restarted, that is if and only if nothing was lost.
   */
  lemma LossIsNeverRepaired(steps: seq<Step>, size: nat)
    requires Run(START, steps, size).offset >= size
    ensures var t := Run(START, steps, size);
            && |t.dst| <= size
            && (|Coming(t)| >= size ==> |Arrived(t, size).dst| == size)
            && (|Coming(t)| < size ==> forall later: seq<Step> :: Uninterrupted(later) ==> |Run(t, later, size).dst| < size)
            && (Uninterrupted(steps) ==> (|Coming(t)| >= size <==> t.lost == 0))
  {
    InvRun(START, steps, size);
    var t := Run(START, steps, size);
    if Uninterrupted(steps) {
      CountsRun(START, steps, size);
    }
    forall later: seq<Step> | |Coming(t)| < size && Uninterrupted(later) ensures |Run(t, later, size).dst| < size {
      DoneSendsNoMore(t, later, size);
    }
  }

  // ---- The two loops are runs ----

  lemma {:induction false} RunSplit(t: Transfer, xs: seq<Step>, ys: seq<Step>, size: nat)
    ensures Run(t, xs + ys, size) == Run(Run(t, xs, size), ys, size)
    decreases |xs|
  {
    if xs == [] {
      assert xs + ys == ys;
    } else {
      assert (xs + ys)[1..] == xs[1..] + ys;
      RunSplit(Next(t, xs[0], size), xs[1..], ys, size);
    }
  }

  /** How many more of the bytes it took the relay writes down before it answers. */
  function NewlyRecorded(x: Trip, a: Attempt): nat {
    if a.RelayOpens? && x.recorded <= x.relayed then Min(a.records, x.relayed - x.recorded) else 0
  }

  /** One turn of the sender's loop. */
  function DialSteps(x: Trip, a: Attempt, limit: nat): seq<Step>
    requires !a.Unreachable?
  {
    [Record(NewlyRecorded(x, a)), Dial(RouteOf(a)), Accept(|AfterDial(x, a, limit).places| - |x.places|)]
  }

  function SendSteps(x: Trip, dials: seq<Attempt>, limit: nat): seq<Step>
    requires AllOpen(dials)
  {
    if dials == [] then []
    else
      var init := dials[..|dials| - 1];
      SendSteps(x, init, limit) + DialSteps(AfterDials(x, init, limit), dials[|dials| - 1], limit)
  }

  /** The machine, having begun at `t`, stands where the sender's loop stands. */
  predicate Follows(t: Transfer, x: Trip, u: Transfer) {
    && (u.offset, u.relayed, u.recorded) == (x.offset, x.relayed, x.recorded) && x.recorded <= x.relayed
    && u.flying == t.flying + x.places && u.dst == t.dst && u.lost == t.lost
    && u.direct + u.relayed == t.direct + t.relayed + |x.places|
  }

  lemma DialIsARun(t: Transfer, x: Trip, u: Transfer, a: Attempt, limit: nat, size: nat)
    requires Follows(t, x, u) && !a.Unreachable? && limit <= size
    ensures Follows(t, AfterDial(x, a, limit), Run(u, DialSteps(x, a, limit), size))
  {
    var y := AfterDial(x, a, limit);
    var steps := DialSteps(x, a, limit);
    RunThree(u, steps[0], steps[1], steps[2], size);
    var v := Next(Next(u, steps[0], size), steps[1], size);
    var n := |y.places| - |x.places|;
    assert y.places == x.places + Span(v.offset, n);
    assert v.flying == t.flying + x.places;
    assert (t.flying + x.places) + Span(v.offset, n) == t.flying + y.places;
    if n == 0 {
      assert Span(v.offset, 0) == [];
    }
  }

  lemma {:induction false} DialsAreARun(t: Transfer, x: Trip, u: Transfer, dials: seq<Attempt>, limit: nat, size: nat)
    requires Follows(t, x, u) && AllOpen(dials) && limit <= size
    ensures Follows(t, AfterDials(x, dials, limit), Run(u, SendSteps(x, dials, limit), size))
    decreases |dials|
  {
    if dials != [] {
      var init, last := dials[..|dials| - 1], dials[|dials| - 1];
      DialsAreARun(t, x, u, init, limit, size);
      var y := AfterDials(x, init, limit);
      RunSplit(u, SendSteps(x, init, limit), DialSteps(y, last, limit), size);
      DialIsARun(t, y, Run(u, SendSteps(x, init, limit), size), last, limit, size);
    }
  }

  /**
   `Send`, begun at any moment of any run, is a restart followed by its dials: it leaves the sender's count,
   the relay's two and the links as these steps leave them.
   */
  lemma SendIsARun(t: Transfer, dials: seq<Attempt>, limit: nat, size: nat)
    requires t.recorded <= t.relayed && AllOpen(dials) && limit <= size
    ensures var x0 := Trip(0, [], t.relayed, t.recorded);
            Follows(t, AfterDials(x0, dials, limit), Run(t, [Restart] + SendSteps(x0, dials, limit), size))
  {
    var x0 := Trip(0, [], t.relayed, t.recorded);
    RunSplit(t, [Restart], SendSteps(x0, dials, limit), size);
    var u := Next(t, Restart, size);
    assert Run(t, [Restart], size) == Run(u, [], size);
    assert t.flying + [] == t.flying;
    DialsAreARun(t, x0, u, dials, limit, size);
  }

  /** The receiver's loop: from each connection what it brought, as far as the transfer has room. */
  function ReceiveSteps(pieces: seq<Piece>, size: nat): seq<Step> {
    if pieces == [] then []
    else
      var init, last := pieces[..|pieces| - 1], pieces[|pieces| - 1];
      ReceiveSteps(init, size) + [Deliver(Min(size - Min(size, |Delivered(init)|), |last.bytes|))]
  }

  /** `Receive` is a run: its output is the bytes at the places delivered, and what is coming stays as it was. */
  lemma {:induction false} ReceiveIsARun(t: Transfer, pieces: seq<Piece>, src: seq<Byte>, size: nat)
    requires t.dst == [] && Delivered(pieces) <= BytesAt(src, t.flying)
    ensures var u := Run(t, ReceiveSteps(pieces, size), size);
            && Coming(u) == t.flying && |u.dst| == Min(size, |Delivered(pieces)|)
            && BytesAt(src, u.dst) == Received(pieces, size)
            && u.offset == t.offset && u.lost == t.lost
    decreases |pieces|
  {
    if pieces == [] {
      assert t.dst + t.flying == t.flying;
    } else {
      var init, last := pieces[..|pieces| - 1], pieces[|pieces| - 1];
      assert Delivered(init) <= Delivered(pieces);
      ReceiveIsARun(t, init, src, size);
      var u := Run(t, ReceiveSteps(init, size), size);
      var n := Min(size - Min(size, |Delivered(init)|), |last.bytes|);
      RunSplit(t, ReceiveSteps(init, size), [Deliver(n)], size);
      assert Run(u, [Deliver(n)], size) == Run(Next(u, Deliver(n), size), [], size);
      OnePieceMore(t, u, pieces, n, src, size);
    }
  }

  lemma OnePieceMore(t: Transfer, u: Transfer, pieces: seq<Piece>, n: nat, src: seq<Byte>, size: nat)
    requires pieces != [] && Delivered(pieces) <= BytesAt(src, t.flying) && Coming(u) == t.flying
    requires |u.dst| == Min(size, |Delivered(pieces[..|pieces| - 1])|)
    requires n == Min(size - |u.dst|, |pieces[|pieces| - 1].bytes|)
    ensures var v := Next(u, Deliver(n), size);
            && Coming(v) == t.flying && |v.dst| == Min(size, |Delivered(pieces)|) && v.offset == u.offset && v.lost == u.lost
            && BytesAt(src, v.dst) == Received(pieces, size)
  {
    DeliveringKeepsWhatIsComing(u, n);
    var v := Next(u, Deliver(n), size);
    var k := |v.dst|;
    assert v.dst == t.flying[..k];
    assert BytesAt(src, v.dst) == BytesAt(src, t.flying)[..k];
    assert Delivered(pieces)[..k] == BytesAt(src, t.flying)[..k];
  }

  /**
   The two loops together, on a transfer nothing was carried of before and over links that lose nothing: what
   arrives is the source in order, and the transfer is full at the receiver exactly when the sender finished
   and everything it had accepted arrived.
   */
  lemma EndToEnd(dials: seq<Attempt>, pieces: seq<Piece>, src: seq<Byte>, size: nat)
    requires AllOpen(dials) && size <= |src|
    requires Delivered(pieces) <= BytesAt(src, AfterDials(Trip(0, [], 0, 0), dials, size).places)
    ensures var x := AfterDials(Trip(0, [], 0, 0), dials, size);
            var dst := Received(pieces, size);
            && dst == src[..|dst|]
            && (|dst| == size <==> x.offset == size && Delivered(pieces) == BytesAt(src, x.places))
  {
    var x := AfterDials(Trip(0, [], 0, 0), dials, size);
    SendIsARun(START, dials, size, size);
    var t := Run(START, [Restart] + SendSteps(Trip(0, [], 0, 0), dials, size), size);
    assert t.flying == [] + x.places == x.places;
    ReceiveIsARun(t, pieces, src, size);
    var u := Run(t, ReceiveSteps(pieces, size), size);
    FreshTrip(dials, size);
    assert InOrder(u, size);
    TheOutputShowsIt(u, size);
    BytesOfUpto(src, |u.dst|);
  }
}
