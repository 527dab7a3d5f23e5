/**
 Where the relay's two limits hold and where they stop. Nothing in the pairing section looks at whether a
 grant is already being relayed, so its sessions can overlap; the byte cap and the reach of a revocation are
 exact on that overlap.
 */
module RelayLimits {
  import opened Wrappers
  import opened Relay
  import opened RelayRuns

  // ---- The byte cap ----

  /** Every pipe that copies was given all the room there was, and something to move. */
  ghost predicate Generous(s: System, max: nat) {
    forall c :: c in s.conns && s.conns[c].stage.Copying? ==>
      s.conns[c].stage.remaining > 0 && BytesOf(s, s.conns[c].grant) + s.conns[c].stage.remaining >= max
  }

  /** Recorded bytes never shrink, and a pipe starts with exactly the room that is left. */
  ghost predicate StartsFull(s: System, s': System, c: ConnId, max: nat)
    requires c in s.conns && c in s'.conns
  {
    var conn, stage' := s.conns[c], s'.conns[c].stage;
    && (forall g :: BytesOf(s', g) >= BytesOf(s, g))
    && (stage'.Copying? && !conn.stage.Copying? ==>
          stage'.remaining > 0 && BytesOf(s', conn.grant) + stage'.remaining >= max)
    && (stage'.Copying? && conn.stage.Copying? ==> stage' == conn.stage)
  }

  lemma OwnStart(s: System, step: Step, config: Config)
    requires !step.Revoke? && !step.RevokeSignal? && !step.Arrive? && Known(s, step.c)
    ensures step.c in Next(s, step, config).conns && StartsFull(s, Next(s, step, config), step.c, config.MaxBytes())
  {
  }

  lemma GenerousNext(s: System, step: Step, config: Config)
    requires Generous(s, config.MaxBytes())
    ensures Generous(Next(s, step, config), config.MaxBytes())
  {
    var s' := Next(s, step, config);
    if step.Revoke? || step.RevokeSignal? || step.Arrive? || !Known(s, step.c) {
      OtherStepsMoveNone(s, step, config, 0);
    } else {
      StepMovesOne(s, step, config);
      OwnStart(s, step, config);
    }
  }

  /** Two pipes of one grant already hold more than the cap between them. */
  lemma TwoPipesHoldMoreThanTheCap(s: System, g: GrantId, max: nat)
    requires Generous(s, max) && |Running(s, g)| >= 2
    ensures BytesOf(s, g) + Sum(Running(s, g)) > max
  {
    var r := Running(s, g);
    var c :| c in r;
    SumWithout(r, c);
    assert (r - {c}).Keys == r.Keys - {c};
    assert |r - {c}| == |r| - 1;
    var d :| d in r - {c};
    SumWithout(r - {c}, d);
  }

  /** At every point of the run the recorded bytes and the open budgets stay within the cap. */
  ghost predicate WithinCap(s: System, steps: seq<Step>, config: Config, g: GrantId)
    decreases |steps|
  {
    && BytesOf(s, g) + Sum(Running(s, g)) <= config.MaxBytes()
    && (steps == [] || WithinCap(Next(s, steps[0], config), steps[1..], config, g))
  }

  lemma {:induction false} CapFrom(s: System, steps: seq<Step>, config: Config, g: GrantId)
    requires Generous(s, config.MaxBytes()) && BudgetInv(s, g, 1, config.MaxBytes())
    ensures WithinCap(s, steps, config, g) <==> OverlapAtMost(s, steps, config, g, 1)
    decreases |steps|
  {
    if |Running(s, g)| >= 2 {
      TwoPipesHoldMoreThanTheCap(s, g, config.MaxBytes());
    }
    if steps != [] {
      var s' := Next(s, steps[0], config);
      GenerousNext(s, steps[0], config);
      if |Running(s', g)| >= 2 {
        TwoPipesHoldMoreThanTheCap(s', g, config.MaxBytes());
      } else {
        BudgetNext(s, steps[0], config, g, 1);
        CapFrom(s', steps[1..], config, g);
      }
    }
  }

  /**
   The cap per grant, exactly: over a whole run it holds, in recorded bytes and open budgets, if and only if
   no two sessions of the grant ever copied at once.
   */
  lemma TheCapHoldsExactlyWithoutOverlap(steps: seq<Step>, config: Config, g: GrantId)
    ensures WithinCap(EMPTY, steps, config, g) <==> OverlapAtMost(EMPTY, steps, config, g, 1)
  {
    assert Running(EMPTY, g) == map[];
    CapFrom(EMPTY, steps, config, g);
  }

  lemma {:induction false} GenerousRun(s: System, steps: seq<Step>, config: Config)
    requires Generous(s, config.MaxBytes())
    ensures Generous(Run(s, steps, config), config.MaxBytes())
    decreases |steps|
  {
    if steps != [] {
      GenerousNext(s, steps[0], config);
      GenerousRun(Next(s, steps[0], config), steps[1..], config);
    }
  }

  /** And from any overlap of any run the bytes recorded do exceed it, once both pipes have moved what they may. */
  lemma OverlapExceedsTheCap(steps: seq<Step>, config: Config, g: GrantId, c: ConnId, d: ConnId)
    requires var s := Run(EMPTY, steps, config); c in Running(s, g) && d in Running(s, g) && c != d
    ensures var s := Run(EMPTY, steps, config);
            var s' := Next(Next(s, Record(c, Running(s, g)[c]), config), Record(d, Running(s, g)[d]), config);
            BytesOf(s', g) == BytesOf(s, g) + Running(s, g)[c] + Running(s, g)[d] && BytesOf(s', g) > config.MaxBytes()
  {
    GenerousRun(EMPTY, steps, config);
    InvRun(EMPTY, steps, config);
    var s := Run(EMPTY, steps, config);
    var m, n := Running(s, g)[c], Running(s, g)[d];
    Recorded(s, c, m, config);
    Recorded(Next(s, Record(c, m), config), d, n, config);
  }

  /** A pipe that has moved n bytes: they are on the grant's record, and the other pipes copy on. */
  lemma Recorded(s: System, c: ConnId, n: nat, config: Config)
    requires Known(s, c) && s.conns[c].stage.Copying? && n <= s.conns[c].stage.remaining
    ensures var s' := Next(s, Record(c, n), config);
            && BytesOf(s', s.conns[c].grant) == BytesOf(s, s.conns[c].grant) + n
            && s'.grants.Keys == s.grants.Keys
            && (forall d :: d in s.conns && d != c ==> d in s'.conns && s'.conns[d] == s.conns[d])
  {
  }

  // ---- Sessions that open one after the other ----

  /** A sink and a source connect for grant g and are relayed. */
  function OpenSession(sink: ConnId, source: ConnId, g: GrantId): seq<Step> {
    [Arrive(sink, g, Sink), Enter(sink), Arrive(source, g, Source), Enter(source),
     Admit(source), Ack(source, true), Signal(source), Begin(source, false)]
  }

  /** Room for one more session of grant g: nobody waits, nothing is revoked, the server is not full. */
  ghost predicate Open(s: System, g: GrantId, config: Config) {
    && s.active < config.MaxConcurrent()
    && (g in s.grants ==> !s.grants[g].revoked && s.grants[g].waiting.None?)
  }

  lemma SessionParks(s: System, sink: ConnId, g: GrantId, config: Config)
    requires Open(s, g, config) && sink !in s.conns
    ensures var s2 := Next(Next(s, Arrive(sink, g, Sink), config), Enter(sink), config);
            var before := if g in s.grants then s.grants[g] else NEW_GRANT;
            && s2.active == s.active
            && s2.grants == s.grants[g := before.(waiting := Some(Parked(sink, Sink)))]
            && s2.conns == s.conns[sink := Conn(g, Sink, Parking, 0, [])]
  {
  }

  lemma SessionMeets(s: System, sink: ConnId, source: ConnId, g: GrantId, config: Config)
    requires sink in s.conns && s.conns[sink] == Conn(g, Sink, Parking, 0, []) && source !in s.conns
    requires g in s.grants && !s.grants[g].revoked && s.grants[g].waiting == Some(Parked(sink, Sink))
    ensures var s2 := Next(Next(s, Arrive(source, g, Source), config), Enter(source), config);
            && s2.active == s.active
            && s2.grants == s.grants[g := s.grants[g].(waiting := None)]
            && s2.conns == s.conns[sink := Conn(g, Sink, Parking, 0, [ByPairer(source)])][source := Conn(g, Source, Paired(sink), 0, [])]
  {
    var s1 := Next(s, Arrive(source, g, Source), config);
    assert s1.grants[g] == s.grants[g];
    var s2 := Next(s1, Enter(source), config);
    assert s2.conns[source] == Conn(g, Source, Paired(sink), 0, []);
    assert s2.conns[sink] == Conn(g, Sink, Parking, 0, [ByPairer(source)]);
  }

  /** Two new connections have been paired, and nothing else has changed. */
  ghost predicate Met(s: System, s': System, sink: ConnId, source: ConnId, g: GrantId, config: Config) {
    && Open(s', g, config) && s'.active == s.active
    && g in s'.grants && s'.grants[g] == (if g in s.grants then s.grants[g] else NEW_GRANT)
    && s'.conns.Keys == s.conns.Keys + {sink, source}
    && (forall c :: c in s.conns ==> s'.conns[c] == s.conns[c])
    && s'.conns[sink].grant == g
    && s'.conns[source] == Conn(g, Source, Paired(sink), 0, [])
  }

  /** The first four steps pair the two connections. */
  lemma SessionPairs(s: System, sink: ConnId, source: ConnId, g: GrantId, config: Config)
    requires Open(s, g, config) && sink !in s.conns && source !in s.conns && sink != source
    ensures Met(s, Run(s, OpenSession(sink, source, g)[..4], config), sink, source, g, config)
  {
    var steps := OpenSession(sink, source, g);
    SessionParks(s, sink, g, config);
    SessionMeets(Next(Next(s, steps[0], config), steps[1], config), sink, source, g, config);
    assert steps[..4] == [steps[0], steps[1], steps[2], steps[3]];
    RunFour(s, steps[..4], config);
  }

  /** A paired source now copies with all the room that was left, and only its own pair has moved. */
  ghost predicate CopiesOn(s: System, s': System, sink: ConnId, source: ConnId, g: GrantId, config: Config) {
    && s'.active == s.active + 1
    && g in s.grants && s.grants[g].bytesRelayed < config.MaxBytes()
    && g in s'.grants && s'.grants[g] == s.grants[g].(active := Some(Pair(source, sink)))
    && s'.conns.Keys == s.conns.Keys
    && (forall c :: c in s.conns && c != sink && c != source ==> s'.conns[c] == s.conns[c])
    && source in s'.conns
    && s'.conns[source] == Conn(g, Source, Copying(sink, config.MaxBytes() - s.grants[g].bytesRelayed), 0, [])
  }

  /** The last four admit the pair, greet it and start copying with all the room that is left. */
  lemma SessionCopies(s: System, sink: ConnId, source: ConnId, g: GrantId, config: Config)
    requires Open(s, g, config) && g in s.grants && sink in s.conns && source in s.conns && sink != source
    requires s.conns[sink].grant == g && s.conns[source] == Conn(g, Source, Paired(sink), 0, [])
    requires s.grants[g].bytesRelayed < config.MaxBytes()
    ensures CopiesOn(s, Run(s, OpenSession(sink, source, g)[4..], config), sink, source, g, config)
  {
    var steps := OpenSession(sink, source, g);
    var s5 := Next(s, steps[4], config);
    assert s5.conns[source] == Conn(g, Source, Admitted(sink), 0, []);
    var s6 := Next(s5, steps[5], config);
    assert s6.conns[source] == Conn(g, Source, Greeted(sink), 0, []);
    var s7 := Next(s6, steps[6], config);
    assert s7.conns[source] == Conn(g, Source, Entering(sink), 0, []);
    assert s7.conns[sink].grant == g;
    var s8 := Next(s7, steps[7], config);
    assert steps[4..] == [steps[4], steps[5], steps[6], steps[7]];
    RunFour(s, steps[4..], config);
  }

  lemma RunFour(s: System, steps: seq<Step>, config: Config)
    requires |steps| == 4
    ensures Run(s, steps, config) == Next(Next(Next(Next(s, steps[0], config), steps[1], config), steps[2], config), steps[3], config)
  {
    assert steps[1..][1..] == steps[2..] && steps[2..][1..] == steps[3..] && steps[3..][1..] == [];
    var s1 := Next(s, steps[0], config);
    var s2 := Next(s1, steps[1], config);
    assert Run(s, steps, config) == Run(s1, steps[1..], config);
    assert Run(s1, steps[1..], config) == Run(s2, steps[2..], config);
    var s3 := Next(s2, steps[2], config);
    assert Run(s2, steps[2..], config) == Run(s3, steps[3..], config);
    assert Run(Next(s3, steps[3], config), [], config) == Next(s3, steps[3], config);
  }

  /** A pair of new connections has been relayed: its pipe copies with all the room that is left. */
  ghost predicate Opened(s: System, s': System, sink: ConnId, source: ConnId, g: GrantId, config: Config) {
    && s'.active == s.active + 1
    && g in s'.grants
    && s'.grants[g] == (if g in s.grants then s.grants[g] else NEW_GRANT).(active := Some(Pair(source, sink)))
    && s'.conns.Keys == s.conns.Keys + {sink, source}
    && (forall c :: c in s.conns ==> s'.conns[c] == s.conns[c])
    && BytesOf(s, g) < config.MaxBytes()
    && s'.conns[source] == Conn(g, Source, Copying(sink, config.MaxBytes() - BytesOf(s, g)), 0, [])
  }

  lemma SessionJoins(s: System, s4: System, s8: System, sink: ConnId, source: ConnId, g: GrantId, config: Config)
    requires sink !in s.conns && source !in s.conns && BytesOf(s, g) < config.MaxBytes()
    requires Met(s, s4, sink, source, g, config) && CopiesOn(s4, s8, sink, source, g, config)
    ensures Opened(s, s8, sink, source, g, config)
  {
  }

  lemma SessionOpens(s: System, sink: ConnId, source: ConnId, g: GrantId, config: Config)
    requires Open(s, g, config) && sink !in s.conns && source !in s.conns && sink != source
    requires BytesOf(s, g) < config.MaxBytes()
    ensures Opened(s, Run(s, OpenSession(sink, source, g), config), sink, source, g, config)
  {
    var s4 := Run(s, OpenSession(sink, source, g)[..4], config);
    SessionPairs(s, sink, source, g, config);
    SessionCopies(s4, sink, source, g, config);
    SessionRun(s, sink, source, g, config);
    SessionJoins(s, s4, Run(s4, OpenSession(sink, source, g)[4..], config), sink, source, g, config);
  }

  lemma SessionRun(s: System, sink: ConnId, source: ConnId, g: GrantId, config: Config)
    ensures var steps := OpenSession(sink, source, g);
            Run(s, steps, config) == Run(Run(s, steps[..4], config), steps[4..], config)
  {
    var steps := OpenSession(sink, source, g);
    assert steps == steps[..4] + steps[4..];
    RunSplit(s, steps[..4], steps[4..], config);
  }

  // ---- Every factor is attained ----

  /** The first k sessions of grant g: session i uses connections 2i and 2i + 1. */
  function OpenAll(g: GrantId, k: nat): seq<Step> {
    if k == 0 then [] else OpenAll(g, k - 1) + OpenSession(2 * (k - 1), 2 * (k - 1) + 1, g)
  }

  /** The first k sessions copy, each with the whole cap before it; the first j of them have already moved it. */
  ghost predicate AllOpen(s: System, g: GrantId, k: nat, j: nat, config: Config) {
    && s.active == k && (forall c :: c in s.conns ==> c < 2 * k)
    && BytesOf(s, g) == j * config.MaxBytes()
    && (g in s.grants ==> !s.grants[g].revoked && s.grants[g].waiting.None?)
    && (k > 0 ==> g in s.grants)
    && (forall i: nat :: j <= i < k ==>
          2 * i + 1 in s.conns && s.conns[2 * i + 1] == Conn(g, Source, Copying(2 * i, config.MaxBytes()), 0, []))
  }

  lemma {:induction false} AllSessionsOpen(g: GrantId, k: nat, config: Config)
    requires k <= config.MaxConcurrent()
    ensures AllOpen(Run(EMPTY, OpenAll(g, k), config), g, k, 0, config)
    decreases k
  {
    if k > 0 {
      AllSessionsOpen(g, k - 1, config);
      var s := Run(EMPTY, OpenAll(g, k - 1), config);
      RunSplit(EMPTY, OpenAll(g, k - 1), OpenSession(2 * (k - 1), 2 * (k - 1) + 1, g), config);
      SessionOpens(s, 2 * (k - 1), 2 * (k - 1) + 1, g, config);
      OneMoreOpen(s, Run(EMPTY, OpenAll(g, k), config), g, k, config);
    }
  }

  lemma OneMoreOpen(s: System, s': System, g: GrantId, k: nat, config: Config)
    requires k > 0 && AllOpen(s, g, k - 1, 0, config) && Opened(s, s', 2 * (k - 1), 2 * (k - 1) + 1, g, config)
    ensures AllOpen(s', g, k, 0, config)
  {
    assert BytesOf(s, g) == 0;
    forall i: nat | i < k
      ensures 2 * i + 1 in s'.conns && s'.conns[2 * i + 1] == Conn(g, Source, Copying(2 * i, config.MaxBytes()), 0, [])
    {
    }
  }

  /** Then each of them moves all it may. */
  function RecordAll(k: nat, max: nat): seq<Step> {
    if k == 0 then [] else RecordAll(k - 1, max) + [Record(2 * (k - 1) + 1, max)]
  }

  lemma {:induction false} AllRecorded(s: System, g: GrantId, k: nat, j: nat, config: Config)
    requires j <= k && AllOpen(s, g, k, 0, config)
    ensures AllOpen(Run(s, RecordAll(j, config.MaxBytes()), config), g, k, j, config)
    decreases j
  {
    if j > 0 {
      var max := config.MaxBytes();
      AllRecorded(s, g, k, j - 1, config);
      var t := Run(s, RecordAll(j - 1, max), config);
      var last := Record(2 * (j - 1) + 1, max);
      RunSplit(s, RecordAll(j - 1, max), [last], config);
      assert Run(Next(t, last, config), [], config) == Next(t, last, config);
      OneMoreRecorded(t, g, k, j, config);
    }
  }

  lemma OneMoreRecorded(t: System, g: GrantId, k: nat, j: nat, config: Config)
    requires 0 < j <= k && AllOpen(t, g, k, j - 1, config)
    ensures AllOpen(Next(t, Record(2 * (j - 1) + 1, config.MaxBytes()), config), g, k, j, config)
  {
    var max := config.MaxBytes();
    assert t.conns[2 * (j - 1) + 1] == Conn(g, Source, Copying(2 * (j - 1), max), 0, []);
    OneMore(j - 1, max);
  }

  function Begins(steps: seq<Step>): nat {
    if steps == [] then 0 else Begins(steps[1..]) + if steps[0].Begin? then 1 else 0
  }

  /** Only a beginning adds a pipe. */
  lemma BeginsAddOne(s: System, step: Step, config: Config, g: GrantId)
    ensures |Running(Next(s, step, config), g)| <= |Running(s, g)| + if step.Begin? then 1 else 0
  {
    if step.Revoke? || step.RevokeSignal? || step.Arrive? || !Known(s, step.c) {
      RunningQuiet(s, step, config, g);
    } else {
      StepMovesOne(s, step, config);
      OnlyBeginStarts(s, step, config);
      RunningChange(s, Next(s, step, config), step.c, g);
      var r, r' := Running(s, g), Running(Next(s, step, config), g);
      assert r'.Keys <= r.Keys + {step.c};
      if step.Begin? {
        SubsetSize(r'.Keys, r.Keys + {step.c});
        assert |r.Keys + {step.c}| <= |r.Keys| + 1;
      } else {
        assert r'.Keys <= r.Keys;
        SubsetSize(r'.Keys, r.Keys);
      }
    }
  }

  lemma OnlyBeginStarts(s: System, step: Step, config: Config)
    requires !step.Revoke? && !step.RevokeSignal? && !step.Arrive? && Known(s, step.c)
    ensures Next(s, step, config).conns[step.c].stage.Copying? && !s.conns[step.c].stage.Copying? ==> step.Begin?
  {
  }

  lemma {:induction false} OverlapByBegins(s: System, steps: seq<Step>, config: Config, g: GrantId, k: nat)
    requires |Running(s, g)| + Begins(steps) <= k
    ensures OverlapAtMost(s, steps, config, g, k)
    decreases |steps|
  {
    if steps != [] {
      BeginsAddOne(s, steps[0], config, g);
      OverlapByBegins(Next(s, steps[0], config), steps[1..], config, g, k);
    }
  }

  lemma {:induction false} BeginsAppend(xs: seq<Step>, ys: seq<Step>)
    ensures Begins(xs + ys) == Begins(xs) + Begins(ys)
    decreases |xs|
  {
    if xs == [] {
      assert xs + ys == ys;
    } else {
      assert (xs + ys)[1..] == xs[1..] + ys;
      BeginsAppend(xs[1..], ys);
    }
  }

  lemma {:induction false} BeginsOfAll(g: GrantId, k: nat, max: nat)
    ensures Begins(OpenAll(g, k)) == k && Begins(RecordAll(k, max)) == 0
    decreases k
  {
    if k > 0 {
      BeginsOfAll(g, k - 1, max);
      var open := OpenSession(2 * (k - 1), 2 * (k - 1) + 1, g);
      BeginsAppend(OpenAll(g, k - 1), open);
      BeginsAppend(RecordAll(k - 1, max), [Record(2 * (k - 1) + 1, max)]);
      assert Begins(open) == 1 by {
        BeginsAppend(open[..4], open[4..]);
        assert open == open[..4] + open[4..];
        assert open[..4] == [open[0], open[1], open[2], open[3]] && open[4..] == [open[4], open[5], open[6], open[7]];
        BeginsOfFour(open[0], open[1], open[2], open[3]);
        BeginsOfFour(open[4], open[5], open[6], open[7]);
      }
    }
  }

  lemma BeginsOfFour(a: Step, b: Step, c: Step, d: Step)
    ensures Begins([a, b, c, d])
         == (if a.Begin? then 1 else 0) + (if b.Begin? then 1 else 0) + (if c.Begin? then 1 else 0) + (if d.Begin? then 1 else 0)
  {
    assert [a, b, c, d][1..] == [b, c, d] && [b, c, d][1..] == [c, d] && [c, d][1..] == [d] && [d][1..] == [];
    assert Begins([]) == 0;
    assert Begins([d]) == if d.Begin? then 1 else 0;
    assert Begins([c, d]) == Begins([d]) + if c.Begin? then 1 else 0;
    assert Begins([b, c, d]) == Begins([c, d]) + if b.Begin? then 1 else 0;
  }

  /**
   The factor of `BytesAreBounded` is attained for every k the server admits: there is a run in which at
   most k sessions of a grant ever overlap and exactly k times the cap is recorded for it.
   */
  lemma EveryFactorIsAttained(g: GrantId, k: nat, config: Config)
    requires k <= config.MaxConcurrent()
    ensures var steps := OpenAll(g, k) + RecordAll(k, config.MaxBytes());
            && OverlapAtMost(EMPTY, steps, config, g, k)
            && BytesOf(Run(EMPTY, steps, config), g) == k * config.MaxBytes()
  {
    var max := config.MaxBytes();
    AllSessionsOpen(g, k, config);
    RunSplit(EMPTY, OpenAll(g, k), RecordAll(k, max), config);
    AllRecorded(Run(EMPTY, OpenAll(g, k), config), g, k, k, config);
    BeginsOfAll(g, k, max);
    BeginsAppend(OpenAll(g, k), RecordAll(k, max));
    assert Running(EMPTY, g) == map[];
    OverlapByBegins(EMPTY, OpenAll(g, k) + RecordAll(k, max), config, g, k);
  }

  // ---- What a revocation tears down ----

  predicate HoldsSlot(s: System, g: GrantId, c: ConnId) {
    c in s.conns && s.conns[c].grant == g && (s.conns[c].stage.Copying? || s.conns[c].stage.Draining?)
  }

  /** At every point of the run at most one session of the grant is between its budget and its cleanup. */
  ghost predicate OneAtATime(s: System, steps: seq<Step>, config: Config, g: GrantId)
    decreases |steps|
  {
    && (forall c, d :: HoldsSlot(s, g, c) && HoldsSlot(s, g, d) ==> c == d)
    && (steps == [] || OneAtATime(Next(s, steps[0], config), steps[1..], config, g))
  }

  /** Every running session of the grant is the one a revocation would close. */
  ghost predicate SlotIsHeld(s: System, g: GrantId) {
    forall c :: HoldsSlot(s, g, c) ==>
      g in s.grants && s.grants[g].active == Some(PairOf(c, s.conns[c].role, s.conns[c].stage.peer))
  }

  lemma SlotNext(s: System, step: Step, config: Config, g: GrantId)
    requires SlotIsHeld(s, g) && OneAtATime(s, [step], config, g)
    ensures SlotIsHeld(Next(s, step, config), g)
  {
    var s' := Next(s, step, config);
    assert OneAtATime(s', [step][1..], config, g);
    if !step.Arrive? && !step.Revoke? && !step.RevokeSignal? && Known(s, step.c) {
      StepMovesOne(s, step, config);
      SlotOwnStep(s, step, config);
      forall c | HoldsSlot(s', g, c)
        ensures g in s'.grants && s'.grants[g].active == Some(PairOf(c, s'.conns[c].role, s'.conns[c].stage.peer))
      {
        if c != step.c { assert HoldsSlot(s, g, c); }
      }
    }
  }

  /** Only beginning and clearing write the slot, and each goes with its goroutine's own stage. */
  ghost predicate SlotFollows(s: System, s': System, c: ConnId)
    requires Known(s, c) && c in s'.conns && s.grants.Keys <= s'.grants.Keys && s.conns.Keys <= s'.conns.Keys
  {
    var g := s.conns[c].grant;
    && (forall h :: h in s.grants && h != g ==> s'.grants[h].active == s.grants[h].active)
    && (forall d :: d in s.conns ==> s'.conns[d].role == s.conns[d].role)
    && (HoldsSlot(s', g, c) && !HoldsSlot(s, g, c) ==>
          s'.grants[g].active == Some(PairOf(c, s'.conns[c].role, s'.conns[c].stage.peer)))
    && (HoldsSlot(s', g, c) && HoldsSlot(s, g, c) ==>
          s'.conns[c].stage.peer == s.conns[c].stage.peer && s'.grants[g].active == s.grants[g].active)
    && (s'.grants[g].active != s.grants[g].active ==> HoldsSlot(s, g, c) || HoldsSlot(s', g, c))
  }

  lemma SlotEnter(s: System, c: ConnId)
    requires Known(s, c) && s.conns[c].stage.Arrived?
    ensures var s' := NextEnter(s, c);
            s.grants.Keys <= s'.grants.Keys && s.conns.Keys <= s'.conns.Keys && SlotFollows(s, s', c)
  {
  }

  lemma SlotExpire(s: System, c: ConnId)
    requires Known(s, c) && s.conns[c].stage.TimerFired?
    ensures var s' := NextExpire(s, c);
            s.grants.Keys <= s'.grants.Keys && s.conns.Keys <= s'.conns.Keys && SlotFollows(s, s', c)
  {
  }

  lemma SlotSignal(s: System, c: ConnId, peer: ConnId, stage: Stage)
    requires Known(s, c) && OwesSignal(s.conns[c].stage) && (stage.Finished? || stage.Entering?)
    ensures var s' := NextSignal(s, c, peer, stage);
            s.grants.Keys <= s'.grants.Keys && s.conns.Keys <= s'.conns.Keys && SlotFollows(s, s', c)
  {
  }

  lemma SlotPairing(s: System, step: Step)
    requires !step.Arrive? && !step.Revoke? && !step.RevokeSignal? && Known(s, step.c)
    ensures var s' := NextPairing(s, step);
            && s.grants.Keys <= s'.grants.Keys && s.conns.Keys <= s'.conns.Keys
            && SlotFollows(s, s', step.c)
  {
    match (step, s.conns[step.c].stage)
    case (Enter(c), Arrived) => SlotEnter(s, c);
    case (Expire(c), TimerFired) => SlotExpire(s, c);
    case (Signal(c), Failing(peer)) => SlotSignal(s, c, peer, Finished);
    case (Signal(c), Greeted(peer)) => SlotSignal(s, c, peer, Entering(peer));
    case _ =>
  }

  lemma SlotBegin(s: System, c: ConnId, peer: ConnId, expired: bool, max: nat)
    requires Known(s, c) && s.conns[c].stage == Entering(peer)
    ensures var s' := NextBegin(s, c, peer, expired, max);
            s.grants.Keys <= s'.grants.Keys && s.conns.Keys <= s'.conns.Keys && SlotFollows(s, s', c)
  {
  }

  lemma SlotSession(s: System, step: Step, config: Config)
    requires !step.Arrive? && !step.Revoke? && !step.RevokeSignal? && Known(s, step.c)
    ensures var s' := NextSession(s, step, config);
            && s.grants.Keys <= s'.grants.Keys && s.conns.Keys <= s'.conns.Keys
            && SlotFollows(s, s', step.c)
  {
    if step.Begin? && s.conns[step.c].stage.Entering? {
      SlotBegin(s, step.c, s.conns[step.c].stage.peer, step.expired, config.MaxBytes());
    }
  }

  lemma SlotOwnStep(s: System, step: Step, config: Config)
    requires !step.Arrive? && !step.Revoke? && !step.RevokeSignal? && Known(s, step.c)
    ensures var s' := Next(s, step, config);
            && s.grants.Keys <= s'.grants.Keys && s.conns.Keys <= s'.conns.Keys
            && SlotFollows(s, s', step.c)
  {
    if step.Enter? || step.Wake? || step.Timer? || step.Expire? || step.Signal? {
      SlotPairing(s, step);
    } else {
      SlotSession(s, step, config);
    }
  }

  /**
   As long as a grant's sessions never overlap, every pipe that copies is the one the grant's record
   names, so a revocation closes it.
   */
  lemma {:induction false} RevocationReachesASoleSession(s: System, steps: seq<Step>, config: Config, g: GrantId)
    requires SlotIsHeld(s, g) && OneAtATime(s, steps, config, g)
    ensures SlotIsHeld(Run(s, steps, config), g)
    decreases |steps|
  {
    if steps != [] {
      var s' := Next(s, steps[0], config);
      assert OneAtATime(s', [], config, g) by { assert OneAtATime(s', steps[1..], config, g); }
      assert [steps[0]][1..] == [];
      SlotNext(s, steps[0], config, g);
      RevocationReachesASoleSession(s', steps[1..], config, g);
    }
  }

  // ---- What it misses ----

  /** A goroutine that owns a peer is the one that took it; and who has been taken runs no session. */
  ghost predicate PeersAreTaken(s: System) {
    && (forall c :: c in s.conns && s.conns[c].takers != [] ==>
          s.conns[c].stage.Parking? || s.conns[c].stage.TimerFired? || s.conns[c].stage.Finished?)
    && (forall c :: c in s.conns && OwnsPeer(s.conns[c].stage) ==>
          s.conns[c].stage.peer in s.conns && s.conns[s.conns[c].stage.peer].takers != [])
  }

  predicate OwnsPeer(stage: Stage) {
    !stage.Arrived? && !stage.Parking? && !stage.TimerFired? && !stage.Finished?
  }

  lemma TakenPairing(s: System, step: Step)
    requires Inv(s) && PeersAreTaken(s)
    requires !step.Arrive? && !step.Revoke? && !step.RevokeSignal? && Known(s, step.c)
    ensures PeersAreTaken(NextPairing(s, step))
  {
    match (step, s.conns[step.c].stage)
    case (Enter(c), Arrived) => TakenEnter(s, c);
    case (Expire(c), TimerFired) => TakenExpire(s, c);
    case (Signal(c), Failing(peer)) => TakenSignal(s, c, peer, Finished);
    case (Signal(c), Greeted(peer)) => TakenSignal(s, c, peer, Entering(peer));
    case _ =>
  }

  lemma TakenExpire(s: System, c: ConnId)
    requires Inv(s) && PeersAreTaken(s) && Known(s, c) && s.conns[c].stage.TimerFired?
    ensures PeersAreTaken(NextExpire(s, c))
  {
  }

  lemma TakenSignal(s: System, c: ConnId, peer: ConnId, stage: Stage)
    requires PeersAreTaken(s) && Known(s, c) && OwnsPeer(s.conns[c].stage) && s.conns[c].stage.peer == peer
    requires s.conns[c].takers == [] && (stage.Finished? || stage == Entering(peer))
    ensures PeersAreTaken(NextSignal(s, c, peer, stage))
  {
  }

  lemma TakenEnter(s: System, c: ConnId)
    requires Inv(s) && PeersAreTaken(s) && Known(s, c) && s.conns[c].stage.Arrived?
    ensures PeersAreTaken(NextEnter(s, c))
  {
    var s', g := NextEnter(s, c), s.grants[s.conns[c].grant];
    if EnterSection(g, c, s.conns[c].role).1.PairWith? {
      var p := g.waiting.value.conn;
      assert p != c && s'.conns[p] == s.conns[p].(takers := [ByPairer(c)]);
    }
  }

  lemma TakenSession(s: System, step: Step, config: Config)
    requires PeersAreTaken(s)
    requires !step.Arrive? && !step.Revoke? && !step.RevokeSignal? && Known(s, step.c)
    ensures PeersAreTaken(NextSession(s, step, config))
  {
  }

  lemma TakenOther(s: System, step: Step, config: Config)
    requires Inv(s) && PeersAreTaken(s)
    requires step.Arrive? || step.Revoke? || step.RevokeSignal? || !Known(s, step.c)
    ensures PeersAreTaken(Next(s, step, config))
  {
  }

  lemma TakenNext(s: System, step: Step, config: Config)
    requires Inv(s) && PeersAreTaken(s)
    ensures PeersAreTaken(Next(s, step, config))
  {
    if step.Arrive? || step.Revoke? || step.RevokeSignal? || !Known(s, step.c) {
      TakenOther(s, step, config);
    } else if step.Enter? || step.Wake? || step.Timer? || step.Expire? || step.Signal? {
      TakenPairing(s, step);
    } else {
      TakenSession(s, step, config);
    }
  }

  /** Of two sessions between budget and cleanup the grant's record names at most one. */
  lemma OneRecordNamesOneSession(s: System, g: GrantId, c: ConnId, d: ConnId)
    requires PeersAreTaken(s) && HoldsSlot(s, g, c) && HoldsSlot(s, g, d) && c != d
    ensures PairOf(c, s.conns[c].role, s.conns[c].stage.peer) != PairOf(d, s.conns[d].role, s.conns[d].stage.peer)
  {
  }

  /** At every point of the run the record names every session a revocation would have to close. */
  ghost predicate AlwaysReached(s: System, steps: seq<Step>, config: Config, g: GrantId)
    decreases |steps|
  {
    SlotIsHeld(s, g) && (steps == [] || AlwaysReached(Next(s, steps[0], config), steps[1..], config, g))
  }

  lemma {:induction false} ReachFrom(s: System, steps: seq<Step>, config: Config, g: GrantId)
    requires Inv(s) && PeersAreTaken(s) && SlotIsHeld(s, g)
    ensures AlwaysReached(s, steps, config, g) <==> OneAtATime(s, steps, config, g)
    decreases |steps|
  {
    forall c, d | HoldsSlot(s, g, c) && HoldsSlot(s, g, d) ensures c == d {
      if c != d {
        OneRecordNamesOneSession(s, g, c, d);
      }
    }
    if steps != [] {
      var s' := Next(s, steps[0], config);
      InvNext(s, steps[0], config);
      TakenNext(s, steps[0], config);
      if SlotIsHeld(s', g) {
        ReachFrom(s', steps[1..], config, g);
      } else if OneAtATime(s', steps[1..], config, g) {
        assert OneAtATime(s', [], config, g);
        assert [steps[0]][1..] == [];
        SlotNext(s, steps[0], config, g);
      }
    }
  }

  /**
   The reach of a revocation, exactly: over a whole run the record names every session between its budget
   and its cleanup, so that a revocation at any moment closes all there is, if and only if no two sessions of
   the grant ever overlapped.
   */
  lemma RevocationReachesAllExactlyWithoutOverlap(steps: seq<Step>, config: Config, g: GrantId)
    ensures AlwaysReached(EMPTY, steps, config, g) <==> OneAtATime(EMPTY, steps, config, g)
  {
    ReachFrom(EMPTY, steps, config, g);
  }

  lemma {:induction false} TakenRun(s: System, steps: seq<Step>, config: Config)
    requires Inv(s) && PeersAreTaken(s)
    ensures PeersAreTaken(Run(s, steps, config))
    decreases |steps|
  {
    if steps != [] {
      InvNext(s, steps[0], config);
      TakenNext(s, steps[0], config);
      TakenRun(Next(s, steps[0], config), steps[1..], config);
    }
  }

  /** In any overlap of any run a revocation misses a session, which goes on as it was. */
  lemma RevocationMissesAnOverlap(steps: seq<Step>, config: Config, g: GrantId, c: ConnId, d: ConnId)
    requires var s := Run(EMPTY, steps, config); HoldsSlot(s, g, c) && HoldsSlot(s, g, d) && c != d
    ensures var s := Run(EMPTY, steps, config);
            exists e :: (e == c || e == d) && Missed(s, Next(s, Revoke(g), config), g, e)
  {
    TakenRun(EMPTY, steps, config);
    InvRun(EMPTY, steps, config);
    var s := Run(EMPTY, steps, config);
    OneRecordNamesOneSession(s, g, c, d);
    var e := if s.grants[g].active == Some(PairOf(c, s.conns[c].role, s.conns[c].stage.peer)) then d else c;
    RevocationMovesNobody(s, g, e, config);
    assert Missed(s, Next(s, Revoke(g), config), g, e);
  }

  lemma RevocationMovesNobody(s: System, g: GrantId, e: ConnId, config: Config)
    requires HoldsSlot(s, g, e)
    ensures HoldsSlot(Next(s, Revoke(g), config), g, e) && Next(s, Revoke(g), config).conns[e].stage == s.conns[e].stage
  {
    OtherStepsMoveNone(s, Revoke(g), config, e);
  }

  /** The revocation's section does not take this session's pair, and the session goes on. */
  ghost predicate Missed(s: System, s': System, g: GrantId, e: ConnId) {
    && HoldsSlot(s, g, e) && HoldsSlot(s', g, e) && s'.conns[e].stage == s.conns[e].stage
    && (g in s.grants ==> s.grants[g].active != Some(PairOf(e, s.conns[e].role, s.conns[e].stage.peer)))
  }
}
