/**
 How safe a file is: counting the Bridges that hold it without letting repeated, contradictory or stale
 claims inflate the count, and adding the counts up over a collection.
 */
module Risk {
  import opened Wrappers

  type Alias = nat
  type FileId = nat

  datatype Availability = Available | Offline | Stale | Removed

  /** One Bridge's claim. `verified` is none when it was never verified; an empty domain is unknown. */
  datatype Replica = Replica(alias: Alias, domain: string, availability: Availability, verified: Option<int>)

  datatype Rules = Rules(window: int, atRiskAt: int, fragileAt: int, resilientAt: int)

  datatype RiskState = RiskMissing | RiskUnavailable | RiskStale | RiskAtRisk | RiskFragile | RiskResilient

  datatype Assessment = Assessment(confirmed: nat, online: nat, independent: nat, risk: RiskState)

  const UNKNOWN := "unknown"

  /** Verified inside the window, and not in the future. */
  predicate Recent(r: Replica, rules: Rules, now: int) {
    r.verified.Some? && now - rules.window <= r.verified.value <= now
  }

  function Domain(r: Replica): string { if r.domain == "" then UNKNOWN else r.domain }

  // ---- What the counts mean, over the claims as a set ----

  function Claims(replicas: seq<Replica>): set<Replica> { set r | r in replicas }

  predicate Backed(r: Replica, a: Alias, rules: Rules, now: int) {
    r.alias == a && r.availability.Available? && Recent(r, rules, now)
  }

  predicate Gone(rs: set<Replica>, a: Alias) { exists r :: r in rs && r.alias == a && r.availability.Removed? }

  predicate Present(rs: set<Replica>, a: Alias) { exists r :: r in rs && r.alias == a && !r.availability.Removed? }

  predicate Serving(rs: set<Replica>, a: Alias) { exists r :: r in rs && r.alias == a && r.availability.Available? }

  /** The failure domains a Bridge's recent, available claims name. */
  function Domains(rs: set<Replica>, a: Alias, rules: Rules, now: int): set<string> {
    set r | r in rs && Backed(r, a, rules, now) :: Domain(r)
  }

  /**
   Which claims back a domain: those of the Bridge that say available and were verified no longer ago than the
   window and not in the future; a claim that names no domain backs the unknown one.
   */
  lemma DomainsAreOfFreshClaims(rs: set<Replica>, a: Alias, d: string, rules: Rules, now: int)
    ensures d in Domains(rs, a, rules, now)
       <==> exists r :: r in rs && r.alias == a && r.availability == Available
              && r.verified.Some? && r.verified.value <= now && now - r.verified.value <= rules.window
              && d == if r.domain == "" then "unknown" else r.domain
  {
    if d in Domains(rs, a, rules, now) {
      var r :| r in rs && Backed(r, a, rules, now) && d == Domain(r);
    }
    if r :| r in rs && r.alias == a && r.availability == Available
            && r.verified.Some? && r.verified.value <= now && now - r.verified.value <= rules.window
            && d == if r.domain == "" then "unknown" else r.domain {
      assert Backed(r, a, rules, now) && d == Domain(r);
    }
  }

  /** A Bridge some claim names and no claim removes. */
  predicate Confirmed(rs: set<Replica>, a: Alias) { !Gone(rs, a) && Present(rs, a) }

  /** A Bridge counts for its one domain; one that names several counts as unknown. */
  ghost function Bucket(ds: set<string>): Option<string> {
    if ds == {} then None
    else if |ds| == 1 then (var d :| d in ds; Some(d))
    else Some(UNKNOWN)
  }

  function Aliases(rs: set<Replica>): set<Alias> { set r | r in rs :: r.alias }

  function ConfirmedIn(rs: set<Replica>, among: set<Alias>): set<Alias> { set a | a in among && Confirmed(rs, a) }

  function OnlineIn(rs: set<Replica>, among: set<Alias>): set<Alias> {
    set a | a in among && Confirmed(rs, a) && Serving(rs, a)
  }

  /** The confirmed Bridges with a recent copy. */
  ghost function BackersIn(rs: set<Replica>, among: set<Alias>, rules: Rules, now: int): set<Alias> {
    set a | a in among && Confirmed(rs, a) && Domains(rs, a, rules, now) != {}
  }

  ghost function BucketOf(rs: set<Replica>, a: Alias, rules: Rules, now: int): string {
    var b := Bucket(Domains(rs, a, rules, now));
    if b.Some? then b.value else UNKNOWN
  }

  /** The failure domains that would all have to fail. */
  ghost function BucketsIn(rs: set<Replica>, among: set<Alias>, rules: Rules, now: int): set<string> {
    set a | a in BackersIn(rs, among, rules, now) :: BucketOf(rs, a, rules, now)
  }

  function Classify(confirmed: nat, online: nat, independent: nat, rules: Rules): RiskState {
    if confirmed == 0 then RiskMissing
    else if independent >= rules.resilientAt then RiskResilient
    else if independent >= rules.fragileAt then RiskFragile
    else if independent >= rules.atRiskAt then RiskAtRisk
    else if online > 0 then RiskStale
    else RiskUnavailable
  }

  /** The position of a file, from the set of claims alone. */
  ghost function Assessed(rs: set<Replica>, rules: Rules, now: int): Assessment {
    var all := Aliases(rs);
    var c, o, i := |ConfirmedIn(rs, all)|, |OnlineIn(rs, all)|, |BucketsIn(rs, all, rules, now)|;
    Assessment(c, o, i, Classify(c, o, i, rules))
  }

  // ---- Counting ----

  datatype Summary = Summary(removed: bool, present: bool, online: bool, recent: set<string>)

  const EMPTY := Summary(false, false, false, {})

  function SummaryOf(rs: set<Replica>, a: Alias, rules: Rules, now: int): Summary {
    Summary(Gone(rs, a), Present(rs, a), Serving(rs, a), Domains(rs, a, rules, now))
  }

  /** What one more claim adds to its Bridge's summary. */
  function Noted(s: Summary, r: Replica, rules: Rules, now: int): Summary {
    if r.availability.Removed? then s.(removed := true)
    else
      var seen := s.(present := true, online := s.online || r.availability.Available?);
      if Recent(r, rules, now) && r.availability.Available? then seen.(recent := seen.recent + {Domain(r)}) else seen
  }

  lemma NotedIsSummary(rs: set<Replica>, r: Replica, rules: Rules, now: int)
    ensures SummaryOf(rs + {r}, r.alias, rules, now) == Noted(SummaryOf(rs, r.alias, rules, now), r, rules, now)
  {
    var more := rs + {r};
    assert r in more;
    assert forall x :: x in more <==> x in rs || x == r;
    assert Gone(more, r.alias) <==> Gone(rs, r.alias) || r.availability.Removed?;
    assert Present(more, r.alias) <==> Present(rs, r.alias) || !r.availability.Removed?;
    assert Serving(more, r.alias) <==> Serving(rs, r.alias) || r.availability.Available?;
    assert Domains(more, r.alias, rules, now)
      == Domains(rs, r.alias, rules, now) + (if Backed(r, r.alias, rules, now) then {Domain(r)} else {});
  }

  lemma OthersKeepTheirSummary(rs: set<Replica>, r: Replica, a: Alias, rules: Rules, now: int)
    requires a != r.alias
    ensures SummaryOf(rs + {r}, a, rules, now) == SummaryOf(rs, a, rules, now)
  {
    var more := rs + {r};
    assert forall x :: x in more && x.alias == a <==> x in rs && x.alias == a;
    assert Domains(more, a, rules, now) == Domains(rs, a, rules, now);
  }

  lemma UnheardOf(rs: set<Replica>, a: Alias, rules: Rules, now: int)
    requires a !in Aliases(rs)
    ensures SummaryOf(rs, a, rules, now) == EMPTY
  {
  }

  /** Gather each Bridge's claims. */
  method Summarize(replicas: seq<Replica>, rules: Rules, now: int) returns (byBridge: map<Alias, Summary>)
    ensures byBridge.Keys == Aliases(Claims(replicas))
    ensures forall a :: a in byBridge ==> byBridge[a] == SummaryOf(Claims(replicas), a, rules, now)
  {
    byBridge := map[];
    for k := 0 to |replicas|
      invariant byBridge.Keys == Aliases(Claims(replicas[..k]))
      invariant forall a :: a in byBridge ==> byBridge[a] == SummaryOf(Claims(replicas[..k]), a, rules, now)
    {
      var r := replicas[k];
      ghost var rs := Claims(replicas[..k]);
      assert Claims(replicas[..k + 1]) == rs + {r};
      var s := if r.alias in byBridge then byBridge[r.alias] else EMPTY;
      if r.alias !in byBridge {
        UnheardOf(rs, r.alias, rules, now);
      }
      NotedIsSummary(rs, r, rules, now);
      forall a | a in byBridge && a != r.alias
        ensures byBridge[a] == SummaryOf(rs + {r}, a, rules, now)
      {
        OthersKeepTheirSummary(rs, r, a, rules, now);
      }
      AliasesGrow(rs, r);
      byBridge := byBridge[r.alias := Noted(s, r, rules, now)];
    }
    assert replicas[..|replicas|] == replicas;
  }

  lemma AliasesGrow(rs: set<Replica>, r: Replica)
    ensures Aliases(rs + {r}) == Aliases(rs) + {r.alias}
  {
    assert r in rs + {r};
  }

  lemma OneMember(ds: set<string>, d: string)
    requires |ds| == 1 && d in ds
    ensures Bucket(ds) == Some(d)
  {
    assert |ds - {d}| == 0;
  }

  /** One Bridge's part in the counts: it can never back more than one domain. */
  method AddBridge(s: Summary, confirmed: nat, online: nat, domains: set<string>)
    returns (confirmed': nat, online': nat, domains': set<string>)
    ensures confirmed' == confirmed + if !s.removed && s.present then 1 else 0
    ensures online' == online + if !s.removed && s.present && s.online then 1 else 0
    ensures domains' == domains + if !s.removed && s.present && s.recent != {} then {Bucket(s.recent).value} else {}
  {
    confirmed', online', domains' := confirmed, online, domains;
    if s.removed || !s.present {
      return;
    }
    confirmed' := confirmed' + 1;
    if s.online {
      online' := online' + 1;
    }
    if |s.recent| == 1 {
      var d :| d in s.recent;
      OneMember(s.recent, d);
      domains' := domains' + {d};
    } else if |s.recent| > 1 {
      domains' := domains' + {UNKNOWN};
    }
  }

  /** The counts over the Bridges looked at so far. */
  ghost predicate Tallied(
    rs: set<Replica>, done: set<Alias>, confirmed: nat, online: nat, domains: set<string>, rules: Rules, now: int)
  {
    && confirmed == |ConfirmedIn(rs, done)| && online == |OnlineIn(rs, done)|
    && domains == BucketsIn(rs, done, rules, now)
  }

  lemma NothingTallied(rs: set<Replica>, rules: Rules, now: int)
    ensures Tallied(rs, {}, 0, 0, {}, rules, now)
  {
    assert ConfirmedIn(rs, {}) == {} && OnlineIn(rs, {}) == {};
  }

  lemma TallyGrows(
    rs: set<Replica>, done: set<Alias>, b: Alias, confirmed: nat, online: nat, domains: set<string>, rules: Rules, now: int)
    requires Tallied(rs, done, confirmed, online, domains, rules, now) && b !in done
    ensures var s := SummaryOf(rs, b, rules, now);
            Tallied(rs, done + {b},
                    confirmed + if !s.removed && s.present then 1 else 0,
                    online + if !s.removed && s.present && s.online then 1 else 0,
                    domains + if !s.removed && s.present && s.recent != {} then {Bucket(s.recent).value} else {},
                    rules, now)
  {
    ConfirmedGrow(rs, done, b);
    OnlineGrow(rs, done, b);
    BucketsGrow(rs, done, b, rules, now);
  }

  /** Walk the summaries in whatever order the map yields them. */
  method CountBridges(byBridge: map<Alias, Summary>, ghost rs: set<Replica>, ghost rules: Rules, ghost now: int)
    returns (confirmed: nat, online: nat, domains: set<string>)
    requires forall a :: a in byBridge ==> byBridge[a] == SummaryOf(rs, a, rules, now)
    ensures Tallied(rs, byBridge.Keys, confirmed, online, domains, rules, now)
  {
    confirmed, online, domains := 0, 0, {};
    ghost var done: set<Alias> := {};
    var left := byBridge.Keys;
    NothingTallied(rs, rules, now);
    while left != {}
      invariant done !! left && done + left == byBridge.Keys
      invariant Tallied(rs, done, confirmed, online, domains, rules, now)
    {
      var b :| b in left;
      left := left - {b};
      TallyGrows(rs, done, b, confirmed, online, domains, rules, now);
      done := done + {b};
      confirmed, online, domains := AddBridge(byBridge[b], confirmed, online, domains);
    }
    assert done == byBridge.Keys;
  }

  /** The assessment depends on nothing but which claims there are: not on their order, nor on repeats. */
  method Assess(replicas: seq<Replica>, rules: Rules, now: int) returns (a: Assessment)
    ensures a == Assessed(Claims(replicas), rules, now)
  {
    var byBridge := Summarize(replicas, rules, now);
    var confirmed, online, domains := CountBridges(byBridge, Claims(replicas), rules, now);
    a := Assessment(confirmed, online, |domains|, Classify(confirmed, online, |domains|, rules));
  }

  lemma ConfirmedGrow(rs: set<Replica>, done: set<Alias>, b: Alias)
    requires b !in done
    ensures |ConfirmedIn(rs, done + {b})| == |ConfirmedIn(rs, done)| + if Confirmed(rs, b) then 1 else 0
  {
    assert ConfirmedIn(rs, done + {b}) == ConfirmedIn(rs, done) + if Confirmed(rs, b) then {b} else {};
  }

  lemma OnlineGrow(rs: set<Replica>, done: set<Alias>, b: Alias)
    requires b !in done
    ensures |OnlineIn(rs, done + {b})| == |OnlineIn(rs, done)| + if Confirmed(rs, b) && Serving(rs, b) then 1 else 0
  {
    assert OnlineIn(rs, done + {b}) == OnlineIn(rs, done) + if Confirmed(rs, b) && Serving(rs, b) then {b} else {};
  }

  lemma BucketsGrow(rs: set<Replica>, done: set<Alias>, b: Alias, rules: Rules, now: int)
    ensures BucketsIn(rs, done + {b}, rules, now)
            == BucketsIn(rs, done, rules, now)
               + if Confirmed(rs, b) && Domains(rs, b, rules, now) != {} then {BucketOf(rs, b, rules, now)} else {}
  {
    var more := BackersIn(rs, done + {b}, rules, now);
    assert more == BackersIn(rs, done, rules, now)
      + if Confirmed(rs, b) && Domains(rs, b, rules, now) != {} then {b} else {};
    ImageGrows((a: Alias) => BucketOf(rs, a, rules, now), BackersIn(rs, done, rules, now), b);
  }

  lemma ImageGrows(f: Alias -> string, s: set<Alias>, b: Alias)
    ensures (set a: Alias | a in s + {b} :: f(a)) == (set a: Alias | a in s :: f(a)) + {f(b)}
  {
    assert b in s + {b};
  }

  // ---- What the counts promise ----

  /** The order of the records and their repetition do not matter. */
  lemma OrderAndRepetitionDoNotMatter(xs: seq<Replica>, ys: seq<Replica>, rules: Rules, now: int)
    requires forall r :: r in xs <==> r in ys
    ensures Assessed(Claims(xs), rules, now) == Assessed(Claims(ys), rules, now)
  {
    assert Claims(xs) == Claims(ys);
  }

  lemma BackersGrow(rs: set<Replica>, done: set<Alias>, b: Alias, rules: Rules, now: int)
    requires b !in done
    ensures |BackersIn(rs, done + {b}, rules, now)|
            == |BackersIn(rs, done, rules, now)| + if Confirmed(rs, b) && Domains(rs, b, rules, now) != {} then 1 else 0
  {
    if Confirmed(rs, b) && Domains(rs, b, rules, now) != {} {
      assert BackersIn(rs, done + {b}, rules, now) == BackersIn(rs, done, rules, now) + {b};
    } else {
      assert BackersIn(rs, done + {b}, rules, now) == BackersIn(rs, done, rules, now);
    }
  }

  lemma {:induction false} BucketsAreNoMore(rs: set<Replica>, among: set<Alias>, rules: Rules, now: int)
    ensures |BucketsIn(rs, among, rules, now)| <= |BackersIn(rs, among, rules, now)|
    decreases |among|
  {
    if among == {} {
      NothingTallied(rs, rules, now);
    } else {
      var b :| b in among;
      var fewer := among - {b};
      assert among == fewer + {b};
      BucketsAreNoMore(rs, fewer, rules, now);
      BucketsGrow(rs, fewer, b, rules, now);
      BackersGrow(rs, fewer, b, rules, now);
      AtMostOneMore(BucketsIn(rs, fewer, rules, now), BucketOf(rs, b, rules, now));
    }
  }

  lemma {:induction false} SubsetIsNoLarger<T>(s: set<T>, t: set<T>)
    requires s <= t
    ensures |s| <= |t|
    decreases |s|
  {
    if s != {} {
      var x :| x in s;
      SubsetIsNoLarger(s - {x}, t - {x});
    }
  }

  /** Resilience is never counted beyond what can serve, nor that beyond what is known. */
  lemma CountsAreOrdered(rs: set<Replica>, rules: Rules, now: int)
    ensures var a := Assessed(rs, rules, now); a.independent <= a.online <= a.confirmed
  {
    var all := Aliases(rs);
    forall b | b in BackersIn(rs, all, rules, now) ensures b in OnlineIn(rs, all) {
      var d :| d in Domains(rs, b, rules, now);
    }
    SubsetIsNoLarger(BackersIn(rs, all, rules, now), OnlineIn(rs, all));
    SubsetIsNoLarger(OnlineIn(rs, all), ConfirmedIn(rs, all));
    BucketsAreNoMore(rs, all, rules, now);
  }

  /** Claims under another name leave a Bridge's summary alone. */
  lemma StrangersDoNotMatter(rs: set<Replica>, more: set<Replica>, b: Alias, a: Alias, rules: Rules, now: int)
    requires a != b && forall r :: r in more ==> r.alias == b
    ensures SummaryOf(rs + more, a, rules, now) == SummaryOf(rs, a, rules, now)
  {
    var both := rs + more;
    assert forall x :: x in both && x.alias == a <==> x in rs && x.alias == a;
    assert Domains(both, a, rules, now) == Domains(rs, a, rules, now);
  }

  /**
   However many records one new Bridge files, saying whatever, it raises the independent count by at most
   one and never lowers it.
   */
  lemma OneBridgeAddsAtMostOne(rs: set<Replica>, more: set<Replica>, b: Alias, rules: Rules, now: int)
    requires b !in Aliases(rs) && forall r :: r in more ==> r.alias == b
    ensures var before, after := Assessed(rs, rules, now).independent, Assessed(rs + more, rules, now).independent;
            before <= after <= before + 1
  {
    IndependentRisesByADomain(rs, more, b, rules, now);
  }

  lemma AtMostOneMore(s: set<string>, x: string)
    ensures |s| <= |s + {x}| <= |s| + 1
  {
    if x in s {
      assert s + {x} == s;
    }
  }

  lemma AliasesOfBoth(rs: set<Replica>, more: set<Replica>, b: Alias)
    requires more != {} && forall r :: r in more ==> r.alias == b
    ensures Aliases(rs + more) == Aliases(rs) + {b}
  {
    var both := rs + more;
    var r :| r in more;
    assert r in both;
    forall a | a in Aliases(both) ensures a in Aliases(rs) + {b} {
      var x :| x in both && x.alias == a;
    }
    forall a | a in Aliases(rs) ensures a in Aliases(both) {
      var x :| x in rs && x.alias == a;
      assert x in both;
    }
  }

  lemma SameBuckets(rs: set<Replica>, both: set<Replica>, among: set<Alias>, rules: Rules, now: int)
    requires forall a :: a in among ==> SummaryOf(both, a, rules, now) == SummaryOf(rs, a, rules, now)
    ensures BucketsIn(both, among, rules, now) == BucketsIn(rs, among, rules, now)
  {
    assert BackersIn(both, among, rules, now) == BackersIn(rs, among, rules, now);
    forall a | a in among ensures BucketOf(both, a, rules, now) == BucketOf(rs, a, rules, now) {
      assert SummaryOf(both, a, rules, now).recent == SummaryOf(rs, a, rules, now).recent;
    }
  }

  /** The states from most to least urgent, in the order in which interfaces present them. */
  function Urgency(s: RiskState): nat {
    match s
    case RiskMissing => 0
    case RiskUnavailable => 1
    case RiskAtRisk => 2
    case RiskStale => 3
    case RiskFragile => 4
    case RiskResilient => 5
  }

  /** More of everything is more urgent in one case only: what was stale has its first copies confirmed. */
  lemma MoreIsWorseOnlyFromStale(c: nat, o: nat, i: nat, c': nat, o': nat, i': nat, rules: Rules)
    requires c <= c' && o <= o' && i <= i' <= i + 1
    ensures Urgency(Classify(c', o', i', rules)) < Urgency(Classify(c, o, i, rules))
       <==> && Classify(c, o, i, rules).RiskStale? && i' == i + 1
            && rules.atRiskAt <= i + 1 && i + 1 < rules.fragileAt && i + 1 < rules.resilientAt
  {
  }

  lemma SameCounts(rs: set<Replica>, both: set<Replica>, among: set<Alias>, rules: Rules, now: int)
    requires forall a :: a in among ==> SummaryOf(both, a, rules, now) == SummaryOf(rs, a, rules, now)
    ensures ConfirmedIn(both, among) == ConfirmedIn(rs, among) && OnlineIn(both, among) == OnlineIn(rs, among)
  {
    forall a | a in among ensures (Gone(both, a) <==> Gone(rs, a)) && (Present(both, a) <==> Present(rs, a)) && (Serving(both, a) <==> Serving(rs, a)) {
      assert SummaryOf(both, a, rules, now) == SummaryOf(rs, a, rules, now);
    }
  }

  /** The new Bridge's own claims back a failure domain that no known Bridge backs. */
  ghost predicate BringsADomain(rs: set<Replica>, more: set<Replica>, b: Alias, rules: Rules, now: int) {
    && Confirmed(more, b) && Domains(more, b, rules, now) != {}
    && BucketOf(more, b, rules, now) !in BucketsIn(rs, Aliases(rs), rules, now)
  }

  lemma NewcomersSpeakForThemselves(rs: set<Replica>, more: set<Replica>, b: Alias, rules: Rules, now: int)
    requires b !in Aliases(rs)
    ensures SummaryOf(rs + more, b, rules, now) == SummaryOf(more, b, rules, now)
  {
    var both := rs + more;
    forall r | r in rs ensures r.alias != b { assert r.alias in Aliases(rs); }
    assert forall x :: x in both && x.alias == b <==> x in more && x.alias == b;
    assert Domains(both, b, rules, now) == Domains(more, b, rules, now);
  }

  /** The independent count rises by one exactly when the new Bridge brings a domain, and otherwise stays. */
  lemma IndependentRisesByADomain(rs: set<Replica>, more: set<Replica>, b: Alias, rules: Rules, now: int)
    requires b !in Aliases(rs) && forall r :: r in more ==> r.alias == b
    ensures Assessed(rs + more, rules, now).independent
         == Assessed(rs, rules, now).independent + if BringsADomain(rs, more, b, rules, now) then 1 else 0
  {
    var both, known := rs + more, Aliases(rs);
    forall a | a in known ensures SummaryOf(both, a, rules, now) == SummaryOf(rs, a, rules, now) {
      StrangersDoNotMatter(rs, more, b, a, rules, now);
    }
    SameBuckets(rs, both, known, rules, now);
    if more == {} {
      assert both == rs;
    } else {
      AliasesOfBoth(rs, more, b);
      BucketsGrow(both, known, b, rules, now);
      NewcomersSpeakForThemselves(rs, more, b, rules, now);
      SameVoice(both, more, b, rules, now);
      ExactlyOneMore(BucketsIn(rs, known, rules, now), BucketOf(more, b, rules, now));
    }
  }

  lemma SameVoice(both: set<Replica>, more: set<Replica>, b: Alias, rules: Rules, now: int)
    requires SummaryOf(both, b, rules, now) == SummaryOf(more, b, rules, now)
    ensures Confirmed(both, b) <==> Confirmed(more, b)
    ensures Domains(both, b, rules, now) == Domains(more, b, rules, now)
    ensures BucketOf(both, b, rules, now) == BucketOf(more, b, rules, now)
  {
    assert SummaryOf(both, b, rules, now).recent == SummaryOf(more, b, rules, now).recent;
  }

  lemma ExactlyOneMore(s: set<string>, x: string)
    ensures |s + {x}| == |s| + if x in s then 0 else 1
  {
    if x in s {
      assert s + {x} == s;
    }
  }

  /**
   When a new Bridge makes a file more urgent. It does so in one case only: the file was stale, and the
   newcomer brings a failure domain that takes the independent count to the at-risk threshold and no
   further. In every other case, whatever it claims, the file is no more urgent than before.
   */
  lemma ANewBridgeHurtsOnlyTheStale(rs: set<Replica>, more: set<Replica>, b: Alias, rules: Rules, now: int)
    requires b !in Aliases(rs) && forall r :: r in more ==> r.alias == b
    ensures var before := Assessed(rs, rules, now);
            var reached := before.independent + 1;
            Urgency(Assessed(rs + more, rules, now).risk) < Urgency(before.risk)
            <==> && before.risk.RiskStale? && BringsADomain(rs, more, b, rules, now)
                 && rules.atRiskAt <= reached && reached < rules.fragileAt && reached < rules.resilientAt
  {
    IndependentRisesByADomain(rs, more, b, rules, now);
    CountsNeverFall(rs, more, b, rules, now);
    var x, y := Assessed(rs, rules, now), Assessed(rs + more, rules, now);
    MoreIsWorseOnlyFromStale(x.confirmed, x.online, x.independent, y.confirmed, y.online, y.independent, rules);
  }

  /**
   Such a file under the default rules: one Bridge serves it and never verified it, another then arrives
   with a verified copy, and the file moves from stale to at risk, which is listed as more urgent.
   */
  lemma AVerifiedCopyCanRaiseTheUrgency(now: int)
    ensures var rs := {Replica(0, "a", Available, None)};
            var more := {Replica(1, "b", Available, Some(now))};
            && Assessed(rs, DEFAULT_RULES, now).risk.RiskStale?
            && Assessed(rs + more, DEFAULT_RULES, now).risk.RiskAtRisk?
            && Urgency(RiskAtRisk) < Urgency(RiskStale)
  {
    var r, n := Replica(0, "a", Available, None), Replica(1, "b", Available, Some(now));
    var rs, more := {r}, {n};
    assert r in rs && n in more;
    assert Aliases(rs) == {0};
    assert Domains(rs, 0, DEFAULT_RULES, now) == {};
    assert BackersIn(rs, {0}, DEFAULT_RULES, now) == {};
    assert BucketsIn(rs, {0}, DEFAULT_RULES, now) == {};
    assert OnlineIn(rs, {0}) == {0} && ConfirmedIn(rs, {0}) == {0};
    assert Backed(n, 1, DEFAULT_RULES, now);
    assert Domain(n) in Domains(more, 1, DEFAULT_RULES, now);
    assert BringsADomain(rs, more, 1, DEFAULT_RULES, now);
    ANewBridgeHurtsOnlyTheStale(rs, more, 1, DEFAULT_RULES, now);
    IndependentRisesByADomain(rs, more, 1, DEFAULT_RULES, now);
    DefaultRulesMeanWhatTheySay(rs, now);
    DefaultRulesMeanWhatTheySay(rs + more, now);
  }

  lemma CountsNeverFall(rs: set<Replica>, more: set<Replica>, b: Alias, rules: Rules, now: int)
    requires b !in Aliases(rs) && forall r :: r in more ==> r.alias == b
    ensures Assessed(rs, rules, now).confirmed <= Assessed(rs + more, rules, now).confirmed
    ensures Assessed(rs, rules, now).online <= Assessed(rs + more, rules, now).online
  {
    var both, known := rs + more, Aliases(rs);
    forall a | a in known ensures SummaryOf(both, a, rules, now) == SummaryOf(rs, a, rules, now) {
      StrangersDoNotMatter(rs, more, b, a, rules, now);
    }
    SameCounts(rs, both, known, rules, now);
    if more == {} {
      assert both == rs;
    } else {
      AliasesOfBoth(rs, more, b);
      ConfirmedGrow(both, known, b);
      OnlineGrow(both, known, b);
    }
  }

  /** Thirty days, and one, two and three independent copies. */
  const DEFAULT_RULES := Rules(30 * 24 * 3600, 1, 2, 3)

  /** What the default thresholds are said to mean, for any claims at all. */
  lemma DefaultRulesMeanWhatTheySay(rs: set<Replica>, now: int)
    ensures var a := Assessed(rs, DEFAULT_RULES, now);
            && (a.risk.RiskResilient? <==> a.independent >= 3)
            && (a.risk.RiskFragile? <==> a.independent == 2)
            && (a.risk.RiskAtRisk? <==> a.independent == 1)
            && (a.risk.RiskStale? <==> a.independent == 0 && a.online > 0)
            && (a.risk.RiskUnavailable? <==> a.online == 0 && a.confirmed > 0)
            && (a.risk.RiskMissing? <==> a.confirmed == 0)
  {
    CountsAreOrdered(rs, DEFAULT_RULES, now);
  }

  // ---- Adding up ----

  datatype Coverage = Coverage(
    expected: nat,
    content: nat,
    available: nat,
    resilient: nat,
    fragile: nat,
    atRisk: nat,
    stale: nat,
    unavailable: nat,
    missing: nat)

  const NONE_EXPECTED := Coverage(0, 0, 0, 0, 0, 0, 0, 0, 0)

  function One(b: bool): nat { if b then 1 else 0 }

  function Added(c: Coverage, a: Assessment): Coverage {
    Coverage(
      c.expected + 1,
      c.content + One(a.confirmed > 0),
      c.available + One(a.online > 0),
      c.resilient + One(a.risk.RiskResilient?),
      c.fragile + One(a.risk.RiskFragile?),
      c.atRisk + One(a.risk.RiskAtRisk?),
      c.stale + One(a.risk.RiskStale?),
      c.unavailable + One(a.risk.RiskUnavailable?),
      c.missing + One(a.risk.RiskMissing?))
  }

  function ClaimsOn(claims: map<FileId, seq<Replica>>, id: FileId): seq<Replica> {
    if id in claims then claims[id] else []
  }

  ghost function Position(claims: map<FileId, seq<Replica>>, id: FileId, rules: Rules, now: int): Assessment {
    Assessed(Claims(ClaimsOn(claims, id)), rules, now)
  }

  ghost function Covered(expected: seq<FileId>, claims: map<FileId, seq<Replica>>, rules: Rules, now: int): Coverage {
    if expected == [] then NONE_EXPECTED
    else Added(Covered(expected[..|expected| - 1], claims, rules, now), Position(claims, expected[|expected| - 1], rules, now))
  }

  lemma CoveredGrows(expected: seq<FileId>, k: nat, claims: map<FileId, seq<Replica>>, rules: Rules, now: int)
    requires k < |expected|
    ensures Covered(expected[..k + 1], claims, rules, now)
            == Added(Covered(expected[..k], claims, rules, now), Position(claims, expected[k], rules, now))
  {
    assert expected[..k + 1][..k] == expected[..k];
  }

  method AddFile(c: Coverage, claims: map<FileId, seq<Replica>>, id: FileId, rules: Rules, now: int) returns (r: Coverage)
    ensures r == Added(c, Position(claims, id, rules, now))
  {
    var a := Assess(ClaimsOn(claims, id), rules, now);
    r := Added(c, a);
  }

  /** Assess every expected file; one that nobody claims is missing. */
  method ComputeCoverage(expected: seq<FileId>, claims: map<FileId, seq<Replica>>, rules: Rules, now: int)
    returns (c: Coverage)
    ensures c == Covered(expected, claims, rules, now)
  {
    c := NONE_EXPECTED;
    for k := 0 to |expected|
      invariant c == Covered(expected[..k], claims, rules, now)
    {
      CoveredGrows(expected, k, claims, rules, now);
      c := AddFile(c, claims, expected[k], rules, now);
    }
    assert expected[..|expected|] == expected;
  }

  /** Known, but served by nobody. */
  ghost predicate OfflineOnly(claims: map<FileId, seq<Replica>>, id: FileId, rules: Rules, now: int) {
    Position(claims, id, rules, now).confirmed > 0 && Position(claims, id, rules, now).online == 0
  }

  ghost function OfflineCount(expected: seq<FileId>, claims: map<FileId, seq<Replica>>, rules: Rules, now: int): nat {
    if expected == [] then 0
    else OfflineCount(expected[..|expected| - 1], claims, rules, now)
         + One(OfflineOnly(claims, expected[|expected| - 1], rules, now))
  }

  /** Every threshold asks for at least one copy. */
  predicate Sensible(rules: Rules) { rules.atRiskAt >= 1 && rules.fragileAt >= 1 && rules.resilientAt >= 1 }

  /**
   The books balance. Expected is content and missing under any rules. With every threshold at least one,
   content is available and unavailable, and available is the four states between; with a threshold below
   one, both are off by exactly the files known only offline.
   */
  lemma {:induction false} CoverageBalances(expected: seq<FileId>, claims: map<FileId, seq<Replica>>, rules: Rules, now: int)
    ensures var c := Covered(expected, claims, rules, now);
            var off := if Sensible(rules) then 0 else OfflineCount(expected, claims, rules, now);
            && c.expected == |expected| == c.content + c.missing
            && c.content == c.available + c.unavailable + off
            && c.resilient + c.fragile + c.atRisk + c.stale == c.available + off
    decreases |expected|
  {
    if expected != [] {
      CoverageBalances(expected[..|expected| - 1], claims, rules, now);
      PositionBalances(claims, expected[|expected| - 1], rules, now);
    }
  }

  lemma PositionBalances(claims: map<FileId, seq<Replica>>, id: FileId, rules: Rules, now: int)
    ensures var a := Position(claims, id, rules, now);
            var off := OfflineOnly(claims, id, rules, now) && !Sensible(rules);
            && (a.confirmed == 0 <==> a.risk.RiskMissing?)
            && (a.risk.RiskUnavailable? <==> a.confirmed > 0 && a.online == 0 && !off)
            && (a.online > 0 || off <==> a.risk.RiskResilient? || a.risk.RiskFragile? || a.risk.RiskAtRisk? || a.risk.RiskStale?)
            && (a.online > 0 ==> !off)
  {
    CountsAreOrdered(Claims(ClaimsOn(claims, id)), rules, now);
  }
}
