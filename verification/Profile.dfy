/** A collection profile: which catalogue entries count, and the one entry that stands for each game. */
module Profile {
  import opened Wrappers
  import opened Sorting
  import opened Digests
  import opened ReferenceSet

  datatype Rules = Rules(
    regions: seq<string>,
    excludedFlags: seq<string>,
    includeBios: bool,
    includeUntagged: bool,
    oneGamePerKey: bool)

  /** Equal but for letter case. */
  predicate Folds(a: string, b: string) { Lower(a) == Lower(b) }

  lemma FoldingIgnoresCaseAlone(a: string, b: string)
    ensures Folds(a, b) <==> |a| == |b| && forall i :: 0 <= i < |a| ==> SameLetter(a[i], b[i])
  {
    LowerIgnoresCaseAlone(a, b);
  }

  predicate InRegion(e: Entry, region: string) { exists r :: r in e.regions && Folds(r, region) }

  /** The place of the first allowed region the entry belongs to, at or after `from`. */
  function FirstRegion(p: Rules, e: Entry, from: nat): Option<nat>
    decreases |p.regions| - from
  {
    if from >= |p.regions| then None
    else if InRegion(e, p.regions[from]) then Some(from)
    else FirstRegion(p, e, from + 1)
  }

  /** How well an entry's region suits the profile, if at all; untagged entries come last. */
  function RegionRank(p: Rules, e: Entry): Option<nat> {
    if e.regions == [] then if p.includeUntagged then Some(|p.regions|) else None else FirstRegion(p, e, 0)
  }

  lemma {:induction false} FirstRegionIsFirst(p: Rules, e: Entry, from: nat)
    ensures match FirstRegion(p, e, from)
            case Some(i) =>
              && from <= i < |p.regions| && InRegion(e, p.regions[i])
              && (forall j :: from <= j < i ==> !InRegion(e, p.regions[j]))
            case None => forall j :: from <= j < |p.regions| ==> !InRegion(e, p.regions[j])
    decreases |p.regions| - from
  {
    if from < |p.regions| && !InRegion(e, p.regions[from]) {
      FirstRegionIsFirst(p, e, from + 1);
    }
  }

  /** The walk over the entry's regions and the profile's, keeping the best place seen. */
  method RegionPriority(p: Rules, e: Entry) returns (rank: Option<nat>)
    ensures rank == RegionRank(p, e)
  {
    if |e.regions| == 0 {
      return if p.includeUntagged then Some(|p.regions|) else None;
    }
    var best: int := -1;
    for r := 0 to |e.regions|
      invariant -1 <= best < |p.regions|
      invariant best >= 0 ==> InRegion(e, p.regions[best])
      invariant forall i, j :: 0 <= i < r && 0 <= j < |p.regions| && Folds(e.regions[i], p.regions[j]) ==> 0 <= best <= j
    {
      for i := 0 to |p.regions|
        invariant -1 <= best < |p.regions|
        invariant best >= 0 ==> InRegion(e, p.regions[best])
        invariant forall k, j :: 0 <= k < r && 0 <= j < |p.regions| && Folds(e.regions[k], p.regions[j]) ==> 0 <= best <= j
        invariant forall j :: 0 <= j < i && Folds(e.regions[r], p.regions[j]) ==> 0 <= best <= j
      {
        if Folds(e.regions[r], p.regions[i]) && (best < 0 || i < best) {
          assert e.regions[r] in e.regions;
          best := i;
        }
      }
    }
    FirstRegionIsFirst(p, e, 0);
    rank := if best < 0 then None else Some(best);
  }

  ghost predicate Excluded(p: Rules, e: Entry) {
    exists f, bad :: f in e.flags && bad in p.excludedFlags && Folds(f, bad)
  }

  /** An entry passes the profile's filters. */
  ghost predicate Eligible(p: Rules, e: Entry) {
    (e.isBios ==> p.includeBios) && !Excluded(p, e) && RegionRank(p, e).Some?
  }

  method IsEligible(p: Rules, e: Entry) returns (ok: bool)
    ensures ok == Eligible(p, e)
  {
    if e.isBios && !p.includeBios {
      return false;
    }
    for f := 0 to |e.flags|
      invariant forall i, bad :: 0 <= i < f && bad in p.excludedFlags ==> !Folds(e.flags[i], bad)
    {
      for b := 0 to |p.excludedFlags|
        invariant forall i :: 0 <= i < b ==> !Folds(e.flags[f], p.excludedFlags[i])
      {
        if Folds(e.flags[f], p.excludedFlags[b]) {
          assert e.flags[f] in e.flags && p.excludedFlags[b] in p.excludedFlags;
          return false;
        }
      }
    }
    var rank := RegionPriority(p, e);
    ok := rank.Some?;
  }

  // ---- One game, one entry ----

  /** Better region, then newer revision, then earlier name. */
  predicate Better(p: Rules, x: Entry, y: Entry) {
    var a, b := Place(p, x), Place(p, y);
    if a != b then a < b
    else if x.revisionRank != y.revisionRank then x.revisionRank > y.revisionRank
    else TextLess(x.romName, y.romName)
  }

  function Place(p: Rules, e: Entry): nat {
    if RegionRank(p, e).Some? then RegionRank(p, e).value else 0
  }

  const NO_ENTRY := Entry("", "", [], 0, [], false, Digest(0, "", "", "", ""))

  function EntryAt(entries: seq<Entry>, i: nat): Entry { if i < |entries| then entries[i] else NO_ENTRY }

  lemma BetterIsStrictWeak(p: Rules, entries: seq<Entry>)
    ensures StrictWeak((a: nat, b: nat) => Better(p, EntryAt(entries, a), EntryAt(entries, b)))
  {
    forall a: nat ensures !Better(p, EntryAt(entries, a), EntryAt(entries, a)) {
      TextIsIrreflexive(EntryAt(entries, a).romName);
    }
    forall a: nat, b: nat, c: nat
      | Better(p, EntryAt(entries, a), EntryAt(entries, b)) && Better(p, EntryAt(entries, b), EntryAt(entries, c))
      ensures Better(p, EntryAt(entries, a), EntryAt(entries, c))
    {
      BetterIsTransitive(p, EntryAt(entries, a), EntryAt(entries, b), EntryAt(entries, c));
    }
    forall a: nat, b: nat, c: nat | Better(p, EntryAt(entries, a), EntryAt(entries, c))
      ensures Better(p, EntryAt(entries, a), EntryAt(entries, b)) || Better(p, EntryAt(entries, b), EntryAt(entries, c))
    {
      BetterSplits(p, EntryAt(entries, a), EntryAt(entries, b), EntryAt(entries, c));
    }
  }

  lemma BetterIsTransitive(p: Rules, x: Entry, y: Entry, z: Entry)
    requires Better(p, x, y) && Better(p, y, z)
    ensures Better(p, x, z)
  {
    if TextLess(x.romName, y.romName) && TextLess(y.romName, z.romName) {
      TextIsTransitive(x.romName, y.romName, z.romName);
    }
  }

  lemma BetterSplits(p: Rules, x: Entry, y: Entry, z: Entry)
    requires Better(p, x, z)
    ensures Better(p, x, y) || Better(p, y, z)
  {
    TextIsTotal(x.romName, y.romName);
    if TextLess(y.romName, x.romName) && TextLess(x.romName, z.romName) {
      TextIsTransitive(y.romName, x.romName, z.romName);
    }
  }

  datatype Selection = Selection(included: set<nat>, chosen: map<string, nat>)

  /** An eligible entry of a game. */
  ghost predicate Candidate(p: Rules, entries: seq<Entry>, key: string, i: nat) {
    i < |entries| && Eligible(p, entries[i]) && entries[i].canonicalKey == key
  }

  /** It stands for its game: no eligible rival is better. */
  ghost predicate Stands(p: Rules, entries: seq<Entry>, key: string, i: nat) {
    && Candidate(p, entries, key, i)
    && forall j: nat :: Candidate(p, entries, key, j) ==> !Better(p, entries[j], entries[i])
  }

  predicate IsChosen(sel: Selection, entries: seq<Entry>, i: nat) {
    && i < |entries| && entries[i].canonicalKey in sel.chosen && sel.chosen[entries[i].canonicalKey] == i
  }

  /** One entry for each game that has an eligible one, the best of its kind; nothing else. */
  ghost predicate SelectsOnePerGame(p: Rules, entries: seq<Entry>, sel: Selection) {
    && (forall key :: key in sel.chosen ==> Stands(p, entries, key, sel.chosen[key]))
    && (forall key: string, i: nat :: Candidate(p, entries, key, i) ==> key in sel.chosen)
    && (forall i: nat :: i in sel.included <==> IsChosen(sel, entries, i))
  }

  /** Without the rule of one, every eligible entry counts. */
  method Apply(p: Rules, entries: seq<Entry>) returns (sel: Selection)
    ensures !p.oneGamePerKey ==>
              sel.chosen == map[] && forall i: nat :: i in sel.included <==> i < |entries| && Eligible(p, entries[i])
    ensures p.oneGamePerKey ==> SelectsOnePerGame(p, entries, sel)
  {
    if !p.oneGamePerKey {
      var included: set<nat> := {};
      for i := 0 to |entries|
        invariant forall j: nat :: j in included <==> j < i && Eligible(p, entries[j])
      {
        var ok := IsEligible(p, entries[i]);
        if ok {
          included := included + {i};
        }
      }
      return Selection(included, map[]);
    }
    var byKey := Group(p, entries);
    sel := Selection({}, map[]);
    var left := byKey.Keys;
    while left != {}
      invariant left <= byKey.Keys && sel.chosen.Keys == byKey.Keys - left
      invariant forall key :: key in sel.chosen ==> Stands(p, entries, key, sel.chosen[key])
      invariant forall i: nat :: i in sel.included <==> IsChosen(sel, entries, i)
    {
      var key :| key in left;
      left := left - {key};
      var best := Best(p, entries, key, byKey[key]);
      sel := Selection(sel.included + {best}, sel.chosen[key := best]);
    }
  }

  /** The eligible entries by game. */
  method Group(p: Rules, entries: seq<Entry>) returns (byKey: map<string, seq<nat>>)
    ensures forall key: string, i: nat :: Candidate(p, entries, key, i) <==> key in byKey && i in byKey[key]
    ensures forall key :: key in byKey ==> byKey[key] != []
  {
    byKey := map[];
    for n := 0 to |entries|
      invariant forall key: string, i: nat :: i < n && Candidate(p, entries, key, i) <==> key in byKey && i in byKey[key]
      invariant forall key :: key in byKey ==> byKey[key] != []
    {
      var ok := IsEligible(p, entries[n]);
      if !ok {
        continue;
      }
      var key := entries[n].canonicalKey;
      byKey := byKey[key := (if key in byKey then byKey[key] else []) + [n]];
    }
  }

  /** Sort a game's entries and take the first. */
  method Best(p: Rules, entries: seq<Entry>, key: string, indices: seq<nat>) returns (best: nat)
    requires indices != [] && forall i: nat :: i in indices <==> Candidate(p, entries, key, i)
    ensures Stands(p, entries, key, best)
  {
    var less := (a: nat, b: nat) => Better(p, EntryAt(entries, a), EntryAt(entries, b));
    BetterIsStrictWeak(p, entries);
    SortSorts(less, indices);
    SortPermutes(less, indices);
    var sorted := Sort(less, indices);
    SameElements(sorted, indices);
    best := sorted[0];
    assert best in sorted;
    forall j: nat | Candidate(p, entries, key, j) ensures !Better(p, entries[j], entries[best]) {
      assert j in sorted;
      var k :| 0 <= k < |sorted| && sorted[k] == j;
      BetterIsIrreflexive(p, entries[best]);
      assert k > 0 ==> !less(sorted[k], sorted[0]);
    }
  }

  lemma BetterIsIrreflexive(p: Rules, x: Entry)
    ensures !Better(p, x, x)
  {
    TextIsIrreflexive(x.romName);
  }

  /** Exactly one entry of each game with an eligible one is included. */
  lemma OneEntryPerGame(p: Rules, entries: seq<Entry>, sel: Selection, key: string)
    requires SelectsOnePerGame(p, entries, sel)
    ensures (exists i: nat :: Candidate(p, entries, key, i)) <==> exists i: nat :: i in sel.included && entries[i].canonicalKey == key
    ensures forall i: nat, j: nat :: i in sel.included && j in sel.included && entries[i].canonicalKey == entries[j].canonicalKey ==> i == j
  {
    if i: nat :| Candidate(p, entries, key, i) {
      assert sel.chosen[key] in sel.included;
    }
    if i: nat :| i in sel.included && entries[i].canonicalKey == key {
      assert Stands(p, entries, key, i);
    }
  }

  /** Two entries neither of which is better are alike in region, revision and name. */
  lemma IncomparableAreAlike(p: Rules, x: Entry, y: Entry)
    requires !Better(p, x, y) && !Better(p, y, x)
    ensures Place(p, x) == Place(p, y) && x.revisionRank == y.revisionRank && x.romName == y.romName
  {
    TextIsTotal(x.romName, y.romName);
  }

  /**
   The order of the catalogue does not matter: whichever entry of the shuffled catalogue stands for a
   game, it has the same region, revision and name.
   */
  lemma ChoiceIgnoresOrder(
    p: Rules, entries: seq<Entry>, shuffled: seq<Entry>, a: Selection, b: Selection, key: string)
    requires Permuted(entries, shuffled)
    requires SelectsOnePerGame(p, entries, a) && SelectsOnePerGame(p, shuffled, b)
    ensures key in a.chosen <==> key in b.chosen
    ensures key in a.chosen ==>
              var x, y := entries[a.chosen[key]], shuffled[b.chosen[key]];
              && RegionRank(p, x) == RegionRank(p, y) && x.revisionRank == y.revisionRank && x.romName == y.romName
  {
    SameElements(entries, shuffled);
    if key in a.chosen {
      var j := Elsewhere(p, entries, shuffled, key, a.chosen[key]);
    }
    if key in b.chosen {
      var i := Elsewhere(p, shuffled, entries, key, b.chosen[key]);
    }
    if key in a.chosen && key in b.chosen {
      var j := Elsewhere(p, entries, shuffled, key, a.chosen[key]);
      var i := Elsewhere(p, shuffled, entries, key, b.chosen[key]);
      IncomparableAreAlike(p, entries[a.chosen[key]], shuffled[b.chosen[key]]);
    }
  }

  /** A candidate's place in the other order. */
  lemma Elsewhere(p: Rules, entries: seq<Entry>, shuffled: seq<Entry>, key: string, i: nat) returns (j: nat)
    requires (forall e :: e in entries <==> e in shuffled) && Candidate(p, entries, key, i)
    ensures Candidate(p, shuffled, key, j) && shuffled[j] == entries[i]
  {
    assert entries[i] in shuffled;
    j :| 0 <= j < |shuffled| && shuffled[j] == entries[i];
  }

  // ---- What being chosen means ----

  /**
   The chosen entry against every eligible rival of its game: its region is no lower on the profile's list; of
   equal place, its revision is no older; of equal place and revision, its name is no later.
   */
  lemma TheChosenEntryIsTheBest(p: Rules, entries: seq<Entry>, sel: Selection, key: string, j: nat)
    requires SelectsOnePerGame(p, entries, sel) && Candidate(p, entries, key, j)
    ensures key in sel.chosen && sel.chosen[key] < |entries|
    ensures var chosen, rival := entries[sel.chosen[key]], entries[j];
            && RegionRank(p, chosen).Some? && RegionRank(p, rival).Some?
            && RegionRank(p, chosen).value <= RegionRank(p, rival).value
            && (RegionRank(p, chosen) == RegionRank(p, rival) ==> chosen.revisionRank >= rival.revisionRank)
            && (RegionRank(p, chosen) == RegionRank(p, rival) && chosen.revisionRank == rival.revisionRank ==>
                  chosen.romName == rival.romName || TextLess(chosen.romName, rival.romName))
  {
    assert Stands(p, entries, key, sel.chosen[key]);
    TextIsTotal(entries[sel.chosen[key]].romName, entries[j].romName);
  }

  /** An entry without a region ranks behind every listed one: it is chosen only if no rival carries a region. */
  lemma AnUntaggedEntryComesLast(p: Rules, entries: seq<Entry>, sel: Selection, key: string, j: nat)
    requires SelectsOnePerGame(p, entries, sel) && Candidate(p, entries, key, j)
    requires key in sel.chosen && sel.chosen[key] < |entries| && entries[sel.chosen[key]].regions == []
    ensures p.includeUntagged && entries[j].regions == []
  {
    TheChosenEntryIsTheBest(p, entries, sel, key, j);
    FirstRegionIsFirst(p, entries[j], 0);
  }

  /** Which entries are eligible at all, in the profile's own lists. */
  lemma EligibleExactlyIf(p: Rules, e: Entry)
    ensures Eligible(p, e)
       <==> && (!e.isBios || p.includeBios)
            && (forall f, bad :: f in e.flags && bad in p.excludedFlags ==> !Folds(f, bad))
            && (if e.regions == [] then p.includeUntagged
                else exists r, allowed :: r in e.regions && allowed in p.regions && Folds(r, allowed))
  {
    FirstRegionIsFirst(p, e, 0);
    if r, allowed :| r in e.regions && allowed in p.regions && Folds(r, allowed) {
      var j: nat :| j < |p.regions| && p.regions[j] == allowed;
      assert InRegion(e, p.regions[j]);
    }
  }
}
