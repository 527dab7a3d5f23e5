/**
 What a Bridge tells a Swarm it holds: the filtered snapshot of its library, and the delta between what the
 Swarm was last told and what it should be told now.
 */
module Inventory {
  import opened Wrappers
  import opened Sorting
  import opened Digests

  const SCHEMA_VERSION := 1
  /** Revisions are 64 bits wide. */
  const REVISIONS := 0x1_0000_0000_0000_0000

  /** An identifier as text. A file's is derived from its canonical hash, whatever its letter case. */
  datatype Id = Id(text: string) {
    predicate Valid() { text != "" }
  }

  function FileIdOf(sha256: Hash): Id { Id(Lower(sha256)) }

  datatype Classification = Unmatched | MatchedUnverified | VerifiedExcluded | VerifiedEligible | Conflict

  datatype Availability = Available | Offline | Stale | Removed

  datatype Adapter = Adapter(id: string, version: string)

  datatype ReferenceMatch = ReferenceMatch(set_: string, entry: string, canonicalKey: string, strength: Strength)

  datatype Item = Item(
    fileId: Id,
    platform: Id,
    canonical: Digest,
    adapter: Adapter,
    classification: Classification,
    reference: Option<ReferenceMatch>,
    availability: Availability,
    lastVerified: int)
  {
    predicate Publishable() { classification.VerifiedEligible? }

    predicate Valid() {
      && fileId.Valid() && platform.Valid() && canonical.sha256 != "" && FileIdOf(canonical.sha256) == fileId
      && (Publishable() ==> reference.Some?)
      && adapter.id != "" && adapter.version != ""
    }
  }

  datatype Manifest = Manifest(schema: nat, swarm: Id, alias: Id, revision: nat, items: seq<Item>)

  datatype Op = Add | Tombstone | Update

  datatype Entry = Entry(op: Op, fileId: Id, item: Option<Item>) {
    predicate Valid() {
      && fileId.Valid()
      && (if op.Tombstone? then item.None? else item.Some? && item.value.Valid() && item.value.Publishable())
    }
  }

  datatype Delta = Delta(schema: nat, swarm: Id, alias: Id, from: nat, to: nat, entries: seq<Entry>) {
    predicate Valid() {
      && schema == SCHEMA_VERSION && swarm.Valid() && alias.Valid() && to == NextRevision(from)
      && entries != [] && forall e :: e in entries ==> e.Valid()
    }
  }

  function NextRevision(r: nat): nat { (r + 1) % REVISIONS }

  datatype Policy = Policy(
    swarm: Id,
    shareAll: bool,
    platforms: seq<Id>,
    excludedPlatforms: seq<Id>,
    excludedFiles: seq<Id>,
    maxItemBytes: int)
  {
    /** A holding may be published: verified, excluded in no way, and its platform shared. */
    predicate Permits(i: Item) {
      && i.Publishable()
      && i.fileId !in excludedFiles && i.platform !in excludedPlatforms
      && (maxItemBytes > 0 ==> i.canonical.size <= maxItemBytes)
      && (shareAll || i.platform in platforms)
    }
  }

  datatype Membership = Membership(swarm: Id, alias: Id, policy: Policy, revision: nat) {
    predicate Valid() {
      && swarm.Valid() && alias.Valid() && policy.swarm == swarm && (policy.shareAll || policy.platforms != [])
    }
  }

  /** The rules in the order they are applied, each list walked to its first hit. */
  method IsPermitted(p: Policy, item: Item) returns (ok: bool)
    ensures ok == p.Permits(item)
    ensures ok <==> forall r: Reason :: !Breaks(p, item, r)
  {
    PermittedBreaksNoRule(p, item);
    if !item.Publishable() {
      return false;
    }
    var excluded := Lists(p.excludedFiles, item.fileId);
    if excluded {
      return false;
    }
    excluded := Lists(p.excludedPlatforms, item.platform);
    if excluded || (p.maxItemBytes > 0 && item.canonical.size > p.maxItemBytes) {
      return false;
    }
    if p.shareAll {
      return true;
    }
    ok := Lists(p.platforms, item.platform);
  }

  method Lists(ids: seq<Id>, id: Id) returns (found: bool)
    ensures found == (id in ids)
  {
    for k := 0 to |ids|
      invariant id !in ids[..k]
    {
      if ids[k] == id {
        return true;
      }
    }
    assert ids[..|ids|] == ids;
    found := false;
  }

  /** Why a holding is withheld, in the order the rules are applied. */
  datatype Reason = Unverified | FileExcluded | PlatformExcluded | TooLarge | PlatformNotShared

  predicate Breaks(p: Policy, i: Item, r: Reason) {
    match r
    case Unverified => !i.Publishable()
    case FileExcluded => i.fileId in p.excludedFiles
    case PlatformExcluded => i.platform in p.excludedPlatforms
    case TooLarge => p.maxItemBytes > 0 && i.canonical.size > p.maxItemBytes
    case PlatformNotShared => !p.shareAll && i.platform !in p.platforms
  }

  /** A holding is permitted exactly if it breaks none of the rules a holding is withheld for. */
  lemma PermittedBreaksNoRule(p: Policy, i: Item)
    ensures p.Permits(i) <==> forall r: Reason :: !Breaks(p, i, r)
  {
    if forall r: Reason :: !Breaks(p, i, r) {
      assert !Breaks(p, i, Unverified) && !Breaks(p, i, FileExcluded) && !Breaks(p, i, PlatformExcluded);
      assert !Breaks(p, i, TooLarge) && !Breaks(p, i, PlatformNotShared);
    }
  }

  // ---- The snapshot ----

  predicate Before(a: Item, b: Item) { TextLess(a.fileId.text, b.fileId.text) }

  /** In strictly ascending order of identifier, so each appears once. */
  ghost predicate Ascending(items: seq<Item>) {
    forall i, j :: 0 <= i < j < |items| ==> Before(items[i], items[j])
  }

  /** The items by identifier; the last of several wins. */
  function Index(items: seq<Item>): map<Id, Item> {
    if items == [] then map[]
    else Index(items[..|items| - 1])[items[|items| - 1].fileId := items[|items| - 1]]
  }

  /** What the policy lets this Swarm see: of each file, the first permitted holding. */
  function Shared(p: Policy, holdings: seq<Item>): map<Id, Item> {
    if holdings == [] then map[]
    else
      var rest := Shared(p, holdings[..|holdings| - 1]);
      var last := holdings[|holdings| - 1];
      if p.Permits(last) && last.fileId !in rest then rest[last.fileId := last] else rest
  }

  /** The k-th holding is permitted and no earlier permitted one is of the same file. */
  ghost predicate First(p: Policy, holdings: seq<Item>, k: nat) {
    && k < |holdings| && p.Permits(holdings[k])
    && forall j :: 0 <= j < k && p.Permits(holdings[j]) ==> holdings[j].fileId != holdings[k].fileId
  }

  /** Everything shared is a permitted holding, and every permitted holding's file is shared. */
  lemma {:induction false} SharedIsWhatIsPermitted(p: Policy, holdings: seq<Item>)
    ensures forall id :: id in Shared(p, holdings) ==>
              exists k: nat :: First(p, holdings, k) && holdings[k].fileId == id && Shared(p, holdings)[id] == holdings[k]
    ensures forall k: nat :: k < |holdings| && p.Permits(holdings[k]) ==> holdings[k].fileId in Shared(p, holdings)
    decreases |holdings|
  {
    if holdings != [] {
      var init := holdings[..|holdings| - 1];
      SharedIsWhatIsPermitted(p, init);
      forall id | id in Shared(p, holdings)
        ensures exists k: nat :: First(p, holdings, k) && holdings[k].fileId == id && Shared(p, holdings)[id] == holdings[k]
      {
        if id in Shared(p, init) {
          var k: nat :| First(p, init, k) && init[k].fileId == id && Shared(p, init)[id] == init[k];
          assert First(p, holdings, k);
        } else {
          assert First(p, holdings, |init|);
        }
      }
      forall k: nat | k < |holdings| && p.Permits(holdings[k]) ensures holdings[k].fileId in Shared(p, holdings) {
        if k < |init| { assert holdings[k] == init[k]; }
      }
    }
  }

  lemma BeforeIsStrictWeak()
    ensures StrictWeak(Before)
  {
    forall x: Item ensures !Before(x, x) { TextIsIrreflexive(x.fileId.text); }
    forall x: Item, y: Item, z: Item | Before(x, y) && Before(y, z) ensures Before(x, z) {
      TextIsTransitive(x.fileId.text, y.fileId.text, z.fileId.text);
    }
    forall x: Item, y: Item, z: Item | Before(x, z) ensures Before(x, y) || Before(y, z) {
      TextIsTotal(x.fileId.text, y.fileId.text);
      if TextLess(y.fileId.text, x.fileId.text) {
        TextIsTransitive(y.fileId.text, x.fileId.text, z.fileId.text);
      }
    }
  }

  ghost predicate Distinct(items: seq<Item>) {
    forall i, j :: 0 <= i < j < |items| ==> items[i].fileId != items[j].fileId
  }

  /** The index of a list without repeats holds exactly its items. */
  lemma {:induction false} IndexHolds(items: seq<Item>)
    requires Distinct(items)
    ensures forall id :: id in Index(items) ==> Index(items)[id] in items && Index(items)[id].fileId == id
    ensures forall i :: i in items ==> i.fileId in Index(items) && Index(items)[i.fileId] == i
    decreases |items|
  {
    if items != [] {
      var init, last := items[..|items| - 1], items[|items| - 1];
      IndexHolds(init);
      assert items == init + [last];
      forall i | i in items ensures i.fileId in Index(items) && Index(items)[i.fileId] == i {
        if i in init {
          var k :| 0 <= k < |init| && init[k] == i;
          assert items[k].fileId != last.fileId;
        }
      }
    }
  }

  function FileOf(i: Item): Id { i.fileId }

  /** Sorting changes the order and nothing else. */
  lemma SortedItems(items: seq<Item>)
    requires Distinct(items)
    ensures Ascending(Sort(Before, items)) && Index(Sort(Before, items)) == Index(items)
  {
    var r := Sort(Before, items);
    BeforeIsStrictWeak();
    SortSorts(Before, items);
    SortPermutes(Before, items);
    SortDistinct(Before, FileOf, items);
    SameElements(r, items);
    SortedIsAscending(r);
    SameIndex(r, items);
  }

  lemma SortedIsAscending(r: seq<Item>)
    requires Sorted(Before, r) && DistinctBy(FileOf, r)
    ensures Ascending(r)
  {
    forall i, j | 0 <= i < j < |r| ensures Before(r[i], r[j]) {
      TextIsTotal(r[i].fileId.text, r[j].fileId.text);
      assert FileOf(r[i]) != FileOf(r[j]);
      assert r[i].fileId == Id(r[i].fileId.text) && r[j].fileId == Id(r[j].fileId.text);
    }
  }

  lemma SameIndex(r: seq<Item>, s: seq<Item>)
    requires DistinctBy(FileOf, r) && DistinctBy(FileOf, s) && forall i :: i in r <==> i in s
    ensures Index(r) == Index(s)
  {
    assert Distinct(r) by {
      forall i, j | 0 <= i < j < |r| ensures r[i].fileId != r[j].fileId { assert FileOf(r[i]) != FileOf(r[j]); }
    }
    assert Distinct(s) by {
      forall i, j | 0 <= i < j < |s| ensures s[i].fileId != s[j].fileId { assert FileOf(s[i]) != FileOf(s[j]); }
    }
    IndexHolds(r);
    IndexHolds(s);
    forall id | id in Index(r) ensures id in Index(s) && Index(s)[id] == Index(r)[id] {}
    forall id | id in Index(s) ensures id in Index(r) {}
  }

  predicate ManifestValid(m: Manifest) {
    && m.schema == SCHEMA_VERSION && m.swarm.Valid() && m.alias.Valid() && m.revision != 0
    && (forall i :: i in m.items ==> i.Valid() && i.Publishable())
    && (forall i, j :: 0 <= i < j < |m.items| ==> m.items[i].fileId != m.items[j].fileId)
  }

  method Validate(m: Manifest) returns (ok: bool)
    ensures ok == ManifestValid(m)
  {
    if m.schema != SCHEMA_VERSION || !m.swarm.Valid() || !m.alias.Valid() || m.revision == 0 {
      return false;
    }
    var seen: set<Id> := {};
    for k := 0 to |m.items|
      invariant forall i :: i in m.items[..k] ==> i.Valid() && i.Publishable()
      invariant forall i, j :: 0 <= i < j < k ==> m.items[i].fileId != m.items[j].fileId
      invariant forall id :: id in seen <==> exists i :: 0 <= i < k && m.items[i].fileId == id
    {
      var it := m.items[k];
      assert it in m.items;
      if !it.Valid() || it.fileId in seen || !it.Publishable() {
        return false;
      }
      seen := seen + {it.fileId};
      assert m.items[..k + 1] == m.items[..k] + [it];
    }
    assert m.items[..|m.items|] == m.items;
    ok := true;
  }

  /** What every item of a valid manifest carries: the file's own identity, where it belongs, and who vouches for it. */
  lemma PublishedItemsAreIdentified(i: Item)
    ensures i.Valid() && i.Publishable()
       <==> && i.classification == VerifiedEligible && i.reference.Some?
            && i.canonical.sha256 != "" && i.fileId == Id(Lower(i.canonical.sha256))
            && i.platform.text != "" && i.adapter.id != "" && i.adapter.version != ""
  {
    assert i.canonical.sha256 != "" ==> |Lower(i.canonical.sha256)| > 0;
  }

  datatype Snapshot = Snapshot(manifest: Manifest) | NothingToPublish | Refused

  /**
   The full manifest: exactly what the policy shares, each file once, in ascending order. It is refused
   when some shared item is invalid or the revision counter wraps.
   */
  method TakeSnapshot(m: Membership, holdings: seq<Item>) returns (r: Snapshot)
    ensures !m.Valid() ==> r.Refused?
    ensures m.Valid() ==> (r.NothingToPublish? <==> Shared(m.policy, holdings) == map[])
    ensures m.Valid() && !r.NothingToPublish? ==>
              (r.Refused? <==> NextRevision(m.revision) == 0
                               || exists id :: id in Shared(m.policy, holdings) && !Shared(m.policy, holdings)[id].Valid())
    ensures r.Snapshot? ==>
              && Ascending(r.manifest.items) && Index(r.manifest.items) == Shared(m.policy, holdings)
              && ManifestValid(r.manifest)
              && r.manifest == Manifest(SCHEMA_VERSION, m.swarm, m.alias, NextRevision(m.revision), r.manifest.items)
    ensures r.Snapshot? && m.revision < REVISIONS ==> r.manifest.revision == m.revision + 1
    ensures m.policy.swarm != m.swarm || (!m.policy.shareAll && m.policy.platforms == []) ==> r.Refused?
  {
    if !m.Valid() {
      return Refused;
    }
    var items := Collect(m.policy, holdings);
    if items == [] {
      return NothingToPublish;
    }
    SortedItems(items);
    items := Sort(Before, items);
    var manifest := Manifest(SCHEMA_VERSION, m.swarm, m.alias, NextRevision(m.revision), items);
    SoundWhenShared(m, holdings, manifest);
    var ok := Validate(manifest);
    r := if ok then Snapshot(manifest) else Refused;
  }

  /** Filter and drop repeats: of each file, the first permitted holding is kept. */
  method Collect(p: Policy, holdings: seq<Item>) returns (items: seq<Item>)
    ensures Distinct(items) && Index(items) == Shared(p, holdings)
    ensures items == [] <==> Shared(p, holdings) == map[]
  {
    items := [];
    var seen: set<Id> := {};
    for k := 0 to |holdings|
      invariant Distinct(items) && seen == Index(items).Keys && Index(items) == Shared(p, holdings[..k])
      invariant items == [] <==> Index(items) == map[]
    {
      var item := holdings[k];
      assert holdings[..k + 1][..k] == holdings[..k];
      var permitted := IsPermitted(p, item);
      if !permitted || item.fileId in seen {
        continue;
      }
      IndexHolds(items);
      assert (items + [item])[..|items|] == items;
      seen, items := seen + {item.fileId}, items + [item];
    }
    assert holdings[..|holdings|] == holdings;
  }

  lemma SoundWhenShared(m: Membership, holdings: seq<Item>, manifest: Manifest)
    requires m.Valid() && Ascending(manifest.items) && Index(manifest.items) == Shared(m.policy, holdings)
    requires manifest == Manifest(SCHEMA_VERSION, m.swarm, m.alias, NextRevision(m.revision), manifest.items)
    ensures ManifestValid(manifest) <==>
            NextRevision(m.revision) != 0 && forall id :: id in Shared(m.policy, holdings) ==> Shared(m.policy, holdings)[id].Valid()
  {
    var shared := Shared(m.policy, holdings);
    AscendingIsDistinct(manifest.items);
    IndexHolds(manifest.items);
    SharedIsWhatIsPermitted(m.policy, holdings);
    forall i | i in manifest.items ensures i.Publishable() && i.fileId in shared && shared[i.fileId] == i {
      var k: nat :| First(m.policy, holdings, k) && holdings[k].fileId == i.fileId && shared[i.fileId] == holdings[k];
    }
    forall id | id in shared ensures shared[id] in manifest.items {}
  }

  /**
   What is published, against the owner's lists alone. Every item of a manifest is a verified holding on
   neither exclusion list, within the size limit and of a shared platform; and the file of every such holding
   is in the manifest.
   */
  lemma ManifestsHoldWhatTheOwnerShares(p: Policy, holdings: seq<Item>, items: seq<Item>, i: Item)
    requires Distinct(items) && Index(items) == Shared(p, holdings)
    ensures i in items ==> i in holdings
    ensures i in items ==>
              && i.classification == VerifiedEligible
              && i.fileId !in p.excludedFiles && i.platform !in p.excludedPlatforms
              && (p.maxItemBytes > 0 ==> i.canonical.size <= p.maxItemBytes)
              && (p.shareAll || i.platform in p.platforms)
    ensures i in holdings && i.classification == VerifiedEligible
            && i.fileId !in p.excludedFiles && i.platform !in p.excludedPlatforms
            && (p.maxItemBytes > 0 ==> i.canonical.size <= p.maxItemBytes)
            && (p.shareAll || i.platform in p.platforms) ==>
              i.fileId in Index(items)
  {
    IndexHolds(items);
    SharedIsWhatIsPermitted(p, holdings);
    if i in items {
      var k: nat :| First(p, holdings, k) && holdings[k].fileId == i.fileId && Shared(p, holdings)[i.fileId] == holdings[k];
    }
    if i in holdings && p.Permits(i) {
      var k: nat :| k < |holdings| && holdings[k] == i;
    }
  }

  lemma AscendingIsDistinct(items: seq<Item>)
    requires Ascending(items)
    ensures Distinct(items)
  {
    forall i, j | 0 <= i < j < |items| ensures items[i].fileId != items[j].fileId {
      TextIsIrreflexive(items[i].fileId.text);
      assert Before(items[i], items[j]);
    }
  }

  /** Two scans of the same holdings publish the same items in the same order. */
  lemma SnapshotIsDetermined(xs: seq<Item>, ys: seq<Item>)
    requires Ascending(xs) && Ascending(ys) && Index(xs) == Index(ys)
    ensures xs == ys
  {
    AscendingIsSorted(xs);
    AscendingIsSorted(ys);
    IndexHolds(xs);
    IndexHolds(ys);
    forall i | i in xs ensures i in ys { assert i.fileId in Index(ys); }
    forall i | i in ys ensures i in xs { assert i.fileId in Index(xs); }
    SameElementsPermuted(FileOf, xs, ys);
    forall x, y | x in xs && y in xs && x != y ensures Before(x, y) || Before(y, x) {
      assert x.fileId != y.fileId;
      TextIsTotal(x.fileId.text, y.fileId.text);
    }
    SortedOneWay(Before, xs, ys);
  }

  lemma AscendingIsSorted(items: seq<Item>)
    requires Ascending(items)
    ensures Sorted(Before, items) && DistinctBy(FileOf, items) && Distinct(items)
  {
    AscendingIsDistinct(items);
    forall i, j | 0 <= i < j < |items| ensures !Before(items[j], items[i]) && FileOf(items[i]) != FileOf(items[j]) {
      assert Before(items[i], items[j]) && items[i].fileId != items[j].fileId;
      if Before(items[j], items[i]) {
        TextIsTransitive(items[i].fileId.text, items[j].fileId.text, items[i].fileId.text);
        TextIsIrreflexive(items[i].fileId.text);
      }
    }
  }

  // ---- The preview ----

  function Turn(r: Reason): nat {
    match r
    case Unverified => 0
    case FileExcluded => 1
    case PlatformExcluded => 2
    case TooLarge => 3
    case PlatformNotShared => 4
  }

  /** The first rule a holding breaks. */
  ghost predicate Because(p: Policy, i: Item, r: Reason) {
    Breaks(p, i, r) && forall q: Reason :: Turn(q) < Turn(r) ==> !Breaks(p, i, q)
  }

  /** The reasons one by one, against the owner's lists: each is given exactly if no earlier rule is broken. */
  lemma EachReasonExactlyIf(p: Policy, i: Item)
    ensures var allowed, fits := i.fileId !in p.excludedFiles, p.maxItemBytes > 0 ==> i.canonical.size <= p.maxItemBytes;
            && (Because(p, i, Unverified) <==> i.classification != VerifiedEligible)
            && (Because(p, i, FileExcluded) <==> i.classification == VerifiedEligible && !allowed)
            && (Because(p, i, PlatformExcluded) <==>
                  i.classification == VerifiedEligible && allowed && i.platform in p.excludedPlatforms)
            && (Because(p, i, TooLarge) <==>
                  i.classification == VerifiedEligible && allowed && i.platform !in p.excludedPlatforms && !fits)
            && (Because(p, i, PlatformNotShared) <==>
                  i.classification == VerifiedEligible && allowed && i.platform !in p.excludedPlatforms && fits
                  && !p.shareAll && i.platform !in p.platforms)
  {
    assert Turn(Unverified) < Turn(FileExcluded) < Turn(PlatformExcluded) < Turn(TooLarge) < Turn(PlatformNotShared);
    forall q: Reason ensures Breaks(p, i, q) ==> q in {Unverified, FileExcluded, PlatformExcluded, TooLarge, PlatformNotShared} {}
  }

  /** A holding that is not permitted is withheld for the first rule it breaks. */
  method WithheldReason(p: Policy, item: Item) returns (r: Reason)
    requires !p.Permits(item)
    ensures Because(p, item, r)
  {
    if !item.Publishable() {
      return Unverified;
    }
    var excluded := Lists(p.excludedFiles, item.fileId);
    if excluded {
      return FileExcluded;
    }
    excluded := Lists(p.excludedPlatforms, item.platform);
    if excluded {
      return PlatformExcluded;
    }
    r := if p.maxItemBytes > 0 && item.canonical.size > p.maxItemBytes then TooLarge else PlatformNotShared;
  }

  ghost function Count(holdings: seq<Item>, which: Item -> bool): nat {
    if holdings == [] then 0
    else Count(holdings[..|holdings| - 1], which) + if which(holdings[|holdings| - 1]) then 1 else 0
  }

  ghost function Permitted(p: Policy): Item -> bool { (i: Item) => p.Permits(i) }

  ghost function PermittedOn(p: Policy, platform: Id): Item -> bool { (i: Item) => p.Permits(i) && i.platform == platform }

  ghost function WithheldFor(p: Policy, r: Reason): Item -> bool { (i: Item) => !p.Permits(i) && Because(p, i, r) }

  ghost function PermittedCount(p: Policy, holdings: seq<Item>): nat { Count(holdings, Permitted(p)) }

  ghost function PermittedBytes(p: Policy, holdings: seq<Item>): int {
    if holdings == [] then 0
    else
      var last := holdings[|holdings| - 1];
      PermittedBytes(p, holdings[..|holdings| - 1]) + if p.Permits(last) then last.canonical.size else 0
  }

  datatype Preview = Preview(
    published: nat,
    withheld: nat,
    publishedBytes: int,
    byPlatform: multiset<Id>,
    withheldReasons: multiset<Reason>)

  /** The preview of some holdings: each is counted once, under its platform or under its reason. */
  ghost predicate Previews(p: Policy, holdings: seq<Item>, v: Preview) {
    && v.published == PermittedCount(p, holdings) == |v.byPlatform|
    && v.withheld == |holdings| - v.published == |v.withheldReasons|
    && v.publishedBytes == PermittedBytes(p, holdings)
    && (forall id :: v.byPlatform[id] == Count(holdings, PermittedOn(p, id)))
    && (forall r :: v.withheldReasons[r] == Count(holdings, WithheldFor(p, r)))
  }

  /** What a policy would publish and withhold, holding by holding. */
  method PreviewPolicy(p: Policy, holdings: seq<Item>) returns (v: Preview)
    ensures Previews(p, holdings, v)
  {
    v := Preview(0, 0, 0, multiset{}, multiset{});
    for k := 0 to |holdings|
      invariant Previews(p, holdings[..k], v)
    {
      assert holdings[..k + 1][..k] == holdings[..k];
      var ok := IsPermitted(p, holdings[k]);
      if ok {
        OneMorePublished(p, holdings[..k + 1], v);
        v := v.(published := v.published + 1, publishedBytes := v.publishedBytes + holdings[k].canonical.size,
                byPlatform := v.byPlatform + multiset{holdings[k].platform});
      } else {
        var reason := WithheldReason(p, holdings[k]);
        OneMoreWithheld(p, holdings[..k + 1], v, reason);
        v := v.(withheld := v.withheld + 1, withheldReasons := v.withheldReasons + multiset{reason});
      }
    }
    assert holdings[..|holdings|] == holdings;
  }

  lemma OneMorePublished(p: Policy, holdings: seq<Item>, v: Preview)
    requires holdings != [] && p.Permits(holdings[|holdings| - 1]) && Previews(p, holdings[..|holdings| - 1], v)
    ensures var last := holdings[|holdings| - 1];
            Previews(p, holdings, v.(published := v.published + 1, publishedBytes := v.publishedBytes + last.canonical.size,
                                     byPlatform := v.byPlatform + multiset{last.platform}))
  {
  }

  lemma OneMoreWithheld(p: Policy, holdings: seq<Item>, v: Preview, r: Reason)
    requires holdings != [] && !p.Permits(holdings[|holdings| - 1]) && Because(p, holdings[|holdings| - 1], r)
    requires Previews(p, holdings[..|holdings| - 1], v)
    ensures Previews(p, holdings, v.(withheld := v.withheld + 1, withheldReasons := v.withheldReasons + multiset{r}))
  {
    ReasonIsUnique(p, holdings[|holdings| - 1], r);
  }

  lemma ReasonIsUnique(p: Policy, i: Item, r: Reason)
    requires Because(p, i, r)
    ensures forall q :: Because(p, i, q) <==> q == r
  {
    forall q | Because(p, i, q) ensures q == r {
      assert !(Turn(q) < Turn(r)) && !(Turn(r) < Turn(q));
    }
  }

  ghost predicate NoRepeats(p: Policy, holdings: seq<Item>) {
    forall i, j :: 0 <= i < j < |holdings| && p.Permits(holdings[i]) && p.Permits(holdings[j]) ==>
      holdings[i].fileId != holdings[j].fileId
  }

  /**
   The preview against what is published. It never promises less, and it is exact if and only if no two
   permitted holdings are the same file: a file held twice is previewed twice and published once.
   */
  lemma {:induction false} PreviewIsExactWithoutRepeats(p: Policy, holdings: seq<Item>)
    ensures |Shared(p, holdings)| <= PermittedCount(p, holdings)
    ensures |Shared(p, holdings)| == PermittedCount(p, holdings) <==> NoRepeats(p, holdings)
    decreases |holdings|
  {
    if holdings != [] {
      var init, last := holdings[..|holdings| - 1], holdings[|holdings| - 1];
      PreviewIsExactWithoutRepeats(p, init);
      RepeatsGrow(p, holdings);
      if p.Permits(last) && last.fileId !in Shared(p, init) {
        assert Shared(p, holdings).Keys == Shared(p, init).Keys + {last.fileId};
        assert |Shared(p, holdings).Keys| == |Shared(p, init).Keys| + 1;
      }
    }
  }

  lemma RepeatsGrow(p: Policy, holdings: seq<Item>)
    requires holdings != []
    ensures var init, last := holdings[..|holdings| - 1], holdings[|holdings| - 1];
            NoRepeats(p, holdings) <==> NoRepeats(p, init) && !(p.Permits(last) && last.fileId in Shared(p, init))
  {
    var init, last := holdings[..|holdings| - 1], holdings[|holdings| - 1];
    SharedIsWhatIsPermitted(p, init);
    assert forall i :: 0 <= i < |init| ==> init[i] == holdings[i];
    if p.Permits(last) && last.fileId in Shared(p, init) {
      var k: nat :| First(p, init, k) && init[k].fileId == last.fileId && Shared(p, init)[last.fileId] == init[k];
      assert holdings[k].fileId == holdings[|holdings| - 1].fileId;
    }
  }

  // ---- The delta ----

  /** What a Swarm needs to hear about. When a file was last verified is not part of it. */
  predicate Changed(a: Item, b: Item) {
    || a.canonical.sha256 != b.canonical.sha256 || a.availability != b.availability || a.platform != b.platform
    || a.adapter != b.adapter || a.reference != b.reference
  }

  /** The one entry, if any, that tells what became of a file. */
  function EntryFor(before: map<Id, Item>, after: map<Id, Item>, id: Id): Option<Entry> {
    if id in after then
      if id !in before then Some(Entry(Add, id, Some(after[id])))
      else if Changed(before[id], after[id]) then Some(Entry(Update, id, Some(after[id])))
      else None
    else if id in before then Some(Entry(Tombstone, id, None))
    else None
  }

  /** The operations in the order of their names. */
  function OpRank(op: Op): nat {
    match op
    case Add => 0
    case Tombstone => 1
    case Update => 2
  }

  predicate EntryBefore(a: Entry, b: Entry) {
    if a.op != b.op then OpRank(a.op) < OpRank(b.op) else TextLess(a.fileId.text, b.fileId.text)
  }

  function OpName(op: Op): string {
    match op
    case Add => "add"
    case Tombstone => "tombstone"
    case Update => "update"
  }

  /** A sorted delta: additions, then withdrawals, then updates, as their names compare; within each, ascending by file. */
  lemma EntriesComeInOrder(entries: seq<Entry>, i: nat, j: nat)
    requires Sorted(EntryBefore, entries) && DistinctBy(EntryFile, entries) && i < j < |entries|
    ensures var a, b := entries[i], entries[j];
            if a.op == b.op then TextLess(a.fileId.text, b.fileId.text) else TextLess(OpName(a.op), OpName(b.op))
  {
    var a, b := entries[i], entries[j];
    assert !EntryBefore(b, a) && EntryFile(a) != EntryFile(b);
    TextIsTotal(a.fileId.text, b.fileId.text);
    assert a.fileId == Id(a.fileId.text) && b.fileId == Id(b.fileId.text);
    assert TextLess("add", "tombstone") && TextLess("add", "update") && TextLess("tombstone", "update");
  }

  lemma EntryBeforeIsStrictWeak()
    ensures StrictWeak(EntryBefore)
  {
    forall x: Entry ensures !EntryBefore(x, x) { TextIsIrreflexive(x.fileId.text); }
    forall x: Entry, y: Entry, z: Entry | EntryBefore(x, y) && EntryBefore(y, z) ensures EntryBefore(x, z) {
      if x.op == y.op == z.op { TextIsTransitive(x.fileId.text, y.fileId.text, z.fileId.text); }
    }
    forall x: Entry, y: Entry, z: Entry | EntryBefore(x, z) ensures EntryBefore(x, y) || EntryBefore(y, z) {
      TextIsTotal(x.fileId.text, y.fileId.text);
      if x.op == y.op == z.op && TextLess(y.fileId.text, x.fileId.text) {
        TextIsTransitive(y.fileId.text, x.fileId.text, z.fileId.text);
      }
    }
  }

  function EntryFile(e: Entry): Id { e.fileId }

  /** The entries are exactly those the two inventories call for, each once. */
  ghost predicate Tells(entries: seq<Entry>, before: map<Id, Item>, after: map<Id, Item>) {
    && DistinctBy(EntryFile, entries)
    && (forall e :: e in entries ==> EntryFor(before, after, e.fileId) == Some(e))
    && (forall id :: EntryFor(before, after, id).Some? ==> EntryFor(before, after, id).value in entries)
  }

  /** A Swarm that sees the same files, alike in everything it needs to hear about. */
  ghost predicate Agree(before: map<Id, Item>, after: map<Id, Item>) {
    before.Keys == after.Keys && forall id :: id in before && id in after ==> !Changed(before[id], after[id])
  }

  lemma SilenceIsAgreement(entries: seq<Entry>, before: map<Id, Item>, after: map<Id, Item>)
    requires Tells(entries, before, after)
    ensures entries == [] <==> Agree(before, after)
  {
    assert entries != [] ==> EntryFor(before, after, entries[0].fileId) == Some(entries[0]);
    if entries == [] {
      forall id | id in before ensures id in after { assert EntryFor(before, after, id).None?; }
      forall id | id in after ensures id in before && !Changed(before[id], after[id]) {
        assert EntryFor(before, after, id).None?;
      }
    }
  }

  /** The walks over the maps may yield their keys in any order: sorted, the delta is always the same. */
  lemma DeltaIsDetermined(xs: seq<Entry>, ys: seq<Entry>, before: map<Id, Item>, after: map<Id, Item>)
    requires Tells(xs, before, after) && Tells(ys, before, after)
    requires Sorted(EntryBefore, xs) && Sorted(EntryBefore, ys)
    ensures xs == ys
  {
    ToldAlike(xs, ys, before, after);
    ToldAlike(ys, xs, before, after);
    SameElementsPermuted(EntryFile, xs, ys);
    forall x, y | x in xs && y in xs && x != y ensures EntryBefore(x, y) || EntryBefore(y, x) {
      assert EntryFor(before, after, x.fileId) == Some(x) && EntryFor(before, after, y.fileId) == Some(y);
      TextIsTotal(x.fileId.text, y.fileId.text);
    }
    SortedOneWay(EntryBefore, xs, ys);
  }

  lemma ToldAlike(xs: seq<Entry>, ys: seq<Entry>, before: map<Id, Item>, after: map<Id, Item>)
    requires Tells(xs, before, after) && Tells(ys, before, after)
    ensures forall e :: e in xs ==> e in ys
  {
    forall e | e in xs ensures e in ys {
      assert EntryFor(before, after, e.fileId) == Some(e);
    }
  }

  // ---- Applying it ----

  function ApplyEntry(m: map<Id, Item>, e: Entry): map<Id, Item> {
    match e.item
    case Some(item) => m[e.fileId := item]
    case None => m - {e.fileId}
  }

  /** What the receiver holds after taking the entries in order. */
  function Apply(m: map<Id, Item>, entries: seq<Entry>): map<Id, Item> {
    if entries == [] then m else ApplyEntry(Apply(m, entries[..|entries| - 1]), entries[|entries| - 1])
  }

  /** The inventory holds what an entry says of its file. */
  predicate Obeys(r: map<Id, Item>, e: Entry) {
    if e.item.Some? then e.fileId in r && r[e.fileId] == e.item.value else e.fileId !in r
  }

  predicate AlikeAt(r: map<Id, Item>, m: map<Id, Item>, id: Id) {
    (id in r <==> id in m) && (id in m ==> r[id] == m[id])
  }

  lemma OneEntryApplied(m: map<Id, Item>, e: Entry, id: Id)
    ensures Obeys(ApplyEntry(m, e), e)
    ensures id != e.fileId ==> AlikeAt(ApplyEntry(m, e), m, id)
  {
  }

  /** One entry a file: what the entry says; none: as it was. */
  lemma {:induction false} ApplyAt(m: map<Id, Item>, entries: seq<Entry>, id: Id)
    requires DistinctBy(EntryFile, entries)
    ensures forall e :: e in entries && e.fileId == id ==> Obeys(Apply(m, entries), e)
    ensures (forall e :: e in entries ==> e.fileId != id) ==> AlikeAt(Apply(m, entries), m, id)
    decreases |entries|
  {
    if entries != [] {
      var init, last := entries[..|entries| - 1], entries[|entries| - 1];
      LastEntryIsAlone(entries);
      ApplyAt(m, init, id);
      OneEntryApplied(Apply(m, init), last, id);
      forall e | e in entries && e.fileId == id ensures Obeys(Apply(m, entries), e) {
        if e != last {
          assert e in init;
        }
      }
      if forall e :: e in entries ==> e.fileId != id {
        assert last in entries;
        assert forall e :: e in init ==> e in entries;
      }
    }
  }

  lemma LastEntryIsAlone(entries: seq<Entry>)
    requires entries != [] && DistinctBy(EntryFile, entries)
    ensures var init, last := entries[..|entries| - 1], entries[|entries| - 1];
            && entries == init + [last] && DistinctBy(EntryFile, init)
            && forall e :: e in init ==> e.fileId != last.fileId
  {
    var init, last := entries[..|entries| - 1], entries[|entries| - 1];
    forall e | e in init ensures e.fileId != last.fileId {
      var k :| 0 <= k < |init| && init[k] == e;
      assert EntryFile(entries[k]) != EntryFile(last);
    }
  }

  /** The receiver's inventory, after the delta, next to what the policy shares. */
  lemma AppliedAt(entries: seq<Entry>, before: map<Id, Item>, after: map<Id, Item>, id: Id)
    requires Tells(entries, before, after)
    ensures var r := Apply(before, entries);
            && (id in r <==> id in after)
            && (id in r ==> r[id] == after[id] || (id in before && r[id] == before[id] && !Changed(before[id], after[id])))
  {
    ApplyAt(before, entries, id);
    var e := EntryFor(before, after, id);
    if e.Some? {
      assert e.value in entries && e.value.fileId == id;
    } else {
      forall x | x in entries ensures x.fileId != id {
        assert EntryFor(before, after, x.fileId) == Some(x);
      }
    }
  }

  /**
   Patch correctness. From any previous inventory, the delta takes the Swarm to exactly the shared files,
   alike in everything it needs to hear about.
   */
  lemma DeltaReachesTheSnapshot(entries: seq<Entry>, before: map<Id, Item>, after: map<Id, Item>)
    requires Tells(entries, before, after)
    ensures Agree(Apply(before, entries), after)
  {
    forall id ensures id in Apply(before, entries) <==> id in after {
      AppliedAt(entries, before, after, id);
    }
    forall id | id in Apply(before, entries) ensures !Changed(Apply(before, entries)[id], after[id]) {
      AppliedAt(entries, before, after, id);
    }
  }

  /** A second look at the same holdings has nothing to tell. */
  lemma SecondDeltaIsEmpty(entries: seq<Entry>, again: seq<Entry>, before: map<Id, Item>, after: map<Id, Item>)
    requires Tells(entries, before, after) && Tells(again, Apply(before, entries), after)
    ensures again == []
  {
    DeltaReachesTheSnapshot(entries, before, after);
    SilenceIsAgreement(again, Apply(before, entries), after);
  }

  /**
   No entry carries anything but a holding of that file which the owner lets out: verified against the
   catalogue, on neither exclusion list, within the size limit, and of a platform that is shared.
   */
  lemma DeltaLeaksNothing(entries: seq<Entry>, before: map<Id, Item>, p: Policy, holdings: seq<Item>, e: Entry)
    requires Tells(entries, before, Shared(p, holdings)) && e in entries && e.item.Some?
    ensures var i := e.item.value;
            && i in holdings && i.fileId == e.fileId
            && i.classification == VerifiedEligible
            && e.fileId !in p.excludedFiles && i.platform !in p.excludedPlatforms
            && (p.maxItemBytes > 0 ==> i.canonical.size <= p.maxItemBytes)
            && (p.shareAll || i.platform in p.platforms)
  {
    SharedIsWhatIsPermitted(p, holdings);
    assert EntryFor(before, Shared(p, holdings), e.fileId) == Some(e);
    var k: nat :| First(p, holdings, k) && holdings[k].fileId == e.fileId && Shared(p, holdings)[e.fileId] == holdings[k];
  }

  // ---- Computing it ----

  datatype Difference = Changes(delta: Delta) | Unchanged | DiffRefused

  /** The items a failed or empty snapshot leaves are none. */
  method Diff(previous: Manifest, m: Membership, holdings: seq<Item>) returns (r: Difference)
    ensures !m.Valid() ==> r.DiffRefused?
    ensures m.Valid() ==> (r.DiffRefused? <==> Unpublishable(previous, m, holdings))
    ensures m.Valid() && !r.DiffRefused? ==>
              (r.Unchanged? <==> Agree(Index(previous.items), Shared(m.policy, holdings)))
    ensures r.Changes? ==>
              && Tells(r.delta.entries, Index(previous.items), Shared(m.policy, holdings))
              && Sorted(EntryBefore, r.delta.entries) && r.delta.Valid()
              && r.delta == Delta(SCHEMA_VERSION, m.swarm, m.alias, previous.revision, NextRevision(previous.revision), r.delta.entries)
    ensures r.Changes? && previous.revision < REVISIONS - 1 ==> r.delta.to == r.delta.from + 1
  {
    if !m.Valid() {
      return DiffRefused;
    }
    var snapshot := TakeSnapshot(m.(revision := previous.revision), holdings);
    if snapshot.Refused? {
      return DiffRefused;
    }
    var items := if snapshot.Snapshot? then snapshot.manifest.items else [];
    var entries := Compare(Index(previous.items), Index(items));
    SilenceIsAgreement(entries, Index(previous.items), Index(items));
    if entries == [] {
      return Unchanged;
    }
    EntriesAreValid(entries, Index(previous.items), items);
    SortedTells(entries, Index(previous.items), Index(items));
    entries := Sort(EntryBefore, entries);
    var delta := Delta(SCHEMA_VERSION, m.swarm, m.alias, previous.revision, NextRevision(previous.revision), entries);
    r := if delta.Valid() then Changes(delta) else DiffRefused;
  }

  /** Something the policy shares cannot be published, or something to withdraw was never a file. */
  ghost predicate Unpublishable(previous: Manifest, m: Membership, holdings: seq<Item>) {
    var shared := Shared(m.policy, holdings);
    || (shared != map[] && (NextRevision(previous.revision) == 0 || exists id :: id in shared && !shared[id].Valid()))
    || (exists id :: id in Index(previous.items) && id !in shared && !id.Valid())
  }

  /** The two walks over the indexes, in whatever order the maps yield their keys. */
  method Compare(before: map<Id, Item>, after: map<Id, Item>) returns (entries: seq<Entry>)
    ensures Tells(entries, before, after)
  {
    entries := [];
    var left := after.Keys;
    while left != {}
      invariant left <= after.Keys && Partial(entries, before, after, after.Keys - left)
    {
      var id :| id in left;
      left := left - {id};
      if id !in before {
        entries := entries + [Entry(Add, id, Some(after[id]))];
      } else if Changed(before[id], after[id]) {
        entries := entries + [Entry(Update, id, Some(after[id]))];
      }
    }
    left := before.Keys;
    while left != {}
      invariant left <= before.Keys && Partial(entries, before, after, after.Keys + (before.Keys - left))
    {
      var id :| id in left;
      left := left - {id};
      if id !in after {
        entries := entries + [Entry(Tombstone, id, None)];
      }
    }
  }

  /** The entries for the files looked at so far. */
  ghost predicate Partial(entries: seq<Entry>, before: map<Id, Item>, after: map<Id, Item>, done: set<Id>) {
    && DistinctBy(EntryFile, entries)
    && (forall e :: e in entries ==> e.fileId in done && EntryFor(before, after, e.fileId) == Some(e))
    && (forall id :: id in done && EntryFor(before, after, id).Some? ==> EntryFor(before, after, id).value in entries)
  }

  lemma SortedTells(entries: seq<Entry>, before: map<Id, Item>, after: map<Id, Item>)
    requires Tells(entries, before, after)
    ensures Tells(Sort(EntryBefore, entries), before, after) && Sorted(EntryBefore, Sort(EntryBefore, entries))
    ensures forall e :: e in Sort(EntryBefore, entries) <==> e in entries
    ensures |Sort(EntryBefore, entries)| == |entries|
  {
    EntryBeforeIsStrictWeak();
    SortSorts(EntryBefore, entries);
    SortPermutes(EntryBefore, entries);
    SortDistinct(EntryBefore, EntryFile, entries);
    SameElements(Sort(EntryBefore, entries), entries);
  }

  lemma EntriesAreValid(entries: seq<Entry>, before: map<Id, Item>, items: seq<Item>)
    requires Tells(entries, before, Index(items))
    requires Ascending(items) && forall i :: i in items ==> i.Valid() && i.Publishable()
    ensures (forall e :: e in entries ==> e.Valid()) <==> forall id :: id in before && id !in Index(items) ==> id.Valid()
  {
    AscendingIsDistinct(items);
    IndexHolds(items);
    forall e | e in entries ensures e.Valid() <==> (e.op.Tombstone? ==> e.fileId.Valid()) {
      assert EntryFor(before, Index(items), e.fileId) == Some(e);
    }
    forall id | id in before && id !in Index(items) ensures Entry(Tombstone, id, None) in entries {
      assert EntryFor(before, Index(items), id) == Some(Entry(Tombstone, id, None));
    }
    forall e | e in entries && e.op.Tombstone? ensures e.fileId in before && e.fileId !in Index(items) {
      assert EntryFor(before, Index(items), e.fileId) == Some(e);
    }
  }

  /** What a Swarm hears about a file it knows and still may see, in the fields of the two items. */
  lemma AnUpdateIsSentExactlyIf(entries: seq<Entry>, before: map<Id, Item>, after: map<Id, Item>, id: Id)
    requires Tells(entries, before, after) && id in before && id in after
    ensures var a, b := before[id], after[id];
            && (Entry(Update, id, Some(b)) in entries
                <==> !(a.canonical.sha256 == b.canonical.sha256 && a.platform == b.platform && a.availability == b.availability
                       && a.adapter == b.adapter && a.reference == b.reference))
            && forall e :: e in entries && e.fileId == id ==> e == Entry(Update, id, Some(b))
  {
    assert forall e :: e in entries && e.fileId == id ==> EntryFor(before, after, id) == Some(e);
    assert EntryFor(before, after, id).Some? ==> EntryFor(before, after, id).value in entries;
  }
}
