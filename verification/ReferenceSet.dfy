/** One imported reference catalogue: its hash index, and looking a payload up in it. */
module ReferenceSet {
  import opened Wrappers
  import opened Sorting
  import opened Digests

  datatype Entry = Entry(
    romName: string,
    canonicalKey: string,
    regions: seq<string>,
    revisionRank: int,
    flags: seq<string>,
    isBios: bool,
    digest: Digest)

  /** The indexed hashes, strongest first. */
  datatype Kind = Sha256 | Sha1 | Md5 | Crc32

  function HashOf(k: Kind, d: Digest): Hash {
    match k
    case Sha256 => d.sha256
    case Sha1 => d.sha1
    case Md5 => d.md5
    case Crc32 => d.crc32
  }

  type Table = map<Hash, seq<nat>>

  function At(t: Table, h: Hash): seq<nat> { if h in t then t[h] else [] }

  /** The positions of the entries carrying a hash, in catalogue order. */
  function Holders(entries: seq<Entry>, k: Kind, h: Hash): seq<nat> {
    if entries == [] then []
    else
      var rest := Holders(entries[..|entries| - 1], k, h);
      if Lower(HashOf(k, entries[|entries| - 1].digest)) == h then rest + [|entries| - 1] else rest
  }

  lemma {:induction false} HoldersCarry(entries: seq<Entry>, k: Kind, h: Hash)
    ensures var r := Holders(entries, k, h);
            && (forall i :: i in r <==> 0 <= i < |entries| && Lower(HashOf(k, entries[i].digest)) == h)
            && (forall a :: 0 <= a < |r| ==> r[a] < |entries|)
            && (forall a, b :: 0 <= a < b < |r| ==> r[a] < r[b])
    decreases |entries|
  {
    if entries != [] {
      var init := entries[..|entries| - 1];
      HoldersCarry(init, k, h);
      assert forall i :: 0 <= i < |init| ==> init[i] == entries[i];
    }
  }

  /** The table lists, for every hash there is, exactly the entries carrying it. */
  ghost predicate Lists(t: Table, entries: seq<Entry>, k: Kind) {
    forall h :: h != "" ==> At(t, h) == Holders(entries, k, h)
  }

  function Listed(t: Table, h: Hash, i: nat): Table {
    if h != "" then t[h := At(t, h) + [i]] else t
  }

  lemma ListedNext(t: Table, entries: seq<Entry>, k: Kind, i: nat)
    requires i < |entries| && Lists(t, entries[..i], k)
    ensures Lists(Listed(t, HashOf(k, Normalized(entries[i].digest)), i), entries[..i + 1], k)
  {
    var next, lower := entries[..i + 1], HashOf(k, Normalized(entries[i].digest));
    assert next[..|next| - 1] == entries[..i];
    assert lower == Lower(HashOf(k, entries[i].digest));
    forall h | h != "" ensures At(Listed(t, lower, i), h) == Holders(next, k, h) {
      assert At(t, h) == Holders(entries[..i], k, h);
    }
  }

  /** Enter one entry in one table; an entry without this hash is not entered. */
  method Enter(t: Table, ghost k: Kind, h: Hash, i: nat, ghost entries: seq<Entry>) returns (r: Table)
    requires i < |entries| && Lists(t, entries[..i], k) && h == HashOf(k, Normalized(entries[i].digest))
    ensures Lists(r, entries[..i + 1], k)
  {
    ListedNext(t, entries, k, i);
    r := Listed(t, h, i);
  }

  // ---- What agreement on a kind of hash means ----

  predicate AgreesOn(k: Kind, d: Digest, e: Entry) { Agrees(HashOf(k, d), HashOf(k, e.digest)) }

  predicate Carries(k: Kind, e: Entry) { HashOf(k, e.digest) != "" }

  ghost predicate SomeAgrees(k: Kind, d: Digest, entries: seq<Entry>) {
    exists i :: 0 <= i < |entries| && AgreesOn(k, d, entries[i])
  }

  /** The strongest kind of hash on which any entry agrees. */
  ghost function Decisive(d: Digest, entries: seq<Entry>): Option<Kind> {
    if SomeAgrees(Sha256, d, entries) then Some(Sha256)
    else if SomeAgrees(Sha1, d, entries) then Some(Sha1)
    else if SomeAgrees(Md5, d, entries) then Some(Md5)
    else if SomeAgrees(Crc32, d, entries) then Some(Crc32)
    else None
  }

  ghost predicate SomeCarriesAlike(h: Hash, hs: seq<Hash>) {
    exists i :: 0 <= i < |hs| && Agrees(h, hs[i])
  }

  /** The decisive hash is tried in this order, field by field: SHA-256, SHA-1, MD5, CRC-32. */
  lemma DecisiveIsTheStrongest(d: Digest, entries: seq<Entry>)
    ensures var n := |entries|;
            var with256 := SomeCarriesAlike(d.sha256, seq(n, i requires 0 <= i < n => entries[i].digest.sha256));
            var with1 := SomeCarriesAlike(d.sha1, seq(n, i requires 0 <= i < n => entries[i].digest.sha1));
            var with5 := SomeCarriesAlike(d.md5, seq(n, i requires 0 <= i < n => entries[i].digest.md5));
            var with32 := SomeCarriesAlike(d.crc32, seq(n, i requires 0 <= i < n => entries[i].digest.crc32));
            && (Decisive(d, entries) == Some(Sha256) <==> with256)
            && (Decisive(d, entries) == Some(Sha1) <==> !with256 && with1)
            && (Decisive(d, entries) == Some(Md5) <==> !with256 && !with1 && with5)
            && (Decisive(d, entries) == Some(Crc32) <==> !with256 && !with1 && !with5 && with32)
  {
    var n := |entries|;
    AlikeOn(Sha256, d, entries, seq(n, i requires 0 <= i < n => entries[i].digest.sha256));
    AlikeOn(Sha1, d, entries, seq(n, i requires 0 <= i < n => entries[i].digest.sha1));
    AlikeOn(Md5, d, entries, seq(n, i requires 0 <= i < n => entries[i].digest.md5));
    AlikeOn(Crc32, d, entries, seq(n, i requires 0 <= i < n => entries[i].digest.crc32));
  }

  lemma AlikeOn(k: Kind, d: Digest, entries: seq<Entry>, hs: seq<Hash>)
    requires |hs| == |entries| && forall i :: 0 <= i < |entries| ==> HashOf(k, entries[i].digest) == hs[i]
    ensures SomeAgrees(k, d, entries) <==> SomeCarriesAlike(HashOf(k, d), hs)
  {
    if i :| 0 <= i < |entries| && AgreesOn(k, d, entries[i]) {
      assert Agrees(HashOf(k, d), hs[i]);
    }
    if i :| 0 <= i < |hs| && Agrees(HashOf(k, d), hs[i]) {
      assert AgreesOn(k, d, entries[i]);
    }
  }

  /** What a scan of the whole catalogue would accept. */
  predicate Accepts(d: Digest, e: Entry) {
    Digests.Compare(d, e.digest).ok && Digests.Compare(d, e.digest).strength != StrengthNone
  }

  datatype Match = Match(index: nat, strength: Strength)

  class Set {
    const entries: seq<Entry>
    var bySha256: Table
    var bySha1: Table
    var byMd5: Table
    var byCrc: Table

    constructor (entries: seq<Entry>)
      ensures this.entries == entries && Indexed()
    {
      this.entries := entries;
      bySha256, bySha1, byMd5, byCrc := map[], map[], map[], map[];
      new;
      BuildIndex();
    }

    ghost predicate Indexed()
      reads this
    {
      && Lists(bySha256, entries, Sha256) && Lists(bySha1, entries, Sha1)
      && Lists(byMd5, entries, Md5) && Lists(byCrc, entries, Crc32)
    }

    method BuildIndex()
      modifies this
      ensures Indexed()
    {
      bySha256, bySha1, byMd5, byCrc := map[], map[], map[], map[];
      for i := 0 to |entries|
        invariant Lists(bySha256, entries[..i], Sha256) && Lists(bySha1, entries[..i], Sha1)
        invariant Lists(byMd5, entries[..i], Md5) && Lists(byCrc, entries[..i], Crc32)
      {
        var d := Normalized(entries[i].digest);
        bySha256 := Enter(bySha256, Sha256, d.sha256, i, entries);
        bySha1 := Enter(bySha1, Sha1, d.sha1, i, entries);
        byMd5 := Enter(byMd5, Md5, d.md5, i, entries);
        byCrc := Enter(byCrc, Crc32, d.crc32, i, entries);
      }
      assert entries[..|entries|] == entries;
    }

    /** The entries carrying the strongest hash that any entry shares with the payload. */
    method Candidates(canonical: Digest) returns (candidates: seq<nat>)
      requires Indexed()
      ensures Decisive(canonical, entries).None? ==> candidates == []
      ensures Decisive(canonical, entries).Some? ==>
                var k := Decisive(canonical, entries).value;
                forall i :: i in candidates <==> 0 <= i < |entries| && AgreesOn(k, canonical, entries[i])
      ensures forall j :: 0 <= j < |candidates| ==> candidates[j] < |entries|
      ensures forall a, b :: 0 <= a < b < |candidates| ==> candidates[a] < candidates[b]
    {
      var d := Normalized(canonical);
      HitsAgree(bySha256, entries, Sha256, canonical);
      HitsAgree(bySha1, entries, Sha1, canonical);
      HitsAgree(byMd5, entries, Md5, canonical);
      HitsAgree(byCrc, entries, Crc32, canonical);
      if d.sha256 != "" && At(bySha256, d.sha256) != [] {
        candidates := At(bySha256, d.sha256);
      } else if d.sha1 != "" && At(bySha1, d.sha1) != [] {
        candidates := At(bySha1, d.sha1);
      } else if d.md5 != "" && At(byMd5, d.md5) != [] {
        candidates := At(byMd5, d.md5);
      } else if d.crc32 != "" && At(byCrc, d.crc32) != [] {
        candidates := At(byCrc, d.crc32);
      } else {
        candidates := [];
      }
    }

    /**
     Every entry a payload matches: those that agree on the decisive hash and contradict nothing, each
     once, best agreement first and then by name.
     */
    method Lookup(canonical: Digest) returns (out: seq<Match>)
      requires Indexed()
      ensures forall m :: m in out <==>
                && m.index < |entries| && Finds(canonical, entries, m.index)
                && m.strength == Digests.Compare(canonical, entries[m.index].digest).strength
      ensures DistinctBy(IndexOf, out)
      ensures Sorted((x: Match, y: Match) => Ahead(entries, x, y), out)
    {
      var candidates := Candidates(canonical);
      out := [];
      for c := 0 to |candidates|
        invariant out == Judged(canonical, entries, candidates[..c])
      {
        assert candidates[..c + 1][..c] == candidates[..c];
        CompareIsSymmetric(canonical, entries[candidates[c]].digest);
        var strength, ok := CompareFields(Normalized(canonical), entries[candidates[c]].digest);
        if ok && strength != StrengthNone {
          out := out + [Match(candidates[c], strength)];
        }
      }
      assert candidates[..|candidates|] == candidates;
      JudgedAre(canonical, entries, candidates);
      out := SortMatches(entries, out);
    }
  }

  /** The candidates the full comparison accepts, with how well they agree. */
  function Judged(d: Digest, entries: seq<Entry>, candidates: seq<nat>): seq<Match>
    requires forall j :: 0 <= j < |candidates| ==> candidates[j] < |entries|
  {
    if candidates == [] then []
    else
      var rest, i := Judged(d, entries, candidates[..|candidates| - 1]), candidates[|candidates| - 1];
      if Accepts(d, entries[i]) then rest + [Match(i, Digests.Compare(d, entries[i].digest).strength)] else rest
  }

  lemma {:induction false} JudgedAre(d: Digest, entries: seq<Entry>, candidates: seq<nat>)
    requires forall j :: 0 <= j < |candidates| ==> candidates[j] < |entries|
    requires forall a, b :: 0 <= a < b < |candidates| ==> candidates[a] < candidates[b]
    ensures forall m :: m in Judged(d, entries, candidates) <==>
              && m.index in candidates && Accepts(d, entries[m.index])
              && m.strength == Digests.Compare(d, entries[m.index].digest).strength
    ensures DistinctBy(IndexOf, Judged(d, entries, candidates))
    decreases |candidates|
  {
    if candidates != [] {
      var init, i := candidates[..|candidates| - 1], candidates[|candidates| - 1];
      JudgedAre(d, entries, init);
      assert candidates == init + [i];
      JudgedBefore(d, entries, init, Judged(d, entries, init), i);
    }
  }

  /** What was judged before stands at other positions than a later candidate. */
  lemma JudgedBefore(d: Digest, entries: seq<Entry>, init: seq<nat>, rest: seq<Match>, i: nat)
    requires forall j :: 0 <= j < |init| ==> init[j] < i
    requires forall m :: m in rest ==> m.index in init
    ensures forall j :: 0 <= j < |rest| ==> rest[j].index != i
  {
    forall j | 0 <= j < |rest| ensures rest[j].index != i {
      assert rest[j] in rest;
    }
  }

  function IndexOf(m: Match): nat { m.index }

  /** A lookup finds an entry: it agrees on the decisive hash and the full comparison accepts it. */
  ghost predicate Finds(d: Digest, entries: seq<Entry>, i: nat)
    requires i < |entries|
  {
    Decisive(d, entries).Some? && AgreesOn(Decisive(d, entries).value, d, entries[i]) && Accepts(d, entries[i])
  }

  function NameAt(entries: seq<Entry>, i: nat): string { if i < |entries| then entries[i].romName else "" }

  predicate Ahead(entries: seq<Entry>, x: Match, y: Match) {
    if x.strength != y.strength then Digests.Rank(x.strength) > Digests.Rank(y.strength)
    else TextLess(NameAt(entries, x.index), NameAt(entries, y.index))
  }

  method SortMatches(entries: seq<Entry>, ms: seq<Match>) returns (out: seq<Match>)
    requires DistinctBy(IndexOf, ms)
    ensures forall m :: m in out <==> m in ms
    ensures DistinctBy(IndexOf, out)
    ensures Sorted((x: Match, y: Match) => Ahead(entries, x, y), out)
  {
    var less := (x: Match, y: Match) => Ahead(entries, x, y);
    AheadIsStrictWeak(entries);
    SortSorts(less, ms);
    SortPermutes(less, ms);
    SortDistinct(less, IndexOf, ms);
    out := Sort(less, ms);
    SameElements(out, ms);
  }

  lemma AheadIsStrictWeak(entries: seq<Entry>)
    ensures StrictWeak((x: Match, y: Match) => Ahead(entries, x, y))
  {
    forall x: Match ensures !Ahead(entries, x, x) { TextIsIrreflexive(NameAt(entries, x.index)); }
    forall x: Match, y: Match, z: Match | Ahead(entries, x, y) && Ahead(entries, y, z) ensures Ahead(entries, x, z) {
      if x.strength == y.strength == z.strength {
        TextIsTransitive(NameAt(entries, x.index), NameAt(entries, y.index), NameAt(entries, z.index));
      }
    }
    forall x: Match, y: Match, z: Match | Ahead(entries, x, z) ensures Ahead(entries, x, y) || Ahead(entries, y, z) {
      var a, b, c := NameAt(entries, x.index), NameAt(entries, y.index), NameAt(entries, z.index);
      TextIsTotal(a, b);
      if x.strength == y.strength == z.strength && TextLess(b, a) {
        TextIsTransitive(b, a, c);
      }
    }
  }

  lemma HitsAgree(t: Table, entries: seq<Entry>, k: Kind, canonical: Digest)
    requires Lists(t, entries, k)
    ensures var h := HashOf(k, Normalized(canonical));
            && (h != "" && At(t, h) != [] <==> SomeAgrees(k, canonical, entries))
            && (h != "" ==> forall i :: i in At(t, h) <==> 0 <= i < |entries| && AgreesOn(k, canonical, entries[i]))
            && (h != "" ==> forall j :: 0 <= j < |At(t, h)| ==> At(t, h)[j] < |entries|)
            && (h != "" ==> forall a, b :: 0 <= a < b < |At(t, h)| ==> At(t, h)[a] < At(t, h)[b])
  {
    var h := HashOf(k, Normalized(canonical));
    if h != "" {
      assert At(t, h) == Holders(entries, k, h);
      HoldersAgree(entries, k, h, canonical);
    }
  }

  lemma HoldersAgree(entries: seq<Entry>, k: Kind, h: Hash, canonical: Digest)
    requires h == HashOf(k, Normalized(canonical)) && h != ""
    ensures var r := Holders(entries, k, h);
            && (forall i :: i in r <==> 0 <= i < |entries| && AgreesOn(k, canonical, entries[i]))
            && (forall j :: 0 <= j < |r| ==> r[j] < |entries|)
            && (forall a, b :: 0 <= a < b < |r| ==> r[a] < r[b])
            && (r != [] <==> SomeAgrees(k, canonical, entries))
  {
    var r := Holders(entries, k, h);
    HoldersCarry(entries, k, h);
    assert h == Lower(HashOf(k, canonical));
    forall i | 0 <= i < |entries|
      ensures Lower(HashOf(k, entries[i].digest)) == h <==> AgreesOn(k, canonical, entries[i])
    {
      assert |Lower(HashOf(k, entries[i].digest))| == |HashOf(k, entries[i].digest)|;
    }
    assert r != [] ==> r[0] in r;
    if SomeAgrees(k, canonical, entries) {
      var i :| 0 <= i < |entries| && AgreesOn(k, canonical, entries[i]);
      assert i in r;
    }
  }

  // ---- Against a scan of the whole catalogue ----

  /** Agreement on any one hash without contradiction is already a match. */
  lemma AgreementIsAMatch(k: Kind, d: Digest, e: Entry)
    requires AgreesOn(k, d, e)
    ensures Accepts(d, e) <==> !Contradicts(d, e.digest)
  {
  }

  /**
   The index against the scan. A lookup finds nothing a scan would not; and it misses exactly those
   matches whose entry does not carry the decisive hash at all.
   */
  lemma LookupMissesOnlyWhatLacksTheDecisiveHash(d: Digest, entries: seq<Entry>, i: nat)
    requires i < |entries|
    ensures Finds(d, entries, i) ==> Accepts(d, entries[i])
    ensures Accepts(d, entries[i]) ==>
              Decisive(d, entries).Some? && (Finds(d, entries, i) <==> Carries(Decisive(d, entries).value, entries[i]))
  {
    if Accepts(d, entries[i]) {
      AcceptedAgrees(d, entries, i);
      var k := Decisive(d, entries).value;
      DecisiveAgrees(d, entries);
      var j :| 0 <= j < |entries| && AgreesOn(k, d, entries[j]);
      assert Carries(k, entries[i]) ==> Clashes(HashOf(k, d), HashOf(k, entries[i].digest)) || AgreesOn(k, d, entries[i]);
    }
  }

  lemma AcceptedAgrees(d: Digest, entries: seq<Entry>, i: nat)
    requires i < |entries| && Accepts(d, entries[i])
    ensures Decisive(d, entries).Some?
  {
    var e := entries[i];
    assert AgreesOn(Sha256, d, e) || AgreesOn(Sha1, d, e) || AgreesOn(Md5, d, e) || AgreesOn(Crc32, d, e);
  }

  lemma DecisiveAgrees(d: Digest, entries: seq<Entry>)
    requires Decisive(d, entries).Some?
    ensures SomeAgrees(Decisive(d, entries).value, d, entries)
  {
  }

  /** Where the whole catalogue carries the decisive hash, or no hash agrees at all, the two are the same. */
  lemma LookupIsTheScanOnAUniformCatalogue(d: Digest, entries: seq<Entry>)
    requires Decisive(d, entries).Some? ==> forall e :: e in entries ==> Carries(Decisive(d, entries).value, e)
    ensures forall i: nat :: i < |entries| ==> (Finds(d, entries, i) <==> Accepts(d, entries[i]))
  {
    forall i: nat | i < |entries| ensures Finds(d, entries, i) <==> Accepts(d, entries[i]) {
      LookupMissesOnlyWhatLacksTheDecisiveHash(d, entries, i);
    }
  }

  /** Where it does not, matches are missed: an entry known only by SHA-1 beside one known by SHA-256. */
  lemma LookupMissesBesideAStrongerEntry(a: Entry, b: Entry, sha256: Hash, sha1: Hash)
    requires sha256 != "" && sha1 != ""
    requires a.digest == Digest(0, "", "", "", sha256) && b.digest == Digest(0, "", "", sha1, "")
    ensures var d, entries := Digest(0, "", "", sha1, sha256), [a, b];
            Accepts(d, b) && !Finds(d, entries, 1) && Finds(d, entries, 0)
  {
    var d, entries := Digest(0, "", "", sha1, sha256), [a, b];
    assert AgreesOn(Sha256, d, entries[0]);
  }
}
