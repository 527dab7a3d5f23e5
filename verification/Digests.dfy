/** The four hashes of one byte stream and how two such records agree. */
module Digests {
  type Hash = string

  datatype Digest = Digest(size: int, crc32: Hash, md5: Hash, sha1: Hash, sha256: Hash)

  /** How strongly two digests agree; the order is the declaration order. */
  datatype Strength = StrengthNone | Weak | Catalogue | Strong

  function Rank(s: Strength): nat {
    match s
    case StrengthNone => 0
    case Weak => 1
    case Catalogue => 2
    case Strong => 3
  }

  function LowerChar(c: char): char {
    if 'A' <= c <= 'Z' then (c as int - 'A' as int + 'a' as int) as char else c
  }

  function Lower(s: string): (r: string)
    ensures |r| == |s|
  {
    seq(|s|, i requires 0 <= i < |s| => LowerChar(s[i]))
  }

  function Normalized(d: Digest): Digest {
    Digest(d.size, Lower(d.crc32), Lower(d.md5), Lower(d.sha1), Lower(d.sha256))
  }

  lemma LowerIsIdempotent(s: string)
    ensures Lower(Lower(s)) == Lower(s)
  {
  }

  lemma NormalizedIsIdempotent(d: Digest)
    ensures Normalized(Normalized(d)) == Normalized(d)
  {
    LowerIsIdempotent(d.crc32);
    LowerIsIdempotent(d.md5);
    LowerIsIdempotent(d.sha1);
    LowerIsIdempotent(d.sha256);
  }

  // ---- What agreement means ----

  /** Both sides carry this hash and it is the same but for letter case. */
  predicate Agrees(x: Hash, y: Hash) { x != "" && y != "" && Lower(x) == Lower(y) }

  /** Both sides carry this hash and it differs. */
  predicate Clashes(x: Hash, y: Hash) { x != "" && y != "" && Lower(x) != Lower(y) }

  /** Some populated field actively disagrees. */
  predicate Contradicts(a: Digest, b: Digest) {
    || (a.size != 0 && b.size != 0 && a.size != b.size)
    || Clashes(a.crc32, b.crc32) || Clashes(a.md5, b.md5) || Clashes(a.sha1, b.sha1) || Clashes(a.sha256, b.sha256)
  }

  /** The strongest kind of hash on which the two agree. */
  function Agreement(a: Digest, b: Digest): Strength {
    if Agrees(a.sha256, b.sha256) then Strong
    else if Agrees(a.sha1, b.sha1) || Agrees(a.md5, b.md5) then Catalogue
    else if Agrees(a.crc32, b.crc32) then Weak
    else StrengthNone
  }

  datatype Comparison = Comparison(strength: Strength, ok: bool)

  function Compare(a: Digest, b: Digest): Comparison {
    if Contradicts(a, b) then Comparison(StrengthNone, false) else Comparison(Agreement(a, b), true)
  }

  /** The source's walk over the four hashes, weakest first, keeping the best level seen. */
  method CompareFields(d: Digest, other: Digest) returns (strength: Strength, ok: bool)
    ensures Comparison(strength, ok) == Compare(d, other)
  {
    var a, b := Normalized(d), Normalized(other);
    if a.size != 0 && b.size != 0 && a.size != b.size {
      return StrengthNone, false;
    }
    var xs, ys := [a.crc32, a.md5, a.sha1, a.sha256], [b.crc32, b.md5, b.sha1, b.sha256];
    var levels := [Weak, Catalogue, Catalogue, Strong];
    ghost var ds, os := [d.crc32, d.md5, d.sha1, d.sha256], [other.crc32, other.md5, other.sha1, other.sha256];
    assert forall k :: 0 <= k < 4 ==> xs[k] == Lower(ds[k]) && ys[k] == Lower(os[k]);
    var best := StrengthNone;
    var i := 0;
    while i < 4
      invariant 0 <= i <= 4
      invariant forall k :: 0 <= k < i ==> !Clashes(ds[k], os[k])
      invariant forall k :: 0 <= k < i && Agrees(ds[k], os[k]) ==> Rank(best) >= Rank(levels[k])
      invariant best == StrengthNone || exists k :: 0 <= k < i && Agrees(ds[k], os[k]) && best == levels[k]
    {
      if xs[i] != "" && ys[i] != "" {
        if xs[i] != ys[i] {
          assert Clashes(ds[i], os[i]);
          return StrengthNone, false;
        }
        assert Agrees(ds[i], os[i]);
        if Rank(levels[i]) > Rank(best) {
          best := levels[i];
        }
      }
      i := i + 1;
    }
    assert !Clashes(ds[0], os[0]) && !Clashes(ds[1], os[1]) && !Clashes(ds[2], os[2]) && !Clashes(ds[3], os[3]);
    assert Agrees(ds[3], os[3]) ==> Rank(best) >= Rank(levels[3]);
    assert Agrees(ds[2], os[2]) ==> Rank(best) >= Rank(levels[2]);
    assert Agrees(ds[1], os[1]) ==> Rank(best) >= Rank(levels[1]);
    assert Agrees(ds[0], os[0]) ==> Rank(best) >= Rank(levels[0]);
    strength, ok := best, true;
  }

  /** Comparison does not depend on the side or on letter case. */
  lemma CompareIsSymmetric(a: Digest, b: Digest)
    ensures Compare(a, b) == Compare(b, a)
    ensures Compare(Normalized(a), b) == Compare(a, b)
  {
    LowerIsIdempotent(a.crc32);
    LowerIsIdempotent(a.md5);
    LowerIsIdempotent(a.sha1);
    LowerIsIdempotent(a.sha256);
  }

  /** The same characters, or the two cases of one letter. */
  predicate SameLetter(c: char, d: char) {
    || c == d
    || ('A' <= c <= 'Z' && d as int == c as int + 32)
    || ('A' <= d <= 'Z' && c as int == d as int + 32)
  }

  /** Two texts fold together exactly if they are the same but for the case of letters. */
  lemma LowerIgnoresCaseAlone(s: string, t: string)
    ensures Lower(s) == Lower(t) <==> |s| == |t| && forall i :: 0 <= i < |s| ==> SameLetter(s[i], t[i])
  {
    if Lower(s) == Lower(t) {
      assert |s| == |t|;
      forall i | 0 <= i < |s| ensures SameLetter(s[i], t[i]) {
        assert LowerChar(s[i]) == Lower(s)[i] == Lower(t)[i] == LowerChar(t[i]);
      }
    }
  }

  /**
   The strength of an agreement in the fields of the two digests. It is strong exactly if both carry a SHA-256;
   otherwise it is the catalogue's if both carry a SHA-1 or both an MD5, weak if both carry a CRC-32, and none
   if no hash is on both sides. There is no agreement at all exactly if some field is on both sides and differs.
   */
  lemma StrengthIsOfTheFields(a: Digest, b: Digest)
    ensures var c := Compare(a, b);
            && (!c.ok <==> (a.size != 0 && b.size != 0 && a.size != b.size)
                           || (a.crc32 != "" && b.crc32 != "" && Lower(a.crc32) != Lower(b.crc32))
                           || (a.md5 != "" && b.md5 != "" && Lower(a.md5) != Lower(b.md5))
                           || (a.sha1 != "" && b.sha1 != "" && Lower(a.sha1) != Lower(b.sha1))
                           || (a.sha256 != "" && b.sha256 != "" && Lower(a.sha256) != Lower(b.sha256)))
            && (c.ok ==>
                  var both256, both1 := a.sha256 != "" && b.sha256 != "", a.sha1 != "" && b.sha1 != "";
                  var both5, both32 := a.md5 != "" && b.md5 != "", a.crc32 != "" && b.crc32 != "";
                  && (c.strength == Strong <==> both256)
                  && (c.strength == Catalogue <==> !both256 && (both1 || both5))
                  && (c.strength == Weak <==> !both256 && !both1 && !both5 && both32)
                  && (c.strength == StrengthNone <==> !both256 && !both1 && !both5 && !both32))
            && (!c.ok ==> c.strength == StrengthNone)
  {
  }
}
