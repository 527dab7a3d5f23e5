/**
 Nintendo DS dumps. A trimmed dump lacks the padding up to the chip's capacity; the adapter streams the
 stored bytes and then the padding. Which dumps come out as the full cartridge, and that the stream is
 the pure reconstruction whatever the reads.
 */
module Nds {
  import opened Numbers
  import opened Streams

  const CAPACITY_OFFSET: nat := 0x14
  const USED_SIZE_OFFSET: nat := 0x80
  const HEADER_SIZE: nat := 0x200
  const MAX_CAPACITY_SHIFT: nat := 12
  const PADDING: Byte := 0xFF

  function Pow2(n: nat): (p: nat)
    ensures p > 0
  {
    if n == 0 then 1 else 2 * Pow2(n - 1)
  }

  /** The device-capacity field: 128 KiB shifted left, if the shift is a real one. */
  function CapacityBytes(field: nat): int {
    if field > MAX_CAPACITY_SHIFT then -1 else 128 * 1024 * Pow2(field)
  }

  function LittleEndian32(b: seq<Byte>): nat
    requires |b| == 4
  {
    (b[0] as nat) + 0x100 * (b[1] as nat) + 0x1_0000 * (b[2] as nat) + 0x100_0000 * (b[3] as nat)
  }

  /** The first byte weighs least: byte k of the field counts 256 to the k times its value. */
  lemma FirstByteWeighsLeast(b: seq<Byte>, x: Byte)
    requires |b| == 4
    ensures LittleEndian32([0, 0, 0, 0]) == 0
    ensures LittleEndian32(b[0 := x]) - LittleEndian32(b) == x as int - b[0] as int
    ensures LittleEndian32(b[1 := x]) - LittleEndian32(b) == 0x100 * (x as int - b[1] as int)
    ensures LittleEndian32(b[2 := x]) - LittleEndian32(b) == 0x1_0000 * (x as int - b[2] as int)
    ensures LittleEndian32(b[3 := x]) - LittleEndian32(b) == 0x100_0000 * (x as int - b[3] as int)
  {
  }

  /** The capacities there are: 128 KiB for zero, twice as much for each step up to 512 MiB for twelve, and none beyond. */
  lemma CapacitiesDouble(field: nat)
    ensures CapacityBytes(0) == 131_072 && CapacityBytes(12) == 536_870_912
    ensures field < 12 ==> CapacityBytes(field + 1) == 2 * CapacityBytes(field)
    ensures CapacityBytes(field) < 0 <==> field > 12
  {
    assert Pow2(4) == 16;
    assert Pow2(8) == 256;
    assert Pow2(12) == 4096;
  }

  /** The header fields the adapter decides by; -1 stands for a capacity that is no cartridge's. */
  function Capacity(dump: seq<Byte>): int
    requires |dump| >= HEADER_SIZE
  {
    CapacityBytes(dump[CAPACITY_OFFSET] as nat)
  }

  function UsedSize(dump: seq<Byte>): nat
    requires |dump| >= HEADER_SIZE
  {
    LittleEndian32(dump[USED_SIZE_OFFSET..USED_SIZE_OFFSET + 4])
  }

  /** How much padding the adapter reconstructs. */
  function PadLength(dump: seq<Byte>): nat
    requires |dump| >= HEADER_SIZE
  {
    var capacity, used := Capacity(dump), UsedSize(dump);
    if capacity < 0 || |dump| >= capacity then 0
    else if used > 0 && |dump| < used then 0
    else capacity - |dump|
  }

  function Padding(n: nat): seq<Byte> { seq(n, i => PADDING) }

  /** The canonical payload of a dump with a whole header. */
  function Reconstruct(dump: seq<Byte>): seq<Byte>
    requires |dump| >= HEADER_SIZE
  {
    dump + Padding(PadLength(dump))
  }

  /**
   What is padded, in the bytes of the dump: one whose capacity field, at 0x14, is at most twelve, that is shorter than
   that capacity and no shorter than the used size in the four bytes at 0x80; and the padding is 0xFF up to the capacity.
   */
  lemma PaddedToItsCapacity(dump: seq<Byte>)
    requires |dump| >= HEADER_SIZE
    ensures var shift, used := dump[0x14] as nat, LittleEndian32(dump[0x80..0x84]);
            |Reconstruct(dump)| == if shift <= 12 && |dump| < 131_072 * Pow2(shift) && |dump| >= used
                                   then 131_072 * Pow2(shift) else |dump|
    ensures dump <= Reconstruct(dump) && forall k :: |dump| <= k < |Reconstruct(dump)| ==> Reconstruct(dump)[k] == 0xFF
  {
  }

  /** A reader of a fixed number of equal bytes. */
  class PadReader {
    const b: Byte
    var remaining: int

    constructor (b: Byte, n: int)
      ensures this.b == b && remaining == n
    {
      this.b, remaining := b, n;
    }

    method Read(dst: array<Byte>) returns (n: nat, e: ReadError)
      modifies this, dst
      ensures n <= dst.Length
      ensures old(remaining) <= 0 ==> n == 0 && e == EndOfFile && remaining == old(remaining)
      ensures old(remaining) > 0 ==> e == NoError && n == Min(dst.Length, old(remaining)) && remaining == old(remaining) - n
      ensures forall i :: 0 <= i < n ==> dst[i] == b
    {
      if remaining <= 0 {
        return 0, EndOfFile;
      }
      n := dst.Length;
      if n > remaining {
        n := remaining;
      }
      var i := 0;
      while i < n
        invariant 0 <= i <= n <= dst.Length
        invariant forall j :: 0 <= j < i ==> dst[j] == b
        invariant remaining == old(remaining)
      {
        dst[i] := b;
        i := i + 1;
      }
      remaining := remaining - n;
      e := NoError;
    }
  }

  /** The stored bytes followed by the padding; `left` is what the caller has still to be given. */
  class Reconstruction {
    const stored: Source
    const pad: PadReader
    var onPad: bool
    ghost var left: seq<Byte>

    constructor (dump: seq<Byte>, sizes: seq<nat>, pad: nat)
      ensures Valid() && left == dump + Padding(pad) && fresh(stored) && fresh(this.pad)
    {
      stored := new Source(dump, false, sizes);
      this.pad := new PadReader(PADDING, pad);
      onPad := false;
      left := dump + Padding(pad);
    }

    ghost predicate Valid()
      reads this, stored, pad
    {
      && stored.Valid() && !stored.broken && pad.b == PADDING && pad.remaining >= 0
      && (onPad ==> stored.Rest() == [])
      && left == stored.Rest() + Padding(pad.remaining)
    }

    /** One read: the stored bytes while they last, then the padding, then the end. */
    method Read(p: array<Byte>) returns (n: nat, e: ReadError)
      requires Valid()
      modifies this, stored, pad, p
      ensures Valid() && n <= p.Length && n <= |old(left)|
      ensures p[..n] == old(left)[..n] && left == old(left)[n..]
      ensures e == if old(left) == [] then EndOfFile else NoError
      ensures p.Length > 0 && old(left) != [] ==> n > 0
    {
      if !onPad {
        n, e := ReadStored(p);
        if e == NoError {
          return;
        }
        onPad := true;
      }
      n, e := ReadPad(p);
    }

    method ReadStored(p: array<Byte>) returns (n: nat, e: ReadError)
      requires Valid()
      modifies this`left, stored, p
      ensures Valid() && n <= p.Length && n <= |old(left)|
      ensures p[..n] == old(left)[..n] && left == old(left)[n..]
      ensures e != NoError ==> n == 0 && stored.Rest() == []
      ensures e == NoError ==> old(left) != [] && (p.Length > 0 ==> n > 0)
    {
      ghost var padded := Padding(pad.remaining);
      var data, stop := stored.Read(p.Length);
      assert left == data + (stored.Rest() + padded) by {
        assert left == (data + stored.Rest()) + padded;
      }
      forall i | 0 <= i < |data| {
        p[i] := data[i];
      }
      assert p[..|data|] == data;
      left := left[|data|..];
      n, e := |data|, stop;
    }

    method ReadPad(p: array<Byte>) returns (n: nat, e: ReadError)
      requires Valid() && onPad
      modifies this`left, pad, p
      ensures Valid() && n <= p.Length && n <= |old(left)|
      ensures p[..n] == old(left)[..n] && left == old(left)[n..]
      ensures e == if old(left) == [] then EndOfFile else NoError
      ensures p.Length > 0 && old(left) != [] ==> n > 0
    {
      ghost var before := pad.remaining;
      assert left == Padding(before);
      n, e := pad.Read(p);
      assert p[..n] == Padding(before)[..n];
      assert Padding(before)[n..] == Padding(before - n);
      left := left[n..];
    }
  }

  /** One read into a buffer of its own. */
  method ReadPiece(r: Reconstruction, length: nat) returns (piece: seq<Byte>, e: ReadError)
    requires r.Valid()
    modifies r, r.stored, r.pad
    ensures r.Valid() && piece + r.left == old(r.left)
    ensures e == if old(r.left) == [] then EndOfFile else NoError
    ensures length > 0 && old(r.left) != [] ==> |piece| > 0
  {
    var p := new Byte[length];
    var n;
    n, e := r.Read(p);
    piece := p[..n];
  }

  /** Any sequence of reads: the output is a prefix of what there was to give, and all of it at the end. */
  method ReadAll(r: Reconstruction, lengths: seq<nat>) returns (out: seq<Byte>, e: ReadError)
    requires r.Valid()
    modifies r, r.stored, r.pad
    ensures r.Valid() && out + r.left == old(r.left)
    ensures e != NoError ==> out == old(r.left) && e == EndOfFile
    ensures e == NoError ==> |out| >= Min(|old(r.left)|, PositiveCount(lengths))
  {
    out, e := [], NoError;
    var i := 0;
    assert lengths[..0] == [];
    while i < |lengths|
      invariant i <= |lengths| && e == NoError && r.Valid()
      invariant out + r.left == old(r.left)
      invariant |out| >= Min(|old(r.left)|, PositiveCount(lengths[..i]))
    {
      assert lengths[..i + 1][..i] == lengths[..i];
      var piece;
      piece, e := ReadPiece(r, lengths[i]);
      if e != NoError {
        return;
      }
      assert out + (piece + r.left) == out + piece + r.left;
      out := out + piece;
      i := i + 1;
    }
    assert lengths[..|lengths|] == lengths;
  }

  datatype Canonical = Canonical(size: nat) | TooShort

  /**
   The adapter: refuse what is shorter than a header, pass through what has no valid capacity, is full,
   is over-full or is cut below its own declared extent, and otherwise pad to capacity. The predicted
   size is the number of bytes the stream yields.
   */
  method Canonicalize(dump: seq<Byte>, sizes: seq<nat>) returns (result: Canonical, reader: Reconstruction)
    ensures result.TooShort? <==> |dump| < HEADER_SIZE
    ensures result.Canonical? ==> reader.Valid() && reader.left == Reconstruct(dump) && result.size == |reader.left|
  {
    if |dump| < HEADER_SIZE {
      reader := new Reconstruction([], sizes, 0);
      return TooShort, reader;
    }
    var capacity := CapacityBytes(dump[CAPACITY_OFFSET] as nat);
    var used := LittleEndian32(dump[USED_SIZE_OFFSET..USED_SIZE_OFFSET + 4]);
    var pad := 0;
    if capacity >= 0 {
      if |dump| == capacity {
      } else if |dump| > capacity {
      } else if used > 0 && |dump| < used {
      } else {
        pad := capacity - |dump|;
      }
    }
    reader := new Reconstruction(dump, sizes, pad);
    result := Canonical(|dump| + pad);
  }

  // ---- What reconstruction means ----

  /** The decision fields live in the header, so they survive any cut or growth after it. */
  lemma HeaderDecides(x: seq<Byte>, y: seq<Byte>)
    requires |x| >= HEADER_SIZE && |y| >= HEADER_SIZE && x[..HEADER_SIZE] == y[..HEADER_SIZE]
    ensures Capacity(x) == Capacity(y) && UsedSize(x) == UsedSize(y)
  {
    FieldInHeader(x);
    FieldInHeader(y);
    assert x[CAPACITY_OFFSET] == x[..HEADER_SIZE][CAPACITY_OFFSET] == y[CAPACITY_OFFSET];
  }

  lemma FieldInHeader(x: seq<Byte>)
    requires |x| >= HEADER_SIZE
    ensures x[USED_SIZE_OFFSET..USED_SIZE_OFFSET + 4] == x[..HEADER_SIZE][USED_SIZE_OFFSET..USED_SIZE_OFFSET + 4]
  {
    var field, inHeader := x[USED_SIZE_OFFSET..USED_SIZE_OFFSET + 4], x[..HEADER_SIZE][USED_SIZE_OFFSET..USED_SIZE_OFFSET + 4];
    assert |field| == |inHeader| == 4;
    assert forall i :: 0 <= i < 4 ==> field[i] == x[USED_SIZE_OFFSET + i] == inHeader[i];
  }

  /**
   A cut of a full dump comes back as the full dump if and only if nothing was cut, or the cut kept the
   declared extent of the game and removed only padding of the byte the adapter guesses.
   */
  lemma TrimmedDumpsComeBack(full: seq<Byte>, cut: nat)
    requires HEADER_SIZE <= cut <= |full| && Capacity(full) == |full|
    ensures Reconstruct(full[..cut]) == full
       <==> cut == |full| || (cut >= UsedSize(full) && forall i :: cut <= i < |full| ==> full[i] == PADDING)
  {
    var trimmed := full[..cut];
    HeaderDecides(trimmed, full);
    if cut < |full| {
      if cut >= UsedSize(full) {
        assert Reconstruct(trimmed)[cut..] == Padding(|full| - cut);
        if Reconstruct(trimmed) == full {
          forall i | cut <= i < |full| ensures full[i] == PADDING {
            assert Reconstruct(trimmed)[i] == PADDING;
          }
        }
      } else {
        assert |Reconstruct(trimmed)| == cut;
      }
    }
  }

  /** Reconstructing what was reconstructed changes nothing. */
  lemma ReconstructIsIdempotent(dump: seq<Byte>)
    requires |dump| >= HEADER_SIZE
    ensures Reconstruct(Reconstruct(dump)) == Reconstruct(dump)
  {
    var once := Reconstruct(dump);
    HeaderDecides(dump, once);
    assert PadLength(once) == 0;
  }

  /** Exactly the trimmed dumps are changed, and each of those becomes a full one. */
  lemma OnlyTrimmedDumpsChange(dump: seq<Byte>)
    requires |dump| >= HEADER_SIZE
    ensures Reconstruct(dump) != dump <==> |dump| < Capacity(dump) && |dump| >= UsedSize(dump)
    ensures Reconstruct(dump) != dump ==> |Reconstruct(dump)| == Capacity(dump) && dump <= Reconstruct(dump)
  {
    if PadLength(dump) > 0 {
      assert |Reconstruct(dump)| > |dump|;
    } else {
      assert Reconstruct(dump) == dump;
    }
  }
}
