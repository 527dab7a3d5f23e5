/**
 The Super Magic Drive copier format: a 512-byte header, then 16 KiB blocks whose odd and even bytes
 have been separated into the two halves. The streaming de-interleaver against the block-wise function
 it must compute, and the interleaver that undoes it.
 */
module Smd {
  import opened Numbers
  import opened Streams

  const HEADER_SIZE: nat := 512
  const BLOCK: nat := 16384
  const HALF: nat := 8192

  /** Where in an interleaved block the byte at position j of the plain block is kept. */
  function KeptAt(j: nat): (k: nat)
    requires j < BLOCK
    ensures k < BLOCK
  {
    if j % 2 == 0 then HALF + j / 2 else j / 2
  }

  /** Where in the plain block the byte at position j of an interleaved block belongs. */
  function BelongsAt(j: nat): (k: nat)
    requires j < BLOCK
    ensures k < BLOCK
  {
    if j < HALF then 2 * j + 1 else 2 * (j - HALF)
  }

  function Whole(n: nat): (m: nat)
    ensures m <= n && m % BLOCK == 0 && n < m + BLOCK
  {
    n - n % BLOCK
  }

  /** De-interleave every whole block; a truncated last block yields nothing. */
  function Deinterleave(body: seq<Byte>): (r: seq<Byte>)
    ensures |r| == Whole(|body|)
  {
    seq(Whole(|body|), k requires 0 <= k < Whole(|body|) => body[k - k % BLOCK + KeptAt(k % BLOCK)])
  }

  function Interleave(bin: seq<Byte>): (r: seq<Byte>)
    ensures |r| == Whole(|bin|)
  {
    seq(Whole(|bin|), k requires 0 <= k < Whole(|bin|) => bin[k - k % BLOCK + BelongsAt(k % BLOCK)])
  }

  lemma PositionsAreInverse(j: nat)
    requires j < BLOCK
    ensures KeptAt(BelongsAt(j)) == j && BelongsAt(KeptAt(j)) == j
  {
  }

  /** Moving inside a block stays in it. */
  lemma InBlock(k: nat, j: nat)
    requires j < BLOCK
    ensures (k - k % BLOCK + j) % BLOCK == j
  {
  }

  lemma InverseAt(x: seq<Byte>, k: nat)
    requires |x| % BLOCK == 0 && k < |x|
    ensures Deinterleave(Interleave(x))[k] == x[k]
    ensures Interleave(Deinterleave(x))[k] == x[k]
  {
    var base, j := k - k % BLOCK, k % BLOCK;
    PositionsAreInverse(j);
    InBlock(k, KeptAt(j));
    InBlock(k, BelongsAt(j));
    assert base + BLOCK <= |x|;
    assert Interleave(x)[base + KeptAt(j)] == x[base + BelongsAt(KeptAt(j))];
    assert Deinterleave(x)[base + BelongsAt(j)] == x[base + KeptAt(BelongsAt(j))];
  }

  /** On whole blocks the two transformations undo each other. */
  lemma Inverses(x: seq<Byte>)
    requires |x| % BLOCK == 0
    ensures Deinterleave(Interleave(x)) == x
    ensures Interleave(Deinterleave(x)) == x
  {
    forall k | 0 <= k < |x|
      ensures Deinterleave(Interleave(x))[k] == x[k] && Interleave(Deinterleave(x))[k] == x[k]
    {
      InverseAt(x, k);
    }
  }

  /** From which position of the body the byte at position k of the output comes. */
  function ComesFrom(k: nat): (m: nat)
    ensures m - m % BLOCK == k - k % BLOCK
  {
    InBlock(k, KeptAt(k % BLOCK));
    k - k % BLOCK + KeptAt(k % BLOCK)
  }

  lemma ShiftByBlock(k: nat)
    requires k >= BLOCK
    ensures ComesFrom(k) >= BLOCK && ComesFrom(k - BLOCK) == ComesFrom(k) - BLOCK
  {
    assert (k - BLOCK) % BLOCK == k % BLOCK;
  }

  lemma WholeByBlock(n: nat)
    requires n >= BLOCK
    ensures Whole(n) == BLOCK + Whole(n - BLOCK)
  {
    assert (n - BLOCK) % BLOCK == n % BLOCK;
  }

  /** In every block the first half holds the odd bytes of the plain image and the second half the even ones. */
  lemma HalvesAreOddAndEven(body: seq<Byte>, b: nat, i: nat)
    requires (b + 1) * 16384 <= |body| && i < 8192
    ensures b * 16384 + 2 * i + 1 < |Deinterleave(body)|
    ensures Deinterleave(body)[b * 16384 + 2 * i + 1] == body[b * 16384 + i]
    ensures Deinterleave(body)[b * 16384 + 2 * i] == body[b * 16384 + 8192 + i]
  {
    assert Whole(|body|) >= (b + 1) * BLOCK;
    InThatBlock(b, 2 * i);
    InThatBlock(b, 2 * i + 1);
    assert Deinterleave(body)[b * BLOCK + 2 * i] == body[b * BLOCK + KeptAt(2 * i)];
    assert Deinterleave(body)[b * BLOCK + (2 * i + 1)] == body[b * BLOCK + KeptAt(2 * i + 1)];
  }

  lemma InThatBlock(b: nat, j: nat)
    requires j < BLOCK
    ensures (b * BLOCK + j) % BLOCK == j && b * BLOCK + j - (b * BLOCK + j) % BLOCK == b * BLOCK
  {
  }

  /** The first block of the output depends on the first block of the body only. */
  lemma FirstBlock(body: seq<Byte>)
    requires |body| >= BLOCK
    ensures Deinterleave(body) == Deinterleave(body[..BLOCK]) + Deinterleave(body[BLOCK..])
  {
    var whole, first, rest := Deinterleave(body), Deinterleave(body[..BLOCK]), Deinterleave(body[BLOCK..]);
    WholeByBlock(|body|);
    assert Whole(BLOCK) == BLOCK;
    assert |whole| == |first| + |rest|;
    forall k: nat | k < |whole| ensures whole[k] == (first + rest)[k] {
      if k < BLOCK {
        FirstBlockAt(body, k);
      } else {
        LaterBlocksAt(body, k);
      }
    }
  }

  lemma FirstBlockAt(body: seq<Byte>, k: nat)
    requires k < BLOCK <= |body| && k < Whole(|body|)
    ensures k < Whole(BLOCK) && Deinterleave(body)[k] == Deinterleave(body[..BLOCK])[k]
  {
    assert k % BLOCK == k && ComesFrom(k) < BLOCK;
    assert Deinterleave(body)[k] == body[ComesFrom(k)];
    assert Deinterleave(body[..BLOCK])[k] == body[..BLOCK][ComesFrom(k)];
  }

  lemma LaterBlocksAt(body: seq<Byte>, k: nat)
    requires BLOCK <= k < Whole(|body|)
    ensures k - BLOCK < Whole(|body| - BLOCK) && Deinterleave(body)[k] == Deinterleave(body[BLOCK..])[k - BLOCK]
  {
    WholeByBlock(|body|);
    ShiftByBlock(k);
    assert Deinterleave(body)[k] == body[ComesFrom(k)];
    assert Deinterleave(body[BLOCK..])[k - BLOCK] == body[BLOCK..][ComesFrom(k - BLOCK)];
  }

  predicate SizeShaped(size: int) {
    size > HEADER_SIZE && (size - HEADER_SIZE) % BLOCK == 0
  }

  predicate HeaderAndBlocks(size: int, n: nat) { n > 0 && size == 512 + n * 16384 }

  /** The accepted sizes are a header and at least one block, and nothing between. */
  lemma ShapedIsAHeaderAndBlocks(size: int)
    ensures SizeShaped(size) <==> exists n: nat :: HeaderAndBlocks(size, n)
  {
    if SizeShaped(size) {
      assert HeaderAndBlocks(size, (size - 512) / 16384);
    }
  }

  /**
   The streaming reader: one block in, one block out, and how much of it has been handed over. `left` is
   what the caller has still to be given and `ending` the error the stream will end with.
   */
  class Deinterleaver {
    const src: Source
    const input: array<Byte>
    const output: array<Byte>
    var filled: bool
    var pos: nat
    var err: ReadError
    ghost var left: seq<Byte>
    ghost var ending: ReadError

    constructor (src: Source)
      requires src.Valid()
      ensures Valid() && this.src == src && fresh(input) && fresh(output)
      ensures left == Deinterleave(src.Rest()) && ending == EndOf(src.Rest(), src.broken)
    {
      this.src := src;
      input := new Byte[BLOCK];
      output := new Byte[BLOCK];
      filled, pos, err := false, 0, NoError;
      left, ending := Deinterleave(src.Rest()), EndOf(src.Rest(), src.broken);
    }

    ghost predicate Valid()
      reads this, src, input, output
    {
      && src.Valid() && input.Length == BLOCK && output.Length == BLOCK && input != output
      && pos <= BLOCK && (!filled ==> pos == 0)
      && left == (if filled then output[pos..] else []) + Deinterleave(src.Rest())
      && (if err == NoError then ending == EndOf(src.Rest(), src.broken) else ending == err && left == [])
    }

    /** Read and de-interleave one block. On failure the source is used up and nothing was left to give. */
    method Fill() returns (e: ReadError)
      requires Valid() && err == NoError && (filled ==> pos == BLOCK)
      modifies this`filled, this`pos, src, input, output
      ensures e == NoError ==> Valid() && filled && pos == 0
      ensures e != NoError ==> filled == old(filled) && pos == old(pos) && src.Valid() && src.Rest() == [] && left == [] && e == ending
    {
      ghost var rest := src.Rest();
      assert left == Deinterleave(rest);
      var n, full := src.ReadFull(input);
      if full != NoError {
        assert src.Rest() == [] && |rest| == n < BLOCK;
        return full;
      }
      assert input[..] == rest[..BLOCK];
      var i := 0;
      while i < HALF
        invariant 0 <= i <= HALF
        invariant input[..] == rest[..BLOCK] && src.Valid() && src.Rest() == rest[BLOCK..]
        invariant filled == old(filled) && pos == old(pos)
        invariant forall j :: 0 <= j < i ==> output[2 * j] == input[HALF + j] && output[2 * j + 1] == input[j]
      {
        output[2 * i] := input[HALF + i];
        output[2 * i + 1] := input[i];
        i := i + 1;
      }
      SameBlock(output[..], rest[..BLOCK]);
      FirstBlock(rest);
      WholeBlockEnds(rest, src.broken);
      filled, pos := true, 0;
      e := NoError;
    }

    /**
     One read into any buffer: it hands over the next bytes of the stream, at least one while any are
     left and the buffer has room, and reports the final error exactly when nothing is left.
     */
    method Read(p: array<Byte>) returns (n: nat, e: ReadError)
      requires Valid() && p != input && p != output
      modifies this, src, input, output, p
      ensures Valid() && n <= p.Length && n <= |old(left)|
      ensures p[..n] == old(left)[..n] && left == old(left)[n..]
      ensures e != NoError <==> old(left) == []
      ensures e != NoError ==> n == 0 && e == old(ending)
      ensures ending == old(ending)
      ensures p.Length > 0 && old(left) != [] ==> n > 0
    {
      if !filled || pos >= BLOCK {
        if err != NoError {
          return 0, err;
        }
        var failure := Fill();
        if failure != NoError {
          err := failure;
          return 0, err;
        }
      }
      n := HandOver(p);
      e := NoError;
    }

    /** Copy out of the current block. */
    method HandOver(p: array<Byte>) returns (n: nat)
      requires Valid() && p != input && p != output && filled && pos < BLOCK
      modifies this`pos, this`left, p
      ensures Valid() && n == Min(p.Length, BLOCK - old(pos)) && n <= |old(left)| && old(left) != []
      ensures p[..n] == old(left)[..n] && left == old(left)[n..]
    {
      n := Min(p.Length, BLOCK - pos);
      forall i | 0 <= i < n {
        p[i] := output[pos + i];
      }
      pos := pos + n;
      left := left[n..];
    }
  }

  /** How a stream over this body ends. */
  function EndOf(body: seq<Byte>, broken: bool): ReadError {
    if broken then DeviceError else if |body| % BLOCK == 0 then EndOfFile else BlockTruncated
  }

  lemma WholeBlockEnds(body: seq<Byte>, broken: bool)
    requires |body| >= BLOCK
    ensures EndOf(body[BLOCK..], broken) == EndOf(body, broken)
  {
    assert (|body| - BLOCK) % BLOCK == |body| % BLOCK;
  }

  lemma SameBlock(out: seq<Byte>, block: seq<Byte>)
    requires |out| == |block| == BLOCK
    requires forall j :: 0 <= j < HALF ==> out[2 * j] == block[HALF + j] && out[2 * j + 1] == block[j]
    ensures out == Deinterleave(block)
  {
    forall k | 0 <= k < BLOCK ensures out[k] == Deinterleave(block)[k] {
      var h := k / 2;
      assert k == 2 * h + k % 2 && h < HALF;
      assert out[2 * h] == block[HALF + h] && out[2 * h + 1] == block[h];
    }
  }

  /**
   Any sequence of reads with any buffer lengths: the concatenated output is a prefix of the pure
   transformation of the body, and the whole of it once a read has reported the end.
   */
  method ReadAll(d: Deinterleaver, lengths: seq<nat>) returns (out: seq<Byte>, e: ReadError)
    requires d.Valid()
    modifies d, d.src, d.input, d.output
    ensures d.Valid() && out + d.left == old(d.left)
    ensures e != NoError ==> out == old(d.left) && e == old(d.ending)
    ensures e == NoError ==> |out| >= Min(|old(d.left)|, PositiveCount(lengths))
  {
    hide Deinterleave;
    ghost var all := d.left;
    out, e := [], NoError;
    var i := 0;
    assert lengths[..0] == [];
    while i < |lengths|
      invariant i <= |lengths| && e == NoError && d.Valid()
      invariant |out| <= |all| && out == all[..|out|] && d.left == all[|out|..]
      invariant d.ending == old(d.ending)
      invariant |out| >= Min(|all|, PositiveCount(lengths[..i]))
    {
      var p := new Byte[lengths[i]];
      var n;
      n, e := d.Read(p);
      if e != NoError {
        return;
      }
      SliceOn(all, |out|, n);
      out := out + p[..n];
      assert lengths[..i + 1][..i] == lengths[..i];
      i := i + 1;
    }
    assert lengths[..|lengths|] == lengths;
  }

  datatype Canonical = Canonical(size: nat) | NotShaped

  /** Open a stored image for canonical reading: only a header plus whole blocks is accepted. */
  method Canonicalize(image: seq<Byte>, sizes: seq<nat>) returns (result: Canonical, reader: Deinterleaver)
    ensures result.Canonical? <==> SizeShaped(|image|)
    ensures result.Canonical? ==>
              && reader.Valid() && reader.left == Deinterleave(image[HEADER_SIZE..])
              && result.size == |image| - HEADER_SIZE == |reader.left|
              && reader.ending == EndOfFile
  {
    var body := if SizeShaped(|image|) then image[HEADER_SIZE..] else [];
    var src := new Source(body, false, sizes);
    reader := new Deinterleaver(src);
    result := if SizeShaped(|image|) then Canonical(|image| - HEADER_SIZE) else NotShaped;
  }

  datatype Image = Image(bytes: seq<Byte>) | NotWholeBlocks

  /** The copier's header: the low byte of the block count, four identifying bytes, and zeros. */
  function HeaderByte(k: nat, blocks: nat): Byte {
    match k
    case 0 => (blocks % 256) as Byte
    case 1 => 0x03
    case 8 => 0xAA
    case 9 => 0xBB
    case 10 => 0x06
    case _ => 0
  }

  /** The interleaver of the fixtures: header, then each block with its odd bytes first. */
  method GenesisSMD(bin: seq<Byte>) returns (image: Image)
    ensures image.Image? <==> |bin| % BLOCK == 0
    ensures image.Image? ==>
              && |image.bytes| == HEADER_SIZE + |bin|
              && (forall k :: 0 <= k < HEADER_SIZE ==> image.bytes[k] == HeaderByte(k, |bin| / BLOCK))
              && image.bytes[HEADER_SIZE..] == Interleave(bin)
  {
    hide Interleave;
    if |bin| % BLOCK != 0 {
      return NotWholeBlocks;
    }
    var blocks := |bin| / BLOCK;
    var header := seq(HEADER_SIZE, i => 0 as Byte);
    header := header[0 := (blocks % 256) as Byte][1 := 0x03][8 := 0xAA][9 := 0xBB][10 := 0x06];
    var body: seq<Byte> := [];
    var b := 0;
    while b < blocks
      invariant 0 <= b <= blocks && |bin| == blocks * BLOCK
      invariant body == Interleave(bin[..b * BLOCK])
    {
      var src := bin[b * BLOCK..(b + 1) * BLOCK];
      var dst := new Byte[BLOCK];
      var i := 0;
      while i < HALF
        invariant 0 <= i <= HALF
        invariant forall j :: 0 <= j < i ==> dst[j] == src[2 * j + 1] && dst[HALF + j] == src[2 * j]
      {
        dst[i] := src[2 * i + 1];
        dst[HALF + i] := src[2 * i];
        i := i + 1;
      }
      SameInterleaved(dst[..], src);
      InterleaveAppend(bin[..b * BLOCK], src);
      assert bin[..(b + 1) * BLOCK] == bin[..b * BLOCK] + src;
      body := body + dst[..];
      b := b + 1;
    }
    assert bin[..blocks * BLOCK] == bin;
    image := Image(header + body);
  }

  lemma SameInterleaved(out: seq<Byte>, block: seq<Byte>)
    requires |out| == |block| == BLOCK
    requires forall j :: 0 <= j < HALF ==> out[j] == block[2 * j + 1] && out[HALF + j] == block[2 * j]
    ensures out == Interleave(block)
  {
    forall k | 0 <= k < BLOCK ensures out[k] == Interleave(block)[k] {
      assert k >= HALF ==> out[HALF + (k - HALF)] == block[2 * (k - HALF)];
    }
  }

  lemma InterleaveAppend(x: seq<Byte>, block: seq<Byte>)
    requires |x| % BLOCK == 0 && |block| == BLOCK
    ensures Interleave(x + block) == Interleave(x) + Interleave(block)
  {
    forall k | 0 <= k < |x| + BLOCK ensures Interleave(x + block)[k] == (Interleave(x) + Interleave(block))[k] {
      AppendAt(x, block, k);
    }
  }

  lemma AppendAt(x: seq<Byte>, block: seq<Byte>, k: nat)
    requires |x| % BLOCK == 0 && |block| == BLOCK && k < |x| + BLOCK
    ensures Whole(|x| + BLOCK) == |x| + BLOCK
    ensures Interleave(x + block)[k] == (Interleave(x) + Interleave(block))[k]
  {
    var at := k - k % BLOCK + BelongsAt(k % BLOCK);
    assert Interleave(x + block)[k] == (x + block)[at];
    if k < |x| {
      assert k - k % BLOCK + BLOCK <= |x|;
      assert Interleave(x)[k] == x[at];
    } else {
      assert (k - |x|) % BLOCK == k % BLOCK;
      assert Interleave(block)[k - |x|] == block[at - |x|];
    }
  }

  /**
   The round trip: an image the interleaver builds is accepted by the adapter exactly when the plain
   image is not empty, and streams back as that plain image.
   */
  method RoundTrip(bin: seq<Byte>, sizes: seq<nat>) returns (result: Canonical, reader: Deinterleaver)
    requires |bin| % BLOCK == 0
    ensures result.Canonical? <==> bin != []
    ensures result.Canonical? ==> reader.Valid() && reader.left == bin && reader.ending == EndOfFile
  {
    var image := GenesisSMD(bin);
    result, reader := Canonicalize(image.bytes, sizes);
    Inverses(bin);
  }
}
