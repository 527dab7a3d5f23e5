/**
 The checksum of the Nintendo DS header: CRC-16 with reflected polynomial 0xA001, initial value 0xFFFF
 and no final inversion. Which changes to the header it is certain to notice.
 */
module Crc16 {
  import opened Streams

  type Crc = bv16

  /** One bit of the division. */
  function Bit(c: Crc): Crc {
    if c & 1 != 0 then (c >> 1) ^ 0xA001 else c >> 1
  }

  function Iterate<T>(f: T -> T, c: T, n: nat): T
    decreases n
  {
    if n == 0 then c else Iterate(f, f(c), n - 1)
  }

  lemma IterateOnce<T>(f: T -> T, c: T, n: nat)
    requires n > 0
    ensures Iterate(f, c, n) == Iterate(f, f(c), n - 1)
  {
  }

  /** The eight bits of one byte. */
  function Eight(c: Crc): Crc {
    Iterate(Bit, c, 8)
  }

  function Xor(x: Crc, y: Crc): Crc { x ^ y }

  function Widen(b: Byte): Crc { b as bv16 }

  function Step(c: Crc, b: Byte): Crc {
    Eight(Xor(c, Widen(b)))
  }

  function From<T>(step: (T, Byte) -> T, c: T, data: seq<Byte>): T {
    if data == [] then c else step(From(step, c, data[..|data| - 1]), data[|data| - 1])
  }

  function Checksum(data: seq<Byte>): Crc {
    From(Step, 0xFFFF, data)
  }

  lemma FromSnoc<T>(step: (T, Byte) -> T, c: T, data: seq<Byte>, k: nat)
    requires k < |data|
    ensures From(step, c, data[..k + 1]) == step(From(step, c, data[..k]), data[k])
  {
    assert data[..k + 1][..k] == data[..k];
  }

  /** The inner loop: eight bits of the division, which `bit` describes. */
  method Divide(start: Crc, ghost bit: Crc -> Crc) returns (crc: Crc)
    requires forall c :: bit(c) == if c & 1 != 0 then (c >> 1) ^ 0xA001 else c >> 1
    ensures crc == Iterate(bit, start, 8)
  {
    crc := start;
    var i: nat := 0;
    while i < 8
      invariant i <= 8 && Iterate(bit, crc, 8 - i) == Iterate(bit, start, 8)
    {
      IterateOnce(bit, crc, 8 - i);
      ghost var next := bit(crc);
      if crc & 1 != 0 {
        crc := (crc >> 1) ^ 0xA001;
      } else {
        crc := crc >> 1;
      }
      assert crc == next;
      i := i + 1;
    }
  }

  /** The outer loop, for any byte step made of eight bits of the division. */
  method DivideAll(data: seq<Byte>, ghost bit: Crc -> Crc, ghost step: (Crc, Byte) -> Crc) returns (crc: Crc)
    requires forall c :: bit(c) == if c & 1 != 0 then (c >> 1) ^ 0xA001 else c >> 1
    requires forall c, b :: step(c, b) == Iterate(bit, c ^ (b as bv16), 8)
    ensures crc == From(step, 0xFFFF, data)
  {
    crc := 0xFFFF;
    var k := 0;
    while k < |data|
      invariant k <= |data| && crc == From(step, 0xFFFF, data[..k])
    {
      FromSnoc(step, 0xFFFF, data, k);
      ghost var next := step(crc, data[k]);
      crc := Divide(crc ^ (data[k] as bv16), bit);
      assert crc == next;
      k := k + 1;
    }
    assert data[..|data|] == data;
  }

  /** The source's two nested loops compute the checksum. */
  method Crc16Modbus(data: seq<Byte>) returns (crc: Crc)
    ensures crc == Checksum(data)
  {
    crc := DivideAll(data, Bit, Step);
  }

  /** Two published values: the checksum of nothing, and of one zero byte. */
  lemma KnownChecksums()
    ensures Checksum([]) == 0xFFFF && Checksum([0]) == 0x40BF
  {
    assert [0 as Byte][..0] == [];
    assert Bit(0xFFFF) == 0xDFFE && Bit(0xDFFE) == 0x6FFF && Bit(0x6FFF) == 0x97FE && Bit(0x97FE) == 0x4BFF;
    assert Bit(0x4BFF) == 0x85FE && Bit(0x85FE) == 0x42FF && Bit(0x42FF) == 0x817E && Bit(0x817E) == 0x40BF;
    assert Iterate(Bit, 0x42FF, 2) == 0x40BF;
    assert Iterate(Bit, 0x4BFF, 4) == 0x40BF;
    assert Iterate(Bit, 0x6FFF, 6) == 0x40BF;
    assert Iterate(Bit, 0xFFFF, 8) == 0x40BF;
    assert Xor(0xFFFF, Widen(0)) == 0xFFFF;
    assert Checksum([0]) == Step(0xFFFF, 0);
  }

  // ---- The division is linear and loses nothing ----

  lemma BitIsInjective(x: Crc, y: Crc)
    requires Bit(x) == Bit(y)
    ensures x == y
  {
  }

  lemma ShiftOfXor(x: Crc, y: Crc)
    ensures (x ^ y) >> 1 == (x >> 1) ^ (y >> 1)
  {
  }

  lemma LowBitOfXor(x: Crc, y: Crc)
    ensures (x ^ y) & 1 == (x & 1) ^ (y & 1)
  {
  }

  lemma LowBit(x: Crc)
    ensures x & 1 == 0 || x & 1 == 1
  {
  }

  lemma XorSides(x: Crc, y: Crc, p: Crc)
    ensures (x ^ y) ^ p == (x ^ p) ^ y == x ^ (y ^ p)
    ensures (x ^ p) ^ (y ^ p) == x ^ y
  {
  }

  lemma BitIsLinear(x: Crc, y: Crc)
    ensures Bit(x ^ y) == Bit(x) ^ Bit(y)
  {
    ShiftOfXor(x, y);
    LowBitOfXor(x, y);
    LowBit(x);
    LowBit(y);
    XorSides(x >> 1, y >> 1, 0xA001);
  }

  lemma {:induction false} IterateIsInjective<T(!new)>(f: T -> T, x: T, y: T, n: nat)
    requires forall a, b :: f(a) == f(b) ==> a == b
    requires Iterate(f, x, n) == Iterate(f, y, n)
    ensures x == y
    decreases n
  {
    if n > 0 {
      IterateIsInjective(f, f(x), f(y), n - 1);
    }
  }

  lemma {:induction false} IterateIsLinear<T(!new)>(f: T -> T, op: (T, T) -> T, x: T, y: T, n: nat)
    requires forall a, b :: f(op(a, b)) == op(f(a), f(b))
    ensures Iterate(f, op(x, y), n) == op(Iterate(f, x, n), Iterate(f, y, n))
    decreases n
  {
    if n > 0 {
      IterateIsLinear(f, op, f(x), f(y), n - 1);
    }
  }

  lemma EightIsInjective(x: Crc, y: Crc)
    requires Eight(x) == Eight(y)
    ensures x == y
  {
    forall a, b | Bit(a) == Bit(b) ensures a == b {
      BitIsInjective(a, b);
    }
    IterateIsInjective(Bit, x, y, 8);
  }

  lemma EightIsLinear(x: Crc, y: Crc)
    ensures Eight(Xor(x, y)) == Xor(Eight(x), Eight(y))
  {
    forall a, b ensures Bit(Xor(a, b)) == Xor(Bit(a), Bit(b)) {
      BitIsLinear(a, b);
    }
    IterateIsLinear(Bit, Xor, x, y, 8);
  }

  lemma ClearLowBitsShift(e: Crc)
    requires e < 0x100
    ensures Bit(e << 8) == e << 7 && Bit(e << 7) == e << 6 && Bit(e << 6) == e << 5 && Bit(e << 5) == e << 4
    ensures Bit(e << 4) == e << 3 && Bit(e << 3) == e << 2 && Bit(e << 2) == e << 1 && Bit(e << 1) == e
  {
  }

  lemma UnrollEight<T>(f: T -> T, c: T)
    ensures Iterate(f, c, 8) == f(f(f(f(f(f(f(f(c))))))))
  {
    var d := f(f(f(f(c))));
    assert Iterate(f, c, 8) == Iterate(f, f(c), 7) == Iterate(f, f(f(c)), 6) == Iterate(f, f(f(f(c))), 5);
    assert Iterate(f, d, 4) == Iterate(f, f(d), 3) == Iterate(f, f(f(d)), 2) == Iterate(f, f(f(f(d))), 1);
  }

  /** A byte in the upper half reaches the lower half unchanged after eight bits. */
  lemma UpperByteMovesDown(e: Crc)
    requires e < 0x100
    ensures Eight(e << 8) == e
  {
    ClearLowBitsShift(e);
    UnrollEight(Bit, e << 8);
  }

  /** A difference below 0x100 that eight bits bring below 0x100 again is no difference. */
  lemma SmallDifferenceVanishes(d: Crc, e: Crc)
    requires d < 0x100 && e < 0x100 && Eight(d) == e
    ensures d == 0 && e == 0
  {
    UpperByteMovesDown(e);
    EightIsInjective(d, e << 8);
    SmallAndShifted(d, e);
  }

  lemma SmallAndShifted(d: Crc, e: Crc)
    requires d < 0x100 && e < 0x100 && d == e << 8
    ensures d == 0 && e == 0
  {
  }

  lemma EqualBytes(a: Byte, b: Byte)
    ensures Xor(Widen(a), Widen(b)) < 0x100
    ensures Xor(Widen(a), Widen(b)) == 0 ==> a == b
  {
  }

  lemma ByteDifferencesVanish(a1: Byte, b1: Byte, a2: Byte, b2: Byte)
    requires Eight(Xor(Widen(a1), Widen(a2))) == Xor(Widen(b1), Widen(b2))
    ensures a1 == a2 && b1 == b2
  {
    EqualBytes(a1, a2);
    EqualBytes(b1, b2);
    SmallDifferenceVanishes(Xor(Widen(a1), Widen(a2)), Xor(Widen(b1), Widen(b2)));
  }

  lemma XorDropsMiddle(p: Crc, q: Crc, r: Crc)
    ensures Xor(Xor(p, q), Xor(q, r)) == Xor(p, r)
  {
  }

  lemma XorCancels(p: Crc, q: Crc, r: Crc)
    requires Xor(p, q) == Xor(p, r)
    ensures q == r
  {
  }

  lemma XorCommutes(p: Crc, q: Crc)
    ensures Xor(p, q) == Xor(q, p)
  {
  }

  ghost predicate KeepsDifferences<T(!new)>(op: (T, T) -> T, eight: T -> T) {
    && (forall x, y :: eight(x) == eight(y) ==> x == y)
    && (forall x, y :: eight(op(x, y)) == op(eight(x), eight(y)))
  }

  ghost predicate Cancels<T(!new)>(op: (T, T) -> T) {
    && (forall p, q, r {:trigger op(op(p, q), op(q, r))} :: op(op(p, q), op(q, r)) == op(p, r))
    && (forall p, q :: op(p, q) == op(q, p))
    && (forall p, q, r :: op(p, q) == op(p, r) ==> q == r)
  }

  /** What `EqualEndsBalance` asks of its structure. */
  ghost predicate Balanced<T(!new)>(op: (T, T) -> T, eight: T -> T) {
    KeepsDifferences(op, eight) && Cancels(op)
  }

  /**
   The same in any structure whose operation cancels and whose eight-bit map is injective and respects
   it: if two byte pairs lead from c to the same state, the map takes the difference of the first bytes
   to the difference of the second.
   */
  lemma EqualEndsBalance<T(!new)>(op: (T, T) -> T, eight: T -> T, c: T, a1: T, b1: T, a2: T, b2: T)
    requires Balanced(op, eight)
    requires eight(op(eight(op(c, a1)), b1)) == eight(op(eight(op(c, a2)), b2))
    ensures eight(op(a1, a2)) == op(b1, b2)
  {
    var x1, x2 := op(c, a1), op(c, a2);
    var y1, y2 := eight(x1), eight(x2);
    assert op(y1, b1) == op(y2, b2);
    assert op(op(b1, y1), op(y1, y2)) == op(b1, y2);
    assert op(y1, y2) == op(op(y1, b1), op(b1, y2));
    assert op(op(b2, y2), op(y2, b1)) == op(b2, b1);
    assert op(y1, y2) == op(b1, b2);
    assert op(op(a1, c), op(c, a2)) == op(a1, a2);
    assert op(x1, x2) == op(a1, a2);
  }

  lemma EightKeepsDifferences()
    ensures KeepsDifferences(Xor, Eight)
  {
    forall x, y | Eight(x) == Eight(y) ensures x == y {
      EightIsInjective(x, y);
    }
    forall x, y ensures Eight(Xor(x, y)) == Xor(Eight(x), Eight(y)) {
      EightIsLinear(x, y);
    }
  }

  lemma XorCancelsOut()
    ensures Cancels(Xor)
  {
    forall p, q, r ensures Xor(Xor(p, q), Xor(q, r)) == Xor(p, r) {
      XorDropsMiddle(p, q, r);
    }
    forall p, q ensures Xor(p, q) == Xor(q, p) {
      XorCommutes(p, q);
    }
    forall p, q, r | Xor(p, q) == Xor(p, r) ensures q == r {
      XorCancels(p, q, r);
    }
  }

  /** A byte step that loses nothing: not of the register, and not of two bytes in a row. */
  ghost predicate Sound<T(!new)>(step: (T, Byte) -> T) {
    && (forall c, d, b :: step(c, b) == step(d, b) ==> c == d)
    && (forall c, a1, b1, a2, b2 :: step(step(c, a1), b1) == step(step(c, a2), b2) ==> a1 == a2 && b1 == b2)
  }

  /** Small differences vanish: the map never takes a byte difference to a byte difference but zero to zero. */
  ghost predicate Separates<T(!new)>(op: (T, T) -> T, eight: T -> T, embed: Byte -> T) {
    forall a1, b1, a2, b2 :: eight(op(embed(a1), embed(a2))) == op(embed(b1), embed(b2)) ==> a1 == a2 && b1 == b2
  }

  lemma SoundFromParts<T(!new)>(op: (T, T) -> T, eight: T -> T, embed: Byte -> T, step: (T, Byte) -> T)
    requires Balanced(op, eight) && Separates(op, eight, embed)
    requires forall c, b :: step(c, b) == eight(op(c, embed(b)))
    ensures Sound(step)
  {
    forall c, d, b | step(c, b) == step(d, b) ensures c == d {
      assert op(embed(b), c) == op(c, embed(b)) == op(d, embed(b)) == op(embed(b), d);
    }
    forall c, a1, b1, a2, b2 | step(step(c, a1), b1) == step(step(c, a2), b2) ensures a1 == a2 && b1 == b2 {
      EqualEndsBalance(op, eight, c, embed(a1), embed(b1), embed(a2), embed(b2));
    }
  }

  /** The header's byte step is such a step. */
  lemma StepIsSound()
    ensures Sound(Step)
  {
    EightKeepsDifferences();
    XorCancelsOut();
    EightSeparates();
    SoundFromParts(Xor, Eight, Widen, Step);
  }

  lemma EightSeparates()
    ensures Separates(Xor, Eight, Widen)
  {
    forall a1, b1, a2, b2 | Eight(Xor(Widen(a1), Widen(a2))) == Xor(Widen(b1), Widen(b2)) ensures a1 == a2 && b1 == b2 {
      ByteDifferencesVanish(a1, b1, a2, b2);
    }
  }

  lemma {:induction false} FromAppend<T>(step: (T, Byte) -> T, c: T, x: seq<Byte>, y: seq<Byte>)
    ensures From(step, c, x + y) == From(step, From(step, c, x), y)
    decreases |y|
  {
    if y == [] {
      assert x + y == x;
    } else {
      assert (x + y)[..|x + y| - 1] == x + y[..|y| - 1];
      FromAppend(step, c, x, y[..|y| - 1]);
    }
  }

  lemma {:induction false} FromIsInjective<T(!new)>(step: (T, Byte) -> T, c: T, d: T, data: seq<Byte>)
    requires Sound(step)
    requires From(step, c, data) == From(step, d, data)
    ensures c == d
    decreases |data|
  {
    if data != [] {
      var init, last := data[..|data| - 1], data[|data| - 1];
      assert step(From(step, c, init), last) == step(From(step, d, init), last);
      FromIsInjective(step, c, d, init);
    }
  }

  lemma FromTwo<T>(step: (T, Byte) -> T, c: T, a: Byte, b: Byte)
    ensures From(step, c, [a, b]) == step(step(c, a), b)
  {
    assert [a, b][..1] == [a] && [a][..0] == [];
    assert From(step, c, [a]) == step(From(step, c, []), a);
  }

  /** The two sequences agree except perhaps at positions i and i + 1. */
  ghost predicate DifferOnlyAt(x: seq<Byte>, y: seq<Byte>, i: nat) {
    |x| == |y| && i + 1 < |x| && forall k :: 0 <= k < |x| && k != i && k != i + 1 ==> x[k] == y[k]
  }

  lemma SoundStepsNoticeBursts<T(!new)>(step: (T, Byte) -> T, start: T, x: seq<Byte>, y: seq<Byte>, i: nat)
    requires Sound(step) && DifferOnlyAt(x, y, i) && From(step, start, x) == From(step, start, y)
    ensures x == y
  {
    var pre, post := x[..i], x[i + 2..];
    var xs, ys := [x[i], x[i + 1]], [y[i], y[i + 1]];
    assert x == pre + xs + post && y == pre + ys + post;
    FromAppend(step, start, pre + xs, post);
    FromAppend(step, start, pre + ys, post);
    FromAppend(step, start, pre, xs);
    FromAppend(step, start, pre, ys);
    var c := From(step, start, pre);
    FromIsInjective(step, From(step, c, xs), From(step, c, ys), post);
    FromTwo(step, c, x[i], x[i + 1]);
    FromTwo(step, c, y[i], y[i + 1]);
  }

  /** Any change confined to one byte or to two adjacent bytes changes the checksum. */
  lemma BurstsAreNoticed(x: seq<Byte>, y: seq<Byte>, i: nat)
    requires DifferOnlyAt(x, y, i) && x != y
    ensures Checksum(x) != Checksum(y)
  {
    StepIsSound();
    if Checksum(x) == Checksum(y) {
      SoundStepsNoticeBursts(Step, 0xFFFF, x, y, i);
    }
  }

  // ---- The header check ----

  const HEADER_CRC_OFFSET: nat := 0x15E

  /** The stored little-endian value. */
  function Stored(low: Byte, high: Byte): Crc {
    (low as bv16) | ((high as bv16) << 8)
  }

  /** Whether the header's own checksum matches, and whether there are enough bytes to tell. */
  function HeaderCrcValid(head: seq<Byte>): (result: (bool, bool)) {
    if |head| < HEADER_CRC_OFFSET + 2 then (false, false)
    else (Checksum(head[..HEADER_CRC_OFFSET]) == Stored(head[HEADER_CRC_OFFSET], head[HEADER_CRC_OFFSET + 1]), true)
  }

  /** A valid header damaged in one byte, or two adjacent ones, of the covered region is no longer valid. */
  lemma DamagedHeaderIsRejected(x: seq<Byte>, y: seq<Byte>, i: nat)
    requires HeaderCrcValid(x) == (true, true)
    requires DifferOnlyAt(x, y, i) && x != y && i + 1 < HEADER_CRC_OFFSET
    ensures HeaderCrcValid(y) == (false, true)
  {
    var rx, ry := x[..HEADER_CRC_OFFSET], y[..HEADER_CRC_OFFSET];
    var k :| 0 <= k < |x| && x[k] != y[k];
    assert rx[k] != ry[k];
    BurstsAreNoticed(rx, ry, i);
  }

  lemma StoredHalves(low: Byte, high: Byte)
    ensures Xor(Stored(low, high), Widen(low)) == Widen(high) << 8
    ensures Xor(Widen(high), Widen(high)) == 0
    ensures Widen(high) < 0x100
  {
  }

  lemma OwnBytesGiveZero(low: Byte, high: Byte)
    ensures Step(Step(Stored(low, high), low), high) == 0
  {
    StoredHalves(low, high);
    UpperByteMovesDown(Widen(high));
    ZeroStays();
  }

  lemma SoundStepsHaveOneZero<T(!new)>(step: (T, Byte) -> T, s: T, t: T, low: Byte, high: Byte)
    requires Sound(step) && step(step(s, low), high) == step(step(t, low), high)
    ensures s == t
  {
  }

  /** Feeding a register its own two bytes, low one first, brings it to zero; no other register does. */
  lemma ResidueIsZero(s: Crc, low: Byte, high: Byte)
    ensures Step(Step(s, low), high) == 0 <==> s == Stored(low, high)
  {
    OwnBytesGiveZero(low, high);
    StepIsSound();
    if Step(Step(s, low), high) == 0 {
      SoundStepsHaveOneZero(Step, s, Stored(low, high), low, high);
    }
  }

  lemma ZeroStays()
    ensures Eight(0) == 0
  {
    assert Bit(0) == 0;
    UnrollEight(Bit, 0);
  }

  /** Running the checksum over the region and its stored value ends at zero exactly when the header is valid. */
  lemma ValidHeadersHaveNoResidue(head: seq<Byte>)
    requires |head| >= HEADER_CRC_OFFSET + 2
    ensures Checksum(head[..HEADER_CRC_OFFSET + 2]) == 0 <==> HeaderCrcValid(head).0
  {
    var low, high := head[HEADER_CRC_OFFSET], head[HEADER_CRC_OFFSET + 1];
    var region := head[..HEADER_CRC_OFFSET];
    assert head[..HEADER_CRC_OFFSET + 2] == region + [low, high];
    FromAppend(Step, 0xFFFF, region, [low, high]);
    FromTwo(Step, Checksum(region), low, high);
    ResidueIsZero(Checksum(region), low, high);
  }
}
