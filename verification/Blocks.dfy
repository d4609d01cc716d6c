/**
 * 128-bit cipher blocks, their big-endian byte form, and doubling in GF(2^128).
 *
 * A block is the list of its bits, most significant first, which is how the OCB and RFC 5297
 * documents describe blocks. The source holds the same 128 bits in a `u128`.
 */
module Blocks {
  import opened Bytes

  type Bits = seq<bool>

  type Block = b: Bits | |b| == 128 witness Zeros(128)

  const BLOCK_SIZE: nat := 16

  function Zeros(n: nat): (r: Bits)
    ensures |r| == n
    ensures forall i :: 0 <= i < n ==> !r[i]
  {
    seq(n, i => false)
  }

  // ----- Xor -----

  function Xor(x: Bits, y: Bits): (r: Bits)
    requires |x| == |y|
    ensures |r| == |x|
    ensures forall i :: 0 <= i < |r| ==> r[i] == (x[i] != y[i])
  {
    seq(|x|, i requires 0 <= i < |x| => x[i] != y[i])
  }

  lemma XorCancel(x: Bits, y: Bits)
    requires |x| == |y|
    ensures Xor(Xor(x, y), y) == x
    ensures Xor(y, Xor(y, x)) == x
    ensures Xor(x, y) == Xor(y, x)
  {}

  lemma XorAssociative(x: Bits, y: Bits, z: Bits)
    requires |x| == |y| == |z|
    ensures Xor(Xor(x, y), z) == Xor(x, Xor(y, z))
  {}

  lemma XorZero(x: Bits)
    ensures Xor(x, Zeros(|x|)) == x
    ensures Xor(Zeros(|x|), x) == x
  {}

  lemma XorSplit(x: Bits, y: Bits, n: nat)
    requires |x| == |y| && n <= |x|
    ensures Xor(x, y)[..n] == Xor(x[..n], y[..n])
    ensures Xor(x, y)[n..] == Xor(x[n..], y[n..])
  {}

  lemma XorPadded(x: Bits, pad: Bits)
    requires |x| <= |pad|
    ensures Xor(x + Zeros(|pad| - |x|), pad) == Xor(pad[..|x|], x) + pad[|x|..]
  {}

  // ----- Bytes and bits -----

  function ToBits(n: nat, width: nat): (r: Bits)
    ensures |r| == width
  {
    if width == 0 then [] else ToBits(n / 2, width - 1) + [n % 2 == 1]
  }

  function Value(bits: Bits): nat {
    if bits == [] then 0
    else 2 * Value(bits[..|bits| - 1]) + (if bits[|bits| - 1] then 1 else 0)
  }

  function Pow2(n: nat): (r: nat)
    ensures r > 0
  {
    if n == 0 then 1 else 2 * Pow2(n - 1)
  }

  lemma {:induction false} ValueBound(bits: Bits)
    ensures Value(bits) < Pow2(|bits|)
  {
    if bits != [] {
      ValueBound(bits[..|bits| - 1]);
    }
  }

  lemma {:induction false} ValueOfToBits(n: nat, width: nat)
    requires n < Pow2(width)
    ensures Value(ToBits(n, width)) == n
  {
    if width > 0 {
      ValueOfToBits(n / 2, width - 1);
      assert ToBits(n, width)[..width - 1] == ToBits(n / 2, width - 1);
    }
  }

  lemma {:induction false} ToBitsOfValue(bits: Bits)
    ensures ToBits(Value(bits), |bits|) == bits
  {
    if bits != [] {
      ToBitsOfValue(bits[..|bits| - 1]);
      assert Value(bits) / 2 == Value(bits[..|bits| - 1]);
    }
  }

  lemma Pow2Of8()
    ensures Pow2(8) == 256
  {
    assert Pow2(4) == 16;
  }

  function ByteOf(bits: Bits): byte
    requires |bits| == 8
  {
    ValueBound(bits);
    Pow2Of8();
    Value(bits)
  }

  /** The bits of a byte string; on 16 bytes this is `u128::from_be_bytes`. */
  function FromBytes(s: seq<byte>): (r: Bits)
    ensures |r| == 8 * |s|
  {
    if s == [] then [] else ToBits(s[0], 8) + FromBytes(s[1..])
  }

  /** The bytes of a bit string; on a block this is `u128::to_be_bytes`. */
  function ToBytes(x: Bits): (s: seq<byte>)
    ensures |s| == |x| / 8
  {
    if |x| < 8 then [] else [ByteOf(x[..8])] + ToBytes(x[8..])
  }

  lemma {:induction false} ToBytesFromBytes(s: seq<byte>)
    ensures ToBytes(FromBytes(s)) == s
  {
    if s != [] {
      var x := FromBytes(s);
      assert x[..8] == ToBits(s[0], 8) && x[8..] == FromBytes(s[1..]);
      Pow2Of8();
      ValueOfToBits(s[0], 8);
      ToBytesFromBytes(s[1..]);
    }
  }

  lemma {:induction false} FromBytesToBytes(x: Bits)
    requires |x| % 8 == 0
    ensures FromBytes(ToBytes(x)) == x
  {
    if x != [] {
      var s := ToBytes(x);
      assert s[1..] == ToBytes(x[8..]);
      ToBitsOfValue(x[..8]);
      FromBytesToBytes(x[8..]);
    }
  }

  lemma {:induction false} FromBytesAppend(s: seq<byte>, t: seq<byte>)
    ensures FromBytes(s + t) == FromBytes(s) + FromBytes(t)
  {
    if s == [] {
      assert s + t == t;
    } else {
      assert (s + t)[0] == s[0] && (s + t)[1..] == s[1..] + t;
      FromBytesAppend(s[1..], t);
    }
  }

  /** The first `n` bytes depend only on the first `8 * n` bits. */
  lemma {:induction false} ToBytesPrefix(x: Bits, n: nat)
    requires 8 * n <= |x|
    ensures ToBytes(x)[..n] == ToBytes(x[..8 * n])
  {
    if n > 0 {
      var p := x[..8 * n];
      assert p[..8] == x[..8] && p[8..] == x[8..][..8 * (n - 1)];
      ToBytesPrefix(x[8..], n - 1);
      assert ToBytes(x)[..n] == [ByteOf(x[..8])] + ToBytes(x[8..])[..n - 1];
    }
  }

  /** The block holding a small integer, such as the bit length of the final block. */
  function Literal(b: byte): Block {
    Zeros(120) + ToBits(b, 8)
  }

  // ----- Doubling -----

  function RotateLeft1(x: Block): Block {
    x[1..] + [x[0]]
  }

  function ShiftLeft1(x: Block): Block {
    x[1..] + [false]
  }

  /** `s2`: rotate left by one, then fold 0x86 in when a bit was carried out. */
  function S2(x: Block): Block {
    Xor(RotateLeft1(x), if RotateLeft1(x)[127] then Literal(0x86) else Zeros(128))
  }

  /** Multiplication by the polynomial x as section 2.3 of RFC 5297 defines it. */
  function Dbl(x: Block): Block {
    if x[0] then Xor(ShiftLeft1(x), Literal(0x87)) else ShiftLeft1(x)
  }

  /** The inverse of doubling. */
  function Halve(x: Block): Block {
    if x[127]
    then [true] + Xor(x, Literal(0x87))[..127]
    else [false] + x[..127]
  }

  /** The bit positions that doubling toggles when a bit is carried out. */
  predicate Tap(i: int) {
    i == 120 || i == 125 || i == 126
  }

  lemma ReductionBytes()
    ensures ToBits(0x86, 8) == [true, false, false, false, false, true, true, false]
    ensures ToBits(0x87, 8) == [true, false, false, false, false, true, true, true]
  {
    assert ToBits(0x8, 4) == [true, false, false, false];
    assert ToBits(0x21, 6) == [true, false, false, false, false, true];
    assert ToBits(0x43, 7) == [true, false, false, false, false, true, true];
  }

  lemma ReductionBits(i: nat)
    requires i < 128
    ensures Literal(0x86)[i] == Tap(i)
    ensures Literal(0x87)[i] == (Tap(i) || i == 127)
  {
    hide ToBits;
    ReductionBytes();
  }

  /** `S2` bit by bit: every bit moves one place up, and the carry toggles the taps. */
  lemma S2Bits(x: Block, i: nat)
    requires i < 128
    ensures S2(x)[i] == if i == 127 then x[0] else x[i + 1] != (x[0] && Tap(i))
  {
    hide Literal;
    ReductionBits(i);
  }

  lemma S2IsDoublingAt(x: Block, i: nat)
    requires i < 128
    ensures S2(x)[i] == Dbl(x)[i]
  {
    hide Literal;
    S2Bits(x, i);
    ReductionBits(i);
  }

  lemma S2IsDoubling(x: Block)
    ensures S2(x) == Dbl(x)
  {
    forall i: nat | i < 128 ensures S2(x)[i] == Dbl(x)[i] { S2IsDoublingAt(x, i); }
  }

  lemma S2LinearAt(x: Block, y: Block, i: nat)
    requires i < 128
    ensures S2(Xor(x, y))[i] == (S2(x)[i] != S2(y)[i])
  {
    S2Bits(x, i);
    S2Bits(y, i);
    S2Bits(Xor(x, y), i);
  }

  lemma S2Linear(x: Block, y: Block)
    ensures S2(Xor(x, y)) == Xor(S2(x), S2(y))
  {
    forall i: nat | i < 128 ensures S2(Xor(x, y))[i] == Xor(S2(x), S2(y))[i] { S2LinearAt(x, y, i); }
  }

  lemma HalveBits(x: Block, i: nat)
    requires i < 128
    ensures Halve(x)[i] == if i == 0 then x[127] else x[i - 1] != (x[127] && Tap(i - 1))
  {
    hide Literal;
    if i > 0 {
      ReductionBits(i - 1);
      assert Halve(x)[i] == (if x[127] then Xor(x, Literal(0x87)) else x)[i - 1];
    }
  }

  lemma HalveS2(x: Block)
    ensures Halve(S2(x)) == x
  {
    S2Bits(x, 127);
    forall i: nat | i < 128 ensures Halve(S2(x))[i] == x[i] {
      HalveBits(S2(x), i);
      if i > 0 {
        S2Bits(x, i - 1);
      }
    }
  }

  lemma S2Halve(x: Block)
    ensures S2(Halve(x)) == x
  {
    HalveBits(x, 0);
    forall i: nat | i < 128 ensures S2(Halve(x))[i] == x[i] {
      S2Bits(Halve(x), i);
      if i < 127 {
        HalveBits(x, i + 1);
      }
    }
  }

  lemma S2Bijective(x: Block, y: Block)
    ensures S2(Halve(x)) == x
    ensures S2(x) == S2(y) <==> x == y
  {
    S2Halve(x);
    HalveS2(x);
    HalveS2(y);
  }

  lemma {:induction false} LeadingRun(y: Block, i: nat)
    requires S2(y) == y && i <= 120
    ensures y[i] == y[0]
  {
    if i > 0 {
      LeadingRun(y, i - 1);
      S2Bits(y, i - 1);
    }
  }

  /** The taps force the carried-out bit of a fixed point, and with it the last bits, to zero. */
  lemma TrailingBits(y: Block)
    requires S2(y) == y
    ensures !y[0]
    ensures !y[121] && !y[122] && !y[123] && !y[124] && !y[125] && !y[126] && !y[127]
  {
    LeadingRun(y, 120);
    S2Bits(y, 120); S2Bits(y, 121); S2Bits(y, 122); S2Bits(y, 123);
    S2Bits(y, 124); S2Bits(y, 125); S2Bits(y, 126); S2Bits(y, 127);
  }

  /** Only the zero block is its own double. */
  lemma S2FixedPoint(y: Block)
    requires S2(y) == y
    ensures y == Zeros(128)
  {
    TrailingBits(y);
    forall i: nat | i < 128 ensures !y[i] {
      if i <= 120 {
        LeadingRun(y, i);
      }
    }
  }

  /** Multiplication by x + 1, the factor applied to the last offset before the tag, loses nothing. */
  lemma TripleInjective(x: Block, y: Block)
    requires Xor(x, S2(x)) == Xor(y, S2(y))
    ensures x == y
  {
    var d := Xor(x, y);
    forall i: nat | i < 128 ensures S2(d)[i] == d[i] {
      S2LinearAt(x, y, i);
      assert Xor(x, S2(x))[i] == Xor(y, S2(y))[i];
    }
    assert S2(d) == d;
    S2FixedPoint(d);
    forall i: nat | i < 128 ensures x[i] == y[i] { assert !d[i]; }
  }
}
