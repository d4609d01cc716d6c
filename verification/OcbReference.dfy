/**
 * OCB2 written down block by block: offsets, ciphertext blocks, final pad, checksum and tag of a message as plain
 * formulas over the cipher, xor and the doubling of section 2.3 of RFC 5297, and the proof that the mode computes them.
 */
module OcbReference {
  import opened Arithmetic
  import opened Bytes
  import opened Blocks
  import Ocb
  import Varint

  // ----- Bits, bytes and nonces -----

  lemma {:induction false} BitOf(n: nat, width: nat, j: nat)
    requires j < width
    ensures ToBits(n, width)[j] == (n / Pow2(width - 1 - j) % 2 == 1)
  {
    if j < width - 1 {
      BitOf(n / 2, width - 1, j);
      QuotientTwice(n, 2, Pow2(width - 2 - j));
    }
  }

  /** Bytes in order, and in each byte the most significant bit first. */
  lemma {:induction false} BitOfBytes(s: seq<byte>, k: nat, j: nat)
    requires k < |s| && j < 8
    ensures FromBytes(s)[8 * k + j] == (s[k] / Pow2(7 - j) % 2 == 1)
  {
    hide ToBits;
    if k == 0 {
      BitOf(s[0], 8, j);
    } else {
      BitOfBytes(s[1..], k - 1, j);
    }
  }

  lemma {:induction false} ByteOfLittleEndian(n: nat, width: nat, k: nat)
    requires k < width
    ensures Ocb.LittleEndian(n, width)[k] == n / Varint.Pow256(k) % 256
  {
    if k > 0 {
      ByteOfLittleEndian(n / 256, width - 1, k - 1);
      QuotientTwice(n, 256, Varint.Pow256(k - 1));
    }
  }

  /** The cipher is given the bytes of a nonce from the least significant one up. */
  lemma NonceBytes(nonce: u128, k: nat)
    requires k < 16
    ensures ToBytes(Ocb.NonceBlock(nonce))[k] == nonce / Varint.Pow256(k) % 256
  {
    hide FromBytes, ToBytes, Ocb.LittleEndian;
    ToBytesFromBytes(Ocb.LittleEndian(nonce, 16));
    ByteOfLittleEndian(nonce, 16, k);
  }

  /** A small number as a block: 15 zero bytes and the number. */
  function LengthBlock(bits: byte): Block {
    FromBytes(seq(15, i => 0) + [bits])
  }

  lemma LengthBlockIsLiteral(bits: byte)
    ensures Literal(bits) == LengthBlock(bits)
  {
    hide ToBits;
    var zeros: seq<byte> := seq(15, i => 0);
    FromBytesAppend(zeros, [bits]);
    Ocb.ZeroBytes(zeros);
    OneByte(bits);
  }

  lemma OneByte(b: byte)
    ensures FromBytes([b]) == ToBits(b, 8)
  {
    hide ToBits;
    assert [b][1..] == [];
  }

  // ----- The reference -----

  /** Doubled `k` times as RFC 5297 doubles. */
  function Offset(x: Block, k: nat): Block {
    if k == 0 then x else Dbl(Offset(x, k - 1))
  }

  lemma {:induction false} OffsetsAgree(x: Block, k: nat)
    ensures Ocb.Doubled(x, k) == Offset(x, k)
  {
    hide S2, Dbl;
    if k > 0 {
      OffsetsAgree(x, k - 1);
      S2IsDoubling(Ocb.Doubled(x, k - 1));
    }
  }

  /** The number of blocks before the final one, which is empty only for the empty message. */
  function Whole(len: nat): nat {
    if len == 0 then 0 else (len - 1) / 16
  }

  lemma {:induction false} WholeIsFullBlocks(len: nat)
    ensures Ocb.FullBlocks(len) == Whole(len) && 16 * Whole(len) <= len <= 16 * Whole(len) + 16
  {
    if len > 16 {
      WholeIsFullBlocks(len - 16);
    }
  }

  function Final(p: seq<byte>): (r: seq<byte>)
    ensures |r| <= 16
  {
    WholeIsFullBlocks(|p|);
    p[16 * Whole(|p|)..]
  }

  /** The `i`-th block before the final one. */
  function BlockAt(p: seq<byte>, i: nat): Block
    requires i < Whole(|p|)
  {
    WholeIsFullBlocks(|p|);
    FromBytes(p[16 * i..16 * i + 16])
  }

  /** The final pad: the enciphered bit length of the final block under its offset. */
  function FinalPad(c: Ocb.Cipher, l: Block, p: seq<byte>): Block {
    c.encrypt(Xor(LengthBlock(8 * |Final(p)|), Offset(l, Whole(|p|) + 1)))
  }

  function WholeBlocks(p: seq<byte>): seq<Block> {
    seq(Whole(|p|), i requires 0 <= i < Whole(|p|) => BlockAt(p, i))
  }

  function XorAll(bs: seq<Block>): Block {
    if bs == [] then Zeros(128) else Xor(bs[0], XorAll(bs[1..]))
  }

  /** All blocks of a message, the final one filled up with the tail of its pad. */
  function AllBlocks(c: Ocb.Cipher, l: Block, p: seq<byte>): seq<Block> {
    WholeBlocks(p) + [FromBytes(Final(p) + ToBytes(FinalPad(c, l, p))[|Final(p)|..])]
  }

  // ----- The mode computes the reference -----

  /** `Final`, `Whole` and the blocks of a message after its first block. */
  lemma AfterFirst(p: seq<byte>)
    requires |p| > 16
    ensures Whole(|p|) == Whole(|p[16..]|) + 1 && Final(p) == Final(p[16..])
    ensures WholeBlocks(p) == [FromBytes(p[..16])] + WholeBlocks(p[16..])
  {
    hide FromBytes;
    var rest, n := p[16..], Whole(|p|);
    WholeIsFullBlocks(|p|);
    WholeIsFullBlocks(|rest|);
    assert Ocb.FullBlocks(|p|) == 1 + Ocb.FullBlocks(|rest|);
    assert p[0..16] == p[..16];
    forall i | 0 < i < n
      ensures BlockAt(p, i) == BlockAt(rest, i - 1)
    {
      Ocb.BlockOfRest(p, i);
    }
  }

  lemma {:induction false} SealedFinal(c: Ocb.Cipher, l: Block, k: nat, p: seq<byte>)
    ensures var m := Whole(|p|);
            Final(Ocb.Sealed(c, l, k, p)) == Ocb.Masked(Ocb.Pad(c, Ocb.Doubled(l, k + m + 1), |Final(p)|), Final(p))
    decreases |p|
  {
    hide FromBytes, ToBytes, Ocb.Doubled, Ocb.Masked, Ocb.Pad;
    var s := Ocb.Sealed(c, l, k, p);
    if |p| > 16 {
      SealedFinal(c, l, k + 1, p[16..]);
      AfterFirst(p);
      AfterFirst(s);
      assert s[16..] == Ocb.Sealed(c, l, k + 1, p[16..]);
    } else {
      assert Whole(|p|) == 0 && p[0..] == p && s[0..] == s;
    }
  }

  /** The checksum from block `k` on is the xor of the blocks, the final one completed with the tail of its pad. */
  lemma {:induction false} ChecksumIsXor(c: Ocb.Cipher, l: Block, k: nat, p: seq<byte>)
    ensures var m := Whole(|p|);
            var last := Ocb.Completed(Ocb.Pad(c, Ocb.Doubled(l, k + m + 1), |Final(p)|), Final(p));
            Ocb.Checksum(c, l, k, p) == XorAll(WholeBlocks(p) + [last])
    decreases |p|
  {
    hide FromBytes, ToBytes, Ocb.Doubled, Ocb.Completed, Ocb.Pad, Xor, BlockAt;
    var m := Whole(|p|);
    var last := Ocb.Completed(Ocb.Pad(c, Ocb.Doubled(l, k + m + 1), |Final(p)|), Final(p));
    var bs := WholeBlocks(p) + [last];
    if |p| > 16 {
      AfterFirst(p);
      hide WholeBlocks, Whole, Final;
      ChecksumIsXor(c, l, k + 1, p[16..]);
      assert bs[1..] == WholeBlocks(p[16..]) + [last];
    } else {
      assert m == 0 && bs == [last] && p[0..] == p && bs[1..] == [];
      XorZero(last);
    }
  }

  lemma PadIsFinalPad(c: Ocb.Cipher, l: Block, p: seq<byte>)
    ensures Ocb.Pad(c, Ocb.Doubled(l, Whole(|p|) + 1), |Final(p)|) == FinalPad(c, l, p)
  {
    hide Xor, Literal, LengthBlock;
    OffsetsAgree(l, Whole(|p|) + 1);
    LengthBlockIsLiteral(8 * |Final(p)|);
  }

  /**
   * The ciphertext of every message under every nonce: each block before the final one is xored with its offset,
   * enciphered and xored with the offset again; the final one is xored with the leading bytes of its pad.
   */
  lemma EncryptIsReference(c: Ocb.Cipher, nonce: u128, p: seq<byte>)
    ensures var l := c.encrypt(Ocb.NonceBlock(nonce));
            var s := Ocb.Encrypt(c, nonce, p);
            && |s| == |p|
            && (forall i: nat :: i < Whole(|p|) ==>
                  BlockAt(s, i) == Xor(c.encrypt(Xor(Offset(l, i + 1), BlockAt(p, i))), Offset(l, i + 1)))
            && FromBytes(Final(s)) == Xor(FinalPad(c, l, p)[..8 * |Final(p)|], FromBytes(Final(p)))
  {
    hide FromBytes, ToBytes, Xor, FinalPad, Ocb.NonceBlock, Offset, Ocb.Sealed, BlockAt, Final, Whole;
    var l := c.encrypt(Ocb.NonceBlock(nonce));
    var s := Ocb.Encrypt(c, nonce, p);
    assert s == Ocb.Sealed(c, l, 0, p);
    forall i: nat | i < Whole(|p|)
      ensures BlockAt(s, i) == Xor(c.encrypt(Xor(Offset(l, i + 1), BlockAt(p, i))), Offset(l, i + 1))
    {
      EncryptedBlock(c, l, p, i);
    }
    EncryptedFinal(c, l, p);
  }

  lemma EncryptedFinal(c: Ocb.Cipher, l: Block, p: seq<byte>)
    ensures FromBytes(Final(Ocb.Sealed(c, l, 0, p))) == Xor(FinalPad(c, l, p)[..8 * |Final(p)|], FromBytes(Final(p)))
  {
    hide FromBytes, ToBytes, Xor, FinalPad, Ocb.Pad, Ocb.Masked, Ocb.Doubled, Ocb.Sealed, Final, Whole;
    SealedFinal(c, l, 0, p);
    PadIsFinalPad(c, l, p);
    Ocb.MaskedBits(FinalPad(c, l, p), Final(p));
  }

  lemma EncryptedBlock(c: Ocb.Cipher, l: Block, p: seq<byte>, i: nat)
    requires i < Whole(|p|)
    ensures BlockAt(Ocb.Sealed(c, l, 0, p), i) == Xor(c.encrypt(Xor(Offset(l, i + 1), BlockAt(p, i))), Offset(l, i + 1))
  {
    hide FromBytes, ToBytes, Xor, Ocb.Sealed, Ocb.Doubled, Offset;
    WholeIsFullBlocks(|p|);
    Ocb.SealedBlock(c, l, 0, p, i);
    OffsetsAgree(l, i + 1);
    FromBytesToBytes(Ocb.SealBlock(c, Ocb.Doubled(l, i + 1), BlockAt(p, i)));
  }

  /** The tag of every message under every nonce: the checksum and three times the last offset, enciphered. */
  lemma TagIsReference(c: Ocb.Cipher, nonce: u128, p: seq<byte>)
    ensures var l := c.encrypt(Ocb.NonceBlock(nonce));
            var o := Offset(l, Whole(|p|) + 1);
            && Ocb.Tag(c, nonce, p) == c.encrypt(Xor(Xor(o, Dbl(o)), XorAll(AllBlocks(c, l, p))))
            && (c.Valid() ==> c.decrypt(Ocb.Tag(c, nonce, p)) == Xor(Xor(o, Dbl(o)), XorAll(AllBlocks(c, l, p))))
  {
    hide FromBytes, ToBytes, Xor, FinalPad, Ocb.Pad, Ocb.Doubled, Ocb.NonceBlock, Offset, Ocb.Checksum, XorAll, S2, Dbl, WholeBlocks,
      Ocb.Completed, Final, Whole, Ocb.FullBlocks;
    var l := c.encrypt(Ocb.NonceBlock(nonce));
    WholeIsFullBlocks(|p|);
    OffsetsAgree(l, Whole(|p|) + 1);
    S2IsDoubling(Offset(l, Whole(|p|) + 1));
    ChecksumIsXor(c, l, 0, p);
    PadIsFinalPad(c, l, p);
    Ocb.CompletedBytes(FinalPad(c, l, p), Final(p));
  }
}
