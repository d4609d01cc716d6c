/**
 * The OCB2 mode over an arbitrary block cipher, as a specification on byte strings and as the two
 * in-place loops that compute it.
 */
module Ocb {
  import opened Bytes
  import opened Blocks
  import Varint

  /** A keyed block cipher. AES itself is foreign code; only its invertibility matters here. */
  datatype Cipher = Cipher(encrypt: Block -> Block, decrypt: Block -> Block) {
    ghost predicate Valid() {
      && (forall x: Block :: decrypt(encrypt(x)) == x)
      && (forall x: Block :: encrypt(decrypt(x)) == x)
    }
  }

  // ----- Offsets -----

  /** `n` as 16 little-endian bytes: the bytes the cipher is given for a nonce. */
  function LittleEndian(n: nat, width: nat): (s: seq<byte>)
    ensures |s| == width
  {
    if width == 0 then [] else [n % 256] + LittleEndian(n / 256, width - 1)
  }

  function NonceBlock(nonce: u128): Block {
    FromBytes(LittleEndian(nonce, BLOCK_SIZE))
  }

  lemma {:induction false} LittleEndianInjective(m: nat, n: nat, width: nat)
    requires m < Varint.Pow256(width) && n < Varint.Pow256(width)
    requires LittleEndian(m, width) == LittleEndian(n, width)
    ensures m == n
  {
    if width > 0 {
      var s, t := LittleEndian(m, width), LittleEndian(n, width);
      assert s[0] == m % 256 && t[0] == n % 256;
      assert s[1..] == LittleEndian(m / 256, width - 1) && t[1..] == LittleEndian(n / 256, width - 1);
      LittleEndianInjective(m / 256, n / 256, width - 1);
    }
  }

  /** Different nonces are different blocks to the cipher. */
  lemma NonceBlockInjective(m: u128, n: u128)
    ensures NonceBlock(m) == NonceBlock(n) <==> m == n
  {
    hide FromBytes, LittleEndian;
    ToBytesFromBytes(LittleEndian(m, BLOCK_SIZE));
    ToBytesFromBytes(LittleEndian(n, BLOCK_SIZE));
    if NonceBlock(m) == NonceBlock(n) {
      NonceRange();
      LittleEndianInjective(m, n, BLOCK_SIZE);
    }
  }

  lemma NonceRange()
    ensures Varint.Pow256(BLOCK_SIZE) == TWO_128
  {
    Varint.Powers();
    assert Varint.Pow256(10) == 0x1_0000 * TWO_64;
    assert Varint.Pow256(12) == 0x1_0000_0000 * TWO_64;
    assert Varint.Pow256(14) == 0x1_0000_0000_0000 * TWO_64;
  }

  /** The `k`-fold double of `x`. */
  function Doubled(x: Block, k: nat): Block {
    if k == 0 then x else S2(Doubled(x, k - 1))
  }

  // ----- Specification -----

  /** One full block under the offset `o`. */
  function SealBlock(c: Cipher, o: Block, plain: Block): Block {
    Xor(c.encrypt(Xor(o, plain)), o)
  }

  function OpenBlock(c: Cipher, o: Block, encrypted: Block): Block {
    Xor(c.decrypt(Xor(o, encrypted)), o)
  }

  /** The pad for a final block of `len` bytes under the offset `o`. */
  function Pad(c: Cipher, o: Block, len: nat): Block
    requires len <= BLOCK_SIZE
  {
    c.encrypt(Xor(Literal(len * 8), o))
  }

  /** The final block, of at most 16 bytes: xor with the leading bytes of the pad, in both directions. */
  function Masked(pad: Block, buf: seq<byte>): (r: seq<byte>)
    requires |buf| <= BLOCK_SIZE
    ensures |r| == |buf|
  {
    ToBytes(Xor(pad[..8 * |buf|], FromBytes(buf)))
  }

  /** The final plaintext block, completed to 16 bytes with the tail of the pad. */
  function Completed(pad: Block, plain: seq<byte>): Block
    requires |plain| <= BLOCK_SIZE
  {
    FromBytes(plain) + pad[8 * |plain|..]
  }

  /** The encryption of `buf` as the block string that starts after `k` full blocks. */
  function Sealed(c: Cipher, l: Block, k: nat, buf: seq<byte>): (r: seq<byte>)
    ensures |r| == |buf|
    decreases |buf|
  {
    if |buf| > BLOCK_SIZE then
      ToBytes(SealBlock(c, Doubled(l, k + 1), FromBytes(buf[..BLOCK_SIZE]))) + Sealed(c, l, k + 1, buf[BLOCK_SIZE..])
    else
      Masked(Pad(c, Doubled(l, k + 1), |buf|), buf)
  }

  function Opened(c: Cipher, l: Block, k: nat, buf: seq<byte>): (r: seq<byte>)
    ensures |r| == |buf|
    decreases |buf|
  {
    if |buf| > BLOCK_SIZE then
      ToBytes(OpenBlock(c, Doubled(l, k + 1), FromBytes(buf[..BLOCK_SIZE]))) + Opened(c, l, k + 1, buf[BLOCK_SIZE..])
    else
      Masked(Pad(c, Doubled(l, k + 1), |buf|), buf)
  }

  /** The number of full blocks before the final one. */
  function FullBlocks(len: nat): nat {
    if len > BLOCK_SIZE then 1 + FullBlocks(len - BLOCK_SIZE) else 0
  }

  /** The xor of all plaintext blocks, the final one completed with the tail of its pad. */
  function Checksum(c: Cipher, l: Block, k: nat, plain: seq<byte>): Block
    decreases |plain|
  {
    if |plain| > BLOCK_SIZE then
      Xor(FromBytes(plain[..BLOCK_SIZE]), Checksum(c, l, k + 1, plain[BLOCK_SIZE..]))
    else
      Completed(Pad(c, Doubled(l, k + 1), |plain|), plain)
  }

  function TagOf(c: Cipher, last: Block, checksum: Block): Block {
    c.encrypt(Xor(Xor(last, S2(last)), checksum))
  }

  /** The authentication tag of a plaintext. */
  function Tag(c: Cipher, nonce: u128, plain: seq<byte>): Block {
    var l := c.encrypt(NonceBlock(nonce));
    TagOf(c, Doubled(l, FullBlocks(|plain|) + 1), Checksum(c, l, 0, plain))
  }

  function Encrypt(c: Cipher, nonce: u128, plain: seq<byte>): (r: seq<byte>)
    ensures |r| == |plain|
  {
    Sealed(c, c.encrypt(NonceBlock(nonce)), 0, plain)
  }

  function Decrypt(c: Cipher, nonce: u128, encrypted: seq<byte>): (r: seq<byte>)
    ensures |r| == |encrypted|
  {
    Opened(c, c.encrypt(NonceBlock(nonce)), 0, encrypted)
  }

  lemma BlockOfRest(s: seq<byte>, i: nat)
    requires i > 0 && 16 * i + 16 <= |s|
    ensures s[16 * i..16 * i + 16] == s[16..][16 * (i - 1)..16 * (i - 1) + 16]
  {
    var rest, a := s[16..], 16 * (i - 1);
    var x, y := s[16 + a..32 + a], rest[a..a + 16];
    forall k | 0 <= k < 16
      ensures x[k] == y[k]
    {
      assert x[k] == s[16 + a + k] == rest[a + k] == y[k];
    }
    assert x == y;
  }

  /** The ciphertext of the `i`-th full block, whose offset is the `(i + 1)`-fold double of the enciphered nonce. */
  lemma {:induction false} SealedBlock(c: Cipher, l: Block, k: nat, buf: seq<byte>, i: nat)
    requires i < FullBlocks(|buf|)
    ensures 16 * i + 16 <= |buf|
    ensures Sealed(c, l, k, buf)[16 * i..16 * i + 16]
         == ToBytes(SealBlock(c, Doubled(l, k + i + 1), FromBytes(buf[16 * i..16 * i + 16])))
    decreases i
  {
    hide FromBytes, ToBytes, Xor, Doubled;
    SealedSplit(c, l, k, buf);
    var head := ToBytes(SealBlock(c, Doubled(l, k + 1), FromBytes(buf[..BLOCK_SIZE])));
    var tail, rest := Sealed(c, l, k + 1, buf[BLOCK_SIZE..]), buf[BLOCK_SIZE..];
    hide Sealed;
    if i == 0 {
      assert (head + tail)[..16] == head && buf[0..16] == buf[..16];
    } else {
      SealedBlock(c, l, k + 1, rest, i - 1);
      assert (head + tail)[16..] == tail;
      BlockOfRest(head + tail, i);
      BlockOfRest(buf, i);
    }
  }

  /** The offset of every block is a power of the doubling of section 2.3 of RFC 5297, and no step of it loses anything. */
  lemma {:induction false} DoubledInjective(x: Block, y: Block, k: nat)
    ensures Doubled(x, k) == Doubled(y, k) <==> x == y
    ensures k > 0 ==> Doubled(x, k) == Dbl(Doubled(x, k - 1))
  {
    hide S2, Dbl;
    if k > 0 {
      DoubledInjective(x, y, k - 1);
      S2Bijective(Doubled(x, k - 1), Doubled(y, k - 1));
      S2IsDoubling(Doubled(x, k - 1));
    }
  }

  // ----- The two directions are inverse -----

  lemma BlockRoundTrip(c: Cipher, o: Block, x: Block)
    requires c.Valid()
    ensures OpenBlock(c, o, SealBlock(c, o, x)) == x
    ensures SealBlock(c, o, OpenBlock(c, o, x)) == x
  {
    var e := c.encrypt(Xor(o, x));
    XorCancel(e, o);
    XorCancel(x, o);
    var d := c.decrypt(Xor(o, x));
    XorCancel(d, o);
  }

  lemma MaskedBits(pad: Block, buf: seq<byte>)
    requires |buf| <= BLOCK_SIZE
    ensures FromBytes(Masked(pad, buf)) == Xor(pad[..8 * |buf|], FromBytes(buf))
  {
    hide FromBytes, ToBytes, Xor;
    FromBytesToBytes(Xor(pad[..8 * |buf|], FromBytes(buf)));
  }

  lemma MaskedTwice(pad: Block, buf: seq<byte>)
    requires |buf| <= BLOCK_SIZE
    ensures Masked(pad, Masked(pad, buf)) == buf
  {
    hide FromBytes, ToBytes, Xor;
    MaskedBits(pad, buf);
    XorCancel(FromBytes(buf), pad[..8 * |buf|]);
    ToBytesFromBytes(buf);
  }

  lemma {:induction false} OpenedSealed(c: Cipher, l: Block, k: nat, buf: seq<byte>)
    requires c.Valid()
    ensures Opened(c, l, k, Sealed(c, l, k, buf)) == buf
    decreases |buf|
  {
    hide FromBytes, ToBytes, Xor;
    var o := Doubled(l, k + 1);
    if |buf| > BLOCK_SIZE {
      var x := FromBytes(buf[..BLOCK_SIZE]);
      var y := SealBlock(c, o, x);
      var r := Sealed(c, l, k, buf);
      assert r[..BLOCK_SIZE] == ToBytes(y) && r[BLOCK_SIZE..] == Sealed(c, l, k + 1, buf[BLOCK_SIZE..]);
      FromBytesToBytes(y);
      BlockRoundTrip(c, o, x);
      ToBytesFromBytes(buf[..BLOCK_SIZE]);
      OpenedSealed(c, l, k + 1, buf[BLOCK_SIZE..]);
    } else {
      MaskedTwice(Pad(c, o, |buf|), buf);
    }
  }

  lemma {:induction false} SealedOpened(c: Cipher, l: Block, k: nat, buf: seq<byte>)
    requires c.Valid()
    ensures Sealed(c, l, k, Opened(c, l, k, buf)) == buf
    decreases |buf|
  {
    hide FromBytes, ToBytes, Xor;
    var o := Doubled(l, k + 1);
    if |buf| > BLOCK_SIZE {
      var y := FromBytes(buf[..BLOCK_SIZE]);
      var x := OpenBlock(c, o, y);
      var r := Opened(c, l, k, buf);
      assert r[..BLOCK_SIZE] == ToBytes(x) && r[BLOCK_SIZE..] == Opened(c, l, k + 1, buf[BLOCK_SIZE..]);
      FromBytesToBytes(x);
      BlockRoundTrip(c, o, y);
      ToBytesFromBytes(buf[..BLOCK_SIZE]);
      SealedOpened(c, l, k + 1, buf[BLOCK_SIZE..]);
    } else {
      MaskedTwice(Pad(c, o, |buf|), buf);
    }
  }

  /** Encryption and decryption under one nonce are inverse in both orders, for every length. */
  lemma RoundTrip(c: Cipher, nonce: u128, buf: seq<byte>)
    requires c.Valid()
    ensures Decrypt(c, nonce, Encrypt(c, nonce, buf)) == buf
    ensures Encrypt(c, nonce, Decrypt(c, nonce, buf)) == buf
  {
    OpenedSealed(c, c.encrypt(NonceBlock(nonce)), 0, buf);
    SealedOpened(c, c.encrypt(NonceBlock(nonce)), 0, buf);
  }

  /**
   * Under one nonce the tag tells two plaintexts of the same length apart exactly when their
   * checksums differ: the cipher and the final offset lose nothing.
   */
  lemma TagSeparates(c: Cipher, nonce: u128, p: seq<byte>, q: seq<byte>)
    requires c.Valid() && |p| == |q|
    ensures var l := c.encrypt(NonceBlock(nonce));
            Tag(c, nonce, p) == Tag(c, nonce, q) <==> Checksum(c, l, 0, p) == Checksum(c, l, 0, q)
  {
    hide FromBytes, ToBytes, Xor, Checksum, S2, NonceBlock;
    var l := c.encrypt(NonceBlock(nonce));
    var last := Doubled(l, FullBlocks(|p|) + 1);
    var mask := Xor(last, S2(last));
    XorCancel(Checksum(c, l, 0, p), mask);
    XorCancel(Checksum(c, l, 0, q), mask);
    if Tag(c, nonce, p) == Tag(c, nonce, q) {
      assert c.decrypt(Tag(c, nonce, p)) == Xor(mask, Checksum(c, l, 0, p));
      assert c.decrypt(Tag(c, nonce, q)) == Xor(mask, Checksum(c, l, 0, q));
    }
  }

  // ----- The loops -----

  /** The final block as the encryption computes it: the pad's bytes, overwritten by the plaintext. */
  lemma CompletedBytes(pad: Block, buf: seq<byte>)
    requires |buf| <= BLOCK_SIZE
    ensures FromBytes(buf + ToBytes(pad)[|buf|..]) == Completed(pad, buf)
  {
    hide FromBytes, ToBytes;
    var n := |buf|;
    var bytes := ToBytes(pad);
    FromBytesToBytes(pad);
    FromBytesAppend(bytes[..n], bytes[n..]);
    assert bytes == bytes[..n] + bytes[n..];
    FromBytesAppend(buf, bytes[n..]);
  }

  lemma FinalSeal(pad: Block, buf: seq<byte>)
    requires |buf| <= BLOCK_SIZE
    ensures ToBytes(Xor(pad, Completed(pad, buf)))[..|buf|] == Masked(pad, buf)
  {
    hide FromBytes, ToBytes, Xor;
    var n := |buf|;
    var plain := Completed(pad, buf);
    assert plain[..8 * n] == FromBytes(buf);
    XorSplit(pad, plain, 8 * n);
    ToBytesPrefix(Xor(pad, plain), n);
  }

  function ZeroPadded(buf: seq<byte>): (r: seq<byte>)
    requires |buf| <= BLOCK_SIZE
    ensures |r| == BLOCK_SIZE
  {
    buf + seq(BLOCK_SIZE - |buf|, i => 0)
  }

  lemma ZeroPaddedBits(buf: seq<byte>)
    requires |buf| <= BLOCK_SIZE
    ensures FromBytes(ZeroPadded(buf)) == FromBytes(buf) + Zeros(128 - 8 * |buf|)
  {
    hide FromBytes;
    var zeros: seq<byte> := seq(BLOCK_SIZE - |buf|, i => 0);
    FromBytesAppend(buf, zeros);
    ZeroBytes(zeros);
  }

  /** The final block as the decryption computes it: the ciphertext padded with zeros, under the pad. */
  lemma FinalOpen(pad: Block, buf: seq<byte>)
    requires |buf| <= BLOCK_SIZE
    ensures Xor(FromBytes(ZeroPadded(buf)), pad) == Completed(pad, Masked(pad, buf))
  {
    hide FromBytes, ToBytes, Xor, ZeroPadded, Masked;
    ZeroPaddedBits(buf);
    XorPadded(FromBytes(buf), pad);
    MaskedBits(pad, buf);
  }

  lemma CompletedPrefix(pad: Block, buf: seq<byte>)
    requires |buf| <= BLOCK_SIZE
    ensures ToBytes(Completed(pad, buf))[..|buf|] == buf
  {
    hide FromBytes, ToBytes;
    ToBytesPrefix(Completed(pad, buf), |buf|);
    assert Completed(pad, buf)[..8 * |buf|] == FromBytes(buf);
    ToBytesFromBytes(buf);
  }

  lemma {:induction false} ZeroBytes(s: seq<byte>)
    requires forall i :: 0 <= i < |s| ==> s[i] == 0
    ensures FromBytes(s) == Zeros(8 * |s|)
  {
    if s != [] {
      ZeroBits(8);
      ZeroBytes(s[1..]);
    }
  }

  lemma {:induction false} ZeroBits(width: nat)
    ensures ToBits(0, width) == Zeros(width)
  {
    if width > 0 {
      ZeroBits(width - 1);
    }
  }

  /** `copy_from_slice` into part of a buffer. */
  method CopyInto(a: array<byte>, at: nat, s: seq<byte>)
    requires at + |s| <= a.Length
    modifies a
    ensures a[..at] == old(a[..at])
    ensures a[at..at + |s|] == s
    ensures a[at + |s|..] == old(a[at + |s|..])
  {
    forall j | 0 <= j < |s| {
      a[at + j] := s[j];
    }
  }

  /** Adding one block to a running checksum. */
  lemma ChecksumStep(c: Cipher, l: Block, k: nat, sum: Block, plain: seq<byte>)
    requires |plain| > BLOCK_SIZE
    ensures Xor(sum, Checksum(c, l, k, plain))
         == Xor(Xor(sum, FromBytes(plain[..BLOCK_SIZE])), Checksum(c, l, k + 1, plain[BLOCK_SIZE..]))
  {
    XorAssociative(sum, FromBytes(plain[..BLOCK_SIZE]), Checksum(c, l, k + 1, plain[BLOCK_SIZE..]));
  }

  /**
   * The encryption of `buf` under way: `done` is the ciphertext of the first `k` blocks, `rest` the
   * plaintext still to process, and `sum` the checksum so far.
   */
  ghost predicate Sealing(c: Cipher, l: Block, buf: seq<byte>, k: nat, done: seq<byte>, rest: seq<byte>, sum: Block) {
    && done + Sealed(c, l, k, rest) == Sealed(c, l, 0, buf)
    && Xor(sum, Checksum(c, l, k, rest)) == Checksum(c, l, 0, buf)
    && FullBlocks(|buf|) == k + FullBlocks(|rest|)
  }

  lemma SealingStart(c: Cipher, l: Block, buf: seq<byte>)
    ensures Sealing(c, l, buf, 0, [], buf, Zeros(128))
  {
    XorZero(Checksum(c, l, 0, buf));
  }

  lemma SealedSplit(c: Cipher, l: Block, k: nat, rest: seq<byte>)
    requires |rest| > BLOCK_SIZE
    ensures Sealed(c, l, k, rest)
         == ToBytes(SealBlock(c, Doubled(l, k + 1), FromBytes(rest[..BLOCK_SIZE]))) + Sealed(c, l, k + 1, rest[BLOCK_SIZE..])
  {
    hide FromBytes, ToBytes, Xor, Doubled;
  }

  lemma SealingStep(c: Cipher, l: Block, buf: seq<byte>, k: nat, done: seq<byte>, rest: seq<byte>, sum: Block)
    requires Sealing(c, l, buf, k, done, rest, sum) && |rest| > BLOCK_SIZE
    ensures var plain := FromBytes(rest[..BLOCK_SIZE]);
            Sealing(c, l, buf, k + 1, done + ToBytes(SealBlock(c, Doubled(l, k + 1), plain)), rest[BLOCK_SIZE..], Xor(sum, plain))
  {
    hide FromBytes, ToBytes, Xor, Sealed, Checksum, Doubled;
    SealedSplit(c, l, k, rest);
    ChecksumStep(c, l, k, sum, rest);
  }

  lemma SealingEnd(c: Cipher, l: Block, buf: seq<byte>, k: nat, done: seq<byte>, rest: seq<byte>, sum: Block)
    requires Sealing(c, l, buf, k, done, rest, sum) && |rest| <= BLOCK_SIZE
    ensures var pad := Pad(c, Doubled(l, k + 1), |rest|);
            && done + Masked(pad, rest) == Sealed(c, l, 0, buf)
            && Xor(sum, Completed(pad, rest)) == Checksum(c, l, 0, buf)
            && FullBlocks(|buf|) == k
  {
    hide FromBytes, ToBytes, Xor, Masked, Completed, Pad, Doubled;
  }

  /** The decryption of `buf` under way; `sum` is the checksum of the plaintext produced so far. */
  ghost predicate Opening(c: Cipher, l: Block, buf: seq<byte>, k: nat, done: seq<byte>, rest: seq<byte>, sum: Block) {
    && done + Opened(c, l, k, rest) == Opened(c, l, 0, buf)
    && Xor(sum, Checksum(c, l, k, Opened(c, l, k, rest))) == Checksum(c, l, 0, Opened(c, l, 0, buf))
    && FullBlocks(|buf|) == k + FullBlocks(|rest|)
  }

  lemma OpeningStart(c: Cipher, l: Block, buf: seq<byte>)
    ensures Opening(c, l, buf, 0, [], buf, Zeros(128))
  {
    XorZero(Checksum(c, l, 0, Opened(c, l, 0, buf)));
  }

  lemma OpenedSplit(c: Cipher, l: Block, k: nat, rest: seq<byte>)
    requires |rest| > BLOCK_SIZE
    ensures var plain := OpenBlock(c, Doubled(l, k + 1), FromBytes(rest[..BLOCK_SIZE]));
            && Opened(c, l, k, rest) == ToBytes(plain) + Opened(c, l, k + 1, rest[BLOCK_SIZE..])
            && Opened(c, l, k, rest)[..BLOCK_SIZE] == ToBytes(plain)
            && Opened(c, l, k, rest)[BLOCK_SIZE..] == Opened(c, l, k + 1, rest[BLOCK_SIZE..])
  {
    hide FromBytes, ToBytes, Xor;
  }

  lemma OpeningStep(c: Cipher, l: Block, buf: seq<byte>, k: nat, done: seq<byte>, rest: seq<byte>, sum: Block)
    requires Opening(c, l, buf, k, done, rest, sum) && |rest| > BLOCK_SIZE
    ensures var plain := OpenBlock(c, Doubled(l, k + 1), FromBytes(rest[..BLOCK_SIZE]));
            Opening(c, l, buf, k + 1, done + ToBytes(plain), rest[BLOCK_SIZE..], Xor(sum, plain))
  {
    hide FromBytes, ToBytes, Xor, Opened, Checksum, Doubled;
    OpenedSplit(c, l, k, rest);
    FromBytesToBytes(OpenBlock(c, Doubled(l, k + 1), FromBytes(rest[..BLOCK_SIZE])));
    ChecksumStep(c, l, k, sum, Opened(c, l, k, rest));
  }

  lemma OpeningEnd(c: Cipher, l: Block, buf: seq<byte>, k: nat, done: seq<byte>, rest: seq<byte>, sum: Block)
    requires Opening(c, l, buf, k, done, rest, sum) && |rest| <= BLOCK_SIZE
    ensures var pad := Pad(c, Doubled(l, k + 1), |rest|);
            && done + Masked(pad, rest) == Opened(c, l, 0, buf)
            && Xor(sum, Completed(pad, Masked(pad, rest))) == Checksum(c, l, 0, Opened(c, l, 0, buf))
            && FullBlocks(|buf|) == k
  {
    hide FromBytes, ToBytes, Xor, Masked, Completed, Pad, Doubled;
  }

  /** The body of the encryption loop: one full block in place. */
  method SealChunk(c: Cipher, o: Block, a: array<byte>, i: nat) returns (plain: Block)
    requires i + BLOCK_SIZE <= a.Length
    modifies a
    ensures plain == FromBytes(old(a[i..i + BLOCK_SIZE]))
    ensures a[..i + BLOCK_SIZE] == old(a[..i]) + ToBytes(SealBlock(c, o, plain))
    ensures a[i + BLOCK_SIZE..] == old(a[i + BLOCK_SIZE..])
  {
    plain := FromBytes(a[i..i + BLOCK_SIZE]);
    var encrypted := Xor(c.encrypt(Xor(o, plain)), o);
    CopyInto(a, i, ToBytes(encrypted));
    assert a[..i + BLOCK_SIZE] == a[..i] + a[i..i + BLOCK_SIZE];
  }

  /** The body of the decryption loop. */
  method OpenChunk(c: Cipher, o: Block, a: array<byte>, i: nat) returns (plain: Block)
    requires i + BLOCK_SIZE <= a.Length
    modifies a
    ensures plain == OpenBlock(c, o, FromBytes(old(a[i..i + BLOCK_SIZE])))
    ensures a[..i + BLOCK_SIZE] == old(a[..i]) + ToBytes(plain)
    ensures a[i + BLOCK_SIZE..] == old(a[i + BLOCK_SIZE..])
  {
    var encrypted: Block := FromBytes(a[i..i + BLOCK_SIZE]);
    plain := Xor(c.decrypt(Xor(o, encrypted)), o);
    CopyInto(a, i, ToBytes(plain));
    assert a[..i + BLOCK_SIZE] == a[..i] + a[i..i + BLOCK_SIZE];
  }

  /** The final, possibly partial or empty, block of an encryption. */
  method SealLast(c: Cipher, o: Block, a: array<byte>, i: nat) returns (plain: Block)
    requires i <= a.Length <= i + BLOCK_SIZE
    modifies a
    ensures var pad := Pad(c, o, a.Length - i);
            && plain == Completed(pad, old(a[i..]))
            && a[..] == old(a[..i]) + Masked(pad, old(a[i..]))
  {
    hide FromBytes, ToBytes, Xor, Masked, Completed, ZeroPadded, Literal;
    var len := a.Length - i;
    var pad := c.encrypt(Xor(Literal(len * 8), o));
    CompletedBytes(pad, a[i..]);
    FinalSeal(pad, a[i..]);
    plain := FromBytes(a[i..] + ToBytes(pad)[len..]);
    var encrypted := Xor(pad, plain);
    CopyInto(a, i, ToBytes(encrypted)[..len]);
    assert a[..] == a[..i] + a[i..i + len];
  }

  /** The final block of a decryption. */
  method OpenLast(c: Cipher, o: Block, a: array<byte>, i: nat) returns (plain: Block)
    requires i <= a.Length <= i + BLOCK_SIZE
    modifies a
    ensures var pad := Pad(c, o, a.Length - i);
            && plain == Completed(pad, Masked(pad, old(a[i..])))
            && a[..] == old(a[..i]) + Masked(pad, old(a[i..]))
  {
    hide FromBytes, ToBytes, Xor, Masked, Completed, ZeroPadded, Literal;
    var len := a.Length - i;
    var pad := c.encrypt(Xor(Literal(len * 8), o));
    FinalOpen(pad, a[i..]);
    CompletedPrefix(pad, Masked(pad, a[i..]));
    plain := Xor(FromBytes(ZeroPadded(a[i..])), pad);
    CopyInto(a, i, ToBytes(plain)[..len]);
    assert a[..] == a[..i] + a[i..i + len];
  }

  /** The encryption loop, over every block but the last. */
  method SealFull(c: Cipher, l: Block, a: array<byte>) returns (i: nat, offset: Block, checksum: Block, ghost k: nat)
    modifies a
    ensures i <= a.Length <= i + BLOCK_SIZE
    ensures offset == Doubled(l, k)
    ensures Sealing(c, l, old(a[..]), k, a[..i], a[i..], checksum)
  {
    hide FromBytes, ToBytes, Sealed, Opened, Checksum, FullBlocks, S2, Xor;
    i, offset, checksum, k := 0, l, Zeros(128), 0;
    SealingStart(c, l, a[..]);
    assert a[..0] == [] && a[0..] == a[..];
    while a.Length - i > BLOCK_SIZE
      invariant i <= a.Length
      invariant offset == Doubled(l, k)
      invariant Sealing(c, l, old(a[..]), k, a[..i], a[i..], checksum)
    {
      SealingStep(c, l, old(a[..]), k, a[..i], a[i..], checksum);
      assert a[i..][..BLOCK_SIZE] == a[i..i + BLOCK_SIZE];
      assert a[i..][BLOCK_SIZE..] == a[i + BLOCK_SIZE..];
      offset := S2(offset);
      var plain := SealChunk(c, offset, a, i);
      checksum := Xor(checksum, plain);
      i, k := i + BLOCK_SIZE, k + 1;
    }
  }

  /** The decryption loop, over every block but the last. */
  method OpenFull(c: Cipher, l: Block, a: array<byte>) returns (i: nat, offset: Block, checksum: Block, ghost k: nat)
    modifies a
    ensures i <= a.Length <= i + BLOCK_SIZE
    ensures offset == Doubled(l, k)
    ensures Opening(c, l, old(a[..]), k, a[..i], a[i..], checksum)
  {
    hide FromBytes, ToBytes, Sealed, Opened, Checksum, FullBlocks, S2, Xor;
    i, offset, checksum, k := 0, l, Zeros(128), 0;
    OpeningStart(c, l, a[..]);
    assert a[..0] == [] && a[0..] == a[..];
    while a.Length - i > BLOCK_SIZE
      invariant i <= a.Length
      invariant offset == Doubled(l, k)
      invariant Opening(c, l, old(a[..]), k, a[..i], a[i..], checksum)
    {
      OpeningStep(c, l, old(a[..]), k, a[..i], a[i..], checksum);
      assert a[i..][..BLOCK_SIZE] == a[i..i + BLOCK_SIZE];
      assert a[i..][BLOCK_SIZE..] == a[i + BLOCK_SIZE..];
      offset := S2(offset);
      var plain := OpenChunk(c, offset, a, i);
      checksum := Xor(checksum, plain);
      i, k := i + BLOCK_SIZE, k + 1;
    }
  }

  method OcbEncrypt(c: Cipher, nonce: u128, a: array<byte>) returns (tag: Block)
    modifies a
    ensures a[..] == Encrypt(c, nonce, old(a[..]))
    ensures tag == Tag(c, nonce, old(a[..]))
  {
    hide FromBytes, ToBytes, Xor, Masked, Completed, Sealed, Opened, Checksum, FullBlocks, NonceBlock, Pad, S2;
    ghost var l := c.encrypt(NonceBlock(nonce));
    var i, offset, checksum, k := SealFull(c, c.encrypt(NonceBlock(nonce)), a);
    SealingEnd(c, l, old(a[..]), k, a[..i], a[i..], checksum);
    offset := S2(offset);
    var plain := SealLast(c, offset, a, i);
    checksum := Xor(checksum, plain);
    tag := c.encrypt(Xor(Xor(offset, S2(offset)), checksum));
  }

  method OcbDecrypt(c: Cipher, nonce: u128, a: array<byte>) returns (tag: Block)
    modifies a
    ensures a[..] == Decrypt(c, nonce, old(a[..]))
    ensures tag == Tag(c, nonce, a[..])
  {
    hide FromBytes, ToBytes, Xor, Masked, Completed, Sealed, Opened, Checksum, FullBlocks, NonceBlock, Pad, S2;
    ghost var l := c.encrypt(NonceBlock(nonce));
    var i, offset, checksum, k := OpenFull(c, c.encrypt(NonceBlock(nonce)), a);
    OpeningEnd(c, l, old(a[..]), k, a[..i], a[i..], checksum);
    offset := S2(offset);
    var plain := OpenLast(c, offset, a, i);
    checksum := Xor(checksum, plain);
    tag := c.encrypt(Xor(Xor(offset, S2(offset)), checksum));
  }
}
