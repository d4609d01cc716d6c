/** What the receiver accepts and what it does not: every datagram, every state, and the tag bytes that decide. */
module CryptAuthentic {
  import opened Bytes
  import opened Blocks
  import opened Crypt
  import opened CryptChannel
  import Ocb
  import Voice

  /** The first three bytes of a tag, written out. */
  lemma TagBytesAre(tag: Block)
    ensures |ToBytes(tag)| == 16 && TagBytes(tag) == [ToBytes(tag)[0], ToBytes(tag)[1], ToBytes(tag)[2]]
    ensures FromBytes(TagBytes(tag)) == tag[..24]
  {
    hide ToBytes, FromBytes;
    ToBytesPrefix(tag, 3);
    FromBytesToBytes(tag[..24]);
  }

  /** The layout of a datagram: low nonce byte, three tag bytes, ciphertext. */
  lemma DatagramLayout(c: Ocb.Cipher, nonce: u128, plain: seq<byte>)
    ensures var d := SealDatagram(c, nonce, plain);
            var tag := ToBytes(Ocb.Tag(c, nonce, plain));
            && |d| == 4 + |plain| && |tag| == 16
            && d[0] == nonce % 256 && d[1] == tag[0] && d[2] == tag[1] && d[3] == tag[2]
            && d[4..] == Ocb.Encrypt(c, nonce, plain)
  {
    hide ToBytes, TagBytes, Ocb.Tag, Ocb.Encrypt;
    TagBytesAre(Ocb.Tag(c, nonce, plain));
  }

  /** The nonce a datagram is taken to be sent under: the one with its low byte that is nearest to the receiver's. */
  function NonceOf(r: Receiver, d: seq<byte>): u128
    requires |d| >= 4
  {
    (r.nonce + Gap(r.nonce, d[0])) % TWO_128
  }

  /** The three tag bytes are those of the plaintext the datagram decrypts to. */
  ghost predicate Authentic(c: Ocb.Cipher, nonce: u128, d: seq<byte>)
    requires |d| >= 4
  {
    var tag := ToBytes(Ocb.Tag(c, nonce, Ocb.Decrypt(c, nonce, d[4..])));
    |tag| >= 3 && d[1] == tag[0] && d[2] == tag[1] && d[3] == tag[2]
  }

  lemma OpensIfAuthentic(c: Ocb.Cipher, nonce: u128, d: seq<byte>)
    requires |d| >= 4
    ensures OpenDatagram(c, nonce, d) == if Authentic(c, nonce, d) then Some(Ocb.Decrypt(c, nonce, d[4..])) else None
  {
    hide ToBytes, TagBytes, Ocb.Tag, Ocb.Decrypt;
    TagBytesAre(Ocb.Tag(c, nonce, Ocb.Decrypt(c, nonce, d[4..])));
    assert d[1..4] == [d[1], d[2], d[3]];
  }

  /** A datagram is looked into: it is long enough, not far too late, and its slot does not hold its second byte. */
  ghost predicate LookedInto(r: Receiver, d: seq<byte>)
    requires r.Valid()
  {
    && |d| >= 4 && Gap(r.nonce, d[0]) > -30
    && (Gap(r.nonce, d[0]) <= 0 ==> r.history[d[0]] != NonceOf(r, d) / 256 % 256)
  }

  /** Every state and every datagram: what becomes of it, and what the receiver is afterwards. */
  lemma ReceiveExactly(c: Ocb.Cipher, dir: Voice.Direction, r: Receiver, d: seq<byte>)
    requires r.Valid()
    ensures var (r', outcome) := Receive(c, dir, r, d);
            && (|d| < 4 ==> outcome == Rejected(Eof) && r' == r)
            && (|d| >= 4 && Gap(r.nonce, d[0]) <= -30 ==> outcome == Rejected(Late) && r' == r.(nonce := NonceOf(r, d)))
            && (|d| >= 4 && Gap(r.nonce, d[0]) > -30 && !LookedInto(r, d) ==> outcome == Rejected(Repeat) && r' == r)
            && (LookedInto(r, d) ==>
                  var n, g := NonceOf(r, d), Gap(r.nonce, d[0]);
                  && (outcome.Accepted? <==> Authentic(c, n, d))
                  && (!Authentic(c, n, d) ==> outcome == Rejected(Mac) && r' == r)
                  && (Authentic(c, n, d) ==>
                        && outcome == Accepted(Voice.Decode(dir, Ocb.Decrypt(c, n, d[4..])).result)
                        && r'.history == r.history[d[0] := n / 256 % 256]
                        && r'.good == (r.good + 1) % TWO_32
                        && (g > 0 ==> r'.nonce == n && r'.late == r.late && r'.lost == (r.lost + g - 1) % TWO_32)
                        && (g <= 0 ==> r'.nonce == r.nonce && r'.late == (r.late + 1) % TWO_32 && r'.lost == (r.lost - 1) % TWO_32)))
  {
    hide OpenDatagram, Voice.Decode, Gap, Authentic, Ocb.Decrypt;
    if |d| >= 4 {
      OpensIfAuthentic(c, NonceOf(r, d), d);
    }
  }

  /** A datagram with the given tag bytes in place of its own. */
  function WithTag(d: seq<byte>, tag: seq<byte>): seq<byte>
    requires |d| >= 4 && |tag| == 3
  {
    [d[0]] + tag + d[4..]
  }

  lemma ForgedTagIsNotAuthentic(c: Ocb.Cipher, nonce: u128, plain: seq<byte>, tag: seq<byte>)
    requires c.Valid() && |tag| == 3 && tag != SealDatagram(c, nonce, plain)[1..4]
    ensures !Authentic(c, nonce, WithTag(SealDatagram(c, nonce, plain), tag))
  {
    hide ToBytes, Ocb.Tag, Ocb.Decrypt, Ocb.Encrypt, SealDatagram;
    DatagramLayout(c, nonce, plain);
    Ocb.RoundTrip(c, nonce, plain);
    var d := SealDatagram(c, nonce, plain);
    var f := WithTag(d, tag);
    assert f[4..] == d[4..] && f[1] == tag[0] && f[2] == tag[1] && f[3] == tag[2];
    assert d[1..4] == [d[1], d[2], d[3]] && tag == [tag[0], tag[1], tag[2]];
  }

  /**
   * A sealed datagram with any other tag bytes is never accepted, by no receiver that has not moved past its window,
   * and changes nothing; with its own tag bytes it is accepted ahead of the receiver.
   */
  lemma ForgedTagIsRejected(c: Ocb.Cipher, dir: Voice.Direction, r: Receiver, g: int, plain: seq<byte>, tag: seq<byte>)
    requires c.Valid() && r.Valid() && -30 < g < 128 && |tag| == 3
    ensures var n := (r.nonce + g) % TWO_128;
            var d := SealDatagram(c, n, plain);
            var (r', outcome) := Receive(c, dir, r, WithTag(d, tag));
            && (tag != d[1..4] ==> outcome.Rejected? && r' == r)
            && (g > 0 ==> (outcome.Accepted? <==> tag == d[1..4]))
  {
    hide ToBytes, Ocb.Tag, Ocb.Decrypt, Ocb.Encrypt, SealDatagram, Voice.Decode, Gap, Receive, Authentic;
    var n := (r.nonce + g) % TWO_128;
    var d := SealDatagram(c, n, plain);
    DatagramLayout(c, n, plain);
    var f := WithTag(d, tag);
    WrapKeepsLowBytes(r.nonce + g);
    GapIsUnique(r.nonce, d[0], g);
    ReceiveExactly(c, dir, r, f);
    if tag != d[1..4] {
      ForgedTagIsNotAuthentic(c, n, plain, tag);
    } else {
      assert f == d by { assert d == [d[0]] + d[1..4] + d[4..]; }
      SealedIsAuthentic(c, n, plain);
    }
  }

  lemma SealedIsAuthentic(c: Ocb.Cipher, nonce: u128, plain: seq<byte>)
    requires c.Valid()
    ensures |SealDatagram(c, nonce, plain)| >= 4 && Authentic(c, nonce, SealDatagram(c, nonce, plain))
  {
    hide ToBytes, Ocb.Tag, Ocb.Decrypt, Ocb.Encrypt, SealDatagram;
    DatagramLayout(c, nonce, plain);
    Ocb.RoundTrip(c, nonce, plain);
  }
}
