/**
 * The encrypted voice channel: the sender and the receiver state of `CryptState`, with the nonce window,
 * the replay history and the packet counters.
 */
module Crypt {
  import opened Bytes
  import opened Blocks
  import Ocb
  import Voice

  datatype DecryptError = Eof | Repeat | Late | Mac

  datatype Outcome = Rejected(error: DecryptError) | Accepted(packet: Voice.Result<Voice.VoicePacket>)

  /** The part of the state that decryption reads and updates. */
  datatype Receiver = Receiver(nonce: u128, history: seq<byte>, good: u32, late: u32, lost: u32) {
    predicate Valid() {
      |history| == 0x100
    }
  }

  // ----- Datagrams -----

  /** The part of a tag that is sent. */
  function TagBytes(tag: Block): (r: seq<byte>)
    ensures |r| == 3
  {
    ToBytes(tag)[..3]
  }

  /** The datagram for a plaintext: the low byte of the nonce, three bytes of the tag, the ciphertext. */
  function SealDatagram(c: Ocb.Cipher, nonce: u128, plain: seq<byte>): seq<byte> {
    [nonce % 256] + TagBytes(Ocb.Tag(c, nonce, plain)) + Ocb.Encrypt(c, nonce, plain)
  }

  /** The plaintext of a datagram under a full nonce, if its tag bytes match. */
  function OpenDatagram(c: Ocb.Cipher, nonce: u128, d: seq<byte>): Option<seq<byte>>
    requires |d| >= 4
  {
    var plain := Ocb.Decrypt(c, nonce, d[4..]);
    if TagBytes(Ocb.Tag(c, nonce, plain)) == d[1..4] then Some(plain) else None
  }

  // ----- The nonce window -----

  /** How far ahead of `nonce` the byte on the wire points: the signed 8-bit difference of the low bytes. */
  function Gap(nonce: int, wire: byte): (g: int)
    ensures -128 <= g < 128
    ensures (nonce + g) % 256 == wire
  {
    var d := (wire - nonce) % 256;
    if d < 128 then d else d - 256
  }

  lemma AddMultiple(x: int, k: int)
    ensures (x + 256 * k) % 256 == x % 256
    ensures (x + 0x1_0000 * k) / 256 % 256 == x / 256 % 256
  {
    assert (x + 0x1_0000 * k) / 256 == x / 256 + 256 * k;
  }

  /** Wrapping a nonce at 128 bits keeps its two low bytes. */
  lemma WrapKeepsLowBytes(x: int)
    ensures x % TWO_128 % 256 == x % 256
    ensures SecondByte(x % TWO_128) == SecondByte(x)
  {
    var q := x / TWO_128;
    var k := q * 0x1_0000_0000_0000_0000_0000_0000_0000;
    assert x == x % TWO_128 + 0x1_0000 * k;
    AddMultiple(x % TWO_128, 256 * k);
    AddMultiple(x % TWO_128, k);
  }

  /** The gap is the only signed byte that leads from the nonce to the byte on the wire. */
  lemma GapIsUnique(nonce: int, wire: byte, g: int)
    requires -128 <= g < 128 && (nonce + g) % 256 == wire
    ensures g == Gap(nonce, wire)
  {
    var h := Gap(nonce, wire);
    var a := (nonce + g) / 256;
    var b := (nonce + h) / 256;
    assert g - h == 256 * (a - b);
  }

  /** The window position as the source computes it, from the low byte of the nonce alone. */
  lemma GapOfLowBytes(nonce: u128, wire: byte)
    ensures Gap(nonce, wire) == Gap(nonce % 256, wire)
    ensures (nonce + 1) % TWO_128 % 256 == wire <==> Gap(nonce, wire) == 1
  {
    hide Gap;
    WrapKeepsLowBytes(nonce + 1);
    if (nonce + 1) % 256 == wire {
      GapIsUnique(nonce, wire, 1);
    }
    var g := Gap(nonce % 256, wire);
    AddMultiple(nonce % 256 + g, nonce / 256);
    GapIsUnique(nonce, wire, g);
  }

  function SecondByte(nonce: int): byte {
    nonce / 256 % 256
  }

  /** A 32-bit counter moved by a signed amount, with the wrap-around of the machine type. */
  function Moved(counter: u32, amount: int): u32 {
    (counter + amount) % TWO_32
  }

  // ----- Receiving -----

  /** One datagram: the new receiver state and what became of the datagram. */
  function Receive(c: Ocb.Cipher, dir: Voice.Direction, r: Receiver, d: seq<byte>): (res: (Receiver, Outcome))
    requires r.Valid()
    ensures res.0.Valid()
  {
    if |d| < 4 then (r, Rejected(Eof))
    else
      var g := Gap(r.nonce, d[0]);
      var nonce: u128 := (r.nonce + g) % TWO_128;
      if g <= -30 then (r.(nonce := nonce), Rejected(Late))
      else if g <= 0 && r.history[d[0]] == SecondByte(nonce) then (r, Rejected(Repeat))
      else
        match OpenDatagram(c, nonce, d)
        case None => (r, Rejected(Mac))
        case Some(plain) =>
          (Receiver(if g <= 0 then r.nonce else nonce,
                    r.history[d[0] := SecondByte(nonce)],
                    Moved(r.good, 1),
                    if g <= 0 then Moved(r.late, 1) else r.late,
                    Moved(r.lost, if g <= 0 then -1 else g - 1)),
           Accepted(Voice.Decode(dir, plain).result))
  }

  // ----- The class -----

  class CryptState {
    const cipher: Ocb.Cipher
    const encodeDir: Voice.Direction
    const decodeDir: Voice.Direction
    var encryptNonce: u128
    var decryptNonce: u128
    const history: array<byte>
    var good: u32
    var late: u32
    var lost: u32

    ghost predicate Valid()
      reads this, history
    {
      history.Length == 0x100
    }

    ghost function View(): (r: Receiver)
      requires Valid()
      reads this, history
      ensures r.Valid()
    {
      Receiver(decryptNonce, history[..], good, late, lost)
    }

    /** A state with the given key and nonces, an empty history and zeroed counters. */
    constructor (cipher: Ocb.Cipher, encodeDir: Voice.Direction, decodeDir: Voice.Direction, encryptNonce: u128, decryptNonce: u128)
      ensures Valid() && fresh(history)
      ensures this.cipher == cipher && this.encodeDir == encodeDir && this.decodeDir == decodeDir
      ensures this.encryptNonce == encryptNonce
      ensures View() == Fresh(decryptNonce)
    {
      this.cipher, this.encodeDir, this.decodeDir := cipher, encodeDir, decodeDir;
      this.encryptNonce, this.decryptNonce := encryptNonce, decryptNonce;
      this.good, this.late, this.lost := 0, 0, 0;
      this.history := new byte[0x100](i => 0);
    }

    method SetDecryptNonce(nonce: u128)
      requires Valid()
      modifies this`decryptNonce
      ensures Valid() && View() == old(View()).(nonce := nonce)
    {
      decryptNonce := nonce;
    }

    /** Sends one packet under the next nonce. */
    method EncryptPacket(packet: Voice.VoicePacket) returns (dst: seq<byte>)
      requires Valid() && Voice.Typed(encodeDir, packet)
      modifies this`encryptNonce
      ensures Valid() && View() == old(View())
      ensures encryptNonce == (old(encryptNonce) + 1) % TWO_128
      ensures dst == SealDatagram(cipher, encryptNonce, Voice.Encode(packet))
    {
      hide Voice.Encode, Ocb.Encrypt, Ocb.Tag, TagBytes;
      encryptNonce := (encryptNonce + 1) % TWO_128;
      var encoded := new Buffer([]);
      Voice.EncodeVoice(packet, encoded);
      assert [] + Voice.Encode(packet) == Voice.Encode(packet);
      var inner := new byte[|encoded.bytes|](i requires 0 <= i < |encoded.bytes| reads encoded => encoded.bytes[i]);
      assert inner[..] == Voice.Encode(packet);
      var tag := Ocb.OcbEncrypt(cipher, encryptNonce, inner);
      dst := [encryptNonce % 256] + TagBytes(tag) + inner[..];
    }

    /**
     * Moves the decryption nonce to the one a datagram was sent under. A repeat restores it; a datagram
     * that is far too late leaves it moved.
     */
    method Locate(wire: byte) returns (error: Option<DecryptError>, isLate: bool, missing: int)
      requires Valid()
      modifies this`decryptNonce
      ensures var g := Gap(old(decryptNonce), wire);
              var nonce := (old(decryptNonce) + g) % TWO_128;
              && error == (if g <= -30 then Some(Late)
                           else if g <= 0 && history[wire] == SecondByte(nonce) then Some(Repeat)
                           else None)
              && decryptNonce == (if error == Some(Repeat) then old(decryptNonce) else nonce)
              && (error.None? ==> isLate == (g <= 0) && missing == (if g <= 0 then -1 else g - 1))
    {
      GapOfLowBytes(decryptNonce, wire);
      var savedNonce := decryptNonce;
      error, isLate, missing := None, false, 0;
      if (decryptNonce + 1) % TWO_128 % 256 == wire {
        decryptNonce := (decryptNonce + 1) % TWO_128;
      } else {
        var low := (wire - decryptNonce % 256) % 256;
        var diff := if low < 128 then low else low - 256;
        decryptNonce := (decryptNonce + diff) % TWO_128;
        if diff > 0 {
          missing := diff - 1;
        } else if diff > -30 {
          if history[wire] == decryptNonce / 256 % 256 {
            decryptNonce := savedNonce;
            error := Some(Repeat);
            return;
          }
          isLate := true;
          missing := -1;
        } else {
          error := Some(Late);
        }
      }
    }

    /** Receives one datagram. */
    method DecryptPacket(d: seq<byte>) returns (outcome: Outcome)
      requires Valid()
      modifies this`decryptNonce, this`good, this`late, this`lost, history
      ensures Valid()
      ensures (View(), outcome) == Receive(cipher, decodeDir, old(View()), d)
    {
      hide OpenDatagram, Gap, Moved, SecondByte, Voice.Decode;
      if |d| < 4 {
        return Rejected(Eof);
      }
      var wire := d[0];
      var savedNonce := decryptNonce;
      var error, isLate, missing := Locate(wire);
      if error.Some? {
        return Rejected(error.value);
      }
      var plain := Open(d);
      if plain.None? {
        decryptNonce := savedNonce;
        return Rejected(Mac);
      }
      ghost var before := history[..];
      history[wire] := SecondByte(decryptNonce);
      assert history[..] == before[wire := SecondByte(decryptNonce)];
      good := Moved(good, 1);
      if isLate {
        late := Moved(late, 1);
        decryptNonce := savedNonce;
      }
      lost := Moved(lost, missing);
      var buf := new Buffer(plain.value);
      var packet := Voice.DecodeVoice(decodeDir, buf);
      outcome := Accepted(packet);
    }

    /** Decrypts the body in place under the current nonce and compares the tag bytes. */
    method Open(d: seq<byte>) returns (plain: Option<seq<byte>>)
      requires Valid() && |d| >= 4
      ensures plain == OpenDatagram(cipher, decryptNonce, d)
    {
      hide Ocb.Decrypt, Ocb.Tag, TagBytes;
      var body := new byte[|d| - 4](i requires 0 <= i < |d| - 4 => d[i + 4]);
      assert body[..] == d[4..];
      var tag := Ocb.OcbDecrypt(cipher, decryptNonce, body);
      if TagBytes(tag) != d[1..4] {
        return None;
      }
      plain := Some(body[..]);
    }
  }

  /** The receiver of a new state. */
  function Fresh(nonce: u128): (r: Receiver)
    ensures r.Valid()
  {
    Receiver(nonce, seq(0x100, i => 0), 0, 0, 0)
  }
}
