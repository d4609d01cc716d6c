/** Voice packets tunnelled over the control connection, among its other packets. */
module Tunnel {
  import opened Bytes
  import opened Voice
  import Framing
  import Varint

  /** The packet id of tunnelled voice. */
  const UDP_TUNNEL: u16 := 1

  function ToRaw(p: VoicePacket): Framing.RawPacket {
    Framing.RawPacket(UDP_TUNNEL, Encode(p))
  }

  datatype Untunnelled = Voice(packet: VoicePacket) | BadVoice(error: DecodeError) | NotVoice

  function FromRaw(dir: Direction, raw: Framing.RawPacket): Untunnelled {
    if raw.id != UDP_TUNNEL then NotVoice
    else match Decode(dir, raw.bytes).result
      case Ok(p) => Voice(p)
      case Err(e) => BadVoice(e)
  }

  /** A serverbound audio packet rebuilt for the listeners, stamped with the speaker's session. */
  function Restamp(p: VoicePacket, speaker: u32): VoicePacket
    requires p.Audio?
  {
    Audio(p.target, Some(speaker), p.seqNum, p.payload, p.position)
  }

  /** `q` is `p` as a listener should get it: nothing changed, and the speaker's id in it. */
  predicate Stamped(q: VoicePacket, p: VoicePacket, speaker: u32) {
    && p.Audio? && q.Audio? && q.session == Some(speaker)
    && q.target == p.target && q.seqNum == p.seqNum && q.payload == p.payload && q.position == p.position
  }

  lemma RestampKeeps(p: VoicePacket, speaker: u32)
    requires p.Audio?
    ensures Stamped(Restamp(p, speaker), p, speaker)
    ensures Restamp(p, speaker) == Audio(p.target, Some(speaker), p.seqNum, p.payload, p.position)
  {}

  /** On the wire the speaker's id goes in behind the first byte, and every other byte stays. */
  lemma RestampBytes(p: VoicePacket, speaker: u32)
    requires p.Audio? && p.session.None?
    ensures Encode(Restamp(p, speaker)) == Encode(p)[..1] + (Varint.Write(speaker) + Encode(p)[1..])
  {
    hide Varint.Write, EncodePayload, EncodePosition;
    var rest := Varint.Write(p.seqNum) + (EncodePayload(p.payload) + EncodePosition(p.position));
    assert [] + rest == rest;
    assert ([Kind(p.payload) * 32 + p.target % 32] + rest)[1..] == rest;
  }

  function Raws(ps: seq<VoicePacket>): (r: seq<Framing.RawPacket>)
    ensures |r| == |ps|
  {
    seq(|ps|, i requires 0 <= i < |ps| => ToRaw(ps[i]))
  }

  function Converted(dir: Direction, raws: seq<Framing.RawPacket>): (r: seq<Untunnelled>)
    ensures |r| == |raws|
  {
    seq(|raws|, i requires 0 <= i < |raws| => FromRaw(dir, raws[i]))
  }

  /** What the frames of a chunked stream convert to, one entry per frame. */
  function Heard(dir: Direction, chunks: seq<seq<byte>>): seq<Untunnelled> {
    Converted(dir, Framing.FeedAll(Framing.Drained([], [], false), chunks).packets)
  }

  /** The connection was ended by a frame that is too long. */
  predicate Failed(chunks: seq<seq<byte>>) {
    Framing.FeedAll(Framing.Drained([], [], false), chunks).failed
  }

  /** The voice packets a connection yields; it ends at the first one that does not decode. */
  function VoicesIn(heard: seq<Untunnelled>): seq<VoicePacket> {
    if heard == [] || heard[0].BadVoice? then []
    else (if heard[0].Voice? then [heard[0].packet] else []) + VoicesIn(heard[1..])
  }

  /** The tunnelled packets among all control packets of a connection. */
  function Tunnelled(raws: seq<Framing.RawPacket>): seq<Framing.RawPacket> {
    if raws == [] then []
    else (if raws[0].id == UDP_TUNNEL then [raws[0]] else []) + Tunnelled(raws[1..])
  }

  predicate Short(raws: seq<Framing.RawPacket>) {
    forall i :: 0 <= i < |raws| ==> |raws[i].bytes| <= Framing.MAX_LENGTH
  }

  predicate OthersShort(raws: seq<Framing.RawPacket>) {
    forall i :: 0 <= i < |raws| && raws[i].id != UDP_TUNNEL ==> |raws[i].bytes| <= Framing.MAX_LENGTH
  }

  /** Every length fits into the 32 bits of a frame's header. */
  predicate Sendable(raws: seq<Framing.RawPacket>) {
    forall i :: 0 <= i < |raws| ==> |raws[i].bytes| < TWO_32
  }

  /** The packets before the first one whose encoding is too long for a frame. */
  function Leading(ps: seq<VoicePacket>): seq<VoicePacket> {
    if ps == [] || |Encode(ps[0])| > Framing.MAX_LENGTH then [] else [ps[0]] + Leading(ps[1..])
  }

  /** How many voice packets come before the first control packet that is too long. */
  function VoicesBefore(raws: seq<Framing.RawPacket>): nat {
    |Tunnelled(Framing.ShortPrefix(raws))|
  }

  predicate Fits(dir: Direction, p: VoicePacket) {
    WellFormed(dir, p) && |Encode(p)| <= Framing.MAX_LENGTH
  }

  /** One hop: packets that fit are heard exactly, however the stream was cut into chunks. */
  lemma OneHop(dir: Direction, ps: seq<VoicePacket>, chunks: seq<seq<byte>>)
    requires forall i :: 0 <= i < |ps| ==> Fits(dir, ps[i])
    requires Framing.Flatten(chunks) == Framing.FrameAll(Raws(ps))
    ensures |Heard(dir, chunks)| == |ps|
    ensures forall i :: 0 <= i < |ps| ==> Heard(dir, chunks)[i] == Voice(ps[i])
  {
    hide Encode, Decode, Framing.FrameAll, Framing.Drain, Framing.FeedAll;
    Framing.ChunkingIndependence(chunks);
    Framing.RoundTrip(Raws(ps));
    forall i | 0 <= i < |ps|
      ensures FromRaw(dir, Raws(ps)[i]) == Voice(ps[i])
    {
      Voice.RoundTrip(dir, ps[i]);
    }
  }

  lemma FirstTunnelled(raws: seq<Framing.RawPacket>, ps: seq<VoicePacket>)
    requires raws != [] && raws[0].id == UDP_TUNNEL && Tunnelled(raws) == Raws(ps)
    ensures ps != [] && raws[0] == ToRaw(ps[0]) && Tunnelled(raws[1..]) == Raws(ps[1..])
  {
    hide ToRaw;
    assert ([raws[0]] + Tunnelled(raws[1..]))[1..] == Tunnelled(raws[1..]);
    assert Raws(ps)[1..] == Raws(ps[1..]);
  }

  lemma {:induction false} ConvertedVoices(dir: Direction, raws: seq<Framing.RawPacket>, ps: seq<VoicePacket>)
    requires Tunnelled(raws) == Raws(ps) && forall i :: 0 <= i < |ps| ==> WellFormed(dir, ps[i])
    ensures VoicesIn(Converted(dir, raws)) == ps
    decreases |raws|
  {
    hide Encode, Decode, WellFormed, Raws;
    if raws != [] {
      assert Converted(dir, raws)[1..] == Converted(dir, raws[1..]);
      if raws[0].id == UDP_TUNNEL {
        FirstTunnelled(raws, ps);
        TypedIfWellFormed(dir, ps[0]);
        Voice.RoundTrip(dir, ps[0]);
        ConvertedVoices(dir, raws[1..], ps[1..]);
        assert ps == [ps[0]] + ps[1..];
      } else {
        assert [] + Tunnelled(raws[1..]) == Tunnelled(raws[1..]);
        ConvertedVoices(dir, raws[1..], ps);
      }
    } else {
      assert |Raws(ps)| == |ps|;
    }
  }

  lemma TypedIfWellFormed(dir: Direction, p: VoicePacket)
    requires WellFormed(dir, p)
    ensures Typed(dir, p)
  {}

  lemma {:induction false} LeadingAll(ps: seq<VoicePacket>)
    ensures Leading(ps) <= ps
    ensures Leading(ps) == ps <==> forall i :: 0 <= i < |ps| ==> |Encode(ps[i])| <= Framing.MAX_LENGTH
  {
    hide Encode;
    if ps != [] {
      LeadingAll(ps[1..]);
      assert ps == [ps[0]] + ps[1..];
    }
  }

  lemma RawsCons(p: VoicePacket, ps: seq<VoicePacket>)
    ensures Raws([p] + ps) == [ToRaw(p)] + Raws(ps)
  {
    hide ToRaw;
  }

  /** The voice packets among the short ones at the front are the first of all. */
  lemma {:induction false} ShortTunnelled(raws: seq<Framing.RawPacket>, ps: seq<VoicePacket>)
    requires Tunnelled(raws) == Raws(ps)
    ensures VoicesBefore(raws) <= |ps|
    ensures Tunnelled(Framing.ShortPrefix(raws)) == Raws(ps[..VoicesBefore(raws)])
    decreases |raws|
  {
    hide ToRaw, Raws;
    var front := Framing.ShortPrefix(raws);
    if front == [] {
      assert Raws(ps[..0]) == [];
    } else {
      var rest := Framing.ShortPrefix(raws[1..]);
      assert front == [raws[0]] + rest;
      hide Framing.ShortPrefix;
      TunnelledCons(raws[0], rest);
      TunnelledCons(raws[0], raws[1..]);
      assert raws == [raws[0]] + raws[1..];
      hide Tunnelled;
      if raws[0].id == UDP_TUNNEL {
        FirstTunnelled(raws, ps);
        ShortTunnelled(raws[1..], ps[1..]);
        var n := VoicesBefore(raws[1..]);
        assert ps[..n + 1] == [ps[0]] + ps[1..][..n];
        RawsCons(ps[0], ps[1..][..n]);
      } else {
        ShortTunnelled(raws[1..], ps);
      }
    }
  }

  lemma TunnelledCons(raw: Framing.RawPacket, raws: seq<Framing.RawPacket>)
    ensures Tunnelled([raw] + raws) == if raw.id == UDP_TUNNEL then [raw] + Tunnelled(raws) else Tunnelled(raws)
  {
    assert ([raw] + raws)[1..] == raws;
    assert [] + Tunnelled(raws) == Tunnelled(raws);
  }

  /** When only voice can be too long, the voice that gets through is what comes before the first long packet. */
  lemma {:induction false} VoicesBeforeLong(raws: seq<Framing.RawPacket>, ps: seq<VoicePacket>)
    requires Tunnelled(raws) == Raws(ps) && OthersShort(raws)
    ensures VoicesBefore(raws) == |Leading(ps)|
    ensures Short(raws) <==> Leading(ps) == ps
    decreases |raws|
  {
    hide Encode, Raws;
    if raws == [] {
      assert |Raws(ps)| == 0;
    } else {
      var front := Framing.ShortPrefix(raws);
      assert front != [] ==> front[1..] == Framing.ShortPrefix(raws[1..]);
      assert raws == [raws[0]] + raws[1..];
      if raws[0].id == UDP_TUNNEL {
        FirstTunnelled(raws, ps);
        VoicesBeforeLong(raws[1..], ps[1..]);
        assert ps == [ps[0]] + ps[1..];
        assert raws[0].bytes == Encode(ps[0]);
      } else {
        assert [] + Tunnelled(raws[1..]) == Tunnelled(raws[1..]);
        VoicesBeforeLong(raws[1..], ps);
      }
    }
  }

  /**
   * One hop among other traffic: the voice packets before the first control packet that is too long come out in
   * order, for any chunking; then the connection has failed, exactly if there is such a packet.
   */
  lemma MixedHop(dir: Direction, raws: seq<Framing.RawPacket>, ps: seq<VoicePacket>, chunks: seq<seq<byte>>)
    requires Sendable(raws) && Tunnelled(raws) == Raws(ps)
    requires forall i :: 0 <= i < |ps| ==> WellFormed(dir, ps[i])
    requires Framing.Flatten(chunks) == Framing.FrameAll(raws)
    ensures VoicesBefore(raws) <= |ps| && VoicesIn(Heard(dir, chunks)) == ps[..VoicesBefore(raws)]
    ensures Failed(chunks) <==> !Short(raws)
  {
    hide WellFormed, Raws, Tunnelled, VoicesIn, Converted, VoicesBefore;
    hide Framing.FrameAll, Framing.Drain, Framing.FeedAll, Framing.Flatten, Framing.ShortPrefix;
    Framing.ChunkingIndependence(chunks);
    Framing.DrainExactly(raws);
    Framing.ShortPrefixAll(raws);
    ShortTunnelled(raws, ps);
    ConvertedVoices(dir, Framing.ShortPrefix(raws), ps[..VoicesBefore(raws)]);
  }

  /** When only voice can be too long: all of it is heard exactly if no packet is, and the connection fails otherwise. */
  lemma MixedHopExactly(dir: Direction, raws: seq<Framing.RawPacket>, ps: seq<VoicePacket>, chunks: seq<seq<byte>>)
    requires Sendable(raws) && OthersShort(raws) && Tunnelled(raws) == Raws(ps)
    requires forall i :: 0 <= i < |ps| ==> WellFormed(dir, ps[i])
    requires Framing.Flatten(chunks) == Framing.FrameAll(raws)
    ensures VoicesIn(Heard(dir, chunks)) == Leading(ps)
    ensures VoicesIn(Heard(dir, chunks)) == ps <==> forall i :: 0 <= i < |ps| ==> |Encode(ps[i])| <= Framing.MAX_LENGTH
    ensures Failed(chunks) <==> VoicesIn(Heard(dir, chunks)) != ps
  {
    hide WellFormed, Encode, Raws, Tunnelled, VoicesIn, Heard, Leading, VoicesBefore, Short, OthersShort, Sendable, Failed;
    hide Framing.FrameAll, Framing.Flatten;
    MixedHop(dir, raws, ps, chunks);
    VoicesBeforeLong(raws, ps);
    LeadingAll(ps);
  }

  /** Whatever bytes arrive, the voice packets they yield are well-formed. */
  lemma {:induction false} HeardWellFormed(dir: Direction, raws: seq<Framing.RawPacket>)
    ensures forall p :: p in VoicesIn(Converted(dir, raws)) ==> WellFormed(dir, p)
    decreases |raws|
  {
    hide Decode, WellFormed;
    if raws != [] {
      assert Converted(dir, raws)[1..] == Converted(dir, raws[1..]);
      HeardWellFormed(dir, raws[1..]);
      DecodedIsWellFormed(dir, raws[0].bytes);
    }
  }

  lemma {:induction false} HeardLengths(raws: seq<Framing.RawPacket>)
    requires Short(raws)
    ensures forall p :: p in VoicesIn(Converted(Serverbound, raws)) ==> |Encode(p)| <= Framing.MAX_LENGTH + 2
    decreases |raws|
  {
    hide Decode, Encode;
    if raws != [] {
      assert Converted(Serverbound, raws)[1..] == Converted(Serverbound, raws[1..]);
      HeardLengths(raws[1..]);
      ReencodedLength(raws[0].bytes);
    }
  }

  /** Whatever bytes a connection brings, the voice packets it yields are well-formed and of bounded length. */
  lemma HeardBounds(chunks: seq<seq<byte>>, p: VoicePacket)
    requires p in VoicesIn(Heard(Serverbound, chunks))
    ensures WellFormed(Serverbound, p) && |Encode(p)| <= Framing.MAX_LENGTH + 2
  {
    hide WellFormed, Encode, VoicesIn, Converted, Framing.FeedAll, Framing.Drain, Framing.Flatten;
    Framing.ChunkingIndependence(chunks);
    Framing.DrainedAreShort(Framing.Flatten(chunks));
    var raws := Framing.Drain(Framing.Flatten(chunks)).packets;
    HeardWellFormed(Serverbound, raws);
    HeardLengths(raws);
  }

  /** Stamping a packet makes it longer by exactly the speaker's id. */
  lemma RestampGrows(p: VoicePacket, speaker: u32)
    requires p.Audio? && p.session.None?
    ensures |Encode(Restamp(p, speaker))| == |Encode(p)| + |Varint.Write(speaker)|
  {
    hide Varint.Write, EncodePayload;
  }

  /** A packet the server can take fits once stamped exactly when its frame has room for the speaker's id. */
  lemma RestampFitsExactly(p: VoicePacket, speaker: u32)
    requires p.Audio? && WellFormed(Serverbound, p)
    ensures Fits(Clientbound, Restamp(p, speaker)) <==> |Encode(p)| + |Varint.Write(speaker)| <= Framing.MAX_LENGTH
  {
    hide Encode, PayloadFits, Varint.Write;
    RestampGrows(p, speaker);
  }

  // ----- The control codec -----

  datatype ControlDecoded = NeedMore | Refused | Item(item: Untunnelled)

  /** Takes one control packet off the buffer, with voice converted; a frame that is too long or does not decode fails. */
  method DecodeControl(dir: Direction, buf: Buffer) returns (r: ControlDecoded)
    modifies buf
    ensures match Framing.Next(old(buf.bytes))
            case Incomplete => r == NeedMore && buf.bytes == old(buf.bytes)
            case TooLong => r == Refused && buf.bytes == old(buf.bytes)
            case Packet(p, rest) =>
              buf.bytes == rest && r == if FromRaw(dir, p).BadVoice? then Refused else Item(FromRaw(dir, p))
  {
    hide Framing.Next, Decode;
    var raw := Framing.DecodeRaw(buf);
    match raw
    case NeedMore => return NeedMore;
    case PacketTooLong => return Refused;
    case Complete(p) =>
      if p.id != UDP_TUNNEL {
        return Item(NotVoice);
      }
      var inner := new Buffer(p.bytes);
      var voice := DecodeVoice(dir, inner);
      if voice.Err? {
        return Refused;
      }
      r := Item(Voice(voice.value));
  }
}
