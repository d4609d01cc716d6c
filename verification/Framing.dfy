/** Length-prefixed framing of control packets over a byte stream that arrives in arbitrary chunks. */
module Framing {
  import opened Bytes
  import Varint

  datatype RawPacket = RawPacket(id: u16, bytes: seq<byte>)

  const MAX_LENGTH := 0x7f_ffff
  const HEADER: nat := 6

  // ----- Format -----

  /** What the decoder finds at the front of its buffer. */
  datatype Found = Incomplete | TooLong | Packet(packet: RawPacket, rest: seq<byte>)

  function IdOf(s: seq<byte>): u16
    requires |s| >= HEADER
  {
    Varint.BigEndianBound(s[..2]);
    Varint.Powers();
    Varint.BigEndian(s[..2])
  }

  function LengthOf(s: seq<byte>): nat
    requires |s| >= HEADER
  {
    Varint.BigEndian(s[2..HEADER])
  }

  function Next(s: seq<byte>): (r: Found)
    ensures r.Packet? ==> |r.rest| < |s|
  {
    if |s| < HEADER then Incomplete
    else if LengthOf(s) > MAX_LENGTH then TooLong
    else if |s| < HEADER + LengthOf(s) then Incomplete
    else Packet(RawPacket(IdOf(s), s[HEADER..HEADER + LengthOf(s)]), s[HEADER + LengthOf(s)..])
  }

  /** The bytes sent for a packet. */
  function Frame(p: RawPacket): seq<byte> {
    Varint.ToBigEndian(p.id, 2) + Varint.ToBigEndian(|p.bytes| % TWO_32, 4) + p.bytes
  }

  function FrameAll(ps: seq<RawPacket>): seq<byte> {
    if ps == [] then [] else Frame(ps[0]) + FrameAll(ps[1..])
  }

  /** Everything a drain extracts: the packets, what stays in the buffer, and whether an oversized header stopped it. */
  datatype Drained = Drained(packets: seq<RawPacket>, rest: seq<byte>, failed: bool)

  function Drain(s: seq<byte>): Drained
    decreases |s|
  {
    match Next(s)
    case Incomplete => Drained([], s, false)
    case TooLong => Drained([], s, true)
    case Packet(p, rest) => Prepend([p], Drain(rest))
  }

  function Prepend(ps: seq<RawPacket>, d: Drained): Drained {
    d.(packets := ps + d.packets)
  }

  // ----- Chunking does not matter -----

  /** The state after one more chunk has arrived and the buffer has been drained again. */
  function Feed(d: Drained, chunk: seq<byte>): Drained {
    Prepend(d.packets, Drain(d.rest + chunk))
  }

  function FeedAll(d: Drained, chunks: seq<seq<byte>>): Drained
    decreases |chunks|
  {
    if chunks == [] then d else FeedAll(Feed(d, chunks[0]), chunks[1..])
  }

  function Flatten(chunks: seq<seq<byte>>): seq<byte> {
    if chunks == [] then [] else chunks[0] + Flatten(chunks[1..])
  }

  /** More bytes at the end change neither a packet already complete nor a header already too long. */
  lemma NextStable(s: seq<byte>, t: seq<byte>)
    ensures Next(s).Packet? ==> Next(s + t) == Packet(Next(s).packet, Next(s).rest + t)
    ensures Next(s).TooLong? ==> Next(s + t).TooLong?
  {
    hide Varint.BigEndian;
    if |s| >= HEADER {
      assert (s + t)[..2] == s[..2] && (s + t)[2..HEADER] == s[2..HEADER];
      if Next(s).Packet? {
        var n := HEADER + LengthOf(s);
        assert (s + t)[HEADER..n] == s[HEADER..n] && (s + t)[n..] == s[n..] + t;
      }
    }
  }

  lemma DrainStep(s: seq<byte>)
    ensures Drain(s) == match Next(s)
                        case Packet(p, rest) => Prepend([p], Drain(rest))
                        case _ => Drained([], s, Next(s).TooLong?)
  {
    hide Next;
  }

  lemma PrependTwice(a: seq<RawPacket>, b: seq<RawPacket>, d: Drained)
    ensures Prepend(a, Prepend(b, d)) == Prepend(a + b, d)
    ensures Prepend([], d) == d
  {
    assert a + (b + d.packets) == a + b + d.packets;
  }

  lemma PrependedFeed(p: RawPacket, d: Drained, t: seq<byte>)
    ensures Feed(Prepend([p], d), t) == Prepend([p], Feed(d, t))
  {
    hide Drain;
    PrependTwice([p], d.packets, Drain(d.rest + t));
  }

  lemma NothingPrepended(s: seq<byte>, failed: bool, t: seq<byte>)
    ensures Feed(Drained([], s, failed), t) == Drain(s + t)
  {
    hide Drain;
    PrependTwice([], [], Drain(s + t));
  }

  /** Draining early and then going on with more bytes loses and reorders nothing. */
  lemma {:induction false} DrainInTwo(s: seq<byte>, t: seq<byte>)
    ensures Feed(Drain(s), t) == Drain(s + t)
    decreases |s|
  {
    hide Next, Drain, Prepend;
    NextStable(s, t);
    DrainStep(s);
    DrainStep(s + t);
    match Next(s)
    case Packet(p, rest) =>
      DrainInTwo(rest, t);
      PrependedFeed(p, Drain(rest), t);
    case _ =>
      NothingPrepended(s, Next(s).TooLong?, t);
  }

  lemma {:induction false} FeedAllIsDrain(s: seq<byte>, chunks: seq<seq<byte>>)
    ensures FeedAll(Drain(s), chunks) == Drain(s + Flatten(chunks))
    decreases |chunks|
  {
    hide Drain, Feed;
    if chunks == [] {
      assert s + [] == s;
    } else {
      DrainInTwo(s, chunks[0]);
      FeedAllIsDrain(s + chunks[0], chunks[1..]);
      assert s + chunks[0] + Flatten(chunks[1..]) == s + Flatten(chunks);
    }
  }

  /** Packets, error status and left-over bytes depend on the stream alone, not on how it was cut up. */
  lemma ChunkingIndependence(chunks: seq<seq<byte>>)
    ensures FeedAll(Drained([], [], false), chunks) == Drain(Flatten(chunks))
  {
    FeedAllIsDrain([], chunks);
    assert [] + Flatten(chunks) == Flatten(chunks);
  }

  // ----- Round trip -----

  lemma FrameHeader(p: RawPacket, suffix: seq<byte>)
    ensures var s := Frame(p) + suffix;
            && |s| >= HEADER && IdOf(s) == p.id && LengthOf(s) == |p.bytes| % TWO_32
            && s[HEADER..] == p.bytes + suffix
  {
    hide Varint.BigEndian, Varint.ToBigEndian;
    Varint.Powers();
    var s := Frame(p) + suffix;
    Varint.BigEndianInverse(p.id, 2);
    Varint.BigEndianInverse(|p.bytes| % TWO_32, 4);
    assert s[..2] == Varint.ToBigEndian(p.id, 2) && s[2..HEADER] == Varint.ToBigEndian(|p.bytes| % TWO_32, 4);
  }

  lemma NextOfFrame(p: RawPacket, suffix: seq<byte>)
    requires |p.bytes| <= MAX_LENGTH
    ensures Next(Frame(p) + suffix) == Packet(p, suffix)
  {
    hide Frame, IdOf, LengthOf;
    FrameHeader(p, suffix);
    var s := Frame(p) + suffix;
    var n := |p.bytes|;
    assert s[HEADER..HEADER + n] == s[HEADER..][..n] && s[HEADER + n..] == s[HEADER..][n..];
  }

  lemma {:induction false} DrainOfFrames(ps: seq<RawPacket>, suffix: seq<byte>)
    requires forall i :: 0 <= i < |ps| ==> |ps[i].bytes| <= MAX_LENGTH
    ensures Drain(FrameAll(ps) + suffix) == Prepend(ps, Drain(suffix))
    decreases |ps|
  {
    hide Next, Frame, Drain, Prepend;
    if ps == [] {
      assert [] + suffix == suffix;
      PrependTwice([], [], Drain(suffix));
    } else {
      var tail := FrameAll(ps[1..]) + suffix;
      NextOfFrame(ps[0], tail);
      DrainStep(Frame(ps[0]) + tail);
      PrependTwice([ps[0]], ps[1..], Drain(suffix));
      assert FrameAll(ps) + suffix == Frame(ps[0]) + (FrameAll(ps[1..]) + suffix);
      DrainOfFrames(ps[1..], suffix);
      assert ps == [ps[0]] + ps[1..];
    }
  }

  lemma {:induction false} DrainedAreShort(s: seq<byte>)
    ensures forall i :: 0 <= i < |Drain(s).packets| ==> |Drain(s).packets[i].bytes| <= MAX_LENGTH
    decreases |s|
  {
    if Next(s).Packet? {
      DrainedAreShort(Next(s).rest);
    }
  }

  /** A list of packets comes back whole, with nothing left over, exactly when none exceeds the maximum length. */
  lemma RoundTrip(ps: seq<RawPacket>)
    ensures Drain(FrameAll(ps)) == Drained(ps, [], false)
       <==> forall i :: 0 <= i < |ps| ==> |ps[i].bytes| <= MAX_LENGTH
  {
    hide FrameAll;
    DrainedAreShort(FrameAll(ps));
    if forall i :: 0 <= i < |ps| ==> |ps[i].bytes| <= MAX_LENGTH {
      DrainOfFrames(ps, []);
      assert FrameAll(ps) + [] == FrameAll(ps) && ps + [] == ps;
    }
  }

  /** The packets before the first one that is longer than a decoder takes. */
  function ShortPrefix(ps: seq<RawPacket>): seq<RawPacket> {
    if ps == [] || |ps[0].bytes| > MAX_LENGTH then [] else [ps[0]] + ShortPrefix(ps[1..])
  }

  lemma {:induction false} ShortPrefixAll(ps: seq<RawPacket>)
    ensures ShortPrefix(ps) <= ps
    ensures ShortPrefix(ps) == ps <==> forall i :: 0 <= i < |ps| ==> |ps[i].bytes| <= MAX_LENGTH
  {
    if ps != [] {
      ShortPrefixAll(ps[1..]);
      assert ps == [ps[0]] + ps[1..];
    }
  }

  lemma LongFrame(p: RawPacket, suffix: seq<byte>)
    requires MAX_LENGTH < |p.bytes| < TWO_32
    ensures Next(Frame(p) + suffix).TooLong?
  {
    hide Frame, IdOf, LengthOf;
    FrameHeader(p, suffix);
  }

  /** Whatever is sent, the decoder yields the packets before the first long one and fails exactly if there is one. */
  lemma {:induction false} DrainExactly(ps: seq<RawPacket>)
    requires forall i :: 0 <= i < |ps| ==> |ps[i].bytes| < TWO_32
    ensures Drain(FrameAll(ps)).packets == ShortPrefix(ps)
    ensures Drain(FrameAll(ps)).failed <==> ShortPrefix(ps) != ps
    decreases |ps|
  {
    hide Next, Frame, Drain;
    DrainStep(FrameAll(ps));
    if ps == [] {
      NothingYet();
    } else if |ps[0].bytes| > MAX_LENGTH {
      LongFrame(ps[0], FrameAll(ps[1..]));
    } else {
      NextOfFrame(ps[0], FrameAll(ps[1..]));
      DrainExactly(ps[1..]);
      assert ps == [ps[0]] + ps[1..];
    }
  }

  lemma NothingYet()
    ensures Next([]).Incomplete?
  {}

  // ----- The codec -----

  datatype Decoded = NeedMore | PacketTooLong | Complete(packet: RawPacket)

  /** Takes one packet off the buffer if a whole one is there. */
  method DecodeRaw(buf: Buffer) returns (r: Decoded)
    modifies buf
    ensures match Next(old(buf.bytes))
            case Incomplete => r == NeedMore && buf.bytes == old(buf.bytes)
            case TooLong => r == PacketTooLong && buf.bytes == old(buf.bytes)
            case Packet(p, rest) => r == Complete(p) && buf.bytes == rest
  {
    hide Varint.BigEndian;
    var length := |buf.bytes|;
    if length >= HEADER {
      var id := IdOf(buf.bytes);
      var len := LengthOf(buf.bytes);
      if len > MAX_LENGTH {
        return PacketTooLong;
      } else if length >= HEADER + len {
        var bytes := buf.SplitTo(HEADER + len);
        return Complete(RawPacket(id, bytes[HEADER..]));
      } else {
        return NeedMore;
      }
    } else {
      return NeedMore;
    }
  }

  method EncodeRaw(p: RawPacket, dst: Buffer)
    modifies dst
    ensures dst.bytes == old(dst.bytes) + Frame(p)
  {
    hide Varint.ToBigEndian;
    dst.Put(Varint.ToBigEndian(p.id, 2));
    dst.Put(Varint.ToBigEndian(|p.bytes| % TWO_32, 4));
    dst.Put(p.bytes);
  }

  /** One round of draining: a packet comes off, or what is there stays. */
  lemma DrainRound(packets: seq<RawPacket>, s: seq<byte>)
    ensures Prepend(packets, Drain(s)) == match Next(s)
                                          case Packet(p, rest) => Prepend(packets + [p], Drain(rest))
                                          case _ => Drained(packets, s, Next(s).TooLong?)
  {
    hide Next, Drain;
    DrainStep(s);
    if Next(s).Packet? {
      PrependTwice(packets, [Next(s).packet], Drain(Next(s).rest));
    } else {
      assert packets + [] == packets;
    }
  }

  /** The receiving end of a connection: each arriving chunk is buffered and then drained of whole packets. */
  method Receive(buf: Buffer, chunk: seq<byte>) returns (packets: seq<RawPacket>, failed: bool)
    modifies buf
    ensures Drained(packets, buf.bytes, failed) == Drain(old(buf.bytes) + chunk)
  {
    hide Next, Drain;
    buf.Put(chunk);
    packets, failed := [], false;
    PrependTwice([], [], Drain(buf.bytes));
    while true
      invariant Prepend(packets, Drain(buf.bytes)) == Drain(old(buf.bytes) + chunk)
      decreases |buf.bytes|
    {
      hide Prepend;
      DrainRound(packets, buf.bytes);
      var r := DecodeRaw(buf);
      match r
      case NeedMore => return packets, false;
      case PacketTooLong => return packets, true;
      case Complete(p) => packets := packets + [p];
    }
  }
}
