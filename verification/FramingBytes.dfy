/** The frames of the control connection on their bytes, and which of them carry voice. */
module FramingBytes {
  import opened Bytes
  import opened Framing
  import Tunnel
  import Varint
  import VarintBytes
  import Voice

  /** The six bytes before a packet: its id and its length, the most significant byte first. */
  lemma FrameBytes(p: RawPacket)
    ensures var s, n := Frame(p), |p.bytes| % 0x1_0000_0000;
            && |s| == 6 + |p.bytes| && s[6..] == p.bytes
            && s[0] == p.id / 0x100 && s[1] == p.id % 0x100
            && s[2] == n / 0x100_0000 && s[3] == n / 0x1_0000 % 0x100 && s[4] == n / 0x100 % 0x100 && s[5] == n % 0x100
  {
    hide Varint.ToBigEndian, Varint.Pow256;
    Varint.Powers();
    var n := |p.bytes| % 0x1_0000_0000;
    VarintBytes.BigEndianByte(p.id, 2, 0);
    VarintBytes.BigEndianByte(p.id, 2, 1);
    VarintBytes.BigEndianByte(n, 4, 0);
    VarintBytes.BigEndianByte(n, 4, 1);
    VarintBytes.BigEndianByte(n, 4, 2);
    VarintBytes.BigEndianByte(n, 4, 3);
  }

  /** The header for an id and a length. */
  function Header(id: u16, n: u32): (s: seq<byte>)
    ensures |s| == 6
  {
    Varint.ToBigEndian(id, 2) + Varint.ToBigEndian(n, 4)
  }

  /** Any six bytes are such a header. */
  lemma EveryHeader(s: seq<byte>) returns (id: u16, n: u32)
    requires |s| == 6
    ensures s == Header(id, n)
  {
    hide Varint.ToBigEndian, Varint.BigEndian, Varint.Pow256;
    Varint.Powers();
    Varint.BigEndianBound(s[..2]);
    Varint.BigEndianBound(s[2..]);
    id, n := Varint.BigEndian(s[..2]), Varint.BigEndian(s[2..]);
    VarintBytes.BigEndianOnto(s[..2]);
    VarintBytes.BigEndianOnto(s[2..]);
  }

  /** What the decoder does with a header and the bytes after it; with fewer bytes than a header it waits. */
  lemma NextExactly(id: u16, n: u32, body: seq<byte>)
    ensures |body| < 6 ==> Next(body) == Incomplete
    ensures Next(Header(id, n) + body) ==
              if n > 0x7f_ffff then TooLong
              else if |body| < n then Incomplete
              else Packet(RawPacket(id, body[..n]), body[n..])
  {
    hide Varint.ToBigEndian, Varint.BigEndian, Varint.Pow256;
    Varint.Powers();
    var s := Header(id, n) + body;
    assert s[..2] == Varint.ToBigEndian(id, 2) && s[2..6] == Varint.ToBigEndian(n, 4);
    Varint.BigEndianInverse(id, 2);
    Varint.BigEndianInverse(n, 4);
    if |body| >= n {
      assert s[6..6 + n] == body[..n] && s[6 + n..] == body[n..];
    }
  }

  /** Voice is carried by packets of id 1 and by no others, as its own bytes. */
  lemma VoiceIsPacketOne(dir: Voice.Direction, p: Voice.VoicePacket, raw: RawPacket)
    ensures Tunnel.ToRaw(p) == RawPacket(1, Voice.Encode(p))
    ensures Tunnel.FromRaw(dir, raw).NotVoice? <==> raw.id != 1
    ensures raw.id == 1 ==>
              Tunnel.FromRaw(dir, raw) == match Voice.Decode(dir, raw.bytes).result
                                          case Ok(q) => Tunnel.Voice(q)
                                          case Err(e) => Tunnel.BadVoice(e)
  {
    hide Voice.Encode, Voice.Decode;
  }
}
