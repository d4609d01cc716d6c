/** Voice packets and their codec, whose layout depends on the direction a packet travels in. */
module Voice {
  import opened Bytes
  import Varint

  datatype Direction = Serverbound | Clientbound

  datatype Payload =
    | CeltAlpha(frames: seq<seq<byte>>)
    | CeltBeta(frames: seq<seq<byte>>)
    | Speex(frames: seq<seq<byte>>)
    | Opus(frame: seq<byte>, last: bool)

  datatype VoicePacket =
    | Ping(timestamp: u64)
    | Audio(target: byte, session: Option<u32>, seqNum: u64, payload: Payload, position: Option<seq<byte>>)

  datatype DecodeError = UnexpectedEof | UnknownKind

  datatype Result<+T> = Ok(value: T) | Err(error: DecodeError)

  /** A packet of the given direction: only clientbound audio names its session. */
  predicate Typed(dir: Direction, p: VoicePacket) {
    p.Audio? ==> (p.session.Some? <==> dir.Clientbound?)
  }

  /** The payloads that survive the wire: non-empty lists of short frames, and Opus lengths without the flag bit. */
  predicate PayloadFits(p: Payload) {
    if p.Opus? then |p.frame| < TWO_64 && |p.frame| / 0x2000 % 2 == 0
    else |p.frames| > 0 && forall i :: 0 <= i < |p.frames| ==> |p.frames[i]| < 0x80
  }

  predicate WellFormed(dir: Direction, p: VoicePacket) {
    && Typed(dir, p)
    && (p.Audio? ==> p.target < 32 && PayloadFits(p.payload) && p.position != Some([]))
  }

  // ----- Encoding -----

  function Kind(p: Payload): nat {
    match p
    case CeltAlpha(_) => 0
    case Speex(_) => 2
    case CeltBeta(_) => 3
    case Opus(_, _) => 4
  }

  /** `flag | x`, where `flag` is a single bit of the 64-bit number `x`. */
  function WithBit(x: nat, flag: nat): nat
    requires flag > 0
  {
    if x / flag % 2 == 1 then x else x + flag
  }

  /** The length byte before a frame, with the continuation bit when more frames follow. */
  function FrameHeader(len: nat, more: bool): byte {
    if more then WithBit(len % 256, 0x80) else len % 256
  }

  function EncodeFrames(frames: seq<seq<byte>>): seq<byte> {
    if frames == [] then []
    else [FrameHeader(|frames[0]|, |frames| > 1)] + frames[0] + EncodeFrames(frames[1..])
  }

  /** The varint before an Opus frame: its length and the termination bit. */
  function OpusHeader(len: nat, last: bool): u64 {
    var n := len % TWO_64;
    if last then WithBit(n, 0x2000) else n
  }

  function EncodePayload(p: Payload): seq<byte> {
    if p.Opus? then Varint.Write(OpusHeader(|p.frame|, p.last)) + p.frame else EncodeFrames(p.frames)
  }

  function EncodeSession(session: Option<u32>): seq<byte> {
    if session.Some? then Varint.Write(session.value) else []
  }

  function EncodePosition(position: Option<seq<byte>>): seq<byte> {
    if position.Some? then position.value else []
  }

  function Encode(p: VoicePacket): (s: seq<byte>)
    ensures |s| > 0
  {
    match p
    case Ping(timestamp) => [0x20] + Varint.Write(timestamp)
    case Audio(target, session, seqNum, payload, position) =>
      [Kind(payload) * 32 + target % 32] +
      (EncodeSession(session) + (Varint.Write(seqNum) + (EncodePayload(payload) + EncodePosition(position))))
  }

  // ----- Decoding -----

  datatype Frames = Frames(frames: seq<seq<byte>>, rest: seq<byte>) | Truncated(rest: seq<byte>)

  function ReadFrames(s: seq<byte>): (r: Frames)
    ensures |r.rest| <= |s|
  {
    if s == [] then Truncated(s)
    else
      var len := s[0] % 0x80;
      var t := s[1..];
      if |t| < len then Truncated(t)
      else if s[0] < 0x80 then Frames([t[..len]], t[len..])
      else
        match ReadFrames(t[len..])
        case Frames(frames, rest) => Frames([t[..len]] + frames, rest)
        case Truncated(rest) => Truncated(rest)
  }

  function PayloadOf(kind: nat, frames: seq<seq<byte>>): Payload {
    if kind == 0 then CeltAlpha(frames) else if kind == 2 then Speex(frames) else CeltBeta(frames)
  }

  /** What a field reads as, and the bytes that remain in the packet buffer after it. */
  datatype Field<+T> = Field(result: Result<T>, rest: seq<byte>)

  /** Reads an audio payload from `s`; `whole` is what the buffer still holds if nothing is taken from it. */
  function ReadPayload(kind: nat, s: seq<byte>, whole: seq<byte>): Field<Payload> {
    if kind == 0 || kind == 2 || kind == 3 then
      match ReadFrames(s)
      case Frames(frames, rest) => Field(Ok(PayloadOf(kind, frames)), rest)
      case Truncated(rest) => Field(Err(UnexpectedEof), rest)
    else if kind == 4 then
      match Varint.Read(s)
      case Eof => Field(Err(UnexpectedEof), whole)
      case Got(header, rest) =>
        var last := header / 0x2000 % 2 == 1;
        var len := if last then header - 0x2000 else header;
        if |rest| < len then Field(Err(UnexpectedEof), rest)
        else Field(Ok(Opus(rest[..len], last)), rest[len..])
    else Field(Err(UnknownKind), whole)
  }

  function ReadSession(dir: Direction, s: seq<byte>): (r: Option<(Option<u32>, seq<byte>)>) {
    match dir
    case Serverbound => Some((None, s))
    case Clientbound =>
      match Varint.Read(s)
      case Eof => None
      case Got(id, rest) => Some((Some(id % TWO_32), rest))
  }

  function ReadPosition(s: seq<byte>): Option<seq<byte>> {
    if s == [] then None else Some(s)
  }

  /** An audio packet after its header byte. */
  function ReadAudio(dir: Direction, kind: nat, target: byte, s: seq<byte>, whole: seq<byte>): Field<VoicePacket> {
    match ReadSession(dir, s)
    case None => Field(Err(UnexpectedEof), whole)
    case Some((session, t)) =>
      match Varint.Read(t)
      case Eof => Field(Err(UnexpectedEof), whole)
      case Got(seqNum, u) =>
        var f := ReadPayload(kind, u, whole);
        match f.result
        case Err(e) => Field(Err(e), f.rest)
        case Ok(payload) => Field(Ok(Audio(target, session, seqNum, payload, ReadPosition(f.rest))), [])
  }

  /** Decodes one packet; `rest` is what stays in the buffer, also when decoding fails half way. */
  function Decode(dir: Direction, s: seq<byte>): Field<VoicePacket> {
    if s == [] then Field(Err(UnexpectedEof), s)
    else if s[0] / 32 == 1 then
      match Varint.Read(s[1..])
      case Eof => Field(Err(UnexpectedEof), s)
      case Got(timestamp, _) => Field(Ok(Ping(timestamp)), s)
    else ReadAudio(dir, s[0] / 32, s[0] % 32, s[1..], s)
  }

  // ----- Decoding yields only well-formed packets -----

  lemma {:induction false} ReadFramesFit(s: seq<byte>)
    ensures var r := ReadFrames(s);
            r.Frames? ==> |r.frames| > 0 && forall i :: 0 <= i < |r.frames| ==> |r.frames[i]| < 0x80
  {
    if s != [] && |s[1..]| >= s[0] % 0x80 && s[0] >= 0x80 {
      ReadFramesFit(s[1..][s[0] % 0x80..]);
    }
  }

  lemma ReadPayloadFits(kind: nat, s: seq<byte>, whole: seq<byte>)
    ensures var r := ReadPayload(kind, s, whole).result;
            r.Ok? ==> PayloadFits(r.value)
  {
    hide ReadFrames, Varint.Read;
    ReadFramesFit(s);
  }

  lemma DecodedIsWellFormed(dir: Direction, s: seq<byte>)
    ensures Decode(dir, s).result.Ok? ==> WellFormed(dir, Decode(dir, s).result.value)
  {
    hide ReadPayload, Varint.Read, PayloadFits;
    forall kind, u { ReadPayloadFits(kind, u, s); }
  }

  // ----- Round trip -----

  lemma FrameHeaderParts(len: nat, more: bool)
    requires len < 0x80
    ensures FrameHeader(len, more) % 0x80 == len
    ensures FrameHeader(len, more) >= 0x80 <==> more
  {}

  /** One frame at the head of a frame list. */
  lemma ReadFrame(h: byte, frame: seq<byte>, tail: seq<byte>)
    requires |frame| == h % 0x80
    ensures ReadFrames([h] + (frame + tail))
         == if h < 0x80 then Frames([frame], tail)
            else if ReadFrames(tail).Frames? then Frames([frame] + ReadFrames(tail).frames, ReadFrames(tail).rest)
            else ReadFrames(tail)
  {
    var s := [h] + (frame + tail);
    assert s[1..] == frame + tail;
    assert s[1..][..|frame|] == frame && s[1..][|frame|..] == tail;
  }

  lemma {:induction false} FramesRoundTrip(frames: seq<seq<byte>>, suffix: seq<byte>)
    requires |frames| > 0 && forall i :: 0 <= i < |frames| ==> |frames[i]| < 0x80
    ensures ReadFrames(EncodeFrames(frames) + suffix) == Frames(frames, suffix)
  {
    hide ReadFrames, FrameHeader;
    var h := FrameHeader(|frames[0]|, |frames| > 1);
    var tail := EncodeFrames(frames[1..]) + suffix;
    FrameHeaderParts(|frames[0]|, |frames| > 1);
    ReadFrame(h, frames[0], tail);
    assert EncodeFrames(frames) + suffix == [h] + (frames[0] + tail);
    if |frames| > 1 {
      FramesRoundTrip(frames[1..], suffix);
      assert frames == [frames[0]] + frames[1..];
    } else {
      assert tail == suffix && frames == [frames[0]];
    }
  }

  lemma OpusHeaderParts(len: nat, last: bool)
    requires len < TWO_64 && len / 0x2000 % 2 == 0
    ensures var header := OpusHeader(len, last);
            && (header / 0x2000 % 2 == 1 <==> last)
            && (if last then header - 0x2000 else header) == len
  {}

  lemma OpusRoundTrip(frame: seq<byte>, last: bool, suffix: seq<byte>, whole: seq<byte>)
    requires PayloadFits(Opus(frame, last))
    ensures ReadPayload(4, EncodePayload(Opus(frame, last)) + suffix, whole) == Field(Ok(Opus(frame, last)), suffix)
  {
    hide ReadFrames, EncodeFrames, OpusHeader, Varint.Read, Varint.Write;
    var header := OpusHeader(|frame|, last);
    var rest := frame + suffix;
    OpusHeaderParts(|frame|, last);
    Varint.ReadWrite(header, rest);
    assert EncodePayload(Opus(frame, last)) + suffix == Varint.Write(header) + rest;
    assert rest[..|frame|] == frame && rest[|frame|..] == suffix;
  }

  lemma PayloadRoundTrip(p: Payload, suffix: seq<byte>, whole: seq<byte>)
    requires PayloadFits(p)
    ensures ReadPayload(Kind(p), EncodePayload(p) + suffix, whole) == Field(Ok(p), suffix)
  {
    if p.Opus? {
      OpusRoundTrip(p.frame, p.last, suffix, whole);
    } else {
      hide ReadFrames, EncodeFrames;
      FramesRoundTrip(p.frames, suffix);
    }
  }

  lemma SessionRoundTrip(dir: Direction, session: Option<u32>, suffix: seq<byte>)
    requires session.Some? <==> dir.Clientbound?
    ensures ReadSession(dir, EncodeSession(session) + suffix) == Some((session, suffix))
  {
    hide Varint.Read, Varint.Write;
    if session.Some? {
      Varint.ReadWrite(session.value, suffix);
    } else {
      assert [] + suffix == suffix;
    }
  }

  lemma AudioRoundTrip(dir: Direction, p: VoicePacket)
    requires WellFormed(dir, p) && p.Audio?
    ensures Decode(dir, Encode(p)) == Field(Ok(p), [])
  {
    hide ReadPayload, ReadSession, EncodePayload, EncodeSession, PayloadFits, Varint.Read, Varint.Write;
    var whole := Encode(p);
    var position := EncodePosition(p.position);
    var t2 := EncodePayload(p.payload) + position;
    var t1 := Varint.Write(p.seqNum) + t2;
    SessionRoundTrip(dir, p.session, t1);
    Varint.ReadWrite(p.seqNum, t2);
    PayloadRoundTrip(p.payload, position, whole);
    assert whole[1..] == EncodeSession(p.session) + t1;
  }

  lemma PingRoundTrip(dir: Direction, timestamp: u64)
    ensures Decode(dir, Encode(Ping(timestamp))).result == Ok(Ping(timestamp))
  {
    hide Varint.Read, Varint.Write;
    var s := Encode(Ping(timestamp));
    Varint.ReadWrite(timestamp, []);
    assert s[1..] == Varint.Write(timestamp) + [];
  }

  /** A packet comes back unchanged exactly when it is well-formed. */
  lemma RoundTrip(dir: Direction, p: VoicePacket)
    requires Typed(dir, p)
    ensures Decode(dir, Encode(p)).result == Ok(p) <==> WellFormed(dir, p)
  {
    hide Decode, Encode;
    DecodedIsWellFormed(dir, Encode(p));
    if WellFormed(dir, p) {
      if p.Audio? {
        AudioRoundTrip(dir, p);
      } else {
        PingRoundTrip(dir, p.timestamp);
      }
    }
  }

  /** Re-encoding what was decoded changes no packet. */
  lemma Normalisation(dir: Direction, s: seq<byte>)
    requires Decode(dir, s).result.Ok?
    ensures Decode(dir, Encode(Decode(dir, s).result.value)).result == Decode(dir, s).result
  {
    hide Decode, Encode;
    DecodedIsWellFormed(dir, s);
    RoundTrip(dir, Decode(dir, s).result.value);
  }

  // ----- Lengths -----

  /** A number written again takes at most one byte more than it was read from. */
  lemma RewriteLength(s: seq<byte>)
    requires Varint.Read(s).Got?
    ensures |Varint.Write(Varint.Read(s).value)| + |Varint.Read(s).rest| <= |s| + 1
  {
    hide Varint.Read, Varint.Write;
    Varint.WriteIsShortest(s);
    Varint.WriteLength(Varint.Read(s).value);
  }

  lemma {:induction false} FramesLength(s: seq<byte>)
    ensures var r := ReadFrames(s);
            r.Frames? ==> |EncodeFrames(r.frames)| + |r.rest| == |s|
  {
    if s != [] && |s[1..]| >= s[0] % 0x80 {
      var len, t := s[0] % 0x80, s[1..];
      if s[0] >= 0x80 {
        FramesLength(t[len..]);
        var r := ReadFrames(t[len..]);
        if r.Frames? {
          assert ([t[..len]] + r.frames)[1..] == r.frames;
        }
      } else {
        assert [t[..len]][1..] == [];
      }
    }
  }

  lemma PayloadLength(kind: nat, s: seq<byte>, whole: seq<byte>)
    ensures var f := ReadPayload(kind, s, whole);
            f.result.Ok? ==> |EncodePayload(f.result.value)| + |f.rest| <= |s| + 1
  {
    hide ReadFrames, EncodeFrames, Varint.Read, Varint.Write;
    FramesLength(s);
    if Varint.Read(s).Got? {
      RewriteLength(s);
    }
  }

  /** A decoded packet encoded again is at most two bytes longer than what it was decoded from. */
  lemma ReencodedLength(s: seq<byte>)
    ensures var r := Decode(Serverbound, s).result;
            r.Ok? ==> |Encode(r.value)| <= |s| + 2
  {
    hide ReadPayload, EncodePayload, Varint.Read, Varint.Write;
    if s != [] && Varint.Read(s[1..]).Got? {
      RewriteLength(s[1..]);
      PayloadLength(s[0] / 32, Varint.Read(s[1..]).rest, s);
    }
  }

  // ----- The encoder and the decoder -----

  /** Appends the encoding of a packet to a buffer. */
  method EncodeVoice(p: VoicePacket, dst: Buffer)
    modifies dst
    ensures dst.bytes == old(dst.bytes) + Encode(p)
  {
    hide Varint.Write, EncodePayload;
    match p
    case Ping(timestamp) =>
      dst.Put([0x20]);
      Varint.WriteVarint(dst, timestamp);
    case Audio(target, session, seqNum, payload, position) =>
      ghost var before := dst.bytes;
      var header: seq<byte> := [Kind(payload) * 32 + target % 32];
      dst.Put(header);
      PutSession(session, dst);
      Varint.WriteVarint(dst, seqNum);
      PutPayload(payload, dst);
      if position.Some? {
        dst.Put(position.value);
      } else {
        assert dst.bytes + [] == dst.bytes;
      }
      Concatenation(before, header, EncodeSession(session), Varint.Write(seqNum), EncodePayload(payload), EncodePosition(position));
  }

  lemma Concatenation(a: seq<byte>, b: seq<byte>, c: seq<byte>, d: seq<byte>, e: seq<byte>, f: seq<byte>)
    ensures a + b + c + d + e + f == a + (b + (c + (d + (e + f))))
  {
    assert a + b + c + d + e + f == a + b + c + d + (e + f);
    assert a + b + c + d + (e + f) == a + b + c + (d + (e + f));
    assert a + b + c + (d + (e + f)) == a + b + (c + (d + (e + f)));
  }

  method PutSession(session: Option<u32>, dst: Buffer)
    modifies dst
    ensures dst.bytes == old(dst.bytes) + EncodeSession(session)
  {
    if session.Some? {
      Varint.WriteVarint(dst, session.value);
    } else {
      assert dst.bytes + [] == dst.bytes;
    }
  }

  method PutPayload(p: Payload, dst: Buffer)
    modifies dst
    ensures dst.bytes == old(dst.bytes) + EncodePayload(p)
  {
    hide Varint.Write, EncodeFrames;
    if p.Opus? {
      Varint.WriteVarint(dst, OpusHeader(|p.frame|, p.last));
      dst.Put(p.frame);
    } else {
      PutFrames(p.frames, dst);
    }
  }

  /** The frame loop of the encoder. */
  method PutFrames(frames: seq<seq<byte>>, dst: Buffer)
    modifies dst
    ensures dst.bytes == old(dst.bytes) + EncodeFrames(frames)
  {
    var i := 0;
    while i < |frames|
      invariant i <= |frames|
      invariant dst.bytes + EncodeFrames(frames[i..]) == old(dst.bytes) + EncodeFrames(frames)
    {
      var header := FrameHeader(|frames[i]|, i + 1 < |frames|);
      assert frames[i..][1..] == frames[i + 1..];
      dst.Put([header]);
      dst.Put(frames[i]);
      i := i + 1;
    }
  }

  /** What `frames` taken so far and the frames still in `s` make together. */
  function FramesAfter(frames: seq<seq<byte>>, s: seq<byte>): Frames {
    match ReadFrames(s)
    case Frames(more, rest) => Frames(frames + more, rest)
    case Truncated(rest) => Truncated(rest)
  }

  /** Taking one frame off the buffer, if it is there in full. */
  lemma TakeOneFrame(frames: seq<seq<byte>>, s: seq<byte>)
    requires s != []
    ensures var t := s[1..];
            var len := s[0] % 0x80;
            FramesAfter(frames, s) == if |t| < len then Truncated(t)
                                      else if s[0] < 0x80 then Frames(frames + [t[..len]], t[len..])
                                      else FramesAfter(frames + [t[..len]], t[len..])
  {
    var t := s[1..];
    var len := s[0] % 0x80;
    if |t| >= len && s[0] >= 0x80 && ReadFrames(t[len..]).Frames? {
      Regroup(frames, [t[..len]], ReadFrames(t[len..]).frames);
    }
  }

  /** The frame loop of the decoder: takes frames off the buffer until one has no continuation bit. */
  method TakeFrames(buf: Buffer) returns (r: Result<seq<seq<byte>>>)
    modifies buf
    ensures match ReadFrames(old(buf.bytes))
            case Frames(frames, rest) => r == Ok(frames) && buf.bytes == rest
            case Truncated(rest) => r == Err(UnexpectedEof) && buf.bytes == rest
  {
    var frames := [];
    while true
      invariant FramesAfter(frames, buf.bytes) == ReadFrames(old(buf.bytes))
      decreases |buf.bytes|
    {
      if |buf.bytes| == 0 {
        return Err(UnexpectedEof);
      }
      hide ReadFrames, FramesAfter;
      TakeOneFrame(frames, buf.bytes);
      var header := buf.SplitTo(1);
      var len := header[0] % 0x80;
      if |buf.bytes| < len {
        return Err(UnexpectedEof);
      }
      var frame := buf.SplitTo(len);
      frames := frames + [frame];
      if header[0] < 0x80 {
        return Ok(frames);
      }
    }
  }

  method DecodeVoice(dir: Direction, buf: Buffer) returns (r: Result<VoicePacket>)
    modifies buf
    ensures Field(r, buf.bytes) == Decode(dir, old(buf.bytes))
  {
    hide Varint.Read, ReadAudio;
    var cursor := new Cursor(buf.bytes);
    var header := cursor.ReadU8();
    if header.None? {
      return Err(UnexpectedEof);
    }
    assert cursor.Rest() == buf.bytes[1..];
    var kind := header.value / 32;
    if kind == 1 {
      var timestamp := Varint.ReadVarint(cursor);
      if timestamp.None? {
        return Err(UnexpectedEof);
      }
      return Ok(Ping(timestamp.value));
    }
    r := TakeAudio(dir, kind, header.value % 32, cursor, buf);
  }

  /** An audio packet, from the cursor's position on. */
  method TakeAudio(dir: Direction, kind: nat, target: byte, cursor: Cursor, buf: Buffer) returns (r: Result<VoicePacket>)
    requires cursor.Valid() && cursor.data == buf.bytes
    modifies cursor, buf
    ensures Field(r, buf.bytes) == ReadAudio(dir, kind, target, old(cursor.Rest()), old(buf.bytes))
  {
    hide Varint.Read, ReadPayload, ReadSession;
    var session := TakeSession(dir, cursor);
    if session.None? {
      return Err(UnexpectedEof);
    }
    var seqNum := Varint.ReadVarint(cursor);
    if seqNum.None? {
      return Err(UnexpectedEof);
    }
    var payload := TakePayload(kind, cursor, buf);
    if payload.Err? {
      return Err(payload.error);
    }
    var position := TakePosition(buf);
    return Ok(Audio(target, session.value, seqNum.value, payload.value, position));
  }

  /** The session id, which only clientbound packets carry. */
  method TakeSession(dir: Direction, cursor: Cursor) returns (r: Option<Option<u32>>)
    requires cursor.Valid()
    modifies cursor
    ensures cursor.Valid()
    ensures match ReadSession(dir, old(cursor.Rest()))
            case None => r.None?
            case Some((session, rest)) => r == Some(session) && cursor.Rest() == rest
  {
    hide Varint.Read;
    if dir.Serverbound? {
      return Some(None);
    }
    var id :- Varint.ReadVarint(cursor);
    r := Some(Some(id % TWO_32));
  }

  /** Everything that is left is position information. */
  method TakePosition(buf: Buffer) returns (position: Option<seq<byte>>)
    modifies buf
    ensures position == ReadPosition(old(buf.bytes)) && buf.bytes == []
  {
    if |buf.bytes| == 0 {
      return None;
    }
    assert buf.bytes[..|buf.bytes|] == buf.bytes;
    var all := buf.SplitTo(|buf.bytes|);
    position := Some(all);
  }

  /** The payload, from the cursor's position on; the buffer is advanced past what was read. */
  method TakePayload(kind: nat, cursor: Cursor, buf: Buffer) returns (r: Result<Payload>)
    requires cursor.Valid() && cursor.data == buf.bytes
    modifies cursor, buf
    ensures Field(r, buf.bytes) == ReadPayload(kind, old(cursor.Rest()), old(buf.bytes))
  {
    hide Varint.Read, ReadFrames;
    if kind == 0 || kind == 2 || kind == 3 {
      var _ := buf.SplitTo(cursor.pos);
      var frames := TakeFrames(buf);
      if frames.Err? {
        return Err(frames.error);
      }
      return Ok(PayloadOf(kind, frames.value));
    } else if kind == 4 {
      var header := Varint.ReadVarint(cursor);
      if header.None? {
        return Err(UnexpectedEof);
      }
      var _ := buf.SplitTo(cursor.pos);
      var last := header.value / 0x2000 % 2 == 1;
      var len := if last then header.value - 0x2000 else header.value;
      if |buf.bytes| < len {
        return Err(UnexpectedEof);
      }
      var frame := buf.SplitTo(len);
      return Ok(Opus(frame, last));
    } else {
      return Err(UnknownKind);
    }
  }
}
