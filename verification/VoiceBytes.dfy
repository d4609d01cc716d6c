/**
 * The voice format on its bytes: the layout of every packet, the grammar the decoder accepts, the errors for
 * everything else, and what becomes of a packet that is cut short.
 */
module VoiceBytes {
  import opened Bytes
  import opened Voice
  import Varint
  import VarintBytes

  // ----- Layout -----

  /** The first byte of an audio packet: its kind in the upper three bits, its target in the lower five. */
  function FirstByte(p: VoicePacket): byte
    requires p.Audio? && p.target < 32
  {
    match p.payload
    case CeltAlpha(_) => 0x00 + p.target
    case Speex(_) => 0x40 + p.target
    case CeltBeta(_) => 0x60 + p.target
    case Opus(_, _) => 0x80 + p.target
  }

  /** The number before an Opus frame: its length, with bit 0x2000 for the last frame of a transmission. */
  function LengthField(frame: seq<byte>, last: bool): nat {
    |frame| + if last then 0x2000 else 0
  }

  predicate AllShort(frames: seq<seq<byte>>) {
    forall i :: 0 <= i < |frames| ==> |frames[i]| < 0x80
  }

  /** Frames with their lengths before them, 0x80 added to every length but the last. */
  function FrameList(frames: seq<seq<byte>>): seq<byte>
    requires AllShort(frames)
  {
    if frames == [] then []
    else if |frames| == 1 then [|frames[0]|] + frames[0]
    else [0x80 + |frames[0]|] + (frames[0] + FrameList(frames[1..]))
  }

  lemma HeaderOf(n: nat)
    requires n < 0x80
    ensures FrameHeader(n, false) == n && FrameHeader(n, true) == 0x80 + n
  {}

  lemma {:induction false} FrameListIsEncoding(frames: seq<seq<byte>>)
    requires AllShort(frames)
    ensures EncodeFrames(frames) == FrameList(frames)
  {
    hide FrameHeader;
    if frames != [] {
      FrameListIsEncoding(frames[1..]);
      var f := frames[0];
      HeaderOf(|f|);
      if |frames| == 1 {
        assert EncodeFrames(frames[1..]) == [];
        assert [|f|] + f + [] == [|f|] + f;
      } else {
        Regroup([0x80 + |f|], f, EncodeFrames(frames[1..]));
      }
    }
  }

  function PayloadBytes(p: Payload): seq<byte>
    requires PayloadFits(p)
  {
    match p
    case Opus(frame, last) => Varint.Write(LengthField(frame, last) % TWO_64) + frame
    case _ => FrameList(p.frames)
  }

  lemma LengthFieldIsHeader(frame: seq<byte>, last: bool)
    requires PayloadFits(Opus(frame, last))
    ensures LengthField(frame, last) < TWO_64 && OpusHeader(|frame|, last) == LengthField(frame, last)
  {
    var n := |frame|;
    assert n % 0x4000 < 0x2000;
  }

  lemma PayloadBytesAre(p: Payload)
    requires PayloadFits(p)
    ensures EncodePayload(p) == PayloadBytes(p)
  {
    hide Varint.Write, EncodeFrames, FrameList, OpusHeader;
    if p.Opus? {
      LengthFieldIsHeader(p.frame, p.last);
    } else {
      FrameListIsEncoding(p.frames);
    }
  }

  /** Every packet as it is written, field by field. */
  lemma Layout(dir: Direction, p: VoicePacket)
    requires WellFormed(dir, p)
    ensures p.Ping? ==> Encode(p) == [0x20] + Varint.Write(p.timestamp)
    ensures p.Audio? ==>
              Encode(p) == [FirstByte(p)] +
                           ((if p.session.Some? then Varint.Write(p.session.value) else []) +
                            (Varint.Write(p.seqNum) + (PayloadBytes(p.payload) + (if p.position.Some? then p.position.value else []))))
  {
    hide Varint.Write, EncodePayload, PayloadBytes, PayloadFits;
    if p.Audio? {
      PayloadBytesAre(p.payload);
    }
  }

  // ----- Grammar -----

  /** A byte string that reads as exactly one number. */
  predicate Reads(s: seq<byte>, v: nat) {
    Varint.Read(s).Got? && Varint.Read(s).value == v && Varint.Read(s).rest == []
  }

  /** The session field: none towards the server, a number reduced to 32 bits towards a client. */
  predicate SessionField(dir: Direction, a: seq<byte>, session: Option<u32>) {
    match dir
    case Serverbound => a == [] && session.None?
    case Clientbound => session.Some? && Varint.Read(a).Got? && Reads(a, Varint.Read(a).value) && session.value == Varint.Read(a).value % TWO_32
  }

  /** The payload field: a frame list, or an Opus frame of exactly the length in the number before it. */
  predicate PayloadField(c: seq<byte>, h: seq<byte>, p: Payload) {
    && PayloadFits(p)
    && match p
       case Opus(frame, last) => Reads(h, LengthField(frame, last)) && c == h + frame
       case _ => c == FrameList(p.frames)
  }

  /** The fields of an audio packet, one after the other, with nothing left over. */
  predicate Parses(dir: Direction, s: seq<byte>, p: VoicePacket, a: seq<byte>, b: seq<byte>, c: seq<byte>, h: seq<byte>) {
    && p.Audio? && p.target < 32 && p.position != Some([])
    && SessionField(dir, a, p.session) && Reads(b, p.seqNum) && PayloadField(c, h, p.payload)
    && s == [FirstByte(p)] + (a + (b + (c + (if p.position.Some? then p.position.value else []))))
  }

  ghost predicate Denotes(dir: Direction, s: seq<byte>, p: VoicePacket) {
    exists a, b, c, h :: Parses(dir, s, p, a, b, c, h)
  }

  lemma ReadField(s: seq<byte>, v: nat, t: seq<byte>)
    requires Reads(s, v)
    ensures v < TWO_64 && Varint.Read(s + t) == Varint.Got(v, t)
  {
    hide Varint.Read;
    VarintBytes.ReadMore(s, t);
    assert [] + t == t;
  }

  lemma FrameListReads(frames: seq<seq<byte>>, t: seq<byte>)
    requires |frames| > 0 && AllShort(frames)
    ensures ReadFrames(FrameList(frames) + t) == Frames(frames, t)
  {
    hide FrameList, EncodeFrames, ReadFrames;
    FrameListIsEncoding(frames);
    FramesRoundTrip(frames, t);
  }

  lemma KindOfFirst(p: VoicePacket)
    requires p.Audio? && p.target < 32
    ensures FirstByte(p) / 32 == Kind(p.payload) && FirstByte(p) % 32 == p.target && FirstByte(p) / 32 != 1
  {}

  lemma PayloadFieldReads(c: seq<byte>, h: seq<byte>, p: Payload, t: seq<byte>, whole: seq<byte>)
    requires PayloadField(c, h, p)
    ensures ReadPayload(Kind(p), c + t, whole) == Field(Ok(p), t)
  {
    hide Varint.Read, FrameList, ReadFrames, Reads;
    match p
    case Opus(frame, last) =>
      ReadField(h, LengthField(frame, last), frame + t);
      Regroup(h, frame, t);
      assert (frame + t)[..|frame|] == frame && (frame + t)[|frame|..] == t;
      LengthFieldIsHeader(frame, last);
      OpusHeaderParts(|frame|, last);
    case _ => FrameListReads(p.frames, t);
  }

  /** What parses is decoded. */
  lemma ParsesDecodes(dir: Direction, s: seq<byte>, p: VoicePacket, a: seq<byte>, b: seq<byte>, c: seq<byte>, h: seq<byte>)
    requires Parses(dir, s, p, a, b, c, h)
    ensures Decode(dir, s) == Field(Ok(p), [])
  {
    var position := if p.position.Some? then p.position.value else [];
    KindOfFirst(p);
    SessionReads(dir, a, p.session, b + (c + position));
    hide Varint.Read, PayloadField, SessionField, ReadPayload, ReadSession, FirstByte, Kind, Reads, PayloadFits;
    ReadField(b, p.seqNum, c + position);
    PayloadFieldReads(c, h, p.payload, position, s);
    assert s[1..] == a + (b + (c + position));
  }

  lemma SessionReads(dir: Direction, a: seq<byte>, session: Option<u32>, t: seq<byte>)
    requires SessionField(dir, a, session)
    ensures ReadSession(dir, a + t) == Some((session, t))
  {
    hide Varint.Read;
    if dir.Clientbound? {
      ReadField(a, Varint.Read(a).value, t);
    } else {
      assert [] + t == t;
    }
  }

  lemma FrameListCons(f: seq<byte>, frames: seq<seq<byte>>)
    requires |f| < 0x80 && AllShort(frames)
    ensures AllShort([f] + frames)
    ensures FrameList([f] + frames) == if frames == [] then [|f|] + f else [0x80 + |f|] + (f + FrameList(frames))
  {
    assert ([f] + frames)[1..] == frames;
  }

  /** The first frame of a list, and what is read after it. */
  lemma FirstFrame(s: seq<byte>) returns (f: seq<byte>, tail: seq<byte>)
    requires ReadFrames(s).Frames?
    ensures s != [] && |f| == s[0] % 0x80 && |tail| < |s| && s == [s[0]] + (f + tail)
    ensures if s[0] < 0x80 then ReadFrames(s) == Frames([f], tail)
            else ReadFrames(tail).Frames? && ReadFrames(s) == Frames([f] + ReadFrames(tail).frames, ReadFrames(tail).rest)
  {
    var n := s[0] % 0x80;
    f, tail := s[1..][..n], s[1..][n..];
  }

  lemma ListGoesOn(s: seq<byte>, f: seq<byte>, tail: seq<byte>, frames: seq<seq<byte>>, rest: seq<byte>)
    requires s != [] && s[0] >= 0x80 && |f| == s[0] - 0x80 && s == [s[0]] + (f + tail)
    requires frames != [] && AllShort(frames) && tail == FrameList(frames) + rest
    ensures AllShort([f] + frames) && s == FrameList([f] + frames) + rest
  {
    hide FrameList, AllShort;
    FrameListCons(f, frames);
    FramesTogether(s[0], f, FrameList(frames), rest);
  }

  lemma ListEnds(s: seq<byte>, f: seq<byte>, rest: seq<byte>)
    requires s != [] && |f| == s[0] < 0x80 && s == [s[0]] + (f + rest)
    ensures AllShort([f]) && s == FrameList([f]) + rest
  {
    Regroup([s[0]], f, rest);
  }

  lemma {:induction false} FramesAreList(s: seq<byte>)
    requires ReadFrames(s).Frames?
    ensures var r := ReadFrames(s);
            |r.frames| > 0 && AllShort(r.frames) && s == FrameList(r.frames) + r.rest
    decreases |s|
  {
    hide ReadFrames, FrameList, AllShort;
    var f, tail := FirstFrame(s);
    if s[0] >= 0x80 {
      FramesAreList(tail);
      ListGoesOn(s, f, tail, ReadFrames(tail).frames, ReadFrames(tail).rest);
    } else {
      ListEnds(s, f, tail);
    }
  }

  lemma FramesTogether(x: byte, f: seq<byte>, more: seq<byte>, rest: seq<byte>)
    ensures [x] + (f + (more + rest)) == [x] + (f + more) + rest
  {
    Regroup(f, more, rest);
    Regroup([x], f + more, rest);
  }

  lemma ReadsTaken(s: seq<byte>)
    requires Varint.Read(s).Got?
    ensures s == VarintBytes.Taken(s) + Varint.Read(s).rest && Reads(VarintBytes.Taken(s), Varint.Read(s).value)
  {
    hide Varint.Read;
    VarintBytes.ReadTaken(s);
  }

  /** An Opus payload that was read: a number, and a frame of just that length. */
  lemma OpusParts(s: seq<byte>, whole: seq<byte>)
    requires ReadPayload(4, s, whole).result.Ok?
    ensures Varint.Read(s).Got?
    ensures var f := ReadPayload(4, s, whole);
            var p := f.result.value;
            && p.Opus? && PayloadFits(p) && LengthField(p.frame, p.last) == Varint.Read(s).value
            && |p.frame| <= |Varint.Read(s).rest|
            && p.frame == Varint.Read(s).rest[..|p.frame|] && f.rest == Varint.Read(s).rest[|p.frame|..]
  {
    ReadPayloadFits(4, s, whole);
    hide Varint.Read, ReadFrames, PayloadFits;
  }

  lemma SplitAt(s: seq<byte>, n: nat)
    requires n <= |s|
    ensures s == s[..n] + s[n..]
  {}

  lemma OpusRead(s: seq<byte>, whole: seq<byte>) returns (c: seq<byte>, h: seq<byte>)
    requires ReadPayload(4, s, whole).result.Ok?
    ensures var f := ReadPayload(4, s, whole);
            s == c + f.rest && PayloadField(c, h, f.result.value) && f.result.value.Opus?
  {
    hide Varint.Read, ReadPayload, PayloadFits, LengthField, FrameList, Reads, VarintBytes.Taken;
    OpusParts(s, whole);
    ReadsTaken(s);
    h := VarintBytes.Taken(s);
    var frame := ReadPayload(4, s, whole).result.value.frame;
    SplitAt(Varint.Read(s).rest, |frame|);
    c := h + frame;
    Regroup(h, frame, ReadPayload(4, s, whole).rest);
  }

  /** The payload that was read is what its field denotes. */
  lemma PayloadRead(kind: nat, s: seq<byte>, whole: seq<byte>) returns (c: seq<byte>, h: seq<byte>)
    requires ReadPayload(kind, s, whole).result.Ok?
    ensures var f := ReadPayload(kind, s, whole);
            && s == c + f.rest && PayloadField(c, h, f.result.value) && Kind(f.result.value) == kind
  {
    if kind == 4 {
      hide ReadPayload, PayloadField;
      c, h := OpusRead(s, whole);
    } else {
      ReadPayloadFits(kind, s, whole);
      hide Varint.Read, FrameList, ReadFrames;
      FramesAreList(s);
      c, h := FrameList(ReadFrames(s).frames), [];
    }
  }

  /** The parts an audio packet was put together from. */
  lemma DecodedAudio(dir: Direction, s: seq<byte>)
    requires Decode(dir, s).result.Ok? && Decode(dir, s).result.value.Audio?
    ensures s != [] && ReadSession(dir, s[1..]).Some?
    ensures var (session, t) := ReadSession(dir, s[1..]).value;
            && Varint.Read(t).Got?
            && var f := ReadPayload(s[0] / 32, Varint.Read(t).rest, s);
               && f.result.Ok?
               && Decode(dir, s).result.value == Audio(s[0] % 32, session, Varint.Read(t).value, f.result.value, ReadPosition(f.rest))
  {
    hide ReadPayload, ReadSession, Varint.Read;
  }

  /** What is decoded parses. */
  lemma DecodedParses(dir: Direction, s: seq<byte>)
    requires Decode(dir, s).result.Ok? && Decode(dir, s).result.value.Audio?
    ensures Denotes(dir, s, Decode(dir, s).result.value)
  {
    hide Decode, ReadPayload, ReadSession, Varint.Read, SessionField, PayloadField, Reads, PayloadFits, VarintBytes.Taken, FirstByte, Kind;
    DecodedAudio(dir, s);
    var p := Decode(dir, s).result.value;
    var a := SessionRead(dir, s[1..]);
    var t := ReadSession(dir, s[1..]).value.1;
    ReadsTaken(t);
    var b, u := VarintBytes.Taken(t), Varint.Read(t).rest;
    var c, h := PayloadRead(s[0] / 32, u, s);
    FirstOfKind(s[0], p);
    FieldsTogether(s, a, b, c, if p.position.Some? then p.position.value else [], t, u);
    assert Parses(dir, s, p, a, b, c, h);
  }

  lemma FieldsTogether(s: seq<byte>, a: seq<byte>, b: seq<byte>, c: seq<byte>, d: seq<byte>, t: seq<byte>, u: seq<byte>)
    requires s != [] && s[1..] == a + t && t == b + u && u == c + d
    ensures s == [s[0]] + (a + (b + (c + d)))
  {
    assert s == [s[0]] + s[1..];
  }

  lemma AudioLeavesNothing(dir: Direction, s: seq<byte>)
    requires Decode(dir, s).result.Ok? && Decode(dir, s).result.value.Audio?
    ensures Decode(dir, s).rest == []
  {
    hide ReadPayload, ReadSession, Varint.Read;
  }

  lemma FirstOfKind(x: byte, p: VoicePacket)
    requires p.Audio? && p.target == x % 32 && Kind(p.payload) == x / 32
    ensures FirstByte(p) == x
  {}

  lemma SessionRead(dir: Direction, s: seq<byte>) returns (a: seq<byte>)
    requires ReadSession(dir, s).Some?
    ensures s == a + ReadSession(dir, s).value.1 && SessionField(dir, a, ReadSession(dir, s).value.0)
  {
    hide Varint.Read;
    if dir.Serverbound? {
      a := [];
      assert s == [] + s;
    } else {
      ReadsTaken(s);
      a := VarintBytes.Taken(s);
    }
  }

  /** The decoder accepts exactly the grammar, gives each string the packet it denotes, and takes all of an audio packet. */
  lemma DecodesExactly(dir: Direction, s: seq<byte>, p: VoicePacket)
    ensures Decode(dir, s).result == Ok(p) ==> Decode(dir, s).rest == if p.Ping? then s else []
    ensures p.Audio? ==> (Decode(dir, s).result == Ok(p) <==> Denotes(dir, s, p))
    ensures p.Ping? ==> (Decode(dir, s).result == Ok(p) <==>
                           s != [] && 0x20 <= s[0] < 0x40 && Varint.Read(s[1..]).Got? && Varint.Read(s[1..]).value == p.timestamp)
  {
    if p.Audio? {
      hide Decode, Parses;
      if Decode(dir, s).result == Ok(p) {
        AudioLeavesNothing(dir, s);
        DecodedParses(dir, s);
      } else if Denotes(dir, s, p) {
        var a, b, c, h :| Parses(dir, s, p, a, b, c, h);
        ParsesDecodes(dir, s, p, a, b, c, h);
      }
    } else {
      hide ReadPayload, Varint.Read;
    }
  }

  // ----- Errors -----

  lemma PayloadFails(kind: nat, s: seq<byte>, whole: seq<byte>)
    ensures var r := ReadPayload(kind, s, whole).result;
            && (r == Err(UnknownKind) <==> kind == 1 || kind >= 5)
            && (r.Ok? || r == Err(UnexpectedEof) || r == Err(UnknownKind))
  {
    hide Varint.Read, ReadFrames;
  }

  /** The kinds 5 to 7 are unknown, once the fields before the payload are complete; everything else that fails is cut short. */
  lemma FailsExactly(dir: Direction, s: seq<byte>)
    ensures Decode(dir, s).result == Err(UnknownKind) <==>
              && s != [] && 0xA0 <= s[0] && Varint.Read(s[1..]).Got?
              && (dir.Clientbound? ==> Varint.Read(Varint.Read(s[1..]).rest).Got?)
    ensures Decode(dir, s).result.Ok? || Decode(dir, s).result == Err(UnexpectedEof) || Decode(dir, s).result == Err(UnknownKind)
  {
    hide Varint.Read, ReadPayload;
    if s != [] && ReadSession(dir, s[1..]).Some? {
      var t := ReadSession(dir, s[1..]).value.1;
      if Varint.Read(t).Got? {
        PayloadFails(s[0] / 32, Varint.Read(t).rest, s);
      }
    }
  }

  // ----- Packets cut short -----

  lemma {:induction false} FramesCutShort(frames: seq<seq<byte>>, k: nat)
    requires |frames| > 0 && AllShort(frames) && k < |FrameList(frames)|
    ensures ReadFrames(FrameList(frames)[..k]).Truncated?
  {
    var f, n := frames[0], |frames[0]|;
    var s := FrameList(frames)[..k];
    if k > 0 {
      var head := if |frames| == 1 then n else 0x80 + n;
      assert s[0] == head && head % 0x80 == n;
      if k > n && |frames| > 1 {
        var more := FrameList(frames[1..]);
        assert s[1..][n..] == more[..k - 1 - n];
        FramesCutShort(frames[1..], k - 1 - n);
      }
    }
  }

  lemma PayloadCutShort(p: Payload, k: nat, whole: seq<byte>)
    requires PayloadFits(p) && k < |PayloadBytes(p)|
    ensures ReadPayload(Kind(p), PayloadBytes(p)[..k], whole).result == Err(UnexpectedEof)
  {
    hide Varint.Read, Varint.Write, ReadFrames;
    match p
    case Opus(frame, last) => OpusCutShort(frame, last, k, whole);
    case _ => FramesCutShort(p.frames, k);
  }

  lemma OpusCutShort(frame: seq<byte>, last: bool, k: nat, whole: seq<byte>)
    requires PayloadFits(Opus(frame, last)) && k < |PayloadBytes(Opus(frame, last))|
    ensures ReadPayload(4, PayloadBytes(Opus(frame, last))[..k], whole).result == Err(UnexpectedEof)
  {
    hide Varint.Read, Varint.Write, ReadFrames;
    LengthFieldIsHeader(frame, last);
    OpusHeaderParts(|frame|, last);
    var h := Varint.Write(LengthField(frame, last));
    var s := PayloadBytes(Opus(frame, last))[..k];
    if k < |h| {
      assert s == h[..k];
      VarintBytes.WrittenTruncated(LengthField(frame, last), k);
    } else {
      assert s == h + frame[..k - |h|];
      Varint.ReadWrite(LengthField(frame, last), frame[..k - |h|]);
    }
  }

  /** The fields after the session. */
  function AfterSession(p: VoicePacket): seq<byte>
    requires p.Audio? && PayloadFits(p.payload)
  {
    Varint.Write(p.seqNum) + PayloadBytes(p.payload)
  }

  lemma UnplacedLayout(dir: Direction, p: VoicePacket)
    requires WellFormed(dir, p) && p.Audio? && p.position.None?
    ensures Encode(p) == [FirstByte(p)] + (EncodeSession(p.session) + AfterSession(p))
  {
    Layout(dir, p);
    hide Encode, Varint.Write, PayloadBytes, PayloadFits, FirstByte;
    assert PayloadBytes(p.payload) + [] == PayloadBytes(p.payload);
  }

  lemma BehindFirst(x: byte, t: seq<byte>, k: nat)
    requires 0 < k <= 1 + |t|
    ensures ([x] + t)[..k] == [x] + t[..k - 1]
  {}

  lemma NothingToDecode(dir: Direction)
    ensures Decode(dir, []).result == Err(UnexpectedEof)
  {}

  lemma AudioStart(dir: Direction, x: byte, t: seq<byte>)
    requires x / 32 != 1
    ensures Decode(dir, [x] + t) == ReadAudio(dir, x / 32, x % 32, t, [x] + t)
  {
    hide ReadAudio;
    assert ([x] + t)[1..] == t;
  }

  /** An audio packet without position information, cut short anywhere. */
  lemma AudioCutShort(dir: Direction, p: VoicePacket, k: nat)
    requires WellFormed(dir, p) && p.Audio? && p.position.None? && k < |Encode(p)|
    ensures Decode(dir, Encode(p)[..k]).result == Err(UnexpectedEof)
  {
    UnplacedLayout(dir, p);
    KindOfFirst(p);
    hide Encode, Decode, WellFormed, FirstByte, Kind, AfterSession, EncodeSession, ReadAudio;
    if k == 0 {
      NothingToDecode(dir);
    } else {
      var all := EncodeSession(p.session) + AfterSession(p);
      BehindFirst(FirstByte(p), all, k);
      AudioStart(dir, FirstByte(p), all[..k - 1]);
      SessionCutShort(dir, p, k - 1, [FirstByte(p)] + all[..k - 1]);
    }
  }

  lemma SessionCutShort(dir: Direction, p: VoicePacket, k: nat, whole: seq<byte>)
    requires WellFormed(dir, p) && p.Audio? && k < |EncodeSession(p.session)| + |AfterSession(p)|
    ensures ReadAudio(dir, Kind(p.payload), p.target, (EncodeSession(p.session) + AfterSession(p))[..k], whole).result == Err(UnexpectedEof)
  {
    hide Varint.Read, Varint.Write, ReadPayload, PayloadFits, Kind, AfterSession;
    var session, fields := EncodeSession(p.session), AfterSession(p);
    var s := (session + fields)[..k];
    if k < |session| {
      assert s == session[..k];
      VarintBytes.WrittenTruncated(p.session.value, k);
    } else {
      var rest := fields[..k - |session|];
      assert s == session + rest;
      SessionRoundTrip(dir, p.session, rest);
      hide ReadSession;
      FieldsCutShort(p, k - |session|, whole);
    }
  }

  lemma FieldsCutShort(p: VoicePacket, k: nat, whole: seq<byte>)
    requires p.Audio? && PayloadFits(p.payload) && k < |AfterSession(p)|
    ensures var s := AfterSession(p)[..k];
            || Varint.Read(s).Eof?
            || ReadPayload(Kind(p.payload), Varint.Read(s).rest, whole).result == Err(UnexpectedEof)
  {
    hide Varint.Read, Varint.Write, ReadPayload, PayloadBytes, PayloadFits, Kind;
    var b := Varint.Write(p.seqNum);
    if k < |b| {
      assert AfterSession(p)[..k] == b[..k];
      VarintBytes.WrittenTruncated(p.seqNum, k);
    } else {
      var rest := PayloadBytes(p.payload)[..k - |b|];
      assert AfterSession(p)[..k] == b + rest;
      Varint.ReadWrite(p.seqNum, rest);
      PayloadCutShort(p.payload, k - |b|, whole);
    }
  }

  /** Everything but the position information. */
  function Unplaced(p: VoicePacket): VoicePacket
    requires p.Audio?
  {
    Audio(p.target, p.session, p.seqNum, p.payload, None)
  }

  /** The same packet with position information after it. */
  lemma PositionLast(p: VoicePacket)
    requires p.Audio?
    ensures Encode(p) == Encode(Unplaced(p)) + if p.position.Some? then p.position.value else []
  {
    hide Varint.Write, EncodePayload;
    var h: seq<byte> := [Kind(p.payload) * 32 + p.target % 32];
    var a, b, c, d := EncodeSession(p.session), Varint.Write(p.seqNum), EncodePayload(p.payload), EncodePosition(p.position);
    assert c + [] == c;
    Regroup(b, c, d);
    Regroup(a, b + c, d);
    Regroup(h, a + (b + c), d);
  }

  /**
   * Any well-formed packet cut short anywhere: inside its fields it is refused, and inside its position information it
   * is taken for the packet with less of that. A ping is refused unless it is whole.
   */
  lemma CutShortExactly(dir: Direction, p: VoicePacket, k: nat)
    requires WellFormed(dir, p) && k <= |Encode(p)|
    ensures p.Ping? && k < |Encode(p)| ==> Decode(dir, Encode(p)[..k]).result == Err(UnexpectedEof)
    ensures p.Audio? ==>
              var n := |Encode(Unplaced(p))|;
              && n <= |Encode(p)|
              && Decode(dir, Encode(p)[..k]).result ==
                   if k < n then Err(UnexpectedEof)
                   else Ok(p.(position := if k == n then None else Some(Encode(p)[n..k])))
  {
    hide Encode, Decode, WellFormed;
    if p.Ping? {
      if k < |Encode(p)| {
        PingCutShort(dir, p.timestamp, k);
      }
    } else {
      PositionLast(p);
      var n := |Encode(Unplaced(p))|;
      if k < n {
        assert Encode(p)[..k] == Encode(Unplaced(p))[..k];
        UnplacedFits(dir, p);
        AudioCutShort(dir, Unplaced(p), k);
      } else {
        PositionCutShort(dir, p, k);
      }
    }
  }

  lemma UnplacedFits(dir: Direction, p: VoicePacket)
    requires WellFormed(dir, p) && p.Audio?
    ensures WellFormed(dir, Unplaced(p))
  {
    hide PayloadFits;
  }

  lemma PositionCutShort(dir: Direction, p: VoicePacket, k: nat)
    requires WellFormed(dir, p) && p.Audio? && |Encode(Unplaced(p))| <= k <= |Encode(p)|
    ensures var n := |Encode(Unplaced(p))|;
            Decode(dir, Encode(p)[..k]).result == Ok(p.(position := if k == n then None else Some(Encode(p)[n..k])))
  {
    hide Encode, Decode, PayloadFits;
    var n := |Encode(Unplaced(p))|;
    var q := p.(position := if k == n then None else Some(Encode(p)[n..k]));
    PositionLast(p);
    PositionLast(q);
    assert Unplaced(q) == Unplaced(p);
    assert Encode(p)[..k] == Encode(q);
    RoundTrip(dir, q);
  }

  lemma PingCutShort(dir: Direction, timestamp: u64, k: nat)
    requires k < |Encode(Ping(timestamp))|
    ensures Decode(dir, Encode(Ping(timestamp))[..k]).result == Err(UnexpectedEof)
  {
    hide Varint.Read, Varint.Write;
    var s := Encode(Ping(timestamp))[..k];
    if k > 0 {
      assert s[0] == 0x20 && s[1..] == Varint.Write(timestamp)[..k - 1];
      VarintBytes.WrittenTruncated(timestamp, k - 1);
    }
  }
}
