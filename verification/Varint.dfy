/** Mumble's variable-length integers: a reader and a writer, and the format they agree on. */
module Varint {
  import opened Bytes

  /** The bitwise complement of a 64-bit integer. */
  function Not(v: u64): u64 {
    TWO_64 - 1 - v
  }

  // ----- Big-endian integers -----

  function Pow256(n: nat): (r: nat)
    ensures r > 0
  {
    if n == 0 then 1 else 256 * Pow256(n - 1)
  }

  function BigEndian(s: seq<byte>): nat {
    if s == [] then 0 else 256 * BigEndian(s[..|s| - 1]) + s[|s| - 1]
  }

  function ToBigEndian(v: nat, width: nat): (s: seq<byte>)
    ensures |s| == width
  {
    if width == 0 then [] else ToBigEndian(v / 256, width - 1) + [v % 256]
  }

  lemma {:induction false} BigEndianBound(s: seq<byte>)
    ensures BigEndian(s) < Pow256(|s|)
  {
    if s != [] {
      BigEndianBound(s[..|s| - 1]);
    }
  }

  lemma {:induction false} BigEndianInverse(v: nat, width: nat)
    requires v < Pow256(width)
    ensures BigEndian(ToBigEndian(v, width)) == v
  {
    if width > 0 {
      BigEndianInverse(v / 256, width - 1);
      assert ToBigEndian(v, width)[..width - 1] == ToBigEndian(v / 256, width - 1);
    }
  }

  lemma Powers()
    ensures Pow256(0) == 1 && Pow256(1) == 0x100 && Pow256(2) == 0x1_0000 && Pow256(3) == 0x100_0000
    ensures Pow256(4) == 0x1_0000_0000 && Pow256(8) == TWO_64
  {
    assert Pow256(2) == 0x1_0000;
    assert Pow256(4) == 0x1_0000_0000;
    assert Pow256(6) == 0x1_0000_0000_0000;
  }

  // ----- The format -----

  /** A first byte that starts a plain, non-negated number. */
  predicate Plain(b: byte) {
    b < 0xF8
  }

  /** How many bytes follow a plain first byte. */
  function Extra(b: byte): nat
    requires Plain(b)
  {
    if b < 0x80 then 0 else if b < 0xC0 then 1 else if b < 0xE0 then 2 else if b < 0xF0 then 3
    else if b < 0xF4 then 4 else 8
  }

  /** The leading bits of the number carried by a plain first byte. */
  function High(b: byte): nat
    requires Plain(b)
  {
    if b < 0x80 then b else if b < 0xC0 then b - 0x80 else if b < 0xE0 then b - 0xC0
    else if b < 0xF0 then b - 0xE0 else 0
  }

  /** The number whose bytes are `tail`, with `high` above them: the shift-and-or of the source. */
  function Joined(high: nat, tail: seq<byte>): nat {
    high * Pow256(|tail|) + BigEndian(tail)
  }

  function PlainValue(b: byte, tail: seq<byte>): (v: u64)
    requires Plain(b) && |tail| == Extra(b)
  {
    BigEndianBound(tail);
    Powers();
    Joined(High(b), tail)
  }

  datatype Reading = Eof | Got(value: u64, rest: seq<byte>)

  /** What a byte string reads as: a number and the bytes after it. */
  function Read(s: seq<byte>): (r: Reading)
    ensures r.Got? ==> |r.rest| < |s| && r.rest == s[|s| - |r.rest|..]
  {
    if s == [] then Eof
    else if Plain(s[0]) then
      var n := Extra(s[0]);
      if |s| < n + 1 then Eof else Got(PlainValue(s[0], s[1..n + 1]), s[n + 1..])
    else if s[0] < 0xFC then
      var inner := Read(s[1..]);
      if inner.Eof? then Eof else Got(Not(inner.value), inner.rest)
    else
      Got(Not(s[0] - 0xFC), s[1..])
  }

  /** The bytes written for a number. */
  function Write(v: u64): (s: seq<byte>)
    decreases v >= 0x8000_0000_0000_0000
  {
    if v >= TWO_64 - 4 then [0xFC + Not(v)]
    else if v >= 0x8000_0000_0000_0000 then [0xF8] + Write(Not(v))
    else if v > 0xffff_ffff then [0xF4] + ToBigEndian(v, 8)
    else if v > 0x0fff_ffff then [0xF0] + ToBigEndian(v, 4)
    else if v > 0x001f_ffff then [0xE0 + v / 0x100_0000] + ToBigEndian(v % 0x100_0000, 3)
    else if v > 0x3fff then [0xC0 + v / 0x1_0000] + ToBigEndian(v % 0x1_0000, 2)
    else if v > 0x7f then [0x80 + v / 0x100] + ToBigEndian(v % 0x100, 1)
    else [v]
  }

  // ----- Round trip -----

  lemma ReadPlain(b: byte, tail: seq<byte>, suffix: seq<byte>)
    requires Plain(b) && |tail| == Extra(b)
    ensures Read([b] + tail + suffix) == Got(PlainValue(b, tail), suffix)
  {
    hide PlainValue;
    var s := [b] + tail + suffix;
    assert s[1..|tail| + 1] == tail && s[|tail| + 1..] == suffix;
  }

  lemma PlainValueOf(b: byte, low: nat)
    requires Plain(b) && low < Pow256(Extra(b))
    ensures PlainValue(b, ToBigEndian(low, Extra(b))) == High(b) * Pow256(Extra(b)) + low
  {
    BigEndianInverse(low, Extra(b));
  }

  /** A number below 2^63, written as a first byte and the low bytes after it. */
  lemma ReadWritePlain(v: u64, suffix: seq<byte>)
    requires v < 0x8000_0000_0000_0000
    ensures Read(Write(v) + suffix) == Got(v, suffix)
  {
    hide BigEndian, ToBigEndian, Pow256, PlainValue, Read;
    Powers();
    var w := Write(v);
    var b := w[0];
    var n := Extra(b);
    var low := v - High(b) * Pow256(n);
    assert n == 0 ==> ToBigEndian(low, n) == [];
    assert w == [b] + ToBigEndian(low, n);
    ReadPlain(b, ToBigEndian(low, n), suffix);
    PlainValueOf(b, low);
  }

  /** One negation prefix. */
  lemma ReadNegated(b: byte, s: seq<byte>)
    requires 0xF8 <= b < 0xFC
    ensures Read([b] + s) == if Read(s).Eof? then Eof else Got(Not(Read(s).value), Read(s).rest)
  {
    hide PlainValue;
    assert ([b] + s)[1..] == s;
  }

  lemma WriteNegated(v: u64)
    requires 0x8000_0000_0000_0000 <= v < TWO_64 - 4
    ensures Write(v) == [0xF8] + Write(Not(v))
  {
    hide ToBigEndian;
  }

  lemma WriteTiny(v: u64)
    requires TWO_64 - 4 <= v
    ensures Write(v) == [0xFC + Not(v)]
  {
    hide ToBigEndian;
  }

  /** A number from 2^63 on, other than the four that fit into one byte. */
  lemma ReadWriteNegated(v: u64, suffix: seq<byte>)
    requires 0x8000_0000_0000_0000 <= v < TWO_64 - 4
    ensures Read(Write(v) + suffix) == Got(v, suffix)
  {
    hide Read, Write;
    WriteNegated(v);
    ReadWritePlain(Not(v), suffix);
    ReadNegated(0xF8, Write(Not(v)) + suffix);
    Regroup([0xF8], Write(Not(v)), suffix);
  }

  /** The complements of 0 to 3, written in one byte. */
  lemma ReadWriteTiny(v: u64, suffix: seq<byte>)
    requires TWO_64 - 4 <= v
    ensures Read(Write(v) + suffix) == Got(v, suffix)
  {
    hide PlainValue, Write;
    WriteTiny(v);
    assert ([0xFC + Not(v)] + suffix)[1..] == suffix;
  }

  lemma ReadWrite(v: u64, suffix: seq<byte>)
    ensures Read(Write(v) + suffix) == Got(v, suffix)
  {
    hide Read, Write;
    if v < 0x8000_0000_0000_0000 {
      ReadWritePlain(v, suffix);
    } else if v < TWO_64 - 4 {
      ReadWriteNegated(v, suffix);
    } else {
      ReadWriteTiny(v, suffix);
    }
  }

  /** No encoding is a prefix of another one. */
  lemma PrefixFree(v: u64, w: u64, s: seq<byte>, t: seq<byte>)
    requires Write(v) + s == Write(w) + t
    ensures v == w && s == t
  {
    ReadWrite(v, s);
    ReadWrite(w, t);
  }

  function Negations(n: nat): (s: seq<byte>)
    ensures |s| == n
  {
    if n == 0 then [] else [0xF8] + Negations(n - 1)
  }

  /** A number complemented `n` times. */
  function Flipped(n: nat, v: u64): u64 {
    if n % 2 == 0 then v else Not(v)
  }

  /** In front of any bytes, negation prefixes change the number that is read and nothing else. */
  lemma {:induction false} NegationsFlip(n: nat, s: seq<byte>)
    ensures Read(Negations(n) + s) == if Read(s).Eof? then Eof else Got(Flipped(n, Read(s).value), Read(s).rest)
  {
    hide Read;
    if n == 0 {
      assert Negations(0) + s == s;
    } else {
      NegationsFlip(n - 1, s);
      ReadNegated(0xF8, Negations(n - 1) + s);
      Regroup([0xF8], Negations(n - 1), s);
    }
  }

  /** Any number of negation prefixes is read, and each one complements the number once more. */
  lemma NegationChain(n: nat, v: u64, suffix: seq<byte>)
    ensures Read(Negations(n) + Write(v) + suffix) == Got(Flipped(n, v), suffix)
  {
    hide Read, Write, Negations, Flipped;
    Regroup(Negations(n), Write(v), suffix);
    ReadWrite(v, suffix);
    NegationsFlip(n, Write(v) + suffix);
  }

  // ----- Lengths -----

  function PlainLength(v: nat): nat {
    if v > 0xffff_ffff then 9 else if v > 0x0fff_ffff then 5 else if v > 0x001f_ffff then 4
    else if v > 0x3fff then 3 else if v > 0x7f then 2 else 1
  }

  lemma WriteLength(v: u64)
    ensures |Write(v)| == if v >= TWO_64 - 4 then 1
                          else if v >= 0x8000_0000_0000_0000 then 1 + PlainLength(Not(v))
                          else PlainLength(v)
    ensures 1 <= |Write(v)| <= 10
  {}

  lemma PlainValueBound(b: byte, tail: seq<byte>)
    requires Plain(b) && |tail| == Extra(b)
    ensures |Write(PlainValue(b, tail))| <= 1 + |tail| || |tail| == 8
  {
    hide BigEndian, Pow256, Write;
    BigEndianBound(tail);
    Powers();
    WriteLength(PlainValue(b, tail));
  }

  /** Writing the complement costs at most one byte more. */
  lemma NotLength(v: u64)
    ensures |Write(Not(v))| <= |Write(v)| + 1
  {
    WriteLength(v);
    WriteLength(Not(v));
  }

  /** Every byte string that reads as a number is at least as long as the written form, up to 9 bytes. */
  lemma {:induction false} WriteIsShortest(s: seq<byte>)
    requires Read(s).Got?
    ensures var n := |Write(Read(s).value)|;
            |s| - |Read(s).rest| >= if n < 9 then n else 9
  {
    hide PlainValue, Write;
    WriteLength(Read(s).value);
    if Plain(s[0]) {
      PlainValueBound(s[0], s[1..Extra(s[0]) + 1]);
    } else if s[0] < 0xFC {
      WriteIsShortest(s[1..]);
      NotLength(Read(s[1..]).value);
    }
  }

  // ----- The reader and the writer -----

  /** Reads a number byte by byte; at the end of the data it fails with everything consumed. */
  method ReadVarint(c: Cursor) returns (r: Option<u64>)
    requires c.Valid()
    modifies c
    ensures c.Valid()
    ensures match Read(old(c.Rest()))
            case Eof => r.None? && c.Rest() == []
            case Got(value, rest) => r == Some(value) && c.Rest() == rest
    decreases |c.data| - c.pos
  {
    hide PlainValue, Write;
    ghost var s := c.Rest();
    var b0 :- c.ReadU8();
    assert s[1..] == c.Rest() && s[0] == b0;
    if b0 / 4 == 0x3E {
      var v :- ReadVarint(c);
      return Some(Not(v));
    }
    if b0 / 4 == 0x3F {
      return Some(Not(b0 % 4));
    }
    ghost var p := c.pos;
    r := ReadTail(c, b0);
    if r.Some? {
      assert s[1..Extra(b0) + 1] == c.data[p..p + Extra(b0)];
    }
  }

  /** The bit tests and masks of the reader, as ranges of the first byte. */
  lemma LeadingBits(b: byte)
    requires Plain(b)
    ensures b / 0x80 % 2 == 0 <==> b < 0x80
    ensures 0x80 <= b ==> (b / 0x40 % 2 == 0 <==> b < 0xC0)
    ensures 0xC0 <= b ==> (b / 0x20 % 2 == 0 <==> b < 0xE0)
    ensures 0xE0 <= b ==> (b / 0x10 % 2 == 0 <==> b < 0xF0)
    ensures 0xF0 <= b ==> (b / 0x04 % 2 == 0 <==> b < 0xF4)
    ensures High(b) == if b < 0x80 then b % 0x80 else if b < 0xC0 then b % 0x40 else if b < 0xE0 then b % 0x20
                       else if b < 0xF0 then b % 0x10 else 0
  {}

  /** The bytes after a plain first byte, with the number they complete. */
  method ReadTail(c: Cursor, b0: byte) returns (r: Option<u64>)
    requires c.Valid() && Plain(b0)
    modifies c
    ensures c.Valid()
    ensures if |c.data| < old(c.pos) + Extra(b0) then r.None? && c.pos == |c.data|
            else r == Some(PlainValue(b0, c.data[old(c.pos)..old(c.pos) + Extra(b0)])) && c.pos == old(c.pos) + Extra(b0)
  {
    hide Joined, PlainValue, BigEndian, Pow256, High;
    LeadingBits(b0);
    ghost var p := c.pos;
    if b0 / 0x80 % 2 == 0 {
      assert c.data[p..p] == [];
      return Some(FromParts(b0, b0 % 0x80, []));
    }
    var b1 :- c.ReadU8();
    if b0 / 0x40 % 2 == 0 {
      assert c.data[p..p + 1] == [b1];
      return Some(FromParts(b0, b0 % 0x40, [b1]));
    }
    var b2 :- c.ReadU8();
    if b0 / 0x20 % 2 == 0 {
      assert c.data[p..p + 2] == [b1, b2];
      return Some(FromParts(b0, b0 % 0x20, [b1, b2]));
    }
    var b3 :- c.ReadU8();
    if b0 / 0x10 % 2 == 0 {
      assert c.data[p..p + 3] == [b1, b2, b3];
      return Some(FromParts(b0, b0 % 0x10, [b1, b2, b3]));
    }
    assert c.data[p..p + 3] == [b1, b2, b3];
    r := ReadLongTail(c, b0, b1, b2, b3);
  }

  /** The five- and nine-byte forms, after their first four bytes. */
  method ReadLongTail(c: Cursor, b0: byte, b1: byte, b2: byte, b3: byte) returns (r: Option<u64>)
    requires c.Valid() && 0xF0 <= b0 && Plain(b0)
    requires c.pos >= 3 && c.data[c.pos - 3..c.pos] == [b1, b2, b3]
    modifies c
    ensures c.Valid()
    ensures var p := old(c.pos) - 3;
            if |c.data| < p + Extra(b0) then r.None? && c.pos == |c.data|
            else r == Some(PlainValue(b0, c.data[p..p + Extra(b0)])) && c.pos == p + Extra(b0)
  {
    hide Joined, PlainValue, BigEndian, Pow256, High;
    LeadingBits(b0);
    ghost var p := c.pos - 3;
    assert c.data[p] == c.data[p..p + 3][0] && c.data[p + 1] == c.data[p..p + 3][1] && c.data[p + 2] == c.data[p..p + 3][2];
    var b4 :- c.ReadU8();
    if b0 / 0x04 % 2 == 0 {
      assert c.data[p..p + 4] == [b1, b2, b3, b4];
      return Some(FromParts(b0, 0, [b1, b2, b3, b4]));
    }
    var b5 :- c.ReadU8();
    var b6 :- c.ReadU8();
    var b7 :- c.ReadU8();
    var b8 :- c.ReadU8();
    assert c.data[p..p + 8] == [b1, b2, b3, b4, b5, b6, b7, b8];
    return Some(FromParts(b0, 0, [b1, b2, b3, b4, b5, b6, b7, b8]));
  }

  /** The number read after the first byte `b`, whose masked bits are `high`; it fits in 64 bits. */
  function FromParts(b: byte, high: nat, tail: seq<byte>): (v: u64)
    requires Plain(b) && |tail| == Extra(b) && high == High(b)
    ensures v == PlainValue(b, tail)
  {
    BigEndianBound(tail);
    Powers();
    Joined(high, tail)
  }

  /** The bit tests of the writer, as ranges of the number. */
  lemma SignBits(v: u64)
    ensures v / 4 == 0x3fff_ffff_ffff_ffff <==> v >= TWO_64 - 4
    ensures v / 0x8000_0000_0000_0000 == 1 <==> v >= 0x8000_0000_0000_0000
  {}

  /** Appends a number to a buffer. */
  method WriteVarint(dst: Buffer, value: u64)
    modifies dst
    ensures dst.bytes == old(dst.bytes) + Write(value)
    decreases value >= 0x8000_0000_0000_0000
  {
    hide Write;
    SignBits(value);
    if value / 4 == 0x3fff_ffff_ffff_ffff {
      WriteTiny(value);
      dst.Put([0xFC + Not(value) % 256]);
    } else if value / 0x8000_0000_0000_0000 == 1 {
      WriteNegated(value);
      Regroup(dst.bytes, [0xF8], Write(Not(value)));
      dst.Put([0xF8]);
      WriteVarint(dst, Not(value));
    } else {
      PutPlain(dst, value);
    }
  }

  /** The forms of a number below 2^63: a first byte, and the bytes that do not fit into it. */
  method PutPlain(dst: Buffer, value: u64)
    requires value < 0x8000_0000_0000_0000
    modifies dst
    ensures dst.bytes == old(dst.bytes) + Write(value)
  {
    hide ToBigEndian;
    if value > 0xffff_ffff {
      PutParts(dst, 0xF4, ToBigEndian(value, 8));
    } else if value > 0x0fff_ffff {
      PutParts(dst, 0xF0, ToBigEndian(value, 4));
    } else if value > 0x001f_ffff {
      PutParts(dst, 0xE0 + value / 0x100_0000, ToBigEndian(value % 0x100_0000, 3));
    } else if value > 0x3fff {
      PutParts(dst, 0xC0 + value / 0x1_0000, ToBigEndian(value % 0x1_0000, 2));
    } else if value > 0x7f {
      PutParts(dst, 0x80 + value / 0x100, ToBigEndian(value % 0x100, 1));
    } else {
      dst.Put([value]);
    }
  }

  method PutParts(dst: Buffer, first: byte, tail: seq<byte>)
    modifies dst
    ensures dst.bytes == old(dst.bytes) + ([first] + tail)
  {
    Regroup(dst.bytes, [first], tail);
    dst.Put([first]);
    dst.Put(tail);
  }
}
