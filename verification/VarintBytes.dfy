/** The varint format on its bytes: what is written, what is read, and where reading needs more. */
module VarintBytes {
  import opened Arithmetic
  import opened Bytes
  import opened Varint

  // ----- Big-endian integers, byte by byte -----

  /** The bytes of a big-endian integer, the most significant one first. */
  lemma {:induction false} BigEndianByte(v: nat, width: nat, k: nat)
    requires k < width
    ensures ToBigEndian(v, width)[k] == v / Pow256(width - 1 - k) % 256
    decreases width
  {
    if k < width - 1 {
      BigEndianByte(v / 256, width - 1, k);
      QuotientTwice(v, 256, Pow256(width - 2 - k));
    }
  }

  /** Every byte string is the big-endian form of the number it stands for. */
  lemma {:induction false} BigEndianOnto(s: seq<byte>)
    ensures ToBigEndian(BigEndian(s), |s|) == s
  {
    if s != [] {
      BigEndianOnto(s[..|s| - 1]);
    }
  }

  // ----- Written -----

  /** The mark in the first byte of a form with `n` further bytes. */
  function Mark(n: nat): byte {
    if n == 0 then 0x00 else if n == 1 then 0x80 else if n == 2 then 0xC0 else if n == 3 then 0xE0 else if n == 4 then 0xF0 else 0xF4
  }

  /** How many bytes after the first a number below 2^63 takes. */
  function Tail(v: nat): nat {
    if v < 0x80 then 0 else if v < 0x4000 then 1 else if v < 0x20_0000 then 2 else if v < 0x1000_0000 then 3
    else if v < 0x1_0000_0000 then 4 else 8
  }

  lemma WrittenForm(v: u64)
    requires v < 0x8000_0000_0000_0000
    ensures var n := Tail(v);
            && Write(v) == [Mark(n) + v / Pow256(n)] + ToBigEndian(v % Pow256(n), n)
            && v % Pow256(n) < Pow256(n)
  {
    hide ToBigEndian, Pow256;
    Powers();
    if Tail(v) == 0 {
      assert ToBigEndian(v % 1, 0) == [];
    }
  }

  /** Every number as it is written, byte by byte. */
  lemma WrittenBytes(v: u64, k: nat)
    ensures v < 0x8000_0000_0000_0000 ==>
              var n := Tail(v);
              && |Write(v)| == 1 + n && Write(v)[0] == Mark(n) + v / Pow256(n)
              && (1 <= k <= n ==> Write(v)[k] == v / Pow256(n - k) % 256)
    ensures 0x8000_0000_0000_0000 <= v < 0xffff_ffff_ffff_fffc ==> Write(v) == [0xF8] + Write(0xffff_ffff_ffff_ffff - v)
    ensures 0xffff_ffff_ffff_fffc <= v ==> Write(v) == [0xFC + (0xffff_ffff_ffff_ffff - v)]
  {
    hide Write;
    if v < 0x8000_0000_0000_0000 {
      WrittenByte(v, k);
    } else if v < 0xffff_ffff_ffff_fffc {
      WriteNegated(v);
    } else {
      WriteTiny(v);
    }
  }

  lemma WrittenByte(v: u64, k: nat)
    requires v < 0x8000_0000_0000_0000
    ensures var n := Tail(v);
            && |Write(v)| == 1 + n && Write(v)[0] == Mark(n) + v / Pow256(n)
            && (1 <= k <= n ==> Write(v)[k] == v / Pow256(n - k) % 256)
  {
    hide Write, ToBigEndian, Tail, Mark, Pow256;
    WrittenForm(v);
    var n := Tail(v);
    if 1 <= k <= n {
      BigEndianByte(v % Pow256(n), n, k - 1);
      LowBytes(v, n, n - k);
    }
  }

  /** Dropping the bytes from the `n`-th on does not change those below. */
  lemma LowBytes(v: nat, n: nat, j: nat)
    requires j < n
    ensures v % Pow256(n) / Pow256(j) % 256 == v / Pow256(j) % 256
  {
    var p, q := Pow256(j), Pow256(n - j);
    PowerSplit(j, n - j);
    assert q == 256 * Pow256(n - j - 1);
    LowDigits(v, Pow256(n), p, Pow256(n - j - 1));
  }

  lemma {:induction false} PowerSplit(m: nat, n: nat)
    ensures Pow256(m + n) == Pow256(m) * Pow256(n)
  {
    if n > 0 {
      PowerSplit(m, n - 1);
      Reordered(Pow256(m), Pow256(n - 1));
    }
  }

  lemma Reordered(x: nat, y: nat)
    ensures 256 * (x * y) == x * (256 * y)
  {}

  lemma LowDigits(v: nat, d: nat, p: nat, r: nat)
    requires d > 0 && p > 0 && d == p * (256 * r)
    ensures v % d / p % 256 == v / p % 256
  {
    var a, b := v / d, v % d;
    Divided(v, d);
    var x, s := b / p, b % p;
    Divided(b, p);
    DigitsKept(v, d, p, r, a, x, s);
  }

  lemma DigitsKept(v: nat, d: nat, p: nat, r: nat, a: nat, x: nat, s: nat)
    requires p > 0 && s < p && d == p * (256 * r) && v == d * a + (p * x + s)
    ensures x % 256 == v / p % 256
  {
    Factored(p, r, a, x);
    var q, m := v / p, v % p;
    Divided(v, p);
    SameQuotient(p, q, m, 256 * (r * a) + x, s);
    Digit(r * a, x);
  }

  lemma Factored(p: nat, r: nat, a: nat, x: nat)
    ensures p * (256 * r) * a + p * x == p * (256 * (r * a) + x)
  {
    assert p * (256 * r) * a == p * (256 * (r * a));
  }

  lemma Digit(m: nat, x: nat)
    ensures (256 * m + x) % 256 == x % 256
  {}

  // ----- Read -----

  /** A plain form as it is read: the bits of the first byte above the bytes after it; four and eight bytes stand alone. */
  lemma ReadForm(b: byte, x: nat, rest: seq<byte>)
    ensures b < 0x80 ==> Read([b] + rest) == Got(b, rest)
    ensures 0x80 <= b < 0xC0 && x < 0x100 ==> Read([b] + ToBigEndian(x, 1) + rest) == Got((b - 0x80) * 0x100 + x, rest)
    ensures 0xC0 <= b < 0xE0 && x < 0x1_0000 ==> Read([b] + ToBigEndian(x, 2) + rest) == Got((b - 0xC0) * 0x1_0000 + x, rest)
    ensures 0xE0 <= b < 0xF0 && x < 0x100_0000 ==> Read([b] + ToBigEndian(x, 3) + rest) == Got((b - 0xE0) * 0x100_0000 + x, rest)
    ensures 0xF0 <= b < 0xF4 && x < 0x1_0000_0000 ==> Read([b] + ToBigEndian(x, 4) + rest) == Got(x, rest)
    ensures 0xF4 <= b < 0xF8 && x < TWO_64 ==> Read([b] + ToBigEndian(x, 8) + rest) == Got(x, rest)
  {
    hide BigEndian, ToBigEndian, Pow256, PlainValue, Read;
    Powers();
    if Plain(b) && x < Pow256(Extra(b)) {
      ReadPlain(b, ToBigEndian(x, Extra(b)), rest);
      PlainValueOf(b, x);
    }
    if b < 0x80 {
      ReadPlain(b, [], rest);
      PlainValueOf(b, 0);
      assert [b] + [] == [b];
      assert ToBigEndian(0, 0) == [] by { assert |ToBigEndian(0, 0)| == 0; }
    }
  }

  /** The prefixed forms: a complement of what follows, and the complements of 0 to 3. */
  lemma ReadPrefixed(b: byte, s: seq<byte>)
    ensures 0xF8 <= b < 0xFC ==>
              Read([b] + s) == if Read(s).Eof? then Eof else Got(0xffff_ffff_ffff_ffff - Read(s).value, Read(s).rest)
    ensures 0xFC <= b ==> Read([b] + s) == Got(0xffff_ffff_ffff_ffff - (b - 0xFC), s)
  {
    hide PlainValue;
    assert ([b] + s)[1..] == s;
  }

  /** When reading needs more bytes. */
  lemma ReadEof(s: seq<byte>)
    ensures Read(s).Eof? <==>
              || s == []
              || (0x80 <= s[0] < 0xC0 && |s| < 2) || (0xC0 <= s[0] < 0xE0 && |s| < 3) || (0xE0 <= s[0] < 0xF0 && |s| < 4)
              || (0xF0 <= s[0] < 0xF4 && |s| < 5) || (0xF4 <= s[0] < 0xF8 && |s| < 9)
              || (0xF8 <= s[0] < 0xFC && Read(s[1..]).Eof?)
  {
    hide PlainValue;
  }

  /** A number followed by anything is read the same, and what follows is left. */
  lemma {:induction false} ReadMore(s: seq<byte>, t: seq<byte>)
    requires Read(s).Got?
    ensures Read(s + t) == Got(Read(s).value, Read(s).rest + t)
  {
    hide PlainValue;
    var all := s + t;
    assert all[0] == s[0] && all[1..] == s[1..] + t;
    if Plain(s[0]) {
      var n := Extra(s[0]) + 1;
      assert all[1..n] == s[1..n] && all[n..] == s[n..] + t;
    } else if s[0] < 0xFC {
      ReadMore(s[1..], t);
    }
  }

  /** The bytes a number was read from. */
  function Taken(s: seq<byte>): (r: seq<byte>)
    requires Read(s).Got?
  {
    s[..|s| - |Read(s).rest|]
  }

  /** A number is read from just its own bytes, and not from fewer. */
  lemma {:induction false} ReadTaken(s: seq<byte>)
    requires Read(s).Got?
    ensures s == Taken(s) + Read(s).rest && Read(Taken(s)) == Got(Read(s).value, [])
    ensures forall k: nat :: k < |Taken(s)| ==> Read(s[..k]).Eof?
  {
    if s[0] < 0xF8 || s[0] >= 0xFC {
      ReadTakenPlain(s);
    } else {
      hide PlainValue, Extra, High;
      var x := Taken(s);
      ReadTaken(s[1..]);
      assert x[1..] == Taken(s[1..]);
      forall k: nat | k < |x|
        ensures Read(s[..k]).Eof?
      {
        if k > 0 {
          assert s[..k][1..] == s[1..][..k - 1];
        }
      }
    }
  }

  lemma ReadTakenPlain(s: seq<byte>)
    requires Read(s).Got? && (s[0] < 0xF8 || s[0] >= 0xFC)
    ensures s == Taken(s) + Read(s).rest && Read(Taken(s)) == Got(Read(s).value, [])
    ensures forall k: nat :: k < |Taken(s)| ==> Read(s[..k]).Eof?
  {
    hide PlainValue;
    var x := Taken(s);
    if Plain(s[0]) {
      var n := Extra(s[0]) + 1;
      assert |x| == n && x[1..n] == s[1..n] && x[n..] == [];
    } else {
      assert x[1..] == [];
    }
  }

  /** No beginning of a written number is a number. */
  lemma WrittenTruncated(v: u64, k: nat)
    requires k < |Write(v)|
    ensures Read(Write(v)[..k]).Eof?
  {
    hide Read, Write;
    var s := Write(v);
    assert s + [] == s;
    ReadWrite(v, []);
    ReadTaken(s);
    assert Taken(s) == s;
  }
}
