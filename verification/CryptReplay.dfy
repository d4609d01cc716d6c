/**
 * What the unrestored nonce of a far too late datagram costs, and what the history cannot tell apart: exactly
 * when a datagram is accepted a second time, and a nonce that is refused although it was never seen.
 */
module CryptReplay {
  import opened Bytes
  import opened Crypt
  import opened CryptRuns
  import opened CryptChannel
  import Ocb
  import Voice

  // ----- A datagram delivered again -----

  lemma WrapBack(m: u128, g: int)
    ensures ((m + g) % TWO_128 - g) % TWO_128 == m
    ensures ((m + g) % TWO_128 - g) % 256 == m % 256
  {
    hide SecondByte;
    WrapSum(m + g, -g);
    WrapKeepsLowBytes((m + g) % TWO_128 - g);
  }

  /** Going `g` away from a nonce, its own low byte leads back to it, unless it is 128 away on the wrong side. */
  lemma GapBack(m: u128, g: int)
    requires -128 <= g < 128
    ensures ((m + g) % TWO_128 - g) % TWO_128 == m
    ensures Gap((m + g) % TWO_128, m % 256) == if g == -128 then -128 else -g
  {
    hide Gap;
    var n := (m + g) % TWO_128;
    WrapBack(m, g);
    var back := if g == -128 then -128 else -g;
    AddMultiple(n - g, -1);
    GapIsUnique(n, m % 256, back);
  }

  /** The receiver is at a nonce it has accepted. */
  predicate Settled(r: Receiver, m: u128)
    requires r.Valid()
  {
    r.nonce == m && r.history[m % 256] == SecondByte(m)
  }

  /** A datagram ahead of the receiver is accepted and settles it. */
  lemma AcceptedAhead(c: Ocb.Cipher, dir: Voice.Direction, r: Receiver, g: int, plain: seq<byte>)
    requires c.Valid() && r.Valid() && 0 < g < 128
    ensures var m := (r.nonce + g) % TWO_128;
            var (r', outcome) := Receive(c, dir, r, SealDatagram(c, m, plain));
            outcome == Accepted(Voice.Decode(dir, plain).result) && Settled(r', m)
  {
    hide OpenDatagram, SealDatagram, Voice.Decode, Gap, Moved, SecondByte;
    var m := (r.nonce + g) % TWO_128;
    OpenSealed(c, m, plain);
    WrapKeepsLowBytes(r.nonce + g);
    GapIsUnique(r.nonce, m % 256, g);
  }

  /** Datagrams that move a settled receiver to where it takes its last datagram for a new one. */
  predicate Rewinds(m: u128, e: seq<byte>) {
    |e| >= 4 && -127 <= Gap(m, e[0]) <= -30
  }

  lemma LateStep(c: Ocb.Cipher, dir: Voice.Direction, r: Receiver, e: seq<byte>)
    requires r.Valid() && |e| >= 4 && Gap(r.nonce, e[0]) <= -30
    ensures Receive(c, dir, r, e) == (r.(nonce := (r.nonce + Gap(r.nonce, e[0])) % TWO_128), Rejected(Late))
  {
    hide Gap;
  }

  /** A receiver at or ahead of a nonce whose slot remembers it refuses that nonce. */
  lemma RefusedBehind(c: Ocb.Cipher, dir: Voice.Direction, r: Receiver, m: u128, g: int, d: seq<byte>)
    requires r.Valid() && |d| >= 4 && d[0] == m % 256 && r.history[d[0]] == SecondByte(m)
    requires 0 <= g < 128 && r.nonce == (m + g) % TWO_128
    ensures Receive(c, dir, r, d).1.Rejected?
  {
    hide Gap, SecondByte, OpenDatagram, Voice.Decode, Moved;
    GapBack(m, g);
  }

  lemma AgainAfterLate(c: Ocb.Cipher, dir: Voice.Direction, r: Receiver, m: u128, plain: seq<byte>, e: seq<byte>)
    requires c.Valid() && r.Valid() && Settled(r, m) && |e| >= 4 && Gap(m, e[0]) <= -30
    ensures var again := Receive(c, dir, Receive(c, dir, r, e).0, SealDatagram(c, m, plain)).1;
            again == if Rewinds(m, e) then Accepted(Voice.Decode(dir, plain).result) else Rejected(Late)
  {
    hide Receive, SealDatagram, Voice.Decode, Gap, SecondByte;
    var g := Gap(m, e[0]);
    LateStep(c, dir, r, e);
    var r' := r.(nonce := (m + g) % TWO_128);
    GapBack(m, g);
    if g != -128 {
      AcceptedAhead(c, dir, r', -g, plain);
    } else {
      OpenSealed(c, m, plain);
      LateStep(c, dir, r', SealDatagram(c, m, plain));
    }
  }

  /** A datagram that is not far too late leaves the slot of `m` alone and does not move back. */
  lemma SlotStays(c: Ocb.Cipher, dir: Voice.Direction, r: Receiver, m: u128, e: seq<byte>)
    requires r.Valid() && Settled(r, m) && (|e| >= 4 ==> Gap(m, e[0]) > -30)
    ensures var r' := Receive(c, dir, r, e).0;
            && r'.history[m % 256] == SecondByte(m)
            && (r'.nonce == m || (|e| >= 4 && Gap(m, e[0]) > 0 && r'.nonce == (m + Gap(m, e[0])) % TWO_128))
  {
    hide OpenDatagram, Voice.Decode, SecondByte, Moved;
    if |e| >= 4 && e[0] == m % 256 {
      GapIsUnique(m, e[0], 0);
    }
  }

  lemma AgainAfterOther(c: Ocb.Cipher, dir: Voice.Direction, r: Receiver, m: u128, plain: seq<byte>, e: seq<byte>)
    requires c.Valid() && r.Valid() && Settled(r, m) && (|e| >= 4 ==> Gap(m, e[0]) > -30)
    ensures Receive(c, dir, Receive(c, dir, r, e).0, SealDatagram(c, m, plain)).1.Rejected?
  {
    hide Receive, SealDatagram, Gap, SecondByte, OpenDatagram;
    SlotStays(c, dir, r, m, e);
    var r' := Receive(c, dir, r, e).0;
    OpenSealed(c, m, plain);
    RefusedBehind(c, dir, r', m, if r'.nonce == m then 0 else Gap(m, e[0]), SealDatagram(c, m, plain));
  }

  /**
   * A datagram that was accepted ahead of the receiver and arrives again after one other datagram is accepted a
   * second time exactly when that other one points 30 to 127 back. It needs no key: its four bytes may be anything.
   */
  lemma AcceptedAgainExactly(c: Ocb.Cipher, dir: Voice.Direction, r: Receiver, g: int, plain: seq<byte>, e: seq<byte>)
    requires c.Valid() && r.Valid() && 0 < g < 128
    ensures var m := (r.nonce + g) % TWO_128;
            var d := SealDatagram(c, m, plain);
            var (r1, first) := Receive(c, dir, r, d);
            var again := Receive(c, dir, Receive(c, dir, r1, e).0, d).1;
            && first == Accepted(Voice.Decode(dir, plain).result)
            && (again.Accepted? <==> Rewinds(m, e))
            && (again.Accepted? ==> again == first)
  {
    hide Receive, SealDatagram, Voice.Decode, Settled;
    var m := (r.nonce + g) % TWO_128;
    var r1 := Receive(c, dir, r, SealDatagram(c, m, plain)).0;
    AcceptedAhead(c, dir, r, g, plain);
    if |e| >= 4 && Gap(m, e[0]) <= -30 {
      AgainAfterLate(c, dir, r1, m, plain, e);
    } else {
      AgainAfterOther(c, dir, r1, m, plain, e);
    }
  }

  /** Three datagrams, of which the third repeats the first and is output again. */
  ghost predicate OutputTwice(c: Ocb.Cipher, dir: Voice.Direction, r: Receiver, d: seq<byte>, e: seq<byte>, p: Voice.VoicePacket)
    requires r.Valid()
  {
    var (r1, first) := Receive(c, dir, r, d);
    var (r2, second) := Receive(c, dir, r1, e);
    first == Accepted(Voice.Ok(p)) && second == Rejected(Late) && Receive(c, dir, r2, d).1 == first
  }

  lemma RewoundOutputsTwice(c: Ocb.Cipher, dir: Voice.Direction, r: Receiver, g: int, e: seq<byte>, p: Voice.VoicePacket)
    requires c.Valid() && r.Valid() && 0 < g < 128 && Voice.WellFormed(dir, p)
    requires Rewinds((r.nonce + g) % TWO_128, e)
    ensures OutputTwice(c, dir, r, SealDatagram(c, (r.nonce + g) % TWO_128, Voice.Encode(p)), e, p)
  {
    hide Receive, SealDatagram, Voice.Decode, Voice.Encode, Voice.PayloadFits, Gap, SecondByte;
    var m := (r.nonce + g) % TWO_128;
    AcceptedAhead(c, dir, r, g, Voice.Encode(p));
    LateStep(c, dir, Receive(c, dir, r, SealDatagram(c, m, Voice.Encode(p))).0, e);
    AcceptedAgainExactly(c, dir, r, g, Voice.Encode(p), e);
    Voice.RoundTrip(dir, p);
  }

  /** Why runs of the receiver must be free of that rejection: a new receiver at nonce 100 outputs nonce 140 twice. */
  lemma AcceptedTwiceAfterLate(c: Ocb.Cipher, dir: Voice.Direction, p: Voice.VoicePacket)
    requires c.Valid() && Voice.WellFormed(dir, p)
    ensures OutputTwice(c, dir, Fresh(100), SealDatagram(c, 140, Voice.Encode(p)), [100, 0, 0, 0], p)
  {
    hide OutputTwice, SealDatagram, Voice.Encode, Voice.WellFormed;
    assert Gap(140, 100) == -40;
    RewoundOutputsTwice(c, dir, Fresh(100), 40, [100, 0, 0, 0], p);
  }

  // ----- A nonce mistaken for another one -----

  /** The nonces 1, then 2, 66, 130 and so on: after the first none has its low byte. */
  function AliasNonce(k: nat): nat {
    if k == 0 then 1 else 64 * k - 62
  }

  function AliasDatagrams(c: Ocb.Cipher, n: nat): (ds: seq<seq<byte>>)
    ensures |ds| == n
  {
    if n == 0 then []
    else AliasDatagrams(c, n - 1) + [SealDatagram(c, AliasNonce(n - 1) % TWO_128, Voice.Encode(Voice.Ping(0)))]
  }

  /** Where those datagrams lead: the slot of nonce 1 still remembers it. */
  ghost predicate Aliased(cfg: Config, n: nat)
    requires cfg.rx.Valid()
  {
    && Inv(cfg, 0) && cfg.trace.high == (if n == 0 then 0 else AliasNonce(n - 1))
    && (n > 0 ==> Latest(cfg.trace.accepted, 1) == Some(1))
    && (forall m :: m in cfg.trace.accepted ==> m == 1 || m % 64 == 2)
  }

  lemma AliasStep(c: Ocb.Cipher, dir: Voice.Direction, cfg: Config, n: nat)
    requires c.Valid() && cfg.rx.Valid() && Aliased(cfg, n)
    ensures var d := SealDatagram(c, AliasNonce(n) % TWO_128, Voice.Encode(Voice.Ping(0)));
            OutcomeOf(c, dir, cfg, d).Accepted? && Aliased(Step(c, dir, cfg, d), n + 1)
  {
    hide SealDatagram, Voice.Encode, OutcomeOf, Step, Inv, SecondByte;
    var m := AliasNonce(n);
    var d := SealDatagram(c, m % TWO_128, Voice.Encode(Voice.Ping(0)));
    AheadByInv(c, dir, cfg, 0, m, Voice.Ping(0));
    StepKeepsInv(c, dir, cfg, 0, d);
    LatestAfter(cfg.trace.accepted, m, 1);
    assert n > 0 ==> m % 64 == 2 && m % 256 != 1;
  }

  /** A packet ahead of the receiver is accepted under its own nonce. */
  lemma AheadByInv(c: Ocb.Cipher, dir: Voice.Direction, cfg: Config, start: int, m: int, p: Voice.VoicePacket)
    requires c.Valid() && cfg.rx.Valid() && Inv(cfg, start) && Voice.WellFormed(dir, p) && 0 < m - cfg.trace.high <= 127
    ensures var d := SealDatagram(c, m % TWO_128, Voice.Encode(p));
            && OutcomeOf(c, dir, cfg, d).Accepted?
            && Step(c, dir, cfg, d).trace == Trace(m, cfg.trace.accepted + [m], cfg.trace.late)
  {
    hide SealDatagram, Voice.Encode, OutcomeOf, Step, HistoryInv, CounterInv, Distinct, SecondByte, Voice.WellFormed;
    OneArrival(c, dir, cfg, start, m, p);
    AcceptedStep(c, dir, cfg, SealDatagram(c, m % TWO_128, Voice.Encode(p)));
  }

  lemma {:induction false} AliasRun(c: Ocb.Cipher, dir: Voice.Direction, n: nat)
    requires c.Valid()
    ensures Aliased(Run(c, dir, Start(0), AliasDatagrams(c, n)), n)
    ensures NoLate(c, dir, Start(0), AliasDatagrams(c, n))
  {
    hide SealDatagram, Voice.Encode, OutcomeOf, Step, Aliased, Start;
    if n == 0 {
      StartAliased();
    } else {
      hide Run, NoLate;
      AliasRun(c, dir, n - 1);
      var front := AliasDatagrams(c, n - 1);
      AliasStep(c, dir, Run(c, dir, Start(0), front), n - 1);
      RunPush(c, dir, Start(0), front, SealDatagram(c, AliasNonce(n - 1) % TWO_128, Voice.Encode(Voice.Ping(0))));
    }
  }

  lemma StartAliased()
    ensures Aliased(Start(0), 0)
  {
    StartInv(0);
  }

  /**
   * A repeat that was never seen, from a slot in use: after 1026 accepted datagrams the slot of nonce 1 answers for
   * nonce 65537, whose two low bytes are the same.
   */
  lemma AliasedRepeatExists(c: Ocb.Cipher, dir: Voice.Direction)
    requires c.Valid()
    ensures var cfg := Run(c, dir, Start(0), AliasDatagrams(c, 1026));
            var d := [1, 0, 0, 0];
            && NoLate(c, dir, Start(0), AliasDatagrams(c, 1026))
            && Attributed(cfg, d) == 65537 && 65537 !in cfg.trace.accepted
            && OutcomeOf(c, dir, cfg, d) == Rejected(Repeat)
  {
    hide Run, NoLate, AliasDatagrams, Start, OutcomeOf;
    AliasRun(c, dir, 1026);
    AliasMistaken(c, dir, Run(c, dir, Start(0), AliasDatagrams(c, 1026)));
  }

  lemma AliasMistaken(c: Ocb.Cipher, dir: Voice.Direction, cfg: Config)
    requires cfg.rx.Valid() && Aliased(cfg, 1026)
    ensures Attributed(cfg, [1, 0, 0, 0]) == 65537 && 65537 !in cfg.trace.accepted
    ensures OutcomeOf(c, dir, cfg, [1, 0, 0, 0]) == Rejected(Repeat)
  {
    hide OutcomeOf, HistoryInv, CounterInv, Distinct;
    assert cfg.trace.high == 65538;
    GapOfHigh(cfg, 1);
    assert Gap(65538, 1) == -1;
    hide Gap;
    RepeatExactly(c, dir, cfg, 0, [1, 0, 0, 0]);
    assert SecondByte(1) == SecondByte(65537) == 0;
  }

  // ----- A late packet among the good ones -----

  /** A packet behind the receiver, in a slot that remembers another second byte, is accepted and counted as late. */
  lemma BehindByInv(c: Ocb.Cipher, dir: Voice.Direction, cfg: Config, start: int, m: int, p: Voice.VoicePacket)
    requires c.Valid() && cfg.rx.Valid() && Inv(cfg, start) && Voice.WellFormed(dir, p) && -29 <= m - cfg.trace.high <= 0
    requires Remembered(Latest(cfg.trace.accepted, m % 256)) != SecondByte(m)
    ensures var d := SealDatagram(c, m % TWO_128, Voice.Encode(p));
            && OutcomeOf(c, dir, cfg, d).Accepted?
            && Step(c, dir, cfg, d).trace == Trace(cfg.trace.high, cfg.trace.accepted + [m], cfg.trace.late + 1)
  {
    hide SealDatagram, Voice.Encode, OutcomeOf, Step, CounterInv, Distinct, SecondByte, Voice.WellFormed, Latest, Remembered;
    OneArrival(c, dir, cfg, start, m, p);
    WrapKeepsLowBytes(m);
    OpenSealed(c, m % TWO_128, Voice.Encode(p));
    AcceptedStep(c, dir, cfg, SealDatagram(c, m % TWO_128, Voice.Encode(p)));
  }

  /** The datagram of nonce 358 and then that of 357, to a receiver that starts at 356. */
  function Swapped(c: Ocb.Cipher, p: Voice.VoicePacket): seq<seq<byte>> {
    [SealDatagram(c, 358, Voice.Encode(p)), SealDatagram(c, 357, Voice.Encode(p))]
  }

  lemma FirstOfTwo(c: Ocb.Cipher, dir: Voice.Direction, p: Voice.VoicePacket)
    requires c.Valid() && Voice.WellFormed(dir, p)
    ensures var d := SealDatagram(c, 358, Voice.Encode(p));
            && OutcomeOf(c, dir, Start(356), d).Accepted? && Inv(Step(c, dir, Start(356), d), 356)
            && Step(c, dir, Start(356), d).trace == Trace(358, [358], 0)
  {
    assert Start(356).trace == Trace(356, [], 0);
    hide SealDatagram, Voice.Encode, OutcomeOf, Step, Inv, Voice.WellFormed, Start;
    StartInv(356);
    AheadByInv(c, dir, Start(356), 356, 358, p);
    StepKeepsInv(c, dir, Start(356), 356, SealDatagram(c, 358, Voice.Encode(p)));
    assert [] + [358] == [358];
  }

  lemma OtherSecondByte()
    ensures Remembered(Latest([358], 357 % 256)) != SecondByte(357)
  {
    assert [358][..0] == [];
  }

  lemma SecondOfTwo(c: Ocb.Cipher, dir: Voice.Direction, cfg: Config, p: Voice.VoicePacket)
    requires c.Valid() && Voice.WellFormed(dir, p) && cfg.rx.Valid() && Inv(cfg, 356) && cfg.trace == Trace(358, [358], 0)
    ensures var e := SealDatagram(c, 357, Voice.Encode(p));
            OutcomeOf(c, dir, cfg, e).Accepted? && Step(c, dir, cfg, e).trace == Trace(358, [358, 357], 1)
  {
    hide SealDatagram, Voice.Encode, OutcomeOf, Step, Inv, Voice.WellFormed, Latest, Remembered, SecondByte;
    OtherSecondByte();
    BehindByInv(c, dir, cfg, 356, 357, p);
    assert [358] + [357] == [358, 357];
  }

  lemma SwappedRun(c: Ocb.Cipher, dir: Voice.Direction, p: Voice.VoicePacket)
    requires c.Valid() && Voice.WellFormed(dir, p)
    ensures NoLate(c, dir, Start(356), Swapped(c, p))
    ensures Run(c, dir, Start(356), Swapped(c, p)).trace == Trace(358, [358, 357], 1)
  {
    hide SealDatagram, Voice.Encode, OutcomeOf, Step, Inv, Voice.WellFormed, Start;
    var d, e := SealDatagram(c, 358, Voice.Encode(p)), SealDatagram(c, 357, Voice.Encode(p));
    FirstOfTwo(c, dir, p);
    SecondOfTwo(c, dir, Step(c, dir, Start(356), d), p);
    RunPush(c, dir, Start(356), [], d);
    assert [] + [d] == [d] && [d] + [e] == Swapped(c, p);
    hide Run, NoLate;
    RunPush(c, dir, Start(356), [d], e);
  }

  /** `good` counts a late packet: two datagrams that arrive swapped give `good` 2 of which `late` 1. */
  lemma LateCountsAsGood(c: Ocb.Cipher, dir: Voice.Direction, p: Voice.VoicePacket)
    requires c.Valid() && Voice.WellFormed(dir, p)
    ensures var cfg := Run(c, dir, Start(356), Swapped(c, p));
            NoLate(c, dir, Start(356), Swapped(c, p)) && cfg.rx.good == 2 && cfg.rx.late == 1
  {
    hide Run, Start, NoLate, Swapped, Voice.WellFormed, Missing, Early;
    SwappedRun(c, dir, p);
    CountersCount(c, dir, 356, Swapped(c, p));
  }
}
