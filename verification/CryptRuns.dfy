/**
 * Whole runs of the receiving side. Full nonces are followed as unbounded integers, of which the state
 * holds the value modulo 2^128.
 */
module CryptRuns {
  import opened Bytes
  import opened Crypt
  import Ocb
  import Voice

  /** What has happened since the start: the highest nonce, the nonces accepted so far, and how many were late. */
  datatype Trace = Trace(high: int, accepted: seq<int>, late: nat)

  datatype Config = Config(rx: Receiver, trace: Trace)

  /** The full nonce the receiver attributes to a datagram. */
  function Attributed(cfg: Config, d: seq<byte>): int
    requires |d| >= 4
  {
    cfg.trace.high + Gap(cfg.rx.nonce, d[0])
  }

  function OutcomeOf(c: Ocb.Cipher, dir: Voice.Direction, cfg: Config, d: seq<byte>): Outcome
    requires cfg.rx.Valid()
  {
    Receive(c, dir, cfg.rx, d).1
  }

  /** One datagram: the receiver steps, and an accepted nonce is recorded. */
  function Step(c: Ocb.Cipher, dir: Voice.Direction, cfg: Config, d: seq<byte>): (r: Config)
    requires cfg.rx.Valid()
    ensures r.rx.Valid()
  {
    var (rx, outcome) := Receive(c, dir, cfg.rx, d);
    if outcome.Rejected? then Config(rx, cfg.trace)
    else
      var m := Attributed(cfg, d);
      var t := cfg.trace;
      Config(rx, if m <= t.high then Trace(t.high, t.accepted + [m], t.late + 1) else Trace(m, t.accepted + [m], t.late))
  }

  function Run(c: Ocb.Cipher, dir: Voice.Direction, cfg: Config, ds: seq<seq<byte>>): (r: Config)
    requires cfg.rx.Valid()
    ensures r.rx.Valid()
  {
    if ds == [] then cfg else Step(c, dir, Run(c, dir, cfg, ds[..|ds| - 1]), ds[|ds| - 1])
  }

  function Start(nonce: u128): (r: Config)
    ensures r.rx.Valid()
  {
    Config(Fresh(nonce), Trace(nonce, [], 0))
  }

  /** No datagram of the run was rejected as far too late, the one rejection that moves the nonce. */
  ghost predicate NoLate(c: Ocb.Cipher, dir: Voice.Direction, cfg: Config, ds: seq<seq<byte>>)
    requires cfg.rx.Valid()
  {
    forall k :: 0 <= k < |ds| ==> OutcomeOf(c, dir, Run(c, dir, cfg, ds[..k]), ds[k]) != Rejected(Late)
  }

  lemma RunPush(c: Ocb.Cipher, dir: Voice.Direction, cfg: Config, ds: seq<seq<byte>>, d: seq<byte>)
    requires cfg.rx.Valid()
    ensures Run(c, dir, cfg, ds + [d]) == Step(c, dir, Run(c, dir, cfg, ds), d)
    ensures NoLate(c, dir, cfg, ds) && OutcomeOf(c, dir, Run(c, dir, cfg, ds), d) != Rejected(Late)
        ==> NoLate(c, dir, cfg, ds + [d])
  {
    hide Step, OutcomeOf;
    var all := ds + [d];
    assert all[..|ds|] == ds;
    assert forall k :: 0 <= k < |ds| ==> all[..k] == ds[..k];
  }

  // ----- The invariant -----

  /** The last accepted nonce whose low byte is `slot`. */
  function Latest(accepted: seq<int>, slot: byte): Option<int> {
    if accepted == [] then None
    else
      var last := accepted[|accepted| - 1];
      if last % 256 == slot then Some(last) else Latest(accepted[..|accepted| - 1], slot)
  }

  /** The second byte the history holds for a slot; zero until something was accepted there. */
  function Remembered(latest: Option<int>): byte {
    match latest
    case None => 0
    case Some(m) => SecondByte(m)
  }

  /** The history slots are determined by the accepted nonces, and no slot has lost a nonce still in the window. */
  ghost predicate HistoryInv(cfg: Config)
    requires cfg.rx.Valid()
  {
    var t := cfg.trace;
    && (forall slot: byte :: cfg.rx.history[slot] == Remembered(Latest(t.accepted, slot)))
    && (forall i :: 0 <= i < |t.accepted| ==> t.accepted[i] <= t.high)
    && (forall i :: 0 <= i < |t.accepted| && t.accepted[i] > t.high - 256 ==>
          Latest(t.accepted, t.accepted[i] % 256) == Some(t.accepted[i]))
  }

  ghost predicate Distinct(accepted: seq<int>) {
    forall i, j :: 0 <= i < j < |accepted| ==> accepted[i] != accepted[j]
  }

  ghost predicate CounterInv(cfg: Config, start: int) {
    var t := cfg.trace;
    && cfg.rx.good == |t.accepted| % TWO_32
    && cfg.rx.late == t.late % TWO_32 && t.late <= |t.accepted|
    && cfg.rx.lost == (t.high - start - |t.accepted|) % TWO_32
  }

  ghost predicate Inv(cfg: Config, start: int)
    requires cfg.rx.Valid()
  {
    && cfg.rx.nonce == cfg.trace.high % TWO_128
    && HistoryInv(cfg)
    && Distinct(cfg.trace.accepted)
    && CounterInv(cfg, start)
  }

  // ----- One step keeps it -----

  lemma GapOfHigh(cfg: Config, wire: byte)
    requires cfg.rx.nonce == cfg.trace.high % TWO_128
    ensures Gap(cfg.rx.nonce, wire) == Gap(cfg.trace.high, wire)
    ensures var g := Gap(cfg.rx.nonce, wire);
            && (cfg.rx.nonce + g) % TWO_128 == (cfg.trace.high + g) % TWO_128
            && SecondByte((cfg.rx.nonce + g) % TWO_128) == SecondByte(cfg.trace.high + g)
            && (cfg.trace.high + g) % 256 == wire
  {
    hide Gap, SecondByte;
    var high := cfg.trace.high;
    var g := Gap(high, wire);
    var q := high / TWO_128;
    assert cfg.rx.nonce == high - q * TWO_128;
    AddMultiple(high + g, -q * 0x100_0000_0000_0000_0000_0000_0000_0000);
    assert cfg.rx.nonce + g == high + g + 256 * (-q * 0x100_0000_0000_0000_0000_0000_0000_0000);
    GapIsUnique(cfg.rx.nonce, wire, g);
    WrapSum(high, g);
    WrapKeepsLowBytes(high + g);
  }

  lemma WrapSum(x: int, g: int)
    ensures (x % TWO_128 + g) % TWO_128 == (x + g) % TWO_128
  {
    var q := x / TWO_128;
    var p := (x % TWO_128 + g) / TWO_128;
    var r := (x % TWO_128 + g) % TWO_128;
    assert x + g == (q + p) * TWO_128 + r;
  }

  /** A nonce of the window that was accepted before is what its slot remembers. */
  lemma SeenIsRemembered(cfg: Config, m: int)
    requires cfg.rx.Valid() && HistoryInv(cfg) && cfg.trace.high - 256 < m
    ensures m in cfg.trace.accepted <==> Latest(cfg.trace.accepted, m % 256) == Some(m)
  {
    LatestIsAccepted(cfg.trace.accepted, m % 256);
  }

  lemma {:induction false} LatestIsAccepted(accepted: seq<int>, slot: byte)
    ensures Latest(accepted, slot).Some? ==> Latest(accepted, slot).value in accepted
    ensures Latest(accepted, slot).Some? ==> Latest(accepted, slot).value % 256 == slot
  {
    if accepted != [] {
      LatestIsAccepted(accepted[..|accepted| - 1], slot);
    }
  }

  lemma LatestAfter(accepted: seq<int>, m: int, slot: byte)
    ensures Latest(accepted + [m], slot) == if m % 256 == slot then Some(m) else Latest(accepted, slot)
  {
    assert (accepted + [m])[..|accepted|] == accepted;
  }

  /** Two nonces with the same low byte that are less than 256 apart are the same nonce. */
  lemma SameSlot(m: int, n: int)
    requires m % 256 == n % 256 && -256 < m - n < 256
    ensures m == n
  {
    assert m - n == 256 * (m / 256 - n / 256);
  }

  /** What acceptance means for the receiver. */
  lemma AcceptedStep(c: Ocb.Cipher, dir: Voice.Direction, cfg: Config, d: seq<byte>)
    requires cfg.rx.Valid() && cfg.rx.nonce == cfg.trace.high % TWO_128
    requires OutcomeOf(c, dir, cfg, d).Accepted?
    ensures |d| >= 4
    ensures var m := Attributed(cfg, d);
            var next := Step(c, dir, cfg, d);
            && m % 256 == d[0]
            && cfg.trace.high - 30 < m <= cfg.trace.high + 127
            && (m <= cfg.trace.high ==> cfg.rx.history[d[0]] != SecondByte(m))
            && next.rx.history == cfg.rx.history[d[0] := SecondByte(m)]
            && next.rx.nonce == next.trace.high % TWO_128
            && next.trace.accepted == cfg.trace.accepted + [m]
            && next.trace.high == (if m <= cfg.trace.high then cfg.trace.high else m)
            && next.rx.good == Moved(cfg.rx.good, 1)
            && next.rx.lost == Moved(cfg.rx.lost, if m <= cfg.trace.high then -1 else m - cfg.trace.high - 1)
            && next.rx.late == (if m <= cfg.trace.high then Moved(cfg.rx.late, 1) else cfg.rx.late)
            && next.trace.late == (if m <= cfg.trace.high then cfg.trace.late + 1 else cfg.trace.late)
  {
    hide OpenDatagram, Voice.Decode, SecondByte, Moved;
    if |d| >= 4 {
      GapOfHigh(cfg, d[0]);
    }
  }

  lemma RejectedStep(c: Ocb.Cipher, dir: Voice.Direction, cfg: Config, d: seq<byte>)
    requires cfg.rx.Valid()
    requires OutcomeOf(c, dir, cfg, d).Rejected? && OutcomeOf(c, dir, cfg, d) != Rejected(Late)
    ensures Step(c, dir, cfg, d) == cfg
  {
    hide OpenDatagram, Voice.Decode, SecondByte, Moved;
  }

  lemma NewNonce(cfg: Config, m: int)
    requires cfg.rx.Valid() && HistoryInv(cfg)
    requires cfg.trace.high - 30 < m
    requires m <= cfg.trace.high ==> cfg.rx.history[m % 256] != SecondByte(m)
    ensures m !in cfg.trace.accepted
  {
    SeenIsRemembered(cfg, m);
  }

  lemma HistoryKept(cfg: Config, next: Config, m: int)
    requires cfg.rx.Valid() && next.rx.Valid() && HistoryInv(cfg)
    requires next.rx.history == cfg.rx.history[m % 256 := SecondByte(m)]
    requires next.trace.accepted == cfg.trace.accepted + [m]
    requires next.trace.high == if m <= cfg.trace.high then cfg.trace.high else m
    requires cfg.trace.high - 30 < m
    ensures HistoryInv(next)
  {
    hide SecondByte;
    var acc, acc' := cfg.trace.accepted, next.trace.accepted;
    forall slot: byte
      ensures next.rx.history[slot] == Remembered(Latest(acc', slot))
    {
      LatestAfter(acc, m, slot);
    }
    forall i | 0 <= i < |acc'| && acc'[i] > next.trace.high - 256
      ensures Latest(acc', acc'[i] % 256) == Some(acc'[i])
    {
      LatestAfter(acc, m, acc'[i] % 256);
      if acc'[i] % 256 == m % 256 {
        SameSlot(acc'[i], m);
      }
    }
  }

  lemma CountersKept(cfg: Config, next: Config, start: int, m: int)
    requires CounterInv(cfg, start)
    requires next.trace.accepted == cfg.trace.accepted + [m]
    requires next.trace.high == if m <= cfg.trace.high then cfg.trace.high else m
    requires next.rx.good == Moved(cfg.rx.good, 1)
    requires next.rx.lost == Moved(cfg.rx.lost, if m <= cfg.trace.high then -1 else m - cfg.trace.high - 1)
    requires next.rx.late == if m <= cfg.trace.high then Moved(cfg.rx.late, 1) else cfg.rx.late
    requires next.trace.late == if m <= cfg.trace.high then cfg.trace.late + 1 else cfg.trace.late
    ensures CounterInv(next, start)
  {
    hide Moved;
    MovedModulo(|cfg.trace.accepted|, 1);
    MovedModulo(cfg.trace.late, 1);
    MovedModulo(cfg.trace.high - start - |cfg.trace.accepted|, if m <= cfg.trace.high then -1 else m - cfg.trace.high - 1);
  }

  lemma MovedModulo(x: int, amount: int)
    ensures Moved(x % TWO_32, amount) == (x + amount) % TWO_32
  {
    var q := x / TWO_32;
    var y := x % TWO_32 + amount;
    assert x + amount == (q + y / TWO_32) * TWO_32 + y % TWO_32;
  }

  lemma StepKeepsInv(c: Ocb.Cipher, dir: Voice.Direction, cfg: Config, start: int, d: seq<byte>)
    requires cfg.rx.Valid() && Inv(cfg, start)
    requires OutcomeOf(c, dir, cfg, d) != Rejected(Late)
    ensures Inv(Step(c, dir, cfg, d), start)
  {
    hide Step, OutcomeOf, HistoryInv, CounterInv, SecondByte;
    if OutcomeOf(c, dir, cfg, d).Rejected? {
      RejectedStep(c, dir, cfg, d);
    } else {
      AcceptedStep(c, dir, cfg, d);
      var m := Attributed(cfg, d);
      NewNonce(cfg, m);
      HistoryKept(cfg, Step(c, dir, cfg, d), m);
      CountersKept(cfg, Step(c, dir, cfg, d), start, m);
    }
  }

  // ----- Whole runs -----

  lemma StartInv(nonce: u128)
    ensures Inv(Start(nonce), nonce)
  {}

  lemma {:induction false} RunKeepsInv(c: Ocb.Cipher, dir: Voice.Direction, nonce: u128, ds: seq<seq<byte>>)
    requires NoLate(c, dir, Start(nonce), ds)
    ensures Inv(Run(c, dir, Start(nonce), ds), nonce)
  {
    hide Inv, Step, Start, OutcomeOf;
    if ds == [] {
      StartInv(nonce);
    } else {
      var k := |ds| - 1;
      var front := ds[..k];
      assert forall i :: 0 <= i < k ==> front[..i] == ds[..i];
      RunKeepsInv(c, dir, nonce, front);
      StepKeepsInv(c, dir, Run(c, dir, Start(nonce), front), nonce, ds[k]);
    }
  }

  /** No full nonce is accepted twice, whatever bytes arrive. */
  lemma NeverAcceptedTwice(c: Ocb.Cipher, dir: Voice.Direction, nonce: u128, ds: seq<seq<byte>>)
    requires NoLate(c, dir, Start(nonce), ds)
    ensures Distinct(Run(c, dir, Start(nonce), ds).trace.accepted)
  {
    RunKeepsInv(c, dir, nonce, ds);
  }

  // ----- The 128-bit nonces themselves -----

  lemma {:induction false} AcceptedRange(c: Ocb.Cipher, dir: Voice.Direction, nonce: u128, ds: seq<seq<byte>>)
    requires NoLate(c, dir, Start(nonce), ds)
    ensures var t := Run(c, dir, Start(nonce), ds).trace;
            && nonce <= t.high <= nonce + 127 * |ds|
            && forall i :: 0 <= i < |t.accepted| ==> nonce - 30 < t.accepted[i] <= t.high
  {
    hide Inv, Step, OutcomeOf, Receive;
    if ds != [] {
      var k := |ds| - 1;
      var front := ds[..k];
      assert forall i :: 0 <= i < k ==> front[..i] == ds[..i];
      AcceptedRange(c, dir, nonce, front);
      RunKeepsInv(c, dir, nonce, front);
      RangeStep(c, dir, Run(c, dir, Start(nonce), front), nonce, ds[k]);
    }
  }

  lemma RangeStep(c: Ocb.Cipher, dir: Voice.Direction, cfg: Config, start: int, d: seq<byte>)
    requires cfg.rx.Valid() && Inv(cfg, start) && start <= cfg.trace.high
    requires OutcomeOf(c, dir, cfg, d) != Rejected(Late)
    ensures var next := Step(c, dir, cfg, d);
            && cfg.trace.high <= next.trace.high <= cfg.trace.high + 127
            && (next == cfg || exists m :: next.trace.accepted == cfg.trace.accepted + [m] && start - 30 < m <= next.trace.high)
  {
    hide Step, OutcomeOf, HistoryInv, CounterInv;
    if OutcomeOf(c, dir, cfg, d).Rejected? {
      RejectedStep(c, dir, cfg, d);
    } else {
      AcceptedStep(c, dir, cfg, d);
    }
  }

  /** In a run of fewer than 2^120 datagrams the blocks the cipher is given for the nonces differ too. */
  lemma CipherNoncesDiffer(c: Ocb.Cipher, dir: Voice.Direction, nonce: u128, ds: seq<seq<byte>>)
    requires NoLate(c, dir, Start(nonce), ds) && |ds| < 0x100_0000_0000_0000_0000_0000_0000_0000
    ensures var acc := Run(c, dir, Start(nonce), ds).trace.accepted;
            forall i, j :: 0 <= i < j < |acc| ==> Ocb.NonceBlock(acc[i] % TWO_128) != Ocb.NonceBlock(acc[j] % TWO_128)
  {
    hide Run, Start, Ocb.NonceBlock;
    NeverAcceptedTwice(c, dir, nonce, ds);
    AcceptedRange(c, dir, nonce, ds);
    var acc := Run(c, dir, Start(nonce), ds).trace.accepted;
    forall i, j | 0 <= i < j < |acc|
      ensures Ocb.NonceBlock(acc[i] % TWO_128) != Ocb.NonceBlock(acc[j] % TWO_128)
    {
      WrapsDiffer(acc[i], acc[j]);
      Ocb.NonceBlockInjective(acc[i] % TWO_128, acc[j] % TWO_128);
    }
  }

  lemma WrapsDiffer(x: int, y: int)
    requires x != y && -TWO_128 < x - y < TWO_128
    ensures x % TWO_128 != y % TWO_128
  {
    assert x - y == TWO_128 * (x / TWO_128 - y / TWO_128) + (x % TWO_128 - y % TWO_128);
  }

  // ----- Rejections -----

  /**
   * A rejected datagram leaves the receiver as it was exactly when it is not far too late; a datagram 30
   * or more behind moves the nonce back and is not undone.
   */
  lemma RejectionKeepsState(c: Ocb.Cipher, dir: Voice.Direction, r: Receiver, d: seq<byte>)
    requires r.Valid() && Receive(c, dir, r, d).1.Rejected?
    ensures Receive(c, dir, r, d).0 == r <==> |d| < 4 || Gap(r.nonce, d[0]) > -30
    ensures Receive(c, dir, r, d).1 == Rejected(Late) <==> |d| >= 4 && Gap(r.nonce, d[0]) <= -30
  {
    hide OpenDatagram, Voice.Decode, SecondByte;
    if |d| >= 4 && Gap(r.nonce, d[0]) <= -30 {
      var g := Gap(r.nonce, d[0]);
      WrapsDiffer(r.nonce + g, r.nonce);
    }
  }

  /** A far too late datagram that is not undone: at nonce 100 a datagram with low byte 60 moves the nonce to 60. */
  lemma LateMovesNonce(c: Ocb.Cipher, dir: Voice.Direction)
    ensures var (r, outcome) := Receive(c, dir, Fresh(100), [60, 0, 0, 0]);
            outcome == Rejected(Late) && r.nonce == 60
  {
    assert Gap(100, 60) == -40;
  }

  /** Slots that answer for a nonce they never accepted: empty ones for second byte zero, and aliases 2^16 apart. */
  predicate FalseRepeat(latest: Option<int>, m: int) {
    match latest
    case None => SecondByte(m) == 0
    case Some(l) => l != m && SecondByte(l) == SecondByte(m)
  }

  /** In every reachable state a datagram at or behind the nonce is a repeat exactly when it was seen or its slot is mistaken. */
  lemma RepeatExactly(c: Ocb.Cipher, dir: Voice.Direction, cfg: Config, start: int, d: seq<byte>)
    requires cfg.rx.Valid() && Inv(cfg, start) && |d| >= 4 && -30 < Gap(cfg.rx.nonce, d[0]) <= 0
    ensures var m := Attributed(cfg, d);
            var seen := m in cfg.trace.accepted;
            var mistaken := FalseRepeat(Latest(cfg.trace.accepted, d[0]), m);
            OutcomeOf(c, dir, cfg, d) == Rejected(Repeat) <==> seen || mistaken
  {
    hide OpenDatagram, Voice.Decode, SecondByte;
    GapOfHigh(cfg, d[0]);
    SeenIsRemembered(cfg, Attributed(cfg, d));
  }

  /** A repeat that was never seen: a fresh receiver at nonce 5 takes nonce 3 for a repeat. */
  lemma FalseRepeatExists(c: Ocb.Cipher, dir: Voice.Direction)
    ensures OutcomeOf(c, dir, Start(5), [3, 0, 0, 0]) == Rejected(Repeat)
  {
    hide OpenDatagram, Voice.Decode, Moved;
    assert Gap(5, 3) == -2;
  }

  // ----- Accounting -----

  function Interval(lo: int, hi: int): (r: set<int>)
    ensures forall m :: m in r <==> lo < m <= hi
    decreases hi - lo
  {
    if lo >= hi then {} else Interval(lo, hi - 1) + {hi}
  }

  lemma {:induction false} IntervalSize(lo: int, hi: int)
    requires lo <= hi
    ensures |Interval(lo, hi)| == hi - lo
    decreases hi - lo
  {
    if lo < hi {
      IntervalSize(lo, hi - 1);
      assert Interval(lo, hi) == Interval(lo, hi - 1) + {hi};
    }
  }

  function Elements(s: seq<int>): set<int> {
    set m | m in s
  }

  lemma {:induction false} DistinctSize(s: seq<int>)
    requires Distinct(s)
    ensures |Elements(s)| == |s|
  {
    if s != [] {
      var front, last := s[..|s| - 1], s[|s| - 1];
      DistinctSize(front);
      assert Elements(s) == Elements(front) + {last};
      assert last !in front;
    }
  }

  /** Nonces after the start, up to the highest one, that were never accepted. */
  function Missing(t: Trace, start: int): set<int> {
    Interval(start, t.high) - Elements(t.accepted)
  }

  /** Accepted nonces from before the start. */
  function Early(t: Trace, start: int): set<int> {
    set m | m in t.accepted && m <= start
  }

  lemma LossBalance(t: Trace, start: int)
    requires Distinct(t.accepted) && start <= t.high
    requires forall i :: 0 <= i < |t.accepted| ==> t.accepted[i] <= t.high
    ensures |Missing(t, start)| - |Early(t, start)| == t.high - start - |t.accepted|
  {
    var all, acc, early := Interval(start, t.high), Elements(t.accepted), Early(t, start);
    IntervalSize(start, t.high);
    DistinctSize(t.accepted);
    var inside := acc - early;
    assert inside <= all && Missing(t, start) == all - inside;
    assert early <= acc;
  }

  /** A 32-bit counter read as a signed number. */
  function Signed(x: u32): int {
    if x < 0x8000_0000 then x else x - TWO_32
  }

  lemma SignedModulo(x: int)
    requires -0x8000_0000 <= x < 0x8000_0000
    ensures Signed(x % TWO_32) == x
  {}

  /**
   * After any run, `good` counts the accepted nonces and `lost` the missing ones less those accepted from
   * before the start, both modulo 2^32.
   */
  lemma CountersCount(c: Ocb.Cipher, dir: Voice.Direction, nonce: u128, ds: seq<seq<byte>>)
    requires NoLate(c, dir, Start(nonce), ds)
    ensures var cfg := Run(c, dir, Start(nonce), ds);
            && cfg.rx.good == |cfg.trace.accepted| % TWO_32
            && cfg.rx.late == cfg.trace.late % TWO_32 && cfg.trace.late <= |cfg.trace.accepted|
            && cfg.rx.lost == (|Missing(cfg.trace, nonce)| - |Early(cfg.trace, nonce)|) % TWO_32
  {
    hide Run, Start, NoLate, HistoryInv, Missing, Early;
    RunKeepsInv(c, dir, nonce, ds);
    AcceptedRange(c, dir, nonce, ds);
    LossBalance(Run(c, dir, Start(nonce), ds).trace, nonce);
  }

  /** While the counts stay below 2^31 the counters are exact, and together they give the distance covered. */
  lemma CountersExact(c: Ocb.Cipher, dir: Voice.Direction, nonce: u128, ds: seq<seq<byte>>)
    requires NoLate(c, dir, Start(nonce), ds)
    requires var t := Run(c, dir, Start(nonce), ds).trace;
             |t.accepted| < 0x8000_0000 && |Missing(t, nonce)| < 0x8000_0000
    ensures var cfg := Run(c, dir, Start(nonce), ds);
            && cfg.rx.good == |cfg.trace.accepted|
            && cfg.rx.late == cfg.trace.late <= |cfg.trace.accepted|
            && Signed(cfg.rx.lost) == |Missing(cfg.trace, nonce)| - |Early(cfg.trace, nonce)|
            && cfg.rx.good + Signed(cfg.rx.lost) == cfg.trace.high - nonce
  {
    hide Run, Start, Missing, Early, Inv, NoLate, Signed;
    CountersCount(c, dir, nonce, ds);
    AcceptedRange(c, dir, nonce, ds);
    NeverAcceptedTwice(c, dir, nonce, ds);
    var t := Run(c, dir, Start(nonce), ds).trace;
    LossBalance(t, nonce);
    EarlyBound(t, nonce);
    SignedModulo(|Missing(t, nonce)| - |Early(t, nonce)|);
  }

  lemma EarlyBound(t: Trace, start: int)
    requires Distinct(t.accepted)
    ensures |Early(t, start)| <= |t.accepted|
  {
    DistinctSize(t.accepted);
    SubsetSize(Early(t, start), Elements(t.accepted));
  }

  lemma SubsetSize(a: set<int>, b: set<int>)
    requires a <= b
    ensures |a| <= |b|
  {
    assert b == a + (b - a);
  }

  // ----- On time and late -----

  /** The `i`-th accepted nonce came on time: it is beyond the start and beyond everything accepted before it. */
  predicate OnTime(accepted: seq<int>, start: int, i: nat)
    requires i < |accepted|
  {
    accepted[i] > start && forall j :: 0 <= j < i ==> accepted[j] < accepted[i]
  }

  function OnTimeOnes(accepted: seq<int>, start: int): set<nat> {
    set i: nat | i < |accepted| && OnTime(accepted, start, i)
  }

  lemma OnTimeStays(accepted: seq<int>, start: int, m: int, i: nat)
    requires i < |accepted|
    ensures OnTime(accepted + [m], start, i) <==> OnTime(accepted, start, i)
  {
    var all := accepted + [m];
    assert forall j :: 0 <= j <= i ==> all[j] == accepted[j];
  }

  lemma OnTimeLast(accepted: seq<int>, start: int, m: int)
    ensures OnTime(accepted + [m], start, |accepted|) <==> m > start && forall j :: 0 <= j < |accepted| ==> accepted[j] < m
  {
    var all := accepted + [m];
    assert forall j :: 0 <= j < |accepted| ==> all[j] == accepted[j];
  }

  lemma OnTimePush(accepted: seq<int>, start: int, m: int)
    ensures var ahead := m > start && forall j :: 0 <= j < |accepted| ==> accepted[j] < m;
            |OnTimeOnes(accepted + [m], start)| == |OnTimeOnes(accepted, start)| + if ahead then 1 else 0
  {
    hide OnTime;
    var all, n := accepted + [m], |accepted|;
    forall i: nat | i < n
      ensures OnTime(all, start, i) <==> OnTime(accepted, start, i)
    {
      OnTimeStays(accepted, start, m, i);
    }
    OnTimeLast(accepted, start, m);
    assert OnTimeOnes(all, start) == OnTimeOnes(accepted, start) + if OnTime(all, start, n) then {n} else {};
  }

  /** The receiver's own test for lateness agrees with the order of the accepted nonces. */
  ghost predicate TimingInv(t: Trace, start: int) {
    && start <= t.high && (t.high == start || t.high in t.accepted)
    && (forall i :: 0 <= i < |t.accepted| ==> t.accepted[i] <= t.high)
    && t.late + |OnTimeOnes(t.accepted, start)| == |t.accepted|
  }

  lemma TimingStep(t: Trace, start: int, m: int)
    requires TimingInv(t, start)
    ensures TimingInv(if m <= t.high then Trace(t.high, t.accepted + [m], t.late + 1)
                      else Trace(m, t.accepted + [m], t.late), start)
  {
    OnTimePush(t.accepted, start, m);
    hide OnTimeOnes;
    var all := t.accepted + [m];
    assert all[|t.accepted|] == m;
  }

  lemma {:induction false} RunTiming(c: Ocb.Cipher, dir: Voice.Direction, nonce: u128, ds: seq<seq<byte>>)
    requires NoLate(c, dir, Start(nonce), ds)
    ensures TimingInv(Run(c, dir, Start(nonce), ds).trace, nonce)
  {
    hide Inv, OutcomeOf, TimingInv, Step;
    if ds == [] {
      StartTiming(nonce);
    } else {
      var k := |ds| - 1;
      var front := ds[..k];
      assert forall i :: 0 <= i < k ==> front[..i] == ds[..i];
      RunTiming(c, dir, nonce, front);
      TimingOfStep(c, dir, Run(c, dir, Start(nonce), front), nonce, ds[k]);
    }
  }

  lemma StartTiming(nonce: u128)
    ensures TimingInv(Start(nonce).trace, nonce)
  {
    assert OnTimeOnes([], nonce) == {};
  }

  lemma TimingOfStep(c: Ocb.Cipher, dir: Voice.Direction, cfg: Config, start: int, d: seq<byte>)
    requires cfg.rx.Valid() && TimingInv(cfg.trace, start)
    ensures TimingInv(Step(c, dir, cfg, d).trace, start)
  {
    hide Receive, TimingInv, Gap;
    if Receive(c, dir, cfg.rx, d).1.Accepted? {
      AcceptedLength(c, dir, cfg, d);
      TimingStep(cfg.trace, start, Attributed(cfg, d));
    }
  }

  lemma AcceptedLength(c: Ocb.Cipher, dir: Voice.Direction, cfg: Config, d: seq<byte>)
    requires cfg.rx.Valid() && Receive(c, dir, cfg.rx, d).1.Accepted?
    ensures |d| >= 4
  {
    hide OpenDatagram, Voice.Decode, Gap, SecondByte, Moved;
  }

  lemma AllIndices(s: set<nat>, n: nat)
    requires forall i :: i in s ==> i < n
    ensures |s| <= n && (|s| == n <==> forall i: nat :: i < n ==> i in s)
    decreases n
  {
    if n > 0 {
      AllIndices(s - {n - 1}, n - 1);
      if n - 1 in s {
        assert s == s - {n - 1} + {n - 1};
      } else {
        assert s == s - {n - 1};
      }
    } else {
      assert s == {};
    }
  }

  /**
   * `good` less `late` is the number of nonces that came on time, so `good` counts just those exactly when none was
   * late. The difference holds modulo 2^32 for any run, and outright while fewer than 2^32 were accepted.
   */
  lemma GoodCountsOnTimeExactly(c: Ocb.Cipher, dir: Voice.Direction, nonce: u128, ds: seq<seq<byte>>)
    requires NoLate(c, dir, Start(nonce), ds)
    ensures var cfg := Run(c, dir, Start(nonce), ds);
            var acc := cfg.trace.accepted;
            var onTime := |OnTimeOnes(acc, nonce)|;
            && (cfg.rx.good - cfg.rx.late) % TWO_32 == onTime % TWO_32
            && (|acc| < TWO_32 ==>
                  && cfg.rx.good - cfg.rx.late == onTime
                  && (cfg.rx.good == onTime <==> forall i: nat :: i < |acc| ==> OnTime(acc, nonce, i)))
  {
    hide Run, Start, NoLate, OnTime, OnTimeOnes, Missing, Early;
    RunTiming(c, dir, nonce, ds);
    CountersCount(c, dir, nonce, ds);
    var cfg := Run(c, dir, Start(nonce), ds);
    OnTimeCounters(cfg.rx, cfg.trace, nonce);
    AllOnTime(cfg.trace.accepted, nonce);
  }

  lemma OnTimeCounters(r: Receiver, t: Trace, start: int)
    requires r.good == |t.accepted| % TWO_32 && r.late == t.late % TWO_32
    requires t.late + |OnTimeOnes(t.accepted, start)| == |t.accepted|
    ensures (r.good - r.late) % TWO_32 == |OnTimeOnes(t.accepted, start)| % TWO_32
    ensures |t.accepted| < TWO_32 ==> r.good == |t.accepted| && r.good - r.late == |OnTimeOnes(t.accepted, start)|
  {
    hide OnTimeOnes;
    DifferenceModulo(|t.accepted|, t.late);
  }

  lemma AllOnTime(accepted: seq<int>, start: int)
    ensures |OnTimeOnes(accepted, start)| == |accepted| <==> forall i: nat :: i < |accepted| ==> OnTime(accepted, start, i)
  {
    hide OnTime;
    var ones := OnTimeOnes(accepted, start);
    AllIndices(ones, |accepted|);
    assert forall i: nat :: i < |accepted| ==> (i in ones <==> OnTime(accepted, start, i));
  }

  lemma DifferenceModulo(x: int, y: int)
    ensures (x % TWO_32 - y % TWO_32) % TWO_32 == (x - y) % TWO_32
  {
    var q := x / TWO_32 - y / TWO_32;
    var z := x % TWO_32 - y % TWO_32;
    assert x - y == (q + z / TWO_32) * TWO_32 + z % TWO_32;
  }
}
