/**
 * A sender and a receiver with the same key, over a channel that may lose, duplicate and reorder
 * datagrams as long as each one arrives inside the receiver's window.
 */
module CryptChannel {
  import opened Bytes
  import opened Crypt
  import opened CryptRuns
  import Ocb
  import Voice

  /** The full nonce of the `j`-th packet sent by a sender that started at `base`. */
  function SentNonce(base: int, j: nat): int {
    base + 1 + j
  }

  function Datagram(c: Ocb.Cipher, base: int, ps: seq<Voice.VoicePacket>, j: nat): seq<byte>
    requires j < |ps|
  {
    SealDatagram(c, SentNonce(base, j) % TWO_128, Voice.Encode(ps[j]))
  }

  /** The datagrams in the order they arrive; `js` says which packet each arrival carries. */
  function Arrivals(c: Ocb.Cipher, base: int, ps: seq<Voice.VoicePacket>, js: seq<nat>): (ds: seq<seq<byte>>)
    requires forall k :: 0 <= k < |js| ==> js[k] < |ps|
    ensures |ds| == |js|
  {
    seq(|js|, k requires 0 <= k < |js| => Datagram(c, base, ps, js[k]))
  }

  /** The configuration when the `k`-th arrival is about to be received. */
  ghost function Before(c: Ocb.Cipher, dir: Voice.Direction, start: u128, ds: seq<seq<byte>>, k: nat): (r: Config)
    requires k <= |ds|
    ensures r.rx.Valid()
  {
    Run(c, dir, Start(start), ds[..k])
  }

  /** Every arrival is at most 29 behind and 127 ahead of the receiver. */
  ghost predicate InWindow(c: Ocb.Cipher, dir: Voice.Direction, start: u128, base: int, ps: seq<Voice.VoicePacket>, js: seq<nat>)
    requires forall k :: 0 <= k < |js| ==> js[k] < |ps|
  {
    var ds := Arrivals(c, base, ps, js);
    forall k :: 0 <= k < |js| ==>
      -29 <= SentNonce(base, js[k]) - Before(c, dir, start, ds, k).trace.high <= 127
  }

  // ----- One arrival -----

  lemma OpenSealed(c: Ocb.Cipher, nonce: u128, plain: seq<byte>)
    requires c.Valid()
    ensures |SealDatagram(c, nonce, plain)| >= 4
    ensures SealDatagram(c, nonce, plain)[0] == nonce % 256
    ensures OpenDatagram(c, nonce, SealDatagram(c, nonce, plain)) == Some(plain)
  {
    hide TagBytes, Ocb.Encrypt, Ocb.Decrypt, Ocb.Tag;
    var d := SealDatagram(c, nonce, plain);
    Ocb.RoundTrip(c, nonce, plain);
    assert d[4..] == Ocb.Encrypt(c, nonce, plain);
    assert d[1..4] == TagBytes(Ocb.Tag(c, nonce, plain));
  }

  /** In the window the nonce is rebuilt exactly, and the packet comes out unless it counts as a repeat. */
  lemma OneArrival(c: Ocb.Cipher, dir: Voice.Direction, cfg: Config, start: int, m: int, p: Voice.VoicePacket)
    requires c.Valid() && cfg.rx.Valid() && Inv(cfg, start) && Voice.WellFormed(dir, p)
    requires -29 <= m - cfg.trace.high <= 127
    ensures var d := SealDatagram(c, m % TWO_128, Voice.Encode(p));
            && |d| >= 4 && Attributed(cfg, d) == m
            && OutcomeOf(c, dir, cfg, d) ==
                 if m <= cfg.trace.high && cfg.rx.history[d[0]] == SecondByte(m) then Rejected(Repeat)
                 else Accepted(Voice.Ok(p))
  {
    hide SealDatagram, OpenDatagram, Voice.Encode, Voice.Decode, Gap, HistoryInv, CounterInv, Distinct, SecondByte, Moved;
    var plain := Voice.Encode(p);
    var d := SealDatagram(c, m % TWO_128, plain);
    OpenSealed(c, m % TWO_128, plain);
    WrapKeepsLowBytes(m);
    GapOfHigh(cfg, d[0]);
    GapIsUnique(cfg.trace.high, d[0], m - cfg.trace.high);
    Voice.RoundTrip(dir, p);
  }

  // ----- Whole deliveries -----

  lemma {:induction false} WindowRun(
    c: Ocb.Cipher, dir: Voice.Direction, start: u128, base: int, ps: seq<Voice.VoicePacket>, js: seq<nat>, k: nat)
    requires c.Valid() && k <= |js|
    requires forall i :: 0 <= i < |ps| ==> Voice.WellFormed(dir, ps[i])
    requires forall i :: 0 <= i < |js| ==> js[i] < |ps|
    requires InWindow(c, dir, start, base, ps, js)
    ensures Inv(Before(c, dir, start, Arrivals(c, base, ps, js), k), start)
  {
    hide Inv, Step, OutcomeOf, SealDatagram, Voice.WellFormed, Voice.Encode, Start;
    var ds := Arrivals(c, base, ps, js);
    if k == 0 {
      StartInv(start);
    } else {
      WindowRun(c, dir, start, base, ps, js, k - 1);
      var cfg := Before(c, dir, start, ds, k - 1);
      OneArrival(c, dir, cfg, start, SentNonce(base, js[k - 1]), ps[js[k - 1]]);
      StepKeepsInv(c, dir, cfg, start, ds[k - 1]);
      assert ds[..k][..k - 1] == ds[..k - 1];
    }
  }

  /** The `k`-th arrival: the sent packet or a repeat, and never a repeat when it is ahead of the receiver. */
  lemma ArrivalOutcome(
    c: Ocb.Cipher, dir: Voice.Direction, start: u128, base: int, ps: seq<Voice.VoicePacket>, js: seq<nat>, k: nat)
    requires c.Valid() && k < |js|
    requires forall i :: 0 <= i < |ps| ==> Voice.WellFormed(dir, ps[i])
    requires forall i :: 0 <= i < |js| ==> js[i] < |ps|
    requires InWindow(c, dir, start, base, ps, js)
    ensures var ds := Arrivals(c, base, ps, js);
            var cfg := Before(c, dir, start, ds, k);
            var outcome := OutcomeOf(c, dir, cfg, ds[k]);
            && |ds[k]| >= 4 && Attributed(cfg, ds[k]) == SentNonce(base, js[k])
            && (outcome == Accepted(Voice.Ok(ps[js[k]])) || outcome == Rejected(Repeat))
            && (SentNonce(base, js[k]) > cfg.trace.high ==> outcome == Accepted(Voice.Ok(ps[js[k]])))
  {
    hide Inv, Step, OutcomeOf, SealDatagram, Voice.WellFormed, Voice.Encode, Run;
    WindowRun(c, dir, start, base, ps, js, k);
    OneArrival(c, dir, Before(c, dir, start, Arrivals(c, base, ps, js), k), start, SentNonce(base, js[k]), ps[js[k]]);
  }

  /** Nonces once accepted stay recorded. */
  lemma {:induction false} AcceptedStays(c: Ocb.Cipher, dir: Voice.Direction, start: u128, ds: seq<seq<byte>>, i: nat, k: nat)
    requires i < k <= |ds| && OutcomeOf(c, dir, Before(c, dir, start, ds, i), ds[i]).Accepted?
    ensures |ds[i]| >= 4
    ensures Attributed(Before(c, dir, start, ds, i), ds[i]) in Before(c, dir, start, ds, k).trace.accepted
    decreases k
  {
    hide OpenDatagram, Voice.Decode, Gap, SecondByte, Moved;
    assert ds[..k][..k - 1] == ds[..k - 1];
    if i < k - 1 {
      AcceptedStays(c, dir, start, ds, i, k - 1);
    }
  }

  /**
   * Exactly-once output: among the arrivals that produce a packet no two carry the same one, however
   * often and in whatever order the channel repeats them.
   */
  lemma OutputOnce(
    c: Ocb.Cipher, dir: Voice.Direction, start: u128, base: int, ps: seq<Voice.VoicePacket>, js: seq<nat>, i: nat, k: nat)
    requires c.Valid() && i < k < |js|
    requires forall i :: 0 <= i < |ps| ==> Voice.WellFormed(dir, ps[i])
    requires forall i :: 0 <= i < |js| ==> js[i] < |ps|
    requires InWindow(c, dir, start, base, ps, js)
    requires var ds := Arrivals(c, base, ps, js);
             && OutcomeOf(c, dir, Before(c, dir, start, ds, i), ds[i]).Accepted?
             && OutcomeOf(c, dir, Before(c, dir, start, ds, k), ds[k]).Accepted?
    ensures js[i] != js[k]
  {
    hide Inv, Step, OutcomeOf, SealDatagram, InWindow, Voice.WellFormed, Voice.Encode, Run;
    var ds := Arrivals(c, base, ps, js);
    ArrivalOutcome(c, dir, start, base, ps, js, i);
    ArrivalOutcome(c, dir, start, base, ps, js, k);
    AcceptedStays(c, dir, start, ds, i, k);
    WindowRun(c, dir, start, base, ps, js, k);
    AcceptedIsNew(c, dir, Before(c, dir, start, ds, k), start, ds[k]);
  }

  lemma AcceptedIsNew(c: Ocb.Cipher, dir: Voice.Direction, cfg: Config, start: int, d: seq<byte>)
    requires cfg.rx.Valid() && Inv(cfg, start) && OutcomeOf(c, dir, cfg, d).Accepted?
    ensures |d| >= 4 && Attributed(cfg, d) !in cfg.trace.accepted
  {
    hide Step, OutcomeOf, HistoryInv, CounterInv, SecondByte;
    AcceptedStep(c, dir, cfg, d);
    NewNonce(cfg, Attributed(cfg, d));
  }
}
