/** The outbound half of the audio codec task: microphone buffers of any size, cut into frames of 960 samples. */
module Reframer {
  import opened Bytes

  type Sample = real

  const CAPACITY: nat := 48_000 * 2
  const FRAME: nat := 48_000 / 50

  // ----- The stream and its frames -----

  function Frames(s: seq<Sample>): seq<seq<Sample>>
    decreases |s|
  {
    if |s| < FRAME then [] else [s[..FRAME]] + Frames(s[FRAME..])
  }

  function Leftover(s: seq<Sample>): (r: seq<Sample>)
    ensures |r| < FRAME
    decreases |s|
  {
    if |s| < FRAME then s else Leftover(s[FRAME..])
  }

  function Joined(frames: seq<seq<Sample>>): seq<Sample> {
    if frames == [] then [] else frames[0] + Joined(frames[1..])
  }

  lemma FirstFrame(s: seq<Sample>)
    requires |s| >= FRAME
    ensures Frames(s) == [s[..FRAME]] + Frames(s[FRAME..]) && Leftover(s) == Leftover(s[FRAME..])
  {}

  lemma Reassembled(s: seq<Sample>, body: seq<Sample>, rest: seq<Sample>)
    requires |s| >= FRAME && body + rest == s[FRAME..]
    ensures s[..FRAME] + body + rest == s
  {
    Regroup(s[..FRAME], body, rest);
  }

  lemma JoinedStep(head: seq<Sample>, rest: seq<seq<Sample>>)
    ensures Joined([head] + rest) == head + Joined(rest)
  {
    assert ([head] + rest)[1..] == rest;
  }

  lemma OneFrameLess(n: nat)
    requires n >= FRAME
    ensures (n - FRAME) % FRAME == n % FRAME && (n - FRAME) / FRAME == n / FRAME - 1
  {
    QuotientOf(n - FRAME, n / FRAME - 1, n % FRAME);
  }

  /** Quotient and remainder are determined by `n == FRAME * q + r`. */
  lemma QuotientOf(n: nat, q: int, r: nat)
    requires n == FRAME * q + r && r < FRAME
    ensures n / FRAME == q && n % FRAME == r
  {
    assert FRAME * (n / FRAME - q) == r - n % FRAME;
  }

  lemma {:induction false} FrameLengths(s: seq<Sample>)
    ensures forall i :: 0 <= i < |Frames(s)| ==> |Frames(s)[i]| == FRAME
    ensures |Leftover(s)| == |s| % FRAME && |Frames(s)| == |s| / FRAME
    decreases |s|
  {
    if |s| >= FRAME {
      OneFrameLess(|s|);
      FrameLengths(s[FRAME..]);
    }
  }

  /** Cutting up a stream loses nothing. */
  lemma {:induction false} FramesCover(s: seq<Sample>)
    ensures Joined(Frames(s)) + Leftover(s) == s
    decreases |s|
  {
    if |s| >= FRAME {
      hide Frames, Leftover, Joined;
      var head, tail := s[..FRAME], s[FRAME..];
      FirstFrame(s);
      FramesCover(tail);
      JoinedStep(head, Frames(tail));
      Reassembled(s, Joined(Frames(tail)), Leftover(tail));
    }
  }

  /** The frames of a longer stream are the frames so far, and then those of what was left over with what follows. */
  lemma {:induction false} FramesExtend(s: seq<Sample>, t: seq<Sample>)
    ensures Frames(s + t) == Frames(s) + Frames(Leftover(s) + t)
    ensures Leftover(s + t) == Leftover(Leftover(s) + t)
    decreases |s|
  {
    if |s| >= FRAME {
      hide Frames, Leftover;
      FirstFrame(s);
      FirstFrame(s + t);
      assert (s + t)[..FRAME] == s[..FRAME] && (s + t)[FRAME..] == s[FRAME..] + t;
      FramesExtend(s[FRAME..], t);
      Regroup([s[..FRAME]], Frames(s[FRAME..]), Frames(Leftover(s) + t));
    } else {
      assert [] + Frames(s + t) == Frames(s + t);
    }
  }

  // ----- The task -----

  /** The ring's contents, the frames sent so far, and how many more the connection takes before it stops. */
  datatype State = State(ring: seq<Sample>, sent: seq<seq<Sample>>, quota: nat)

  function Min(a: int, b: int): int {
    if a < b then a else b
  }

  /** The part of a buffer that fits into the ring; the rest is dropped. */
  function Fitting(ring: seq<Sample>, buffer: seq<Sample>): seq<Sample>
    requires |ring| <= CAPACITY
  {
    buffer[..Min(|buffer|, CAPACITY - |ring|)]
  }

  /** One frame popped and sent. */
  function SendOne(st: State): State
    requires |st.ring| >= FRAME && st.quota > 0
  {
    State(st.ring[FRAME..], st.sent + [st.ring[..FRAME]], st.quota - 1)
  }

  /** Pops frames and sends them; a refused frame is gone and ends the round. */
  function Pump(st: State): (r: State)
    ensures |r.ring| <= |st.ring|
    decreases |st.ring|
  {
    if |st.ring| < FRAME then st
    else if st.quota == 0 then st.(ring := st.ring[FRAME..])
    else Pump(SendOne(st))
  }

  function Step(st: State, buffer: seq<Sample>): (r: State)
    requires |st.ring| <= CAPACITY
    ensures |r.ring| <= CAPACITY
  {
    Pump(st.(ring := st.ring + Fitting(st.ring, buffer)))
  }

  function Run(quota: nat, buffers: seq<seq<Sample>>): (r: State)
    ensures |r.ring| <= CAPACITY
  {
    if buffers == [] then State([], [], quota)
    else Step(Run(quota, buffers[..|buffers| - 1]), buffers[|buffers| - 1])
  }

  function Total(buffers: seq<seq<Sample>>): seq<Sample> {
    if buffers == [] then [] else Total(buffers[..|buffers| - 1]) + buffers[|buffers| - 1]
  }

  // ----- Frames out are the stream in -----

  /** A buffer finds room beside what earlier buffers leave in the ring. */
  predicate Fits(earlier: seq<seq<Sample>>, buffer: seq<Sample>) {
    |Total(earlier)| % FRAME + |buffer| <= CAPACITY
  }

  ghost predicate AllFit(buffers: seq<seq<Sample>>) {
    forall k :: 0 <= k < |buffers| ==> Fits(buffers[..k], buffers[k])
  }

  lemma {:induction false} PumpSends(st: State)
    ensures var n := Min(st.quota, |Frames(st.ring)|);
            && n <= |Frames(st.ring)|
            && Pump(st).sent == st.sent + Frames(st.ring)[..n]
            && Pump(st).quota == st.quota - n
            && (st.quota >= |Frames(st.ring)| ==> Pump(st).ring == Leftover(st.ring))
    decreases |st.ring|
  {
    if |st.ring| < FRAME {
      assert st.sent + [] == st.sent;
    } else if st.quota == 0 {
      assert st.sent + [] == st.sent;
    } else {
      var head := st.ring[..FRAME];
      var next := SendOne(st);
      PumpSends(next);
      var f := Frames(next.ring);
      var n := Min(next.quota, |f|);
      assert ([head] + f)[..n + 1] == [head] + f[..n];
      Regroup(st.sent, [head], f[..n]);
    }
  }

  /** What the task makes of a stream: its leading frames sent, up to the connection's end, and its rest in the ring. */
  ghost predicate Matches(quota: nat, stream: seq<Sample>, st: State) {
    var all := Frames(stream);
    && st.sent == all[..Min(quota, |all|)]
    && st.quota == quota - Min(quota, |all|)
    && (quota >= |all| ==> st.ring == Leftover(stream))
  }

  /** The part of a buffer that finds room beside what a stream leaves in the ring. */
  function Room(stream: seq<Sample>, buffer: seq<Sample>): seq<Sample> {
    buffer[..Min(|buffer|, CAPACITY - |stream| % FRAME)]
  }

  /** The stream that gets through: of every buffer the leading samples that find room; what does not is dropped. */
  function Kept(buffers: seq<seq<Sample>>): seq<Sample> {
    if buffers == [] then []
    else
      var before := Kept(buffers[..|buffers| - 1]);
      before + Room(before, buffers[|buffers| - 1])
  }

  /** For any buffers, fitting or not: what is sent and held is the stream that gets through, cut into frames. */
  lemma {:induction false} KeptFrames(quota: nat, buffers: seq<seq<Sample>>)
    ensures Matches(quota, Kept(buffers), Run(quota, buffers))
    decreases |buffers|
  {
    if buffers != [] {
      var front, buffer := buffers[..|buffers| - 1], buffers[|buffers| - 1];
      hide Frames, Leftover, Pump, Matches, Room;
      KeptFrames(quota, front);
      SentStep(quota, Kept(front), Run(quota, front), buffer);
    }
  }

  lemma SentStep(quota: nat, stream: seq<Sample>, st: State, buffer: seq<Sample>)
    requires Matches(quota, stream, st) && |st.ring| <= CAPACITY
    ensures Matches(quota, stream + Room(stream, buffer), Step(st, buffer))
  {
    hide Frames, Leftover, Pump;
    var part := Room(stream, buffer);
    FrameLengths(stream);
    FramesExtend(stream, part);
    var pushed := st.(ring := st.ring + Fitting(st.ring, buffer));
    PumpSends(pushed);
    var before, added := Frames(stream), Frames(Leftover(stream) + part);
    PrefixOfSum(before, added, quota);
    if quota >= |before| {
      assert pushed.ring == Leftover(stream) + part;
    } else {
      assert st.sent + [] == st.sent;
    }
  }

  lemma {:induction false} KeptIsTotal(buffers: seq<seq<Sample>>)
    requires AllFit(buffers)
    ensures Kept(buffers) == Total(buffers)
  {
    if buffers != [] {
      var k := |buffers| - 1;
      var front, buffer := buffers[..k], buffers[k];
      assert Fits(front, buffer);
      FrontFits(buffers);
      KeptIsTotal(front);
      assert buffer[..|buffer|] == buffer;
    }
  }

  /** As long as every buffer fits, exactly the leading frames of the stream are sent, up to the connection's end. */
  lemma SentFrames(quota: nat, buffers: seq<seq<Sample>>)
    requires AllFit(buffers)
    ensures var all := Frames(Total(buffers));
            var st := Run(quota, buffers);
            && st.sent == all[..Min(quota, |all|)]
            && st.quota == quota - Min(quota, |all|)
            && (quota >= |all| ==> st.ring == Leftover(Total(buffers)))
  {
    hide Frames, Leftover, Run, AllFit, Kept, Total;
    KeptFrames(quota, buffers);
    KeptIsTotal(buffers);
  }

  lemma FrontFits(buffers: seq<seq<Sample>>)
    requires buffers != [] && AllFit(buffers)
    ensures AllFit(buffers[..|buffers| - 1])
  {
    var front := buffers[..|buffers| - 1];
    forall i | 0 <= i < |front|
      ensures Fits(front[..i], front[i])
    {
      assert front[..i] == buffers[..i];
      assert Fits(buffers[..i], buffers[i]);
    }
  }

  lemma PrefixOfSum(a: seq<seq<Sample>>, b: seq<seq<Sample>>, n: nat)
    ensures n >= |a| ==> (a + b)[..Min(n, |a + b|)] == a[..|a|] + b[..Min(n - |a|, |b|)]
    ensures n < |a| ==> (a + b)[..n] == a[..n]
  {}

  lemma EnoughQuota(quota: nat, n: nat)
    requires n < FRAME * (quota + 1)
    ensures n / FRAME <= quota
  {
    assert n == FRAME * (n / FRAME) + n % FRAME;
  }

  /** With a connection that lasts and buffers that fit, frames sent and ring contents together are the whole input. */
  lemma NothingLost(quota: nat, buffers: seq<seq<Sample>>)
    requires AllFit(buffers) && |Total(buffers)| < FRAME * (quota + 1)
    ensures var st := Run(quota, buffers);
            && Joined(st.sent) + st.ring == Total(buffers)
            && |st.ring| < 960
            && forall i :: 0 <= i < |st.sent| ==> |st.sent[i]| == 960
  {
    hide Run, Frames, Leftover, AllFit;
    SentFrames(quota, buffers);
    FramesCover(Total(buffers));
    FrameLengths(Total(buffers));
    EnoughQuota(quota, |Total(buffers)|);
    var all := Frames(Total(buffers));
    assert all[..|all|] == all;
  }

  /** Buffers of at most 95041 samples always fit. */
  lemma SmallBuffersFit(buffers: seq<seq<Sample>>)
    requires forall k :: 0 <= k < |buffers| ==> |buffers[k]| <= 95041
    ensures AllFit(buffers)
  {}

  /** One sample more need not fit: behind 959 waiting samples it is dropped. */
  lemma LargerMayNotFit(first: seq<Sample>, second: seq<Sample>)
    requires |first| == 959 && |second| == 95042
    ensures !AllFit([first, second]) && Kept([first, second]) == first + second[..95041]
  {
    var both := [first, second];
    assert both[..0] == [] && both[..1] == [first] && [first][..0] == [];
    assert Total([first]) == [] + first == first && Kept([first]) == first;
    assert !Fits(both[..1], both[1]);
  }

  lemma {:induction false} PumpLength(st: State)
    ensures |Joined(Pump(st).sent)| + |Pump(st).ring| <= |Joined(st.sent)| + |st.ring|
    decreases |st.ring|
  {
    if |st.ring| >= FRAME && st.quota > 0 {
      JoinedPush(st.sent, st.ring[..FRAME]);
      PumpLength(SendOne(st));
    }
  }

  lemma {:induction false} JoinedPush(frames: seq<seq<Sample>>, f: seq<Sample>)
    ensures Joined(frames + [f]) == Joined(frames) + f
  {
    if frames == [] {
      assert [f][1..] == [] && frames + [f] == [f];
    } else {
      JoinedPush(frames[1..], f);
      assert (frames + [f])[1..] == frames[1..] + [f];
    }
  }

  lemma FitsOrNot(buffers: seq<seq<Sample>>)
    requires buffers != [] && AllFit(buffers[..|buffers| - 1]) && Fits(buffers[..|buffers| - 1], buffers[|buffers| - 1])
    ensures AllFit(buffers)
  {
    var k := |buffers| - 1;
    var front := buffers[..k];
    forall i | 0 <= i < |buffers|
      ensures Fits(buffers[..i], buffers[i])
    {
      if i < k {
        assert front[..i] == buffers[..i] && Fits(front[..i], front[i]);
      }
    }
  }

  lemma FirstLoss(quota: nat, front: seq<seq<Sample>>, buffer: seq<Sample>)
    requires AllFit(front) && !Fits(front, buffer) && |Total(front)| < FRAME * (quota + 1)
    ensures var st := Run(quota, front);
            |Joined(st.sent)| + |st.ring + Fitting(st.ring, buffer)| < |Total(front)| + |buffer|
  {
    hide Pump, Frames, Leftover, AllFit, Run, Joined, Total;
    NothingLost(quota, front);
    SentFrames(quota, front);
    FrameLengths(Total(front));
    EnoughQuota(quota, |Total(front)|);
  }

  /** The first buffer that does not fit makes the output shorter, and nothing later makes up for it. */
  lemma {:induction false} LossIsPermanent(quota: nat, buffers: seq<seq<Sample>>)
    requires !AllFit(buffers) && |Total(buffers)| < FRAME * (quota + 1)
    ensures var st := Run(quota, buffers);
            |Joined(st.sent)| + |st.ring| < |Total(buffers)|
    decreases |buffers|
  {
    var k := |buffers| - 1;
    var front, buffer := buffers[..k], buffers[k];
    assert |Total(front)| <= |Total(buffers)|;
    var st := Run(quota, front);
    hide Pump, Frames, Leftover, AllFit;
    PumpLength(st.(ring := st.ring + Fitting(st.ring, buffer)));
    hide Joined;
    if AllFit(front) {
      if Fits(front, buffer) {
        FitsOrNot(buffers);
        assert false;
      }
      FirstLoss(quota, front, buffer);
    } else {
      LossIsPermanent(quota, front);
    }
  }

  // ----- A connection that ends -----

  lemma SendOneLength(st: State)
    requires |st.ring| >= FRAME && st.quota > 0
    ensures var next := SendOne(st);
            |next.ring| == |st.ring| - FRAME && |Joined(next.sent)| == |Joined(st.sent)| + FRAME && next.quota == st.quota - 1
  {
    hide Joined;
    JoinedPush(st.sent, st.ring[..FRAME]);
  }

  /** What was sent and what may still be sent add up to the quota. */
  lemma {:induction false} PumpQuota(st: State)
    ensures |Joined(Pump(st).sent)| + FRAME * Pump(st).quota == |Joined(st.sent)| + FRAME * st.quota
    decreases |st.ring|
  {
    hide Joined, SendOne;
    if |st.ring| >= FRAME && st.quota > 0 {
      SendOneLength(st);
      PumpQuota(SendOne(st));
    }
  }

  /** A round that loses nothing was refused nothing, so it ends with less than a frame in the ring. */
  lemma {:induction false} LosslessPump(st: State)
    requires |Joined(Pump(st).sent)| + |Pump(st).ring| >= |Joined(st.sent)| + |st.ring|
    ensures |Pump(st).ring| < FRAME
    decreases |st.ring|
  {
    hide Joined, SendOne;
    if |st.ring| >= FRAME && st.quota > 0 {
      SendOneLength(st);
      LosslessPump(SendOne(st));
    }
  }

  /** No run holds more than its input, and one that holds as much has less than a frame in the ring. */
  lemma {:induction false} RunLength(quota: nat, buffers: seq<seq<Sample>>)
    ensures var st := Run(quota, buffers);
            && |Joined(st.sent)| + |st.ring| <= |Total(buffers)|
            && (|Joined(st.sent)| + |st.ring| == |Total(buffers)| ==> |st.ring| < FRAME)
            && |Joined(st.sent)| + FRAME * st.quota == FRAME * quota
    decreases |buffers|
  {
    if buffers != [] {
      var k := |buffers| - 1;
      var front, buffer := buffers[..k], buffers[k];
      var st := Run(quota, front);
      var pushed := st.(ring := st.ring + Fitting(st.ring, buffer));
      RunLength(quota, front);
      hide Pump, Joined;
      PumpLength(pushed);
      PumpQuota(pushed);
      if |Joined(Pump(pushed).sent)| + |Pump(pushed).ring| == |Total(buffers)| {
        LosslessPump(pushed);
      }
    }
  }

  /** More full frames than the connection takes: one was refused, and is gone. */
  lemma RefusedIsLost(quota: nat, buffers: seq<seq<Sample>>)
    requires |Total(buffers)| >= FRAME * (quota + 1)
    ensures Joined(Run(quota, buffers).sent) + Run(quota, buffers).ring != Total(buffers)
  {
    hide Run, Joined, Total;
    RunLength(quota, buffers);
  }

  /**
   * Frames sent and ring contents together are the whole input exactly when every buffer fits beside the fewer than
   * 960 samples that are waiting for it and the connection takes every full frame.
   */
  lemma NothingLostExactly(quota: nat, buffers: seq<seq<Sample>>)
    ensures Joined(Run(quota, buffers).sent) + Run(quota, buffers).ring == Total(buffers)
       <==> AllFit(buffers) && |Total(buffers)| < 960 * (quota + 1)
  {
    hide Run, AllFit, Joined, Total;
    if |Total(buffers)| >= FRAME * (quota + 1) {
      RefusedIsLost(quota, buffers);
    } else if AllFit(buffers) {
      NothingLost(quota, buffers);
    } else {
      LossIsPermanent(quota, buffers);
    }
  }

  // ----- The loop -----

  class Microphone {
    var ring: seq<Sample>
    var sent: seq<seq<Sample>>
    var quota: nat

    ghost predicate Valid()
      reads this
    {
      |ring| <= CAPACITY
    }

    ghost function View(): State
      reads this
    {
      State(ring, sent, quota)
    }

    constructor (quota: nat)
      ensures Valid() && View() == Run(quota, [])
    {
      this.ring, this.sent, this.quota := [], [], quota;
    }

    /** Hands a frame to the connection, which refuses it once it has stopped. */
    method Send(frame: seq<Sample>) returns (ok: bool)
      modifies this`sent, this`quota
      ensures ok <==> old(quota) > 0
      ensures View() == if ok then old(View()).(sent := old(sent) + [frame], quota := old(quota) - 1) else old(View())
    {
      if quota == 0 {
        return false;
      }
      sent := sent + [frame];
      quota := quota - 1;
      ok := true;
    }

    /** One buffer from the microphone. */
    method Outbound(buffer: seq<Sample>)
      requires Valid()
      modifies this
      ensures Valid() && View() == Step(old(View()), buffer)
    {
      ring := ring + Fitting(ring, buffer);
      while |ring| >= FRAME
        invariant |ring| <= CAPACITY
        invariant Pump(View()) == Step(old(View()), buffer)
        decreases |ring|
      {
        var b := ring[..FRAME];
        ring := ring[FRAME..];
        var ok := Send(b);
        if !ok {
          break;
        }
      }
    }
  }
}
