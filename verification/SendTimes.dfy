/**
  Absolute send times (api/rtp_headers.h): 24-bit timestamps with 18 fractional bits of a second. A true
  send time is any integer number of ticks; the header carries it wrapped.
 */
module SendTimes {
  const TWO8 := 256
  const TWO18 := 262144
  const TWO23 := 8388608
  const TWO24 := 16777216
  const TWO31 := 2147483648
  const TWO32 := 4294967296

  /** The 24 bits that a header carries. */
  function Wrap(time: int): (w: nat)
    ensures w < TWO24 && (time - w) % TWO24 == 0
  {
    time % TWO24
  }

  // ----- the machine arithmetic ---------------------------------------------------------------------

  function Uint32(x: int): nat { x % TWO32 }

  function Int32(x: nat): int
    requires x < TWO32
  {
    if x < TWO31 then x else x - TWO32
  }

  /** Division that drops the fraction, as the machine does it. */
  function Truncated(x: int, d: int): int
    requires d > 0
  {
    if x >= 0 then x / d else -(-x / d)
  }

  /** The difference in unsigned 32-bit arithmetic, shifted left by 8 and arithmetically back. */
  function Ticks(sent: nat, previous: nat): int
    requires sent < TWO24 && previous < TWO24
  {
    Int32(Uint32(Uint32(sent - previous) * TWO8)) / TWO8
  }

  /** In microseconds. */
  function Micros(ticks: int): int { Truncated(ticks * 1000000, TWO18) }

  function SendTimeDelta(sent: nat, previous: nat): int
    requires sent < TWO24 && previous < TWO24
  {
    Micros(Ticks(sent, previous))
  }

  // ----- one delta ----------------------------------------------------------------------------------------

  /** The shifts sign-extend the 24-bit difference. */
  lemma TicksRange(sent: nat, previous: nat)
    requires sent < TWO24 && previous < TWO24
    ensures -TWO23 <= Ticks(sent, previous) < TWO23
    ensures Ticks(sent, previous) == sent - previous || Ticks(sent, previous) == sent - previous - TWO24
         || Ticks(sent, previous) == sent - previous + TWO24
  {
    var d := sent - previous;
    assert Uint32(d) == if d >= 0 then d else d + TWO32;
    if d >= 0 {
      ShiftedUp(d, 0, d);
    } else {
      ShiftedUp(d + TWO32, 255, d + TWO24);
    }
  }

  /** Shifting left by 8 drops the top 8 bits. */
  lemma ShiftedUp(x: nat, top: nat, low: nat)
    requires x == top * TWO24 + low && low < TWO24
    ensures Uint32(x * TWO8) == low * TWO8
  {
    assert x * TWO8 == top * TWO32 + low * TWO8;
  }

  /** The delta of two wrapped times is right up to a whole number of wraps, and right exactly when the
      true gap fits in 24 signed bits. */
  lemma TicksExactIff(time: int, previous: int)
    ensures (time - previous - Ticks(Wrap(time), Wrap(previous))) % TWO24 == 0
    ensures Ticks(Wrap(time), Wrap(previous)) == time - previous <==> -TWO23 <= time - previous < TWO23
  {
    TicksRange(Wrap(time), Wrap(previous));
    var a, b := time / TWO24, previous / TWO24;
    assert time == a * TWO24 + Wrap(time) && previous == b * TWO24 + Wrap(previous);
    var t := Ticks(Wrap(time), Wrap(previous));
    var k := if t == Wrap(time) - Wrap(previous) then a - b
             else if t == Wrap(time) - Wrap(previous) - TWO24 then a - b + 1 else a - b - 1;
    assert time - previous - t == k * TWO24;
  }

  // ----- any number of packets --------------------------------------------------------------------------

  /** The sum of the deltas a receiver computes for packets sent at these true times. */
  function SumTicks(times: seq<int>): int {
    if |times| < 2 then 0
    else SumTicks(times[..|times| - 1]) + Ticks(Wrap(times[|times| - 1]), Wrap(times[|times| - 2]))
  }

  function SumMicros(times: seq<int>): int {
    if |times| < 2 then 0
    else SumMicros(times[..|times| - 1]) + SendTimeDelta(Wrap(times[|times| - 1]), Wrap(times[|times| - 2]))
  }

  function Elapsed(times: seq<int>): int
    requires |times| > 0
  {
    times[|times| - 1] - times[0]
  }

  predicate GapFits(times: seq<int>, i: nat)
    requires i + 1 < |times|
  {
    -TWO23 <= times[i + 1] - times[i] < TWO23
  }

  predicate GapsFit(times: seq<int>) { forall i: nat :: i + 1 < |times| ==> GapFits(times, i) }

  lemma GapsFitStep(times: seq<int>)
    requires |times| > 1
    ensures GapsFit(times) <==> GapsFit(times[..|times| - 1]) && GapFits(times, |times| - 2)
  {
    var init := times[..|times| - 1];
    if GapsFit(times) {
      forall i: nat | i + 1 < |init| ensures GapFits(init, i) {
        assert GapFits(times, i);
      }
    }
    if GapsFit(init) && GapFits(times, |times| - 2) {
      forall i: nat | i + 1 < |times| ensures GapFits(times, i) {
        assert i + 1 < |init| ==> GapFits(init, i);
      }
    }
  }

  /** However many packets and wraps, the deltas add up to the elapsed ticks. */
  lemma {:induction false} TicksAddUp(times: seq<int>)
    requires |times| > 0 && GapsFit(times)
    ensures SumTicks(times) == Elapsed(times)
  {
    if |times| <= 1 {
    } else {
      GapsFitStep(times);
      TicksAddUp(times[..|times| - 1]);
      assert GapFits(times, |times| - 2);
      TicksExactIff(times[|times| - 1], times[|times| - 2]);
    }
  }

  /** For times that never go back by more than half a wrap they never add up to more, and they add up to
      the elapsed ticks only if every gap fits. */
  lemma {:induction false} TicksAddUpIff(times: seq<int>)
    requires |times| > 0
    requires forall i: nat :: i + 1 < |times| ==> times[i + 1] - times[i] >= -TWO23
    ensures SumTicks(times) <= Elapsed(times)
    ensures SumTicks(times) == Elapsed(times) <==> GapsFit(times)
  {
    if |times| <= 1 {
    } else {
      GapsFitStep(times);
      TicksAddUpIff(times[..|times| - 1]);
      assert times[|times| - 2 + 1] - times[|times| - 2] >= -TWO23;
      TicksExactIff(times[|times| - 1], times[|times| - 2]);
      TicksRange(Wrap(times[|times| - 1]), Wrap(times[|times| - 2]));
    }
  }

  // ----- microseconds ---------------------------------------------------------------------------------------

  function Abs(x: int): nat { if x < 0 then -x else x }

  /** A tick is 15625/4096 microseconds, so a conversion is short by at most 4095/4096 of a microsecond,
      toward zero. */
  lemma MicrosError(ticks: int)
    ensures Abs(ticks * 1000000 - Micros(ticks) * TWO18) <= TWO18 - 64
  {
    var n := Abs(ticks);
    var q, r := n * 15625 / 4096, n * 15625 % 4096;
    assert n * 1000000 == q * TWO18 + r * 64;
    assert n * 1000000 / TWO18 == q;
  }

  /** Summed over packets, the microseconds are off by less than one for each packet after the first. */
  lemma {:induction false} MicrosAddUp(times: seq<int>)
    requires |times| > 0 && GapsFit(times)
    ensures Abs(Elapsed(times) * 1000000 - SumMicros(times) * TWO18) <= (|times| - 1) * (TWO18 - 64)
  {
    if |times| <= 1 {
    } else {
      GapsFitStep(times);
      MicrosAddUp(times[..|times| - 1]);
      assert GapFits(times, |times| - 2);
      TicksExactIff(times[|times| - 1], times[|times| - 2]);
      MicrosError(times[|times| - 1] - times[|times| - 2]);
    }
  }

  /** Packets sent every 3783 ticks. */
  function Regular(n: nat): (times: seq<int>)
    ensures |times| == n + 1 && times[0] == 0 && times[n] == 3783 * n
  {
    if n == 0 then [0] else Regular(n - 1) + [3783 * n]
  }

  /** The bound is reached, for any number of packets. */
  lemma {:induction false} MicrosBoundIsTight(n: nat)
    ensures GapsFit(Regular(n))
    ensures Elapsed(Regular(n)) * 1000000 - SumMicros(Regular(n)) * TWO18 == n * (TWO18 - 64)
  {
    if n == 0 {
    } else {
      MicrosBoundIsTight(n - 1);
      var times := Regular(n);
      assert times[..n] == Regular(n - 1);
      GapsFitStep(times);
      TicksExactIff(3783 * n, 3783 * (n - 1));
      assert Micros(3783) == 14430;
    }
  }
}
