/**
  The audio level meter (audio/audio_level.cc) with the sample maximum it is fed
  (common_audio/signal_processing/min_max_operations.c). The totals are real numbers: rounding is not the
  point here.
 */
module AudioLevels {

  const INT16_MAX := 32767
  const UPDATE_FREQUENCY := 10

  type Sample = x: int | -32768 <= x <= 32767
  type Level = x: nat | x <= INT16_MAX

  datatype Frame = Frame(muted: bool, samples: seq<Sample>)

  /** The fields under the lock. */
  datatype Meter = Meter(absMax: Level, count: nat, level: Level, energy: real, duration: real)

  const NEW := Meter(0, 0, 0, 0.0, 0.0)

  function Abs(x: int): nat { if x < 0 then -x else x }
  function Max(a: nat, b: nat): nat { if a < b then b else a }

  /** The largest absolute sample; the one value that does not fit, 32768, is cut to 32767. */
  function MaxAbs(samples: seq<Sample>): Level
  {
    if samples == [] then 0
    else
      var last := samples[|samples| - 1];
      Max(MaxAbs(samples[..|samples| - 1]), if last == -32768 then INT16_MAX else Abs(last))
  }

  function Peak(f: Frame): Level { if f.muted then 0 else MaxAbs(f.samples) }

  /** The share of full scale. */
  function Share(level: Level): real { level as real / INT16_MAX as real }

  /** The energy a frame adds. */
  function Energy(share: real, duration: real): real { share * share * duration }

  /** `ComputeLevel` on the frame's peak. */
  function Compute(m: Meter, peak: Level, duration: real): Meter
  {
    var absMax: Level := Max(m.absMax, peak);
    var due := m.count == UPDATE_FREQUENCY;
    var level := if due then absMax else m.level;
    Meter(if due then absMax / 4 else absMax, if due then 0 else m.count + 1, level,
          m.energy + Energy(Share(level), duration), m.duration + duration)
  }

  /** What holds of every meter there can be: the counter stays in its window, and a meter at the start of
      a window has just been reset or has just divided its maximum by 4. */
  predicate Settled(m: Meter) { m.count <= UPDATE_FREQUENCY && (m.count == 0 ==> m.absMax <= INT16_MAX / 4) }

  // ----- the class ----------------------------------------------------------------------------

  method MaxAbsValueW16(samples: seq<Sample>) returns (maximum: Level)
    ensures maximum == MaxAbs(samples)
    ensures forall i :: 0 <= i < |samples| ==> Abs(samples[i]) <= maximum || samples[i] == -32768
    ensures maximum == 0 || maximum == INT16_MAX || exists i :: 0 <= i < |samples| && Abs(samples[i]) == maximum
  {
    var max := 0;
    for i := 0 to |samples|
      invariant max <= 32768
      invariant MaxAbs(samples[..i]) == if max > INT16_MAX then INT16_MAX else max
      invariant forall j :: 0 <= j < i ==> Abs(samples[j]) <= max
      invariant max == 0 || exists j :: 0 <= j < i && Abs(samples[j]) == max
    {
      assert samples[..i + 1][..i] == samples[..i];
      var absolute := Abs(samples[i]);
      if absolute > max {
        max := absolute;
      }
    }
    assert samples[..|samples|] == samples;
    if max > INT16_MAX {
      max := INT16_MAX;
    }
    maximum := max;
  }

  class AudioLevel {
    var absMax: Level
    var count: nat
    var currentLevelFullRange: Level
    var totalEnergy: real
    var totalDuration: real

    function State(): Meter
      reads this
    {
      Meter(absMax, count, currentLevelFullRange, totalEnergy, totalDuration)
    }

    constructor ()
      ensures State() == NEW && Settled(State())
    {
      absMax, count, currentLevelFullRange := 0, 0, 0;
      totalEnergy, totalDuration := 0.0, 0.0;
    }

    method Reset()
      modifies this
      ensures State() == NEW && Settled(State())
    {
      absMax, count, currentLevelFullRange := 0, 0, 0;
      totalEnergy, totalDuration := 0.0, 0.0;
    }

    method ResetLevelFullRange()
      modifies this
      ensures Settled(State())
      ensures State() == NEW.(energy := old(totalEnergy), duration := old(totalDuration))
    {
      absMax, count, currentLevelFullRange := 0, 0, 0;
    }

    method ComputeLevel(frame: Frame, duration: real)
      modifies this
      ensures State() == Compute(old(State()), Peak(frame), duration)
      ensures Settled(old(State())) ==> Settled(State())
    {
      var absValue: Level := 0;
      if !frame.muted {
        absValue := MaxAbsValueW16(frame.samples);
      }
      if absValue > absMax {
        absMax := absValue;
      }
      if count == UPDATE_FREQUENCY {
        currentLevelFullRange := absMax;
        count := 0;
        absMax := absMax / 4;
      } else {
        count := count + 1;
      }
      totalEnergy := totalEnergy + Energy(Share(currentLevelFullRange), duration);
      totalDuration := totalDuration + duration;
    }
  }

  // ----- runs ---------------------------------------------------------------------------------

  /** A frame as the meter sees it. */
  datatype Input = Input(peak: Level, duration: real)

  function Feed(m: Meter, inputs: seq<Input>): Meter
  {
    if inputs == [] then m
    else var last := inputs[|inputs| - 1]; Compute(Feed(m, inputs[..|inputs| - 1]), last.peak, last.duration)
  }

  lemma {:induction false} FeedConcat(m: Meter, a: seq<Input>, b: seq<Input>)
    ensures Feed(m, a + b) == Feed(Feed(m, a), b)
  {
    if b == [] {
      assert a + b == a;
    } else {
      assert (a + b)[..|a + b| - 1] == a + b[..|b| - 1];
      FeedConcat(m, a, b[..|b| - 1]);
    }
  }

  /** The largest peak of some inputs, at least `from`. */
  function Loudest(from: Level, inputs: seq<Input>): Level
  {
    if inputs == [] then from else Max(Loudest(from, inputs[..|inputs| - 1]), inputs[|inputs| - 1].peak)
  }

  /** Inside a window the level stands still while the maximum is collected. */
  lemma {:induction false} FeedInsideWindow(m: Meter, inputs: seq<Input>)
    requires m.count + |inputs| <= UPDATE_FREQUENCY
    ensures var r := Feed(m, inputs);
            r.absMax == Loudest(m.absMax, inputs) && r.count == m.count + |inputs| && r.level == m.level
  {
    if inputs == [] {
    } else {
      FeedInsideWindow(m, inputs[..|inputs| - 1]);
    }
  }

  /** The frame that completes a window publishes the maximum and keeps a quarter of it. */
  lemma FeedWindow(m: Meter, inputs: seq<Input>)
    requires m.count + |inputs| == UPDATE_FREQUENCY + 1 && inputs != []
    ensures var r := Feed(m, inputs);
            r.level == Loudest(m.absMax, inputs) && r.absMax == r.level / 4 && r.count == 0
  {
    FeedInsideWindow(m, inputs[..|inputs| - 1]);
  }

  /** The frame counter never leaves its window. */
  lemma {:induction false} CountStaysInWindow(m: Meter, inputs: seq<Input>)
    requires m.count <= UPDATE_FREQUENCY
    ensures Feed(m, inputs).count == (m.count + |inputs|) % 11
  {
    if inputs == [] {
    } else {
      CountStaysInWindow(m, inputs[..|inputs| - 1]);
      NextInWindow(m.count + |inputs| - 1);
    }
  }

  lemma NextInWindow(x: nat)
    ensures (x + 1) % 11 == if x % 11 == 10 then 0 else x % 11 + 1
  {
  }

  // ----- the closed form ------------------------------------------------------------------------

  function Pow4(n: nat): (p: nat)
    ensures p > 0
  {
    if n == 0 then 1 else 4 * Pow4(n - 1)
  }

  lemma DivDiv(x: nat, a: nat)
    requires a > 0
    ensures (x / a) / 4 == x / (4 * a)
  {
    var q := x / a;
    var r := x % a;
    var q2 := q / 4;
    var r2 := q % 4;
    assert x == a * q + r;
    assert q == 4 * q2 + r2;
    assert x == (4 * a) * q2 + (a * r2 + r) by {
      assert a * q == a * (4 * q2) + a * r2;
    }
    assert a * r2 <= a * 3;
    DivUnique(x, 4 * a, q2, a * r2 + r);
  }

  lemma DivUnique(x: nat, d: nat, q: nat, r: nat)
    requires d > 0 && x == d * q + r && r < d
    ensures x / d == q
  {
    var q' := x / d;
    assert d * q' + x % d == d * q + r;
    if q' > q {
      MulAtLeast(d, q' - q);
    } else if q > q' {
      MulAtLeast(d, q - q');
    }
  }

  lemma MulAtLeast(d: nat, k: nat)
    requires k >= 1
    ensures d * k >= d
  {
  }

  /** The decayed contribution of window `j` of `k` windows. */
  function Decayed(peaks: seq<Level>, j: nat): int
    requires j < |peaks|
  {
    peaks[j] / Pow4(|peaks| - 1 - j)
  }

  /** What the maximum is after some windows: the newest peak or a quarter of what was. */
  function Carried(peaks: seq<Level>): Level
  {
    if peaks == [] then 0 else Max(peaks[|peaks| - 1], Carried(peaks[..|peaks| - 1]) / 4)
  }

  lemma DecayStep(peaks: seq<Level>, j: nat)
    requires j + 1 < |peaks|
    ensures Decayed(peaks, j) == Decayed(peaks[..|peaks| - 1], j) / 4
  {
    DivDiv(peaks[j], Pow4(|peaks| - 2 - j));
  }

  /** That is the maximum of all decayed contributions: none is larger and one is equal. */
  lemma {:induction false} CarriedIsMaximum(peaks: seq<Level>)
    requires peaks != []
    ensures forall j :: 0 <= j < |peaks| ==> Decayed(peaks, j) <= Carried(peaks)
    ensures exists j :: 0 <= j < |peaks| && Decayed(peaks, j) == Carried(peaks)
  {
    var n := |peaks| - 1;
    var front := peaks[..n];
    assert Decayed(peaks, n) == peaks[n];
    if n == 0 {
    } else {
      CarriedIsMaximum(front);
      forall j | 0 <= j < n ensures Decayed(peaks, j) <= Carried(front) / 4 {
        DecayStep(peaks, j);
      }
      var j :| 0 <= j < n && Decayed(front, j) == Carried(front);
      DecayStep(peaks, j);
    }
  }

  /** Where the `j`-th window ends, for a meter that has already counted some frames. */
  function WindowEnd(m: Meter, j: nat): int { 11 * (j + 1) - m.count }

  /** Peak of the `j`-th window the meter completes; the first one takes in what the meter holds. */
  function WindowPeak(m: Meter, inputs: seq<Input>, j: nat): Level
    requires m.count <= UPDATE_FREQUENCY && WindowEnd(m, j) <= |inputs|
  {
    if j == 0 then Loudest(m.absMax, inputs[..WindowEnd(m, 0)])
    else Loudest(0, inputs[WindowEnd(m, j - 1)..WindowEnd(m, j)])
  }

  function WindowPeaks(m: Meter, inputs: seq<Input>, k: nat): (p: seq<Level>)
    requires m.count <= UPDATE_FREQUENCY && (k > 0 ==> WindowEnd(m, k - 1) <= |inputs|)
    ensures |p| == k && forall j :: 0 <= j < k ==> p[j] == WindowPeak(m, inputs, j)
  {
    seq(k, j requires 0 <= j < k => WindowPeak(m, inputs, j))
  }

  lemma {:induction false} LoudestFrom(from: Level, inputs: seq<Input>)
    ensures Loudest(from, inputs) == Max(from, Loudest(0, inputs))
  {
    if inputs == [] {
    } else {
      LoudestFrom(from, inputs[..|inputs| - 1]);
    }
  }

  /** After the frame that completes window `k` of the run. */
  lemma {:induction false} FeedWindows(m: Meter, inputs: seq<Input>, k: nat)
    requires m.count <= UPDATE_FREQUENCY && k > 0 && |inputs| == WindowEnd(m, k - 1)
    ensures var r := Feed(m, inputs);
            r.count == 0 && r.level == Carried(WindowPeaks(m, inputs, k)) && r.absMax == r.level / 4
  {
    var peaks := WindowPeaks(m, inputs, k);
    if k == 1 {
      FeedWindow(m, inputs);
      assert inputs[..WindowEnd(m, 0)] == inputs;
      assert peaks[..0] == [];
    } else {
      var n := WindowEnd(m, k - 2);
      var front, last := inputs[..n], inputs[n..];
      assert inputs == front + last;
      FeedWindows(m, front, k - 1);
      FeedConcat(m, front, last);
      FeedWindow(Feed(m, front), last);
      LoudestFrom(Feed(m, front).absMax, last);
      assert last == inputs[n..WindowEnd(m, k - 1)];
      PeaksOfFront(m, inputs, k);
    }
  }

  lemma PeaksOfFront(m: Meter, inputs: seq<Input>, k: nat)
    requires m.count <= UPDATE_FREQUENCY && k > 1 && |inputs| == WindowEnd(m, k - 1)
    ensures WindowPeaks(m, inputs, k)[..k - 1] == WindowPeaks(m, inputs[..WindowEnd(m, k - 2)], k - 1)
  {
    var front := inputs[..WindowEnd(m, k - 2)];
    forall j | 0 <= j < k - 1 ensures WindowPeak(m, inputs, j) == WindowPeak(m, front, j) {
      var from := if j == 0 then 0 else WindowEnd(m, j - 1);
      assert inputs[from..WindowEnd(m, j)] == front[from..WindowEnd(m, j)];
    }
  }

  /** Closed form, for any meter and any number of frames: until the first window is complete the level
      stands still; when `w` windows are complete it is the maximum over all windows j of peak_j div
      4^(w-1-j). What is held on to is a quarter of the level or the largest peak since. */
  lemma LevelIsDecayedMaximum(m: Meter, inputs: seq<Input>)
    requires m.count <= UPDATE_FREQUENCY
    ensures var w := (m.count + |inputs|) / 11;
            var r := Feed(m, inputs);
            && r.count == (m.count + |inputs|) % 11
            && (w == 0 ==> r.level == m.level && r.absMax == Loudest(m.absMax, inputs))
            && (w > 0 ==>
                  var peaks := WindowPeaks(m, inputs, w);
                  && (forall j :: 0 <= j < w ==> Decayed(peaks, j) <= r.level)
                  && (exists j :: 0 <= j < w && Decayed(peaks, j) == r.level)
                  && r.absMax == Loudest(r.level / 4, inputs[WindowEnd(m, w - 1)..]))
  {
    var w := (m.count + |inputs|) / 11;
    if w == 0 {
      FeedInsideWindow(m, inputs);
    } else {
      var n := WindowEnd(m, w - 1);
      var front, rest := inputs[..n], inputs[n..];
      assert inputs == front + rest;
      FeedConcat(m, front, rest);
      FeedWindows(m, front, w);
      FeedInsideWindow(Feed(m, front), rest);
      CarriedIsMaximum(WindowPeaks(m, front, w));
      assert WindowPeaks(m, front, w) == WindowPeaks(m, inputs, w) by { PeaksOfWhole(m, inputs, w); }
    }
  }

  lemma PeaksOfWhole(m: Meter, inputs: seq<Input>, w: nat)
    requires m.count <= UPDATE_FREQUENCY && w > 0 && WindowEnd(m, w - 1) <= |inputs|
    ensures WindowPeaks(m, inputs[..WindowEnd(m, w - 1)], w) == WindowPeaks(m, inputs, w)
  {
    var front := inputs[..WindowEnd(m, w - 1)];
    forall j | 0 <= j < w ensures WindowPeak(m, inputs, j) == WindowPeak(m, front, j) {
      var from := if j == 0 then 0 else WindowEnd(m, j - 1);
      assert inputs[from..WindowEnd(m, j)] == front[from..WindowEnd(m, j)];
    }
  }

  // ----- silence --------------------------------------------------------------------------------

  ghost predicate Silent(inputs: seq<Input>) { forall i :: 0 <= i < |inputs| ==> inputs[i].peak == 0 }

  lemma {:induction false} LoudestOfSilence(from: Level, inputs: seq<Input>)
    requires Silent(inputs)
    ensures Loudest(from, inputs) == from
  {
    if inputs == [] {
    } else {
      LoudestOfSilence(from, inputs[..|inputs| - 1]);
    }
  }

  /** What `n` silent frames make of a meter: nothing happens until a window is completed; with the w-th
      window completed the level is the old maximum div 4^(w-1). */
  predicate Quietened(m: Meter, n: nat, r: Meter) {
    var w := (m.count + n) / 11;
    && r.level == (if w == 0 then m.level else m.absMax / Pow4(w - 1))
    && r.absMax == m.absMax / Pow4(w) && r.count == (m.count + n) % 11
  }

  /** The first window, then the others. */
  lemma QuietenedNext(m: Meter, m1: Meter, n: nat, k: nat, r: Meter)
    requires m1.level == m.absMax && m1.absMax == m.absMax / 4 && m1.count == 0
    requires m.count + n == 11 + k && Quietened(m1, k, r)
    ensures Quietened(m, n, r)
  {
    var w := k / 11;
    assert (m.count + n) / 11 == w + 1 && (m.count + n) % 11 == k % 11;
    QuarterThenDecay(m.absMax, w);
    if w > 0 { QuarterThenDecay(m.absMax, w - 1); }
  }

  /** The level after any number of silent frames, from any state. */
  lemma {:induction false} LevelInSilence(m: Meter, inputs: seq<Input>)
    requires m.count <= UPDATE_FREQUENCY && Silent(inputs)
    ensures Quietened(m, |inputs|, Feed(m, inputs))
    decreases |inputs|
  {
    if m.count + |inputs| <= UPDATE_FREQUENCY {
      FeedInsideWindow(m, inputs);
      LoudestOfSilence(m.absMax, inputs);
    } else {
      var n := UPDATE_FREQUENCY + 1 - m.count;
      var first, rest := inputs[..n], inputs[n..];
      assert inputs == first + rest;
      FeedConcat(m, first, rest);
      FeedWindow(m, first);
      LoudestOfSilence(m.absMax, first);
      LevelInSilence(Feed(m, first), rest);
      QuietenedNext(m, Feed(m, first), |inputs|, |rest|, Feed(m, inputs));
    }
  }

  lemma {:induction false} QuarterThenDecay(x: nat, n: nat)
    ensures (x / 4) / Pow4(n) == x / Pow4(n + 1)
  {
    if n == 0 {
    } else {
      QuarterThenDecay(x, n - 1);
      DivDiv(x / 4, Pow4(n - 1));
      DivDiv(x, Pow4(n));
    }
  }

  /** 99 silent frames bring the level to 0 from any setting of the fields, reachable or not. */
  lemma SilenceOf99Frames(m: Meter, inputs: seq<Input>)
    requires m.count <= UPDATE_FREQUENCY && Silent(inputs) && |inputs| == 99
    ensures Feed(m, inputs).level == 0
  {
    LevelInSilence(m, inputs);
    var w := (m.count + 99) / 11;
    assert w == 9;
    Pow4Eight();
  }

  lemma Pow4Eight()
    ensures Pow4(8) == 65536 && Pow4(7) == 16384
  {
    assert Pow4(2) == 16;
    assert Pow4(4) == 256;
    assert Pow4(6) == 4096;
  }

  lemma {:induction false} FeedSettled(m: Meter, inputs: seq<Input>)
    requires Settled(m)
    ensures Settled(Feed(m, inputs))
  {
    if inputs == [] {
    } else {
      FeedSettled(m, inputs[..|inputs| - 1]);
    }
  }

  /** From every state a meter can be in, 98 silent frames bring the level to 0. */
  lemma SilenceOf98Frames(m: Meter, inputs: seq<Input>, silence: seq<Input>)
    requires Settled(m) && Silent(silence) && |silence| == 98
    ensures Feed(Feed(m, inputs), silence).level == 0
  {
    FeedSettled(m, inputs);
    var r := Feed(m, inputs);
    LevelInSilence(r, silence);
    assert (r.count + 98) / 11 == if r.count == 0 then 8 else 9;
    Pow4Eight();
  }

  /** 97 are not enough: one frame at full scale leaves a level of 1. */
  lemma SilenceOf97FramesIsNotEnough(duration: real, silence: seq<Input>)
    requires Silent(silence) && |silence| == 97
    ensures Feed(Feed(NEW, [Input(INT16_MAX, duration)]), silence).level == 1
  {
    var loud := [Input(INT16_MAX, duration)];
    assert loud[..0] == [];
    assert Feed(NEW, loud) == Compute(NEW, INT16_MAX, duration);
    LevelInSilence(Feed(NEW, loud), silence);
    Pow4Eight();
  }

  // ----- energy ---------------------------------------------------------------------------------

  lemma Scaled(x: real, d: real)
    requires 0.0 <= x <= 1.0 && d >= 0.0
    ensures 0.0 <= x * d <= d
  {
    assert 0.0 <= (1.0 - x) * d == d - x * d;
  }

  lemma EnergyIsShareOfDuration(level: Level, d: real)
    requires d >= 0.0
    ensures 0.0 <= Energy(Share(level), d) <= d
  {
    var share := Share(level);
    assert 0.0 <= share <= 1.0;
    Scaled(share, share);
    var square := share * share;
    Scaled(square, d);
    assert Energy(share, d) == square * d;
  }

  /** Total energy never exceeds total duration when no duration is negative. */
  lemma {:induction false} EnergyWithinDuration(m: Meter, inputs: seq<Input>)
    requires m.energy <= m.duration && forall i :: 0 <= i < |inputs| ==> inputs[i].duration >= 0.0
    ensures Feed(m, inputs).energy <= Feed(m, inputs).duration
    ensures m.energy <= Feed(m, inputs).energy && m.duration <= Feed(m, inputs).duration
  {
    if inputs == [] {
    } else {
      var front, last := inputs[..|inputs| - 1], inputs[|inputs| - 1];
      EnergyWithinDuration(m, front);
      EnergyIsShareOfDuration(Compute(Feed(m, front), last.peak, last.duration).level, last.duration);
    }
  }

  /** The sum over the frames of the squared share of full scale times the duration, with the level as it is
      after each frame. */
  function EnergySum(m: Meter, inputs: seq<Input>): real
  {
    if inputs == [] then 0.0
    else EnergySum(m, inputs[..|inputs| - 1]) + Squared(Feed(m, inputs).level, inputs[|inputs| - 1].duration)
  }

  function Squared(level: Level, duration: real): real
  {
    (level as real / 32767.0) * (level as real / 32767.0) * duration
  }

  lemma FrameAdds(m: Meter, peak: Level, duration: real)
    ensures var r := Compute(m, peak, duration);
            r.energy == m.energy + Squared(r.level, duration) && r.duration == m.duration + duration
  {
  }

  function DurationSum(inputs: seq<Input>): real
  {
    if inputs == [] then 0.0 else DurationSum(inputs[..|inputs| - 1]) + inputs[|inputs| - 1].duration
  }

  /** The totals after any number of frames, from any state. */
  lemma {:induction false} TotalsAreSums(m: Meter, inputs: seq<Input>)
    ensures Feed(m, inputs).energy == m.energy + EnergySum(m, inputs)
    ensures Feed(m, inputs).duration == m.duration + DurationSum(inputs)
  {
    if inputs == [] {
    } else {
      var front, last := inputs[..|inputs| - 1], inputs[|inputs| - 1];
      TotalsAreSums(m, front);
      FrameAdds(Feed(m, front), last.peak, last.duration);
    }
  }

  /** A sample as far as it fits. */
  function Magnitude(x: Sample): nat { if x == -32768 then 32767 else if x < 0 then -x else x }

  lemma {:induction false} MaxAbsIsLargest(samples: seq<Sample>)
    ensures forall i :: 0 <= i < |samples| ==> Magnitude(samples[i]) <= MaxAbs(samples)
    ensures samples != [] ==> exists i :: 0 <= i < |samples| && Magnitude(samples[i]) == MaxAbs(samples)
  {
    if samples == [] {
    } else {
      var front, n := samples[..|samples| - 1], |samples| - 1;
      MaxAbsIsLargest(front);
      assert Magnitude(samples[n]) == MaxAbs(samples) || front != [];
      if Magnitude(samples[n]) != MaxAbs(samples) {
        var i :| 0 <= i < |front| && Magnitude(front[i]) == MaxAbs(front);
        assert samples[i] == front[i];
      }
    }
  }

  /** A muted frame counts as silence, whatever samples it carries; of any other the largest magnitude counts. */
  lemma PeakIs(f: Frame)
    ensures f.muted || f.samples == [] ==> Peak(f) == 0
    ensures !f.muted ==> forall i :: 0 <= i < |f.samples| ==> Magnitude(f.samples[i]) <= Peak(f)
    ensures !f.muted && f.samples != [] ==> exists i :: 0 <= i < |f.samples| && Magnitude(f.samples[i]) == Peak(f)
  {
    MaxAbsIsLargest(f.samples);
  }
}
