/**
  The pulse detector: a hysteresis and debounce machine with two wrapping 8-bit
  counters, fed one sample per cycle.
*/
module Detector {

  import opened Bytes

  /** `pulses` is unbounded here; the firmware keeps it modulo 2^32. */
  datatype Meter = Meter(countHi: Octet, countLo: Octet, debounce: bool, pulses: nat)

  /** One cycle as the machine sees it: the level, and the thresholds in force. */
  datatype Cycle = Cycle(high: bool, limitHigh: Octet, limitDebounce: Octet)

  const START := Meter(0, 0, false, 0)

  function Step(m: Meter, c: Cycle): Meter {
    if c.high then
      var hi := (m.countHi + 1) % 256;
      var fires := !m.debounce && hi > c.limitHigh;
      Meter(hi, 0, m.debounce || fires, if fires then m.pulses + 1 else m.pulses)
    else
      var lo := (m.countLo + 1) % 256;
      Meter(0, lo, m.debounce && !(lo > c.limitDebounce), m.pulses)
  }

  function Run(m: Meter, cycles: seq<Cycle>): Meter {
    if cycles == [] then m else Step(Run(m, cycles[..|cycles| - 1]), cycles[|cycles| - 1])
  }

  /** Constant thresholds over a history of levels. */
  function Steady(levels: seq<bool>, limitHigh: Octet, limitDebounce: Octet): (cycles: seq<Cycle>)
    ensures |cycles| == |levels|
  {
    seq(|levels|, i requires 0 <= i < |levels| => Cycle(levels[i], limitHigh, limitDebounce))
  }

  function Count(levels: seq<bool>, limitHigh: Octet, limitDebounce: Octet): nat {
    Run(START, Steady(levels, limitHigh, limitDebounce)).pulses
  }

  lemma RunSteadyPush(levels: seq<bool>, h: Octet, d: Octet)
    requires levels != []
    ensures var n := |levels| - 1;
            Run(START, Steady(levels, h, d)) == Step(Run(START, Steady(levels[..n], h, d)), Cycle(levels[n], h, d))
  {
    var n := |levels| - 1;
    assert Steady(levels, h, d)[..n] == Steady(levels[..n], h, d);
  }

  // ---- What should be counted, said of the history alone

  /** All of `levels[a..b]` equal `v`. */
  ghost predicate Constant(levels: seq<bool>, a: int, b: int, v: bool)
    requires 0 <= a <= b <= |levels|
  {
    forall k :: a <= k < b ==> levels[k] == v
  }

  /** At `i`, a maximal run of highs grows past `h` samples. */
  ghost predicate Exceeds(levels: seq<bool>, i: nat, h: nat)
    requires i < |levels|
  {
    h <= i && Constant(levels, i - h, i + 1, true) && (h < i ==> !levels[i - h - 1])
  }

  /** More than `d` lows in a row from `q` on. */
  ghost predicate LowRun(levels: seq<bool>, q: nat, d: nat) {
    q + d < |levels| && Constant(levels, q, q + d + 1, false)
  }

  /** Somewhere in `levels[a..b]` there are more than `d` lows in a row. */
  ghost predicate Quiet(levels: seq<bool>, a: nat, b: nat, d: nat)
    requires b <= |levels|
  {
    exists q: nat :: a <= q && q + d < b && LowRun(levels, q, d)
  }

  /** A pulse: a high run exceeding `h` while armed. */
  ghost predicate Pulse(levels: seq<bool>, i: nat, h: nat, d: nat)
    requires i < |levels|
    decreases i, 1
  {
    Exceeds(levels, i, h) && Armed(levels, i, h, d)
  }

  /** Armed at `n`: every earlier pulse has been followed by a low run longer than `d`. */
  ghost predicate Armed(levels: seq<bool>, n: nat, h: nat, d: nat)
    requires n <= |levels|
    decreases n, 0
  {
    forall j: nat :: j < n && Pulse(levels, j, h, d) ==> Quiet(levels, j + 1, n, d)
  }

  ghost function PulsesBefore(levels: seq<bool>, n: nat, h: nat, d: nat): nat
    requires n <= |levels|
  {
    if n == 0 then 0
    else PulsesBefore(levels, n - 1, h, d) + if Pulse(levels, n - 1, h, d) then 1 else 0
  }

  // ---- The machine refines that specification

  /** Length of the run of `v` that ends just before `n`. */
  function RunLength(levels: seq<bool>, n: nat, v: bool): (r: nat)
    requires n <= |levels|
    ensures r <= n && Constant(levels, n - r, n, v)
    ensures r < n ==> levels[n - r - 1] != v
  {
    if n == 0 || levels[n - 1] != v then 0 else RunLength(levels, n - 1, v) + 1
  }

  /** How the machine's wrapped counters stand to the true run lengths after `n` samples. */
  ghost predicate Tracks(m: Meter, levels: seq<bool>, n: nat, h: nat, d: nat)
    requires n <= |levels|
  {
    && m.countHi == RunLength(levels, n, true) % 256
    && m.countLo == RunLength(levels, n, false) % 256
    && (m.debounce <==> !Armed(levels, n, h, d))
    && (RunLength(levels, n, true) > h ==> m.debounce)
    && (RunLength(levels, n, false) > d ==> !m.debounce)
    && m.pulses == PulsesBefore(levels, n, h, d)
  }

  /** A low sample adds no quiet stretch while the current low run is short. */
  lemma QuietAfterLow(levels: seq<bool>, a: nat, n: nat, d: nat)
    requires n < |levels| && RunLength(levels, n + 1, false) <= d
    ensures Quiet(levels, a, n + 1, d) <==> Quiet(levels, a, n, d)
  {
  }

  /** A pulse itself disarms; otherwise a high sample changes nothing. */
  lemma ArmedAfterHigh(levels: seq<bool>, n: nat, h: nat, d: nat)
    requires n < |levels| && levels[n]
    ensures Armed(levels, n + 1, h, d) <==> Armed(levels, n, h, d) && !Pulse(levels, n, h, d)
  {
  }

  /** A low sample arms exactly when it makes the low run longer than `d`. */
  lemma ArmedAfterLow(levels: seq<bool>, n: nat, h: nat, d: nat)
    requires n < |levels| && !levels[n]
    ensures Armed(levels, n + 1, h, d) <==> Armed(levels, n, h, d) || RunLength(levels, n + 1, false) > d
  {
    assert !Pulse(levels, n, h, d) by {
      assert !Exceeds(levels, n, h);
    }
    if RunLength(levels, n + 1, false) > d {
      forall j: nat | j < n + 1 && Pulse(levels, j, h, d)
        ensures Quiet(levels, j + 1, n + 1, d)
      {
        assert levels[j];
        assert LowRun(levels, n - d, d);
      }
    } else {
      forall j: nat | j < n && Pulse(levels, j, h, d)
        ensures Quiet(levels, j + 1, n + 1, d) <==> Quiet(levels, j + 1, n, d)
      {
        QuietAfterLow(levels, j + 1, n, d);
      }
    }
  }

  lemma PulseAtHigh(levels: seq<bool>, n: nat, h: nat, d: nat)
    requires n < |levels| && levels[n]
    ensures Pulse(levels, n, h, d) <==> RunLength(levels, n, true) == h && Armed(levels, n, h, d)
    ensures RunLength(levels, n + 1, true) == RunLength(levels, n, true) + 1 && RunLength(levels, n + 1, false) == 0
  {
  }

  lemma TracksHigh(m: Meter, levels: seq<bool>, n: nat, h: Octet, d: Octet)
    requires n < |levels| && levels[n] && h <= 254
    requires Tracks(m, levels, n, h, d)
    ensures Tracks(Step(m, Cycle(true, h, d)), levels, n + 1, h, d)
  {
    var r := RunLength(levels, n, true);
    PulseAtHigh(levels, n, h, d);
    ArmedAfterHigh(levels, n, h, d);
    WrapNext(m.countHi, r);
    if m.debounce {
      assert !Pulse(levels, n, h, d);
    } else {
      assert Step(m, Cycle(true, h, d)).debounce <==> r == h;
    }
  }

  lemma WrapNext(count: Octet, r: nat)
    requires count == r % 256
    ensures (count + 1) % 256 == (r + 1) % 256
    ensures r < 255 ==> (count + 1) % 256 == r + 1
  {
  }

  lemma NoPulseAtLow(levels: seq<bool>, n: nat, h: nat, d: nat)
    requires n < |levels| && !levels[n]
    ensures !Pulse(levels, n, h, d)
    ensures RunLength(levels, n + 1, false) == RunLength(levels, n, false) + 1 && RunLength(levels, n + 1, true) == 0
  {
  }

  lemma TracksLow(m: Meter, levels: seq<bool>, n: nat, h: Octet, d: Octet)
    requires n < |levels| && !levels[n] && d <= 254
    requires Tracks(m, levels, n, h, d)
    ensures Tracks(Step(m, Cycle(false, h, d)), levels, n + 1, h, d)
  {
    var r := RunLength(levels, n, false);
    NoPulseAtLow(levels, n, h, d);
    ArmedAfterLow(levels, n, h, d);
    WrapNext(m.countLo, r);
  }

  lemma {:induction false} TracksRun(levels: seq<bool>, n: nat, h: Octet, d: Octet)
    requires n <= |levels| && h <= 254 && d <= 254
    ensures Tracks(Run(START, Steady(levels[..n], h, d)), levels, n, h, d)
  {
    if n > 0 {
      TracksRun(levels, n - 1, h, d);
      RunSteadyPush(levels[..n], h, d);
      assert levels[..n][..n - 1] == levels[..n - 1];
      var m := Run(START, Steady(levels[..n - 1], h, d));
      if levels[n - 1] {
        TracksHigh(m, levels, n - 1, h, d);
      } else {
        TracksLow(m, levels, n - 1, h, d);
      }
    }
  }

  /** Despite its wrapping counters the detector counts exactly the pulses of the history. */
  lemma CountsThePulses(levels: seq<bool>, h: Octet, d: Octet)
    requires h <= 254 && d <= 254
    ensures Count(levels, h, d) == PulsesBefore(levels, |levels|, h, d)
  {
    TracksRun(levels, |levels|, h, d);
    assert levels[..|levels|] == levels;
  }

  /** The threshold 255 is out of an 8-bit counter's reach: as a high count it silences the detector... */
  lemma {:induction false} NoPulseAt255(levels: seq<bool>, d: Octet)
    ensures Count(levels, 255, d) == 0 && !Run(START, Steady(levels, 255, d)).debounce
  {
    if levels != [] {
      RunSteadyPush(levels, 255, d);
      NoPulseAt255(levels[..|levels| - 1], d);
    }
  }

  /** ...and as a debounce count it lets through one pulse at most. */
  lemma {:induction false} OnePulseAt255(levels: seq<bool>, h: Octet)
    ensures Count(levels, h, 255) == if Run(START, Steady(levels, h, 255)).debounce then 1 else 0
  {
    if levels != [] {
      RunSteadyPush(levels, h, 255);
      OnePulseAt255(levels[..|levels| - 1], h);
    }
  }

  // ---- Lower thresholds never lose pulses

  ghost predicate NoHigher(a: seq<Cycle>, b: seq<Cycle>) {
    |a| == |b| && forall i :: 0 <= i < |a| ==>
      a[i].high == b[i].high && a[i].limitHigh <= b[i].limitHigh && a[i].limitDebounce <= b[i].limitDebounce
  }

  /** The more sensitive machine is ahead, by at least one while only it is disarmed. */
  ghost predicate Ahead(a: Meter, b: Meter) {
    && a.countHi == b.countHi && a.countLo == b.countLo
    && a.pulses >= b.pulses + if a.debounce && !b.debounce then 1 else 0
  }

  /** Thresholds no higher in any cycle never count fewer pulses, 8-bit wraparound included. */
  lemma {:induction false} LowerThresholdsCountMore(m: Meter, a: seq<Cycle>, b: seq<Cycle>)
    requires NoHigher(a, b)
    ensures Ahead(Run(m, a), Run(m, b))
  {
    if a != [] {
      LowerThresholdsCountMore(m, a[..|a| - 1], b[..|b| - 1]);
    }
  }

  lemma CountIsMonotone(levels: seq<bool>, h: Octet, d: Octet, h': Octet, d': Octet)
    requires h <= h' && d <= d'
    ensures Count(levels, h, d) >= Count(levels, h', d')
  {
    LowerThresholdsCountMore(START, Steady(levels, h, d), Steady(levels, h', d'));
  }

  // ---- How often pulses can come

  /** Samples not yet spent on pulses: each pulse spends `h + d + 2` of them. */
  function Slack(pulses: nat, n: int, h: nat, d: nat): int {
    n + d + 1 - pulses * (h + d + 2)
  }

  ghost predicate WithinRate(m: Meter, n: int, h: nat, d: nat) {
    if m.debounce then Slack(m.pulses, n, h, d) >= m.countLo && m.countLo <= d
    else Slack(m.pulses, n, h, d) >= d + 1 + m.countHi && m.countHi <= h
  }

  lemma RateStep(m: Meter, n: int, high: bool, h: Octet, d: Octet)
    requires WithinRate(m, n, h, d)
    ensures WithinRate(Step(m, Cycle(high, h, d)), n + 1, h, d)
  {
  }

  lemma {:induction false} RateRun(levels: seq<bool>, h: Octet, d: Octet)
    ensures WithinRate(Run(START, Steady(levels, h, d)), |levels|, h, d)
  {
    if levels != [] {
      var n := |levels| - 1;
      RateRun(levels[..n], h, d);
      RunSteadyPush(levels, h, d);
      RateStep(Run(START, Steady(levels[..n], h, d)), n, levels[n], h, d);
    }
  }

  /** At most one pulse per `h + d + 2` samples, up to the initial allowance. */
  lemma PulseRate(levels: seq<bool>, h: Octet, d: Octet)
    ensures Count(levels, h, d) * (h + d + 2) <= |levels| + d + 1
  {
    RateRun(levels, h, d);
  }

  // ---- The rate is attained

  lemma {:induction false} RunAppend(m: Meter, a: seq<Cycle>, b: seq<Cycle>)
    ensures Run(m, a + b) == Run(Run(m, a), b)
  {
    if b == [] {
      assert a + b == a;
    } else {
      var n := |b| - 1;
      RunAppend(m, a, b[..n]);
      assert (a + b)[..|a + b| - 1] == a + b[..n];
    }
  }

  function Repeat(v: bool, n: nat): (r: seq<bool>)
    ensures |r| == n
  {
    seq(n, i => v)
  }

  lemma RepeatPush(m: Meter, v: bool, n: nat, h: Octet, d: Octet)
    ensures Run(m, Steady(Repeat(v, n + 1), h, d)) == Step(Run(m, Steady(Repeat(v, n), h, d)), Cycle(v, h, d))
  {
    assert Steady(Repeat(v, n + 1), h, d)[..n] == Steady(Repeat(v, n), h, d);
  }

  /** An armed machine counts a pulse at the `h + 1`-st high and not before. */
  lemma {:induction false} Highs(m: Meter, n: nat, h: Octet, d: Octet)
    requires !m.debounce && m.countHi == 0 && 0 < n <= h + 1 && h <= 254
    ensures Run(m, Steady(Repeat(true, n), h, d)) ==
            if n <= h then Meter(n, 0, false, m.pulses) else Meter(n, 0, true, m.pulses + 1)
  {
    RepeatPush(m, true, n - 1, h, d);
    if n > 1 {
      Highs(m, n - 1, h, d);
    }
  }

  /** A disarmed machine is armed again by the `d + 1`-st low and not before. */
  lemma {:induction false} Lows(m: Meter, n: nat, h: Octet, d: Octet)
    requires m.debounce && m.countLo == 0 && 0 < n <= d + 1 && d <= 254
    ensures Run(m, Steady(Repeat(false, n), h, d)) == Meter(0, n, n <= d, m.pulses)
  {
    RepeatPush(m, false, n - 1, h, d);
    if n > 1 {
      Lows(m, n - 1, h, d);
    }
  }

  /** `k` bursts just long enough to count, with just enough quiet in between. */
  function Bursts(k: nat, h: Octet, d: Octet): seq<bool>
    requires k > 0
  {
    if k == 1 then Repeat(true, h + 1) else Bursts(k - 1, h, d) + Repeat(false, d + 1) + Repeat(true, h + 1)
  }

  lemma RunSteadyAppend(m: Meter, a: seq<bool>, b: seq<bool>, h: Octet, d: Octet)
    ensures Run(m, Steady(a + b, h, d)) == Run(Run(m, Steady(a, h, d)), Steady(b, h, d))
  {
    assert Steady(a + b, h, d) == Steady(a, h, d) + Steady(b, h, d);
    RunAppend(m, Steady(a, h, d), Steady(b, h, d));
  }

  lemma {:induction false} BurstsCount(k: nat, h: Octet, d: Octet)
    requires k > 0 && h <= 254 && d <= 254
    ensures Run(START, Steady(Bursts(k, h, d), h, d)) == Meter(h + 1, 0, true, k)
  {
    if k == 1 {
      Highs(START, h + 1, h, d);
    } else {
      var before, quiet, burst := Bursts(k - 1, h, d), Repeat(false, d + 1), Repeat(true, h + 1);
      BurstsCount(k - 1, h, d);
      RunSteadyAppend(START, before, quiet, h, d);
      RunSteadyAppend(START, before + quiet, burst, h, d);
      Lows(Meter(h + 1, 0, true, k - 1), d + 1, h, d);
      Highs(Meter(0, d + 1, false, k - 1), h + 1, h, d);
    }
  }

  lemma {:induction false} BurstsLength(k: nat, h: Octet, d: Octet)
    requires k > 0
    ensures |Bursts(k, h, d)| + d + 1 == k * (h + d + 2)
  {
    if k > 1 {
      BurstsLength(k - 1, h, d);
      assert k * (h + d + 2) == (k - 1) * (h + d + 2) + (h + d + 2);
    }
  }

  /** The rate bound cannot be improved: for every number of pulses some history meets it exactly. */
  lemma PulseRateAttained(k: nat, h: Octet, d: Octet)
    requires k > 0 && h <= 254 && d <= 254
    ensures var levels := Bursts(k, h, d);
            Count(levels, h, d) == k && Count(levels, h, d) * (h + d + 2) == |levels| + d + 1
  {
    BurstsCount(k, h, d);
    BurstsLength(k, h, d);
  }
}
