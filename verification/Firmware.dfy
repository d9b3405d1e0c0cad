/**
  The main loop as a state machine: requests interleaved with sampling and pushing.
*/
module Firmware {
  import opened Bytes
  import opened Decimal
  import opened Slots
  import opened Layout
  import opened GeneralSettings
  import opened Requests
  import Detector
  import Ring
  import PushTimer

  // ---- The main loop

  type Reading = x: int | 0 <= x < 1024

  /** One pass of `loop`: a request perhaps, the ADC reading, and what the clock and the server do. */
  datatype Tick = Tick(request: Option<Request>, reading: Reading, attempt: PushTimer.Attempt)

  /** `meter.pulses` is the 32-bit counter; `lastPush` the millisecond clock at the last push. */
  datatype Machine = Machine(settings: Settings, meter: Detector.Meter, ring: Ring.Buffer, lastPush: nat)

  function Value(reading: Reading): Byte {
    (reading / 4) as Byte
  }

  function CycleOf(cfg: Config, reading: Reading): Detector.Cycle {
    Detector.Cycle(Value(reading) >= cfg.limit, cfg.limitHigh as int, cfg.limitDebounce as int)
  }

  /** The pulse count kept in 32 bits. */
  function Wrapped(m: Detector.Meter): Detector.Meter {
    m.(pulses := m.pulses % TWO32)
  }

  function Sampled(m: Machine, reading: Reading): Machine
    requires m.ring.Valid()
  {
    m.(meter := Wrapped(Detector.Step(m.meter, CycleOf(m.settings.cfg, reading))), ring := Ring.Add(m.ring, Value(reading)))
  }

  function Loop(m: Machine, t: Tick): (m': Machine)
    requires m.ring.Valid()
    ensures m'.ring.Valid()
  {
    var served := if t.request.Some? then m.(settings := Handle(m.settings, t.request.value)) else m;
    var sampled := if served.settings.cfg.powerMonEnabled then Sampled(served, t.reading) else served;
    sampled.(lastPush := PushTimer.AfterAttempt(sampled.lastPush, sampled.settings.cfg.pushFreq, t.attempt))
  }

  function LoopAll(m: Machine, ts: seq<Tick>): (m': Machine)
    requires m.ring.Valid()
    ensures m'.ring.Valid()
  {
    if ts == [] then m else Loop(LoopAll(m, ts[..|ts| - 1]), ts[|ts| - 1])
  }

  function PowerUp(img: Image, size: nat): Machine {
    Machine(Boot(img), Detector.START, Ring.Empty(size), 0)
  }

  /** The requests among the ticks. */
  function Served(ts: seq<Tick>): seq<Request> {
    if ts == [] then []
    else
      var last := ts[|ts| - 1].request;
      Served(ts[..|ts| - 1]) + if last.Some? then [last.value] else []
  }

  lemma ServedPush(s: Settings, ts: seq<Tick>)
    requires ts != []
    ensures var before, last := HandleAll(s, Served(ts[..|ts| - 1])), ts[|ts| - 1].request;
            HandleAll(s, Served(ts)) == if last.Some? then Handle(before, last.value) else before
  {
    var rs, last := Served(ts[..|ts| - 1]), ts[|ts| - 1].request;
    if last.Some? {
      assert Served(ts) == rs + [last.value];
      assert (rs + [last.value])[..|rs|] == rs;
    } else {
      assert rs + [] == rs;
    }
  }

  lemma LoopServes(m: Machine, t: Tick)
    requires m.ring.Valid()
    ensures Loop(m, t).settings == if t.request.Some? then Handle(m.settings, t.request.value) else m.settings
  {
  }

  /** The settings of the running firmware are those of its requests alone, so all the laws above hold in the loop. */
  lemma {:induction false} LoopSettings(m: Machine, ts: seq<Tick>)
    requires m.ring.Valid()
    ensures LoopAll(m, ts).settings == HandleAll(m.settings, Served(ts))
  {
    if ts != [] {
      LoopSettings(m, ts[..|ts| - 1]);
      LoopServes(LoopAll(m, ts[..|ts| - 1]), ts[|ts| - 1]);
      ServedPush(m.settings, ts);
    }
  }

  lemma RebootDuringLoop(img: Image, size: nat, ts: seq<Tick>)
    requires 0 < size <= 255
    ensures var m := LoopAll(PowerUp(img, size), ts); PowerUp(m.settings.img, size).settings == m.settings
  {
    LoopSettings(PowerUp(img, size), ts);
    RebootChangesNothing(img, Served(ts));
  }

  // ---- The range of the loaded push frequency

  /** In every reachable state the push period in milliseconds fits in 32 bits. */
  lemma PeriodNeverOverflows(img: Image, rs: seq<Request>)
    ensures -TWO31 <= HandleAll(Boot(img), rs).cfg.pushFreq * 1000 < TWO31
  {
    ReachableInStep(img, rs);
    LoadedPushFreqRange(HandleAll(Boot(img), rs).img);
  }

  lemma LoadedPushFreqRange(img: Image)
    ensures -1000000 < Load(img).pushFreq < 1000000
  {
    DecodeIsShort(Slot(img, Start(PushFreq), Length(PushFreq)));
    SixBytesRange(GetText(img, PushFreq));
    assert Load(img).pushFreq == IntAt(img, PushFreq);
  }

  // ---- One pass

  /** A reading is stored in steps of four. */
  lemma ValueIs(reading: Reading)
    ensures 4 * (Value(reading) as int) <= reading < 4 * (Value(reading) as int) + 4
  {
    ByteValue(reading / 4);
  }

  /** A reading is high when it is at least four times the limit. */
  lemma CycleIs(cfg: Config, reading: Reading)
    ensures CycleOf(cfg, reading) ==
            Detector.Cycle(reading >= 4 * (cfg.limit as int), cfg.limitHigh as int, cfg.limitDebounce as int)
  {
    ValueIs(reading);
    ByteOrder(Value(reading), cfg.limit);
  }

  lemma ByteOrder(a: Byte, b: Byte)
    ensures a >= b <==> a as int >= b as int
  {
  }

  /**
    A pass with monitoring on replaces the cell at the position by a quarter of the reading and takes
    one detector step; a pass with monitoring off does neither.
  */
  lemma PassLaw(m: Machine, t: Tick)
    requires m.ring.Valid()
    ensures var m' := Loop(m, t); var cfg, cells, pos := m'.settings.cfg, m'.ring.cells, m.ring.pos;
            if cfg.powerMonEnabled then
              && |cells| == |m.ring.cells| && cells == m.ring.cells[pos := cells[pos]]
              && 4 * (cells[pos] as int) <= t.reading < 4 * (cells[pos] as int) + 4
              && m'.ring.pos == (if pos + 1 == |cells| then 0 else pos + 1)
              && m'.meter == Wrapped(Detector.Step(m.meter,
                   Detector.Cycle(t.reading >= 4 * (cfg.limit as int), cfg.limitHigh as int, cfg.limitDebounce as int)))
            else m'.ring == m.ring && m'.meter == m.meter
  {
    LoopSamples(m, t);
    ValueIs(t.reading);
    CycleIs(Loop(m, t).settings.cfg, t.reading);
    AddedCell(m.ring, Value(t.reading));
  }

  lemma AddedCell(b: Ring.Buffer, v: Byte)
    requires b.Valid()
    ensures var b' := Ring.Add(b, v);
            && |b'.cells| == |b.cells| && b'.cells == b.cells[b.pos := v] && b'.cells[b.pos] == v
            && b'.pos == if b.pos + 1 == |b.cells| then 0 else b.pos + 1
  {
  }

  /** Power-up clears the counters, the pulse count, the buffer and the timer. */
  lemma PowerUpIsClear(img: Image, size: nat)
    ensures var m := PowerUp(img, size);
            && m.settings == Settings(img, Load(img)) && m.lastPush == 0
            && m.meter.countHi == 0 && m.meter.countLo == 0 && !m.meter.debounce && m.meter.pulses == 0
            && |m.ring.cells| == size && m.ring.pos == 0 && forall j :: 0 <= j < size ==> m.ring.cells[j] == 0
  {
  }

  // ---- What the loop samples and counts, whatever requests it serves

  /** The configuration in force in the last pass: requests are served before sampling. */
  function InForce(m: Machine, ts: seq<Tick>): Config
    requires m.ring.Valid()
  {
    LoopAll(m, ts).settings.cfg
  }

  /** A pass as the sampling sees it. */
  datatype Pass = Pass(cfg: Config, reading: Reading)

  /** Each pass of a run with the configuration then in force. */
  function Passes(m: Machine, ts: seq<Tick>): (ps: seq<Pass>)
    requires m.ring.Valid()
    ensures |ps| == |ts|
  {
    if ts == [] then [] else Passes(m, ts[..|ts| - 1]) + [Pass(InForce(m, ts), ts[|ts| - 1].reading)]
  }

  lemma {:induction false} PassesAre(m: Machine, ts: seq<Tick>, i: nat)
    requires m.ring.Valid() && i < |ts|
    ensures Passes(m, ts)[i] == Pass(LoopAll(m, ts[..i + 1]).settings.cfg, ts[i].reading)
  {
    var n := |ts| - 1;
    if i < n {
      PassesAre(m, ts[..n], i);
      assert ts[..n][..i + 1] == ts[..i + 1];
    } else {
      assert ts[..i + 1] == ts;
    }
  }

  /** The passes in which monitoring was on. */
  function Monitored(ps: seq<Pass>): (on: seq<nat>)
    ensures forall k :: 0 <= k < |on| ==> on[k] < |ps| && ps[on[k]].cfg.powerMonEnabled
    ensures forall i :: 0 <= i < |ps| && ps[i].cfg.powerMonEnabled ==> i in on
    ensures forall j, k :: 0 <= j < k < |on| ==> on[j] < on[k]
  {
    if ps == [] then []
    else
      var n := |ps| - 1;
      Monitored(ps[..n]) + if ps[n].cfg.powerMonEnabled then [n] else []
  }

  /** The detector cycles of the passes in which monitoring was on, with the thresholds then in force. */
  function Cycles(ps: seq<Pass>): (cycles: seq<Detector.Cycle>)
    ensures |cycles| == |Monitored(ps)|
  {
    if ps == [] then []
    else
      var n := |ps| - 1;
      Cycles(ps[..n]) + if ps[n].cfg.powerMonEnabled then [CycleOf(ps[n].cfg, ps[n].reading)] else []
  }

  /** The values stored in the passes in which monitoring was on. */
  function Values(ps: seq<Pass>): (values: seq<Byte>)
    ensures |values| == |Monitored(ps)|
  {
    if ps == [] then []
    else
      var n := |ps| - 1;
      Values(ps[..n]) + if ps[n].cfg.powerMonEnabled then [Value(ps[n].reading)] else []
  }

  lemma {:induction false} SampleAt(ps: seq<Pass>, k: nat)
    requires k < |Monitored(ps)|
    ensures var p := ps[Monitored(ps)[k]];
            Cycles(ps)[k] == CycleOf(p.cfg, p.reading) && Values(ps)[k] == Value(p.reading)
  {
    var n := |ps| - 1;
    if k < |Monitored(ps[..n])| {
      SampleAt(ps[..n], k);
    }
  }

  lemma StepWrapped(m: Detector.Meter, c: Detector.Cycle)
    ensures Wrapped(Detector.Step(Wrapped(m), c)) == Wrapped(Detector.Step(m, c))
  {
  }

  lemma LoopSamples(m: Machine, t: Tick)
    requires m.ring.Valid()
    ensures var m' := Loop(m, t); var cfg := m'.settings.cfg;
            && m'.meter ==
               (if cfg.powerMonEnabled then Wrapped(Detector.Step(m.meter, CycleOf(cfg, t.reading))) else m.meter)
            && m'.ring == if cfg.powerMonEnabled then Ring.Add(m.ring, Value(t.reading)) else m.ring
  {
  }

  lemma CyclesPush(meter: Detector.Meter, ps: seq<Pass>, p: Pass)
    ensures Detector.Run(meter, Cycles(ps + [p])) ==
            var before := Detector.Run(meter, Cycles(ps));
            if p.cfg.powerMonEnabled then Detector.Step(before, CycleOf(p.cfg, p.reading)) else before
  {
    assert (ps + [p])[..|ps|] == ps;
    assert Cycles(ps) + [] == Cycles(ps);
  }

  lemma ValuesPush(ring: Ring.Buffer, ps: seq<Pass>, p: Pass)
    requires ring.Valid()
    ensures Ring.AddAll(ring, Values(ps + [p])) ==
            var before := Ring.AddAll(ring, Values(ps));
            if p.cfg.powerMonEnabled then Ring.Add(before, Value(p.reading)) else before
  {
    assert (ps + [p])[..|ps|] == ps;
    assert Values(ps) + [] == Values(ps);
  }

  /** In every run the detector's state is that of the cycles sampled, modulo 2^32. */
  lemma {:induction false} LoopMeter(m: Machine, ts: seq<Tick>)
    requires m.ring.Valid() && m.meter.pulses < TWO32
    ensures LoopAll(m, ts).meter == Wrapped(Detector.Run(m.meter, Cycles(Passes(m, ts))))
  {
    if ts != [] {
      var n := |ts| - 1;
      var ps, p := Passes(m, ts[..n]), Pass(InForce(m, ts), ts[n].reading);
      LoopMeter(m, ts[..n]);
      LoopSamples(LoopAll(m, ts[..n]), ts[n]);
      CyclesPush(m.meter, ps, p);
      StepWrapped(Detector.Run(m.meter, Cycles(ps)), CycleOf(p.cfg, p.reading));
    }
  }

  /** In every run the ring buffer is that of the values stored. */
  lemma {:induction false} LoopRing(m: Machine, ts: seq<Tick>)
    requires m.ring.Valid()
    ensures LoopAll(m, ts).ring == Ring.AddAll(m.ring, Values(Passes(m, ts)))
  {
    if ts != [] {
      var n := |ts| - 1;
      LoopRing(m, ts[..n]);
      LoopSamples(LoopAll(m, ts[..n]), ts[n]);
      ValuesPush(m.ring, Passes(m, ts[..n]), Pass(InForce(m, ts), ts[n].reading));
    }
  }

  /** The byte holds the reading, without its two low bits. */
  predicate Holds(cell: Byte, reading: Reading) {
    4 * (cell as int) <= reading < 4 * (cell as int) + 4
  }

  /** Cell `k` of a buffer in time order: a reading taken, or 0 if there were too few. */
  ghost predicate HoldsLatest(buffer: Str, ps: seq<Pass>) {
    forall k :: 0 <= k < |buffer| ==>
      var on, age := Monitored(ps), |buffer| - k;
      if age <= |on| then Holds(buffer[k], ps[on[|on| - age]].reading) else buffer[k] == 0
  }

  /** From power-up, whatever requests are served, the buffer holds the latest readings taken, in time order. */
  lemma BufferSincePowerUp(img: Image, size: nat, ts: seq<Tick>)
    requires 0 < size <= 255
    ensures var m := PowerUp(img, size);
            var buffer := Ring.Chronological(LoopAll(m, ts).ring);
            |buffer| == size && HoldsLatest(buffer, Passes(m, ts))
  {
    var ps := Passes(PowerUp(img, size), ts);
    LoopRing(PowerUp(img, size), ts);
    Ring.HoldsTheLastSamples(size, Values(ps));
    ValuesAreLatest(ps, size);
  }

  lemma ValuesAreLatest(ps: seq<Pass>, size: nat)
    ensures HoldsLatest(Ring.Last(size, Zeros(size) + Values(ps)), ps)
  {
    var buffer, on := Ring.Last(size, Zeros(size) + Values(ps)), Monitored(ps);
    forall k | 0 <= k < size
      ensures var age := size - k;
              if age <= |on| then Holds(buffer[k], ps[on[|on| - age]].reading) else buffer[k] == 0
    {
      var age := size - k;
      assert buffer[k] == (Zeros(size) + Values(ps))[|Values(ps)| + k];
      if age <= |on| {
        SampleAt(ps, |on| - age);
        ValueIs(ps[on[|on| - age]].reading);
      }
    }
  }

  /** The thresholds were `h` and `d` whenever monitoring was on. */
  ghost predicate ThresholdsAre(ps: seq<Pass>, h: Octet, d: Octet) {
    forall i :: 0 <= i < |ps| && ps[i].cfg.powerMonEnabled ==>
      ps[i].cfg.limitHigh as int == h && ps[i].cfg.limitDebounce as int == d
  }

  /** For each reading taken, whether it was at least four times the limit then in force. */
  function LevelsOf(ps: seq<Pass>): (levels: seq<bool>)
    ensures |levels| == |Monitored(ps)|
    ensures forall k :: 0 <= k < |levels| ==>
              var p := ps[Monitored(ps)[k]]; levels[k] <==> p.reading >= 4 * (p.cfg.limit as int)
  {
    var on := Monitored(ps);
    seq(|on|, k requires 0 <= k < |on| => ps[on[k]].reading >= 4 * (ps[on[k]].cfg.limit as int))
  }

  lemma SteadyCycles(ps: seq<Pass>, h: Octet, d: Octet)
    requires ThresholdsAre(ps, h, d)
    ensures Cycles(ps) == Detector.Steady(LevelsOf(ps), h, d)
  {
    var levels := LevelsOf(ps);
    forall k | 0 <= k < |levels|
      ensures Cycles(ps)[k] == Detector.Cycle(levels[k], h, d)
    {
      SampleAt(ps, k);
      var p := ps[Monitored(ps)[k]];
      CycleIs(p.cfg, p.reading);
    }
  }

  /**
    From power-up and whatever requests are served: while readings are taken with constant thresholds
    up to 254, the counter is, modulo 2^32, the number of pulses in their history.
  */
  lemma PulsesSincePowerUp(img: Image, size: nat, ts: seq<Tick>, h: Octet, d: Octet)
    requires 0 < size <= 255 && h <= 254 && d <= 254
    requires ThresholdsAre(Passes(PowerUp(img, size), ts), h, d)
    ensures var m := PowerUp(img, size); var levels := LevelsOf(Passes(m, ts));
            LoopAll(m, ts).meter.pulses == Detector.PulsesBefore(levels, |levels|, h, d) % 0x1_0000_0000
  {
    var ps := Passes(PowerUp(img, size), ts);
    LoopMeter(PowerUp(img, size), ts);
    SteadyCycles(ps, h, d);
    Detector.CountsThePulses(LevelsOf(ps), h, d);
  }

  /** With constant thresholds the counter never runs ahead of one pulse per `h + d + 2` readings. */
  lemma LoopPulseRate(img: Image, size: nat, ts: seq<Tick>, h: Octet, d: Octet)
    requires 0 < size <= 255 && ThresholdsAre(Passes(PowerUp(img, size), ts), h, d)
    ensures var m := PowerUp(img, size);
            LoopAll(m, ts).meter.pulses * (h + d + 2) <= |Monitored(Passes(m, ts))| + d + 1
  {
    LoopMeter(PowerUp(img, size), ts);
    CountIsBounded(Passes(PowerUp(img, size), ts), h, d);
  }

  lemma CountIsBounded(ps: seq<Pass>, h: Octet, d: Octet)
    requires ThresholdsAre(ps, h, d)
    ensures Wrapped(Detector.Run(Detector.START, Cycles(ps))).pulses * (h + d + 2) <= |Monitored(ps)| + d + 1
  {
    var levels := LevelsOf(ps);
    SteadyCycles(ps, h, d);
    Detector.PulseRate(levels, h, d);
    Reduced(Detector.Count(levels, h, d), h + d + 2, |levels| + d + 1);
  }

  lemma Reduced(count: nat, k: nat, bound: nat)
    requires count * k <= bound
    ensures count % TWO32 * k <= bound
  {
    Scaled(count % TWO32, count, k);
  }

  lemma Scaled(a: nat, b: nat, k: nat)
    requires a <= b
    ensures a * k <= b * k
  {
  }

  // ---- When the loop pushes, whatever requests it serves

  /** The attempts of a run, each with the frequency in force. */
  function Attempts(m: Machine, ts: seq<Tick>): (run: seq<PushTimer.Timed>)
    requires m.ring.Valid()
    ensures |run| == |ts| && forall i :: 0 <= i < |ts| ==> run[i].attempt == ts[i].attempt
  {
    if ts == [] then []
    else Attempts(m, ts[..|ts| - 1]) + [PushTimer.Timed(InForce(m, ts).pushFreq, ts[|ts| - 1].attempt)]
  }

  lemma LoopPushes(m: Machine, t: Tick)
    requires m.ring.Valid()
    ensures Loop(m, t).lastPush == PushTimer.AfterAttempt(m.lastPush, Loop(m, t).settings.cfg.pushFreq, t.attempt)
  {
  }

  /** In every run the timer is that of the attempts made. */
  lemma {:induction false} LoopTimer(m: Machine, ts: seq<Tick>)
    requires m.ring.Valid()
    ensures LoopAll(m, ts).lastPush == PushTimer.TimerAfter(m.lastPush, Attempts(m, ts))
  {
    if ts != [] {
      var n := |ts| - 1;
      LoopTimer(m, ts[..n]);
      LoopPushes(LoopAll(m, ts[..n]), ts[n]);
      assert Attempts(m, ts)[..n] == Attempts(m, ts[..n]);
    }
  }

  /** Ticks in real-time order, all after `from`. */
  ghost predicate InOrder(from: nat, ts: seq<Tick>) {
    && (forall i :: 0 <= i < |ts| ==> from <= ts[i].attempt.check <= ts[i].attempt.connect)
    && (forall i, j :: 0 <= i < j < |ts| ==> ts[i].attempt.connect <= ts[j].attempt.check)
  }

  lemma {:induction false} AttemptsInOrder(m: Machine, ts: seq<Tick>, from: nat)
    requires m.ring.Valid() && InOrder(from, ts)
    ensures PushTimer.InOrder(from, Attempts(m, ts))
  {
  }

  lemma {:induction false} AttemptsPush(m: Machine, ts: seq<Tick>)
    requires m.ring.Valid() && ts != []
    ensures Attempts(m, ts) == Attempts(m, ts[..|ts| - 1]) + [PushTimer.Timed(InForce(m, ts).pushFreq, ts[|ts| - 1].attempt)]
  {
  }

  /** A pass is logged exactly when it connects more than the period in force, modulo 2^32, after the last push. */
  lemma {:induction false} LoopLogGrowsIff(m: Machine, ts: seq<Tick>, from: nat)
    requires m.ring.Valid() && m.lastPush == from % 0x1_0000_0000 && InOrder(from, ts) && ts != []
    ensures var n, freq := |ts| - 1, LoopAll(m, ts).settings.cfg.pushFreq;
            var log, a := PushTimer.PushLog(m.lastPush, Attempts(m, ts[..n])), ts[n].attempt;
            PushTimer.PushLog(m.lastPush, Attempts(m, ts)) ==
            log + if a.succeeds
                     && (a.check - PushTimer.LastPush(from, log)) % 0x1_0000_0000 > (freq * 1000) % 0x1_0000_0000
                  then [PushTimer.Push(a.connect, (freq * 1000) % 0x1_0000_0000)]
                  else []
  {
    var n := |ts| - 1;
    AttemptsInOrder(m, ts, from);
    AttemptsPush(m, ts);
    PushTimer.LogGrowsIff(from, Attempts(m, ts[..n]), PushTimer.Timed(InForce(m, ts).pushFreq, ts[n].attempt));
  }

  /** The loop's timer is the last logged push, modulo 2^32. */
  lemma {:induction false} LoopTimerIsLastPush(m: Machine, ts: seq<Tick>, from: nat)
    requires m.ring.Valid() && m.lastPush == from % 0x1_0000_0000 && InOrder(from, ts)
    ensures LoopAll(m, ts).lastPush ==
            PushTimer.LastPush(from, PushTimer.PushLog(m.lastPush, Attempts(m, ts))) % 0x1_0000_0000
  {
    LoopTimer(m, ts);
    AttemptsInOrder(m, ts, from);
    PushTimer.PushesAreSpaced(from, Attempts(m, ts));
  }

  /** A pass that connects more than one period and less than 2^32 ms after the last push always pushes. */
  lemma {:induction false} DuePassPushes(m: Machine, ts: seq<Tick>, from: nat)
    requires m.ring.Valid() && m.lastPush == from % 0x1_0000_0000 && InOrder(from, ts) && ts != []
    ensures var n, period := |ts| - 1, LoopAll(m, ts).settings.cfg.pushFreq * 1000;
            var a, last := ts[n].attempt, PushTimer.LastPush(from, PushTimer.PushLog(m.lastPush, Attempts(m, ts[..n])));
            a.succeeds && 0 <= period < a.check - last < 0x1_0000_0000 ==>
              LoopAll(m, ts).lastPush == a.connect % 0x1_0000_0000
  {
    var n := |ts| - 1;
    AttemptsInOrder(m, ts, from);
    AttemptsPush(m, ts);
    PushTimer.DueAttemptPushes(from, Attempts(m, ts[..n]), PushTimer.Timed(InForce(m, ts).pushFreq, ts[n].attempt));
    LoopTimerIsLastPush(m, ts, from);
  }

  /** In every run the pushes are more than the period in force apart, the first one counted from the timer's start. */
  lemma LoopPushSpacing(m: Machine, ts: seq<Tick>, from: nat)
    requires m.ring.Valid() && m.lastPush == from % 0x1_0000_0000 && InOrder(from, ts)
    ensures PushTimer.Spaced(from, PushTimer.PushLog(m.lastPush, Attempts(m, ts)))
  {
    PushTimer.PushesAreSpaced(from, Attempts(m, ts));
  }

  /** While every period in force is at least `gap`, `k` pushes take at least `k` times `gap + 1` milliseconds. */
  lemma LoopPushesTakeTime(m: Machine, ts: seq<Tick>, from: nat, gap: nat)
    requires m.ring.Valid() && m.lastPush == from % 0x1_0000_0000 && InOrder(from, ts)
    requires PushTimer.PeriodsAtLeast(PushTimer.PushLog(m.lastPush, Attempts(m, ts)), gap)
    ensures var log := PushTimer.PushLog(m.lastPush, Attempts(m, ts));
            PushTimer.LastPush(from, log) >= from + |log| * (gap + 1)
  {
    LoopPushSpacing(m, ts, from);
    PushTimer.PushesTakeTime(from, PushTimer.PushLog(m.lastPush, Attempts(m, ts)), gap);
  }
}
