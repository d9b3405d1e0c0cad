/**
  Sampling the ADC, processing the general form, and the push timer, on the
  firmware's variables.
*/
module Other {
  import opened Bytes
  import opened Decimal
  import opened GeneralSettings
  import opened Forms
  import opened Globals
  import Detector
  import Ring
  import Escape
  import Firmware
  import PushTimer

  /** Stores a reading and runs the detector on it. */
  method AddADCValueToBuffer(g: Device, reading: Firmware.Reading)
    requires g.Valid()
    modifies g, g.buffer
    ensures g.Valid() && g.Cfg() == old(g.Cfg()) && g.lastConnectionTime == old(g.lastConnectionTime)
    ensures old(g.Readings()).Valid() && g.Readings() == Ring.Add(old(g.Readings()), Firmware.Value(reading))
    ensures g.Meter() == Firmware.Wrapped(Detector.Step(old(g.Meter()), Firmware.CycleOf(g.Cfg(), reading)))
  {
    AddValue(g, (reading / 4) as Byte, Firmware.CycleOf(g.Cfg(), reading));
  }

  /** The same for a value of 8 bits. */
  method AddValue(g: Device, v: Byte, ghost cycle: Detector.Cycle)
    requires g.Valid() && cycle == Detector.Cycle(v >= g.limit, g.limitHigh as int, g.limitDebounce as int)
    modifies g`countHi, g`countLo, g`debounce, g`pulses, g`bufferPos, g.buffer
    ensures g.Valid()
    ensures old(g.Readings()).Valid() && g.Readings() == Ring.Add(old(g.Readings()), v)
    ensures g.Meter() == Firmware.Wrapped(Detector.Step(old(g.Meter()), cycle))
  {
    g.buffer[g.bufferPos] := v;
    assert g.buffer[..] == old(g.buffer[..])[old(g.bufferPos) := v];
    Detect(g, g.buffer[g.bufferPos] >= g.limit, cycle);
    g.bufferPos := g.bufferPos + 1;
    if g.bufferPos >= g.buffer.Length {
      g.bufferPos := 0;
    }
  }

  /** The detector's part of a sample: the counters wrap at 256, the pulse count at 2^32. */
  method Detect(g: Device, high: bool, ghost cycle: Detector.Cycle)
    requires g.pulses < TWO32 && cycle == Detector.Cycle(high, g.limitHigh as int, g.limitDebounce as int)
    modifies g`countHi, g`countLo, g`debounce, g`pulses
    ensures g.pulses < TWO32
    ensures g.Meter() == Firmware.Wrapped(Detector.Step(old(g.Meter()), cycle))
  {
    if high {
      g.countHi := (g.countHi + 1) % 256;
      g.countLo := 0;
      if !g.debounce {
        if g.countHi > g.limitHigh as int {
          g.pulses := (g.pulses + 1) % TWO32;
          g.debounce := true;
        }
      }
    } else {
      g.countLo := (g.countLo + 1) % 256;
      g.countHi := 0;
      if g.countLo > g.limitDebounce as int {
        g.debounce := false;
      }
    }
  }

  /** Looks at the clock, and on a successful connection notes the time. */
  method CheckWhetherToPushData(g: Device, a: PushTimer.Attempt)
    requires g.Valid()
    modifies g`lastConnectionTime
    ensures g.lastConnectionTime ==
            if a.succeeds && (a.check - old(g.lastConnectionTime)) % 0x1_0000_0000 > (g.pushFreq * 1000) % 0x1_0000_0000
            then a.connect % 0x1_0000_0000
            else old(g.lastConnectionTime)
  {
    PushTimer.AfterAttemptIs(g.lastConnectionTime, g.pushFreq, a);
    var elapsed := PushTimer.Unsigned32(PushTimer.Unsigned32(a.check) - g.lastConnectionTime);
    if elapsed > PushTimer.Unsigned32(g.pushFreq * 1000) {
      if a.succeeds {
        g.lastConnectionTime := PushTimer.Unsigned32(a.connect);
      }
    }
  }

  method ReadByteArg(value: Str) returns (b: Byte)
    ensures b == ClampByte(ToInt(value))
  {
    var n := ToInt(value);
    if n > 255 {
      n := 255;
    }
    if n < 0 {
      n := 0;
    }
    b := n as Byte;
  }

  /** Goes through the arguments in order; each recognised one overwrites its setting. */
  method UpdateGeneralSettings(g: Device, args: seq<Arg>)
    requires |args| <= 255
    modifies g`powerMonEnabled, g`pulseLight, g`pulseFreq, g`pulseFactor, g`limit, g`limitHigh, g`limitDebounce,
             g`pushURL, g`pushArg, g`pushFreq
    ensures g.Cfg() == GeneralForm(old(g.Cfg()), args)
  {
    ghost var before := g.Cfg();
    g.powerMonEnabled := false;
    g.pulseLight := false;
    for i := 0 to |args|
      invariant g.Cfg() == GeneralForm(before, args[..i])
    {
      FormNext(before, args, i);
      ApplyArg(g, args[i]);
    }
    assert args[..|args|] == args;
  }

  /** The configuration after one more argument. */
  function WithArg(cfg: Config, a: Arg): Config {
    match SettingOf(At(a.name, 1))
    case Monitor => cfg.(powerMonEnabled := ToInt(a.value) == 1)
    case Light => cfg.(pulseLight := ToInt(a.value) == 1)
    case Period => cfg.(pulseFreq := ClampByte(ToInt(a.value)))
    case Level => cfg.(limit := ClampByte(ToInt(a.value)))
    case High => cfg.(limitHigh := ClampByte(ToInt(a.value)))
    case Debounce => cfg.(limitDebounce := ClampByte(ToInt(a.value)))
    case Factor => cfg.(pulseFactor := ClampFactor(ToInt(a.value)))
    case URL => cfg.(pushURL := Escape.Decode(a.value))
    case Argument => cfg.(pushArg := a.value)
    case Frequency => cfg.(pushFreq := ClampPushFreq(ToInt(a.value)))
    case Unknown => cfg
  }

  /** The last values after one more argument. */
  function GivenNext(v: Given, a: Arg): Given {
    Given(
      if Matches(a, General(Monitor)) then Some(a.value) else v.monitor,
      if Matches(a, General(Light)) then Some(a.value) else v.light,
      if Matches(a, General(Period)) then Some(a.value) else v.period,
      if Matches(a, General(Level)) then Some(a.value) else v.level,
      if Matches(a, General(High)) then Some(a.value) else v.high,
      if Matches(a, General(Debounce)) then Some(a.value) else v.debounce,
      if Matches(a, General(Factor)) then Some(a.value) else v.factor,
      if Matches(a, General(URL)) then Some(a.value) else v.url,
      if Matches(a, General(Argument)) then Some(a.value) else v.argument,
      if Matches(a, General(Frequency)) then Some(a.value) else v.frequency)
  }

  lemma LastGivenPush(args: seq<Arg>, a: Arg)
    ensures LastGiven(args + [a]) == GivenNext(LastGiven(args), a)
  {
  }

  lemma ConfiguredNext(before: Config, v: Given, a: Arg)
    ensures Configured(before, GivenNext(v, a)) == WithArg(Configured(before, v), a)
  {
    var c, d := Configured(before, v), Configured(before, GivenNext(v, a));
    match SettingOf(At(a.name, 1)) {
      case Monitor => assert d == c.(powerMonEnabled := ToInt(a.value) == 1);
      case Light => assert d == c.(pulseLight := ToInt(a.value) == 1);
      case Period => assert GivenNext(v, a) == v.(period := Some(a.value));
      case Level => assert GivenNext(v, a) == v.(level := Some(a.value));
      case High => assert GivenNext(v, a) == v.(high := Some(a.value));
      case Debounce => assert GivenNext(v, a) == v.(debounce := Some(a.value));
      case Factor => assert GivenNext(v, a) == v.(factor := Some(a.value));
      case URL => assert GivenNext(v, a) == v.(url := Some(a.value));
      case Argument => assert GivenNext(v, a) == v.(argument := Some(a.value));
      case Frequency => assert GivenNext(v, a) == v.(frequency := Some(a.value));
      case Unknown => assert GivenNext(v, a) == v;
    }
  }

  lemma FormNext(before: Config, args: seq<Arg>, i: nat)
    requires i < |args|
    ensures GeneralForm(before, args[..i + 1]) == WithArg(GeneralForm(before, args[..i]), args[i])
  {
    assert args[..i + 1] == args[..i] + [args[i]];
    LastGivenPush(args[..i], args[i]);
    ConfiguredNext(before, LastGiven(args[..i]), args[i]);
  }

  /** One pass of the loop over the arguments. */
  method ApplyArg(g: Device, a: Arg)
    modifies g`powerMonEnabled, g`pulseLight, g`pulseFreq, g`pulseFactor, g`limit, g`limitHigh, g`limitDebounce,
             g`pushURL, g`pushArg, g`pushFreq
    ensures g.Cfg() == WithArg(old(g.Cfg()), a)
  {
    var letter := At(a.name, 1);
    if letter == LETTER_M {
      g.powerMonEnabled := ToInt(a.value) == 1;
    } else if letter == LETTER_L {
      g.pulseLight := ToInt(a.value) == 1;
    } else if letter == LETTER_T {
      g.pulseFreq := ReadByteArg(a.value);
    } else if letter == LETTER_D {
      g.limit := ReadByteArg(a.value);
    } else if letter == LETTER_H {
      g.limitHigh := ReadByteArg(a.value);
    } else if letter == LETTER_I {
      g.limitDebounce := ReadByteArg(a.value);
    } else if letter == LETTER_C {
      g.pulseFactor := ToInt(a.value);
      if g.pulseFactor <= 0 {
        g.pulseFactor := 1;
      }
    } else if letter == LETTER_U {
      g.pushURL := Escape.EscapeParameter(a.value);
    } else if letter == LETTER_A {
      g.pushArg := a.value;
    } else if letter == LETTER_F {
      g.pushFreq := ToInt(a.value);
      if g.pushFreq < 5 {
        g.pushFreq := 5;
      } else if g.pushFreq > 1000 {
        g.pushFreq := 1000;
      }
    }
  }
}
