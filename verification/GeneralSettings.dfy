/**
  The general settings: saving them as EEPROM writes, and loading them.
*/
module GeneralSettings {
  import opened Bytes
  import opened Decimal
  import opened Slots
  import opened Layout

  datatype Config = Config(
    powerMonEnabled: bool, pulseLight: bool,
    pulseFreq: Byte, pulseFactor: int,
    limit: Byte, limitHigh: Byte, limitDebounce: Byte,
    pushURL: Str, pushArg: Str, pushFreq: int)

  /** An integer slot's text as a number. */
  function IntOf(s: Str): int {
    if |s| > 0 then ToInt(s) else 0
  }

  function IntAt(img: Image, f: TextField): int {
    IntOf(GetText(img, f))
  }

  /** The configuration that `loadSettings` finds in an image. */
  function Load(img: Image): Config {
    Config(
      GetFlag(img, PowerMonEnabled), GetFlag(img, PulseLight),
      At(GetText(img, PulseFreq), 0), TruncDiv(IntAt(img, PulseFactor), 10),
      At(GetText(img, Limit), 0), At(GetText(img, LimitHigh), 0), At(GetText(img, LimitDebounce), 0),
      GetText(img, PushURL), GetText(img, PushArg), IntAt(img, PushFreq))
  }

  /** Where each setting lies. */
  lemma SettingsAt(img: Image)
    ensures var cfg := Load(img);
            && (cfg.powerMonEnabled <==> img[66] & 1 != 0) && (cfg.pulseLight <==> img[66] & 2 != 0)
            && cfg.pulseFreq == At(Decode(img[67..69]), 0)
            && cfg.pulseFactor == TruncDiv(IntOf(Decode(img[69..75])), 10)
            && cfg.limit == At(Decode(img[75..77]), 0)
            && cfg.limitHigh == At(Decode(img[77..79]), 0)
            && cfg.limitDebounce == At(Decode(img[79..81]), 0)
            && cfg.pushURL == Decode(img[81..121])
            && cfg.pushArg == Decode(img[121..131])
            && cfg.pushFreq == IntOf(Decode(img[131..137]))
  {
  }

  /** What lies in memory, up to the next NUL, after the one byte that is set of each two-byte placeholder. */
  datatype Tails = Tails(pulseFreq: Str, limit: Str, limitHigh: Str, limitDebounce: Str)

  /** The C string that starts at the placeholder. */
  function Placeholder(c: Byte, tail: Str): Str {
    CString([c] + tail)
  }

  function IntPut(f: TextField, v: int): Put {
    PutText(f, Print(Clamp(v)))
  }

  /** The writes of `saveSettings`, in order: the flags, the meter, its limits, the push. */
  function SavePuts(cfg: Config, tails: Tails): seq<Put> {
    FlagPuts(cfg) + MeterPuts(cfg, tails) + LimitPuts(cfg, tails) + PushPuts(cfg)
  }

  function FlagPuts(cfg: Config): seq<Put> {
    [ PutFlag(PowerMonEnabled, cfg.powerMonEnabled),
      PutFlag(PulseLight, cfg.pulseLight) ]
  }

  function MeterPuts(cfg: Config, tails: Tails): seq<Put> {
    [ PutText(PulseFreq, Placeholder(cfg.pulseFreq, tails.pulseFreq)),
      IntPut(PulseFactor, Wrap32(cfg.pulseFactor * 10)) ]
  }

  function LimitPuts(cfg: Config, tails: Tails): seq<Put> {
    [ PutText(Limit, Placeholder(cfg.limit, tails.limit)),
      PutText(LimitHigh, Placeholder(cfg.limitHigh, tails.limitHigh)),
      PutText(LimitDebounce, Placeholder(cfg.limitDebounce, tails.limitDebounce)) ]
  }

  function PushPuts(cfg: Config): seq<Put> {
    [ PutText(PushURL, cfg.pushURL),
      PutText(PushArg, cfg.pushArg),
      IntPut(PushFreq, cfg.pushFreq) ]
  }

  function Save(img: Image, cfg: Config, tails: Tails): Image {
    Run(img, SavePuts(cfg, tails))
  }

  lemma SaveInParts(img: Image, cfg: Config, tails: Tails)
    ensures Save(img, cfg, tails) ==
            Run(Run(Run(Run(img, FlagPuts(cfg)), MeterPuts(cfg, tails)), LimitPuts(cfg, tails)), PushPuts(cfg))
  {
    var a, b, c, d := FlagPuts(cfg), MeterPuts(cfg, tails), LimitPuts(cfg, tails), PushPuts(cfg);
    RunAppend(img, a, b);
    RunAppend(img, a + b, c);
    RunAppend(img, a + b + c, d);
  }

  ghost predicate TailFits(f: TextField, tail: Str) {
    Start(f) + 1 + |tail| <= 255
  }

  /** The stray bytes behind the placeholders are too few to wrap an end position. */
  ghost predicate TailsFit(t: Tails) {
    TailFits(PulseFreq, t.pulseFreq) && TailFits(Limit, t.limit)
    && TailFits(LimitHigh, t.limitHigh) && TailFits(LimitDebounce, t.limitDebounce)
  }

  ghost predicate ConfigContained(cfg: Config) {
    Slots.Contained(Start(PushURL), cfg.pushURL) && Slots.Contained(Start(PushArg), cfg.pushArg)
  }
}
