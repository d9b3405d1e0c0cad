/**
  The firmware's global variables, and the methods that load, save and update them.
*/
module Globals {
  import opened Bytes
  import opened Decimal
  import opened Slots
  import opened Layout
  import opened GeneralSettings
  import opened EepromStore
  import opened SettingsIo
  import Detector
  import Ring

  class Device {
    const eeprom: Eeprom

    var powerMonEnabled: bool
    var pulseLight: bool
    var pulseFreq: Byte
    var pulseFactor: int
    var limit: Byte
    var limitHigh: Byte
    var limitDebounce: Byte
    var pushURL: Str
    var pushArg: Str
    var pushFreq: int

    var countHi: Octet
    var countLo: Octet
    var debounce: bool
    var pulses: nat

    const buffer: array<Byte>
    var bufferPos: nat

    var lastConnectionTime: nat

    ghost predicate Valid()
      reads this, buffer
    {
      && eeprom.Valid() && eeprom.data != buffer
      && 0 < buffer.Length <= 255 && bufferPos < buffer.Length
      && pulses < TWO32
    }

    function Cfg(): Config
      reads this
    {
      Config(powerMonEnabled, pulseLight, pulseFreq, pulseFactor, limit, limitHigh, limitDebounce, pushURL, pushArg, pushFreq)
    }

    function Meter(): Detector.Meter
      reads this
    {
      Detector.Meter(countHi, countLo, debounce, pulses)
    }

    function Readings(): Ring.Buffer
      reads this, buffer
    {
      Ring.Buffer(buffer[..], bufferPos)
    }

    /** Zeroed variables, the EEPROM opened on `flash`, and a cleared buffer. */
    constructor (flash: Image, size: nat)
      requires 0 < size <= 255
      ensures Valid() && fresh(eeprom) && fresh(eeprom.data) && fresh(buffer)
      ensures eeprom.Contents() == flash && eeprom.Committed()
      ensures Readings() == Ring.Empty(size) && lastConnectionTime == 0
    {
      eeprom := new Eeprom(flash);
      powerMonEnabled, pulseLight, pulseFreq, pulseFactor := false, false, 0, 0;
      limit, limitHigh, limitDebounce := 0, 0, 0;
      pushURL, pushArg, pushFreq := [], [], 0;
      countHi, countLo, debounce, pulses := 0, 0, false, 0;
      buffer := new Byte[size](i => 0);
      bufferPos := 0;
      lastConnectionTime := 0;
      new;
      assert buffer[..] == Zeros(size);
    }
  }

  /** The factory defaults: `http://192.168.1.101` and `value` among them. */
  const DEFAULTS := Config(false, false, 100, 5660, 120, 5, 5,
    [0x68, 0x74, 0x74, 0x70, 0x3A, 0x2F, 0x2F, 0x31, 0x39, 0x32, 0x2E, 0x31, 0x36, 0x38, 0x2E, 0x31, 0x2E, 0x31, 0x30, 0x31],
    [0x76, 0x61, 0x6C, 0x75, 0x65], 600)

  method LoadDefaultSettings(g: Device)
    requires g.Valid()
    modifies g`powerMonEnabled, g`pulseLight, g`pulseFreq, g`pulseFactor, g`limit, g`limitHigh, g`limitDebounce,
             g`pushURL, g`pushArg, g`pushFreq, g`countHi, g`countLo, g`debounce
    ensures g.Cfg() == DEFAULTS && g.Meter() == Detector.START.(pulses := g.pulses)
    ensures g.Valid() && g.eeprom.Contents() == old(g.eeprom.Contents()) && g.Readings() == old(g.Readings())
  {
    g.powerMonEnabled, g.pulseLight := false, false;
    g.pulseFreq, g.pulseFactor := 100, 5660;
    g.limit, g.limitHigh, g.limitDebounce := 120, 5, 5;
    g.countHi, g.countLo, g.debounce := 0, 0, false;
    g.pushURL, g.pushArg, g.pushFreq := DEFAULTS.pushURL, DEFAULTS.pushArg, 600;
  }

  method LoadSettings(g: Device, ghost img: Image)
    requires g.Valid() && g.eeprom.Contents() == img
    modifies g`powerMonEnabled, g`pulseLight, g`pulseFreq, g`pulseFactor, g`limit, g`limitHigh, g`limitDebounce,
             g`pushURL, g`pushArg, g`pushFreq
    ensures g.Cfg() == Load(img)
    ensures g.Valid() && g.eeprom.Contents() == img && g.Readings() == old(g.Readings()) && g.Meter() == old(g.Meter())
  {
    var cfg := ReadConfig(g.eeprom);
    AssignConfig(g, cfg);
  }

  method AssignConfig(g: Device, cfg: Config)
    requires g.Valid()
    modifies g`powerMonEnabled, g`pulseLight, g`pulseFreq, g`pulseFactor, g`limit, g`limitHigh, g`limitDebounce,
             g`pushURL, g`pushArg, g`pushFreq
    ensures g.Cfg() == cfg && g.Meter() == old(g.Meter())
    ensures g.Valid() && g.eeprom.Contents() == old(g.eeprom.Contents()) && g.Readings() == old(g.Readings())
  {
    g.powerMonEnabled, g.pulseLight := cfg.powerMonEnabled, cfg.pulseLight;
    g.pulseFreq, g.pulseFactor := cfg.pulseFreq, cfg.pulseFactor;
    g.limit, g.limitHigh, g.limitDebounce := cfg.limit, cfg.limitHigh, cfg.limitDebounce;
    g.pushURL, g.pushArg, g.pushFreq := cfg.pushURL, cfg.pushArg, cfg.pushFreq;
  }

  method ReadConfig(e: Eeprom) returns (cfg: Config)
    requires e.Valid()
    ensures cfg == Load(e.Contents())
  {
    ghost var img := e.Contents();
    var enabled := ReadFlag(e, 66, 0, PowerMonEnabled, img);
    var light := ReadFlag(e, 66, 1, PulseLight, img);
    var period := ReadText(e, 67, 2, PulseFreq, img);
    var factor := ReadNumber(e, 69, PulseFactor, img);
    var limit := ReadText(e, 75, 2, Limit, img);
    var high := ReadText(e, 77, 2, LimitHigh, img);
    var low := ReadText(e, 79, 2, LimitDebounce, img);
    var url := ReadText(e, 81, 40, PushURL, img);
    var arg := ReadText(e, 121, 10, PushArg, img);
    var freq := ReadNumber(e, 131, PushFreq, img);
    cfg := Config(enabled, light, At(period, 0), TruncDiv(factor, 10), At(limit, 0), At(high, 0), At(low, 0), url, arg, freq);
  }

  method SaveSettings(g: Device, tails: Tails)
    requires g.Valid()
    modifies g.eeprom, g.eeprom.data
    ensures g.eeprom.Contents() == Save(old(g.eeprom.Contents()), g.Cfg(), tails)
    ensures g.eeprom.Committed()
  {
    WriteConfig(g.eeprom, g.Cfg(), tails);
  }

  method WriteConfig(e: Eeprom, cfg: Config, tails: Tails)
    requires e.Valid()
    modifies e, e.data
    ensures e.Contents() == Save(old(e.Contents()), cfg, tails) && e.Committed()
  {
    ghost var img := e.Contents();
    SaveInParts(img, cfg, tails);
    WriteFlags(e, cfg);
    WriteMeterConfig(e, cfg, tails);
    WriteLimits(e, cfg, tails);
    WritePushConfig(e, cfg);
  }

  method WriteFlags(e: Eeprom, cfg: Config)
    requires e.Valid()
    modifies e, e.data
    ensures e.Contents() == Run(old(e.Contents()), FlagPuts(cfg))
  {
    ghost var img := e.Contents();
    ghost var done := WriteFlag(e, 66, 0, cfg.powerMonEnabled, PowerMonEnabled, img, []);
    done := WriteFlag(e, 66, 1, cfg.pulseLight, PulseLight, img, done);
    assert done == FlagPuts(cfg);
  }

  method WriteMeterConfig(e: Eeprom, cfg: Config, tails: Tails)
    requires e.Valid()
    modifies e, e.data
    ensures e.Contents() == Run(old(e.Contents()), MeterPuts(cfg, tails))
  {
    ghost var img := e.Contents();
    ghost var done := WriteText(e, 67, 2, Placeholder(cfg.pulseFreq, tails.pulseFreq), PulseFreq, img, []);
    done := WriteNumber(e, 69, Wrap32(cfg.pulseFactor * 10), PulseFactor, img, done);
    assert done == MeterPuts(cfg, tails);
  }

  method WriteLimits(e: Eeprom, cfg: Config, tails: Tails)
    requires e.Valid()
    modifies e, e.data
    ensures e.Contents() == Run(old(e.Contents()), LimitPuts(cfg, tails))
  {
    ghost var img := e.Contents();
    ghost var done := WriteText(e, 75, 2, Placeholder(cfg.limit, tails.limit), Limit, img, []);
    done := WriteText(e, 77, 2, Placeholder(cfg.limitHigh, tails.limitHigh), LimitHigh, img, done);
    done := WriteText(e, 79, 2, Placeholder(cfg.limitDebounce, tails.limitDebounce), LimitDebounce, img, done);
    assert done == LimitPuts(cfg, tails);
  }

  method WritePushConfig(e: Eeprom, cfg: Config)
    requires e.Valid()
    modifies e, e.data
    ensures e.Contents() == Run(old(e.Contents()), PushPuts(cfg)) && e.Committed()
  {
    ghost var img := e.Contents();
    ghost var done := WriteText(e, 81, 40, cfg.pushURL, PushURL, img, []);
    done := WriteText(e, 121, 10, cfg.pushArg, PushArg, img, done);
    done := WriteNumber(e, 131, cfg.pushFreq, PushFreq, img, done);
    assert done == PushPuts(cfg);
  }
}
