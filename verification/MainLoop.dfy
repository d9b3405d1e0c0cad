/**
  Set-up, request handling and the main loop, on the firmware's variables. Each
  is proved to take the step that the state machine takes.
*/
module MainLoop {
  import opened Bytes
  import opened Slots
  import opened GeneralSettings
  import opened Globals
  import opened Other
  import opened WiFiForms
  import Detector
  import Firmware
  import Requests
  import Forms
  import PushTimer

  /** The state machine's view of the variables. */
  ghost function MachineOf(g: Device): Firmware.Machine
    requires g.Valid()
    reads g, g.buffer, g.eeprom, g.eeprom.data
  {
    Firmware.Machine(SettingsOf(g), g.Meter(), g.Readings(), g.lastConnectionTime)
  }

  ghost function SettingsOf(g: Device): Requests.Settings
    requires g.Valid()
    reads g, g.buffer, g.eeprom, g.eeprom.data
  {
    Requests.Settings(g.eeprom.Contents(), g.Cfg())
  }

  /** Power-up from a flash image: the defaults are loaded and then the stored settings. */
  method Setup(flash: Image, size: nat) returns (g: Device)
    requires 0 < size <= 255
    ensures fresh(g) && fresh(g.eeprom) && fresh(g.eeprom.data) && fresh(g.buffer)
    ensures g.Valid() && g.eeprom.Committed()
    ensures MachineOf(g) == Firmware.PowerUp(flash, size)
  {
    g := new Device(flash, size);
    Initialise(g, flash);
  }

  /** The defaults, over them whatever the EEPROM holds, and no pulses yet. */
  method Initialise(g: Device, ghost flash: Image)
    requires g.Valid() && g.eeprom.Contents() == flash
    modifies g`powerMonEnabled, g`pulseLight, g`pulseFreq, g`pulseFactor, g`limit, g`limitHigh, g`limitDebounce,
             g`pushURL, g`pushArg, g`pushFreq, g`countHi, g`countLo, g`debounce, g`pulses
    ensures g.Valid() && g.eeprom.Contents() == flash && g.Cfg() == Load(flash) && g.Meter() == Detector.START
  {
    LoadDefaultSettings(g);
    LoadSettings(g, flash);
    ClearPulses(g);
  }

  method ClearPulses(g: Device)
    requires g.Valid()
    modifies g`pulses
    ensures g.Valid() && g.eeprom.Contents() == old(g.eeprom.Contents()) && g.Cfg() == old(g.Cfg())
    ensures g.Meter() == old(g.Meter()).(pulses := 0)
  {
    g.pulses := 0;
  }

  /** A posted form changes the EEPROM and the variables, not yet in agreement. */
  method ProcessForm(g: Device, r: Requests.Request)
    requires g.Valid() && |r.args| <= 255
    modifies g`powerMonEnabled, g`pulseLight, g`pulseFreq, g`pulseFactor, g`limit, g`limitHigh, g`limitDebounce,
             g`pushURL, g`pushArg, g`pushFreq, g.eeprom, g.eeprom.data
    ensures g.Valid() && g.eeprom.Committed()
    ensures var s := old(SettingsOf(g));
            g.eeprom.Contents() == Save(Requests.UpdateWiFi(s.img, r.args), Forms.GeneralForm(s.cfg, r.args), r.tails)
  {
    var changed := UpdateWiFiSettings(g.eeprom, r.args);
    UpdateGeneralSettings(g, r.args);
    SaveSettings(g, r.tails);
  }

  method HandleGeneralSettings(g: Device, r: Requests.Request)
    requires g.Valid() && g.eeprom.Committed() && r.page == Requests.GeneralPage && |r.args| <= 255
    modifies g`powerMonEnabled, g`pulseLight, g`pulseFreq, g`pulseFactor, g`limit, g`limitHigh, g`limitDebounce,
             g`pushURL, g`pushArg, g`pushFreq, g.eeprom, g.eeprom.data
    ensures g.Valid() && g.eeprom.Committed()
    ensures SettingsOf(g) == Requests.Handle(old(SettingsOf(g)), r)
  {
    if r.post {
      ProcessForm(g, r);
    }
    LoadSettings(g, g.eeprom.Contents());
  }

  method HandleRequest(g: Device, r: Requests.Request)
    requires g.Valid() && g.eeprom.Committed() && |r.args| <= 255
    modifies g`powerMonEnabled, g`pulseLight, g`pulseFreq, g`pulseFactor, g`limit, g`limitHigh, g`limitDebounce,
             g`pushURL, g`pushArg, g`pushFreq, g.eeprom, g.eeprom.data
    ensures g.Valid() && g.eeprom.Committed()
    ensures SettingsOf(g) == Requests.Handle(old(SettingsOf(g)), r)
  {
    match r.page {
      case GeneralPage => HandleGeneralSettings(g, r);
      case ClientPage =>
        if r.post {
          var changed := UpdateWiFiSettings(g.eeprom, r.args);
        }
      case AccessPointPage =>
        if r.post {
          var changed := UpdateWiFiSettings(g.eeprom, r.args);
        }
      case OtherPage =>
    }
  }

  /** The sampling part of a pass. */
  method Sample(g: Device, reading: Firmware.Reading)
    requires g.Valid() && g.eeprom.Committed()
    modifies g, g.buffer
    ensures g.Valid() && g.eeprom.Committed()
    ensures var m := old(MachineOf(g));
            m.ring.Valid() && MachineOf(g) == if m.settings.cfg.powerMonEnabled then Firmware.Sampled(m, reading) else m
  {
    if g.powerMonEnabled {
      ghost var img := g.eeprom.Contents();
      AddADCValueToBuffer(g, reading);
      assert g.eeprom.Contents() == img;
    }
  }

  /** The request of a pass, if there is one. */
  method Serve(g: Device, request: Option<Requests.Request>)
    requires g.Valid() && g.eeprom.Committed()
    requires request.Some? ==> |request.value.args| <= 255
    modifies g`powerMonEnabled, g`pulseLight, g`pulseFreq, g`pulseFactor, g`limit, g`limitHigh, g`limitDebounce,
             g`pushURL, g`pushArg, g`pushFreq, g.eeprom, g.eeprom.data
    ensures g.Valid() && g.eeprom.Committed()
    ensures var m := old(MachineOf(g));
            MachineOf(g) == if request.Some? then m.(settings := Requests.Handle(m.settings, request.value)) else m
  {
    if request.Some? {
      ghost var readings := g.Readings();
      HandleRequest(g, request.value);
      assert g.Readings() == readings;
    }
  }

  /** One pass of the main loop. */
  method Loop(g: Device, t: Firmware.Tick)
    requires g.Valid() && g.eeprom.Committed()
    requires t.request.Some? ==> |t.request.value.args| <= 255
    modifies g, g.buffer, g.eeprom, g.eeprom.data
    ensures g.Valid() && g.eeprom.Committed()
    ensures old(MachineOf(g)).ring.Valid() && MachineOf(g) == Firmware.Loop(old(MachineOf(g)), t)
  {
    Serve(g, t.request);
    Sample(g, t.reading);
    PushTimer.AfterAttemptIs(g.lastConnectionTime, g.pushFreq, t.attempt);
    CheckWhetherToPushData(g, t.attempt);
  }

  /** A power cycle at any point between passes brings back the same settings from flash. */
  method Reboot(g: Device, ghost image: Image, ghost size: nat, ghost ts: seq<Firmware.Tick>) returns (g': Device)
    requires g.Valid() && g.eeprom.Committed() && 0 < size <= 255
    requires MachineOf(g) == Firmware.LoopAll(Firmware.PowerUp(image, size), ts)
    ensures g'.Valid() && SettingsOf(g') == SettingsOf(g)
  {
    g' := Setup(g.eeprom.flash, g.buffer.Length);
    Firmware.RebootDuringLoop(image, size, ts);
  }
}
