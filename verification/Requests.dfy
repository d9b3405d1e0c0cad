/**
  The requests that change settings, as steps of a state machine over the EEPROM
  image and the configuration in RAM: a reboot between requests changes nothing.
*/
module Requests {
  import opened Slots
  import opened Layout
  import opened GeneralSettings
  import opened SaveAndLoad
  import opened WiFiSettings
  import opened Forms

  // ---- Requests

  datatype Page = GeneralPage | ClientPage | AccessPointPage | OtherPage

  /** A request, and what happens to lie behind the placeholders while it is served. */
  datatype Request = Request(page: Page, post: bool, args: seq<Arg>, tails: Tails)

  datatype Settings = Settings(img: Image, cfg: Config)

  /** Complete credentials are written; incomplete ones are ignored. */
  function UpdateNetwork(img: Image, args: seq<Arg>, net: Network): Image {
    var w := WiFiForm(args, net);
    if w.Complete() then Run(img, WiFiPuts(net, w)) else img
  }

  function UpdateWiFi(img: Image, args: seq<Arg>): Image {
    UpdateNetwork(UpdateNetwork(img, args, Client), args, AccessPoint)
  }

  function Handle(s: Settings, r: Request): Settings {
    match r.page
    case GeneralPage =>
      var img := if r.post then Save(UpdateWiFi(s.img, r.args), GeneralForm(s.cfg, r.args), r.tails) else s.img;
      Settings(img, Load(img))
    case ClientPage => if r.post then s.(img := UpdateWiFi(s.img, r.args)) else s
    case AccessPointPage => if r.post then s.(img := UpdateWiFi(s.img, r.args)) else s
    case OtherPage => s
  }

  function HandleAll(s: Settings, rs: seq<Request>): Settings {
    if rs == [] then s else Handle(HandleAll(s, rs[..|rs| - 1]), rs[|rs| - 1])
  }

  /** Power-up: the defaults are all overwritten from the image. */
  function Boot(img: Image): Settings {
    Settings(img, Load(img))
  }

  // ---- RAM and EEPROM agree

  ghost predicate InStep(s: Settings) {
    s.cfg == Load(s.img)
  }

  /** Nothing from the first general setting on differs. */
  ghost predicate SameGeneral(a: Image, b: Image) {
    forall k :: ByteOf(PowerMonEnabled) <= k < SIZE ==> a[k] == b[k]
  }

  lemma SameSlot(a: Image, b: Image, f: TextField)
    requires SameGeneral(a, b) && ByteOf(PowerMonEnabled) <= Start(f)
    ensures Slot(a, Start(f), Length(f)) == Slot(b, Start(f), Length(f))
  {
    assert Slot(a, Start(f), Length(f)) == Slot(b, Start(f), Length(f));
  }

  /** Loading looks at nothing before the general settings. */
  lemma LoadReadsGeneralOnly(a: Image, b: Image)
    requires SameGeneral(a, b)
    ensures Load(a) == Load(b)
  {
    SameSlot(a, b, PulseFreq);
    SameSlot(a, b, PulseFactor);
    SameSlot(a, b, Limit);
    SameSlot(a, b, LimitHigh);
    SameSlot(a, b, LimitDebounce);
    SameSlot(a, b, PushURL);
    SameSlot(a, b, PushArg);
    SameSlot(a, b, PushFreq);
  }

  lemma PutNetwork(img: Image, net: Network, w: WiFi)
    requires |w.ssid| < NAME_SIZE && |w.password| < NAME_SIZE
    ensures SameGeneral(img, Run(img, WiFiPuts(net, w)))
  {
    var puts := WiFiPuts(net, w);
    RunThree(img, puts[0], puts[1], puts[2]);
    assert puts == [puts[0], puts[1], puts[2]];
    WriteStaysInside(img, Start(SSIDField(net)), 16, w.ssid);
    WriteStaysInside(Apply(img, puts[0]), Start(PasswordField(net)), 16, w.password);
  }

  lemma WiFiSparesGeneral(img: Image, args: seq<Arg>)
    ensures SameGeneral(img, UpdateWiFi(img, args))
  {
    PutNetwork(img, Client, WiFiForm(args, Client));
    PutNetwork(UpdateNetwork(img, args, Client), AccessPoint, WiFiForm(args, AccessPoint));
  }

  lemma HandleKeepsInStep(s: Settings, r: Request)
    requires InStep(s)
    ensures InStep(Handle(s, r))
  {
    WiFiSparesGeneral(s.img, r.args);
    LoadReadsGeneralOnly(s.img, UpdateWiFi(s.img, r.args));
  }

  /** Between any two requests a power cycle changes nothing: no condition on the requests or the image. */
  lemma {:induction false} RebootChangesNothing(img: Image, rs: seq<Request>)
    ensures var s := HandleAll(Boot(img), rs); Boot(s.img) == s
  {
    if rs != [] {
      RebootChangesNothing(img, rs[..|rs| - 1]);
      HandleKeepsInStep(HandleAll(Boot(img), rs[..|rs| - 1]), rs[|rs| - 1]);
    }
  }

  lemma ReachableInStep(img: Image, rs: seq<Request>)
    ensures InStep(HandleAll(Boot(img), rs))
  {
    RebootChangesNothing(img, rs);
  }

  // ---- What leaves the settings alone

  /** Only posts to the three settings pages change anything. */
  predicate Reads(r: Request) {
    !r.post || r.page == OtherPage
  }

  /** A request that only shows a page changes neither the EEPROM nor the configuration. */
  lemma ReadingChangesNothing(s: Settings, r: Request)
    requires InStep(s) && (!r.post || r.page == OtherPage)
    ensures Handle(s, r) == s
  {
  }

  /** A post to either WiFi page changes neither the general configuration nor any byte from 66 on. */
  lemma WiFiPostKeepsGeneral(s: Settings, r: Request)
    requires r.page == ClientPage || r.page == AccessPointPage
    ensures Handle(s, r).cfg == s.cfg
    ensures forall k :: 66 <= k < 200 ==> Handle(s, r).img[k] == s.img[k]
  {
    WiFiSparesGeneral(s.img, r.args);
  }

  /** The requests of a run that are posts to a settings page. */
  function Changing(rs: seq<Request>): (changing: seq<Request>)
    ensures forall i :: 0 <= i < |changing| ==> changing[i] in rs && changing[i].post && changing[i].page != OtherPage
    ensures forall r :: r in rs && r.post && r.page != OtherPage ==> r in changing
  {
    if rs == [] then []
    else
      var n := |rs| - 1;
      Changing(rs[..n]) + if Reads(rs[n]) then [] else [rs[n]]
  }

  /** Requests that only show a page can be left out of any run. */
  lemma {:induction false} OnlyPostsMatter(img: Image, rs: seq<Request>)
    ensures HandleAll(Boot(img), rs) == HandleAll(Boot(img), Changing(rs))
  {
    if rs != [] {
      var n := |rs| - 1;
      OnlyPostsMatter(img, rs[..n]);
      ReachableInStep(img, rs[..n]);
      var changing := Changing(rs[..n]);
      if Reads(rs[n]) {
        ReadingChangesNothing(HandleAll(Boot(img), rs[..n]), rs[n]);
        assert changing + [] == changing;
      } else {
        assert (changing + [rs[n]])[..|changing|] == changing;
      }
    }
  }

  // ---- What posting the general form gives

  lemma AfterSaveReadsGeneralOnly(a: Image, b: Image, cfg: Config)
    requires SameGeneral(a, b)
    ensures AfterSave(a, cfg) == AfterSave(b, cfg)
  {
    SameSlot(a, b, PulseFreq);
    SameSlot(a, b, Limit);
    SameSlot(a, b, LimitHigh);
    SameSlot(a, b, LimitDebounce);
    SameSlot(a, b, PushURL);
    SameSlot(a, b, PushArg);
  }

  /** The configuration in force after posting the general form, for every form. */
  lemma PostedSettings(s: Settings, r: Request)
    requires r.page == GeneralPage && r.post && TailsFit(r.tails)
    ensures Handle(s, r).cfg == AfterSave(s.img, GeneralForm(s.cfg, r.args))
  {
    var img := UpdateWiFi(s.img, r.args);
    WiFiSparesGeneral(s.img, r.args);
    AfterSaveReadsGeneralOnly(s.img, img, GeneralForm(s.cfg, r.args));
    LoadAfterSave(img, GeneralForm(s.cfg, r.args), r.tails);
  }

  /**
    When a posted measurement period takes effect. A text whose end position wraps to byte 68 or
    below puts 0 in force whatever was posted; otherwise the posted period is in force exactly when
    it is not 0 or the old one was 0 already: a zero is not written and the old period stays.
  */
  lemma PostedPeriodIff(s: Settings, r: Request)
    requires InStep(s) && r.page == GeneralPage && r.post && TailsFit(r.tails)
    ensures var cfg, period := GeneralForm(s.cfg, r.args), Handle(s, r).cfg.pulseFreq;
            && (Damage(cfg) <= 68 ==> period == 0)
            && (Damage(cfg) > 68 ==> period == if cfg.pulseFreq != 0 then cfg.pulseFreq else s.cfg.pulseFreq)
            && (period == cfg.pulseFreq <==>
                if Damage(cfg) <= 68 then cfg.pulseFreq == 0 else cfg.pulseFreq != 0 || s.cfg.pulseFreq == 0)
  {
    PostedSettings(s, r);
  }
}
