/**
  What the general settings page can do to the stored WiFi credentials, and what
  the credentials are after any run of requests.
*/
module Credentials {
  import opened Bytes
  import opened Slots
  import opened Layout
  import opened GeneralSettings
  import opened SaveAndLoad
  import opened WiFiSettings
  import opened Forms
  import opened Requests
  import opened Decimal
  import Escape

  // ---- What a save does to the bytes before its own settings

  const FIRST := 66

  /** The end position of `s`, formed in one byte, falls among the credentials. */
  predicate Reaches(f: TextField, s: Str) {
    WrapEnd(f, s) < FIRST
  }

  /** A write to a general setting keeps an earlier byte, or clears it if its end position wrapped to it or below. */
  lemma ApplyBelow(img: Image, p: Put, k: nat)
    requires p.PutText? && FIRST <= Start(p.field) && k < FIRST
    ensures Apply(img, p)[k] == if WrapEnd(p.field, p.text) <= k then 0 else img[k]
  {
    WriteElsewhere(img, p.field, p.text, k);
  }

  lemma {:induction false} ContainedKeepBelow(img: Image, puts: seq<Put>, k: nat)
    requires k < FIRST && AllContained(puts)
    requires forall i :: 0 <= i < |puts| ==>
               if puts[i].PutText? then FIRST <= Start(puts[i].field) else FIRST <= ByteOf(puts[i].flag)
    ensures Run(img, puts)[k] == img[k]
  {
    if puts != [] {
      var n := |puts| - 1;
      ContainedKeepBelow(img, puts[..n], k);
      if puts[n].PutText? {
        ApplyBelow(Run(img, puts[..n]), puts[n], k);
      }
    }
  }

  lemma FrontKeepsBelow(img: Image, front: seq<Put>, cfg: Config, tails: Tails, k: nat)
    requires IsFront(front, cfg, tails) && TailsFit(tails) && k < FIRST
    ensures Run(img, front)[k] == img[k]
  {
    FrontContained(front, cfg, tails);
    ContainedKeepBelow(img, front, k);
  }

  lemma ThreeBelow(img: Image, p: Put, q: Put, r: Put, k: nat)
    requires p.PutText? && q.PutText? && r.PutText? && k < FIRST && r.Contained()
    requires FIRST <= Start(p.field) && FIRST <= Start(q.field) && FIRST <= Start(r.field)
    ensures Run(img, [p, q, r])[k] ==
            if WrapEnd(p.field, p.text) <= k || WrapEnd(q.field, q.text) <= k then 0 else img[k]
  {
    RunThree(img, p, q, r);
    ApplyBelow(img, p, k);
    ApplyBelow(Apply(img, p), q, k);
    ApplyBelow(Apply(Apply(img, p), q), r, k);
  }

  lemma PushTextsBelow(img: Image, url: Str, arg: Str, freq: Str, k: nat)
    requires k < FIRST && Slots.Contained(Start(PushFreq), freq)
    ensures Run(img, [PutText(PushURL, url), PutText(PushArg, arg), PutText(PushFreq, freq)])[k] ==
            if Lower(WrapEnd(PushURL, url), WrapEnd(PushArg, arg)) <= k then 0 else img[k]
  {
    ThreeBelow(img, PutText(PushURL, url), PutText(PushArg, arg), PutText(PushFreq, freq), k);
  }

  lemma BackBelow(img: Image, cfg: Config, k: nat)
    requires k < FIRST
    ensures Run(img, PushPuts(cfg))[k] == if Damage(cfg) <= k then 0 else img[k]
  {
    IntPutContained(cfg.pushFreq);
    PushTextsBelow(img, cfg.pushURL, cfg.pushArg, IntPut(PushFreq, cfg.pushFreq).text, k);
  }

  /** A byte before the general settings is kept by a save, or zeroed by a text whose end wrapped to it or below. */
  lemma SaveBelow(img: Image, cfg: Config, tails: Tails, k: nat)
    requires TailsFit(tails) && k < FIRST
    ensures Save(img, cfg, tails)[k] == if Damage(cfg) <= k then 0 else img[k]
  {
    var front := FrontPuts(cfg, tails);
    RunAppend(img, front, PushPuts(cfg));
    FrontKeepsBelow(img, front, cfg, tails, k);
    BackBelow(Run(img, front), cfg, k);
  }

  ghost predicate SameNetworks(a: Image, b: Image) {
    forall k: nat :: k < FIRST ==> a[k] == b[k]
  }

  lemma SaveSparesNetworks(img: Image, cfg: Config, tails: Tails)
    requires TailsFit(tails) && !Reaches(PushURL, cfg.pushURL) && !Reaches(PushArg, cfg.pushArg)
    ensures SameNetworks(img, Save(img, cfg, tails))
  {
    forall k: nat | k < FIRST
      ensures Save(img, cfg, tails)[k] == img[k]
    {
      SaveBelow(img, cfg, tails, k);
    }
  }

  lemma ReachingTextIsHarmful(ones: Image, cfg: Config, tails: Tails)
    requires TailsFit(tails) && (Reaches(PushURL, cfg.pushURL) || Reaches(PushArg, cfg.pushArg))
    requires ones[FIRST - 1] != 0
    ensures !SameNetworks(ones, Save(ones, cfg, tails))
  {
    SaveBelow(ones, cfg, tails, FIRST - 1);
    assert Save(ones, cfg, tails)[FIRST - 1] == 0;
  }

  /** A save leaves both networks' bytes alone, whatever they are, exactly when neither text reaches them. */
  lemma SaveSparesNetworksIff(cfg: Config, tails: Tails)
    requires TailsFit(tails)
    ensures (forall img: Image :: SameNetworks(img, Save(img, cfg, tails))) <==>
            !Reaches(PushURL, cfg.pushURL) && !Reaches(PushArg, cfg.pushArg)
  {
    if Reaches(PushURL, cfg.pushURL) || Reaches(PushArg, cfg.pushArg) {
      ReachingTextIsHarmful(seq(SIZE, i => 1), cfg, tails);
    } else {
      forall img: Image
        ensures SameNetworks(img, Save(img, cfg, tails))
      {
        SaveSparesNetworks(img, cfg, tails);
      }
    }
  }

  lemma NoTextAfterNul(slot: Str)
    requires slot != [] && slot[0] == 0
    ensures Decode(slot) == []
  {
  }

  /** A push URL of 175 bytes clears every byte of the credentials. */
  lemma LongURLErasesCredentials(img: Image, cfg: Config, tails: Tails, net: Network)
    requires TailsFit(tails) && |cfg.pushURL| == 175
    ensures LoadWiFi(Save(img, cfg, tails), net) == None
  {
    LongURLEndsAtZero(cfg);
    forall k: nat | k < FIRST
      ensures Save(img, cfg, tails)[k] == 0
    {
      SaveBelow(img, cfg, tails, k);
    }
    ClearedCredentials(Save(img, cfg, tails), net);
  }

  lemma LongURLEndsAtZero(cfg: Config)
    requires |cfg.pushURL| == 175
    ensures Damage(cfg) == 0
  {
  }

  lemma ClearedCredentials(img: Image, net: Network)
    requires forall k: nat :: k < FIRST ==> img[k] == 0
    ensures LoadWiFi(img, net) == None
  {
    NoTextAfterNul(Slot(img, Start(SSIDField(net)), 16));
  }

  lemma SameNetworkLoads(a: Image, b: Image, net: Network)
    requires SameNetworks(a, b)
    ensures LoadWiFi(a, net) == LoadWiFi(b, net)
  {
    assert Slot(a, Start(SSIDField(net)), 16) == Slot(b, Start(SSIDField(net)), 16);
    assert Slot(a, Start(PasswordField(net)), 16) == Slot(b, Start(PasswordField(net)), 16);
  }

  // ---- Posting the general form alone

  /** The field names of the general settings page: pm, pl, pt, ad, ah, ai, pc, pu, pa, pf, and the button sv. */
  predicate OnGeneralPage(name: Str) {
    && |name| == 2
    && (if name[0] == LETTER_P then
          || name[1] == LETTER_M || name[1] == LETTER_L || name[1] == LETTER_T || name[1] == LETTER_C
          || name[1] == LETTER_U || name[1] == LETTER_A || name[1] == LETTER_F
        else if name[0] == LETTER_A then
          name[1] == LETTER_D || name[1] == LETTER_H || name[1] == LETTER_I
        else
          name[0] == LETTER_S && name[1] == LETTER_V)
  }

  lemma GeneralNameIsNoNetworkKey(a: Arg, net: Network)
    requires OnGeneralPage(a.name)
    ensures !Matches(a, SSIDKey(net)) && !Matches(a, PasswordKey(net))
  {
  }

  /** The general form by itself leaves the credentials' bytes alone, as long as its texts do not reach them. */
  lemma GeneralFormSparesNetworks(s: Settings, r: Request)
    requires InStep(s) && Tame(r) && r.page == GeneralPage
    requires forall i :: 0 <= i < |r.args| ==> OnGeneralPage(r.args[i].name)
    ensures SameNetworks(s.img, Handle(s, r).img)
  {
    forall net: Network
      ensures WiFiForm(r.args, net).ssid == []
    {
      forall i | 0 <= i < |r.args|
        ensures !Matches(r.args[i], SSIDKey(net))
      {
        GeneralNameIsNoNetworkKey(r.args[i], net);
      }
      NoMatchNoValue(r.args, SSIDKey(net));
      CopyOutEmpty();
    }
    assert UpdateWiFi(s.img, r.args) == s.img;
    if r.post {
      TameSave(s, r);
      SaveSparesNetworks(s.img, GeneralForm(s.cfg, r.args), r.tails);
    }
  }

  // ---- Credentials over whole runs

  /** A request whose general texts, if any, do not wrap into the credentials. */
  ghost predicate Tame(r: Request) {
    r.page == GeneralPage && r.post ==>
      && TailsFit(r.tails)
      && !Reaches(PushURL, Escape.Decode(TextOr(LastValue(r.args, General(URL)), [])))
      && !Reaches(PushArg, TextOr(LastValue(r.args, General(Argument)), []))
  }

  lemma ShortTextsDoNotReach(img: Image)
    ensures !Reaches(PushURL, GetText(img, PushURL)) && !Reaches(PushArg, GetText(img, PushArg))
  {
    DecodeIsShort(Slot(img, Start(PushURL), Length(PushURL)));
    DecodeIsShort(Slot(img, Start(PushArg), Length(PushArg)));
  }

  /** Texts that were loaded are too short to reach the credentials, so only posted ones matter. */
  lemma TameSave(s: Settings, r: Request)
    requires InStep(s) && Tame(r) && r.page == GeneralPage && r.post
    ensures var cfg := GeneralForm(s.cfg, r.args); !Reaches(PushURL, cfg.pushURL) && !Reaches(PushArg, cfg.pushArg)
  {
    ShortTextsDoNotReach(s.img);
    GeneralFormTexts(s.cfg, r.args);
    assert s.cfg.pushURL == GetText(s.img, PushURL) && s.cfg.pushArg == GetText(s.img, PushArg);
  }

  /** The request posts complete credentials for the network. */
  predicate Posts(r: Request, net: Network) {
    r.post && r.page != OtherPage && WiFiForm(r.args, net).Complete()
  }

  /** The credentials last posted in full, to whichever page. */
  function LastPosted(rs: seq<Request>, net: Network, initial: Option<WiFi>): Option<WiFi> {
    if rs == [] then initial
    else
      var r := rs[|rs| - 1];
      if Posts(r, net) then Some(WiFiForm(r.args, net)) else LastPosted(rs[..|rs| - 1], net, initial)
  }

  lemma UpdateNetworkLaw(img: Image, args: seq<Arg>, net: Network, other: Network)
    ensures LoadWiFi(UpdateNetwork(img, args, net), other) ==
            if other == net && WiFiForm(args, net).Complete() then Some(WiFiForm(args, net)) else LoadWiFi(img, other)
  {
    var w := WiFiForm(args, net);
    CopyOutLaw(TextOr(LastValue(args, SSIDKey(net)), []));
    CopyOutLaw(TextOr(LastValue(args, PasswordKey(net)), []));
    if w.Complete() {
      if other == net {
        WiFiRoundTrip(img, net, w);
      } else {
        OtherNetworkUnchanged(img, net, w, other);
      }
    }
  }

  lemma UpdateWiFiLaw(img: Image, args: seq<Arg>, net: Network)
    ensures LoadWiFi(UpdateWiFi(img, args), net) ==
            if WiFiForm(args, net).Complete() then Some(WiFiForm(args, net)) else LoadWiFi(img, net)
  {
    UpdateNetworkLaw(img, args, Client, net);
    UpdateNetworkLaw(UpdateNetwork(img, args, Client), args, AccessPoint, net);
  }

  lemma HandleNetwork(s: Settings, r: Request, net: Network)
    requires InStep(s) && Tame(r)
    ensures LoadWiFi(Handle(s, r).img, net) == if Posts(r, net) then Some(WiFiForm(r.args, net)) else LoadWiFi(s.img, net)
  {
    var img := UpdateWiFi(s.img, r.args);
    UpdateWiFiLaw(s.img, r.args, net);
    if r.page == GeneralPage && r.post {
      var cfg := GeneralForm(s.cfg, r.args);
      TameSave(s, r);
      SaveSparesNetworks(img, cfg, r.tails);
      SameNetworkLoads(img, Save(img, cfg, r.tails), net);
    }
  }

  /** After any run of requests each network's credentials are exactly those last posted in full. */
  lemma {:induction false} CredentialsAreLastPosted(img: Image, rs: seq<Request>, net: Network)
    requires forall i :: 0 <= i < |rs| ==> Tame(rs[i])
    ensures LoadWiFi(HandleAll(Boot(img), rs).img, net) == LastPosted(rs, net, LoadWiFi(img, net))
  {
    if rs != [] {
      var n := |rs| - 1;
      CredentialsAreLastPosted(img, rs[..n], net);
      ReachableInStep(img, rs[..n]);
      PostedAfterOneMore(HandleAll(Boot(img), rs[..n]), rs, net, LoadWiFi(img, net));
    }
  }

  lemma PostedAfterOneMore(s: Settings, rs: seq<Request>, net: Network, initial: Option<WiFi>)
    requires rs != [] && InStep(s) && Tame(rs[|rs| - 1])
    requires LoadWiFi(s.img, net) == LastPosted(rs[..|rs| - 1], net, initial)
    ensures LoadWiFi(Handle(s, rs[|rs| - 1]).img, net) == LastPosted(rs, net, initial)
  {
    HandleNetwork(s, rs[|rs| - 1], net);
  }

  // ---- Which arguments become the credentials, said of the arguments alone

  lemma NamedKey(args: seq<Arg>, net: Network, second: Byte)
    requires second != 0
    ensures var key, first := Named(Prefix(net), second), NetworkLetter(net);
            && (forall i :: LastNamed(args, first, second, i) ==> LastValue(args, key) == Some(args[i].value))
            && ((forall i :: !LastNamed(args, first, second, i)) ==> LastValue(args, key) == None)
  {
    var key, first := Named(Prefix(net), second), NetworkLetter(net);
    forall i | LastNamed(args, first, second, i)
      ensures LastValue(args, key) == Some(args[i].value)
    {
      LastIsLastValue(args, key, i);
    }
    LastValueIs(args, key);
    if LastValue(args, key).Some? {
      var i :| 0 <= i < |args| && Matches(args[i], key) && forall j :: i < j < |args| ==> !Matches(args[j], key);
      assert LastNamed(args, first, second, i);
    }
  }

  lemma CopyOutKept(s: Str)
    ensures NulFree(s) ==> CopyOut(s) == Kept(s)
    ensures CopyOut(s) != [] <==> At(s, 0) != 0
  {
    if NulFree(s) {
      CStringWhole(Kept(s));
    }
  }

  lemma GivesIff(args: seq<Arg>, net: Network, second: Byte)
    requires second != 0
    ensures Gives(args, NetworkLetter(net), second) <==>
            CopyOut(TextOr(LastValue(args, Named(Prefix(net), second)), [])) != []
  {
    var first, v := NetworkLetter(net), LastValue(args, Named(Prefix(net), second));
    NamedKey(args, net, second);
    CopyOutKept(TextOr(v, []));
    if v.Some? {
      var i :| LastNamed(args, first, second, i);
      assert v.value == args[i].value;
    }
  }

  /** A form gives a network's credentials exactly when its last 's' and its last 'p' argument have text. */
  lemma CompleteIff(args: seq<Arg>, net: Network)
    ensures WiFiForm(args, net).Complete() <==>
            var first := if net == Client then 0x63 else 0x61; Gives(args, first, 0x73) && Gives(args, first, 0x70)
  {
    GivesIff(args, net, 0x73);
    GivesIff(args, net, 0x70);
  }

  /** The flag is on exactly when the last value given for it is the number 1. */
  ghost predicate SetsUse(args: seq<Arg>, first: Byte, on: bool) {
    on <==> exists k :: LastNamed(args, first, 0x65, k) && ToInt(args[k].value) == 1
  }

  lemma UseByName(args: seq<Arg>, net: Network)
    ensures SetsUse(args, NetworkLetter(net), WiFiForm(args, net).useWiFi)
  {
    NamedKey(args, net, 0x65);
  }

  lemma FormByName(args: seq<Arg>, net: Network, i: int, j: int)
    requires LastNamed(args, NetworkLetter(net), 0x73, i) && LastNamed(args, NetworkLetter(net), 0x70, j)
    requires NulFree(args[i].value) && NulFree(args[j].value)
    ensures WiFiForm(args, net).ssid == Kept(args[i].value) && WiFiForm(args, net).password == Kept(args[j].value)
  {
    NamedKey(args, net, 0x73);
    NamedKey(args, net, 0x70);
    CopyOutKept(args[i].value);
    CopyOutKept(args[j].value);
  }

  /**
    The credentials after a form: the last "cs" or "as" argument is the network's name, the last "cp" or
    "ap" its password, each cut to 14 bytes, and the last "ce" or "ae" says whether it is used.
  */
  lemma CredentialsByName(img: Image, args: seq<Arg>, net: Network, first: Byte, i: int, j: int)
    requires first == if net == Client then 0x63 else 0x61
    requires LastNamed(args, first, 0x73, i) && LastNamed(args, first, 0x70, j)
    requires args[i].value != [] && NulFree(args[i].value) && args[j].value != [] && NulFree(args[j].value)
    ensures var w := LoadWiFi(UpdateWiFi(img, args), net);
            && w.Some? && w.value.ssid == Kept(args[i].value) && w.value.password == Kept(args[j].value)
            && SetsUse(args, first, w.value.useWiFi)
  {
    UpdateWiFiLaw(img, args, net);
    FormByName(args, net, i, j);
    UseByName(args, net);
  }

  /** A form that leaves out a network's name or password, or gives an empty one, leaves its credentials alone. */
  lemma IncompleteIsIgnored(img: Image, args: seq<Arg>, net: Network, first: Byte)
    requires first == if net == Client then 0x63 else 0x61
    requires !Gives(args, first, 0x73) || !Gives(args, first, 0x70)
    ensures LoadWiFi(UpdateWiFi(img, args), net) == LoadWiFi(img, net)
  {
    UpdateWiFiLaw(img, args, net);
    CompleteIff(args, net);
  }

  /** The same after a post to any of the three settings pages. */
  lemma PostedByName(s: Settings, r: Request, net: Network, first: Byte, i: int, j: int)
    requires InStep(s) && Tame(r) && r.post && r.page != OtherPage
    requires first == if net == Client then 0x63 else 0x61
    requires LastNamed(r.args, first, 0x73, i) && LastNamed(r.args, first, 0x70, j)
    requires r.args[i].value != [] && NulFree(r.args[i].value) && r.args[j].value != [] && NulFree(r.args[j].value)
    ensures var w := LoadWiFi(Handle(s, r).img, net);
            && w.Some? && w.value.ssid == Kept(r.args[i].value) && w.value.password == Kept(r.args[j].value)
            && SetsUse(r.args, first, w.value.useWiFi)
  {
    HandleNetwork(s, r, net);
    FormByName(r.args, net, i, j);
    UseByName(r.args, net);
  }

  // ---- Damaged credentials

  /** Changing any one byte of stored credentials, in the name or the password, makes both unreadable. */
  lemma DamagedCredentialsAreRefused(img: Image, net: Network, w: WiFi, k: nat, b: Byte)
    requires w.Complete() && Copied(w)
    requires var base := if net == Client then 0 else 33; base <= k < base + 32
    requires b != Run(img, WiFiPuts(net, w))[k]
    ensures LoadWiFi(Run(img, WiFiPuts(net, w))[k := b], net) == None
  {
    var stored := Run(img, WiFiPuts(net, w));
    var f := if k < Base(net) + 16 then SSIDField(net) else PasswordField(net);
    WiFiRoundTrip(img, net, w);
    DamagedFieldIsEmpty(stored, f, k, b);
  }

  lemma DamagedFieldIsEmpty(img: Image, f: TextField, k: nat, b: Byte)
    requires GetText(img, f) != [] && Start(f) <= k < Start(f) + Length(f) && b != img[k]
    ensures GetText(img[k := b], f) == []
  {
    DamagedSlotIsEmpty(img, Start(f), Length(f), k, b);
  }

  lemma DamagedSlotIsEmpty(img: Image, start: nat, length: nat, k: nat, b: Byte)
    requires InStore(start, length) && start <= k < start + length
    requires Decode(Slot(img, start, length)) != [] && b != img[k]
    ensures Decode(Slot(img[k := b], start, length)) == []
  {
    var slot := Slot(img, start, length);
    assert slot[k - start] == img[k];
    assert Slot(img[k := b], start, length) == slot[k - start := b];
    DecodedIsAccepted(slot);
    OneByteChangeDetected(slot, k - start, b);
  }

  lemma DecodedIsAccepted(slot: Str)
    requires slot != [] && Decode(slot) != []
    ensures Accepted(slot)
  {
  }

  /** Where a network's credentials lie, and that neither text is given out without the other. */
  lemma CredentialsAt(img: Image, net: Network)
    ensures var base := if net == Client then 0 else 33;
            var ssid, password := Decode(img[base..base + 16]), Decode(img[base + 16..base + 32]);
            LoadWiFi(img, net) ==
            if ssid == [] || password == [] then None
            else Some(WiFi(CopyOut(ssid), CopyOut(password), img[base + 32] & 1 != 0))
  {
  }
}
