/**
  The WiFi credentials of the two networks and the EEPROM fields that hold them.
*/
module WiFiSettings {
  import opened Bytes
  import opened Slots
  import opened Layout

  datatype WiFi = WiFi(ssid: Str, password: Str, useWiFi: bool) {
    predicate Complete() {
      ssid != [] && password != []
    }
  }

  datatype Network = Client | AccessPoint

  function SSIDField(net: Network): TextField {
    if net == Client then ClientSSID else ApSSID
  }

  function PasswordField(net: Network): TextField {
    if net == Client then ClientPassword else ApPassword
  }

  function UseFlag(net: Network): Flag {
    if net == Client then ClientUse else ApUse
  }

  /** First byte of a network's settings. */
  function Base(net: Network): nat {
    Start(SSIDField(net))
  }

  const NAME_SIZE := 15

  /** `toCharArray(buf, 15)`, read back as a C string. */
  function CopyOut(s: Str): (c: Str)
    ensures |c| < NAME_SIZE
  {
    CStringNulFree(if |s| < NAME_SIZE then s else s[..NAME_SIZE - 1]);
    CString(if |s| < NAME_SIZE then s else s[..NAME_SIZE - 1])
  }

  /** The credentials stored for a network, if both texts are there. */
  function LoadWiFi(img: Image, net: Network): Option<WiFi> {
    var ssid, password := GetText(img, SSIDField(net)), GetText(img, PasswordField(net));
    if |ssid| > 0 && |password| > 0
    then Some(WiFi(CopyOut(ssid), CopyOut(password), GetFlag(img, UseFlag(net))))
    else None
  }

  /** The writes of `putWiFiSettings`. */
  function WiFiPuts(net: Network, w: WiFi): seq<Put> {
    [ PutText(SSIDField(net), w.ssid),
      PutText(PasswordField(net), w.password),
      PutFlag(UseFlag(net), w.useWiFi) ]
  }

  lemma NetworkPlaces(net: Network)
    ensures Length(SSIDField(net)) == Length(PasswordField(net)) == 16
    ensures Start(PasswordField(net)) == Base(net) + 16 && ByteOf(UseFlag(net)) == Base(net) + 32 && BitOf(UseFlag(net)) == 0
  {
  }

  /** The three writes, spelled out. */
  lemma RunWiFiPuts(img: Image, net: Network, w: WiFi)
    ensures var a := Write(img, Base(net), 16, w.ssid);
            var b := Write(a, Base(net) + 16, 16, w.password);
            Run(img, WiFiPuts(net, w)) == b[Base(net) + 32 := SetBit(b[Base(net) + 32], 0, w.useWiFi)]
  {
    var puts := WiFiPuts(net, w);
    NetworkPlaces(net);
    RunThree(img, puts[0], puts[1], puts[2]);
    assert puts == [puts[0], puts[1], puts[2]];
  }

  /** The access point used when none is stored: `pulsemon-3AD1`, `Test1234`. */
  const DEFAULT_AP := WiFi(
    [0x70, 0x75, 0x6C, 0x73, 0x65, 0x6D, 0x6F, 0x6E, 0x2D, 0x33, 0x41, 0x44, 0x31],
    [0x54, 0x65, 0x73, 0x74, 0x31, 0x32, 0x33, 0x34], true)

  /** What `toCharArray` can leave in the credentials of a record. */
  ghost predicate Copied(w: WiFi) {
    |w.ssid| < NAME_SIZE && |w.password| < NAME_SIZE && NulFree(w.ssid) && NulFree(w.password)
  }

  lemma CopyOutLaw(s: Str)
    ensures NulFree(CopyOut(s))
    ensures NulFree(s) && |s| < NAME_SIZE ==> CopyOut(s) == s
  {
    CStringNulFree(if |s| < NAME_SIZE then s else s[..NAME_SIZE - 1]);
    if NulFree(s) && |s| < NAME_SIZE {
      CStringWhole(s);
    }
  }

  lemma WiFiPutsContained(net: Network, w: WiFi)
    requires |w.ssid| < NAME_SIZE && |w.password| < NAME_SIZE
    ensures AllContained(WiFiPuts(net, w))
  {
  }

  lemma NameStored(net: Network, s: Str)
    requires s != [] && |s| < NAME_SIZE && NulFree(s)
    ensures TextStored(SSIDField(net), s) == s && TextStored(PasswordField(net), s) == s
  {
    TextStoredIff(SSIDField(net), s);
    TextStoredIff(PasswordField(net), s);
  }

  /** The write touches nothing that belongs to a network. */
  predicate Spares(p: Put, net: Network) {
    match p
    case PutText(f, _) => f != SSIDField(net) && f != PasswordField(net)
    case PutFlag(g, _) => g != UseFlag(net)
  }

  lemma SparedWiFi(img: Image, puts: seq<Put>, net: Network)
    requires AllContained(puts) && forall i :: 0 <= i < |puts| ==> Spares(puts[i], net)
    ensures LoadWiFi(Run(img, puts), net) == LoadWiFi(img, net)
  {
    RunText(img, puts, SSIDField(net));
    RunText(img, puts, PasswordField(net));
    RunFlag(img, puts, UseFlag(net));
    LastTextNone(puts, SSIDField(net), GetText(img, SSIDField(net)));
    LastTextNone(puts, PasswordField(net), GetText(img, PasswordField(net)));
    LastFlagNone(puts, UseFlag(net), GetFlag(img, UseFlag(net)));
  }

  /** Complete credentials come back exactly, whatever was stored before. */
  lemma WiFiRoundTrip(img: Image, net: Network, w: WiFi)
    requires w.Complete() && Copied(w)
    ensures LoadWiFi(Run(img, WiFiPuts(net, w)), net) == Some(w)
  {
    var puts := WiFiPuts(net, w);
    WiFiPutsContained(net, w);
    RunText(img, puts, SSIDField(net));
    RunText(img, puts, PasswordField(net));
    RunFlag(img, puts, UseFlag(net));
    LastTextAt(puts, SSIDField(net), GetText(img, SSIDField(net)), 0);
    LastTextAt(puts, PasswordField(net), GetText(img, PasswordField(net)), 1);
    LastFlagAt(puts, UseFlag(net), GetFlag(img, UseFlag(net)), 2);
    NameStored(net, w.ssid);
    NameStored(net, w.password);
    CopyOutLaw(w.ssid);
    CopyOutLaw(w.password);
  }

  /** Writing one network's credentials leaves the other's alone. */
  lemma OtherNetworkUnchanged(img: Image, net: Network, w: WiFi, other: Network)
    requires |w.ssid| < NAME_SIZE && |w.password| < NAME_SIZE && other != net
    ensures LoadWiFi(Run(img, WiFiPuts(net, w)), other) == LoadWiFi(img, other)
  {
    WiFiPutsContained(net, w);
    SparedWiFi(img, WiFiPuts(net, w), other);
  }
}
