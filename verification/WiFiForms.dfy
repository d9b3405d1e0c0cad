/**
  Processing the WiFi forms: two records are filled in place and written when complete.
*/
module WiFiForms {
  import opened Bytes
  import opened Decimal
  import opened WiFiSettings
  import opened EepromStore
  import opened SettingsIo
  import opened Forms
  import Requests

  /** A record's contents after one more argument. */
  function WithWiFiArg(w: WiFi, a: Arg, net: Network): WiFi {
    if At(a.name, 0) != Prefix(net) then w
    else if At(a.name, 1) == LETTER_S then w.(ssid := CopyOut(a.value))
    else if At(a.name, 1) == LETTER_P then w.(password := CopyOut(a.value))
    else if At(a.name, 1) == LETTER_E then w.(useWiFi := ToInt(a.value) == 1)
    else w
  }

  lemma WiFiFormNext(args: seq<Arg>, i: nat, net: Network)
    requires i < |args|
    ensures WiFiForm(args[..i + 1], net) == WithWiFiArg(WiFiForm(args[..i], net), args[i], net)
  {
    assert args[..i + 1] == args[..i] + [args[i]];
    LastValuePush(args[..i], args[i], SSIDKey(net));
    LastValuePush(args[..i], args[i], PasswordKey(net));
    LastValuePush(args[..i], args[i], UseKey(net));
  }

  /** Fills the record that an argument is for, if any. */
  method ApplyWiFiArg(client: WiFiRecord, ap: WiFiRecord, a: Arg)
    requires client != ap
    modifies client, ap
    ensures client.Value() == WithWiFiArg(old(client.Value()), a, Client)
    ensures ap.Value() == WithWiFiArg(old(ap.Value()), a, AccessPoint)
  {
    var settings: WiFiRecord? := null;
    if At(a.name, 0) == LETTER_C {
      settings := client;
    } else if At(a.name, 0) == LETTER_A {
      settings := ap;
    }
    if settings != null {
      var key := At(a.name, 1);
      if key == LETTER_S {
        settings.ssid := CopyOut(a.value);
      } else if key == LETTER_P {
        settings.password := CopyOut(a.value);
      } else if key == LETTER_E {
        settings.useWiFi := ToInt(a.value) == 1;
      }
    }
  }

  /** Writes the credentials that a form gives in full, and says whether it gave any. */
  method UpdateWiFiSettings(e: Eeprom, args: seq<Arg>) returns (changed: bool)
    requires e.Valid() && |args| <= 255
    modifies e, e.data
    ensures e.Contents() == Requests.UpdateWiFi(old(e.Contents()), args)
    ensures changed <==> WiFiForm(args, Client).Complete() || WiFiForm(args, AccessPoint).Complete()
    ensures old(e.Committed()) ==> e.Committed()
  {
    var client := new WiFiRecord();
    var ap := new WiFiRecord();
    CopyOutEmpty();
    for i := 0 to |args|
      modifies client, ap
      invariant client.Value() == WiFiForm(args[..i], Client)
      invariant ap.Value() == WiFiForm(args[..i], AccessPoint)
    {
      WiFiFormNext(args, i, Client);
      WiFiFormNext(args, i, AccessPoint);
      ApplyWiFiArg(client, ap, args[i]);
    }
    assert args[..|args|] == args;
    changed := false;
    if |client.ssid| > 0 && |client.password| > 0 {
      PutWiFiSettings(e, 0, client, Client);
      changed := true;
    }
    if |ap.ssid| > 0 && |ap.password| > 0 {
      PutWiFiSettings(e, 33, ap, AccessPoint);
      changed := true;
    }
  }
}
