/**
  Reading and writing settings in the EEPROM, byte by byte.
*/
module SettingsIo {
  import opened Bytes
  import opened Decimal
  import opened Slots
  import opened Layout
  import opened GeneralSettings
  import opened WiFiSettings
  import opened EepromStore

  /** Reading one more byte of a slot. */
  lemma ReadNext(slot: Str, i: nat)
    requires i < |slot|
    ensures CString(slot[..i + 1]) ==
            if 0 in slot[..i] || slot[i] == 0 then CString(slot[..i]) else CString(slot[..i]) + [slot[i]]
    ensures 0 in slot[..i + 1] <==> 0 in slot[..i] || slot[i] == 0
    ensures Xor(slot[..i + 1]) == Xor(slot[..i]) ^ slot[i]
  {
    assert slot[..i + 1] == slot[..i] + [slot[i]];
    CStringPush(slot[..i], slot[i]);
    XorPush(slot[..i], slot[i]);
  }

  /** Reads a string slot, checking its checksum. */
  method ReadString(e: Eeprom, start: nat, length: nat) returns (r: Str)
    requires e.Valid() && InStore(start, length)
    ensures r == Decode(Slot(e.Contents(), start, length))
  {
    ghost var slot := Slot(e.Contents(), start, length);
    var calcXor, recXor: Byte := 0, 0;
    var ended := false;
    r := [];
    for i := 0 to length
      invariant r == CString(slot[..i]) && (ended <==> 0 in slot[..i])
      invariant calcXor == Xor(slot[..if i < length then i else length - 1])
      invariant i == length ==> recXor == slot[length - 1]
    {
      var b := e.Read(start + i);
      ReadNext(slot, i);
      if b == 0 {
        ended := true;
      }
      if !ended {
        r := r + [b];
      }
      if i != length - 1 {
        calcXor := calcXor ^ b;
      } else {
        recXor := b;
      }
    }
    assert slot[..length] == slot;
    if recXor != calcXor {
      return [];
    }
  }

  /** The image after the bytes of `text` were written one by one from `at` on. */
  ghost function Fill(img: Image, at: nat, text: Str): Image
    requires at + |text| <= SIZE
  {
    if text == [] then img else Fill(img, at, text[..|text| - 1])[at + |text| - 1 := text[|text| - 1]]
  }

  lemma FillNext(img: Image, at: nat, text: Str, i: nat)
    requires i < |text| && at + i < SIZE
    ensures Fill(img, at, text[..i + 1]) == Fill(img, at, text[..i])[at + i := text[i]]
  {
    assert text[..i + 1][..i] == text[..i];
  }

  lemma {:induction false} FillAt(img: Image, at: nat, text: Str, k: nat)
    requires at + |text| <= SIZE && k < SIZE
    ensures Fill(img, at, text)[k] == if at <= k < at + |text| then text[k - at] else img[k]
  {
    if text != [] {
      FillAt(img, at, text[..|text| - 1], k);
    }
  }

  /** Byte `k` of a written image. */
  lemma WriteAt(img: Image, start: nat, length: nat, s: Str, k: nat)
    requires InStore(start, length) && s != [] && k < SIZE
    ensures var p, end := Stored(start, length, s), EndOf(start, length, |s|);
            Write(img, start, length, s)[k] ==
            if k == start + length - 1 then Xor(p)
            else if end <= k < start + length then 0
            else if start <= k < start + |p| then p[k - start]
            else img[k]
  {
  }

  /** Text, padding and checksum together make the written image. */
  lemma FillsAreWrite(img: Image, start: nat, length: nat, s: Str, end: nat)
    requires InStore(start, length) && s != [] && end == EndOf(start, length, |s|)
    ensures var p := Stored(start, length, s);
            var padded := Fill(Fill(img, start, p), end, Zeros(start + length - end));
            padded[start + length - 1 := Xor(p)] == Write(img, start, length, s)
  {
    var p := Stored(start, length, s);
    var padded := Fill(Fill(img, start, p), end, Zeros(start + length - end));
    var written := padded[start + length - 1 := Xor(p)];
    forall k: nat | k < SIZE
      ensures written[k] == Write(img, start, length, s)[k]
    {
      FillAt(img, start, p, k);
      FillAt(Fill(img, start, p), end, Zeros(start + length - end), k);
      WriteAt(img, start, length, s, k);
    }
  }

  /** Writes the bytes of `s` to positions `start` up to `end`, and returns their XOR. */
  method WriteBytes(e: Eeprom, start: nat, end: nat, s: Str) returns (x: Byte)
    requires e.Valid() && end <= start + |s| && end <= SIZE && start <= SIZE
    modifies e.data
    ensures var p := if start <= end then s[..end - start] else [];
            e.Contents() == Fill(old(e.Contents()), start, p) && x == Xor(p)
  {
    x := 0;
    ghost var before := e.Contents();
    ghost var p := if start <= end then s[..end - start] else [];
    var i := start;
    while i < end
      invariant start <= i <= start + |p|
      invariant e.Contents() == Fill(before, start, p[..i - start])
      invariant x == Xor(p[..i - start])
    {
      FillNext(before, start, p, i - start);
      assert p[..i - start + 1] == p[..i - start] + [p[i - start]];
      XorPush(p[..i - start], p[i - start]);
      e.Write(i, s[i - start]);
      x := x ^ s[i - start];
      i := i + 1;
    }
    assert p[..i - start] == p;
  }

  /** Clears positions `from` up to `to`. */
  method WriteZeros(e: Eeprom, from: nat, to: nat)
    requires e.Valid() && from <= to <= SIZE
    modifies e.data
    ensures e.Contents() == Fill(old(e.Contents()), from, Zeros(to - from))
  {
    ghost var before, zeros := e.Contents(), Zeros(to - from);
    for i := from to to
      invariant e.Contents() == Fill(before, from, zeros[..i - from])
    {
      FillNext(before, from, zeros, i - from);
      e.Write(i, 0);
    }
    assert zeros[..to - from] == zeros;
  }

  /** Writes text up to `end`, padding up to the end of the slot, and the checksum into its last byte. */
  method WriteSlot(e: Eeprom, start: nat, length: nat, end: nat, s: Str)
    requires e.Valid() && InStore(start, length) && end < start + length && end <= start + |s|
    modifies e, e.data
    ensures var p := if start <= end then s[..end - start] else [];
            var padded := Fill(Fill(old(e.Contents()), start, p), end, Zeros(start + length - end));
            e.Contents() == padded[start + length - 1 := Xor(p)]
    ensures e.Committed()
  {
    var x := WriteBytes(e, start, end, s);
    WriteZeros(e, end, start + length);
    e.Write(start + length - 1, x);
    e.Commit();
  }

  /** Writes a string slot; the end position is formed in one byte, and an empty string is not written at all. */
  method WriteString(e: Eeprom, start: nat, length: nat, s: Str)
    requires e.Valid() && InStore(start, length)
    modifies e, e.data
    ensures e.Contents() == Write(old(e.Contents()), start, length, s)
    ensures s != [] || old(e.Committed()) ==> e.Committed()
  {
    if |s| == 0 {
      return;
    }
    var end := (start + |s|) % 256;
    if end >= start + length {
      end := start + length - 1;
    }
    FillsAreWrite(e.Contents(), start, length, s, end);
    WriteSlot(e, start, length, end, s);
  }

  method ReadInt(e: Eeprom, start: nat) returns (r: int)
    requires e.Valid() && InStore(start, INT_LENGTH)
    ensures var s := Decode(Slot(e.Contents(), start, INT_LENGTH)); r == if |s| > 0 then ToInt(s) else 0
  {
    var s := ReadString(e, start, 6);
    if |s| > 0 {
      r := ToInt(s);
    } else {
      r := 0;
    }
  }

  method WriteInt(e: Eeprom, start: nat, v: int)
    requires e.Valid() && InStore(start, INT_LENGTH)
    modifies e, e.data
    ensures e.Contents() == Write(old(e.Contents()), start, INT_LENGTH, Print(Clamp(v))) && e.Committed()
  {
    var n := v;
    if n > 99999 {
      n := 99999;
    } else if n < 0 {
      n := 0;
    }
    WriteString(e, start, 6, Print(n));
  }

  method ReadBoolean(e: Eeprom, position: nat, bit: Byte) returns (r: bool)
    requires e.Valid() && position < SIZE && bit < 8
    ensures r == TestBit(e.Contents()[position], bit)
  {
    var mask := Mask(bit);
    var b := e.Read(position);
    r := b & mask > 0;
  }

  method ApplyMask(b: Byte, bit: Byte, value: bool) returns (changed: Byte)
    requires bit < 8
    ensures changed == SetBit(b, bit, value)
  {
    var mask: Byte := 1 << bit;
    if value {
      changed := b | mask;
    } else {
      changed := b & !mask;
    }
  }

  /** Sets or clears one bit of a byte and leaves the other seven. */
  method WriteBoolean(e: Eeprom, position: nat, bit: Byte, value: bool)
    requires e.Valid() && position < SIZE && bit < 8
    modifies e, e.data
    ensures var b := old(e.Contents())[position];
            e.Contents() == old(e.Contents())[position := SetBit(b, bit, value)] && e.Committed()
  {
    var b := e.Read(position);
    var changed := ApplyMask(b, bit, value);
    e.Write(position, changed);
    e.Commit();
  }

  // ---- Settings by name: the positions are those of the layout

  method ReadText(e: Eeprom, start: nat, length: nat, ghost f: TextField, ghost img: Image) returns (r: Str)
    requires e.Valid() && e.Contents() == img && start == Start(f) && length == Length(f)
    ensures r == GetText(img, f) && e.Contents() == img
  {
    r := ReadString(e, start, length);
  }

  method ReadNumber(e: Eeprom, start: nat, ghost f: TextField, ghost img: Image) returns (r: int)
    requires e.Valid() && e.Contents() == img && start == Start(f) && Length(f) == INT_LENGTH
    ensures r == IntAt(img, f) && e.Contents() == img
  {
    r := ReadInt(e, start);
  }

  method ReadFlag(e: Eeprom, position: nat, bit: Byte, ghost g: Flag, ghost img: Image) returns (r: bool)
    requires e.Valid() && e.Contents() == img && position == ByteOf(g) && bit == BitOf(g)
    ensures r == GetFlag(img, g) && e.Contents() == img
  {
    r := ReadBoolean(e, position, bit);
  }

  /** Writes a setting and records the write in `done`, the writes since the image was `img`. */
  method WriteText(e: Eeprom, start: nat, length: nat, s: Str, ghost f: TextField,
      ghost img: Image, ghost done: seq<Put>)
    returns (ghost more: seq<Put>)
    requires e.Valid() && e.Contents() == Run(img, done)
    requires start == Start(f) && length == Length(f)
    modifies e, e.data
    ensures more == done + [PutText(f, s)] && e.Contents() == Run(img, more)
    ensures old(e.Committed()) ==> e.Committed()
  {
    more := done + [PutText(f, s)];
    RunPush(img, done, PutText(f, s));
    WriteString(e, start, length, s);
  }

  method WriteNumber(e: Eeprom, start: nat, v: int, ghost f: TextField,
      ghost img: Image, ghost done: seq<Put>)
    returns (ghost more: seq<Put>)
    requires e.Valid() && e.Contents() == Run(img, done)
    requires start == Start(f) && Length(f) == INT_LENGTH
    modifies e, e.data
    ensures more == done + [IntPut(f, v)] && e.Contents() == Run(img, more)
    ensures e.Committed()
  {
    more := done + [IntPut(f, v)];
    RunPush(img, done, IntPut(f, v));
    WriteInt(e, start, v);
  }

  method WriteFlag(e: Eeprom, position: nat, bit: Byte, on: bool, ghost g: Flag,
      ghost img: Image, ghost done: seq<Put>)
    returns (ghost more: seq<Put>)
    requires e.Valid() && e.Contents() == Run(img, done)
    requires position == ByteOf(g) && bit == BitOf(g)
    modifies e, e.data
    ensures more == done + [PutFlag(g, on)] && e.Contents() == Run(img, more)
    ensures e.Committed()
  {
    more := done + [PutFlag(g, on)];
    RunPush(img, done, PutFlag(g, on));
    WriteBoolean(e, position, bit, on);
  }

  // ---- WiFi credentials

  /** The record the firmware fills in place. */
  class WiFiRecord {
    var ssid: Str
    var password: Str
    var useWiFi: bool

    constructor ()
      ensures Value() == WiFi([], [], false)
    {
      ssid, password, useWiFi := [], [], false;
    }

    function Value(): WiFi
      reads this
    {
      WiFi(ssid, password, useWiFi)
    }
  }

  /** The credentials stored from `start` on, or null when either text is missing. */
  method GetWiFiSettings(e: Eeprom, start: nat, ghost net: Network) returns (r: WiFiRecord?)
    requires e.Valid() && start == Base(net)
    ensures match LoadWiFi(e.Contents(), net)
            case None => r == null
            case Some(w) => r != null && fresh(r) && r.Value() == w
  {
    ghost var img := e.Contents();
    var ssid := ReadText(e, start, 16, SSIDField(net), img);
    var password := ReadText(e, start + 16, 16, PasswordField(net), img);
    var useWiFi := ReadFlag(e, start + 32, 0, UseFlag(net), img);
    if |ssid| > 0 && |password| > 0 {
      r := new WiFiRecord();
      r.ssid := CopyOut(ssid);
      r.password := CopyOut(password);
      r.useWiFi := useWiFi;
      return;
    }
    r := null;
  }

  method PutWiFiSettings(e: Eeprom, start: nat, w: WiFiRecord?, ghost net: Network)
    requires e.Valid() && start == Base(net)
    modifies e, e.data
    ensures w == null ==> e.Contents() == old(e.Contents()) && e.flash == old(e.flash)
    ensures w != null ==> e.Contents() == Run(old(e.Contents()), WiFiPuts(net, old(w.Value()))) && e.Committed()
  {
    if w == null {
      return;
    }
    RunWiFiPuts(e.Contents(), net, w.Value());
    WriteString(e, start, 16, w.ssid);
    WriteString(e, start + 16, 16, w.password);
    WriteBoolean(e, start + 32, 0, w.useWiFi);
  }

  method GetWiFiClientSettings(e: Eeprom) returns (r: WiFiRecord?)
    requires e.Valid()
    ensures match LoadWiFi(e.Contents(), Client)
            case None => r == null
            case Some(w) => r != null && fresh(r) && r.Value() == w
  {
    r := GetWiFiSettings(e, 0, Client);
  }

  /** The access point always has settings: the built-in ones when none are stored. */
  method GetWiFiAPSettings(e: Eeprom) returns (r: WiFiRecord)
    requires e.Valid()
    ensures fresh(r)
    ensures r.Value() == match LoadWiFi(e.Contents(), AccessPoint) case None => DEFAULT_AP case Some(w) => w
  {
    var stored := GetWiFiSettings(e, 33, AccessPoint);
    if stored == null {
      r := new WiFiRecord();
      r.ssid, r.password, r.useWiFi := DEFAULT_AP.ssid, DEFAULT_AP.password, true;
    } else {
      r := stored;
    }
  }
}
