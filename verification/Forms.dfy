/**
  What the posted form arguments mean: the last argument with its key letters
  decides each setting.
*/
module Forms {
  import opened Bytes
  import opened Decimal
  import opened GeneralSettings
  import opened WiFiSettings
  import Escape

  datatype Arg = Arg(name: Str, value: Str)

  // Key letters.
  const LETTER_A: Byte := 0x61
  const LETTER_C: Byte := 0x63
  const LETTER_D: Byte := 0x64
  const LETTER_E: Byte := 0x65
  const LETTER_F: Byte := 0x66
  const LETTER_H: Byte := 0x68
  const LETTER_I: Byte := 0x69
  const LETTER_L: Byte := 0x6C
  const LETTER_M: Byte := 0x6D
  const LETTER_P: Byte := 0x70
  const LETTER_S: Byte := 0x73
  const LETTER_T: Byte := 0x74
  const LETTER_U: Byte := 0x75
  const LETTER_V: Byte := 0x76

  /** The general settings a form can give. */
  datatype Setting = Monitor | Light | Period | Level | High | Debounce | Factor | URL | Argument | Frequency | Unknown

  function SettingOf(letter: Byte): Setting {
    if letter == LETTER_M then Monitor
    else if letter == LETTER_L then Light
    else if letter == LETTER_T then Period
    else if letter == LETTER_D then Level
    else if letter == LETTER_H then High
    else if letter == LETTER_I then Debounce
    else if letter == LETTER_C then Factor
    else if letter == LETTER_U then URL
    else if letter == LETTER_A then Argument
    else if letter == LETTER_F then Frequency
    else Unknown
  }

  /** What is looked at in an argument's name: its second letter, for the WiFi settings also the first. */
  datatype Key = General(setting: Setting) | Named(first: Byte, second: Byte)

  predicate Matches(a: Arg, key: Key) {
    match key
    case General(s) => SettingOf(At(a.name, 1)) == s
    case Named(f, s) => At(a.name, 0) == f && At(a.name, 1) == s
  }

  /** The value of the last argument with that key. */
  function LastValue(args: seq<Arg>, key: Key): Option<Str> {
    if args == [] then None
    else
      var a := args[|args| - 1];
      if Matches(a, key) then Some(a.value) else LastValue(args[..|args| - 1], key)
  }

  function ClampByte(n: int): Byte {
    if n > 255 then 255 else if n < 0 then 0 else n as Byte
  }

  function ClampFactor(n: int): int {
    if n <= 0 then 1 else n
  }

  function ClampPushFreq(n: int): int {
    if n < 5 then 5 else if n > 1000 then 1000 else n
  }

  function ByteOr(v: Option<Str>, before: Byte): Byte {
    match v case None => before case Some(s) => ClampByte(ToInt(s))
  }

  predicate IsOne(v: Option<Str>) {
    v.Some? && ToInt(v.value) == 1
  }

  /** The last value given for each general setting. */
  datatype Given = Given(
    monitor: Option<Str>, light: Option<Str>, period: Option<Str>, level: Option<Str>, high: Option<Str>,
    debounce: Option<Str>, factor: Option<Str>, url: Option<Str>, argument: Option<Str>, frequency: Option<Str>)

  function LastGiven(args: seq<Arg>): Given {
    Given(
      LastValue(args, General(Monitor)), LastValue(args, General(Light)), LastValue(args, General(Period)),
      LastValue(args, General(Level)), LastValue(args, General(High)), LastValue(args, General(Debounce)),
      LastValue(args, General(Factor)), LastValue(args, General(URL)), LastValue(args, General(Argument)),
      LastValue(args, General(Frequency)))
  }

  /** Absent flags are off; other absent settings keep their value. */
  function Configured(cfg: Config, v: Given): Config {
    Config(
      IsOne(v.monitor), IsOne(v.light),
      ByteOr(v.period, cfg.pulseFreq),
      if v.factor.None? then cfg.pulseFactor else ClampFactor(ToInt(v.factor.value)),
      ByteOr(v.level, cfg.limit), ByteOr(v.high, cfg.limitHigh), ByteOr(v.debounce, cfg.limitDebounce),
      if v.url.None? then cfg.pushURL else Escape.Decode(v.url.value),
      TextOr(v.argument, cfg.pushArg),
      if v.frequency.None? then cfg.pushFreq else ClampPushFreq(ToInt(v.frequency.value)))
  }

  /** The general configuration after a form with these arguments was processed. */
  function GeneralForm(cfg: Config, args: seq<Arg>): Config {
    Configured(cfg, LastGiven(args))
  }

  lemma GeneralFormTexts(cfg: Config, args: seq<Arg>)
    ensures GeneralForm(cfg, args).pushURL ==
            match LastValue(args, General(URL)) case None => cfg.pushURL case Some(v) => Escape.Decode(v)
    ensures GeneralForm(cfg, args).pushArg == TextOr(LastValue(args, General(Argument)), cfg.pushArg)
  {
  }

  /** First letter of the names that belong to a network. */
  function Prefix(net: Network): Byte {
    if net == Client then LETTER_C else LETTER_A
  }

  function SSIDKey(net: Network): Key {
    Named(Prefix(net), LETTER_S)
  }

  function PasswordKey(net: Network): Key {
    Named(Prefix(net), LETTER_P)
  }

  function UseKey(net: Network): Key {
    Named(Prefix(net), LETTER_E)
  }

  function TextOr(v: Option<Str>, before: Str): Str {
    match v case None => before case Some(s) => s
  }

  /** The credentials of a network as given by a form. */
  function WiFiForm(args: seq<Arg>, net: Network): WiFi {
    WiFi(
      CopyOut(TextOr(LastValue(args, SSIDKey(net)), [])),
      CopyOut(TextOr(LastValue(args, PasswordKey(net)), [])),
      IsOne(LastValue(args, UseKey(net))))
  }

  lemma LastValuePush(args: seq<Arg>, a: Arg, key: Key)
    ensures LastValue(args + [a], key) == if Matches(a, key) then Some(a.value) else LastValue(args, key)
  {
  }

  lemma CopyOutEmpty()
    ensures CopyOut([]) == []
  {
  }

  // ---- Order does not matter between different keys

  /** `LastValue` is the value of a matching argument that no later one overrides. */
  lemma {:induction false} LastValueIs(args: seq<Arg>, key: Key)
    ensures match LastValue(args, key)
            case None => forall i :: 0 <= i < |args| ==> !Matches(args[i], key)
            case Some(v) => exists i :: 0 <= i < |args| && Matches(args[i], key) && args[i].value == v
                                        && forall j :: i < j < |args| ==> !Matches(args[j], key)
  {
    if args != [] {
      var n := |args| - 1;
      LastValueIs(args[..n], key);
      if !Matches(args[n], key) && LastValue(args[..n], key).Some? {
        var v := LastValue(args[..n], key).value;
        var i :| 0 <= i < n && Matches(args[..n][i], key) && args[..n][i].value == v
                 && forall j :: i < j < n ==> !Matches(args[..n][j], key);
        assert forall j :: i < j < n ==> args[..n][j] == args[j];
        assert Matches(args[i], key) && args[i].value == v;
      }
    }
  }

  /** A key is given at most once. */
  ghost predicate Once(args: seq<Arg>, key: Key) {
    forall i, j :: 0 <= i < j < |args| ==> !(Matches(args[i], key) && Matches(args[j], key))
  }

  lemma {:induction false} NoMatchNoValue(args: seq<Arg>, key: Key)
    requires forall i :: 0 <= i < |args| ==> !Matches(args[i], key)
    ensures LastValue(args, key) == None
  {
    if args != [] {
      NoMatchNoValue(args[..|args| - 1], key);
    }
  }

  lemma SameMembers(a: seq<Arg>, b: seq<Arg>, x: Arg)
    requires multiset(a) == multiset(b)
    ensures x in a <==> x in b
  {
    assert x in multiset(a) <==> x in multiset(b);
  }

  lemma NoneIsPermuted(a: seq<Arg>, b: seq<Arg>, key: Key)
    requires multiset(a) == multiset(b) && LastValue(a, key) == None
    ensures LastValue(b, key) == None
  {
    LastValueIs(a, key);
    forall i | 0 <= i < |b|
      ensures !Matches(b[i], key)
    {
      SameMembers(a, b, b[i]);
    }
    NoMatchNoValue(b, key);
  }

  lemma LastValuePermuted(a: seq<Arg>, b: seq<Arg>, key: Key)
    requires multiset(a) == multiset(b) && Once(a, key)
    ensures LastValue(a, key) == LastValue(b, key)
  {
    if LastValue(a, key) == None {
      NoneIsPermuted(a, b, key);
    } else if LastValue(b, key) == None {
      NoneIsPermuted(b, a, key);
    } else {
      LastValueIs(a, key);
      LastValueIs(b, key);
      var x :| x in b && Matches(x, key) && x.value == LastValue(b, key).value;
      SameMembers(a, b, x);
    }
  }

  /** With no recognised key given twice, the order of the arguments is immaterial. */
  lemma GeneralFormPermuted(cfg: Config, a: seq<Arg>, b: seq<Arg>)
    requires multiset(a) == multiset(b)
    requires forall k :: k != Unknown ==> Once(a, General(k))
    ensures GeneralForm(cfg, a) == GeneralForm(cfg, b)
  {
    forall k: Setting | k != Unknown
      ensures LastValue(a, General(k)) == LastValue(b, General(k))
    {
      LastValuePermuted(a, b, General(k));
    }
    assert LastGiven(a) == LastGiven(b);
  }

  lemma WiFiFormPermuted(a: seq<Arg>, b: seq<Arg>, net: Network)
    requires multiset(a) == multiset(b)
    requires Once(a, SSIDKey(net)) && Once(a, PasswordKey(net)) && Once(a, UseKey(net))
    ensures WiFiForm(a, net) == WiFiForm(b, net)
  {
    LastValuePermuted(a, b, SSIDKey(net));
    LastValuePermuted(a, b, PasswordKey(net));
    LastValuePermuted(a, b, UseKey(net));
  }

  // ---- What each letter does, said of the arguments alone

  /** Argument `i` is the last whose name has `letter` in second place. */
  ghost predicate LastWith(args: seq<Arg>, letter: Byte, i: int) {
    && 0 <= i < |args| && |args[i].name| > 1 && args[i].name[1] == letter
    && forall j :: i < j < |args| ==> !(|args[j].name| > 1 && args[j].name[1] == letter)
  }

  ghost predicate NoneWith(args: seq<Arg>, letter: Byte) {
    forall j :: 0 <= j < |args| ==> !(|args[j].name| > 1 && args[j].name[1] == letter)
  }

  /** The number last given, cut off at 0 and 255. */
  ghost predicate SetsByte(args: seq<Arg>, letter: Byte, before: Byte, after: Byte) {
    && (NoneWith(args, letter) ==> after == before)
    && forall i :: LastWith(args, letter, i) ==>
         var n := ToInt(args[i].value);
         && (n < 0 ==> after == 0)
         && (n > 255 ==> after == 255)
         && (0 <= n <= 255 ==> after as int == n)
  }

  /** On exactly when the last value given is the number 1. */
  ghost predicate SetsFlag(args: seq<Arg>, letter: Byte, after: bool) {
    && (NoneWith(args, letter) ==> !after)
    && forall i :: LastWith(args, letter, i) ==> (after <==> ToInt(args[i].value) == 1)
  }

  /** The number last given, or the nearest from `low` to `high`. */
  ghost predicate SetsNumber(args: seq<Arg>, letter: Byte, low: int, high: int, before: int, after: int) {
    && (NoneWith(args, letter) ==> after == before)
    && forall i :: LastWith(args, letter, i) ==>
         var n := ToInt(args[i].value);
         && (n < low ==> after == low)
         && (n > high ==> after == high)
         && (low <= n <= high ==> after == n)
  }

  /** The text last given: percent-decoded or as it is. */
  ghost predicate SetsText(args: seq<Arg>, letter: Byte, decoded: bool, before: Str, after: Str) {
    && (NoneWith(args, letter) ==> after == before)
    && forall i :: LastWith(args, letter, i) ==>
         after == if decoded then Escape.Decode(args[i].value) else args[i].value
  }

  /** The settings after a form: the letters are m, l, t, c, d, h, i, u, a and f. */
  ghost predicate FormSets(before: Config, args: seq<Arg>, after: Config) {
    && SetsFlag(args, 0x6D, after.powerMonEnabled)
    && SetsFlag(args, 0x6C, after.pulseLight)
    && SetsByte(args, 0x74, before.pulseFreq, after.pulseFreq)
    && SetsNumber(args, 0x63, 1, 0x7FFF_FFFF, before.pulseFactor, after.pulseFactor)
    && SetsByte(args, 0x64, before.limit, after.limit)
    && SetsByte(args, 0x68, before.limitHigh, after.limitHigh)
    && SetsByte(args, 0x69, before.limitDebounce, after.limitDebounce)
    && SetsText(args, 0x75, true, before.pushURL, after.pushURL)
    && SetsText(args, 0x61, false, before.pushArg, after.pushArg)
    && SetsNumber(args, 0x66, 5, 1000, before.pushFreq, after.pushFreq)
  }

  /** A key stands for a name with these letters. */
  ghost predicate IsLetter(key: Key, letter: Byte) {
    forall a: Arg :: Matches(a, key) <==> |a.name| > 1 && a.name[1] == letter
  }

  lemma {:induction false} LastIsLastValue(args: seq<Arg>, key: Key, i: nat)
    requires i < |args| && Matches(args[i], key) && forall j :: i < j < |args| ==> !Matches(args[j], key)
    ensures LastValue(args, key) == Some(args[i].value)
    decreases |args|
  {
    if i < |args| - 1 {
      LastIsLastValue(args[..|args| - 1], key, i);
    }
  }

  lemma ValueByLetter(args: seq<Arg>, key: Key, letter: Byte)
    requires IsLetter(key, letter)
    ensures NoneWith(args, letter) ==> LastValue(args, key) == None
    ensures forall i :: LastWith(args, letter, i) ==> LastValue(args, key) == Some(args[i].value)
  {
    if NoneWith(args, letter) {
      NoMatchNoValue(args, key);
    }
    forall i | LastWith(args, letter, i)
      ensures LastValue(args, key) == Some(args[i].value)
    {
      LastIsLastValue(args, key, i);
    }
  }

  lemma ClampByteIs(n: int)
    ensures 0 <= n <= 255 ==> ClampByte(n) as int == n
    ensures n < 0 ==> ClampByte(n) == 0
    ensures n > 255 ==> ClampByte(n) == 255
  {
    if 0 <= n <= 255 {
      ByteValue(n);
    }
  }

  lemma ByteByLetter(args: seq<Arg>, key: Key, letter: Byte, before: Byte)
    requires IsLetter(key, letter)
    ensures SetsByte(args, letter, before, ByteOr(LastValue(args, key), before))
  {
    ValueByLetter(args, key, letter);
    if LastValue(args, key).Some? {
      ClampByteIs(ToInt(LastValue(args, key).value));
    }
  }

  lemma FlagByLetter(args: seq<Arg>, key: Key, letter: Byte)
    requires IsLetter(key, letter)
    ensures SetsFlag(args, letter, IsOne(LastValue(args, key)))
  {
    ValueByLetter(args, key, letter);
  }

  lemma FactorByLetter(args: seq<Arg>, key: Key, letter: Byte, before: int)
    requires IsLetter(key, letter)
    ensures var v := LastValue(args, key);
            SetsNumber(args, letter, 1, 0x7FFF_FFFF, before, if v.None? then before else ClampFactor(ToInt(v.value)))
  {
    ValueByLetter(args, key, letter);
    if LastValue(args, key).Some? {
      ToIntRange(LastValue(args, key).value);
    }
  }

  lemma FrequencyByLetter(args: seq<Arg>, key: Key, letter: Byte, before: int)
    requires IsLetter(key, letter)
    ensures var v := LastValue(args, key);
            SetsNumber(args, letter, 5, 1000, before, if v.None? then before else ClampPushFreq(ToInt(v.value)))
  {
    ValueByLetter(args, key, letter);
  }

  lemma ToIntRange(s: Str)
    ensures -TWO31 <= ToInt(s) < TWO31
  {
  }

  lemma TextByLetter(args: seq<Arg>, key: Key, letter: Byte, decoded: bool, before: Str)
    requires IsLetter(key, letter)
    ensures var v := LastValue(args, key);
            SetsText(args, letter, decoded, before,
                     if v.None? then before else if decoded then Escape.Decode(v.value) else v.value)
  {
    ValueByLetter(args, key, letter);
  }

  lemma OneLetter(setting: Setting, letter: Byte)
    requires setting != Unknown && SettingOf(letter) == setting
    ensures IsLetter(General(setting), letter)
  {
    forall b: Byte
      ensures SettingOf(b) == setting <==> b == letter
    {
      SameLetter(b, letter);
    }
  }

  lemma SameLetter(b: Byte, letter: Byte)
    requires SettingOf(letter) != Unknown
    ensures SettingOf(b) == SettingOf(letter) <==> b == letter
  {
  }

  lemma FlagsByLetter(before: Config, args: seq<Arg>)
    ensures SetsFlag(args, 0x6D, GeneralForm(before, args).powerMonEnabled)
    ensures SetsFlag(args, 0x6C, GeneralForm(before, args).pulseLight)
  {
    OneLetter(Monitor, 0x6D);
    FlagByLetter(args, General(Monitor), 0x6D);
    OneLetter(Light, 0x6C);
    FlagByLetter(args, General(Light), 0x6C);
  }

  lemma PeriodAndLevelByLetter(before: Config, args: seq<Arg>)
    ensures SetsByte(args, 0x74, before.pulseFreq, GeneralForm(before, args).pulseFreq)
    ensures SetsByte(args, 0x64, before.limit, GeneralForm(before, args).limit)
  {
    OneLetter(Period, 0x74);
    ByteByLetter(args, General(Period), 0x74, before.pulseFreq);
    OneLetter(Level, 0x64);
    ByteByLetter(args, General(Level), 0x64, before.limit);
  }

  lemma ThresholdsByLetter(before: Config, args: seq<Arg>)
    ensures SetsByte(args, 0x68, before.limitHigh, GeneralForm(before, args).limitHigh)
    ensures SetsByte(args, 0x69, before.limitDebounce, GeneralForm(before, args).limitDebounce)
  {
    OneLetter(High, 0x68);
    ByteByLetter(args, General(High), 0x68, before.limitHigh);
    OneLetter(Debounce, 0x69);
    ByteByLetter(args, General(Debounce), 0x69, before.limitDebounce);
  }

  lemma NumbersByLetter(before: Config, args: seq<Arg>)
    ensures SetsNumber(args, 0x63, 1, 0x7FFF_FFFF, before.pulseFactor, GeneralForm(before, args).pulseFactor)
    ensures SetsNumber(args, 0x66, 5, 1000, before.pushFreq, GeneralForm(before, args).pushFreq)
  {
    OneLetter(Factor, 0x63);
    FactorByLetter(args, General(Factor), 0x63, before.pulseFactor);
    OneLetter(Frequency, 0x66);
    FrequencyByLetter(args, General(Frequency), 0x66, before.pushFreq);
  }

  lemma TextsByLetter(before: Config, args: seq<Arg>)
    ensures SetsText(args, 0x75, true, before.pushURL, GeneralForm(before, args).pushURL)
    ensures SetsText(args, 0x61, false, before.pushArg, GeneralForm(before, args).pushArg)
  {
    OneLetter(URL, 0x75);
    TextByLetter(args, General(URL), 0x75, true, before.pushURL);
    OneLetter(Argument, 0x61);
    TextByLetter(args, General(Argument), 0x61, false, before.pushArg);
  }

  /** Each setting takes the last value given under its letter; without one it stays, and a flag goes off. */
  lemma GeneralFormSets(before: Config, args: seq<Arg>)
    ensures FormSets(before, args, GeneralForm(before, args))
  {
    FlagsByLetter(before, args);
    PeriodAndLevelByLetter(before, args);
    ThresholdsByLetter(before, args);
    NumbersByLetter(before, args);
    TextsByLetter(before, args);
  }

  // ---- The same for the names of the WiFi forms

  /** The name begins with these two letters. */
  predicate Begins(a: Arg, first: Byte, second: Byte) {
    |a.name| > 1 && a.name[0] == first && a.name[1] == second
  }

  /** Argument `i` is the last whose name begins with these letters. */
  ghost predicate LastNamed(args: seq<Arg>, first: Byte, second: Byte, i: int) {
    0 <= i < |args| && Begins(args[i], first, second) && forall j :: i < j < |args| ==> !Begins(args[j], first, second)
  }

  /** The last argument whose name begins with these letters has text in it. */
  ghost predicate Gives(args: seq<Arg>, first: Byte, second: Byte) {
    exists i :: LastNamed(args, first, second, i) && At(args[i].value, 0) != 0
  }

  /** What is kept of a value: 14 bytes at most. */
  function Kept(value: Str): Str {
    if |value| <= 14 then value else value[..14]
  }

  /** The letters 'c' of the client network's names and 'a' of the access point's. */
  function NetworkLetter(net: Network): Byte {
    if net == Client then 0x63 else 0x61
  }
}
