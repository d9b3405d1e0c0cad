/**
  Exactly what a save followed by a load of the general settings gives, and
  which configurations survive.
*/
module SaveAndLoad {
  import opened Bytes
  import opened Decimal
  import opened Slots
  import opened Layout
  import opened PulseFactor
  import opened GeneralSettings

  // ---- One setting at a time

  predicate OneByte(f: TextField) {
    f == PulseFreq || f == Limit || f == LimitHigh || f == LimitDebounce
  }

  lemma PlaceholderText(c: Byte, tail: Str)
    ensures var s := Placeholder(c, tail);
            |s| <= 1 + |tail| && NulFree(s) && (s == [] <==> c == 0) && (c != 0 ==> s[0] == c)
  {
    CStringNulFree([c] + tail);
  }

  /** A two-byte slot keeps the first character of any text and doubles it as its checksum. */
  lemma OneByteSlot(start: nat, s: Str)
    requires InStore(start, 2) && s != [] && NulFree(s) && start + |s| <= 255
    ensures Slots.Contained(start, s)
    ensures At(Decode(Encode(2, Stored(start, 2, s))), 0) == s[0]
  {
  }

  /** A non-zero byte setting comes back whatever follows it in memory; a zero one is an empty string. */
  lemma PlaceholderLaw(f: TextField, c: Byte, tail: Str)
    requires OneByte(f) && TailFits(f, tail)
    ensures var s := Placeholder(c, tail);
            && PutText(f, s).Contained()
            && (s == [] <==> c == 0)
            && (c != 0 ==> At(TextStored(f, s), 0) == c)
  {
    PlaceholderText(c, tail);
    if c != 0 {
      OneByteSlot(Start(f), Placeholder(c, tail));
    }
  }

  lemma IntPutContained(v: int)
    ensures IntPut(PushFreq, v).Contained()
  {
    PrintLength(Clamp(v));
  }

  lemma IntPutLaw(f: TextField, v: int)
    requires f == PulseFactor || f == PushFreq
    ensures IntPut(f, v).Contained() && ToInt(TextStored(f, IntPut(f, v).text)) == StoredInt(v)
    ensures TextStored(f, IntPut(f, v).text) != []
  {
    IntTextStored(Start(f), v);
    PrintLength(Clamp(v));
    var p := Print(Clamp(v));
    DecodeEncode(INT_LENGTH, p);
  }

  // ---- The whole configuration, wrapped texts included

  function ByteKept(before: Byte, c: Byte): Byte {
    if c == 0 then before else c
  }

  function TextKept(f: TextField, before: Str, s: Str): Str {
    if s == [] then before else TextStored(f, s)
  }

  function SlotKept(f: TextField, before: Str, s: Str): (slot: Str)
    requires |before| == Length(f)
    ensures |slot| == Length(f)
  {
    if s == [] then before else SlotStored(f, s)
  }

  function FieldSlot(img: Image, f: TextField): (slot: Str)
    ensures |slot| == Length(f)
  {
    Slot(img, Start(f), Length(f))
  }

  function Lower(i: int, j: int): int {
    if i < j then i else j
  }

  /** The first byte before the push settings that a save clears because an end position wrapped, if any. */
  function Damage(cfg: Config): nat {
    Lower(WrapEnd(PushURL, cfg.pushURL), WrapEnd(PushArg, cfg.pushArg))
  }

  /** A byte setting after a save: zero when either byte of its slot was cleared. */
  function ByteAfter(img: Image, f: TextField, c: Byte, damage: nat): Byte {
    if damage <= Start(f) + 1 then 0 else ByteKept(At(GetText(img, f), 0), c)
  }

  /** The factor after a save: the text of ten times the old one, as far as it was not cleared. */
  function FactorAfter(factor: int, damage: nat): int {
    var slot := SlotStored(PulseFactor, Print(Clamp(Wrap32(factor * 10))));
    TruncDiv(IntOf(Decode(Cut(slot, damage - Start(PulseFactor)))), 10)
  }

  /** The URL after a save; an argument whose end position wraps clears its last bytes or all of it. */
  function URLAfter(img: Image, cfg: Config): Str {
    var slot := SlotKept(PushURL, FieldSlot(img, PushURL), cfg.pushURL);
    Decode(Cut(slot, WrapEnd(PushArg, cfg.pushArg) - Start(PushURL)))
  }

  /** What loading finds after `cfg` was saved over `img`. */
  function AfterSave(img: Image, cfg: Config): Config {
    var damage := Damage(cfg);
    Config(
      cfg.powerMonEnabled && damage > ByteOf(PowerMonEnabled), cfg.pulseLight && damage > ByteOf(PulseLight),
      ByteAfter(img, PulseFreq, cfg.pulseFreq, damage),
      FactorAfter(cfg.pulseFactor, damage),
      ByteAfter(img, Limit, cfg.limit, damage), ByteAfter(img, LimitHigh, cfg.limitHigh, damage),
      ByteAfter(img, LimitDebounce, cfg.limitDebounce, damage),
      URLAfter(img, cfg),
      TextKept(PushArg, GetText(img, PushArg), cfg.pushArg),
      StoredInt(cfg.pushFreq))
  }

  /** What loading finds after `cfg` was saved over a configuration `before`, when no end position wraps. */
  function Resaved(before: Config, cfg: Config): Config {
    Config(
      cfg.powerMonEnabled, cfg.pulseLight,
      ByteKept(before.pulseFreq, cfg.pulseFreq), Reloaded(cfg.pulseFactor),
      ByteKept(before.limit, cfg.limit), ByteKept(before.limitHigh, cfg.limitHigh),
      ByteKept(before.limitDebounce, cfg.limitDebounce),
      TextKept(PushURL, before.pushURL, cfg.pushURL), TextKept(PushArg, before.pushArg, cfg.pushArg),
      StoredInt(cfg.pushFreq))
  }

  // ---- The first seven writes are contained, and write each field once

  predicate IsText(p: Put, f: TextField) {
    p.PutText? && p.field == f
  }

  /** No write but the `k`-th is to text field `f`. */
  ghost predicate OnlyWrite(puts: seq<Put>, k: nat, f: TextField) {
    k < |puts| && IsText(puts[k], f) && forall i :: 0 <= i < |puts| && i != k ==> !IsText(puts[i], f)
  }

  function FrontPuts(cfg: Config, tails: Tails): seq<Put> {
    FlagPuts(cfg) + MeterPuts(cfg, tails) + LimitPuts(cfg, tails)
  }

  /** The seven writes, one by one. */
  ghost predicate IsFront(puts: seq<Put>, cfg: Config, tails: Tails) {
    && |puts| == 7
    && puts[0] == PutFlag(PowerMonEnabled, cfg.powerMonEnabled) && puts[1] == PutFlag(PulseLight, cfg.pulseLight)
    && puts[2] == PutText(PulseFreq, Placeholder(cfg.pulseFreq, tails.pulseFreq))
    && puts[3] == IntPut(PulseFactor, Wrap32(cfg.pulseFactor * 10))
    && puts[4] == PutText(Limit, Placeholder(cfg.limit, tails.limit))
    && puts[5] == PutText(LimitHigh, Placeholder(cfg.limitHigh, tails.limitHigh))
    && puts[6] == PutText(LimitDebounce, Placeholder(cfg.limitDebounce, tails.limitDebounce))
  }

  lemma FrontContained(puts: seq<Put>, cfg: Config, tails: Tails)
    requires IsFront(puts, cfg, tails) && TailsFit(tails)
    ensures AllContained(puts)
  {
    assert puts[2].Contained() by { PlaceholderLaw(PulseFreq, cfg.pulseFreq, tails.pulseFreq); }
    assert puts[3].Contained() by { IntPutLaw(PulseFactor, Wrap32(cfg.pulseFactor * 10)); }
    assert puts[4].Contained() by { PlaceholderLaw(Limit, cfg.limit, tails.limit); }
    assert puts[5].Contained() by { PlaceholderLaw(LimitHigh, cfg.limitHigh, tails.limitHigh); }
    assert puts[6].Contained() by { PlaceholderLaw(LimitDebounce, cfg.limitDebounce, tails.limitDebounce); }
    SevenContained(puts);
  }

  lemma SevenContained(puts: seq<Put>)
    requires |puts| == 7
    requires puts[0].Contained() && puts[1].Contained() && puts[2].Contained() && puts[3].Contained()
    requires puts[4].Contained() && puts[5].Contained() && puts[6].Contained()
    ensures AllContained(puts)
  {
  }

  /** Every text field before the push settings is written once. */
  ghost predicate FrontOrder(puts: seq<Put>) {
    && OnlyWrite(puts, 2, PulseFreq) && OnlyWrite(puts, 3, PulseFactor)
    && OnlyWrite(puts, 4, Limit) && OnlyWrite(puts, 5, LimitHigh) && OnlyWrite(puts, 6, LimitDebounce)
  }

  lemma FrontIsOrdered(puts: seq<Put>)
    requires |puts| == 7 && puts[0].PutFlag? && puts[1].PutFlag?
    requires IsText(puts[2], PulseFreq) && IsText(puts[3], PulseFactor)
    requires IsText(puts[4], Limit) && IsText(puts[5], LimitHigh) && IsText(puts[6], LimitDebounce)
    ensures FrontOrder(puts)
  {
  }

  /** Contained writes to other fields leave a field's bytes alone. */
  lemma {:induction false} SlotSpared(f: TextField, slot: Str, puts: seq<Put>)
    requires |slot| == Length(f) && AllContained(puts)
    requires forall i :: 0 <= i < |puts| ==> !IsText(puts[i], f)
    ensures SlotAfter(f, slot, puts) == slot
  {
    if puts != [] {
      SlotSpared(f, slot, puts[..|puts| - 1]);
    }
  }

  lemma {:induction false} SlotWrittenOnce(f: TextField, slot: Str, puts: seq<Put>, k: nat)
    requires |slot| == Length(f) && AllContained(puts) && OnlyWrite(puts, k, f)
    ensures SlotAfter(f, slot, puts) == SlotKept(f, slot, puts[k].text)
    decreases |puts|
  {
    var n := |puts| - 1;
    if k < n {
      SlotWrittenOnce(f, slot, puts[..n], k);
    } else {
      SlotSpared(f, slot, puts[..n]);
    }
  }

  /** A flag set by the `k`-th of contained writes, and not set again. */
  lemma {:induction false} FlagWrittenOnce(g: Flag, on: bool, puts: seq<Put>, k: nat)
    requires AllContained(puts) && k < |puts| && puts[k].PutFlag? && puts[k].flag == g
    requires forall i :: k < i < |puts| ==> !(puts[i].PutFlag? && puts[i].flag == g)
    ensures FlagAfter(g, on, puts) == puts[k].on
    decreases |puts|
  {
    if k < |puts| - 1 {
      FlagWrittenOnce(g, on, puts[..|puts| - 1], k);
    }
  }

  // ---- The last three writes may do damage

  lemma SlotAfterPush(f: TextField, slot: Str, puts: seq<Put>, p: Put)
    requires |slot| == Length(f)
    ensures SlotAfter(f, slot, puts + [p]) == SlotWritten(f, SlotAfter(f, slot, puts), p)
  {
  }

  lemma SlotAfterThree(f: TextField, slot: Str, p: Put, q: Put, r: Put)
    requires |slot| == Length(f)
    ensures SlotAfter(f, slot, [p, q, r]) == SlotWritten(f, SlotWritten(f, SlotWritten(f, slot, p), q), r)
  {
    assert [] + [p] == [p] && [p] + [q] == [p, q] && [p, q] + [r] == [p, q, r];
    SlotAfterPush(f, slot, [], p);
    SlotAfterPush(f, slot, [p], q);
    SlotAfterPush(f, slot, [p, q], r);
  }

  lemma FlagAfterPush(g: Flag, on: bool, puts: seq<Put>, p: Put)
    ensures FlagAfter(g, on, puts + [p]) == FlagWritten(g, FlagAfter(g, on, puts), p)
  {
  }

  lemma FlagAfterThree(g: Flag, on: bool, p: Put, q: Put, r: Put)
    ensures FlagAfter(g, on, [p, q, r]) == FlagWritten(g, FlagWritten(g, FlagWritten(g, on, p), q), r)
  {
    assert [] + [p] == [p] && [p] + [q] == [p, q] && [p, q] + [r] == [p, q, r];
    FlagAfterPush(g, on, [], p);
    FlagAfterPush(g, on, [p], q);
    FlagAfterPush(g, on, [p, q], r);
  }

  lemma CutTwice(slot: Str, i: int, j: int)
    ensures Cut(Cut(slot, i), j) == Cut(slot, Lower(i, j))
  {
    var m := Lower(i, j);
    CutAt(slot, i);
    CutAt(Cut(slot, i), j);
    CutAt(slot, m);
  }

  /** A write to a later field cuts this one where its end position wrapped to. */
  lemma WrittenBefore(f: TextField, slot: Str, p: Put)
    requires |slot| == Length(f) && p.PutText? && Start(f) < Start(p.field)
    ensures SlotWritten(f, slot, p) == Cut(slot, WrapEnd(p.field, p.text) - Start(f))
  {
  }

  lemma ContainedSpares(f: TextField, slot: Str, p: Put)
    requires |slot| == Length(f) && p.PutText? && p.field != f && p.Contained()
    ensures SlotWritten(f, slot, p) == slot
  {
  }

  lemma PushFreqSpares(f: TextField, slot: Str, v: int)
    requires |slot| == Length(f) && f != PushFreq
    ensures SlotWritten(f, slot, IntPut(PushFreq, v)) == slot
  {
    IntPutContained(v);
    ContainedSpares(f, slot, IntPut(PushFreq, v));
  }

  /** Two writes to later fields cut this one at the lower of their ends. */
  lemma BothBefore(f: TextField, slot: Str, p: Put, q: Put)
    requires |slot| == Length(f) && p.PutText? && q.PutText? && Start(f) < Start(p.field) && Start(f) < Start(q.field)
    ensures SlotWritten(f, SlotWritten(f, slot, p), q) ==
            Cut(slot, Lower(WrapEnd(p.field, p.text), WrapEnd(q.field, q.text)) - Start(f))
  {
    WrittenBefore(f, slot, p);
    WrittenBefore(f, SlotWritten(f, slot, p), q);
    CutTwice(slot, WrapEnd(p.field, p.text) - Start(f), WrapEnd(q.field, q.text) - Start(f));
  }

  lemma ThreeOnSlot(f: TextField, slot: Str, p: Put, q: Put, r: Put)
    requires |slot| == Length(f) && p.PutText? && q.PutText? && Start(f) < Start(p.field) && Start(f) < Start(q.field)
    requires r.PutText? && f != r.field && r.Contained()
    ensures SlotAfter(f, slot, [p, q, r]) ==
            Cut(slot, Lower(WrapEnd(p.field, p.text), WrapEnd(q.field, q.text)) - Start(f))
  {
    SlotAfterThree(f, slot, p, q, r);
    BothBefore(f, slot, p, q);
    ContainedSpares(f, SlotWritten(f, SlotWritten(f, slot, p), q), r);
  }

  /** The three writes of the push settings, cutting the slot of an earlier field. */
  lemma PushTextsOnSlot(f: TextField, slot: Str, url: Str, arg: Str, freq: Str)
    requires |slot| == Length(f) && Start(f) < Start(PushURL) && Slots.Contained(Start(PushFreq), freq)
    ensures SlotAfter(f, slot, [PutText(PushURL, url), PutText(PushArg, arg), PutText(PushFreq, freq)]) ==
            Cut(slot, Lower(WrapEnd(PushURL, url), WrapEnd(PushArg, arg)) - Start(f))
  {
    ThreeOnSlot(f, slot, PutText(PushURL, url), PutText(PushArg, arg), PutText(PushFreq, freq));
  }

  lemma BackOnSlot(f: TextField, slot: Str, cfg: Config)
    requires |slot| == Length(f) && Start(f) < Start(PushURL)
    ensures SlotAfter(f, slot, PushPuts(cfg)) == Cut(slot, Damage(cfg) - Start(f))
  {
    IntPutContained(cfg.pushFreq);
    PushTextsOnSlot(f, slot, cfg.pushURL, cfg.pushArg, IntPut(PushFreq, cfg.pushFreq).text);
  }

  lemma FrontFieldAfterBack(img: Image, cfg: Config, f: TextField)
    requires Start(f) < Start(PushURL)
    ensures FieldSlot(Run(img, PushPuts(cfg)), f) == Cut(FieldSlot(img, f), Damage(cfg) - Start(f))
  {
    RunSlot(img, PushPuts(cfg), f);
    BackOnSlot(f, FieldSlot(img, f), cfg);
  }

  lemma FlagBefore(g: Flag, on: bool, p: Put)
    requires p.PutText? && ByteOf(g) < Start(p.field)
    ensures FlagWritten(g, on, p) == (on && WrapEnd(p.field, p.text) > ByteOf(g))
  {
  }

  lemma PushFreqSparesFlag(g: Flag, on: bool, v: int)
    ensures FlagWritten(g, on, IntPut(PushFreq, v)) == on
  {
    IntPutContained(v);
  }

  lemma BackOnFlag(g: Flag, on: bool, cfg: Config)
    ensures FlagAfter(g, on, PushPuts(cfg)) == (on && Damage(cfg) > ByteOf(g))
  {
    var url, arg := PutText(PushURL, cfg.pushURL), PutText(PushArg, cfg.pushArg);
    FlagAfterThree(g, on, url, arg, IntPut(PushFreq, cfg.pushFreq));
    FlagBefore(g, on, url);
    FlagBefore(g, FlagWritten(g, on, url), arg);
    PushFreqSparesFlag(g, FlagWritten(g, FlagWritten(g, on, url), arg), cfg.pushFreq);
  }

  lemma FlagAfterBack(img: Image, cfg: Config, g: Flag)
    ensures GetFlag(Run(img, PushPuts(cfg)), g) == (GetFlag(img, g) && Damage(cfg) > ByteOf(g))
  {
    RunFlagExactly(img, PushPuts(cfg), g);
    BackOnFlag(g, GetFlag(img, g), cfg);
  }

  lemma URLAfterBack(img: Image, cfg: Config)
    ensures FieldSlot(Run(img, PushPuts(cfg)), PushURL) ==
            Cut(SlotKept(PushURL, FieldSlot(img, PushURL), cfg.pushURL), WrapEnd(PushArg, cfg.pushArg) - Start(PushURL))
  {
    var slot := FieldSlot(img, PushURL);
    var url, arg := PutText(PushURL, cfg.pushURL), PutText(PushArg, cfg.pushArg);
    RunSlot(img, PushPuts(cfg), PushURL);
    SlotAfterThree(PushURL, slot, url, arg, IntPut(PushFreq, cfg.pushFreq));
    WrittenBefore(PushURL, SlotWritten(PushURL, slot, url), arg);
    PushFreqSpares(PushURL, SlotWritten(PushURL, SlotWritten(PushURL, slot, url), arg), cfg.pushFreq);
  }

  lemma ArgAfterBack(img: Image, cfg: Config)
    ensures FieldSlot(Run(img, PushPuts(cfg)), PushArg) == SlotKept(PushArg, FieldSlot(img, PushArg), cfg.pushArg)
  {
    var slot := FieldSlot(img, PushArg);
    RunSlot(img, PushPuts(cfg), PushArg);
    var url, arg := PutText(PushURL, cfg.pushURL), PutText(PushArg, cfg.pushArg);
    SlotAfterThree(PushArg, slot, url, arg, IntPut(PushFreq, cfg.pushFreq));
    PushFreqSpares(PushArg, SlotKept(PushArg, slot, cfg.pushArg), cfg.pushFreq);
  }

  lemma PushFreqAfterBack(img: Image, cfg: Config)
    ensures IntAt(Run(img, PushPuts(cfg)), PushFreq) == StoredInt(cfg.pushFreq)
  {
    var url, arg, freq := PutText(PushURL, cfg.pushURL), PutText(PushArg, cfg.pushArg), IntPut(PushFreq, cfg.pushFreq);
    RunThree(img, url, arg, freq);
    ApplySlot(Apply(Apply(img, url), arg), freq, PushFreq);
    IntPutLaw(PushFreq, cfg.pushFreq);
    PrintLength(Clamp(cfg.pushFreq));
  }

  // ---- Loading after saving

  /** A field before the push settings after a save. */
  lemma FrontFieldAfterSave(img: Image, front: seq<Put>, cfg: Config, tails: Tails, k: nat, f: TextField)
    requires IsFront(front, cfg, tails) && TailsFit(tails) && OnlyWrite(front, k, f) && Start(f) < Start(PushURL)
    ensures FieldSlot(Run(Run(img, front), PushPuts(cfg)), f) ==
            Cut(SlotKept(f, FieldSlot(img, f), front[k].text), Damage(cfg) - Start(f))
  {
    FrontContained(front, cfg, tails);
    RunSlot(img, front, f);
    SlotWrittenOnce(f, FieldSlot(img, f), front, k);
    FrontFieldAfterBack(Run(img, front), cfg, f);
  }

  /** A two-byte slot of which any byte was cleared reads as zero. */
  lemma TwoBytesCut(slot: Str, j: int)
    requires |slot| == 2
    ensures At(Decode(Cut(slot, j)), 0) == if j <= 1 then 0 else At(Decode(slot), 0)
  {
    CutAt(slot, j);
    if j <= 1 {
      var c := Cut(slot, j);
      AcceptedIffXorIsZero(c);
      XorTwo(c);
    }
  }

  lemma XorTwo(c: Str)
    requires |c| == 2
    ensures Xor(c) == c[0] ^ c[1]
  {
    assert c == [c[0]] + [c[1]] && [c[0]] == [] + [c[0]];
    XorPush([c[0]], c[1]);
    XorPush([], c[0]);
  }

  lemma ByteAfterSave(img: Image, front: seq<Put>, cfg: Config, tails: Tails, k: nat, f: TextField, c: Byte, tail: Str)
    requires IsFront(front, cfg, tails) && TailsFit(tails) && OnlyWrite(front, k, f)
    requires OneByte(f) && TailFits(f, tail) && front[k].text == Placeholder(c, tail)
    ensures At(GetText(Run(Run(img, front), PushPuts(cfg)), f), 0) == ByteAfter(img, f, c, Damage(cfg))
  {
    OneByteBeforeURL(f);
    FrontFieldAfterSave(img, front, cfg, tails, k, f);
    ByteOfCutSlot(img, f, c, tail, Damage(cfg));
  }

  lemma OneByteBeforeURL(f: TextField)
    requires OneByte(f)
    ensures Start(f) < Start(PushURL) && Length(f) == 2
  {
  }

  lemma ByteOfCutSlot(img: Image, f: TextField, c: Byte, tail: Str, damage: nat)
    requires OneByte(f) && TailFits(f, tail)
    ensures At(Decode(Cut(SlotKept(f, FieldSlot(img, f), Placeholder(c, tail)), damage - Start(f))), 0) ==
            ByteAfter(img, f, c, damage)
  {
    OneByteBeforeURL(f);
    var slot := SlotKept(f, FieldSlot(img, f), Placeholder(c, tail));
    TwoBytesCut(slot, damage - Start(f));
    ByteOfSlot(img, f, c, tail);
  }

  lemma ByteOfSlot(img: Image, f: TextField, c: Byte, tail: Str)
    requires OneByte(f) && TailFits(f, tail)
    ensures At(Decode(SlotKept(f, FieldSlot(img, f), Placeholder(c, tail))), 0) == ByteKept(At(GetText(img, f), 0), c)
  {
    PlaceholderLaw(f, c, tail);
  }

  lemma BytesAfterSave(img: Image, front: seq<Put>, cfg: Config, tails: Tails)
    requires IsFront(front, cfg, tails) && FrontOrder(front) && TailsFit(tails)
    ensures var img', after := Run(Run(img, front), PushPuts(cfg)), AfterSave(img, cfg);
            && At(GetText(img', PulseFreq), 0) == after.pulseFreq
            && At(GetText(img', Limit), 0) == after.limit
            && At(GetText(img', LimitHigh), 0) == after.limitHigh
            && At(GetText(img', LimitDebounce), 0) == after.limitDebounce
  {
    ByteAfterSave(img, front, cfg, tails, 2, PulseFreq, cfg.pulseFreq, tails.pulseFreq);
    ByteAfterSave(img, front, cfg, tails, 4, Limit, cfg.limit, tails.limit);
    ByteAfterSave(img, front, cfg, tails, 5, LimitHigh, cfg.limitHigh, tails.limitHigh);
    ByteAfterSave(img, front, cfg, tails, 6, LimitDebounce, cfg.limitDebounce, tails.limitDebounce);
  }

  lemma FlagAfterSave(img: Image, front: seq<Put>, cfg: Config, tails: Tails, k: nat, g: Flag)
    requires IsFront(front, cfg, tails) && TailsFit(tails) && k < 2 && front[k].flag == g
    ensures GetFlag(Run(Run(img, front), PushPuts(cfg)), g) == (front[k].on && Damage(cfg) > ByteOf(g))
  {
    FrontContained(front, cfg, tails);
    RunFlagExactly(img, front, g);
    FlagWrittenOnce(g, GetFlag(img, g), front, k);
    FlagAfterBack(Run(img, front), cfg, g);
  }

  lemma FactorAfterSave(img: Image, front: seq<Put>, cfg: Config, tails: Tails)
    requires IsFront(front, cfg, tails) && FrontOrder(front) && TailsFit(tails)
    ensures TruncDiv(IntAt(Run(Run(img, front), PushPuts(cfg)), PulseFactor), 10) ==
            FactorAfter(cfg.pulseFactor, Damage(cfg))
  {
    FrontFieldAfterSave(img, front, cfg, tails, 3, PulseFactor);
    PrintLength(Clamp(Wrap32(cfg.pulseFactor * 10)));
  }

  lemma URLAfterSave(img: Image, front: seq<Put>, cfg: Config, tails: Tails)
    requires IsFront(front, cfg, tails) && TailsFit(tails)
    ensures GetText(Run(Run(img, front), PushPuts(cfg)), PushURL) == URLAfter(img, cfg)
  {
    FrontSpares(img, front, cfg, tails, PushURL);
    URLAfterBack(Run(img, front), cfg);
  }

  lemma ArgAfterSave(img: Image, front: seq<Put>, cfg: Config, tails: Tails)
    requires IsFront(front, cfg, tails) && TailsFit(tails)
    ensures GetText(Run(Run(img, front), PushPuts(cfg)), PushArg) ==
            TextKept(PushArg, GetText(img, PushArg), cfg.pushArg)
  {
    FrontSpares(img, front, cfg, tails, PushArg);
    ArgAfterBack(Run(img, front), cfg);
  }

  lemma FrontSpares(img: Image, front: seq<Put>, cfg: Config, tails: Tails, f: TextField)
    requires IsFront(front, cfg, tails) && TailsFit(tails) && Start(f) >= Start(PushURL)
    ensures FieldSlot(Run(img, front), f) == FieldSlot(img, f)
  {
    FrontContained(front, cfg, tails);
    RunSlot(img, front, f);
    SlotSpared(f, FieldSlot(img, f), front);
  }

  lemma LoadAfterPuts(img: Image, front: seq<Put>, cfg: Config, tails: Tails)
    requires IsFront(front, cfg, tails) && TailsFit(tails)
    ensures Load(Run(Run(img, front), PushPuts(cfg))) == AfterSave(img, cfg)
  {
    FrontIsOrdered(front);
    FlagAfterSave(img, front, cfg, tails, 0, PowerMonEnabled);
    FlagAfterSave(img, front, cfg, tails, 1, PulseLight);
    BytesAfterSave(img, front, cfg, tails);
    FactorAfterSave(img, front, cfg, tails);
    URLAfterSave(img, front, cfg, tails);
    ArgAfterSave(img, front, cfg, tails);
    PushFreqAfterBack(Run(img, front), cfg);
    LoadIs(Run(Run(img, front), PushPuts(cfg)), AfterSave(img, cfg));
  }

  lemma LoadIs(img: Image, cfg: Config)
    requires GetFlag(img, PowerMonEnabled) == cfg.powerMonEnabled && GetFlag(img, PulseLight) == cfg.pulseLight
    requires At(GetText(img, PulseFreq), 0) == cfg.pulseFreq && TruncDiv(IntAt(img, PulseFactor), 10) == cfg.pulseFactor
    requires At(GetText(img, Limit), 0) == cfg.limit && At(GetText(img, LimitHigh), 0) == cfg.limitHigh
    requires At(GetText(img, LimitDebounce), 0) == cfg.limitDebounce
    requires GetText(img, PushURL) == cfg.pushURL && GetText(img, PushArg) == cfg.pushArg
    requires IntAt(img, PushFreq) == cfg.pushFreq
    ensures Load(img) == cfg
  {
  }

  /** Saving and loading, exactly, for every configuration and whatever lay behind the placeholders. */
  lemma LoadAfterSave(img: Image, cfg: Config, tails: Tails)
    requires TailsFit(tails)
    ensures Load(Save(img, cfg, tails)) == AfterSave(img, cfg)
  {
    RunAppend(img, FrontPuts(cfg, tails), PushPuts(cfg));
    LoadAfterPuts(img, FrontPuts(cfg, tails), cfg, tails);
  }

  lemma NoDamage(cfg: Config)
    requires ConfigContained(cfg)
    ensures Damage(cfg) == SIZE && WrapEnd(PushArg, cfg.pushArg) == SIZE
  {
  }

  lemma UnwrappedFactor(factor: int)
    ensures FactorAfter(factor, SIZE) == Reloaded(factor)
  {
    IntPutLaw(PulseFactor, Wrap32(factor * 10));
  }

  lemma UnwrappedURL(img: Image, cfg: Config)
    requires WrapEnd(PushArg, cfg.pushArg) == SIZE
    ensures URLAfter(img, cfg) == TextKept(PushURL, GetText(img, PushURL), cfg.pushURL)
  {
  }

  /** Without wrapping, zeros and empty texts keep the old value and nothing else of the old configuration matters. */
  lemma UnwrappedAfterSave(img: Image, cfg: Config)
    requires ConfigContained(cfg)
    ensures AfterSave(img, cfg) == Resaved(Load(img), cfg)
  {
    NoDamage(cfg);
    UnwrappedFactor(cfg.pulseFactor);
    UnwrappedURL(img, cfg);
  }

  // ---- Which configurations survive

  predicate StorableInt(v: int) {
    0 <= v <= 9999 || (10000 <= v <= 99999 && DigitXor(v) > 9) || v == 999999
  }

  lemma StoredIntFixedIff(v: int)
    ensures StoredInt(v) == v <==> StorableInt(v)
  {
    IntegerStorageLaw(v);
    NinesXor();
  }

  predicate StorableConfig(cfg: Config) {
    && cfg.pulseFreq != 0 && cfg.limit != 0 && cfg.limitHigh != 0 && cfg.limitDebounce != 0
    && Storable(cfg.pulseFactor) && StorableInt(cfg.pushFreq)
    && Fits(Length(PushURL), cfg.pushURL) && Fits(Length(PushArg), cfg.pushArg)
  }

  /** A configuration with every byte setting 1 and both texts present shows what a save leaves unwritten. */
  const SAMPLE := Config(true, true, 1, 1, 1, 1, 1, [1], [1], 5)

  lemma StorableIsKept(before: Config, cfg: Config)
    requires StorableConfig(cfg) && NulFree(cfg.pushURL) && NulFree(cfg.pushArg)
    ensures Resaved(before, cfg) == cfg
  {
    FixedIff(cfg.pulseFactor);
    StoredIntFixedIff(cfg.pushFreq);
    TextStoredIff(PushURL, cfg.pushURL);
    TextStoredIff(PushArg, cfg.pushArg);
  }

  lemma KeptIsStorable(before: Config, cfg: Config)
    requires Resaved(before, cfg) == cfg && NulFree(cfg.pushURL) && NulFree(cfg.pushArg)
    requires before.pulseFreq != 0 && before.limit != 0 && before.limitHigh != 0 && before.limitDebounce != 0
    requires before.pushURL != [] && before.pushArg != []
    ensures StorableConfig(cfg)
  {
    FixedIff(cfg.pulseFactor);
    StoredIntFixedIff(cfg.pushFreq);
    if cfg.pushURL != [] { TextStoredIff(PushURL, cfg.pushURL); }
    if cfg.pushArg != [] { TextStoredIff(PushArg, cfg.pushArg); }
  }

  lemma SampleIsStorable()
    ensures StorableConfig(SAMPLE) && NulFree(SAMPLE.pushURL) && NulFree(SAMPLE.pushArg)
  {
  }

  lemma ClearSlotIsEmpty(length: nat, j: int)
    requires 0 < length
    ensures Decode(Cut(Encode(length, []), j)) == []
  {
    CutAt(Encode(length, []), j);
  }

  /** A text whose end position wraps is lost: its own field reads as empty. */
  lemma WrappedTextIsLost(img: Image, cfg: Config, tails: Tails)
    requires TailsFit(tails)
    ensures !Slots.Contained(Start(PushURL), cfg.pushURL) ==> Load(Save(img, cfg, tails)).pushURL == []
    ensures !Slots.Contained(Start(PushArg), cfg.pushArg) ==> Load(Save(img, cfg, tails)).pushArg == []
  {
    LoadAfterSave(img, cfg, tails);
    if !Slots.Contained(Start(PushURL), cfg.pushURL) {
      WrappedURL(img, cfg);
    }
    if !Slots.Contained(Start(PushArg), cfg.pushArg) {
      WrappedArg(img, cfg);
    }
  }

  lemma WrappedSlot(f: TextField, s: Str)
    requires !Slots.Contained(Start(f), s)
    ensures s != [] && SlotStored(f, s) == Encode(Length(f), [])
  {
  }

  lemma WrappedURL(img: Image, cfg: Config)
    requires !Slots.Contained(Start(PushURL), cfg.pushURL)
    ensures URLAfter(img, cfg) == []
  {
    WrappedSlot(PushURL, cfg.pushURL);
    ClearSlotIsEmpty(Length(PushURL), WrapEnd(PushArg, cfg.pushArg) - Start(PushURL));
  }

  lemma WrappedArg(img: Image, cfg: Config)
    requires !Slots.Contained(Start(PushArg), cfg.pushArg)
    ensures TextKept(PushArg, GetText(img, PushArg), cfg.pushArg) == []
  {
    WrappedSlot(PushArg, cfg.pushArg);
    ClearSlotIsEmpty(Length(PushArg), Length(PushArg));
  }

  lemma FitsIsContained(cfg: Config)
    requires StorableConfig(cfg)
    ensures ConfigContained(cfg)
  {
  }

  lemma StorableIsRestored(img: Image, cfg: Config, tails: Tails)
    requires StorableConfig(cfg) && TailsFit(tails)
    requires NulFree(cfg.pushURL) && NulFree(cfg.pushArg)
    ensures Load(Save(img, cfg, tails)) == cfg
  {
    FitsIsContained(cfg);
    LoadAfterSave(img, cfg, tails);
    UnwrappedAfterSave(img, cfg);
    StorableIsKept(Load(img), cfg);
  }

  /** A configuration is restored from any prior contents exactly when it is storable. */
  lemma RestoredIff(cfg: Config, tails: Tails)
    requires TailsFit(tails) && NulFree(cfg.pushURL) && NulFree(cfg.pushArg)
    ensures (forall img: Image :: Load(Save(img, cfg, tails)) == cfg) <==> StorableConfig(cfg)
  {
    if StorableConfig(cfg) {
      forall img: Image
        ensures Load(Save(img, cfg, tails)) == cfg
      {
        StorableIsRestored(img, cfg, tails);
      }
    } else {
      var sample := SampleImage(Zeros(SIZE));
      if ConfigContained(cfg) {
        LoadAfterSave(sample, cfg, tails);
        UnwrappedAfterSave(sample, cfg);
        if Resaved(SAMPLE, cfg) == cfg {
          KeptIsStorable(SAMPLE, cfg);
        }
      } else {
        WrappedTextIsLost(sample, cfg, tails);
      }
      assert Load(Save(sample, cfg, tails)) != cfg;
    }
  }

  lemma SampleImage(base: Image) returns (img: Image)
    ensures Load(img) == SAMPLE
  {
    var none := Tails([], [], [], []);
    img := Save(base, SAMPLE, none);
    SampleIsStorable();
    StorableIsRestored(base, SAMPLE, none);
  }
}
