/**
  The layout of the settings in the EEPROM image, and what any sequence of
  setting writes leaves there: the image refines a record of independent fields.
*/
module Layout {
  import opened Bytes
  import opened Slots

  datatype TextField =
    | ClientSSID | ClientPassword | ApSSID | ApPassword
    | PulseFreq | PulseFactor
    | Limit | LimitHigh | LimitDebounce
    | PushURL | PushArg | PushFreq

  function Start(f: TextField): nat {
    match f
    case ClientSSID => 0
    case ClientPassword => 16
    case ApSSID => 33
    case ApPassword => 49
    case PulseFreq => 67
    case PulseFactor => 69
    case Limit => 75
    case LimitHigh => 77
    case LimitDebounce => 79
    case PushURL => 81
    case PushArg => 121
    case PushFreq => 131
  }

  function Length(f: TextField): (n: nat)
    ensures 2 <= n && InStore(Start(f), n)
  {
    match f
    case ClientSSID => 16
    case ClientPassword => 16
    case ApSSID => 16
    case ApPassword => 16
    case PulseFreq => 2
    case PulseFactor => INT_LENGTH
    case Limit => 2
    case LimitHigh => 2
    case LimitDebounce => 2
    case PushURL => 40
    case PushArg => 10
    case PushFreq => INT_LENGTH
  }

  datatype Flag = ClientUse | ApUse | PowerMonEnabled | PulseLight

  function ByteOf(g: Flag): (p: nat)
    ensures p < SIZE
  {
    match g
    case ClientUse => 32
    case ApUse => 65
    case PowerMonEnabled => 66
    case PulseLight => 66
  }

  function BitOf(g: Flag): (b: Byte)
    ensures b < 8
  {
    if g == PulseLight then 1 else 0
  }

  /** First byte past the last setting. */
  const END := 137

  // ---- Single bits

  function Mask(bit: Byte): Byte
    requires bit < 8
  {
    1 << bit
  }

  predicate TestBit(b: Byte, bit: Byte)
    requires bit < 8
  {
    b & Mask(bit) > 0
  }

  function SetBit(b: Byte, bit: Byte, on: bool): Byte
    requires bit < 8
  {
    if on then b | Mask(bit) else b & !Mask(bit)
  }

  lemma SetBitLaw(b: Byte, bit: Byte, on: bool, other: Byte)
    requires bit < 8 && other < 8
    ensures TestBit(SetBit(b, bit, on), other) == if other == bit then on else TestBit(b, other)
  {
  }

  // ---- Reading and writing settings

  function GetText(img: Image, f: TextField): Str {
    Decode(Slot(img, Start(f), Length(f)))
  }

  predicate GetFlag(img: Image, g: Flag) {
    TestBit(img[ByteOf(g)], BitOf(g))
  }

  datatype Put = PutText(field: TextField, text: Str) | PutFlag(flag: Flag, on: bool) {
    predicate Contained() {
      PutText? ==> Slots.Contained(Start(field), text)
    }
  }

  function Apply(img: Image, p: Put): Image {
    match p
    case PutText(f, s) => Write(img, Start(f), Length(f), s)
    case PutFlag(g, on) => img[ByteOf(g) := SetBit(img[ByteOf(g)], BitOf(g), on)]
  }

  /** The image after a sequence of setting writes. */
  function Run(img: Image, puts: seq<Put>): Image {
    if puts == [] then img else Apply(Run(img, puts[..|puts| - 1]), puts[|puts| - 1])
  }

  ghost predicate AllContained(puts: seq<Put>) {
    forall i :: 0 <= i < |puts| ==> puts[i].Contained()
  }

  /** What a field reads as after `s` was written to it. */
  function TextStored(f: TextField, s: Str): Str {
    Decode(SlotStored(f, s))
  }

  function SlotStored(f: TextField, s: Str): (slot: Str)
    ensures |slot| == Length(f)
  {
    Encode(Length(f), Stored(Start(f), Length(f), s))
  }

  // ---- The exact effect of any write, wrapped end positions included

  /** Where a write of `s` to `f` starts clearing bytes that lie before the field; nowhere if its end does not wrap. */
  function WrapEnd(f: TextField, s: Str): (e: nat)
    ensures e < Start(f) || e == SIZE
  {
    if Slots.Contained(Start(f), s) then SIZE else (Start(f) + |s|) % 256
  }

  /** A slot whose bytes from position `j` on have been cleared. */
  function Cut(slot: Str, j: int): (c: Str)
    ensures |c| == |slot|
  {
    if j >= |slot| then slot else if j <= 0 then Zeros(|slot|) else slot[..j] + Zeros(|slot| - j)
  }

  /** What any write does to the bytes of field `f`. */
  function SlotWritten(f: TextField, slot: Str, p: Put): (r: Str)
    requires |slot| == Length(f)
    ensures |r| == Length(f)
  {
    if p.PutFlag? || p.text == [] then slot
    else if p.field == f then SlotStored(f, p.text)
    else if Start(f) < Start(p.field) then Cut(slot, WrapEnd(p.field, p.text) - Start(f))
    else slot
  }

  /** What any write does to flag `g`. */
  predicate FlagWritten(g: Flag, on: bool, p: Put) {
    match p
    case PutFlag(h, v) => if h == g then v else on
    case PutText(f, s) => on && !(WrapEnd(f, s) <= ByteOf(g) < Start(f))
  }

  /** Byte `k` outside a field after a write to it. */
  lemma WriteElsewhere(img: Image, f: TextField, s: Str, k: nat)
    requires k < SIZE && !(Start(f) <= k < Start(f) + Length(f))
    ensures Write(img, Start(f), Length(f), s)[k] == if WrapEnd(f, s) <= k < Start(f) then 0 else img[k]
  {
  }

  lemma ApplySlot(img: Image, p: Put, f: TextField)
    ensures Slot(Apply(img, p), Start(f), Length(f)) == SlotWritten(f, Slot(img, Start(f), Length(f)), p)
  {
    var before, after := Slot(img, Start(f), Length(f)), Slot(Apply(img, p), Start(f), Length(f));
    if p.PutFlag? || p.text == [] {
      assert after == before;
    } else if p.field == f {
      SlotAfterWrite(img, Start(f), Length(f), p.text);
    } else {
      SlotElsewhere(img, p.field, p.text, f);
    }
  }

  lemma SlotElsewhere(img: Image, g: TextField, s: Str, f: TextField)
    requires f != g
    ensures Slot(Write(img, Start(g), Length(g), s), Start(f), Length(f)) ==
            var before := Slot(img, Start(f), Length(f));
            if Start(f) < Start(g) then Cut(before, WrapEnd(g, s) - Start(f)) else before
  {
    FieldsAreApart(f, g);
    var img' := Write(img, Start(g), Length(g), s);
    var e := WrapEnd(g, s);
    forall k | Start(f) <= k < Start(f) + Length(f)
      ensures img'[k] == if e <= k < Start(g) then 0 else img[k]
    {
      WriteElsewhere(img, g, s, k);
    }
    if Start(f) < Start(g) {
      SlotCleared(img, img', Start(f), Length(f), e);
    } else {
      SlotUntouched(img, img', Start(f), Length(f));
    }
  }

  /** Clearing the bytes from `e` on cuts a slot there. */
  lemma SlotCleared(img: Image, img': Image, start: nat, length: nat, e: nat)
    requires InStore(start, length)
    requires forall k :: start <= k < start + length ==> img'[k] == if e <= k then 0 else img[k]
    ensures Slot(img', start, length) == Cut(Slot(img, start, length), e - start)
  {
    var before, after := Slot(img, start, length), Slot(img', start, length);
    CutAt(before, e - start);
    forall i | 0 <= i < length
      ensures after[i] == Cut(before, e - start)[i]
    {
      assert after[i] == img'[start + i] && before[i] == img[start + i];
    }
  }

  lemma SlotUntouched(img: Image, img': Image, start: nat, length: nat)
    requires InStore(start, length)
    requires forall k :: start <= k < start + length ==> img'[k] == img[k]
    ensures Slot(img', start, length) == Slot(img, start, length)
  {
    var before, after := Slot(img, start, length), Slot(img', start, length);
    forall i | 0 <= i < length
      ensures after[i] == before[i]
    {
      assert after[i] == img'[start + i] && before[i] == img[start + i];
    }
  }

  lemma CutAt(slot: Str, j: int)
    ensures forall i :: 0 <= i < |slot| ==> Cut(slot, j)[i] == if j <= i then 0 else slot[i]
  {
  }

  lemma FieldsAreApart(f: TextField, g: TextField)
    ensures f == g || Start(f) + Length(f) <= Start(g) || Start(g) + Length(g) <= Start(f)
  {
  }

  lemma ApplyFlagExactly(img: Image, p: Put, g: Flag)
    ensures GetFlag(Apply(img, p), g) == FlagWritten(g, GetFlag(img, g), p)
  {
    if p.PutText? {
      WriteElsewhere(img, p.field, p.text, ByteOf(g));
    } else {
      SetBitLaw(img[ByteOf(p.flag)], BitOf(p.flag), p.on, BitOf(g));
    }
  }

  /** The bytes of a field after any sequence of writes. */
  function SlotAfter(f: TextField, slot: Str, puts: seq<Put>): (r: Str)
    requires |slot| == Length(f)
    ensures |r| == Length(f)
  {
    if puts == [] then slot else SlotWritten(f, SlotAfter(f, slot, puts[..|puts| - 1]), puts[|puts| - 1])
  }

  predicate FlagAfter(g: Flag, on: bool, puts: seq<Put>) {
    if puts == [] then on else FlagWritten(g, FlagAfter(g, on, puts[..|puts| - 1]), puts[|puts| - 1])
  }

  /** After any sequence of writes at all, each field's bytes are a function of that field's bytes before. */
  lemma {:induction false} RunSlot(img: Image, puts: seq<Put>, f: TextField)
    ensures Slot(Run(img, puts), Start(f), Length(f)) == SlotAfter(f, Slot(img, Start(f), Length(f)), puts)
  {
    if puts != [] {
      var n := |puts| - 1;
      RunSlot(img, puts[..n], f);
      ApplySlot(Run(img, puts[..n]), puts[n], f);
    }
  }

  lemma {:induction false} RunFlagExactly(img: Image, puts: seq<Put>, g: Flag)
    ensures GetFlag(Run(img, puts), g) == FlagAfter(g, GetFlag(img, g), puts)
  {
    if puts != [] {
      var n := |puts| - 1;
      RunFlagExactly(img, puts[..n], g);
      ApplyFlagExactly(Run(img, puts[..n]), puts[n], g);
    }
  }

  // ---- Contained writes: the fields are independent

  /** The abstract record: a field holds the stored form of the last non-empty text put there. */
  function LastText(puts: seq<Put>, f: TextField, initial: Str): Str {
    if puts == [] then initial
    else
      var p := puts[|puts| - 1];
      if p.PutText? && p.field == f && p.text != [] then TextStored(f, p.text)
      else LastText(puts[..|puts| - 1], f, initial)
  }

  predicate LastFlag(puts: seq<Put>, g: Flag, initial: bool) {
    if puts == [] then initial
    else
      var p := puts[|puts| - 1];
      if p.PutFlag? && p.flag == g then p.on else LastFlag(puts[..|puts| - 1], g, initial)
  }

  lemma ApplyText(img: Image, p: Put, f: TextField)
    requires p.Contained()
    ensures GetText(Apply(img, p), f) ==
            if p.PutText? && p.field == f && p.text != [] then TextStored(f, p.text) else GetText(img, f)
  {
    ApplySlot(img, p, f);
  }

  lemma ApplyFlag(img: Image, p: Put, g: Flag)
    requires p.Contained()
    ensures GetFlag(Apply(img, p), g) == if p.PutFlag? && p.flag == g then p.on else GetFlag(img, g)
  {
    ApplyFlagExactly(img, p, g);
  }

  lemma ApplyRest(img: Image, p: Put, k: nat)
    requires p.Contained() && END <= k < SIZE
    ensures Apply(img, p)[k] == img[k]
  {
    if p.PutText? {
      WriteStaysInside(img, Start(p.field), Length(p.field), p.text);
    }
  }

  // ---- Whole runs

  /** After any sequence of writes every field reads back its own last non-empty text, untouched by the others. */
  lemma {:induction false} RunText(img: Image, puts: seq<Put>, f: TextField)
    requires AllContained(puts)
    ensures GetText(Run(img, puts), f) == LastText(puts, f, GetText(img, f))
  {
    if puts != [] {
      var n := |puts| - 1;
      RunText(img, puts[..n], f);
      ApplyText(Run(img, puts[..n]), puts[n], f);
    }
  }

  lemma {:induction false} RunFlag(img: Image, puts: seq<Put>, g: Flag)
    requires AllContained(puts)
    ensures GetFlag(Run(img, puts), g) == LastFlag(puts, g, GetFlag(img, g))
  {
    if puts != [] {
      var n := |puts| - 1;
      RunFlag(img, puts[..n], g);
      ApplyFlag(Run(img, puts[..n]), puts[n], g);
    }
  }

  lemma {:induction false} RunRest(img: Image, puts: seq<Put>, k: nat)
    requires AllContained(puts) && END <= k < SIZE
    ensures Run(img, puts)[k] == img[k]
  {
    if puts != [] {
      var n := |puts| - 1;
      RunRest(img, puts[..n], k);
      ApplyRest(Run(img, puts[..n]), puts[n], k);
    }
  }

  lemma RunPush(img: Image, puts: seq<Put>, p: Put)
    ensures Run(img, puts + [p]) == Apply(Run(img, puts), p)
  {
  }

  lemma {:induction false} RunAppend(img: Image, a: seq<Put>, b: seq<Put>)
    ensures Run(img, a + b) == Run(Run(img, a), b)
  {
    if b == [] {
      assert a + b == a;
    } else {
      var n := |b| - 1;
      RunAppend(img, a, b[..n]);
      assert a + b == (a + b[..n]) + [b[n]];
      RunPush(img, a + b[..n], b[n]);
    }
  }

  lemma RunThree(img: Image, p: Put, q: Put, r: Put)
    ensures Run(img, [p, q, r]) == Apply(Apply(Apply(img, p), q), r)
  {
    assert [] + [p] == [p] && [p] + [q] == [p, q] && [p, q] + [r] == [p, q, r];
    RunPush(img, [], p);
    RunPush(img, [p], q);
    RunPush(img, [p, q], r);
  }

  // ---- Finding the last write

  lemma {:induction false} LastTextAt(puts: seq<Put>, f: TextField, initial: Str, k: nat)
    requires k < |puts| && puts[k].PutText? && puts[k].field == f && puts[k].text != []
    requires forall i :: k < i < |puts| ==> !(puts[i].PutText? && puts[i].field == f)
    ensures LastText(puts, f, initial) == TextStored(f, puts[k].text)
    decreases |puts|
  {
    if k < |puts| - 1 {
      LastTextAt(puts[..|puts| - 1], f, initial, k);
    }
  }

  lemma {:induction false} LastTextNone(puts: seq<Put>, f: TextField, initial: Str)
    requires forall i :: 0 <= i < |puts| ==> !(puts[i].PutText? && puts[i].field == f && puts[i].text != [])
    ensures LastText(puts, f, initial) == initial
  {
    if puts != [] {
      LastTextNone(puts[..|puts| - 1], f, initial);
    }
  }

  lemma {:induction false} LastFlagAt(puts: seq<Put>, g: Flag, initial: bool, k: nat)
    requires k < |puts| && puts[k].PutFlag? && puts[k].flag == g
    requires forall i :: k < i < |puts| ==> !(puts[i].PutFlag? && puts[i].flag == g)
    ensures LastFlag(puts, g, initial) == puts[k].on
    decreases |puts|
  {
    if k < |puts| - 1 {
      LastFlagAt(puts[..|puts| - 1], g, initial, k);
    }
  }

  lemma {:induction false} LastFlagNone(puts: seq<Put>, g: Flag, initial: bool)
    requires forall i :: 0 <= i < |puts| ==> !(puts[i].PutFlag? && puts[i].flag == g)
    ensures LastFlag(puts, g, initial) == initial
  {
    if puts != [] {
      LastFlagNone(puts[..|puts| - 1], g, initial);
    }
  }

  /** A slot gives back what fits in it. */
  lemma TextStoredIff(f: TextField, s: Str)
    requires s != [] && NulFree(s)
    ensures TextStored(f, s) == s <==> Fits(Length(f), s)
  {
    var img: Image := Zeros(SIZE);
    ReadAfterWrite(img, Start(f), Length(f), s);
    RoundTripIff(img, Start(f), Length(f), s);
  }

  lemma DecodeIsShort(slot: Str)
    requires slot != []
    ensures |Decode(slot)| <= |slot| && NulFree(Decode(slot))
  {
    CStringNulFree(slot);
  }
}
