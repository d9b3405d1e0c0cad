/**
  String slots of the EEPROM image: how text is laid down, how it is read back,
  and exactly when it survives.
*/
module Slots {
  import opened Bytes
  import opened Decimal

  const SIZE := 200

  type Image = s: seq<Byte> | |s| == SIZE witness Zeros(SIZE)

  ghost predicate InStore(start: nat, length: nat) {
    0 < length && start + length <= SIZE
  }

  function Slot(img: Image, start: nat, length: nat): (slot: Str)
    requires InStore(start, length)
    ensures |slot| == length
  {
    img[start..start + length]
  }

  // ---- Reading

  /** The last byte of an accepted slot is the XOR of the others. */
  predicate Accepted(slot: Str)
    requires slot != []
  {
    slot[|slot| - 1] == Xor(slot[..|slot| - 1])
  }

  /** The text of a slot: up to its first NUL (the checksum included when there is none), or nothing. */
  function Decode(slot: Str): Str
    requires slot != []
  {
    if Accepted(slot) then CString(slot) else []
  }

  // ---- Writing

  /** Where the text of an `n`-byte string ends; the sum is formed in one byte. */
  function EndOf(start: nat, length: nat, n: nat): (e: nat)
    requires InStore(start, length)
    ensures e < start + length
  {
    var e := (start + n) % 256;
    if e >= start + length then start + length - 1 else e
  }

  /** The part of `s` that reaches the slot. */
  function Stored(start: nat, length: nat, s: Str): (p: Str)
    requires InStore(start, length)
    ensures |p| < length && p <= s
  {
    var e := EndOf(start, length, |s|);
    if e < start then [] else s[..e - start]
  }

  /** A slot holding `p`: the text, NUL padding, and the checksum in the last byte. */
  function Encode(length: nat, p: Str): (slot: Str)
    requires |p| < length
    ensures |slot| == length
  {
    p + Zeros(length - 1 - |p|) + [Xor(p)]
  }

  /** The image after writing `s`; an end that wrapped below the slot clears everything from there on. */
  function Write(img: Image, start: nat, length: nat, s: Str): Image
    requires InStore(start, length)
  {
    var e := EndOf(start, length, |s|);
    if s == [] then img
    else if start <= e then img[..start] + Encode(length, s[..e - start]) + img[start + length..]
    else img[..e] + Zeros(start + length - e) + img[start + length..]
  }

  // ---- The checksum

  lemma AcceptedIffXorIsZero(slot: Str)
    requires slot != []
    ensures Accepted(slot) <==> Xor(slot) == 0
  {
  }

  function Difference(a: Str, b: Str): (d: Str)
    requires |a| == |b|
    ensures |d| == |a|
  {
    seq(|a|, i requires 0 <= i < |a| => a[i] ^ b[i])
  }

  lemma {:induction false} XorDifference(a: Str, b: Str)
    requires |a| == |b|
    ensures Xor(Difference(a, b)) == Xor(a) ^ Xor(b)
  {
    if a != [] {
      var n := |a| - 1;
      XorDifference(a[..n], b[..n]);
      assert Difference(a, b)[..n] == Difference(a[..n], b[..n]);
    }
  }

  /** A change to an accepted slot goes unnoticed exactly when the XOR of the byte differences is zero. */
  lemma ChangeUndetectedIff(slot: Str, changed: Str)
    requires slot != [] && |changed| == |slot| && Accepted(slot)
    ensures Accepted(changed) <==> Xor(Difference(slot, changed)) == 0
  {
    XorDifference(slot, changed);
  }

  lemma {:induction false} XorUpdate(s: Str, i: nat, b: Byte)
    requires i < |s|
    ensures Xor(s[i := b]) == Xor(s) ^ s[i] ^ b
  {
    var n := |s| - 1;
    if i == n {
      assert s[i := b][..n] == s[..n];
    } else {
      XorUpdate(s[..n], i, b);
      assert s[i := b][..n] == s[..n][i := b];
    }
  }

  /** Any change of a single byte, the checksum included, makes the slot read as empty. */
  lemma OneByteChangeDetected(slot: Str, i: nat, b: Byte)
    requires i < |slot| && Accepted(slot) && b != slot[i]
    ensures Decode(slot[i := b]) == []
  {
    XorUpdate(slot, i, b);
    AcceptedIffXorIsZero(slot);
    AcceptedIffXorIsZero(slot[i := b]);
  }

  // ---- What reading after writing returns

  lemma EncodeAccepted(length: nat, p: Str)
    requires |p| < length
    ensures Accepted(Encode(length, p))
  {
    var z := Zeros(length - 1 - |p|);
    XorZeros(|z|);
    XorAppend(p, z);
    assert Encode(length, p)[..length - 1] == p + z;
  }

  /** Text that leaves room for a NUL comes back; text that fills the slot drags its checksum along. */
  lemma DecodeEncode(length: nat, p: Str)
    requires |p| < length && NulFree(p)
    ensures Decode(Encode(length, p)) == if |p| == length - 1 && Xor(p) != 0 then p + [Xor(p)] else p
  {
    EncodeAccepted(length, p);
    var tail := Zeros(length - 1 - |p|) + [Xor(p)];
    assert Encode(length, p) == p + tail;
    CStringPrefix(p, tail);
    CStringTail(length - 1 - |p|, Xor(p));
    assert p + [] == p;
  }

  lemma CStringTail(n: nat, b: Byte)
    ensures CString(Zeros(n) + [b]) == if n == 0 && b != 0 then [b] else []
  {
  }

  /** The bytes of a slot after a write, from any earlier contents and for any length of text. */
  lemma SlotAfterWrite(img: Image, start: nat, length: nat, s: Str)
    requires InStore(start, length) && s != []
    ensures Slot(Write(img, start, length, s), start, length) == Encode(length, Stored(start, length, s))
  {
    if EndOf(start, length, |s|) < start {
      XorPush(Zeros(length - 1), 0);
      XorZeros(length - 1);
    }
  }

  /** What is read after a write depends on the text alone. */
  lemma ReadAfterWrite(img: Image, start: nat, length: nat, s: Str)
    requires InStore(start, length) && s != []
    ensures Decode(Slot(Write(img, start, length, s), start, length)) == Decode(Encode(length, Stored(start, length, s)))
  {
    SlotAfterWrite(img, start, length, s);
  }

  lemma StoredUnwrapped(start: nat, length: nat, s: Str)
    requires InStore(start, length) && start + |s| <= 255
    ensures Stored(start, length, s) == if |s| < length then s else s[..length - 1]
  {
  }

  /** The string slot law for text whose end position does not wrap. */
  lemma SlotLaw(img: Image, start: nat, length: nat, s: Str)
    requires InStore(start, length) && 2 <= length
    requires s != [] && NulFree(s) && start + |s| <= 255
    ensures var r := Decode(Slot(Write(img, start, length, s), start, length));
            var p := if |s| <= length - 1 then s else s[..length - 1];
            r == if |s| <= length - 2 || Xor(p) == 0 then p else p + [Xor(p)]
  {
    ReadAfterWrite(img, start, length, s);
    DecodeEncode(length, Stored(start, length, s));
    StoredUnwrapped(start, length, s);
  }

  /** Which strings a slot gives back unchanged. */
  predicate Fits(length: nat, s: Str) {
    s != [] && (|s| + 2 <= length || ((|s| + 1 == length || |s| == length) && Xor(s) == 0))
  }

  /** A non-empty string comes back exactly when it fits; no bound on its length is assumed. */
  lemma RoundTripIff(img: Image, start: nat, length: nat, s: Str)
    requires InStore(start, length) && 2 <= length
    requires s != [] && NulFree(s)
    ensures Decode(Slot(Write(img, start, length, s), start, length)) == s <==> Fits(length, s)
  {
    ReadAfterWrite(img, start, length, s);
    var p := Stored(start, length, s);
    DecodeEncode(length, p);
    if |s| <= length {
      StoredUnwrapped(start, length, s);
      if |s| == length {
        SplitLast(s);
      }
    }
  }

  /** A string ends in the XOR of what precedes its last byte exactly when its own XOR is zero. */
  lemma SplitLast(s: Str)
    requires s != []
    ensures var p := s[..|s| - 1]; s == p + [s[|s| - 1]] && (s == p + [Xor(p)] <==> Xor(s) == 0)
  {
  }

  // ---- What a write leaves alone

  /** The end position, formed in one byte, has not wrapped below the slot. */
  predicate Contained(start: nat, s: Str) {
    s == [] || start <= (start + |s|) % 256
  }

  ghost predicate SameOutside(a: Image, b: Image, start: nat, length: nat) {
    forall k :: 0 <= k < SIZE && !(start <= k < start + length) ==> a[k] == b[k]
  }

  /** Writes stay inside their slot, whatever the image, exactly when the end position has not wrapped. */
  lemma WriteStaysInsideIff(start: nat, length: nat, s: Str)
    requires InStore(start, length)
    ensures (forall img: Image :: SameOutside(img, Write(img, start, length, s), start, length)) <==> Contained(start, s)
  {
    if Contained(start, s) {
      forall img: Image
        ensures SameOutside(img, Write(img, start, length, s), start, length)
      {
        WriteStaysInside(img, start, length, s);
      }
    } else {
      var ones: Image := seq(SIZE, i => 1);
      var e := EndOf(start, length, |s|);
      assert ones[e] != Write(ones, start, length, s)[e];
      assert !SameOutside(ones, Write(ones, start, length, s), start, length);
    }
  }

  lemma WriteStaysInside(img: Image, start: nat, length: nat, s: Str)
    requires InStore(start, length) && Contained(start, s)
    ensures SameOutside(img, Write(img, start, length, s), start, length)
  {
  }

  // ---- Integers

  function Clamp(v: int): (c: nat)
    ensures c <= 99999 && (0 <= v <= 99999 ==> c == v)
  {
    if v > 99999 then 99999 else if v < 0 then 0 else v
  }

  const INT_LENGTH := 6

  /** What an integer slot reads as after `v` was written to it. */
  function StoredInt(v: int): int {
    PrintLength(Clamp(v));
    ToInt(Decode(Encode(INT_LENGTH, Print(Clamp(v)))))
  }

  /** Integer text never wraps and always reaches its slot whole. */
  lemma IntTextStored(start: nat, v: int)
    requires InStore(start, INT_LENGTH)
    ensures Contained(start, Print(Clamp(v))) && Stored(start, INT_LENGTH, Print(Clamp(v))) == Print(Clamp(v))
  {
    PrintLength(Clamp(v));
  }

  lemma FourDigitsSurvive(c: nat)
    requires c <= 9999
    ensures StoredInt(c) == c
  {
    var p := Print(c);
    PrintLength(c);
    DecodeEncode(INT_LENGTH, p);
    ToIntPrint(c, []);
    assert p + [] == p;
  }

  /** Five digits leave no room for a NUL; what is read is the digits and their checksum. */
  lemma FiveDigitsStored(c: nat)
    requires 9999 < c <= 99999
    ensures StoredInt(c) == Wrap32(Accumulate(c, [0x30 + DigitXor(c)]))
  {
    var p := Print(c);
    var x := DigitXor(c);
    PrintLength(c);
    XorPrint(c);
    assert x < 16 ==> x ^ 0x30 == 0x30 + x && 0x30 + x != 0;
    DecodeEncode(INT_LENGTH, p);
    ToIntPrint(c, [0x30 + x]);
  }

  lemma ChecksumDigit(c: nat, x: Byte)
    requires x < 16
    ensures Accumulate(c, [0x30 + x]) == if x <= 9 then 10 * c + x as int else c
  {
  }

  /**
    The integer storage law: four digits survive; a fifth leaves no room for a NUL,
    so the checksum is read as a sixth digit whenever it happens to be one.
  */
  lemma IntegerStorageLaw(v: int)
    ensures var c := Clamp(v); var x := DigitXor(c);
            StoredInt(v) == if c <= 9999 || x > 9 then c else 10 * c + x as int
  {
    var c := Clamp(v);
    assert StoredInt(v) == StoredInt(c);
    if c <= 9999 {
      FourDigitsSurvive(c);
    } else {
      FiveDigitsStored(c);
      ChecksumDigit(c, DigitXor(c));
    }
  }
}
