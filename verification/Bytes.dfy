/**
  Bytes, byte strings and the XOR checksum over them.

  The firmware's `char` is an unsigned 8-bit value and its `String` is a run of
  such bytes, so both are modelled on `bv8`: addition wraps and XOR is exact.
*/
module Bytes {

  type Byte = bv8
  type Str = seq<Byte>

  /** The integer value of a byte, for the counters and thresholds that are compared as numbers. */
  type Octet = x: int | 0 <= x < 256

  datatype Option<+T> = None | Some(value: T)

  /** No NUL byte: the strings a C string can hold whole. */
  ghost predicate NulFree(s: Str) {
    forall i :: 0 <= i < |s| ==> s[i] != 0
  }

  /** `String` indexing: positions past the end read as NUL. */
  function At(s: Str, i: nat): Byte {
    if i < |s| then s[i] else 0
  }

  lemma NextByte(b: Byte)
    requires b as int < 255
    ensures (b + 1) as int == b as int + 1
  {
  }

  lemma NumberOfByte(b: Byte, n: nat)
    requires n < 256 && b as int == n
    ensures n as Byte == b
  {
  }

  /** A number below 256 is kept by a byte. */
  lemma {:induction false} ByteValue(n: nat)
    requires n < 256
    ensures (n as Byte) as int == n
  {
    if n > 0 {
      ByteValue(n - 1);
      var b := (n - 1) as Byte;
      NextByte(b);
      NumberOfByte(b + 1, n);
    }
  }

  /** The XOR of all bytes. */
  function Xor(s: Str): Byte {
    if s == [] then 0 else Xor(s[..|s| - 1]) ^ s[|s| - 1]
  }

  /** The part of `s` before its first NUL: what a C string reader sees. */
  function CString(s: Str): Str {
    if s == [] || s[0] == 0 then [] else [s[0]] + CString(s[1..])
  }

  function Zeros(n: nat): (z: Str)
    ensures |z| == n && forall i :: 0 <= i < n ==> z[i] == 0
  {
    seq(n, i => 0)
  }

  lemma XorPush(s: Str, b: Byte)
    ensures Xor(s + [b]) == Xor(s) ^ b
  {
  }

  lemma {:induction false} XorAppend(s: Str, t: Str)
    ensures Xor(s + t) == Xor(s) ^ Xor(t)
  {
    if t == [] {
      assert s + t == s;
    } else {
      XorAppend(s, t[..|t| - 1]);
      assert (s + t)[..|s + t| - 1] == s + t[..|t| - 1];
    }
  }

  lemma {:induction false} XorZeros(n: nat)
    ensures Xor(Zeros(n)) == 0
  {
    if n > 0 {
      XorZeros(n - 1);
      assert Zeros(n)[..n - 1] == Zeros(n - 1);
    }
  }

  /** Reading one byte further extends the C string unless a NUL was met. */
  lemma {:induction false} CStringPush(s: Str, b: Byte)
    ensures CString(s + [b]) == if 0 in s || b == 0 then CString(s) else s + [b]
    ensures 0 !in s ==> CString(s) == s
  {
    if s == [] {
    } else {
      assert (s + [b])[1..] == s[1..] + [b];
      assert s == [s[0]] + s[1..];
      CStringPush(s[1..], b);
    }
  }

  lemma {:induction false} CStringPrefix(s: Str, t: Str)
    requires NulFree(s)
    ensures CString(s + t) == s + CString(t)
  {
    if s == [] {
      assert s + t == t;
    } else {
      assert (s + t)[1..] == s[1..] + t;
      CStringPrefix(s[1..], t);
    }
  }

  lemma CStringWhole(s: Str)
    requires NulFree(s)
    ensures CString(s) == s
  {
  }

  lemma {:induction false} CStringNulFree(s: Str)
    ensures NulFree(CString(s)) && |CString(s)| <= |s|
  {
    if s != [] && s[0] != 0 {
      CStringNulFree(s[1..]);
    }
  }
}
