/**
  `escape_parameter`: nineteen replace-all passes over a form value, which
  together decode it in one scan.
*/
module Escape {
  import opened Bytes

  const PLUS: Byte := 0x2B
  const SPACE: Byte := 0x20
  const PERCENT: Byte := 0x25

  /** The characters whose escapes are undone, in the order of the passes. */
  const CODES: Str := [
    0x21, 0x23, 0x24, 0x26, 0x27, 0x28, 0x29, 0x2A, 0x2B, 0x2C,
    0x2F, 0x3A, 0x3B, 0x3D, 0x3F, 0x40, 0x5B, 0x5D
  ]

  /** The reserved characters of RFC 3986, section 2.2: general delimiters, then sub-delimiters. */
  predicate Reserved(c: Byte) {
    || c in [0x3A, 0x2F, 0x3F, 0x23, 0x5B, 0x5D, 0x40]
    || c in [0x21, 0x24, 0x26, 0x27, 0x28, 0x29, 0x2A, 0x2B, 0x2C, 0x3B, 0x3D]
  }

  /** The table holds exactly the reserved characters. */
  lemma TableIsReserved(c: Byte)
    ensures c in CODES <==> Reserved(c)
  {
  }

  function HexDigit(n: Byte): Byte {
    if n < 10 then 0x30 + n else 0x37 + n
  }

  /** `%XX` with uppercase hexadecimal digits. */
  function Triple(c: Byte): (t: Str)
    ensures |t| == 3
  {
    [PERCENT, HexDigit(c >> 4), HexDigit(c & 0x0F)]
  }

  /** `String.replace`: left to right, not looking again at what was put in. */
  function ReplaceAll(s: Str, find: Str, to: Str): Str
    requires find != []
    decreases |s|
  {
    if s == [] then []
    else if find <= s then to + ReplaceAll(s[|find|..], find, to)
    else [s[0]] + ReplaceAll(s[1..], find, to)
  }

  // ---- One left-to-right scan

  /** The code whose triple begins `s`, among the first `n` codes. */
  predicate Escaped(s: Str, n: nat)
    requires n <= |CODES|
  {
    exists i :: 0 <= i < n && Triple(CODES[i]) <= s
  }

  function HexValue(b: Byte): Byte {
    if b >= 0x41 then b - 0x37 else b - 0x30
  }

  /** The character that a triple at the head of `s` stands for. */
  function Unescaped(s: Str): Byte
    requires |s| >= 3
  {
    (HexValue(s[1]) << 4) | HexValue(s[2])
  }

  function Literal(b: Byte): Byte {
    if b == PLUS then SPACE else b
  }

  /** Decodes the first `n` codes, and '+' as a space, in one scan. */
  function Scan(s: Str, n: nat): Str
    requires n <= |CODES|
    decreases |s|
  {
    if s == [] then []
    else if Escaped(s, n) then [Unescaped(s)] + Scan(s[3..], n)
    else [Literal(s[0])] + Scan(s[1..], n)
  }

  function Decode(s: Str): Str {
    Scan(s, |CODES|)
  }

  // ---- The characters involved

  predicate IsHex(b: Byte) {
    0x30 <= b <= 0x39 || 0x41 <= b <= 0x46
  }

  lemma CodeFacts(i: nat)
    requires i < |CODES|
    ensures var c := CODES[i]; var t := Triple(c);
            && c != PERCENT && !IsHex(c) && c != SPACE
            && IsHex(t[1]) && IsHex(t[2]) && t[1] != PLUS && t[2] != PLUS
            && (HexValue(t[1]) << 4) | HexValue(t[2]) == c
  {
  }

  lemma UnescapedIs(s: Str, i: nat)
    requires i < |CODES| && Triple(CODES[i]) <= s
    ensures Unescaped(s) == CODES[i]
  {
  }

  /** A hexadecimal digit at the head of a decoded text stood there before, as itself. */
  lemma HexComesFromItself(s: Str, n: nat)
    requires n <= |CODES| && s != [] && IsHex(Scan(s, n)[0])
    ensures s[0] == Scan(s, n)[0] && Scan(s, n)[1..] == Scan(s[1..], n)
  {
    if i :| 0 <= i < n && Triple(CODES[i]) <= s {
      UnescapedIs(s, i);
      CodeFacts(i);
      assert false;
    }
  }

  /** No earlier pass creates or destroys a match for the next one. */
  lemma MatchSurvives(s: Str, n: nat)
    requires n < |CODES| && !Escaped(s, n) && s != []
    ensures Triple(CODES[n]) <= Scan(s, n) <==> Triple(CODES[n]) <= s
    ensures Triple(CODES[n]) <= s ==> Scan(s, n)[3..] == Scan(s[3..], n)
  {
    var t := Triple(CODES[n]);
    CodeFacts(n);
    if t <= s {
      HexIsLiteral(s[1..], n);
      HexIsLiteral(s[2..], n);
      assert s[1..][1..] == s[2..] && s[2..][1..] == s[3..];
    } else if t <= Scan(s, n) {
      var u := Scan(s, n);
      assert u[0] == t[0] && u[1] == t[1] && u[2] == t[2];
      assert Scan(s[1..], n) == u[1..];
      HexComesFromItself(s[1..], n);
      HexComesFromItself(s[2..], n);
      assert false;
    }
  }

  lemma HexIsLiteral(s: Str, n: nat)
    requires n <= |CODES| && s != [] && IsHex(s[0])
    ensures Scan(s, n) == [s[0]] + Scan(s[1..], n)
  {
  }

  /** Pass `n + 1` takes the scan for `n` codes to the scan for `n + 1` codes. */
  lemma {:induction false} PassExtendsScan(s: Str, n: nat)
    requires n < |CODES|
    ensures ReplaceAll(Scan(s, n), Triple(CODES[n]), [CODES[n]]) == Scan(s, n + 1)
    decreases |s|
  {
    var t := Triple(CODES[n]);
    if s == [] {
    } else if Escaped(s, n) {
      var i :| 0 <= i < n && Triple(CODES[i]) <= s;
      UnescapedIs(s, i);
      CodeFacts(i);
      assert Escaped(s, n + 1);
      PassExtendsScan(s[3..], n);
      assert Scan(s, n)[1..] == Scan(s[3..], n);
      assert !(t <= Scan(s, n)) by { assert Scan(s, n)[0] != t[0]; }
    } else {
      MatchSurvives(s, n);
      if t <= s {
        UnescapedIs(s, n);
        assert Escaped(s, n + 1);
        PassExtendsScan(s[3..], n);
      } else {
        assert !Escaped(s, n + 1);
        PassExtendsScan(s[1..], n);
        assert Scan(s, n)[1..] == Scan(s[1..], n);
      }
    }
  }

  lemma {:induction false} FirstPass(s: Str)
    ensures ReplaceAll(s, [PLUS], [SPACE]) == Scan(s, 0)
    decreases |s|
  {
    if s != [] {
      assert [PLUS] <= s <==> s[0] == PLUS;
      FirstPass(s[1..]);
    }
  }

  /** The triples as they are written, "%21" to "%5D". */
  lemma TripleTexts()
    ensures Triple(0x21) == [PERCENT, 0x32, 0x31] && Triple(0x23) == [PERCENT, 0x32, 0x33]
    ensures Triple(0x24) == [PERCENT, 0x32, 0x34] && Triple(0x26) == [PERCENT, 0x32, 0x36]
    ensures Triple(0x27) == [PERCENT, 0x32, 0x37] && Triple(0x28) == [PERCENT, 0x32, 0x38]
    ensures Triple(0x29) == [PERCENT, 0x32, 0x39] && Triple(0x2A) == [PERCENT, 0x32, 0x41]
    ensures Triple(0x2B) == [PERCENT, 0x32, 0x42] && Triple(0x2C) == [PERCENT, 0x32, 0x43]
    ensures Triple(0x2F) == [PERCENT, 0x32, 0x46] && Triple(0x3A) == [PERCENT, 0x33, 0x41]
    ensures Triple(0x3B) == [PERCENT, 0x33, 0x42] && Triple(0x3D) == [PERCENT, 0x33, 0x44]
    ensures Triple(0x3F) == [PERCENT, 0x33, 0x46] && Triple(0x40) == [PERCENT, 0x34, 0x30]
    ensures Triple(0x5B) == [PERCENT, 0x35, 0x42] && Triple(0x5D) == [PERCENT, 0x35, 0x44]
  {
  }

  /** The nineteen passes equal one scan, whatever the parameter. */
  method EscapeParameter(param: Str) returns (r: Str)
    ensures r == Decode(param)
  {
    TripleTexts();
    r := ReplaceAll(param, [PLUS], [SPACE]);
    FirstPass(param);
    r := ReplaceAll(r, [PERCENT, 0x32, 0x31], [0x21]);
    PassExtendsScan(param, 0);
    r := ReplaceAll(r, [PERCENT, 0x32, 0x33], [0x23]);
    PassExtendsScan(param, 1);
    r := ReplaceAll(r, [PERCENT, 0x32, 0x34], [0x24]);
    PassExtendsScan(param, 2);
    r := ReplaceAll(r, [PERCENT, 0x32, 0x36], [0x26]);
    PassExtendsScan(param, 3);
    r := ReplaceAll(r, [PERCENT, 0x32, 0x37], [0x27]);
    PassExtendsScan(param, 4);
    r := ReplaceAll(r, [PERCENT, 0x32, 0x38], [0x28]);
    PassExtendsScan(param, 5);
    r := ReplaceAll(r, [PERCENT, 0x32, 0x39], [0x29]);
    PassExtendsScan(param, 6);
    r := ReplaceAll(r, [PERCENT, 0x32, 0x41], [0x2A]);
    PassExtendsScan(param, 7);
    r := ReplaceAll(r, [PERCENT, 0x32, 0x42], [0x2B]);
    PassExtendsScan(param, 8);
    r := ReplaceAll(r, [PERCENT, 0x32, 0x43], [0x2C]);
    PassExtendsScan(param, 9);
    r := ReplaceAll(r, [PERCENT, 0x32, 0x46], [0x2F]);
    PassExtendsScan(param, 10);
    r := ReplaceAll(r, [PERCENT, 0x33, 0x41], [0x3A]);
    PassExtendsScan(param, 11);
    r := ReplaceAll(r, [PERCENT, 0x33, 0x42], [0x3B]);
    PassExtendsScan(param, 12);
    r := ReplaceAll(r, [PERCENT, 0x33, 0x44], [0x3D]);
    PassExtendsScan(param, 13);
    r := ReplaceAll(r, [PERCENT, 0x33, 0x46], [0x3F]);
    PassExtendsScan(param, 14);
    r := ReplaceAll(r, [PERCENT, 0x34, 0x30], [0x40]);
    PassExtendsScan(param, 15);
    r := ReplaceAll(r, [PERCENT, 0x35, 0x42], [0x5B]);
    PassExtendsScan(param, 16);
    r := ReplaceAll(r, [PERCENT, 0x35, 0x44], [0x5D]);
    PassExtendsScan(param, 17);
  }

  // ---- The scan, said of the reserved characters

  /** The digits 0 to 9 and A to F. */
  const HEX_DIGITS: Str := [
    0x30, 0x31, 0x32, 0x33, 0x34, 0x35, 0x36, 0x37, 0x38, 0x39, 0x41, 0x42, 0x43, 0x44, 0x45, 0x46
  ]

  /** The text begins with '%' and the two hexadecimal digits of a reserved character. */
  ghost predicate BeginsWithEscape(s: Str, c: Byte) {
    && Reserved(c) && |s| >= 3
    && s[0] == 0x25 && s[1] == HEX_DIGITS[(c >> 4) as int] && s[2] == HEX_DIGITS[(c & 0x0F) as int]
  }

  lemma EscapeIsTriple(s: Str, c: Byte)
    ensures BeginsWithEscape(s, c) <==> c in CODES && Triple(c) <= s
  {
    TableIsReserved(c);
    if Reserved(c) {
      ReservedTriple(c);
      assert Triple(c) <= s <==> |s| >= 3 && s[0] == Triple(c)[0] && s[1] == Triple(c)[1] && s[2] == Triple(c)[2];
    }
  }

  lemma ReservedTriple(c: Byte)
    requires Reserved(c)
    ensures Triple(c) == [0x25, HEX_DIGITS[(c >> 4) as int], HEX_DIGITS[(c & 0x0F) as int]]
  {
  }

  lemma EscapedIff(s: Str)
    ensures Escaped(s, |CODES|) <==> exists c :: BeginsWithEscape(s, c)
  {
    if Escaped(s, |CODES|) {
      var i :| 0 <= i < |CODES| && Triple(CODES[i]) <= s;
      EscapeIsTriple(s, CODES[i]);
    }
    if c :| BeginsWithEscape(s, c) {
      EscapeIsTriple(s, c);
      var i :| 0 <= i < |CODES| && CODES[i] == c;
      assert Escaped(s, |CODES|);
    }
  }

  /** Escapes of reserved characters become those characters, '+' a space, and everything else stays. */
  lemma DecodeLaw(s: Str)
    requires s != []
    ensures forall c :: BeginsWithEscape(s, c) ==> Decode(s) == [c] + Decode(s[3..])
    ensures (forall c :: !BeginsWithEscape(s, c)) ==>
              Decode(s) == [if s[0] == 0x2B then 0x20 else s[0]] + Decode(s[1..])
  {
    EscapedIff(s);
    forall c | BeginsWithEscape(s, c)
      ensures Decode(s) == [c] + Decode(s[3..])
    {
      EscapeIsTriple(s, c);
      var i :| 0 <= i < |CODES| && CODES[i] == c;
      UnescapedIs(s, i);
    }
  }

  // ---- The encoder that the scan inverts

  function EncodeByte(b: Byte): Str {
    if b == SPACE then [PLUS] else if b in CODES then Triple(b) else [b]
  }

  /** A form's encoding of a value, for the characters of the table. */
  function Encode(s: Str): Str {
    if s == [] then [] else EncodeByte(s[0]) + Encode(s[1..])
  }

  /** Some listed triple occurs literally. */
  predicate HasTriple(s: Str) {
    s != [] && (Escaped(s, |CODES|) || HasTriple(s[1..]))
  }

  lemma PlainByte(b: Byte)
    requires IsHex(b) || b == PERCENT
    ensures EncodeByte(b) == [b]
  {
  }

  lemma EncodedHexIsItself(s: Str)
    requires Encode(s) != [] && IsHex(Encode(s)[0])
    ensures s != [] && s[0] == Encode(s)[0] && Encode(s)[1..] == Encode(s[1..])
  {
  }

  lemma EncodeKeepsHex(s: Str)
    requires s != [] && (IsHex(s[0]) || s[0] == PERCENT)
    ensures Encode(s) == [s[0]] + Encode(s[1..])
  {
    PlainByte(s[0]);
  }

  /** A triple is encoded as itself. */
  lemma EncodeKeepsTriple(s: Str, i: nat)
    requires i < |CODES| && Triple(CODES[i]) <= s
    ensures Encode(s) == s[..3] + Encode(s[3..])
  {
    CodeFacts(i);
    EncodeKeepsHex(s);
    EncodeKeepsHex(s[1..]);
    EncodeKeepsHex(s[2..]);
    assert s[1..][1..] == s[2..] && s[2..][1..] == s[3..];
  }

  /** Encoding makes no triple after a percent sign. */
  lemma EncodeMakesNoTriple(s: Str, i: nat)
    requires i < |CODES| && s != [] && s[0] == PERCENT && Triple(CODES[i]) <= Encode(s)
    ensures Triple(CODES[i]) <= s
  {
    var t, e := Triple(CODES[i]), Encode(s);
    CodeFacts(i);
    EncodeKeepsHex(s);
    assert e[0] == t[0] && e[1] == t[1] && e[2] == t[2];
    assert Encode(s[1..]) == e[1..];
    EncodedHexIsItself(s[1..]);
    EncodedHexIsItself(s[2..]);
  }

  lemma DecodeListed(c: Byte, rest: Str)
    requires c in CODES
    ensures Decode(Triple(c) + rest) == [c] + Decode(rest)
  {
  }

  lemma DecodePlain(b: Byte, rest: Str)
    requires !Escaped([b] + rest, |CODES|)
    ensures Decode([b] + rest) == [Literal(b)] + Decode(rest)
  {
  }

  lemma PercentComesBack(s: Str)
    requires s != [] && s[0] == PERCENT && !Escaped(s, |CODES|)
    ensures Decode(Encode(s)) == [PERCENT] + Decode(Encode(s[1..]))
  {
    forall i | 0 <= i < |CODES| && Triple(CODES[i]) <= Encode(s)
      ensures Triple(CODES[i]) <= s
    {
      EncodeMakesNoTriple(s, i);
    }
    EncodeKeepsHex(s);
    DecodePlain(PERCENT, Encode(s[1..]));
  }

  lemma OthersComeBack(s: Str)
    requires s != [] && s[0] != PERCENT && s[0] !in CODES
    ensures Decode(Encode(s)) == [s[0]] + Decode(Encode(s[1..]))
  {
  }

  /** A character that begins no literal triple comes back in place. */
  lemma CharacterComesBack(s: Str)
    requires s != [] && !Escaped(s, |CODES|)
    ensures Decode(Encode(s)) == [s[0]] + Decode(Encode(s[1..]))
  {
    if s[0] in CODES {
      DecodeListed(s[0], Encode(s[1..]));
    } else if s[0] == PERCENT {
      PercentComesBack(s);
    } else {
      OthersComeBack(s);
    }
  }

  /** A literal triple is swallowed. */
  lemma TripleIsDecoded(s: Str) returns (c: Byte)
    requires Escaped(s, |CODES|)
    ensures |s| >= 3 && Decode(Encode(s)) == [c] + Decode(Encode(s[3..]))
  {
    var i :| 0 <= i < |CODES| && Triple(CODES[i]) <= s;
    c := CODES[i];
    EncodeKeepsTriple(s, i);
    assert s[..3] == Triple(c);
    DecodeListed(c, Encode(s[3..]));
  }

  lemma {:induction false} EncodeThenDecode(s: Str)
    ensures if HasTriple(s) then |Decode(Encode(s))| < |s| else Decode(Encode(s)) == s
    decreases |s|
  {
    if s == [] {
    } else if Escaped(s, |CODES|) {
      var c := TripleIsDecoded(s);
      EncodeThenDecode(s[3..]);
    } else {
      CharacterComesBack(s);
      EncodeThenDecode(s[1..]);
      assert s == [s[0]] + s[1..];
    }
  }

  /** Decoding undoes the encoder exactly on the strings that hold no listed triple literally. */
  lemma InvertsEncoderIff(s: Str)
    ensures Decode(Encode(s)) == s <==> !HasTriple(s)
  {
    EncodeThenDecode(s);
  }
}
