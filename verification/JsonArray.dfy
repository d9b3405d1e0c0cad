/**
  The JSON array of ADC readings, and a parser that reads it back (the array,
  white space and non-negative integer rules of RFC 8259, sections 2, 5 and 6).
*/
module JsonArray {
  import opened Bytes
  import opened Decimal

  const OPEN: Byte := 0x5B
  const CLOSE: Byte := 0x5D
  const COMMA: Byte := 0x2C
  const SEPARATOR: Str := [COMMA, 0x20]

  // ---- Printing

  function Items(vs: seq<Byte>): Str {
    if vs == [] then []
    else Print(vs[0] as int) + (if |vs| == 1 then [] else SEPARATOR + Items(vs[1..]))
  }

  function PrintArray(vs: seq<Byte>): Str {
    [OPEN] + Items(vs) + [CLOSE]
  }

  /** Prints the first `size` bytes of `arr`. */
  method GenerateJSONArray(arr: array<Byte>, size: nat) returns (r: Str)
    requires size <= arr.Length
    ensures r == PrintArray(arr[..size])
  {
    r := [OPEN];
    ghost var vs := arr[..size];
    for i := 0 to size
      invariant r + Items(vs[i..]) == [OPEN] + Items(vs)
    {
      assert vs[i..][0] == arr[i] && vs[i..][1..] == vs[i + 1..];
      ghost var before := r;
      var text := Print(arr[i] as int);
      r := r + text;
      if i != size - 1 {
        r := r + SEPARATOR;
        assert before + (text + (SEPARATOR + Items(vs[i + 1..]))) == r + Items(vs[i + 1..]);
      } else {
        assert before + (text + []) == r + Items(vs[i + 1..]);
      }
    }
    assert r == [OPEN] + Items(vs);
    r := r + [CLOSE];
  }

  // ---- Parsing

  predicate IsBlank(b: Byte) {
    b == 0x20 || b == 0x09 || b == 0x0A || b == 0x0D
  }

  function SkipBlanks(s: Str): (t: Str)
    ensures |t| <= |s|
  {
    if s != [] && IsBlank(s[0]) then SkipBlanks(s[1..]) else s
  }

  function DigitRun(s: Str): (n: nat)
    ensures n <= |s|
  {
    if s == [] || !IsDigit(s[0]) then 0 else 1 + DigitRun(s[1..])
  }

  /** A non-negative integer without leading zeros, and what follows it. */
  function ParseNumber(s: Str): (r: Option<(int, Str)>)
    ensures r.Some? ==> |r.value.1| < |s|
  {
    var n := DigitRun(s);
    if n == 0 || (n > 1 && s[0] == 0x30) then None
    else Some((Accumulate(0, s[..n]), s[n..]))
  }

  /** Values separated by commas, up to the closing bracket that ends the text. */
  function ParseItems(s: Str): Option<seq<int>>
    decreases |s|
  {
    match ParseNumber(s)
    case None => None
    case Some((v, rest)) =>
      var t := SkipBlanks(rest);
      if t == [] then None
      else if t[0] == CLOSE then (if SkipBlanks(t[1..]) == [] then Some([v]) else None)
      else if t[0] == COMMA then
        match ParseItems(SkipBlanks(t[1..]))
        case None => None
        case Some(vs) => Some([v] + vs)
      else None
  }

  function ParseArray(s: Str): Option<seq<int>> {
    var t := SkipBlanks(s);
    if t == [] || t[0] != OPEN then None
    else
      var u := SkipBlanks(t[1..]);
      if u != [] && u[0] == CLOSE then (if SkipBlanks(u[1..]) == [] then Some([]) else None)
      else ParseItems(u)
  }

  // ---- The two agree

  function Values(vs: seq<Byte>): (r: seq<int>)
    ensures |r| == |vs| && forall i :: 0 <= i < |vs| ==> r[i] == vs[i] as int
  {
    seq(|vs|, i requires 0 <= i < |vs| => vs[i] as int)
  }

  lemma {:induction false} PrintHasNoLeadingZero(n: nat)
    requires n > 0
    ensures Print(n)[0] != 0x30
  {
    if n >= 10 {
      PrintHasNoLeadingZero(n / 10);
    } else {
      NonzeroDigit(n);
    }
  }

  lemma NonzeroDigit(d: nat)
    requires 0 < d < 10
    ensures Digit(d) != 0x30
  {
  }

  lemma {:induction false} DigitRunOfDigits(p: Str, rest: Str)
    requires forall i :: 0 <= i < |p| ==> IsDigit(p[i])
    requires rest == [] || !IsDigit(rest[0])
    ensures DigitRun(p + rest) == |p|
  {
    if p == [] {
      assert p + rest == rest;
    } else {
      assert (p + rest)[1..] == p[1..] + rest;
      DigitRunOfDigits(p[1..], rest);
    }
  }

  lemma ParsePrinted(n: nat, rest: Str)
    requires rest == [] || !IsDigit(rest[0])
    ensures ParseNumber(Print(n) + rest) == Some((n, rest))
  {
    var p := Print(n);
    var s := p + rest;
    DigitRunOfDigits(p, rest);
    if n >= 10 {
      PrintHasNoLeadingZero(n);
      assert s[0] == p[0];
    }
    assert s[..|p|] == p && s[|p|..] == rest;
    AccumulatePrint(n, []);
    assert p + [] == p;
  }

  lemma SeparatorIsSkipped(more: Str)
    requires more != [] && IsDigit(more[0])
    ensures SkipBlanks(SEPARATOR + more) == SEPARATOR + more && SkipBlanks((SEPARATOR + more)[1..]) == more
  {
  }

  lemma ParseStep(s: Str, n: int, more: Str)
    requires ParseNumber(s) == Some((n, SEPARATOR + more))
    requires more != [] && IsDigit(more[0]) && ParseItems(more).Some?
    ensures ParseItems(s) == Some([n] + ParseItems(more).value)
  {
    SeparatorIsSkipped(more);
    assert (SEPARATOR + more)[0] == COMMA;
  }

  lemma {:induction false} ParsePrintedItems(vs: seq<Byte>)
    requires vs != []
    ensures ParseItems(Items(vs) + [CLOSE]) == Some(Values(vs))
  {
    var n := vs[0] as int;
    if |vs| == 1 {
      assert Items(vs) + [CLOSE] == Print(n) + [CLOSE];
      ParsePrinted(n, [CLOSE]);
      assert Values(vs) == [n];
    } else {
      var more := Items(vs[1..]) + [CLOSE];
      assert Items(vs) + [CLOSE] == Print(n) + (SEPARATOR + more);
      ItemsBeginWithDigit(vs[1..]);
      ParsePrintedItems(vs[1..]);
      ParsePrinted(n, SEPARATOR + more);
      ParseStep(Items(vs) + [CLOSE], n, more);
      assert Values(vs) == [n] + Values(vs[1..]);
    }
  }

  lemma ItemsBeginWithDigit(vs: seq<Byte>)
    requires vs != []
    ensures Items(vs) != [] && IsDigit(Items(vs)[0])
  {
  }

  /** Whatever the readings, the text is an array whose numbers are those readings in order. */
  lemma ParsePrintedArray(vs: seq<Byte>)
    ensures ParseArray(PrintArray(vs)) == Some(Values(vs))
  {
    var u := Items(vs) + [CLOSE];
    assert PrintArray(vs)[1..] == u;
    if vs != [] {
      ItemsBeginWithDigit(vs);
      ParsePrintedItems(vs);
    }
  }

  /** Different readings never print alike. */
  lemma PrintIsInjective(vs: seq<Byte>, ws: seq<Byte>)
    requires PrintArray(vs) == PrintArray(ws)
    ensures vs == ws
  {
    ParsePrintedArray(vs);
    ParsePrintedArray(ws);
    assert Values(vs) == Values(ws);
    forall i | 0 <= i < |vs|
      ensures vs[i] == ws[i]
    {
      assert Values(vs)[i] == vs[i] as int;
    }
  }
}
