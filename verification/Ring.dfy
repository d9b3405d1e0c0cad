/**
  The circular buffer of ADC readings.
*/
module Ring {
  import opened Bytes

  datatype Buffer = Buffer(cells: seq<Byte>, pos: nat) {
    ghost predicate Valid() {
      pos < |cells| <= 255
    }
  }

  function Empty(size: nat): Buffer {
    Buffer(Zeros(size), 0)
  }

  /** Overwrites the cell at the position and moves on, back to 0 at the end. */
  function Add(b: Buffer, v: Byte): (b': Buffer)
    requires b.Valid()
    ensures b'.Valid()
  {
    Buffer(b.cells[b.pos := v], if b.pos + 1 >= |b.cells| then 0 else b.pos + 1)
  }

  function AddAll(b: Buffer, vs: seq<Byte>): (b': Buffer)
    requires b.Valid()
    ensures b'.Valid() && |b'.cells| == |b.cells|
  {
    if vs == [] then b else Add(AddAll(b, vs[..|vs| - 1]), vs[|vs| - 1])
  }

  /** The cells from the oldest to the newest. */
  function Chronological(b: Buffer): Str
    requires b.Valid()
  {
    b.cells[b.pos..] + b.cells[..b.pos]
  }

  function Last(n: nat, s: Str): Str
    requires n <= |s|
  {
    s[|s| - n..]
  }

  lemma AddShifts(b: Buffer, v: Byte)
    requires b.Valid()
    ensures Chronological(Add(b, v)) == Chronological(b)[1..] + [v]
  {
  }

  /** Read in time order, the buffer is the last `size` entries of as many zeros followed by all samples. */
  lemma {:induction false} HoldsTheLastSamples(size: nat, vs: seq<Byte>)
    requires 0 < size <= 255
    ensures Chronological(AddAll(Empty(size), vs)) == Last(size, Zeros(size) + vs)
  {
    if vs == [] {
    } else {
      var n := |vs| - 1;
      HoldsTheLastSamples(size, vs[..n]);
      AddShifts(AddAll(Empty(size), vs[..n]), vs[n]);
      assert vs == vs[..n] + [vs[n]];
    }
  }

  lemma ModSuccessor(n: nat, size: nat)
    requires 0 < size
    ensures (n + 1) % size == if n % size + 1 == size then 0 else n % size + 1
  {
    var q, r := n / size, n % size;
    assert n == q * size + r;
    if r + 1 == size {
      assert n + 1 == (q + 1) * size;
      ModUnique(n + 1, q + 1, 0, size);
    } else {
      ModUnique(n + 1, q, r + 1, size);
    }
  }

  lemma ModUnique(n: nat, q: nat, r: nat, size: nat)
    requires r < size && n == q * size + r
    ensures n % size == r
  {
    var q', r' := n / size, n % size;
    assert n == q' * size + r' && 0 <= r' < size;
    var k := q - q';
    assert k * size == q * size - q' * size;
    assert (-k) * size == -(k * size);
    if k >= 1 {
      AtLeastOnce(k, size);
    } else if k <= -1 {
      AtLeastOnce(-k, size);
    }
  }

  lemma AtLeastOnce(k: int, size: nat)
    requires k >= 1
    ensures k * size >= size
  {
  }

  lemma PositionStep(b: Buffer, v: Byte, n: nat)
    requires b.Valid() && b.pos == n % |b.cells|
    ensures Add(b, v).pos == (n + 1) % |b.cells|
  {
    ModSuccessor(n, |b.cells|);
  }

  lemma {:induction false} PositionIsCount(size: nat, vs: seq<Byte>)
    requires 0 < size <= 255
    ensures AddAll(Empty(size), vs).pos == |vs| % size
  {
    if vs != [] {
      var n := |vs| - 1;
      PositionIsCount(size, vs[..n]);
      PositionStep(AddAll(Empty(size), vs[..n]), vs[n], n);
    }
  }

  lemma ModShift(n: nat, i: nat, size: nat)
    requires 0 < size && i < n <= i + size
    ensures i % size == if n % size >= n - i then n % size - (n - i) else n % size - (n - i) + size
  {
    var q, r := n / size, n % size;
    assert n == q * size + r;
    if r >= n - i {
      ModUnique(i, q, r - (n - i), size);
    } else {
      assert i == (q - 1) * size + (r - (n - i) + size);
      assert q > 0;
      ModUnique(i, q - 1, r - (n - i) + size, size);
    }
  }

  lemma TimeOrder(b: Buffer, k: nat)
    requires b.Valid() && k < |b.cells|
    ensures Chronological(b)[k] == b.cells[if b.pos + k < |b.cells| then b.pos + k else b.pos + k - |b.cells|]
  {
  }

  /** The cell `age` steps behind the position holds the `age`-th newest sample. */
  lemma CellByAge(b: Buffer, vs: seq<Byte>, age: nat)
    requires b.Valid() && Chronological(b) == Last(|b.cells|, Zeros(|b.cells|) + vs)
    requires 0 < age <= |vs| && age <= |b.cells|
    ensures b.cells[if b.pos >= age then b.pos - age else b.pos - age + |b.cells|] == vs[|vs| - age]
  {
    TimeOrder(b, |b.cells| - age);
    assert Chronological(b)[|b.cells| - age] == (Zeros(|b.cells|) + vs)[|vs| + |b.cells| - age];
  }

  lemma CellOfSample(size: nat, vs: seq<Byte>, i: nat)
    requires 0 < size <= 255 && i < |vs| <= i + size
    ensures i % size < size && AddAll(Empty(size), vs).cells[i % size] == vs[i]
  {
    var b := AddAll(Empty(size), vs);
    HoldsTheLastSamples(size, vs);
    CellByAge(b, vs, |vs| - i);
    PositionIsCount(size, vs);
    ModShift(|vs|, i, size);
  }

  lemma CellNotReached(size: nat, vs: seq<Byte>, j: nat)
    requires 0 < size <= 255 && |vs| <= j < size
    ensures AddAll(Empty(size), vs).cells[j] == 0
  {
    HoldsTheLastSamples(size, vs);
    PositionIsCount(size, vs);
    ModUnique(|vs|, 0, |vs|, size);
    TimeOrder(AddAll(Empty(size), vs), j - |vs|);
  }

  /** After `n` samples, sample `i` of the last `size` sits in cell `i mod size`, and cells never reached hold 0. */
  lemma CellsByIndex(size: nat, vs: seq<Byte>)
    requires 0 < size <= 255
    ensures var b := AddAll(Empty(size), vs);
            && |b.cells| == size && b.pos == |vs| % size
            && (forall i: nat :: i < |vs| <= i + size ==> i % size < size && b.cells[i % size] == vs[i])
            && (forall j: nat :: |vs| <= j < size ==> b.cells[j] == 0)
  {
    PositionIsCount(size, vs);
    forall i: nat | i < |vs| <= i + size
      ensures i % size < size && AddAll(Empty(size), vs).cells[i % size] == vs[i]
    {
      CellOfSample(size, vs, i);
    }
    forall j: nat | |vs| <= j < size
      ensures AddAll(Empty(size), vs).cells[j] == 0
    {
      CellNotReached(size, vs, j);
    }
  }
}
