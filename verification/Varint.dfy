/** Base-128 varints as the generated protobuf code writes and reads them, including what a 64-bit
    accumulator does with bits shifted out of range. */
module Varint {
  import opened Wrappers

  const TWO_31: int := 0x8000_0000
  const TWO_32: int := 0x1_0000_0000
  const TWO_63: int := 0x8000_0000_0000_0000
  const TWO_64: int := 0x1_0000_0000_0000_0000

  type uint64 = x: int | 0 <= x < TWO_64

  datatype Error =
    | IntOverflow
    | UnexpectedEOF
    | InvalidLength
    | EndGroupForNonGroup
    | IllegalTag
    | WrongWireType
    | IllegalWireType
    | UnexpectedEndOfGroup

  // ---------------------------------------------------------------- machine integers

  /** x << n without a word size: doubled n times. */
  function Shl(x: nat, n: nat): nat {
    if n == 0 then x else 2 * Shl(x, n - 1)
  }

  /** int(x) of a uint64 on a 64-bit machine. */
  function ToInt64(x: uint64): int {
    if x < TWO_63 then x else x - TWO_64
  }

  /** int32(x): the low 32 bits, read as two's complement. */
  function ToInt32(x: nat): int {
    (x + TWO_31) % TWO_32 - TWO_31
  }

  /** Addition of two non-negative ints, which may overflow to a negative one. */
  function AddInt64(x: nat, y: nat): int
    requires x < TWO_63 && y < TWO_63
  {
    if x + y < TWO_63 then x + y else x + y - TWO_64
  }

  /** Bitwise or. */
  function BitOr(a: nat, b: nat): nat {
    if a == 0 then b
    else if b == 0 then a
    else 2 * BitOr(a / 2, b / 2) + (if a % 2 == 1 || b % 2 == 1 then 1 else 0)
  }

  /** x << shift in 64 bits. */
  function ShiftLeft64(x: nat, shift: nat): uint64 {
    var y := Shl(x, shift);
    if y < TWO_64 then y else y % TWO_64
  }

  lemma {:induction false} BitOrBound(a: nat, b: nat, n: nat)
    requires a < Shl(1, n) && b < Shl(1, n)
    ensures BitOr(a, b) < Shl(1, n)
  {
    if a != 0 && b != 0 {
      BitOrBound(a / 2, b / 2, n - 1);
    }
  }

  /** Or-ing a digit in above the bits already present adds it. */
  lemma {:induction false} BitOrDisjoint(a: nat, digit: nat, n: nat)
    requires a < Shl(1, n)
    ensures BitOr(a, Shl(digit, n)) == a + Shl(digit, n)
  {
    if n > 0 {
      BitOrDisjoint(a / 2, digit, n - 1);
      assert BitOr(0, Shl(digit, n - 1)) == Shl(digit, n - 1);
    }
  }

  lemma {:induction false} ShlAdd(x: nat, y: nat, n: nat)
    ensures Shl(x + y, n) == Shl(x, n) + Shl(y, n)
  {
    if n > 0 {
      ShlAdd(x, y, n - 1);
    }
  }

  lemma {:induction false} ShlSeven(x: nat, n: nat)
    ensures Shl(128 * x, n) == Shl(x, n + 7)
  {
    if n > 0 {
      ShlSeven(x, n - 1);
    } else {
      assert Shl(x, 7) == 2 * Shl(x, 6) && Shl(x, 6) == 2 * Shl(x, 5) && Shl(x, 5) == 2 * Shl(x, 4);
      assert Shl(x, 4) == 2 * Shl(x, 3) && Shl(x, 3) == 2 * Shl(x, 2) && Shl(x, 2) == 2 * Shl(x, 1);
      assert Shl(x, 1) == 2 * x;
    }
  }

  lemma ShlByte(x: nat, n: nat)
    ensures Shl(x, n + 8) == 256 * Shl(x, n)
  {
    assert Shl(x, n + 8) == 2 * Shl(x, n + 7) && Shl(x, n + 7) == 2 * Shl(x, n + 6);
    assert Shl(x, n + 6) == 2 * Shl(x, n + 5) && Shl(x, n + 5) == 2 * Shl(x, n + 4);
    assert Shl(x, n + 4) == 2 * Shl(x, n + 3) && Shl(x, n + 3) == 2 * Shl(x, n + 2);
    assert Shl(x, n + 2) == 2 * Shl(x, n + 1) && Shl(x, n + 1) == 2 * Shl(x, n);
  }

  lemma ShlSixtyFour()
    ensures Shl(1, 64) == TWO_64
  {
    ShlByte(1, 0);
    ShlByte(1, 8);
    ShlByte(1, 16);
    ShlByte(1, 24);
    ShlByte(1, 32);
    ShlByte(1, 40);
    ShlByte(1, 48);
    ShlByte(1, 56);
  }

  lemma {:induction false} ShlGrows(x: nat, m: nat, n: nat)
    requires m <= n
    ensures Shl(x, m) <= Shl(x, n)
  {
    if m < n {
      ShlGrows(x, m, n - 1);
    }
  }

  // ---------------------------------------------------------------- writing

  function VarintBytes(v: nat): (bs: bytes)
    ensures |bs| >= 1
  {
    if v < 128 then [v] else [v % 128 + 128] + VarintBytes(v / 128)
  }

  /** math/bits.Len64. */
  function BitLength(x: nat): nat {
    if x == 0 then 0 else 1 + BitLength(x / 2)
  }

  /** The size formula (Len64(x|1) + 6) / 7. */
  function Sov(x: nat): nat {
    (BitLength(if x % 2 == 0 then x + 1 else x) + 6) / 7
  }

  lemma {:induction false} BitLengthBound(x: nat, n: nat)
    requires x < Shl(1, n)
    ensures BitLength(x) <= n
  {
    if x > 0 {
      BitLengthBound(x / 2, n - 1);
    }
  }

  lemma BitLengthSeven(x: nat)
    requires x >= 128
    ensures BitLength(x) == 7 + BitLength(x / 128)
  {
    assert BitLength(x) == 1 + BitLength(x / 2);
    assert BitLength(x / 2) == 1 + BitLength(x / 4);
    assert BitLength(x / 4) == 1 + BitLength(x / 8);
    assert BitLength(x / 8) == 1 + BitLength(x / 16);
    assert BitLength(x / 16) == 1 + BitLength(x / 32);
    assert BitLength(x / 32) == 1 + BitLength(x / 64);
    assert BitLength(x / 64) == 1 + BitLength(x / 128);
  }

  lemma BitLengthOdd(x: nat)
    requires x > 0
    ensures BitLength(if x % 2 == 0 then x + 1 else x) == BitLength(x)
  {
    assert (if x % 2 == 0 then x + 1 else x) / 2 == x / 2;
  }

  /** The precomputed size is exactly the number of bytes the writer produces. */
  lemma {:induction false} SovIsLength(x: nat)
    ensures Sov(x) == |VarintBytes(x)|
  {
    if x == 0 {
      assert BitLength(1) == 1;
    } else {
      BitLengthOdd(x);
      if x < 128 {
        ShlSeven(1, 0);
        BitLengthBound(x, 7);
      } else {
        BitLengthSeven(x);
        BitLengthOdd(x / 128);
        SovIsLength(x / 128);
      }
    }
  }

  lemma Assoc(a: bytes, b: bytes, c: bytes)
    ensures a + (b + c) == a + b + c
  {
  }

  /** Writes the varint of v so that it ends just before `offset`, and returns where it starts. */
  method EncodeVarint(dAtA: array<byte>, offset: nat, v: nat) returns (start: nat)
    requires Sov(v) <= offset <= dAtA.Length
    modifies dAtA
    ensures start == offset - Sov(v)
    ensures dAtA[start..] == VarintBytes(v) + old(dAtA[offset..])
  {
    SovIsLength(v);
    start := offset - Sov(v);
    var at, rest := start, v;
    ghost var done: bytes := [];
    while rest >= 128
      invariant start <= at < offset && at + |VarintBytes(rest)| == offset
      invariant dAtA[start..at] == done && done + VarintBytes(rest) == VarintBytes(v)
      invariant dAtA[offset..] == old(dAtA[offset..])
    {
      dAtA[at] := rest % 128 + 128;
      Assoc(done, [rest % 128 + 128], VarintBytes(rest / 128));
      done := done + [rest % 128 + 128];
      rest := rest / 128;
      at := at + 1;
    }
    dAtA[at] := rest;
    assert dAtA[start..] == done + [rest] + dAtA[offset..];
  }

  // ---------------------------------------------------------------- reading

  datatype Read = Read(value: uint64, next: nat)

  lemma AccumulatorBound(acc: uint64, digit: uint64)
    ensures BitOr(acc, digit) < TWO_64
  {
    ShlSixtyFour();
    BitOrBound(acc, digit, 64);
  }

  /** One pass of the reading loop: at most ten bytes, seven bits each, or-ed into `acc`. */
  function ReadVarint(data: bytes, i: nat, shift: nat, acc: uint64): (r: Result<Read, Error>)
    ensures r.Ok? ==> i < r.value.next <= |data|
    decreases if shift < 64 then 64 - shift else 0
  {
    if shift >= 64 then Err(IntOverflow)
    else if i >= |data| then Err(UnexpectedEOF)
    else
      var digit := ShiftLeft64(data[i] % 128, shift);
      AccumulatorBound(acc, digit);
      var acc' := BitOr(acc, digit);
      if data[i] < 128 then Ok(Read(acc', i + 1)) else ReadVarint(data, i + 1, shift + 7, acc')
  }

  method DecodeVarint(data: bytes, i: nat, acc: uint64) returns (r: Result<Read, Error>)
    ensures r == ReadVarint(data, i, 0, acc)
  {
    var at, shift, value: uint64 := i, 0, acc;
    while true
      invariant at >= i
      invariant ReadVarint(data, i, 0, acc) == ReadVarint(data, at, shift, value)
      decreases if shift < 64 then 64 - shift else 0
    {
      if shift >= 64 {
        return Err(IntOverflow);
      }
      if at >= |data| {
        return Err(UnexpectedEOF);
      }
      var b := data[at];
      AccumulatorBound(value, ShiftLeft64(b % 128, shift));
      value := BitOr(value, ShiftLeft64(b % 128, shift));
      at := at + 1;
      if b < 128 {
        return Ok(Read(value, at));
      }
      shift := shift + 7;
    }
  }

  predicate At(data: bytes, i: nat, piece: bytes) {
    i + |piece| <= |data| && data[i..i + |piece|] == piece
  }

  lemma AtSplit(data: bytes, i: nat, p: bytes, q: bytes)
    requires At(data, i, p + q)
    ensures At(data, i, p) && At(data, i + |p|, q)
  {
    assert data[i..i + |p + q|] == p + q;
    assert data[i..i + |p|] == (p + q)[..|p|];
    assert data[i + |p|..i + |p| + |q|] == (p + q)[|p|..];
  }

  /** Bookkeeping of one reading step: the accumulator plus what is still unread is constant. */
  lemma DigitStep(acc: uint64, v: nat, shift: nat, total: uint64) returns (acc': uint64)
    requires acc < Shl(1, shift) && acc + Shl(v, shift) == total
    ensures acc' == BitOr(acc, ShiftLeft64(v % 128, shift))
    ensures acc' < Shl(1, shift + 7) && acc' + Shl(v / 128, shift + 7) == total
  {
    var q, d := v / 128, v % 128;
    ShlSeven(q, shift);
    ShlAdd(128 * q, d, shift);
    BitOrDisjoint(acc, d, shift);
    acc' := acc + Shl(d, shift);
    ShlSeven(1, shift);
    ShlAdd(d, 127 - d, shift);
    ShlAdd(127, 1, shift);
  }

  lemma {:induction false} ShiftedOut(v: nat, shift: nat)
    requires v > 0 && shift >= 64
    ensures Shl(v, shift) >= TWO_64
  {
    ShlSixtyFour();
    ShlGrows(1, 64, shift);
    ShlAdd(1, v - 1, shift);
  }

  lemma {:induction false} ShlZero(n: nat)
    ensures Shl(0, n) == 0
  {
    if n > 0 {
      ShlZero(n - 1);
    }
  }

  /** What the first byte of a varint tells the reader. */
  lemma FirstByte(data: bytes, i: nat, v: nat)
    requires At(data, i, VarintBytes(v))
    ensures i < |data| && data[i] % 128 == v % 128
    ensures data[i] < 128 <==> v < 128
    ensures v >= 128 ==> At(data, i + 1, VarintBytes(v / 128))
  {
    assert data[i] == data[i..i + |VarintBytes(v)|][0];
    if v >= 128 {
      AtSplit(data, i, [v % 128 + 128], VarintBytes(v / 128));
    }
  }

  /** Reading undoes writing, wherever the bytes stand in the buffer. */
  lemma {:induction false} ReadBackFrom(data: bytes, i: nat, v: nat, shift: nat, acc: uint64, total: uint64)
    requires At(data, i, VarintBytes(v))
    requires acc < Shl(1, shift) && acc + Shl(v, shift) == total
    requires shift == 0 || v > 0
    ensures ReadVarint(data, i, shift, acc) == Ok(Read(total, i + |VarintBytes(v)|))
    decreases v
  {
    assert shift < 64 by {
      if shift >= 64 {
        ShiftedOut(v, shift);
      }
    }
    FirstByte(data, i, v);
    var acc' := DigitStep(acc, v, shift, total);
    if v >= 128 {
      ReadBackFrom(data, i + 1, v / 128, shift + 7, acc', total);
      assert ReadVarint(data, i, shift, acc) == ReadVarint(data, i + 1, shift + 7, acc');
    } else {
      ShlZero(shift + 7);
    }
  }

  lemma ReadBack(data: bytes, i: nat, v: uint64)
    requires At(data, i, VarintBytes(v))
    ensures ReadVarint(data, i, 0, 0) == Ok(Read(v, i + |VarintBytes(v)|))
  {
    ReadBackFrom(data, i, v, 0, 0, v);
  }
}
