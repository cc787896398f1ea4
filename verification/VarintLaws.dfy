/** Every outcome of reading a varint, in terms of the bytes: the digits' value modulo 2^64, overflow after ten
    bytes that all continue, and the end of the buffer before a last byte. */
module VarintLaws {
  import opened Wrappers
  import opened Varint

  /** The first n bytes from i on are one varint: all but the last continue. */
  ghost predicate IsVarint(data: bytes, i: nat, n: nat) {
    && n >= 1 && i + n <= |data|
    && (forall k :: i <= k < i + n - 1 ==> data[k] >= 128) && data[i + n - 1] < 128
  }

  /** The value of n base-128 digits, lowest first. */
  ghost function Digits(data: bytes, i: nat, n: nat): nat
    requires i + n <= |data|
    decreases n
  {
    if n == 0 then 0 else data[i] % 128 + 128 * Digits(data, i + 1, n - 1)
  }

  ghost predicate AllContinue(data: bytes, i: nat, n: nat) {
    i + n <= |data| && forall k :: i <= k < i + n ==> data[k] >= 128
  }

  /** A digit below bit 63 is or-ed in above the accumulator, which adds it. */
  lemma LowDigit(acc: uint64, d: nat, shift: nat)
    requires acc < Shl(1, shift) && d < 128 && shift <= 56
    ensures ShiftLeft64(d, shift) == Shl(d, shift)
    ensures BitOr(acc, ShiftLeft64(d, shift)) == acc + Shl(d, shift) < Shl(1, shift + 7)
    ensures Shl(1, shift + 7) <= TWO_63
  {
    BitOrDisjoint(acc, d, shift);
    ShlSeven(1, shift);
    ShlAdd(d, 127 - d, shift);
    ShlAdd(127, 1, shift);
    ShlSixtyFour();
    ShlGrows(1, shift + 7, 63);
    assert Shl(1, 64) == 2 * Shl(1, 63);
  }

  lemma {:induction false} ShlMultiplies(x: nat, n: nat)
    ensures Shl(x, n) == x * Shl(1, n)
  {
    if n > 0 {
      ShlMultiplies(x, n - 1);
    }
  }

  lemma ModuloTwo64(x: nat, q: nat)
    requires x < TWO_64
    ensures (x + q * TWO_64) % TWO_64 == x
  {
  }

  /** Of the tenth digit only the lowest bit fits. */
  lemma TenthDigit(acc: uint64, d: nat)
    requires acc < Shl(1, 63) && d < 128
    ensures BitOr(acc, ShiftLeft64(d, 63)) == (acc + Shl(d, 63)) % TWO_64
  {
    ShlSixtyFour();
    assert Shl(1, 64) == 2 * Shl(1, 63) && Shl(1, 63) == TWO_63;
    ShlMultiplies(d, 63);
    ShlMultiplies(d % 2, 63);
    BitOrDisjoint(acc, d % 2, 63);
    hide Shl, BitOr;
    var low, q := (d % 2) * TWO_63, d / 2;
    assert d * TWO_63 == low + q * TWO_64;
    ModuloTwo64(low, q);
    ModuloTwo64(acc + low, q);
  }

  lemma {:induction false} ReadsDigits(data: bytes, i: nat, n: nat, shift: nat, acc: uint64)
    requires IsVarint(data, i, n) && shift % 7 == 0 && shift + 7 * n <= 70 && acc < Shl(1, shift)
    ensures ReadVarint(data, i, shift, acc) == Ok(Read((acc + Shl(Digits(data, i, n), shift)) % TWO_64, i + n))
    decreases n
  {
    hide Shl, BitOr, ShiftLeft64;
    var d := data[i] % 128;
    AccumulatorBound(acc, ShiftLeft64(d, shift));
    if n == 1 {
      OneDigit(data, i);
      LastDigit(acc, d, shift);
    } else {
      LowDigit(acc, d, shift);
      var acc', rest := acc + Shl(d, shift), Digits(data, i + 1, n - 1);
      ReadsDigits(data, i + 1, n - 1, shift + 7, acc');
      ShlSeven(rest, shift);
      ShlAdd(d, 128 * rest, shift);
      assert ReadVarint(data, i, shift, acc) == ReadVarint(data, i + 1, shift + 7, acc');
    }
  }

  lemma OneDigit(data: bytes, i: nat)
    requires i < |data|
    ensures Digits(data, i, 1) == data[i] % 128
  {
    assert Digits(data, i + 1, 0) == 0;
  }

  lemma LastDigit(acc: uint64, d: nat, shift: nat)
    requires acc < Shl(1, shift) && d < 128 && shift % 7 == 0 && shift <= 63
    ensures BitOr(acc, ShiftLeft64(d, shift)) == (acc + Shl(d, shift)) % TWO_64
  {
    hide Shl, BitOr, ShiftLeft64;
    if shift == 63 {
      TenthDigit(acc, d);
    } else {
      LowDigit(acc, d, shift);
    }
  }

  lemma {:induction false} ReadsTooFar(data: bytes, i: nat, shift: nat, acc: uint64)
    requires shift % 7 == 0 && shift <= 70 && AllContinue(data, i, (70 - shift) / 7)
    ensures ReadVarint(data, i, shift, acc) == Err(IntOverflow)
    decreases 70 - shift
  {
    if shift < 64 {
      var acc' := BitOr(acc, ShiftLeft64(data[i] % 128, shift));
      AccumulatorBound(acc, ShiftLeft64(data[i] % 128, shift));
      ReadsTooFar(data, i + 1, shift + 7, acc');
    }
  }

  lemma {:induction false} ReadsToTheEnd(data: bytes, i: nat, n: nat, shift: nat, acc: uint64)
    requires i + n == |data| && AllContinue(data, i, n) && shift % 7 == 0 && shift + 7 * n < 70
    ensures ReadVarint(data, i, shift, acc) == Err(UnexpectedEOF)
    decreases n
  {
    if n > 0 {
      var acc' := BitOr(acc, ShiftLeft64(data[i] % 128, shift));
      AccumulatorBound(acc, ShiftLeft64(data[i] % 128, shift));
      ReadsToTheEnd(data, i + 1, n - 1, shift + 7, acc');
    }
  }

  /** The three outcomes. They cover every buffer and index: VarintOutcomes says one of them always applies. */
  lemma ReadVarintExactly(data: bytes, i: nat, n: nat)
    ensures IsVarint(data, i, n) && n <= 10 ==>
            ReadVarint(data, i, 0, 0) == Ok(Read(Digits(data, i, n) % TWO_64, i + n))
    ensures AllContinue(data, i, 10) ==> ReadVarint(data, i, 0, 0) == Err(IntOverflow)
    ensures i + n == |data| && n < 10 && AllContinue(data, i, n) ==> ReadVarint(data, i, 0, 0) == Err(UnexpectedEOF)
  {
    if IsVarint(data, i, n) && n <= 10 {
      ReadsDigits(data, i, n, 0, 0);
    }
    if AllContinue(data, i, 10) {
      ReadsTooFar(data, i, 0, 0);
    }
    if i + n == |data| && n < 10 && AllContinue(data, i, n) {
      ReadsToTheEnd(data, i, n, 0, 0);
    }
  }

  lemma {:induction false} VarintOutcomes(data: bytes, i: nat, m: nat)
    requires i <= |data| && m <= 10 && AllContinue(data, i, m)
    ensures (exists n :: 1 <= n <= 10 && IsVarint(data, i, n)) || AllContinue(data, i, 10)
         || (|data| - i < 10 && AllContinue(data, i, |data| - i))
    decreases 10 - m
  {
    if m < 10 && i + m < |data| {
      if data[i + m] >= 128 {
        VarintOutcomes(data, i, m + 1);
      } else {
        assert IsVarint(data, i, m + 1);
      }
    }
  }
}
