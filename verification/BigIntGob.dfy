/** big.Int's gob encoding: one byte holding the version and the sign, then the magnitude in
    big-endian bytes without leading zeros. */
module BigIntGob {
  import opened Wrappers

  datatype GobError = UnsupportedVersion

  /** 2^256: the bound of what MaximumPriceSize leaves room for. */
  const TWO_256: int := 0x1_0000000000000000_0000000000000000_0000000000000000_0000000000000000

  function Magnitude(n: nat): bytes {
    if n == 0 then [] else Magnitude(n / 256) + [n % 256]
  }

  function FromMagnitude(bs: bytes): nat {
    if bs == [] then 0 else 256 * FromMagnitude(bs[..|bs| - 1]) + bs[|bs| - 1]
  }

  function GobEncode(x: int): (bs: bytes)
    ensures |bs| >= 1
  {
    [if x < 0 then 3 else 2] + Magnitude(if x < 0 then -x else x)
  }

  function GobDecode(bs: bytes): Result<int, GobError> {
    if bs == [] then Ok(0)
    else if bs[0] / 2 != 1 then Err(UnsupportedVersion)
    else
      var magnitude: int := FromMagnitude(bs[1..]);
      Ok(if bs[0] % 2 == 1 then -magnitude else magnitude)
  }

  lemma {:induction false} MagnitudeRoundTrip(n: nat)
    ensures FromMagnitude(Magnitude(n)) == n
  {
    if n > 0 {
      MagnitudeRoundTrip(n / 256);
      var bs := Magnitude(n);
      assert bs[..|bs| - 1] == Magnitude(n / 256);
    }
  }

  lemma GobRoundTrip(x: int)
    ensures GobDecode(GobEncode(x)) == Ok(x)
  {
    MagnitudeRoundTrip(if x < 0 then -x else x);
    assert GobEncode(x)[1..] == Magnitude(if x < 0 then -x else x);
  }

  lemma {:induction false} MagnitudeForm(n: nat)
    ensures n > 0 ==> Magnitude(n) != [] && Magnitude(n)[0] != 0
  {
    if n >= 256 {
      MagnitudeForm(n / 256);
    }
  }

  /** The form of the bytes: 2 or 3 for the sign, then the magnitude without leading zeros, highest byte
      first. */
  lemma GobForm(x: int)
    ensures GobEncode(x)[0] == if x < 0 then 3 else 2
    ensures |GobEncode(x)| == 1 <==> x == 0
    ensures x != 0 ==> GobEncode(x)[1] != 0
    ensures GobEncode(0x010203) == [2, 1, 2, 3] && GobEncode(-0x0100) == [3, 1, 0]
  {
    MagnitudeForm(if x < 0 then -x else x);
    assert Magnitude(1) == [1] && Magnitude(0x0102) == [1, 2] && Magnitude(0x010203) == [1, 2, 3];
    assert Magnitude(0x0100) == [1, 0];
  }

  function Pow256(k: nat): (p: nat)
    ensures p >= 1
  {
    if k == 0 then 1 else 256 * Pow256(k - 1)
  }

  /** A magnitude fits in k bytes exactly when it is below 256^k. */
  lemma {:induction false} MagnitudeLength(n: nat, k: nat)
    ensures |Magnitude(n)| <= k <==> n < Pow256(k)
  {
    if n > 0 && k > 0 {
      MagnitudeLength(n / 256, k - 1);
    }
  }

  lemma Pow256Values()
    ensures Pow256(32) == TWO_256
  {
    assert Pow256(8) == 0x1_0000000000000000 by {
      assert Pow256(4) == 0x1_00000000;
    }
    assert Pow256(16) == 0x1_0000000000000000_0000000000000000 by {
      assert Pow256(12) == 0x1_00000000_0000000000000000;
    }
    assert Pow256(24) == 0x1_0000000000000000_0000000000000000_0000000000000000 by {
      assert Pow256(20) == 0x1_00000000_0000000000000000_0000000000000000;
    }
    assert Pow256(28) == 0x1_00000000_0000000000000000_0000000000000000_0000000000000000;
  }

  /** An encoded price is short enough exactly when its magnitude is below 2^256. */
  lemma GobLength(x: int)
    ensures |GobEncode(x)| <= 33 <==> -TWO_256 < x < TWO_256
  {
    Pow256Values();
    MagnitudeLength(if x < 0 then -x else x, 32);
  }
}
