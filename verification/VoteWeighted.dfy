/** The stake-weighted median of pkg/math/voteweighted: an in-place sort with a comparator that
    also answers "less" on ties, a floored half weight, and a prefix-sum scan. */
module VoteWeighted {
  import opened Wrappers
  import opened Permutations

  datatype PricePerValidator = PricePerValidator(voteWeight: nat, price: int)

  // ---------------------------------------------------------------- listings

  /** The total weight of the listed prices at or below p. */
  function WeightUpTo(s: seq<PricePerValidator>, p: int): nat {
    if s == [] then 0
    else (if s[0].price <= p then s[0].voteWeight else 0) + WeightUpTo(s[1..], p)
  }

  function TotalWeight(s: seq<PricePerValidator>): nat {
    if s == [] then 0 else s[0].voteWeight + TotalWeight(s[1..])
  }

  ghost predicate Listed(s: seq<PricePerValidator>, p: int) {
    exists i :: 0 <= i < |s| && s[i].price == p
  }

  ghost predicate Sorted(s: seq<PricePerValidator>) {
    forall i, j :: 0 <= i < j < |s| ==> s[i].price <= s[j].price
  }

  /** r is the least listed price whose weight at or below it reaches `middle`; when no listed
      price reaches it, r is the greatest listed price. */
  ghost predicate IsMedian(s: seq<PricePerValidator>, middle: int, r: int) {
    && Listed(s, r)
    && (forall i :: 0 <= i < |s| && s[i].price < r ==> WeightUpTo(s, s[i].price) < middle)
    && (WeightUpTo(s, r) >= middle || forall i :: 0 <= i < |s| ==> s[i].price <= r)
  }

  lemma {:induction false} WeightUpToConcat(s: seq<PricePerValidator>, t: seq<PricePerValidator>, p: int)
    ensures WeightUpTo(s + t, p) == WeightUpTo(s, p) + WeightUpTo(t, p)
  {
    if s == [] {
      assert s + t == t;
    } else {
      assert (s + t)[1..] == s[1..] + t;
      WeightUpToConcat(s[1..], t, p);
    }
  }

  lemma {:induction false} TotalWeightSnoc(s: seq<PricePerValidator>, x: PricePerValidator)
    ensures TotalWeight(s + [x]) == TotalWeight(s) + x.voteWeight
  {
    if s != [] {
      assert (s + [x])[1..] == s[1..] + [x];
      TotalWeightSnoc(s[1..], x);
    }
  }

  /** The cumulative weight of a listing does not depend on the order of its entries. */
  lemma {:induction false} WeightUpToPermutation(s: seq<PricePerValidator>, t: seq<PricePerValidator>, p: int)
    requires multiset(s) == multiset(t)
    ensures WeightUpTo(s, p) == WeightUpTo(t, p)
  {
    if s == [] {
      assert |multiset(t)| == 0;
    } else {
      var k := RemoveFirst(s, t);
      assert t == t[..k] + [t[k]] + t[k + 1..];
      WeightUpToPermutation(s[1..], t[..k] + t[k + 1..], p);
      WeightUpToConcat(t[..k] + [t[k]], t[k + 1..], p);
      WeightUpToConcat(t[..k], [t[k]], p);
      WeightUpToConcat(t[..k], t[k + 1..], p);
      assert WeightUpTo([t[k]], p) == (if t[k].price <= p then t[k].voteWeight else 0);
    }
  }

  lemma ListedPermutation(s: seq<PricePerValidator>, t: seq<PricePerValidator>, i: nat)
    requires multiset(s) == multiset(t) && i < |s|
    ensures Listed(t, s[i].price)
  {
    assert s[i] in multiset(t);
    var k :| 0 <= k < |t| && t[k] == s[i];
  }

  lemma MedianPermutation(s: seq<PricePerValidator>, t: seq<PricePerValidator>, middle: int, r: int)
    requires multiset(s) == multiset(t) && IsMedian(s, middle, r)
    ensures IsMedian(t, middle, r)
  {
    var k :| 0 <= k < |s| && s[k].price == r;
    ListedPermutation(s, t, k);
    WeightUpToPermutation(s, t, r);
    forall i | 0 <= i < |t|
      ensures t[i].price < r ==> WeightUpTo(t, t[i].price) < middle
      ensures Listed(s, t[i].price)
    {
      ListedPermutation(t, s, i);
      WeightUpToPermutation(s, t, t[i].price);
    }
  }

  /** Whatever sorted or unsorted arrangement of the same entries a node starts from, there is only
      one median: ties and the non-strict comparator cannot make two nodes disagree. */
  lemma MedianUnique(s: seq<PricePerValidator>, t: seq<PricePerValidator>, middle: int, r: int, r': int)
    requires multiset(s) == multiset(t)
    requires IsMedian(s, middle, r) && IsMedian(t, middle, r')
    ensures r == r'
  {
    MedianPermutation(t, s, middle, r');
    var i :| 0 <= i < |s| && s[i].price == r;
    var j :| 0 <= j < |s| && s[j].price == r';
  }

  // ---------------------------------------------------------------- the sort

  /** The comparator of the sort: it answers true on equal prices. */
  predicate LessOrEqual(x: PricePerValidator, y: PricePerValidator) {
    x.price <= y.price
  }

  /** Moves a[i] left while it compares "less" than its left neighbour; on ties it keeps moving. */
  method InsertLeft(a: array<PricePerValidator>, i: nat)
    requires i < a.Length && forall p, q :: 0 <= p < q < i ==> a[p].price <= a[q].price
    modifies a
    ensures forall p, q :: 0 <= p < q <= i ==> a[p].price <= a[q].price
    ensures multiset(a[..]) == multiset(old(a[..]))
  {
    var j := i;
    while j > 0 && LessOrEqual(a[j], a[j - 1])
      invariant j <= i
      invariant multiset(a[..]) == multiset(old(a[..]))
      invariant forall p, q :: 0 <= p < q <= i && q != j ==> a[p].price <= a[q].price
    {
      Swap(a, j);
      j := j - 1;
    }
  }

  method SortByPrice(a: array<PricePerValidator>)
    modifies a
    ensures Sorted(a[..])
    ensures multiset(a[..]) == multiset(old(a[..]))
  {
    var i := 0;
    while i < a.Length
      invariant i <= a.Length
      invariant forall p, q :: 0 <= p < q < i ==> a[p].price <= a[q].price
      invariant multiset(a[..]) == multiset(old(a[..]))
    {
      InsertLeft(a, i);
      i := i + 1;
    }
  }

  // ---------------------------------------------------------------- ComputeMedian

  /** math.Int.QuoRaw(2): division truncates toward zero. */
  function Half(total: int): int {
    if total >= 0 then total / 2 else -((-total) / 2)
  }

  /** In a sorted listing, nothing at or beyond index k counts toward a price below s[k]. */
  lemma {:induction false} PrefixBounds(s: seq<PricePerValidator>, k: nat, p: int)
    requires k <= |s|
    ensures (forall i :: k <= i < |s| ==> s[i].price > p) ==> WeightUpTo(s, p) <= TotalWeight(s[..k])
    ensures (forall i :: 0 <= i < k ==> s[i].price <= p) ==> TotalWeight(s[..k]) <= WeightUpTo(s, p)
  {
    if s != [] {
      if k == 0 {
        PrefixBounds(s[1..], 0, p);
      } else {
        assert s[..k][1..] == s[1..][..k - 1];
        PrefixBounds(s[1..], k - 1, p);
      }
    }
  }

  /** The scan stops at the first index whose prefix sum reaches the middle, or at the last one. */
  lemma ScanFindsMedian(s: seq<PricePerValidator>, k: nat, middle: int)
    requires Sorted(s) && k < |s|
    requires k > 0 ==> TotalWeight(s[..k]) < middle
    requires TotalWeight(s[..k + 1]) >= middle || k + 1 == |s|
    ensures IsMedian(s, middle, s[k].price)
  {
    var r := s[k].price;
    PrefixBounds(s, k + 1, r);
    forall i | 0 <= i < |s| && s[i].price < r
      ensures WeightUpTo(s, s[i].price) < middle
    {
      PrefixBounds(s, k, s[i].price);
    }
  }

  method ComputeMedian(prices: array<PricePerValidator>, totalWeight: int) returns (median: Option<int>)
    modifies prices
    ensures multiset(prices[..]) == multiset(old(prices[..])) && Sorted(prices[..])
    ensures median.None? <==> prices.Length == 0
    ensures median.Some? ==> IsMedian(old(prices[..]), Half(totalWeight), median.value)
  {
    ghost var listing := prices[..];
    SortByPrice(prices);
    ghost var s := prices[..];
    var middle := Half(totalWeight);
    var sum := 0;
    for index := 0 to prices.Length
      invariant prices[..] == s
      invariant sum == TotalWeight(s[..index])
      invariant index > 0 ==> sum < middle && index < prices.Length
    {
      assert s[..index + 1] == s[..index] + [s[index]];
      TotalWeightSnoc(s[..index], s[index]);
      sum := sum + prices[index].voteWeight;
      if sum >= middle || index == prices.Length - 1 {
        ScanFindsMedian(s, index, middle);
        MedianPermutation(s, listing, middle, s[index].price);
        return Some(prices[index].price);
      }
    }
    return None;
  }
}
