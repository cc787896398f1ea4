/** The median of exact reals: middle value, or the average of the two middle values. It depends on
    the multiset of values only. */
module RealMedian {
  import opened Permutations

  ghost predicate Sorted(s: seq<real>) {
    forall i, j :: 0 <= i < j < |s| ==> s[i] <= s[j]
  }

  ghost predicate IsSortOf(t: seq<real>, s: seq<real>) {
    Sorted(t) && multiset(t) == multiset(s)
  }

  function Insert(x: real, s: seq<real>): seq<real> {
    if s == [] || x <= s[0] then [x] + s else [s[0]] + Insert(x, s[1..])
  }

  function Sort(s: seq<real>): seq<real> {
    if s == [] then [] else Insert(s[0], Sort(s[1..]))
  }

  lemma ConsMultiset(x: real, s: seq<real>)
    ensures multiset([x] + s) == multiset{x} + multiset(s)
  {
  }

  lemma {:induction false} InsertPermutes(x: real, s: seq<real>)
    ensures multiset(Insert(x, s)) == multiset{x} + multiset(s)
  {
    if s == [] || x <= s[0] {
      ConsMultiset(x, s);
    } else {
      InsertPermutes(x, s[1..]);
      ConsMultiset(s[0], Insert(x, s[1..]));
      ConsMultiset(s[0], s[1..]);
      assert s == [s[0]] + s[1..];
    }
  }

  lemma {:induction false} InsertSorts(x: real, s: seq<real>)
    requires Sorted(s)
    ensures Sorted(Insert(x, s)) && |Insert(x, s)| == |s| + 1
    ensures Insert(x, s)[0] == if s == [] || x <= s[0] then x else s[0]
  {
    if s != [] && x > s[0] {
      InsertSorts(x, s[1..]);
      ConsSorted(s[0], Insert(x, s[1..]));
    } else {
      ConsSorted(x, s);
    }
  }

  lemma ConsSorted(x: real, s: seq<real>)
    requires Sorted(s) && (s != [] ==> x <= s[0])
    ensures Sorted([x] + s)
  {
    forall i | 0 <= i < |s|
      ensures x <= s[i]
    {
      assert s[0] <= s[i];
    }
  }

  lemma {:induction false} SortSorts(s: seq<real>)
    ensures IsSortOf(Sort(s), s) && |Sort(s)| == |s|
  {
    if s != [] {
      SortSorts(s[1..]);
      InsertSorts(s[0], Sort(s[1..]));
      InsertPermutes(s[0], Sort(s[1..]));
      ConsMultiset(s[0], s[1..]);
      assert s == [s[0]] + s[1..];
    }
  }

  /** There is only one sorted arrangement. */
  lemma {:induction false} SortedUnique(s: seq<real>, t: seq<real>)
    requires Sorted(s) && Sorted(t) && multiset(s) == multiset(t)
    ensures s == t
  {
    if s == [] {
      assert |multiset(t)| == 0;
    } else {
      SameHead(s, t);
      DropFirst(s);
      DropFirst(t);
      SortedUnique(s[1..], t[1..]);
      assert s == [s[0]] + s[1..] && t == [t[0]] + t[1..];
    }
  }

  lemma SameHead(s: seq<real>, t: seq<real>)
    requires Sorted(s) && Sorted(t) && multiset(s) == multiset(t) && s != []
    ensures t != [] && s[0] == t[0]
  {
    Occurs(s, t, s[0]);
    Occurs(t, s, t[0]);
    var k :| 0 <= k < |t| && t[k] == s[0];
    var j :| 0 <= j < |s| && s[j] == t[0];
    assert t[0] <= t[k] && s[0] <= s[j];
  }

  function MiddleOf(t: seq<real>): real
    requires t != []
  {
    var m := |t| / 2;
    if |t| % 2 == 0 then (t[m - 1] + t[m]) / 2.0 else t[m]
  }

  function MedianOf(s: seq<real>): real
    requires s != []
  {
    var t := Sort(s);
    SortSorts(s);
    MiddleOf(t)
  }

  lemma AnySortGivesMedian(t: seq<real>, s: seq<real>)
    requires IsSortOf(t, s) && s != []
    ensures t != [] && MiddleOf(t) == MedianOf(s)
  {
    SortSorts(s);
    SortedUnique(t, Sort(s));
  }

  lemma MedianPermutation(s: seq<real>, t: seq<real>)
    requires multiset(s) == multiset(t) && s != []
    ensures t != [] && MedianOf(s) == MedianOf(t)
  {
    SortSorts(t);
    assert |multiset(s)| == |multiset(t)|;
    AnySortGivesMedian(Sort(t), s);
  }

  lemma MedianOfOne(x: real)
    ensures MedianOf([x]) == x
  {
    AnySortGivesMedian([x], [x]);
  }

  lemma MedianOfTwo(x: real, y: real)
    ensures MedianOf([x, y]) == (x + y) / 2.0
  {
    if x <= y {
      AnySortGivesMedian([x, y], [x, y]);
    } else {
      assert multiset([y, x]) == multiset([x, y]);
      AnySortGivesMedian([y, x], [x, y]);
    }
  }

  function Negated(s: seq<real>): (t: seq<real>)
    ensures |t| == |s|
  {
    seq(|s|, i requires 0 <= i < |s| => -s[i])
  }

  function Backwards(s: seq<real>): (t: seq<real>)
    ensures |t| == |s|
  {
    seq(|s|, i requires 0 <= i < |s| => s[|s| - 1 - i])
  }

  lemma {:induction false} BackwardsPermutes(s: seq<real>)
    ensures multiset(Backwards(s)) == multiset(s)
  {
    if s != [] {
      BackwardsPermutes(s[1..]);
      assert Backwards(s) == Backwards(s[1..]) + [s[0]];
      assert s == [s[0]] + s[1..];
    } else {
      assert Backwards(s) == s;
    }
  }

  lemma {:induction false} NegatedPermutes(s: seq<real>, t: seq<real>)
    requires multiset(s) == multiset(t)
    ensures multiset(Negated(s)) == multiset(Negated(t))
  {
    if s == [] {
      assert |multiset(t)| == 0;
      assert Negated(s) == Negated(t);
    } else {
      var k := RemoveFirst(s, t);
      NegatedPermutes(s[1..], t[..k] + t[k + 1..]);
      assert Negated(s) == [-s[0]] + Negated(s[1..]);
      DropOne(Negated(t), k);
      assert Negated(t[..k] + t[k + 1..]) == Negated(t)[..k] + Negated(t)[k + 1..];
    }
  }

  lemma TurnedSorted(t: seq<real>)
    requires Sorted(t)
    ensures Sorted(Backwards(Negated(t)))
  {
  }

  lemma TurnedMiddle(t: seq<real>)
    requires t != []
    ensures MiddleOf(Backwards(Negated(t))) == -MiddleOf(t)
  {
    var m := |t| / 2;
    var u := Backwards(Negated(t));
    if |t| % 2 == 0 {
      assert u[m - 1] == -t[m] && u[m] == -t[m - 1];
    } else {
      assert u[m] == -t[m];
    }
  }

  /** The median does not prefer one side: negating the values negates it. For an even count this leaves no
      other mean of the two middle values than the average. */
  lemma MedianIsSymmetric(s: seq<real>)
    requires s != []
    ensures MedianOf(Negated(s)) == -MedianOf(s)
  {
    hide Sort, Sorted, MiddleOf, Negated, Backwards;
    SortSorts(s);
    var t := Sort(s);
    BackwardsPermutes(Negated(t));
    NegatedPermutes(t, s);
    TurnedSorted(t);
    TurnedMiddle(t);
    AnySortGivesMedian(Backwards(Negated(t)), Negated(s));
  }

  // ---------------------------------------------------------------- majorities

  function CountIn(s: seq<real>, lo: real, hi: real): nat {
    if s == [] then 0 else (if lo <= s[0] <= hi then 1 else 0) + CountIn(s[1..], lo, hi)
  }

  lemma {:induction false} CountConcat(s: seq<real>, t: seq<real>, lo: real, hi: real)
    ensures CountIn(s + t, lo, hi) == CountIn(s, lo, hi) + CountIn(t, lo, hi)
    ensures CountIn(s, lo, hi) <= |s|
  {
    if s == [] {
      assert s + t == t;
    } else {
      assert (s + t)[1..] == s[1..] + t;
      CountConcat(s[1..], t, lo, hi);
    }
  }

  lemma {:induction false} CountPermutation(s: seq<real>, t: seq<real>, lo: real, hi: real)
    requires multiset(s) == multiset(t)
    ensures CountIn(s, lo, hi) == CountIn(t, lo, hi)
  {
    if s == [] {
      assert |multiset(t)| == 0;
    } else {
      var k := RemoveFirst(s, t);
      CountPermutation(s[1..], t[..k] + t[k + 1..], lo, hi);
      assert t == t[..k] + ([t[k]] + t[k + 1..]) && ([t[k]] + t[k + 1..])[1..] == t[k + 1..];
      CountConcat(t[..k], [t[k]] + t[k + 1..], lo, hi);
      CountConcat(t[..k], t[k + 1..], lo, hi);
    }
  }

  lemma {:induction false} CountNone(s: seq<real>, lo: real, hi: real)
    requires forall i :: 0 <= i < |s| ==> !(lo <= s[i] <= hi)
    ensures CountIn(s, lo, hi) == 0
  {
    if s != [] {
      CountNone(s[1..], lo, hi);
    }
  }

  lemma CountBelow(t: seq<real>, lo: real, hi: real, k: nat)
    requires k <= |t| && forall i :: k <= i < |t| ==> t[i] > hi
    ensures CountIn(t, lo, hi) <= k
  {
    assert t == t[..k] + t[k..];
    CountConcat(t[..k], t[k..], lo, hi);
    CountNone(t[k..], lo, hi);
  }

  lemma CountAbove(t: seq<real>, lo: real, hi: real, k: nat)
    requires k <= |t| && forall i :: 0 <= i < k ==> t[i] < lo
    ensures CountIn(t, lo, hi) <= |t| - k
  {
    assert t == t[..k] + t[k..];
    CountConcat(t[..k], t[k..], lo, hi);
    CountConcat(t[k..], [], lo, hi);
    CountNone(t[..k], lo, hi);
  }

  /** In sorted order, a majority inside [lo, hi] covers the middle positions. */
  lemma MiddleWithinMajority(t: seq<real>, lo: real, hi: real, k: nat)
    requires Sorted(t) && k < |t| && 2 * k <= |t| <= 2 * k + 2
    requires 2 * CountIn(t, lo, hi) > |t|
    ensures lo <= t[k] <= hi
  {
    if t[k] > hi {
      CountBelow(t, lo, hi, k);
    } else if t[k] < lo {
      CountAbove(t, lo, hi, k + 1);
    }
  }

  /** The median lies in every interval that holds a strict majority of the values. */
  lemma MedianWithinMajority(s: seq<real>, lo: real, hi: real)
    requires s != [] && 2 * CountIn(s, lo, hi) > |s|
    ensures lo <= MedianOf(s) <= hi
  {
    var t := Sort(s);
    SortSorts(s);
    CountPermutation(s, t, lo, hi);
    MiddleWithinMajority(t, lo, hi, |t| / 2);
    if |t| % 2 == 0 {
      MiddleWithinMajority(t, lo, hi, |t| / 2 - 1);
    }
  }
}
