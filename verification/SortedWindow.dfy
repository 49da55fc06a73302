/** Sorted windows: keeping a list sorted while values come in, and the sum of its largest values. */
module SortedWindow {
  import opened WindowMath

  ghost predicate Ascending(xs: seq<real>) {
    forall i, j | 0 <= i < j < |xs| :: xs[i] <= xs[j]
  }

  /** A value placed after all values that are not larger (`bisect.insort`). */
  function Insort(xs: seq<real>, x: real): (r: seq<real>)
    ensures multiset(r) == multiset(xs) + multiset{x}
  {
    if |xs| == 0 then [x]
    else if xs[|xs| - 1] <= x then xs + [x]
    else
      assert xs == xs[..|xs| - 1] + [xs[|xs| - 1]];
      Insort(xs[..|xs| - 1], x) + [xs[|xs| - 1]]
  }

  function Sorted(xs: seq<real>): (r: seq<real>)
    ensures multiset(r) == multiset(xs)
  {
    if |xs| == 0 then [] else
      assert xs == xs[..|xs| - 1] + [xs[|xs| - 1]];
      Insort(Sorted(xs[..|xs| - 1]), xs[|xs| - 1])
  }

  lemma SameCount(xs: seq<real>, ys: seq<real>)
    requires multiset(xs) == multiset(ys)
    ensures |xs| == |ys| && forall x :: x in xs <==> x in ys
  {
    assert |xs| == |multiset(xs)| == |multiset(ys)| == |ys|;
    assert forall x :: x in xs <==> x in multiset(xs);
    assert forall x :: x in ys <==> x in multiset(ys);
  }

  lemma {:induction false} InsortAscends(xs: seq<real>, x: real)
    requires Ascending(xs)
    ensures Ascending(Insort(xs, x))
  {
    if |xs| > 0 && xs[|xs| - 1] > x {
      var most := xs[..|xs| - 1];
      InsortAscends(most, x);
      assert multiset(Insort(most, x)) == multiset(most + [x]);
      SameCount(Insort(most, x), most + [x]);
      forall i | 0 <= i < |Insort(most, x)| ensures Insort(most, x)[i] <= xs[|xs| - 1] {
        assert Insort(most, x)[i] in Insort(most, x);
        assert Insort(most, x)[i] in most + [x];
      }
    }
  }

  lemma {:induction false} SortedAscends(xs: seq<real>)
    ensures Ascending(Sorted(xs)) && |Sorted(xs)| == |xs|
  {
    SameCount(Sorted(xs), xs);
    if |xs| > 0 {
      SortedAscends(xs[..|xs| - 1]);
      InsortAscends(Sorted(xs[..|xs| - 1]), xs[|xs| - 1]);
    }
  }

  lemma LastIsLargest(xs: seq<real>, ys: seq<real>)
    requires Ascending(xs) && Ascending(ys) && multiset(xs) == multiset(ys) && |xs| > 0
    ensures |ys| > 0 && xs[|xs| - 1] == ys[|ys| - 1]
  {
    SameCount(xs, ys);
    var a, b := xs[|xs| - 1], ys[|ys| - 1];
    assert a in xs && b in ys;
    assert a in ys && b in xs;
  }

  lemma WithoutLast(xs: seq<real>, ys: seq<real>)
    requires |xs| > 0 && |ys| > 0 && multiset(xs) == multiset(ys) && xs[|xs| - 1] == ys[|ys| - 1]
    ensures multiset(xs[..|xs| - 1]) == multiset(ys[..|ys| - 1])
  {
    var a, b, last := xs[..|xs| - 1], ys[..|ys| - 1], xs[|xs| - 1];
    assert xs == a + [last] && ys == b + [last];
    assert multiset(a + [last]) == multiset(a) + multiset{last};
    assert multiset(b + [last]) == multiset(b) + multiset{last};
    forall x ensures multiset(a)[x] == multiset(b)[x] {
      assert multiset(xs)[x] == multiset(ys)[x];
    }
  }

  lemma PrefixAscends(xs: seq<real>)
    requires Ascending(xs) && |xs| > 0
    ensures Ascending(xs[..|xs| - 1])
  {
  }

  /** There is only one ascending list of given values. */
  lemma {:induction false} AscendingUnique(xs: seq<real>, ys: seq<real>)
    requires Ascending(xs) && Ascending(ys) && multiset(xs) == multiset(ys)
    ensures xs == ys
  {
    hide Ascending;
    SameCount(xs, ys);
    if |xs| > 0 {
      LastIsLargest(xs, ys);
      PrefixAscends(xs);
      PrefixAscends(ys);
      WithoutLast(xs, ys);
      AscendingUnique(xs[..|xs| - 1], ys[..|ys| - 1]);
      assert xs == xs[..|xs| - 1] + [xs[|xs| - 1]] && ys == ys[..|ys| - 1] + [ys[|ys| - 1]];
    }
  }

  /** Inserting the next value into a sorted window gives the sorted longer window. */
  lemma InsortIsSorted(window: seq<real>, xs: seq<real>, x: real)
    requires window == Sorted(xs)
    ensures Insort(window, x) == Sorted(xs + [x])
  {
    assert (xs + [x])[..|xs + [x]| - 1] == xs;
  }

  // -- the largest values ------------------------------------------------------------------

  function SumAll(xs: seq<real>): real {
    Sum(xs, 0, |xs|)
  }

  function Least(a: nat, b: nat): nat {
    if a < b then a else b
  }

  /** The sum of the `k` largest values, of all of them when there are fewer. */
  function TopSum(xs: seq<real>, k: nat): real {
    var ordered := Sorted(xs);
    Sum(ordered, |ordered| - Least(k, |ordered|), |ordered|)
  }

  lemma {:induction false} SumAppends(xs: seq<real>, ys: seq<real>, s: nat, e: nat)
    requires s <= e <= |ys|
    ensures Sum(xs + ys, |xs| + s, |xs| + e) == Sum(ys, s, e)
  {
    if s < e {
      SumAppends(xs, ys, s, e - 1);
    }
  }

  lemma SumOfBoth(xs: seq<real>, ys: seq<real>)
    ensures SumAll(xs + ys) == SumAll(xs) + SumAll(ys)
  {
    SumSplits(xs + ys, 0, |xs|, |xs + ys|);
    SumLocal(xs + ys, xs, 0, |xs|);
    SumAppends(xs, ys, 0, |ys|);
  }

  lemma SumOfOne(x: real)
    ensures SumAll([x]) == x
  {
    assert Sum([x], 0, 0) == 0.0;
  }

  lemma {:induction false} InsortSum(xs: seq<real>, x: real)
    ensures SumAll(Insort(xs, x)) == SumAll(xs) + x
  {
    if |xs| == 0 {
      SumOfOne(x);
    } else if xs[|xs| - 1] <= x {
      SumOfBoth(xs, [x]);
      SumOfOne(x);
    } else {
      var most, last := xs[..|xs| - 1], xs[|xs| - 1];
      InsortSum(most, x);
      SumOfBoth(Insort(most, x), [last]);
      SumOfBoth(most, [last]);
      assert xs == most + [last];
      SumOfOne(last);
    }
  }

  /** Sorting keeps the sum. */
  lemma {:induction false} SortedSum(xs: seq<real>)
    ensures SumAll(Sorted(xs)) == SumAll(xs)
  {
    if |xs| > 0 {
      var most, last := xs[..|xs| - 1], xs[|xs| - 1];
      SortedSum(most);
      InsortSum(Sorted(most), last);
      SumOfBoth(most, [last]);
      assert xs == most + [last];
      SumOfOne(last);
    }
  }

  lemma {:induction false} SumAtLeast(xs: seq<real>, s: nat, e: nat, x: real)
    requires s <= e <= |xs| && forall i | s <= i < e :: xs[i] >= x
    ensures Sum(xs, s, e) >= (e - s) as real * x
  {
    if s < e {
      SumAtLeast(xs, s, e - 1, x);
      assert (e - s) as real * x == (e - 1 - s) as real * x + x;
    }
  }

  lemma {:induction false} SumAtMost(xs: seq<real>, s: nat, e: nat, x: real)
    requires s <= e <= |xs| && forall i | s <= i < e :: xs[i] <= x
    ensures Sum(xs, s, e) <= (e - s) as real * x
  {
    if s < e {
      SumAtMost(xs, s, e - 1, x);
      assert (e - s) as real * x == (e - 1 - s) as real * x + x;
    }
  }

  lemma ShareArithmetic(top: real, rest: real, k: real, r: real, x: real)
    requires top >= k * x && rest <= r * x && k >= 0.0 && r >= 0.0
    ensures (k + r) * top >= k * (top + rest)
  {
    assert r * top >= r * (k * x);
    assert k * rest <= k * (r * x);
    assert r * (k * x) == k * (r * x);
  }

  /** The `k` largest of `n` values hold at least their proportional share of the sum: `k / n` of it. */
  lemma TopHoldsItsShare(xs: seq<real>, k: nat)
    requires 0 < k <= |xs|
    ensures |xs| as real * TopSum(xs, k) >= k as real * SumAll(xs)
  {
    hide Sorted;
    SortedAscends(xs);
    SortedSum(xs);
    UpperHoldsItsShare(Sorted(xs), k);
  }

  lemma UpperHoldsItsShare(o: seq<real>, k: nat)
    requires Ascending(o) && 0 < k <= |o|
    ensures |o| as real * Sum(o, |o| - k, |o|) >= k as real * SumAll(o)
  {
    var n, cut := |o|, |o| - k;
    SumSplits(o, 0, cut, n);
    SumAtLeast(o, cut, n, o[cut]);
    SumAtMost(o, 0, cut, o[cut]);
    hide Sum;
    ShareArithmetic(Sum(o, cut, n), Sum(o, 0, cut), k as real, cut as real, o[cut]);
    assert n as real == k as real + cut as real;
  }

  /** Of nonnegative values the largest ones hold at most the whole sum. */
  lemma TopHoldsAtMostAll(xs: seq<real>, k: nat)
    requires forall x | x in xs :: x >= 0.0
    ensures 0.0 <= TopSum(xs, k) <= SumAll(xs)
  {
    hide Sorted;
    var o := Sorted(xs);
    SameCount(o, xs);
    SortedSum(xs);
    forall i | 0 <= i < |o| ensures o[i] >= 0.0 {
      assert o[i] in o;
    }
    var cut := |o| - Least(k, |o|);
    SumSplits(o, 0, cut, |o|);
    SumAtLeast(o, 0, cut, 0.0);
    SumAtLeast(o, cut, |o|, 0.0);
  }

  lemma LastOf(xs: seq<real>, x: real)
    requires Ascending(xs) && x in xs
    ensures x <= xs[|xs| - 1]
  {
  }

  /** Dropping the largest of both leaves a choice of fewer values. */
  lemma ChoiceWithoutLast(s: seq<real>, o: seq<real>)
    requires Ascending(s) && Ascending(o) && multiset(s) <= multiset(o) && |s| > 0
    ensures |o| > 0 && s[|s| - 1] <= o[|o| - 1]
    ensures multiset(s[..|s| - 1]) <= multiset(o[..|o| - 1])
  {
    hide Ascending;
    var a, x := s[..|s| - 1], s[|s| - 1];
    assert s == a + [x];
    assert x in multiset(s) && x in o;
    LastOf(o, x);
    var b, y := o[..|o| - 1], o[|o| - 1];
    assert o == b + [y];
    if y in s {
      LastOf(s, y);
    }
    FewerOfBoth(a, x, b, y);
  }

  lemma FewerOfBoth(a: seq<real>, x: real, b: seq<real>, y: real)
    requires multiset(a + [x]) <= multiset(b + [y]) && (x == y || y !in a + [x])
    ensures multiset(a) <= multiset(b)
  {
    assert multiset(a + [x]) == multiset(a) + multiset{x} && multiset(b + [y]) == multiset(b) + multiset{y};
    assert y in multiset(a + [x]) <==> y in a + [x];
    forall v ensures multiset(a)[v] <= multiset(b)[v] {
      assert (multiset(a) + multiset{x})[v] <= (multiset(b) + multiset{y})[v];
    }
  }

  lemma {:induction false} ChoiceSum(s: seq<real>, o: seq<real>)
    requires Ascending(s) && Ascending(o) && multiset(s) <= multiset(o)
    ensures |s| <= |o| && SumAll(s) <= Sum(o, |o| - |s|, |o|)
  {
    hide Ascending;
    if |s| > 0 {
      var a, b := s[..|s| - 1], o[..|o| - 1];
      ChoiceWithoutLast(s, o);
      PrefixAscends(s);
      PrefixAscends(o);
      ChoiceSum(a, b);
      SumLocal(a, s, 0, |a|);
      SumLocal(b, o, |o| - |s|, |b|);
    }
  }

  /** No choice of `k` of the values has a larger sum than the top `k`, which is itself such a choice. */
  lemma TopIsLargest(xs: seq<real>, k: nat)
    requires k <= |xs|
    ensures forall s: seq<real> | multiset(s) <= multiset(xs) && |s| == k :: SumAll(s) <= TopSum(xs, k)
    ensures exists s: seq<real> :: multiset(s) <= multiset(xs) && |s| == k && SumAll(s) == TopSum(xs, k)
  {
    hide Sorted, Ascending, TopSum;
    forall s: seq<real> | multiset(s) <= multiset(xs) && |s| == k ensures SumAll(s) <= TopSum(xs, k) {
      ChoiceIsLess(xs, s);
    }
    TopIsChoice(xs, k);
  }

  lemma ChoiceIsLess(xs: seq<real>, s: seq<real>)
    requires multiset(s) <= multiset(xs) && |s| <= |xs|
    ensures SumAll(s) <= TopSum(xs, |s|)
  {
    hide Sorted, Ascending, Sum;
    SortedAscends(xs);
    SortedAscends(s);
    SortedSum(s);
    ChoiceSum(Sorted(s), Sorted(xs));
  }

  lemma TopIsChoice(xs: seq<real>, k: nat)
    requires k <= |xs|
    ensures exists s: seq<real> :: multiset(s) <= multiset(xs) && |s| == k && SumAll(s) == TopSum(xs, k)
  {
    hide Sorted, Ascending;
    SortedAscends(xs);
    var o := Sorted(xs);
    var below, top := o[..|o| - k], o[|o| - k..];
    SumAppends(below, top, 0, k);
    hide Sum;
    assert o == below + top;
    assert multiset(below + top) == multiset(below) + multiset(top);
    assert multiset(top) <= multiset(xs);
  }

  // -- padding with zeros ------------------------------------------------------------------

  function Zeros(n: nat): seq<real> {
    seq(n, _ => 0.0)
  }

  lemma {:induction false} SumOfZeros(xs: seq<real>, s: nat, e: nat)
    requires s <= e <= |xs| && forall i | s <= i < e :: xs[i] == 0.0
    ensures Sum(xs, s, e) == 0.0
  {
    if s < e {
      SumOfZeros(xs, s, e - 1);
    }
  }

  /** Zeros among nonnegative values do not change the sum of the largest ones, whatever `k` is. */
  lemma PaddingIsHarmless(padded: seq<real>, xs: seq<real>, n: nat, k: nat)
    requires multiset(padded) == multiset(Zeros(n) + xs) && forall x | x in xs :: x >= 0.0
    ensures var o := Sorted(padded); Sum(o, |o| - Least(k, |o|), |o|) == TopSum(xs, k)
  {
    hide Sorted, Sum;
    var o, w, z := Sorted(padded), Sorted(xs), Zeros(n);
    PaddedSorts(padded, xs, n);
    if k <= |w| {
      SumAppends(z, w, |w| - k, |w|);
    } else {
      var from := |o| - Least(k, |o|);
      SumSplits(o, from, n, |o|);
      SumOfZeros(o, from, n);
      SumAppends(z, w, 0, |w|);
    }
  }

  lemma PaddedSorts(padded: seq<real>, xs: seq<real>, n: nat)
    requires multiset(padded) == multiset(Zeros(n) + xs) && forall x | x in xs :: x >= 0.0
    ensures Sorted(padded) == Zeros(n) + Sorted(xs)
  {
    hide Sorted;
    var o, w, z := Sorted(padded), Sorted(xs), Zeros(n);
    SortedAscends(padded);
    SortedAscends(xs);
    SameCount(w, xs);
    assert multiset(z + w) == multiset(z) + multiset(w) == multiset(z + xs);
    forall i | 0 <= i < |w| ensures w[i] >= 0.0 {
      assert w[i] in w;
    }
    AscendingUnique(o, z + w);
  }
}
