/** Aggregates over index ranges: what they mean, and the fast forms that compute them (prefix sums, a
    sparse table of extremes, sorted windows). */
module WindowMath {
  import opened NodeProgram
  import opened EpisodeTables

  // -- sums ----------------------------------------------------------------------------

  /** `xs[s] + .. + xs[e - 1]`. */
  function Sum(xs: seq<real>, s: nat, e: nat): real
    requires s <= e <= |xs|
  {
    if s == e then 0.0 else Sum(xs, s, e - 1) + xs[e - 1]
  }

  lemma {:induction false} SumSplits(xs: seq<real>, s: nat, m: nat, e: nat)
    requires s <= m <= e <= |xs|
    ensures Sum(xs, s, e) == Sum(xs, s, m) + Sum(xs, m, e)
  {
    if m < e {
      SumSplits(xs, s, m, e - 1);
    }
  }

  /** Sums depend on their own range alone. */
  lemma {:induction false} SumLocal(xs: seq<real>, ys: seq<real>, s: nat, e: nat)
    requires s <= e <= |xs| && e <= |ys| && forall i | s <= i < e :: xs[i] == ys[i]
    ensures Sum(xs, s, e) == Sum(ys, s, e)
  {
    if s < e {
      SumLocal(xs, ys, s, e - 1);
    }
  }

  /** All prefix sums, the empty one first. */
  ghost predicate PrefixSums(xs: seq<real>, p: seq<real>) {
    |p| == |xs| + 1 && forall k | 0 <= k <= |xs| :: p[k] == Sum(xs, 0, k)
  }

  method Cumulate(xs: seq<real>) returns (p: seq<real>)
    ensures PrefixSums(xs, p)
  {
    p := [0.0];
    var k := 0;
    while k < |xs|
      invariant 0 <= k <= |xs| && |p| == k + 1
      invariant forall j | 0 <= j <= k :: p[j] == Sum(xs, 0, j)
    {
      p := p + [p[k] + xs[k]];
      k := k + 1;
    }
  }

  lemma PrefixDifference(xs: seq<real>, p: seq<real>, s: nat, e: nat)
    requires PrefixSums(xs, p) && s <= e <= |xs|
    ensures p[e] - p[s] == Sum(xs, s, e)
  {
    SumSplits(xs, 0, s, e);
  }

  // -- missing values --------------------------------------------------------------------

  /** Every value from `s` to before `e` is present. */
  predicate Present(xs: Series, s: int, e: int) {
    0 <= s <= e <= |xs| && forall i | s <= i < e :: xs[i].Some?
  }

  function Clean(xs: Series): (r: seq<real>)
    ensures |r| == |xs| && forall i | 0 <= i < |xs| && xs[i].Some? :: r[i] == xs[i].value
  {
    seq(|xs|, i requires 0 <= i < |xs| => if xs[i].Some? then xs[i].value else 0.0)
  }

  function CountMissing(xs: Series, k: nat): nat
    requires k <= |xs|
  {
    if k == 0 then 0 else CountMissing(xs, k - 1) + if xs[k - 1].None? then 1 else 0
  }

  ghost predicate MissingCounts(xs: Series, bad: seq<nat>) {
    |bad| == |xs| + 1 && forall k | 0 <= k <= |xs| :: bad[k] == CountMissing(xs, k)
  }

  method CumulateMissing(xs: Series) returns (bad: seq<nat>)
    ensures MissingCounts(xs, bad)
  {
    bad := [0];
    var k := 0;
    while k < |xs|
      invariant 0 <= k <= |xs| && |bad| == k + 1
      invariant forall j | 0 <= j <= k :: bad[j] == CountMissing(xs, j)
    {
      bad := bad + [bad[k] + if xs[k].None? then 1 else 0];
      k := k + 1;
    }
  }

  /** Equal missing counts at both ends mean that nothing is missing between them. */
  lemma {:induction false} NothingMissing(xs: Series, s: nat, e: nat)
    requires s <= e <= |xs|
    ensures CountMissing(xs, s) <= CountMissing(xs, e)
    ensures CountMissing(xs, e) == CountMissing(xs, s) <==> Present(xs, s, e)
  {
    if s < e {
      NothingMissing(xs, s, e - 1);
    }
  }

  /** Two series that agree up to `t`. */
  predicate AgreeTo(xs: Series, ys: Series, t: nat) {
    t < |xs| && t < |ys| && xs[..t + 1] == ys[..t + 1]
  }

  lemma PresentLocal(xs: Series, ys: Series, t: nat, s: int, e: int)
    requires AgreeTo(xs, ys, t) && e <= t + 1
    ensures Present(xs, s, e) == Present(ys, s, e)
  {
    forall i | 0 <= i <= t ensures xs[i] == ys[i] {
      assert xs[i] == xs[..t + 1][i] && ys[i] == ys[..t + 1][i];
    }
  }

  lemma CleanLocal(xs: Series, ys: Series, t: nat)
    requires AgreeTo(xs, ys, t)
    ensures forall i | 0 <= i <= t :: Clean(xs)[i] == Clean(ys)[i]
  {
    forall i | 0 <= i <= t ensures Clean(xs)[i] == Clean(ys)[i] {
      assert xs[i] == xs[..t + 1][i] && ys[i] == ys[..t + 1][i];
    }
  }

  // -- extremes --------------------------------------------------------------------------

  function Better(largest: bool, a: real, b: real): real {
    if largest then (if a < b then b else a) else (if b < a then b else a)
  }

  /** The largest or smallest value from `s` to before `e`. */
  function Extreme(largest: bool, xs: seq<real>, s: nat, e: nat): real
    requires s < e <= |xs|
  {
    if e == s + 1 then xs[s] else Better(largest, Extreme(largest, xs, s, e - 1), xs[e - 1])
  }

  /** Nothing in the range beats the extreme, and the range attains it. */
  lemma {:induction false} ExtremeIs(largest: bool, xs: seq<real>, s: nat, e: nat)
    requires s < e <= |xs|
    ensures var x := Extreme(largest, xs, s, e);
            && (forall i | s <= i < e :: if largest then xs[i] <= x else x <= xs[i])
            && exists i | s <= i < e :: xs[i] == x
  {
    if e == s + 1 {
      assert xs[s] == Extreme(largest, xs, s, e);
    } else {
      ExtremeIs(largest, xs, s, e - 1);
      assert xs[e - 1] == xs[e - 1];
      var i :| s <= i < e - 1 && xs[i] == Extreme(largest, xs, s, e - 1);
    }
  }

  /** A value that nothing beats and that is attained is the extreme. */
  lemma ExtremeUnique(largest: bool, xs: seq<real>, s: nat, e: nat, x: real)
    requires s < e <= |xs| && forall i | s <= i < e :: if largest then xs[i] <= x else x <= xs[i]
    requires exists i | s <= i < e :: xs[i] == x
    ensures Extreme(largest, xs, s, e) == x
  {
    ExtremeIs(largest, xs, s, e);
  }

  lemma ExtremeLocal(largest: bool, xs: seq<real>, ys: seq<real>, s: nat, e: nat)
    requires s < e <= |xs| && e <= |ys| && forall i | s <= i < e :: xs[i] == ys[i]
    ensures Extreme(largest, xs, s, e) == Extreme(largest, ys, s, e)
  {
    ExtremeIs(largest, xs, s, e);
    var i :| s <= i < e && xs[i] == Extreme(largest, xs, s, e);
    assert ys[i] == Extreme(largest, xs, s, e);
    ExtremeUnique(largest, ys, s, e, Extreme(largest, xs, s, e));
  }

  /** Two ranges that overlap or touch give the extreme of both together. */
  lemma ExtremeJoins(largest: bool, xs: seq<real>, s: nat, m: nat, l: nat, e: nat)
    requires s <= l <= m && s < m && l < e && m <= e <= |xs|
    ensures Better(largest, Extreme(largest, xs, s, m), Extreme(largest, xs, l, e)) == Extreme(largest, xs, s, e)
  {
    ExtremeIs(largest, xs, s, m);
    ExtremeIs(largest, xs, l, e);
    var i :| s <= i < m && xs[i] == Extreme(largest, xs, s, m);
    var j :| l <= j < e && xs[j] == Extreme(largest, xs, l, e);
    var x := Better(largest, xs[i], xs[j]);
    assert xs[i] == x || xs[j] == x;
    ExtremeUnique(largest, xs, s, e, x);
  }

  function Pow2(j: nat): (p: nat)
    ensures p >= 1
  {
    if j == 0 then 1 else 2 * Pow2(j - 1)
  }

  /** Level `j` of the table: the extremes of all ranges of length `2^j`. */
  ghost predicate IsLevel(largest: bool, xs: seq<real>, j: nat, level: seq<real>) {
    && Pow2(j) <= |xs| && |level| == |xs| - Pow2(j) + 1
    && forall i | 0 <= i < |level| :: level[i] == Extreme(largest, xs, i, i + Pow2(j))
  }

  method NextLevel(largest: bool, ghost xs: seq<real>, j: nat, level: seq<real>, half: nat) returns (next: seq<real>)
    requires IsLevel(largest, xs, j, level) && half == Pow2(j) && Pow2(j + 1) <= |xs|
    ensures IsLevel(largest, xs, j + 1, next)
  {
    next := [];
    var i := 0;
    while i < |level| - half
      invariant 0 <= i <= |level| - half && |next| == i
      invariant forall k | 0 <= k < i :: next[k] == Extreme(largest, xs, k, k + Pow2(j + 1))
    {
      ExtremeJoins(largest, xs, i, i + half, i + half, i + half + half);
      next := next + [Better(largest, level[i], level[i + half])];
      i := i + 1;
    }
  }

  /** The exponent of the largest power of two that fits into a length. */
  method Log2(length: nat) returns (j: nat, p: nat)
    requires length >= 1
    ensures p == Pow2(j) && p <= length < 2 * p
  {
    j, p := 0, 1;
    while 2 * p <= length
      invariant p == Pow2(j) && 1 <= p <= length
      decreases length - p
    {
      j, p := j + 1, 2 * p;
    }
  }

  /** A query: a non-empty range, both ends inclusive. */
  datatype Query = Query(low: nat, high: nat)

  ghost predicate Queries(xs: seq<real>, qs: seq<Query>) {
    forall q | q in qs :: q.low <= q.high < |xs|
  }

  ghost predicate IsTable(largest: bool, xs: seq<real>, levels: seq<seq<real>>) {
    forall j | 0 <= j < |levels| :: IsLevel(largest, xs, j, levels[j])
  }

  method LongestOf(qs: seq<Query>) returns (longest: nat)
    requires forall q | q in qs :: q.low <= q.high
    ensures longest >= 1 && forall q | q in qs :: q.high - q.low + 1 <= longest
    ensures longest == 1 || exists q | q in qs :: q.high - q.low + 1 == longest
  {
    longest := 1;
    var k := 0;
    while k < |qs|
      invariant 0 <= k <= |qs| && longest >= 1
      invariant forall i | 0 <= i < k :: qs[i].high - qs[i].low + 1 <= longest
      invariant longest == 1 || exists q | q in qs :: q.high - q.low + 1 == longest
    {
      var q := qs[k];
      assert q in qs;
      if q.high - q.low + 1 > longest {
        longest := q.high - q.low + 1;
      }
      k := k + 1;
    }
  }

  /** Range extremes through a sparse table as deep as the longest query: every answer is the extreme of its
      range. */
  method WindowExtreme(largest: bool, xs: seq<real>, qs: seq<Query>) returns (out: seq<real>)
    requires Queries(xs, qs)
    ensures |out| == |qs|
    ensures forall k | 0 <= k < |qs| :: out[k] == Extreme(largest, xs, qs[k].low, qs[k].high + 1)
  {
    out := [];
    if |qs| == 0 {
      return;
    }
    assert qs[0] in qs;
    var longest := LongestOf(qs);
    assert longest <= |xs|;
    var levels := BuildTable(largest, xs, longest);
    var k := 0;
    while k < |qs|
      invariant 0 <= k <= |qs| && |out| == k
      invariant forall i | 0 <= i < k :: out[i] == Extreme(largest, xs, qs[i].low, qs[i].high + 1)
    {
      assert qs[k] in qs;
      var j, p := Log2(qs[k].high - qs[k].low + 1);
      LevelReached(levels, largest, xs, longest, j);
      ExtremeJoins(largest, xs, qs[k].low, qs[k].low + p, qs[k].high - p + 1, qs[k].high + 1);
      out := out + [Better(largest, levels[j][qs[k].low], levels[j][qs[k].high - p + 1])];
      k := k + 1;
    }
  }

  method BuildTable(largest: bool, xs: seq<real>, longest: nat) returns (levels: seq<seq<real>>)
    requires 1 <= longest <= |xs|
    ensures IsTable(largest, xs, levels) && |levels| >= 1 && longest < Pow2(|levels|)
  {
    levels := [xs];
    var half := 1;
    while 2 * half <= longest
      invariant |levels| >= 1 && half == Pow2(|levels| - 1) && half <= longest
      invariant IsTable(largest, xs, levels)
      decreases longest - half
    {
      var next := NextLevel(largest, xs, |levels| - 1, levels[|levels| - 1], half);
      levels := levels + [next];
      half := 2 * half;
    }
  }

  lemma {:induction false} Pow2Monotone(i: nat, j: nat)
    requires i <= j
    ensures Pow2(i) <= Pow2(j)
  {
    if i < j {
      Pow2Monotone(i, j - 1);
    }
  }

  lemma LevelReached(levels: seq<seq<real>>, largest: bool, xs: seq<real>, longest: nat, j: nat)
    requires IsTable(largest, xs, levels) && longest < Pow2(|levels|) && Pow2(j) <= longest
    ensures j < |levels| && IsLevel(largest, xs, j, levels[j])
  {
    if j >= |levels| {
      Pow2Monotone(|levels|, j);
    }
  }

  // -- one query per row -------------------------------------------------------------------

  /** A window per row, if any. */
  type Windows = seq<Option<Query>>

  ghost predicate Fit(n: nat, ws: Windows) {
    forall t | 0 <= t < |ws| && ws[t].Some? :: ws[t].value.low <= ws[t].value.high < n
  }

  /** The rows that have a window, in order, and their queries. */
  ghost predicate Picked(ws: Windows, n: nat, rows: seq<nat>, qs: seq<Query>) {
    && n <= |ws| && |rows| == |qs|
    && (forall k | 0 <= k < |rows| :: rows[k] < n && ws[rows[k]] == Some(qs[k]))
    && (forall i, j | 0 <= i < j < |rows| :: rows[i] < rows[j])
    && (forall t | 0 <= t < n && ws[t].Some? :: t in rows)
  }

  method Gather(ws: Windows) returns (rows: seq<nat>, qs: seq<Query>)
    ensures Picked(ws, |ws|, rows, qs)
  {
    rows, qs := [], [];
    var t := 0;
    while t < |ws|
      invariant 0 <= t <= |ws| && Picked(ws, t, rows, qs)
    {
      if ws[t].Some? {
        rows, qs := rows + [t], qs + [ws[t].value];
      }
      t := t + 1;
    }
  }

  /** The values of the queries put back into their rows. */
  method Scatter(ghost ws: Windows, n: nat, rows: seq<nat>, ghost qs: seq<Query>, values: seq<real>) returns (out: Series)
    requires n == |ws| && Picked(ws, n, rows, qs) && |values| == |rows|
    ensures |out| == n && forall k | 0 <= k < |rows| :: out[rows[k]] == Some(values[k])
    ensures forall t | 0 <= t < n && ws[t].None? :: out[t].None?
  {
    var result := new Option<real>[n](_ => None);
    var k := 0;
    while k < |rows|
      invariant 0 <= k <= |rows|
      invariant forall i | 0 <= i < k :: result[rows[i]] == Some(values[i])
      invariant forall t | 0 <= t < n && ws[t].None? :: result[t] == None
    {
      result[rows[k]] := Some(values[k]);
      k := k + 1;
    }
    out := result[..];
  }

  /** The extreme of every row's window, missing where there is none. */
  method RowExtremes(largest: bool, xs: seq<real>, ws: Windows) returns (out: Series)
    requires Fit(|xs|, ws)
    ensures |out| == |ws|
    ensures forall t | 0 <= t < |ws| ::
              out[t] == if ws[t].Some? then Some(Extreme(largest, xs, ws[t].value.low, ws[t].value.high + 1)) else None
  {
    hide Extreme;
    var rows, qs := Gather(ws);
    forall q | q in qs ensures q.low <= q.high < |xs| {
      var k :| 0 <= k < |qs| && qs[k] == q;
      assert ws[rows[k]] == Some(q);
    }
    var values := WindowExtreme(largest, xs, qs);
    out := Scatter(ws, |ws|, rows, qs, values);
    forall t | 0 <= t < |ws|
      ensures out[t] == if ws[t].Some? then Some(Extreme(largest, xs, ws[t].value.low, ws[t].value.high + 1)) else None
    {
      if ws[t].Some? {
        var i :| 0 <= i < |rows| && rows[i] == t;
      }
    }
  }

  // -- quotients -------------------------------------------------------------------------

  lemma SignOfFactor(u: real, c: real)
    requires c > 0.0 && u * c >= 0.0
    ensures u >= 0.0
  {
  }

  lemma ProductPositive(b: real, d: real)
    requires b > 0.0 && d > 0.0
    ensures b * d > 0.0
  {
  }

  /** Quotients compare as their cross products do. */
  lemma RatioOrder(a: real, b: real, c: real, d: real)
    requires b > 0.0 && d > 0.0 && a * d <= c * b
    ensures a / b <= c / d
  {
    var x, y := a / b, c / d;
    assert x * b == a && y * d == c;
    var u := y - x;
    assert u * (b * d) == (y * d) * b - (x * b) * d;
    ProductPositive(b, d);
    SignOfFactor(u, b * d);
  }
}
