/** What the directional movement columns are, in the prices of the candles: which move counts, how wide a bar
    is, what one step of the average does, and the indicators on a market that moves one way only. */
module AdxMeaning {
  import opened NodeProgram
  import opened EpisodeTables
  import opened WindowMath
  import opened AdxDmi

  /** At most one movement of a bar is positive. It is the rise of the high or the fall of the low, whichever
      is larger, and neither counts when they are equal or when neither is positive. */
  lemma MovementMeans(cs: seq<Candle>, i: nat)
    requires 0 < i < |cs|
    ensures PlusDm(cs, i) >= 0.0 && MinusDm(cs, i) >= 0.0
    ensures PlusDm(cs, i) > 0.0 ==>
              && PlusDm(cs, i) == cs[i].high - cs[i - 1].high
              && PlusDm(cs, i) > cs[i - 1].low - cs[i].low
    ensures MinusDm(cs, i) > 0.0 ==>
              && MinusDm(cs, i) == cs[i - 1].low - cs[i].low
              && MinusDm(cs, i) > cs[i].high - cs[i - 1].high
    ensures PlusDm(cs, i) == 0.0 && MinusDm(cs, i) == 0.0 <==>
              || cs[i].high - cs[i - 1].high == cs[i - 1].low - cs[i].low
              || (cs[i].high <= cs[i - 1].high && cs[i - 1].low <= cs[i].low)
  {
  }

  /** The true range of a bar is the width of the smallest band around its own range and the last close. */
  lemma RangeMeans(cs: seq<Candle>, i: nat, top: real, bottom: real)
    requires Sane(cs) && 0 < i < |cs|
    requires top >= cs[i].high && top >= cs[i - 1].close && (top == cs[i].high || top == cs[i - 1].close)
    requires bottom <= cs[i].low && bottom <= cs[i - 1].close && (bottom == cs[i].low || bottom == cs[i - 1].close)
    ensures TrueRange(cs, i) == top - bottom
  {
    assert cs[i].low <= cs[i].high;
  }

  lemma FirstMeans(cs: seq<Candle>)
    requires |cs| > 0
    ensures TrueRange(cs, 0) == cs[0].high - cs[0].low && PlusDm(cs, 0) == 0.0 && MinusDm(cs, 0) == 0.0
  {
  }

  // -- the average -------------------------------------------------------------------------

  /** Every value of the `period` bars that end at bar `s` is there. */
  ghost predicate WindowThere(xs: Series, period: nat, s: nat) {
    period <= s + 1 && s < |xs| && forall k | s + 1 - period <= k <= s :: xs[k].Some?
  }

  /** With the first full window ending at bar `s`: nothing before it, the mean of the window on it, afterwards
      the last average weighed `period - 1` times against one value, and nothing from the first gap on. */
  lemma {:induction false} AverageMeans(xs: Series, period: nat, s: nat, i: nat)
    requires period >= 1 && i < |xs| && WindowThere(xs, period, s)
    requires forall k: nat | k < s :: !WindowThere(xs, period, k)
    ensures RmaAt(xs, period, i).Some? <==> i >= s && forall k | s < k <= i :: xs[k].Some?
    ensures i == s ==> RmaAt(xs, period, i).value * period as real == Sum(Clean(xs), i + 1 - period, i + 1)
    ensures i > s && RmaAt(xs, period, i).Some? ==>
              && RmaAt(xs, period, i - 1).Some?
              && RmaAt(xs, period, i).value * period as real
                 == RmaAt(xs, period, i - 1).value * (period as real - 1.0) + xs[i].value
  {
    hide Sum;
    SeedIsFirst(xs, period, s);
    if i == s {
      Restored(Sum(Clean(xs), i + 1 - period, i + 1), period as real);
    } else if i > s {
      AverageMeans(xs, period, s, i - 1);
      var previous := RmaAt(xs, period, i - 1);
      if previous.Some? && xs[i].Some? {
        Restored(previous.value * (period as real - 1.0) + xs[i].value, period as real);
      }
    }
  }

  /** Without a full window there is no average. */
  lemma NoAverage(xs: Series, period: nat, i: nat)
    requires period >= 1 && i < |xs| && forall k: nat :: !WindowThere(xs, period, k)
    ensures RmaAt(xs, period, i).None?
  {
    var seed := Seed(xs, period);
    if seed.Some? {
      assert WindowThere(xs, period, seed.value);
      assert false;
    }
  }

  lemma SeedIsFirst(xs: Series, period: nat, s: nat)
    requires period >= 1 && WindowThere(xs, period, s)
    requires forall k: nat | k < s :: !WindowThere(xs, period, k)
    ensures Seed(xs, period) == Some(s)
  {
    assert Filled(xs, period, s);
    var seed := Seed(xs, period);
    assert WindowThere(xs, period, seed.value);
  }

  lemma Restored(x: real, c: real)
    requires c != 0.0
    ensures x / c * c == x
  {
  }

  /** A column that holds one value wherever it holds any has that value as its average. */
  lemma {:induction false} ConstantAverage(xs: Series, period: nat, c: real, i: nat)
    requires period >= 1 && i < |xs| && forall k | 0 <= k <= i && xs[k].Some? :: xs[k].value == c
    ensures var v := RmaAt(xs, period, i); v.Some? ==> v.value == c
  {
    hide Sum, Smooth;
    var seed := Seed(xs, period);
    if seed.Some? && i == seed.value {
      ConstantSum(Clean(xs), i + 1 - period, i + 1, c);
      ConstantMean(Clean(xs), i + 1 - period, i + 1, c);
    } else if seed.Some? && i > seed.value {
      ConstantAverage(xs, period, c, i - 1);
      ConstantStep(c, period);
    }
  }

  lemma {:induction false} ConstantSum(xs: seq<real>, s: nat, e: nat, c: real)
    requires s <= e <= |xs| && forall k | s <= k < e :: xs[k] == c
    ensures Sum(xs, s, e) == (e - s) as real * c
  {
    if s < e {
      ConstantSum(xs, s, e - 1, c);
      assert (e - s) as real * c == (e - 1 - s) as real * c + c;
    }
  }

  lemma ConstantMean(xs: seq<real>, s: nat, e: nat, c: real)
    requires s < e <= |xs| && Sum(xs, s, e) == (e - s) as real * c
    ensures Mean(xs, s, e) == c
  {
    Cancelled(c, (e - s) as real);
  }

  lemma ConstantStep(c: real, period: nat)
    requires period >= 1
    ensures Smooth(c, c, period) == c
  {
    assert c * (period as real - 1.0) + c == period as real * c;
    Cancelled(c, period as real);
  }

  lemma Cancelled(c: real, n: real)
    requires n != 0.0
    ensures n * c / n == c
  {
  }

  // -- the indicators ----------------------------------------------------------------------

  lemma PercentMeans(x: Option<real>, y: Option<real>)
    ensures Percent(x, y).Some? <==> x.Some? && y.Some? && y.value != 0.0
    ensures Percent(x, y).Some? ==> Percent(x, y).value * y.value == 100.0 * x.value
  {
    if Percent(x, y).Some? {
      Restored(100.0 * x.value, y.value);
    }
  }

  /** The indicators are there together, when the average range is there and not zero; times the average range
      each is a hundred times the average movement of its own side. */
  lemma IndicatorMeans(cs: seq<Candle>, period: nat, i: nat, p: Option<real>, m: Option<real>)
    requires period >= 1 && i < |cs| && p == DiPlus(cs, period, i) && m == DiMinus(cs, period, i)
    ensures p.Some? <==> period <= i + 1 && RmaAt(RangeColumn(cs), period, i) != Some(0.0)
    ensures m.Some? <==> p.Some?
    ensures p.Some? ==> RmaAt(RangeColumn(cs), period, i).Some? && RmaAt(PlusColumn(cs), period, i).Some?
    ensures p.Some? ==> p.value * RmaAt(RangeColumn(cs), period, i).value == 100.0 * RmaAt(PlusColumn(cs), period, i).value
    ensures m.Some? ==> RmaAt(RangeColumn(cs), period, i).Some? && RmaAt(MinusColumn(cs), period, i).Some?
    ensures m.Some? ==> m.value * RmaAt(RangeColumn(cs), period, i).value == 100.0 * RmaAt(MinusColumn(cs), period, i).value
  {
    hide RmaAt, Percent;
    WholeColumn(PlusColumn(cs), period, i);
    WholeColumn(MinusColumn(cs), period, i);
    WholeColumn(RangeColumn(cs), period, i);
    PercentMeans(RmaAt(PlusColumn(cs), period, i), RmaAt(RangeColumn(cs), period, i));
    PercentMeans(RmaAt(MinusColumn(cs), period, i), RmaAt(RangeColumn(cs), period, i));
  }

  /** A column without gaps has its average from the end of its first window on. */
  lemma {:induction false} WholeColumn(xs: Series, period: nat, i: nat)
    requires period >= 1 && i < |xs| && forall k | 0 <= k < |xs| :: xs[k].Some?
    ensures RmaAt(xs, period, i).Some? <==> period <= i + 1
  {
    SeedIsPeriod(xs, period);
    if period <= i {
      WholeColumn(xs, period, i - 1);
    }
  }

  /** The column behind trend strength: times the sum of the indicators it is a hundred times their distance. */
  lemma DistanceMeans(p: Option<real>, m: Option<real>)
    ensures Dx(p, m).Some? <==> p.Some? && m.Some? && p.value + m.value != 0.0
    ensures Dx(p, m).Some? && p.value >= m.value ==> Dx(p, m).value * (p.value + m.value) == 100.0 * (p.value - m.value)
    ensures Dx(p, m).Some? && p.value <= m.value ==> Dx(p, m).value * (p.value + m.value) == 100.0 * (m.value - p.value)
  {
    if Dx(p, m).Some? {
      Restored(100.0 * Distance(p.value, m.value), p.value + m.value);
    }
  }

  // -- a market that moves one way ---------------------------------------------------------

  ghost predicate LowsNeverFall(cs: seq<Candle>, i: nat) {
    forall k | 0 < k <= i && k < |cs| :: cs[k - 1].low <= cs[k].low
  }

  ghost predicate HighsNeverRise(cs: seq<Candle>, i: nat) {
    forall k | 0 < k <= i && k < |cs| :: cs[k].high <= cs[k - 1].high
  }

  lemma SideIsZero(column: Series, range: Series, period: nat, i: nat)
    requires period >= 1 && i < |column| && i < |range|
    requires forall k | 0 <= k <= i :: column[k] == Some(0.0)
    ensures var q := Percent(RmaAt(column, period, i), RmaAt(range, period, i)); q.Some? ==> q.value == 0.0
  {
    ConstantAverage(column, period, 0.0, i);
    hide RmaAt;
    var y := RmaAt(range, period, i);
    if y.Some? && y.value != 0.0 {
      Cancelled(0.0, y.value);
    }
  }

  /** Where lows never fall the falling indicator is zero; where highs never rise the rising one is. */
  lemma OneSided(cs: seq<Candle>, period: nat, i: nat)
    requires period >= 1 && i < |cs|
    ensures var m := DiMinus(cs, period, i); LowsNeverFall(cs, i) && m.Some? ==> m.value == 0.0
    ensures var p := DiPlus(cs, period, i); HighsNeverRise(cs, i) && p.Some? ==> p.value == 0.0
  {
    if LowsNeverFall(cs, i) {
      SideIsZero(MinusColumn(cs), RangeColumn(cs), period, i);
    }
    if HighsNeverRise(cs, i) {
      SideIsZero(PlusColumn(cs), RangeColumn(cs), period, i);
    }
  }

  lemma OneSidedDistance(p: Option<real>, m: Option<real>)
    requires Dx(p, m).Some? && p.value >= 0.0 && m.value >= 0.0 && (p.value == 0.0 || m.value == 0.0)
    ensures Dx(p, m).value == 100.0
  {
    assert Distance(p.value, m.value) == p.value + m.value;
    Cancelled(100.0, p.value + m.value);
  }

  /** In such a market trend strength, wherever it is there, is a hundred. */
  lemma OneSidedTrend(cs: seq<Candle>, period: nat, i: nat)
    requires Sane(cs) && period >= 1 && i < |cs| && (LowsNeverFall(cs, i) || HighsNeverRise(cs, i))
    ensures var v := AdxAt(cs, period, i); v.Some? ==> v.value == 100.0
  {
    hide RmaAt, DiPlus, DiMinus;
    var dx := DxColumn(cs, period);
    forall k | 0 <= k <= i && dx[k].Some? ensures dx[k].value == 100.0 {
      var p, m := DiPlus(cs, period, k), DiMinus(cs, period, k);
      OneSided(cs, period, k);
      IndicatorsBounded(cs, period, k);
      OneSidedDistance(p, m);
    }
    ConstantAverage(dx, period, 100.0, i);
  }
}
