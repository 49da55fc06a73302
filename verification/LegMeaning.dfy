/** What the leg measures are, in the values of the leg's own bars and with every quotient cleared. */
module LegMeaning {
  import opened NodeProgram
  import opened EpisodeTables
  import opened WindowMath
  import opened SortedWindow
  import opened TouchLegs
  import opened LegMeasures

  /** `d` are the values of the bars `low..high`, none of them missing. */
  ghost predicate Values(xs: Series, low: nat, high: nat, d: seq<real>) {
    low <= high < |xs| && |d| == high - low + 1 && forall i | 0 <= i < |d| :: xs[low + i] == Some(d[i])
  }

  lemma ValuesAreSlice(xs: Series, low: nat, high: nat, d: seq<real>)
    requires Values(xs, low, high, d)
    ensures Present(xs, low, high + 1) && Clean(xs)[low..high + 1] == d
  {
    forall k | low <= k <= high ensures xs[k].Some? {
      assert xs[low + (k - low)] == Some(d[k - low]);
    }
  }

  lemma Divided(x: real, n: real)
    requires n != 0.0
    ensures x / n * n == x
  {
  }

  // -- totals and means --------------------------------------------------------------------

  /** A leg without gaps has its sum, and a mean that times the number of its bars is the sum. */
  lemma TotalMeans(ep: SideEpisode, xs: Series, leg: Leg, t: nat, q: Query, d: seq<real>)
    requires Tables(ep, |xs|) && t < |xs| && LegAt(ep, |xs|, t, leg) == Some(q) && Values(xs, q.low, q.high, d)
    ensures LegTotal(ep, xs, leg, t) == Some(SumAll(d))
    ensures LegMean(ep, xs, leg, t).Some? && LegMean(ep, xs, leg, t).value * |d| as real == SumAll(d)
  {
    hide Tables, LegAt, SumAll;
    ValuesAreSlice(xs, q.low, q.high, d);
    Divided(SumAll(d), |d| as real);
  }

  /** A missing leg or a gap in it leaves every measure of its values missing. */
  lemma GapMeans(ep: SideEpisode, xs: Series, leg: Leg, share: real, t: nat, k: nat)
    requires Tables(ep, |xs|) && t < |xs|
    requires var q := LegAt(ep, |xs|, t, leg); q.None? || (q.value.low <= k <= q.value.high && xs[k].None?)
    ensures LegTotal(ep, xs, leg, t).None? && LegMean(ep, xs, leg, t).None? && LegTopMean(ep, xs, leg, share, t).None?
  {
    hide Tables, LegAt;
  }

  /** The mean of the largest share: `k` is the least count of at least one that is not below the share of the
      bars, and the mean times `k` is the sum of the `k` largest values. */
  lemma TopMeanMeans(ep: SideEpisode, xs: Series, leg: Leg, share: real, t: nat, q: Query, d: seq<real>, k: nat)
    requires Tables(ep, |xs|) && t < |xs| && LegAt(ep, |xs|, t, leg) == Some(q) && Values(xs, q.low, q.high, d)
    requires k >= 1 && k as real >= share * |d| as real && (k == 1 || (k - 1) as real < share * |d| as real)
    ensures LegTopMean(ep, xs, leg, share, t).Some?
    ensures LegTopMean(ep, xs, leg, share, t).value * k as real == TopSum(d, k)
  {
    hide Tables, LegAt, TopSum, TopCount, Clean, Present;
    ValuesAreSlice(xs, q.low, q.high, d);
    LeastCount(share, |d|, k);
    assert LegValues(ep, xs, leg, t) == Some(d);
    MeanOfTop(d, k);
  }

  lemma MeanOfTop(d: seq<real>, k: nat)
    requires k >= 1
    ensures TopSum(d, k) / k as real * k as real == TopSum(d, k)
  {
    hide TopSum;
    Divided(TopSum(d, k), k as real);
  }

  lemma LeastCount(share: real, n: nat, k: nat)
    requires k >= 1 && k as real >= share * n as real && (k == 1 || (k - 1) as real < share * n as real)
    ensures TopCount(share, n) == k
  {
    var x := share * n as real;
    assert x.Floor as real <= x < (x.Floor + 1) as real;
  }

  // -- efficiency ----------------------------------------------------------------------------

  /** The lengths of the single steps of a list of closes. */
  ghost predicate Steps(d: seq<real>, steps: seq<real>) {
    && |d| == |steps| + 1
    && forall i | 0 <= i < |steps| :: steps[i] >= 0.0 && (d[i + 1] == d[i] + steps[i] || d[i + 1] == d[i] - steps[i])
  }

  lemma {:induction false} PathIsSteps(xs: seq<real>, a: nat, z: nat, steps: seq<real>)
    requires a <= z < |xs| && Steps(xs[a..z + 1], steps)
    ensures PathLength(xs, a, z) == Sum(steps, 0, |steps|)
  {
    if a < z {
      var d, rest := xs[a..z + 1], steps[..|steps| - 1];
      assert xs[a..z] == d[..|d| - 1];
      assert forall i | 0 <= i < |rest| :: rest[i] == steps[i];
      PathIsSteps(xs, a, z - 1, rest);
      PartSum(steps, rest, |rest|);
      assert d[|rest|] == xs[z - 1] && d[|rest| + 1] == xs[z];
    }
  }

  lemma {:induction false} PartSum(xs: seq<real>, ys: seq<real>, k: nat)
    requires k <= |xs| && k <= |ys| && forall i | 0 <= i < k :: xs[i] == ys[i]
    ensures Sum(xs, 0, k) == Sum(ys, 0, k)
  {
    if k > 0 {
      PartSum(xs, ys, k - 1);
    }
  }

  /** The closes measured run from the origin to the peak, or from the peak to the evaluated bar. */
  lemma CloseEndsMean(ep: SideEpisode, n: nat, leg: Leg, t: nat, wave: Wave)
    requires Tables(ep, n) && t < n && WaveAt(ep, n, t) == Some(wave)
    ensures CloseEnds(ep, n, leg, t).Some?
    ensures leg.Impulse? ==>
              CloseEnds(ep, n, leg, t).value.low == wave.origin && CloseEnds(ep, n, leg, t).value.high == wave.peak
    ensures leg.Pullback? ==> CloseEnds(ep, n, leg, t).value.low == wave.peak && CloseEnds(ep, n, leg, t).value.high == t
  {
  }

  /** Efficiency times the length of the path is the distance between the first and the last close. It is there
      when the closes move at all. */
  lemma EfficiencyMeans(ep: SideEpisode, close: Series, leg: Leg, t: nat, q: Query, d: seq<real>, steps: seq<real>)
    requires Tables(ep, |close|) && t < |close| && CloseEnds(ep, |close|, leg, t) == Some(q)
    requires Values(close, q.low, q.high, d) && Steps(d, steps)
    ensures EfficiencyAt(ep, close, leg, t).Some? <==> SumAll(steps) > 0.0
    ensures var v := EfficiencyAt(ep, close, leg, t);
            v.Some? ==>
              && v.value >= 0.0
              && (v.value * SumAll(steps) == d[|d| - 1] - d[0] || v.value * SumAll(steps) == d[0] - d[|d| - 1])
  {
    hide Tables, CloseEnds, PathLength, LegMeasures.Distance, SumAll, Steps, Clean, Present;
    ValuesAreSlice(close, q.low, q.high, d);
    var clean := Clean(close);
    assert clean[q.low] == clean[q.low..q.high + 1][0];
    assert clean[q.high] == clean[q.low..q.high + 1][|d| - 1];
    SumIsPath(clean, q.low, q.high, steps);
    EfficiencyIsBounded(ep, close, leg, t);
    NetOverPath(d[|d| - 1], d[0], SumAll(steps));
  }

  lemma SumIsPath(xs: seq<real>, a: nat, z: nat, steps: seq<real>)
    requires a <= z < |xs| && Steps(xs[a..z + 1], steps)
    ensures PathLength(xs, a, z) == SumAll(steps)
    ensures SumAll(steps) > 0.0 ==> a < z
  {
    PathIsSteps(xs, a, z, steps);
  }

  lemma NetOverPath(b: real, a: real, run: real)
    ensures run > 0.0 ==> LegMeasures.Distance(b, a) / run * run == b - a || LegMeasures.Distance(b, a) / run * run == a - b
  {
    if run > 0.0 {
      Divided(LegMeasures.Distance(b, a), run);
    }
  }

  // -- depth -----------------------------------------------------------------------------------

  /** `x` is the deepest price of `d` against the side: the lowest of a long, the highest of a short. */
  ghost predicate Deepest(side: Side, d: seq<real>, x: real) {
    x in d && forall i | 0 <= i < |d| :: if side == Long then x <= d[i] else d[i] <= x
  }

  lemma ExtremeMeans(side: Side, prices: Series, low: nat, high: nat, d: seq<real>, x: real)
    requires Values(prices, low, high, d) && Deepest(side, d, x)
    ensures ExtremeOf(side, prices, low, high) == Some(x)
  {
    ValuesAreSlice(prices, low, high, d);
    var clean := Clean(prices);
    var k :| 0 <= k < |d| && d[k] == x;
    assert clean[low + k] == x;
    forall i | low <= i <= high ensures if side == Long then x <= clean[i] else clean[i] <= x {
      assert clean[i] == d[i - low];
    }
    ExtremeUnique(side == Short, clean, low, high + 1, x);
  }

  /** `v` times the height of the impulse is what the deepest price gave back of it. */
  ghost predicate GaveBack(side: Side, peak: real, origin: real, x: real, v: real) {
    if side == Long then v * (if peak > origin then peak - origin else origin - peak) == peak - x
    else v * (if peak > origin then peak - origin else origin - peak) == x - peak
  }

  lemma DepthIs(side: Side, peak: Option<real>, origin: Option<real>, x: real)
    ensures Depth(side, peak, origin, Some(x)).Some? <==> peak.Some? && origin.Some? && peak != origin
    ensures var v := Depth(side, peak, origin, Some(x)); v.Some? ==> GaveBack(side, peak.value, origin.value, x, v.value)
  {
    if peak.Some? && origin.Some? && peak != origin {
      var height := LegMeasures.Distance(peak.value, origin.value);
      Divided(peak.value - x, height);
      Divided(x - peak.value, height);
    }
  }

  /** The depth of the pullback, with `x` the deepest price from the peak to the evaluated bar. */
  lemma DepthMeans(ep: SideEpisode, prices: Series, t: nat, wave: Wave, d: seq<real>, x: real)
    requires Tables(ep, |prices|) && t < |prices| && WaveAt(ep, |prices|, t) == Some(wave)
    requires Values(prices, wave.peak, t, d) && Deepest(ep.side, d, x)
    ensures var peak, origin := ep.touches[wave.row].peakPrice, ep.touches[wave.row].originPrice;
            && (DepthAt(ep, prices, t).Some? <==> peak.Some? && origin.Some? && peak != origin)
            && (DepthAt(ep, prices, t).Some? ==>
                  GaveBack(ep.side, peak.value, origin.value, x, DepthAt(ep, prices, t).value))
  {
    hide Tables, Depth, GaveBack, WaveAt, ExtremeOf;
    ExtremeMeans(ep.side, prices, wave.peak, t, d, x);
    DepthIs(ep.side, ep.touches[wave.row].peakPrice, ep.touches[wave.row].originPrice, x);
  }

  /** The depth of the touch before, with `x` the deepest price from its peak to the origin of the current wave. */
  lemma PreviousDepthMeans(ep: SideEpisode, prices: Series, t: nat, wave: Wave, p: nat, d: seq<real>, x: real)
    requires Tables(ep, |prices|) && t < |prices| && WaveAt(ep, |prices|, t) == Some(wave)
    requires ep.touchNumber[t].Some? && ep.touchNumber[t].value >= 2 && wave.row >= 1
    requires ep.touches[wave.row - 1].peakBar == Some(p) && p < wave.origin
    requires Values(prices, p, wave.origin, d) && Deepest(ep.side, d, x)
    ensures var peak, origin := ep.touches[wave.row - 1].peakPrice, ep.touches[wave.row - 1].originPrice;
            && (PreviousDepthAt(ep, prices, t).Some? <==> peak.Some? && origin.Some? && peak != origin)
            && (PreviousDepthAt(ep, prices, t).Some? ==>
                  GaveBack(ep.side, peak.value, origin.value, x, PreviousDepthAt(ep, prices, t).value))
  {
    assert ep.touches[wave.row].originBar == Some(wave.origin);
    hide Tables, Depth, GaveBack, WaveAt, ExtremeOf;
    ExtremeMeans(ep.side, prices, p, wave.origin, d, x);
    DepthIs(ep.side, ep.touches[wave.row - 1].peakPrice, ep.touches[wave.row - 1].originPrice, x);
  }

  /** The first touch of an episode has no touch before it. */
  lemma FirstHasNoPrevious(ep: SideEpisode, prices: Series, t: nat)
    requires Tables(ep, |prices|) && t < |prices| && PreviousDepthAt(ep, prices, t).Some?
    ensures ep.touchNumber[t].Some? && ep.touchNumber[t].value >= 2
    ensures WaveAt(ep, |prices|, t).Some? && WaveAt(ep, |prices|, t).value.row >= 1
    ensures var row := WaveAt(ep, |prices|, t).value.row;
            ep.touches[row - 1].peakBar.Some? && ep.touches[row - 1].peakBar.value < WaveAt(ep, |prices|, t).value.origin
  {
    hide Depth, ExtremeOf;
  }

  // -- the forming candle ------------------------------------------------------------------------

  /** Bar `s` opens the bucket that holds bar `i`, on its boundary and without a gap. */
  ghost predicate OpensBucket(time: seq<nat>, tf: nat, base: nat, s: nat, i: nat)
    requires tf > 0
  {
    && s <= i < |time| && time[s] % tf == 0 && time[i] < time[s] + tf
    && forall k | s < k <= i :: time[k] == time[k - 1] + base
  }

  /** Both extremes of the bars `s..i`. */
  ghost predicate Spans(high: Series, low: Series, s: nat, i: nat, top: real, bottom: real) {
    && s <= i < |high| && |low| == |high|
    && (forall k | s <= k <= i :: high[k].Some? && low[k].Some? && high[k].value <= top && bottom <= low[k].value)
    && (exists k | s <= k <= i :: high[k] == Some(top)) && (exists k | s <= k <= i :: low[k] == Some(bottom))
  }

  lemma SameBucket(a: nat, b: nat, tf: nat)
    requires tf > 0 && a % tf == 0 && a <= b < a + tf
    ensures b / tf == a / tf
  {
    var k := a / tf;
    assert a == k * tf;
    assert b - k * tf == b - a;
    assert b / tf == k by {
      QuotientIs(b, k, b - a, tf);
    }
  }

  lemma QuotientIs(b: nat, k: nat, r: nat, tf: nat)
    requires tf > 0 && b == k * tf + r && r < tf
    ensures b / tf == k
  {
    var q, u := b / tf, b % tf;
    assert b == q * tf + u;
    if q > k {
      MoreBuckets(k, q, tf);
    } else if q < k {
      MoreBuckets(q, k, tf);
    }
  }

  lemma {:induction false} MoreBuckets(k: nat, q: nat, tf: nat)
    requires q > k
    ensures q * tf >= k * tf + tf
    decreases q
  {
    assert q * tf == (q - 1) * tf + tf;
    if q > k + 1 {
      MoreBuckets(k, q - 1, tf);
    }
  }

  lemma BeforeBucket(a: nat, b: nat, tf: nat)
    requires tf > 0 && b % tf == 0 && a < b
    ensures a / tf != b / tf
  {
    assert b == (b / tf) * tf && a == (a / tf) * tf + a % tf;
  }

  lemma InsideBucket(a: nat, b: nat, tf: nat)
    requires tf > 0 && a % tf == 0 && b / tf == a / tf
    ensures a <= b < a + tf
  {
    assert a == (a / tf) * tf && b == (b / tf) * tf + b % tf;
  }

  lemma {:induction false} StaysInBucket(time: seq<nat>, tf: nat, base: nat, s: nat, i: nat)
    requires tf > 0 && OpensBucket(time, tf, base, s, i)
    requires s == 0 || time[s - 1] < time[s]
    ensures BucketStart(time, tf, i) == s && time[i] / tf == time[s] / tf
    decreases i
  {
    Later(time, base, s, i);
    SameBucket(time[s], time[i], tf);
    if s < i {
      Later(time, base, s, i - 1);
      StaysInBucket(time, tf, base, s, i - 1);
    } else if s > 0 {
      BeforeBucket(time[s - 1], time[s], tf);
    }
  }

  lemma {:induction false} Later(time: seq<nat>, base: nat, s: nat, i: nat)
    requires s <= i < |time| && forall k | s < k <= i :: time[k] == time[k - 1] + base
    ensures time[s] <= time[i]
  {
    if s < i {
      Later(time, base, s, i - 1);
    }
  }

  lemma ExtremeOfBars(largest: bool, xs: Series, s: nat, i: nat, x: real)
    requires s <= i < |xs| && forall k | s <= k <= i :: xs[k].Some? && if largest then xs[k].value <= x else x <= xs[k].value
    requires exists k | s <= k <= i :: xs[k] == Some(x)
    ensures Extreme(largest, Clean(xs), s, i + 1) == x
  {
    var k :| s <= k <= i && xs[k] == Some(x);
    assert Clean(xs)[k] == x;
    ExtremeUnique(largest, Clean(xs), s, i + 1, x);
  }

  /** The range of the forming candle: with its bucket opened by bar `s` and its bars so far between `bottom`
      and `top`, times the ATR on the opening bar it is their difference. */
  lemma FormingMeans(
      time: seq<nat>, high: Series, low: Series, atr: Series, tf: nat, base: nat, s: nat, i: nat, top: real, bottom: real)
    requires tf > 0 && |high| == |low| == |atr| == |time| && OpensBucket(time, tf, base, s, i)
    requires s == 0 || time[s - 1] < time[s]
    requires Spans(high, low, s, i, top, bottom)
    ensures var v := FormingRangeAt(time, high, low, atr, tf, base, i);
            && (v.Some? <==> atr[s].Some? && atr[s].value > 0.0)
            && (v.Some? ==> v.value * atr[s].value == top - bottom)
  {
    hide BucketStart, Extreme;
    StaysInBucket(time, tf, base, s, i);
    ExtremeOfBars(true, high, s, i, top);
    ExtremeOfBars(false, low, s, i, bottom);
    if atr[s].Some? && atr[s].value > 0.0 {
      Divided(top - bottom, atr[s].value);
    }
  }

  lemma {:induction false} StartIsInBucket(time: seq<nat>, tf: nat, i: nat)
    requires tf > 0 && i < |time|
    ensures time[BucketStart(time, tf, i)] / tf == time[i] / tf
  {
    if i > 0 && time[i] / tf == time[i - 1] / tf {
      StartIsInBucket(time, tf, i - 1);
    }
  }

  /** A forming candle with a range has its bucket opened by a bar with a positive ATR, and no bar is missing. */
  lemma FormingHasBucket(time: seq<nat>, high: Series, low: Series, atr: Series, tf: nat, base: nat, i: nat)
    requires tf > 0 && i < |time| && |high| == |low| == |atr| == |time|
    requires FormingRangeAt(time, high, low, atr, tf, base, i).Some?
    ensures exists s: nat | OpensBucket(time, tf, base, s, i) ::
              && atr[s].Some? && atr[s].value > 0.0
              && forall k | s <= k <= i :: high[k].Some? && low[k].Some?
  {
    hide Extreme;
    var s := BucketStart(time, tf, i);
    StartIsInBucket(time, tf, i);
    InsideBucket(time[s], time[i], tf);
    assert OpensBucket(time, tf, base, s, i);
  }
}
