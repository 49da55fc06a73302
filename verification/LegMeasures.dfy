/** Measures over a leg of the current touch: totals and means, the mean of the largest values, the efficiency of
    its closes, the depth of its pullback, and the range of the forming candle. Each incremental loop gives what
    recomputing from the leg's own bars gives. */
module LegMeasures {
  import opened NodeProgram
  import opened EpisodeTables
  import opened WindowMath
  import opened SortedWindow
  import opened TouchLegs

  // -- totals and means --------------------------------------------------------------------

  /** The values of a leg, if it exists and nothing in it is missing. */
  function LegValues(ep: SideEpisode, xs: Series, leg: Leg, t: nat): Option<seq<real>>
    requires Tables(ep, |xs|) && t < |xs|
  {
    var q := LegAt(ep, |xs|, t, leg);
    if q.Some? && Present(xs, q.value.low, q.value.high + 1) then Some(Clean(xs)[q.value.low..q.value.high + 1]) else None
  }

  function LegTotal(ep: SideEpisode, xs: Series, leg: Leg, t: nat): Option<real>
    requires Tables(ep, |xs|) && t < |xs|
  {
    var values := LegValues(ep, xs, leg, t);
    if values.None? then None else Some(SumAll(values.value))
  }

  function LegMean(ep: SideEpisode, xs: Series, leg: Leg, t: nat): Option<real>
    requires Tables(ep, |xs|) && t < |xs|
  {
    var values := LegValues(ep, xs, leg, t);
    if values.None? || |values.value| == 0 then None else Some(SumAll(values.value) / |values.value| as real)
  }

  lemma {:induction false} SumOfPart(xs: seq<real>, s: nat, e: nat, k: nat)
    requires s <= e <= |xs| && k <= e - s
    ensures Sum(xs[s..e], 0, k) == Sum(xs, s, s + k)
  {
    if k > 0 {
      SumOfPart(xs, s, e, k - 1);
    }
  }

  method TotalRow(
    ep: SideEpisode, xs: Series, bad: seq<nat>, cumulative: seq<real>, leg: Leg, t: nat)
    returns (total: Option<real>, mean: Option<real>)
    requires Tables(ep, |xs|) && t < |xs| && MissingCounts(xs, bad) && PrefixSums(Clean(xs), cumulative)
    ensures total == LegTotal(ep, xs, leg, t) && mean == LegMean(ep, xs, leg, t)
  {
    hide Tables, Sum, CountMissing, LegAt;
    var q := LegAt(ep, |xs|, t, leg);
    if q.None? {
      return None, None;
    }
    var low, high := q.value.low, q.value.high;
    NothingMissing(xs, low, high + 1);
    if bad[high + 1] != bad[low] {
      return None, None;
    }
    PrefixDifference(Clean(xs), cumulative, low, high + 1);
    SumOfPart(Clean(xs), low, high + 1, high + 1 - low);
    var sum := cumulative[high + 1] - cumulative[low];
    return Some(sum), Some(sum / (high - low + 1) as real);
  }

  /** Both the sum and the mean of every leg by prefix sums. */
  method LegTotals(ep: SideEpisode, xs: Series, leg: Leg) returns (totals: Series, means: Series)
    requires Tables(ep, |xs|)
    ensures |totals| == |xs| && |means| == |xs|
    ensures forall t | 0 <= t < |xs| :: totals[t] == LegTotal(ep, xs, leg, t) && means[t] == LegMean(ep, xs, leg, t)
  {
    hide Tables, LegTotal, LegMean;
    var bad := CumulateMissing(xs);
    var cumulative := Cumulate(Clean(xs));
    totals, means := [], [];
    var t := 0;
    while t < |xs|
      invariant 0 <= t <= |xs| && |totals| == |means| == t
      invariant forall k | 0 <= k < t :: totals[k] == LegTotal(ep, xs, leg, k) && means[k] == LegMean(ep, xs, leg, k)
    {
      var total, mean := TotalRow(ep, xs, bad, cumulative, leg, t);
      totals, means := totals + [total], means + [mean];
      t := t + 1;
    }
  }

  // -- the mean of the largest values ------------------------------------------------------

  function Ceiling(x: real): int {
    if x.Floor as real == x then x.Floor else x.Floor + 1
  }

  /** How many values count as the largest `share` of `n`: at least one. */
  function TopCount(share: real, n: nat): nat {
    var k := Ceiling(share * n as real);
    if k < 1 then 1 else k
  }

  /** The mean of the largest values of an ascending list. */
  function TopMean(ordered: seq<real>, share: real): real {
    var k := TopCount(share, |ordered|);
    Sum(ordered, |ordered| - Least(k, |ordered|), |ordered|) / k as real
  }

  function LegTopMean(ep: SideEpisode, xs: Series, leg: Leg, share: real, t: nat): Option<real>
    requires Tables(ep, |xs|) && t < |xs|
  {
    var values := LegValues(ep, xs, leg, t);
    if values.None? then None
    else
      var k := TopCount(share, |values.value|);
      Some(TopSum(values.value, k) / k as real)
  }

  /** The window kept between two bars: the sorted values of a stretch of bars. */
  datatype Kept = Nothing | Kept(low: nat, high: nat, window: seq<real>)

  ghost predicate KeptRight(clean: seq<real>, kept: Kept) {
    kept.Kept? ==> kept.low <= kept.high < |clean| && kept.window == Sorted(clean[kept.low..kept.high + 1])
  }

  lemma TopMeanIs(values: seq<real>, ordered: seq<real>, share: real)
    requires ordered == Sorted(values)
    ensures |ordered| == |values|
    ensures TopMean(ordered, share) == TopSum(values, TopCount(share, |values|)) / TopCount(share, |values|) as real
  {
    hide Sum, Sorted, TopCount;
    SortedAscends(values);
  }

  lemma TopMeanOfLeg(ep: SideEpisode, xs: Series, leg: Leg, share: real, t: nat)
    requires Tables(ep, |xs|) && t < |xs|
    ensures var q := LegAt(ep, |xs|, t, leg);
            LegTopMean(ep, xs, leg, share, t) ==
              if q.Some? && Present(xs, q.value.low, q.value.high + 1)
              then Some(TopMean(Sorted(Clean(xs)[q.value.low..q.value.high + 1]), share)) else None
  {
    hide Tables, Sum, Sorted, TopMean, TopSum, TopCount;
    var q := LegAt(ep, |xs|, t, leg);
    if q.Some? && Present(xs, q.value.low, q.value.high + 1) {
      var part := Clean(xs)[q.value.low..q.value.high + 1];
      TopMeanIs(part, Sorted(part), share);
    }
  }

  /** One more bar at the end of the kept stretch is inserted, any other stretch is sorted anew. */
  method KeepWindow(clean: seq<real>, kept: Kept, low: nat, high: nat) returns (next: Kept)
    requires KeptRight(clean, kept) && low <= high < |clean|
    ensures KeptRight(clean, next) && next.Kept? && next.low == low && next.high == high
  {
    hide Sorted, Insort;
    if kept.Kept? && kept.low == low && high == kept.high + 1 {
      InsortIsSorted(kept.window, clean[low..high], clean[high]);
      assert clean[low..high + 1] == clean[low..high] + [clean[high]];
      next := Kept(low, high, Insort(kept.window, clean[high]));
    } else {
      next := Kept(low, high, Sorted(clean[low..high + 1]));
    }
  }

  /** The mean of the largest values of every leg: impulses are remembered by their ends, the pullback's window
      stays sorted while it grows. */
  method LegTopMeans(ep: SideEpisode, xs: Series, leg: Leg, share: real) returns (out: Series)
    requires Tables(ep, |xs|)
    ensures |out| == |xs| && forall t | 0 <= t < |xs| :: out[t] == LegTopMean(ep, xs, leg, share, t)
  {
    hide Tables, Sorted, CountMissing, TopMean, LegTopMean, LegAt;
    var clean := Clean(xs);
    var bad := CumulateMissing(xs);
    var cache: map<(nat, nat), real> := map[];
    var kept := Nothing;
    out := [];
    var t := 0;
    while t < |xs|
      invariant 0 <= t <= |xs| && |out| == t && KeptRight(clean, kept)
      invariant CacheRight(clean, share, cache)
      invariant forall k | 0 <= k < t :: out[k] == LegTopMean(ep, xs, leg, share, k)
    {
      TopMeanOfLeg(ep, xs, leg, share, t);
      var q := LegAt(ep, |xs|, t, leg);
      var value := None;
      if q.Some? {
        var low, high := q.value.low, q.value.high;
        NothingMissing(xs, low, high + 1);
        if bad[high + 1] == bad[low] {
          var part := clean[low..high + 1];
          if leg.Impulse? {
            if (low, high) !in cache {
              cache := cache[(low, high) := TopMean(Sorted(part), share)];
            }
            value := Some(cache[(low, high)]);
          } else {
            kept := KeepWindow(clean, kept, low, high);
            value := Some(TopMean(kept.window, share));
          }
        }
      }
      out := out + [value];
      t := t + 1;
    }
  }

  ghost predicate CacheRight(clean: seq<real>, share: real, cache: map<(nat, nat), real>) {
    forall key | key in cache ::
      key.0 <= key.1 < |clean| && cache[key] == TopMean(Sorted(clean[key.0..key.1 + 1]), share)
  }

  // -- efficiency --------------------------------------------------------------------------

  function Distance(a: real, b: real): real {
    if a < b then b - a else a - b
  }

  /** The length of the path of `xs` from bar `a` to bar `z`. */
  function PathLength(xs: seq<real>, a: nat, z: nat): real
    requires a <= z < |xs|
  {
    if a == z then 0.0 else PathLength(xs, a, z - 1) + Distance(xs[z], xs[z - 1])
  }

  /** The ends of a leg whose closes are measured: the pullback starts at the peak. */
  function CloseEnds(ep: SideEpisode, n: nat, leg: Leg, t: nat): (q: Option<Query>)
    requires Tables(ep, n) && t < n
    ensures q.Some? ==> q.value.low <= q.value.high <= t
  {
    var wave := WaveAt(ep, n, t);
    if wave.None? then None
    else if leg.Impulse? then Some(Query(wave.value.origin, wave.value.peak))
    else Some(Query(wave.value.peak, t))
  }

  /** Net move over path length; missing where the leg has one bar, misses a close or does not move. */
  function EfficiencyAt(ep: SideEpisode, close: Series, leg: Leg, t: nat): Option<real>
    requires Tables(ep, |close|) && t < |close|
  {
    var q := CloseEnds(ep, |close|, leg, t);
    if q.None? || !Present(close, q.value.low, q.value.high + 1) then None
    else
      var run := PathLength(Clean(close), q.value.low, q.value.high);
      if q.value.high > q.value.low && run > 0.0
      then Some(Distance(Clean(close)[q.value.high], Clean(close)[q.value.low]) / run)
      else None
  }

  lemma {:induction false} PathSplits(xs: seq<real>, a: nat, m: nat, z: nat)
    requires a <= m <= z < |xs|
    ensures PathLength(xs, a, z) == PathLength(xs, a, m) + PathLength(xs, m, z)
  {
    if m < z {
      PathSplits(xs, a, m, z - 1);
    }
  }

  /** No path is shorter than the straight way. */
  lemma {:induction false} PathIsLonger(xs: seq<real>, a: nat, z: nat)
    requires a <= z < |xs|
    ensures 0.0 <= Distance(xs[z], xs[a]) <= PathLength(xs, a, z)
  {
    if a < z {
      PathIsLonger(xs, a, z - 1);
    }
  }

  /** Efficiency is a share: between 0 and 1. */
  lemma EfficiencyIsBounded(ep: SideEpisode, close: Series, leg: Leg, t: nat)
    requires Tables(ep, |close|) && t < |close|
    ensures var v := EfficiencyAt(ep, close, leg, t); v.Some? ==> 0.0 <= v.value <= 1.0
  {
    hide Tables, PathLength, Distance;
    var v := EfficiencyAt(ep, close, leg, t);
    if v.Some? {
      var q := CloseEnds(ep, |close|, leg, t).value;
      var run := PathLength(Clean(close), q.low, q.high);
      PathIsLonger(Clean(close), q.low, q.high);
      RatioOrder(0.0, 1.0, Distance(Clean(close)[q.high], Clean(close)[q.low]), run);
      RatioOrder(Distance(Clean(close)[q.high], Clean(close)[q.low]), run, 1.0, 1.0);
    }
  }

  method CumulatePath(clean: seq<real>) returns (path: seq<real>)
    ensures |path| == |clean| && forall k | 0 <= k < |clean| :: path[k] == PathLength(clean, 0, k)
  {
    hide Distance;
    path := [];
    var i := 0;
    while i < |clean|
      invariant 0 <= i <= |clean| && |path| == i
      invariant forall k | 0 <= k < i :: path[k] == PathLength(clean, 0, k)
    {
      path := path + [if i == 0 then 0.0 else path[i - 1] + Distance(clean[i], clean[i - 1])];
      i := i + 1;
    }
  }

  /** The efficiency on every bar from cumulated steps and missing counts. */
  method LegEfficiencies(ep: SideEpisode, close: Series, leg: Leg) returns (out: Series)
    requires Tables(ep, |close|)
    ensures |out| == |close| && forall t | 0 <= t < |close| :: out[t] == EfficiencyAt(ep, close, leg, t)
  {
    hide Tables, CountMissing, Distance, PathLength, CloseEnds;
    var clean := Clean(close);
    var bad := CumulateMissing(close);
    var path := CumulatePath(clean);
    out := [];
    var t := 0;
    while t < |close|
      invariant 0 <= t <= |close| && |out| == t
      invariant forall k | 0 <= k < t :: out[k] == EfficiencyAt(ep, close, leg, k)
    {
      var q := CloseEnds(ep, |close|, leg, t);
      var value := None;
      if q.Some? {
        var a, z := q.value.low, q.value.high;
        NothingMissing(close, a, z + 1);
        PathSplits(clean, 0, a, z);
        var run := path[z] - path[a];
        if z > a && bad[z + 1] == bad[a] && run > 0.0 {
          value := Some(Distance(clean[z], clean[a]) / run);
        }
      }
      out := out + [value];
      t := t + 1;
    }
  }

  // -- the depth of the pullback -----------------------------------------------------------

  /** The given-back share of an impulse from `origin` to `peak` at the extreme `ext`. */
  function Depth(side: Side, peak: Option<real>, origin: Option<real>, ext: Option<real>): Option<real> {
    if peak.None? || origin.None? || ext.None? then None
    else
      var height := Distance(peak.value, origin.value);
      if height > 0.0
      then Some((if side == Long then peak.value - ext.value else ext.value - peak.value) / height)
      else None
  }

  /** The extreme of the bars `low..high`: missing when one of them is. */
  function ExtremeOf(side: Side, prices: Series, low: nat, high: nat): Option<real>
    requires low <= high < |prices|
  {
    if Present(prices, low, high + 1) then Some(Extreme(side == Short, Clean(prices), low, high + 1)) else None
  }

  function DepthAt(ep: SideEpisode, prices: Series, t: nat): Option<real>
    requires Tables(ep, |prices|) && t < |prices|
  {
    var wave := WaveAt(ep, |prices|, t);
    if wave.None? then None
    else
      var touch := ep.touches[wave.value.row];
      Depth(ep.side, touch.peakPrice, touch.originPrice, ExtremeOf(ep.side, prices, wave.value.peak, t))
  }

  lemma ExtremeGrows(side: Side, prices: Series, low: nat, t: nat)
    requires low < t < |prices|
    ensures var before, after := ExtremeOf(side, prices, low, t - 1), ExtremeOf(side, prices, low, t);
            after == if before.Some? && prices[t].Some?
                     then Some(Better(side == Short, before.value, prices[t].value)) else None
  {
  }

  /** The depth on every bar; the extreme is carried from bar to bar while the peak stays. */
  method PullbackDepths(ep: SideEpisode, prices: Series) returns (out: Series)
    requires Tables(ep, |prices|)
    ensures |out| == |prices| && forall t | 0 <= t < |prices| :: out[t] == DepthAt(ep, prices, t)
  {
    hide Tables, Extreme, Depth;
    var previous: Option<(nat, nat)>, ext: Option<real> := None, None;
    out := [];
    var t := 0;
    while t < |prices|
      invariant 0 <= t <= |prices| && |out| == t
      invariant previous.Some? ==>
                  previous.value.0 <= previous.value.1 < t
                  && ext == ExtremeOf(ep.side, prices, previous.value.0, previous.value.1)
      invariant forall k | 0 <= k < t :: out[k] == DepthAt(ep, prices, k)
    {
      var wave := WaveAt(ep, |prices|, t);
      var value := None;
      if wave.Some? {
        var p := wave.value.peak;
        if previous == Some((p, t - 1)) {
          ExtremeGrows(ep.side, prices, p, t);
          ext := if ext.Some? && prices[t].Some? then Some(Better(ep.side == Short, ext.value, prices[t].value)) else None;
        } else {
          ext := ExtremeOf(ep.side, prices, p, t);
        }
        previous := Some((p, t));
        var touch := ep.touches[wave.value.row];
        value := Depth(ep.side, touch.peakPrice, touch.originPrice, ext);
      }
      out := out + [value];
      t := t + 1;
    }
  }

  /** The depth of the previous touch's pullback, measured from its peak to the origin of the current wave. */
  function PreviousDepthOf(ep: SideEpisode, prices: Series, row: nat): Option<real>
    requires 0 < row < |ep.touches|
  {
    var earlier, now := ep.touches[row - 1], ep.touches[row];
    if earlier.peakBar.None? || now.originBar.None? then None
    else if 0 <= earlier.peakBar.value < now.originBar.value < |prices|
    then Depth(ep.side, earlier.peakPrice, earlier.originPrice,
               ExtremeOf(ep.side, prices, earlier.peakBar.value, now.originBar.value))
    else None
  }

  function PreviousDepthAt(ep: SideEpisode, prices: Series, t: nat): Option<real>
    requires Tables(ep, |prices|) && t < |prices|
  {
    var wave := WaveAt(ep, |prices|, t);
    if wave.None? || ep.touchNumber[t].value < 2 then None else PreviousDepthOf(ep, prices, wave.value.row)
  }

  /** One value per touch row, remembered; on every bar it is the row's own. */
  method PreviousDepths(ep: SideEpisode, prices: Series) returns (out: Series)
    requires Tables(ep, |prices|)
    ensures |out| == |prices| && forall t | 0 <= t < |prices| :: out[t] == PreviousDepthAt(ep, prices, t)
  {
    hide PreviousDepthOf;
    var cache: map<nat, Option<real>> := map[];
    out := [];
    var t := 0;
    while t < |prices|
      invariant 0 <= t <= |prices| && |out| == t
      invariant forall row | row in cache :: 0 < row < |ep.touches| && cache[row] == PreviousDepthOf(ep, prices, row)
      invariant forall k | 0 <= k < t :: out[k] == PreviousDepthAt(ep, prices, k)
    {
      var wave := WaveAt(ep, |prices|, t);
      var value := None;
      if wave.Some? && ep.touchNumber[t].value >= 2 {
        var row := wave.value.row;
        if row !in cache {
          cache := cache[row := PreviousDepthOf(ep, prices, row)];
        }
        value := cache[row];
      }
      out := out + [value];
      t := t + 1;
    }
  }

  // -- the range of the forming candle -------------------------------------------------------

  /** The first bar of the bucket that holds bar `i`. */
  function BucketStart(time: seq<nat>, tf: nat, i: nat): (s: nat)
    requires tf > 0 && i < |time|
    ensures s <= i
  {
    if i > 0 && time[i] / tf == time[i - 1] / tf then BucketStart(time, tf, i - 1) else i
  }

  /** The bucket starts on its boundary and has no gap up to bar `i`. */
  predicate WholeSoFar(time: seq<nat>, tf: nat, base: nat, i: nat)
    requires tf > 0 && i < |time|
  {
    var s := BucketStart(time, tf, i);
    time[s] % tf == 0 && forall k | s < k <= i :: time[k] == time[k - 1] + base
  }

  /** The range of the forming candle so far, in units of the ATR aligned at its open. */
  function FormingRangeAt(
    time: seq<nat>, high: Series, low: Series, atr: Series, tf: nat, base: nat, i: nat): Option<real>
    requires tf > 0 && i < |time| && |high| == |low| == |atr| == |time|
  {
    var s := BucketStart(time, tf, i);
    if WholeSoFar(time, tf, base, i) && Present(high, s, i + 1) && Present(low, s, i + 1)
       && atr[s].Some? && atr[s].value > 0.0
    then Some((Extreme(true, Clean(high), s, i + 1) - Extreme(false, Clean(low), s, i + 1)) / atr[s].value)
    else None
  }

  /** What the scan carries: the bucket's bars so far are whole and present, with these extremes. */
  ghost predicate Carried(
    time: seq<nat>, high: Series, low: Series, tf: nat, base: nat, i: nat, valid: bool, hi: real, lo: real)
    requires tf > 0 && i < |time| && |high| == |low| == |time|
  {
    var s := BucketStart(time, tf, i);
    && (valid <==> WholeSoFar(time, tf, base, i) && Present(high, s, i + 1) && Present(low, s, i + 1))
    && (valid ==> hi == Extreme(true, Clean(high), s, i + 1) && lo == Extreme(false, Clean(low), s, i + 1))
  }

  lemma CarryOn(
    time: seq<nat>, high: Series, low: Series, tf: nat, base: nat, i: nat, valid: bool, hi: real, lo: real)
    requires tf > 0 && 0 < i < |time| && |high| == |low| == |time| && time[i] / tf == time[i - 1] / tf
    requires Carried(time, high, low, tf, base, i - 1, valid, hi, lo)
    ensures var still := valid && time[i] == time[i - 1] + base && high[i].Some? && low[i].Some?;
            Carried(time, high, low, tf, base, i, still,
                    if still then Better(true, hi, high[i].value) else hi,
                    if still then Better(false, lo, low[i].value) else lo)
  {
    assert BucketStart(time, tf, i) == BucketStart(time, tf, i - 1);
  }

  lemma CarryNew(time: seq<nat>, high: Series, low: Series, tf: nat, base: nat, i: nat)
    requires tf > 0 && i < |time| && |high| == |low| == |time| && (i == 0 || time[i] / tf != time[i - 1] / tf)
    ensures var opens := time[i] % tf == 0 && high[i].Some? && low[i].Some?;
            Carried(time, high, low, tf, base, i, opens,
                    if opens then high[i].value else 0.0, if opens then low[i].value else 0.0)
  {
  }

  /** The forming range on every bar; the ATR is frozen at the open of the bucket. */
  method FormingRanges(time: seq<nat>, high: Series, low: Series, atr: Series, tf: nat, base: nat) returns (out: Series)
    requires tf > 0 && |high| == |low| == |atr| == |time|
    ensures |out| == |time| && forall i | 0 <= i < |time| :: out[i] == FormingRangeAt(time, high, low, atr, tf, base, i)
  {
    hide Extreme, WholeSoFar;
    var valid, hi, lo := false, 0.0, 0.0;
    var denominator: Option<real> := None;
    out := [];
    var i := 0;
    while i < |time|
      invariant 0 <= i <= |time| && |out| == i
      invariant i > 0 ==> Carried(time, high, low, tf, base, i - 1, valid, hi, lo)
      invariant i > 0 ==> denominator == atr[BucketStart(time, tf, i - 1)]
      invariant forall k | 0 <= k < i :: out[k] == FormingRangeAt(time, high, low, atr, tf, base, k)
    {
      if i == 0 || time[i] / tf != time[i - 1] / tf {
        CarryNew(time, high, low, tf, base, i);
        valid := time[i] % tf == 0 && high[i].Some? && low[i].Some?;
        hi, lo := if valid then high[i].value else 0.0, if valid then low[i].value else 0.0;
        denominator := atr[i];
      } else {
        CarryOn(time, high, low, tf, base, i, valid, hi, lo);
        valid := valid && time[i] == time[i - 1] + base && high[i].Some? && low[i].Some?;
        if valid {
          hi, lo := Better(true, hi, high[i].value), Better(false, lo, low[i].value);
        }
      }
      out := out + [if valid && denominator.Some? && denominator.value > 0.0
                    then Some((hi - lo) / denominator.value) else None];
      i := i + 1;
    }
  }

  // -- nothing after the evaluated bar is read -------------------------------------------------

  lemma {:induction false} PathLocal(xs: seq<real>, ys: seq<real>, a: nat, z: nat)
    requires a <= z < |xs| && z < |ys| && forall i | a <= i <= z :: xs[i] == ys[i]
    ensures PathLength(xs, a, z) == PathLength(ys, a, z)
  {
    if a < z {
      PathLocal(xs, ys, a, z - 1);
    }
  }

  lemma ValuesLocal(ep: SideEpisode, xs: Series, ys: Series, leg: Leg, t: nat)
    requires Tables(ep, |xs|) && |xs| == |ys| && AgreeTo(xs, ys, t)
    ensures LegValues(ep, xs, leg, t) == LegValues(ep, ys, leg, t)
  {
    hide Tables, LegAt;
    CleanLocal(xs, ys, t);
    var q := LegAt(ep, |xs|, t, leg);
    if q.Some? {
      PresentLocal(xs, ys, t, q.value.low, q.value.high + 1);
      assert Clean(xs)[q.value.low..q.value.high + 1] == Clean(ys)[q.value.low..q.value.high + 1];
    }
  }

  lemma EfficiencyLocal(ep: SideEpisode, xs: Series, ys: Series, leg: Leg, t: nat)
    requires Tables(ep, |xs|) && |xs| == |ys| && AgreeTo(xs, ys, t)
    ensures EfficiencyAt(ep, xs, leg, t) == EfficiencyAt(ep, ys, leg, t)
  {
    hide Tables, Distance, PathLength, CloseEnds;
    CleanLocal(xs, ys, t);
    var q := CloseEnds(ep, |xs|, leg, t);
    if q.Some? {
      PresentLocal(xs, ys, t, q.value.low, q.value.high + 1);
      PathLocal(Clean(xs), Clean(ys), q.value.low, q.value.high);
    }
  }

  lemma DepthLocal(ep: SideEpisode, xs: Series, ys: Series, t: nat)
    requires Tables(ep, |xs|) && |xs| == |ys| && AgreeTo(xs, ys, t)
    ensures DepthAt(ep, xs, t) == DepthAt(ep, ys, t)
  {
    hide Tables, Depth, Extreme, WaveAt;
    CleanLocal(xs, ys, t);
    var wave := WaveAt(ep, |xs|, t);
    if wave.Some? {
      PresentLocal(xs, ys, t, wave.value.peak, t + 1);
      ExtremeLocal(ep.side == Short, Clean(xs), Clean(ys), wave.value.peak, t + 1);
    }
  }

  /** No look-ahead: what the series does after bar `t` changes no leg measure there. */
  lemma LegsReadNothingLater(ep: SideEpisode, xs: Series, ys: Series, leg: Leg, share: real, t: nat)
    requires Tables(ep, |xs|) && |xs| == |ys| && AgreeTo(xs, ys, t)
    ensures LegTotal(ep, xs, leg, t) == LegTotal(ep, ys, leg, t) && LegMean(ep, xs, leg, t) == LegMean(ep, ys, leg, t)
    ensures LegTopMean(ep, xs, leg, share, t) == LegTopMean(ep, ys, leg, share, t)
    ensures EfficiencyAt(ep, xs, leg, t) == EfficiencyAt(ep, ys, leg, t)
    ensures DepthAt(ep, xs, t) == DepthAt(ep, ys, t)
  {
    hide LegValues, EfficiencyAt, DepthAt, Tables;
    ValuesLocal(ep, xs, ys, leg, t);
    EfficiencyLocal(ep, xs, ys, leg, t);
    DepthLocal(ep, xs, ys, t);
  }
}
