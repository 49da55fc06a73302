/** The aggregate of a series over a leg of the current touch (`segment_values`): the direct definition over
    the window, and the fast form that prefix sums, a sparse table and sorted windows compute. */
module SegmentValues {
  import opened NodeProgram
  import opened EpisodeTables
  import opened WindowMath
  import opened SortedWindow
  import opened TouchLegs

  datatype Point = Origin | Peak | TouchPoint | Now | NextOrigin

  /** A level, the one-bar or `span`-bar changes, or the changes since the window's first bar. */
  datatype Form = Level | Changes | FromStart

  datatype Aggregate = SumOf | MeanPerBar | MaxOf | MinOf | AbsSum | TopAbsSum | TopAbsShare

  datatype Legs = Legs(legsMinBars: Option<nat>, window: Option<nat>, impulsePositive: bool, pullbackMinBars: Option<nat>)

  datatype Spec = Spec(
    start: Point, end: Point, previous: bool, form: Form, aggregate: Aggregate, lastN: Option<nat>,
    negate: bool, span: Option<nat>, top: nat, eligibility: Option<Legs>, includeStart: bool, emptyEnd: bool)

  predicate Extremal(a: Aggregate) {
    a == MaxOf || a == MinOf
  }

  predicate Averaging(a: Aggregate) {
    a == SumOf || a == MeanPerBar
  }

  predicate OfMagnitudes(a: Aggregate) {
    a == AbsSum || a == TopAbsSum || a == TopAbsShare
  }

  /** The leg's two ends as the parser pairs them. */
  predicate Paired(s: Spec) {
    || (s.start == Origin && s.end == Peak)
    || (s.start == Origin && s.end == Now && !s.previous)
    || (s.start == Peak && (s.end == Now || s.end == TouchPoint) && !s.previous)
    || (s.start == Peak && s.end == NextOrigin && s.previous)
  }

  /** What the parser admits. */
  predicate Admitted(s: Spec) {
    && Paired(s)
    && (s.lastN.Some? ==> s.lastN.value >= 1) && (s.span.Some? ==> s.span.value >= 1 && s.form == Changes)
    && (s.form == FromStart ==> !OfMagnitudes(s.aggregate) && s.lastN.None?)
    && (s.form == Level ==> !OfMagnitudes(s.aggregate))
    && (s.span.Some? ==> !Averaging(s.aggregate))
    && (s.aggregate == TopAbsSum || s.aggregate == TopAbsShare ==> s.top >= 1 && s.lastN.Some?)
    && (s.eligibility.Some? && s.eligibility.value.impulsePositive ==> s.eligibility.value.window.Some?)
    && (s.eligibility.Some? && s.eligibility.value.window.Some? ==> s.eligibility.value.window.value >= 1)
  }

  // -- the window ------------------------------------------------------------------------

  function PointOf(touch: TouchRow, t: nat, p: Point): Option<int> {
    match p
    case Origin => touch.originBar
    case Peak => touch.peakBar
    case TouchPoint => touch.touchBar
    case Now => Some(t)
    case NextOrigin => None
  }

  /** The two ends of the leg, before any boundary policy. */
  function EndsAt(ep: SideEpisode, n: nat, s: Spec, t: nat): (Option<int>, Option<int>)
    requires Tables(ep, n) && t < n
  {
    var row := RowAt(ep, t);
    if row.None? then (None, None)
    else if !s.previous then
      (PointOf(ep.touches[row.value], t, s.start), PointOf(ep.touches[row.value], t, s.end))
    else if ep.touchNumber[t].value < 2 then (None, None)
    else
      var earlier := ep.touches[row.value - 1];
      (PointOf(earlier, t, s.start),
       if s.end == NextOrigin then ep.touches[row.value].originBar else PointOf(earlier, t, s.end))
  }

  function Larger(a: int, b: int): int {
    if a < b then b else a
  }

  /** The window of bars, both ends inclusive and none after the evaluated bar. */
  function WindowAt(ep: SideEpisode, n: nat, s: Spec, t: nat): (w: Option<Query>)
    requires Tables(ep, n) && t < n && Admitted(s)
    ensures w.Some? ==> w.value.low <= w.value.high <= t
    ensures w.Some? && s.lastN.Some? ==> w.value.high - w.value.low + 1 <= s.lastN.value
  {
    var (begin, end) := EndsAt(ep, n, s, t);
    if begin.None? || end.None? || end.value > t || begin.value < 0 then None
    else if begin.value > end.value || (s.end == NextOrigin && begin.value == end.value) then None
    else
      var a := if s.includeStart || (s.emptyEnd && begin.value == end.value) then begin.value else begin.value + 1;
      if a > end.value then None
      else if s.lastN.None? then Some(Query(a, end.value))
      else Some(Query(Larger(a, end.value - s.lastN.value + 1), end.value))
  }

  // -- the direct definition ---------------------------------------------------------------

  function Slice(xs: seq<real>, s: nat, e: nat): seq<real>
    requires s <= e <= |xs|
  {
    xs[s..e]
  }

  /** The changes over `span` bars that end at the bars `low..high`. */
  function ChangesOver(xs: seq<real>, low: nat, high: nat, span: nat): (d: seq<real>)
    requires span <= low <= high < |xs|
    ensures |d| == high - low + 1
  {
    seq(high - low + 1, i requires 0 <= i < high - low + 1 => xs[low + i] - xs[low + i - span])
  }

  /** The changes since the first bar of the window. */
  function SinceStart(xs: seq<real>, low: nat, high: nat): (d: seq<real>)
    requires low <= high < |xs|
    ensures |d| == high - low + 1
  {
    seq(high - low + 1, i requires 0 <= i < high - low + 1 => xs[low + i] - xs[low])
  }

  function Magnitudes(xs: seq<real>): (d: seq<real>)
    ensures |d| == |xs| && forall i | 0 <= i < |xs| :: d[i] >= 0.0 && (d[i] == xs[i] || d[i] == -xs[i])
  {
    seq(|xs|, i requires 0 <= i < |xs| => if xs[i] < 0.0 then -xs[i] else xs[i])
  }

  /** `(share - top / N) / (1 - top / N)` of the largest magnitudes among `N`; missing for a zero total or a
      window no larger than `top`. */
  function Share(magnitudes: seq<real>, top: nat): Option<real>
    requires |magnitudes| > 0
  {
    var n, total := |magnitudes| as real, SumAll(magnitudes);
    if total <= 0.0 || |magnitudes| <= top then None else
    var floor := top as real / n;
    Some((TopSum(magnitudes, top) / total - floor) / (1.0 - floor))
  }

  function Largest(a: Aggregate): bool {
    a == MaxOf
  }

  function Combine(a: Aggregate, top: nat, d: seq<real>): Option<real>
    requires |d| > 0
  {
    match a
    case SumOf => Some(SumAll(d))
    case MeanPerBar => Some(SumAll(d) / |d| as real)
    case MaxOf => Some(Extreme(true, d, 0, |d|))
    case MinOf => Some(Extreme(false, d, 0, |d|))
    case AbsSum => Some(SumAll(Magnitudes(d)))
    case TopAbsSum => Some(TopSum(Magnitudes(d), top))
    case TopAbsShare => Share(Magnitudes(d), top)
  }

  function SpanOf(s: Spec): nat {
    if s.span.Some? then s.span.value else 1
  }

  /** The aggregate over a window, straight from the values in it: missing where a needed value is, where a
      change reaches before the series, and where the span does not fit. */
  function OverWindow(xs: Series, s: Spec, w: Query): Option<real>
    requires w.low <= w.high < |xs| && (s.span.Some? ==> s.span.value >= 1)
  {
    var clean := Clean(xs);
    match s.form
    case Level =>
      if Present(xs, w.low, w.high + 1) then Combine(s.aggregate, s.top, Slice(clean, w.low, w.high + 1)) else None
    case FromStart =>
      if Present(xs, w.low, w.high + 1) then Combine(s.aggregate, s.top, SinceStart(clean, w.low, w.high)) else None
    case Changes =>
      var first := w.low + SpanOf(s) - 1;
      if w.low >= 1 && Present(xs, w.low - 1, w.high + 1) && first <= w.high
      then Combine(s.aggregate, s.top, ChangesOver(clean, first, w.high, SpanOf(s)))
      else None
  }

  /** Both legs of the current touch are long enough, and the impulse went the trade's way. */
  predicate Eligible(ep: SideEpisode, n: nat, xs: Series, legs: Legs, t: nat)
    requires Tables(ep, n) && t < n == |xs|
    requires legs.impulsePositive ==> legs.window.Some?
    requires legs.window.Some? ==> legs.window.value >= 1
  {
    var wave := WaveAt(ep, n, t);
    && wave.Some?
    && var o, p := wave.value.origin, wave.value.peak;
    && (legs.pullbackMinBars.Some? ==> t - p + 1 >= legs.pullbackMinBars.value)
    && (legs.legsMinBars.Some? ==>
          p - o + 1 >= legs.legsMinBars.value && t - p + 1 >= legs.legsMinBars.value)
    && (legs.window.Some? ==>
          var i := Larger(o, p - legs.window.value + 1) - 1;
          var b := Larger(p, t - legs.window.value + 1) - 1;
          && i >= 0 && b >= 0 && Present(xs, i, p + 1) && Present(xs, b, t + 1)
          && (legs.impulsePositive ==> Clean(xs)[p] - Clean(xs)[i] > 0.0))
  }

  function Signed(negate: bool, x: Option<real>): Option<real> {
    if negate && x.Some? then Some(-x.value) else x
  }

  /** The segment on bar `t`. */
  function SegmentAt(ep: SideEpisode, xs: Series, s: Spec, t: nat): Option<real>
    requires Tables(ep, |xs|) && t < |xs| && Admitted(s)
  {
    var w := WindowAt(ep, |xs|, s, t);
    if w.None? || (s.eligibility.Some? && !Eligible(ep, |xs|, xs, s.eligibility.value, t)) then None
    else Signed(s.negate, OverWindow(xs, s, w.value))
  }

  // -- nothing after the evaluated bar is read -----------------------------------------------

  lemma OverWindowLocal(xs: Series, ys: Series, s: Spec, w: Query, t: nat)
    requires AgreeTo(xs, ys, t) && w.low <= w.high <= t && Admitted(s)
    ensures OverWindow(xs, s, w) == OverWindow(ys, s, w)
  {
    hide Combine, Present;
    PresentLocal(xs, ys, t, w.low, w.high + 1);
    PresentLocal(xs, ys, t, w.low - 1, w.high + 1);
    CleanLocal(xs, ys, t);
    var a, b := Clean(xs), Clean(ys);
    var first := w.low + SpanOf(s) - 1;
    assert Slice(a, w.low, w.high + 1) == Slice(b, w.low, w.high + 1);
    assert SinceStart(a, w.low, w.high) == SinceStart(b, w.low, w.high);
    if SpanOf(s) <= first <= w.high {
      assert ChangesOver(a, first, w.high, SpanOf(s)) == ChangesOver(b, first, w.high, SpanOf(s));
    }
  }

  lemma EligibleLocal(ep: SideEpisode, xs: Series, ys: Series, legs: Legs, t: nat)
    requires Tables(ep, |xs|) && |xs| == |ys| && AgreeTo(xs, ys, t)
    requires legs.impulsePositive ==> legs.window.Some?
    requires legs.window.Some? ==> legs.window.value >= 1
    ensures Eligible(ep, |xs|, xs, legs, t) == Eligible(ep, |ys|, ys, legs, t)
  {
    var wave := WaveAt(ep, |xs|, t);
    CleanLocal(xs, ys, t);
    if wave.Some? && legs.window.Some? {
      var o, p := wave.value.origin, wave.value.peak;
      PresentLocal(xs, ys, t, Larger(o, p - legs.window.value + 1) - 1, p + 1);
      PresentLocal(xs, ys, t, Larger(p, t - legs.window.value + 1) - 1, t + 1);
    }
  }

  /** No look-ahead: whatever happens to the series after bar `t`, its value there stays. */
  lemma SegmentReadsNothingLater(ep: SideEpisode, xs: Series, ys: Series, s: Spec, t: nat)
    requires Tables(ep, |xs|) && |xs| == |ys| && AgreeTo(xs, ys, t) && Admitted(s)
    ensures SegmentAt(ep, xs, s, t) == SegmentAt(ep, ys, s, t)
  {
    hide OverWindow, Eligible, WindowAt;
    var w := WindowAt(ep, |xs|, s, t);
    if w.Some? {
      OverWindowLocal(xs, ys, s, w.value, t);
    }
    if s.eligibility.Some? {
      EligibleLocal(ep, xs, ys, s.eligibility.value, t);
    }
  }

  // -- the share is a share --------------------------------------------------------------------

  lemma Normalised(share: real, floor: real)
    requires floor <= share <= 1.0 && 0.0 <= floor < 1.0
    ensures 0.0 <= (share - floor) / (1.0 - floor) <= 1.0
  {
    RatioOrder(0.0, 1.0, share - floor, 1.0 - floor);
    RatioOrder(share - floor, 1.0 - floor, 1.0, 1.0);
  }

  /** The normalised share of the largest changes lies between 0 (an even window) and 1 (a window made by the
      largest changes alone). */
  lemma ShareIsBounded(magnitudes: seq<real>, top: nat)
    requires |magnitudes| > 0 && top >= 1 && forall x | x in magnitudes :: x >= 0.0
    ensures var v := Share(magnitudes, top); v.Some? ==> 0.0 <= v.value <= 1.0
  {
    hide TopSum, SumAll;
    var n, total := |magnitudes| as real, SumAll(magnitudes);
    if total > 0.0 && |magnitudes| > top {
      TopHoldsItsShare(magnitudes, top);
      TopHoldsAtMostAll(magnitudes, top);
      RatioOrder(top as real, n, TopSum(magnitudes, top), total);
      RatioOrder(TopSum(magnitudes, top), total, 1.0, 1.0);
      RatioOrder(top as real, n, 1.0, 1.0);
      StrictRatio(top as real, n);
      Normalised(TopSum(magnitudes, top) / total, top as real / n);
    }
  }

  lemma StrictRatio(a: real, b: real)
    requires 0.0 <= a < b
    ensures 0.0 <= a / b < 1.0
  {
    assert (a / b) * b == a;
  }

  lemma ConcentrationIsBounded(ep: SideEpisode, xs: Series, s: Spec, t: nat)
    requires Tables(ep, |xs|) && t < |xs| && Admitted(s) && s.aggregate == TopAbsShare
    ensures var v := SegmentAt(ep, xs, s, t);
            v.Some? ==> if s.negate then -1.0 <= v.value <= 0.0 else 0.0 <= v.value <= 1.0
  {
    hide WindowAt, Eligible, Share, Tables;
    var w := WindowAt(ep, |xs|, s, t);
    if w.Some? {
      OverWindowShare(xs, s, w.value);
    }
  }

  lemma OverWindowShare(xs: Series, s: Spec, w: Query)
    requires w.low <= w.high < |xs| && Admitted(s) && s.aggregate == TopAbsShare
    ensures var v := OverWindow(xs, s, w); v.Some? ==> 0.0 <= v.value <= 1.0
  {
    hide Share;
    var first := w.low + SpanOf(s) - 1;
    if s.form == Changes && w.low >= 1 && first <= w.high {
      var d := ChangesOver(Clean(xs), first, w.high, SpanOf(s));
      ShareIsBounded(Magnitudes(d), s.top);
    }
  }
}
