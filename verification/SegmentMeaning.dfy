/** What a segment is, in the bars of the touch table and the values of the series: which touch is current,
    where its window begins and ends, which values are combined, and what the combination satisfies. */
module SegmentMeaning {
  import opened NodeProgram
  import opened EpisodeTables
  import opened WindowMath
  import opened SortedWindow
  import opened TouchLegs
  import opened SegmentValues

  // -- the current touch -------------------------------------------------------------------

  /** Row `row` of the touch table is the touch current on bar `t`: the `number`-th of the live episode, of the
      last episode when its id lies beyond the table. */
  ghost predicate Touched(ep: SideEpisode, t: nat, row: int) {
    && t < |ep.touchNumber| && t < |ep.episodeId| && |ep.firstRow| > 0
    && ep.touchNumber[t].Some? && ep.touchNumber[t].value > 0
    && (ep.episodeId[t] < |ep.firstRow| ==> row == ep.firstRow[ep.episodeId[t]] + ep.touchNumber[t].value - 1)
    && (ep.episodeId[t] >= |ep.firstRow| ==> row == ep.firstRow[|ep.firstRow| - 1] + ep.touchNumber[t].value - 1)
  }

  lemma RowMeans(ep: SideEpisode, n: nat, t: nat, row: int)
    requires Tables(ep, n) && t < n
    ensures RowAt(ep, t) == Some(row) <==> Touched(ep, t, row)
    ensures RowAt(ep, t).None? <==> ep.touchNumber[t] == None || ep.touchNumber[t] == Some(0)
  {
  }

  /** The current touch has a wave from `origin` to `peak`: both bars in order, none after bar `t`. */
  ghost predicate Waves(ep: SideEpisode, t: nat, row: int, origin: int, peak: int) {
    && Touched(ep, t, row) && 0 <= row < |ep.touches|
    && ep.touches[row].originBar == Some(origin) && ep.touches[row].peakBar == Some(peak) && origin <= peak <= t
  }

  lemma WaveMeans(ep: SideEpisode, n: nat, t: nat, row: nat, origin: nat, peak: nat)
    requires Tables(ep, n) && t < n
    ensures WaveAt(ep, n, t) == Some(Wave(origin, peak, row)) <==> Waves(ep, t, row, origin, peak)
  {
    RowMeans(ep, n, t, row);
  }

  /** The impulse runs from the origin to the peak; the pullback is every bar after the peak, if there is one. */
  lemma LegMeans(ep: SideEpisode, n: nat, t: nat, row: nat, origin: nat, peak: nat)
    requires Tables(ep, n) && t < n && Waves(ep, t, row, origin, peak)
    ensures LegAt(ep, n, t, Impulse).Some? && LegAt(ep, n, t, Impulse).value.low == origin
    ensures LegAt(ep, n, t, Impulse).Some? && LegAt(ep, n, t, Impulse).value.high == peak
    ensures LegAt(ep, n, t, Pullback).Some? <==> peak < t
    ensures peak < t ==> LegAt(ep, n, t, Pullback).value.low - 1 == peak && LegAt(ep, n, t, Pullback).value.high == t
  {
    WaveMeans(ep, n, t, row, origin, peak);
  }

  // -- the window --------------------------------------------------------------------------

  /** The touch a segment is about: the current one, or the one before it of the same episode. */
  ghost predicate About(ep: SideEpisode, t: nat, previous: bool, row: int) {
    if previous then Touched(ep, t, row + 1) && ep.touchNumber[t].value >= 2 else Touched(ep, t, row)
  }

  /** The bars a segment lies between, as the touch table holds them. */
  ghost predicate Between(ep: SideEpisode, t: nat, s: Spec, row: int, begin: int, end: int) {
    && About(ep, t, s.previous, row) && 0 <= row < |ep.touches|
    && (s.start == Origin ==> ep.touches[row].originBar == Some(begin))
    && (s.start == Peak ==> ep.touches[row].peakBar == Some(begin))
    && (s.end == Peak ==> ep.touches[row].peakBar == Some(end))
    && (s.end == TouchPoint ==> ep.touches[row].touchBar == Some(end))
    && (s.end == Now ==> end == t)
    && (s.end == NextOrigin ==> row + 1 < |ep.touches| && ep.touches[row + 1].originBar == Some(end))
  }

  lemma EndsMeans(ep: SideEpisode, n: nat, s: Spec, t: nat, row: int, begin: int, end: int)
    requires Tables(ep, n) && t < n && Admitted(s) && About(ep, t, s.previous, row)
    ensures EndsAt(ep, n, s, t) == (Some(begin), Some(end)) <==> Between(ep, t, s, row, begin, end)
  {
    RowMeans(ep, n, t, if s.previous then row + 1 else row);
  }

  /** A window has its touch and both bars, in order and none after bar `t`; a window from a peak to the next
      origin does not start there. */
  lemma WindowHasBars(ep: SideEpisode, n: nat, s: Spec, t: nat)
    requires Tables(ep, n) && t < n && Admitted(s) && WindowAt(ep, n, s, t).Some?
    ensures exists row, begin, end | Between(ep, t, s, row, begin, end) ::
              0 <= begin <= end <= t && (s.end == NextOrigin ==> begin < end)
  {
    var (begin, end) := EndsAt(ep, n, s, t);
    var row := if s.previous then RowAt(ep, t).value - 1 else RowAt(ep, t).value;
    RowMeans(ep, n, t, RowAt(ep, t).value);
    EndsMeans(ep, n, s, t, row, begin.value, end.value);
    assert Between(ep, t, s, row, begin.value, end.value);
  }

  /** The leg counts from its first bar when the segment includes it, or when the leg is that one bar and may
      be (`emptyEnd`), otherwise from the bar after it. */
  ghost predicate CountsFrom(s: Spec, begin: int, end: int, first: int) {
    && (first == begin || first == begin + 1)
    && (first == begin <==> s.includeStart || (s.emptyEnd && begin == end))
  }

  /** A window ends where its leg ends and holds the last `lastN` bars that count, or all of them when there are
      fewer or when no number is given. */
  lemma WindowMeans(ep: SideEpisode, n: nat, s: Spec, t: nat, row: int, begin: int, end: int, first: int)
    requires Tables(ep, n) && t < n && Admitted(s) && Between(ep, t, s, row, begin, end)
    requires end <= t && begin <= end && !(s.end == NextOrigin && begin == end) && CountsFrom(s, begin, end, first)
    ensures WindowAt(ep, n, s, t).None? <==> first > end
    ensures var w := WindowAt(ep, n, s, t);
            w.Some? ==>
              && w.value.high == end && first <= w.value.low
              && (s.lastN.None? ==> w.value.low == first)
              && (s.lastN.Some? && w.value.high - w.value.low + 1 < s.lastN.value ==> w.value.low == first)
              && (s.lastN.Some? ==> w.value.high - w.value.low + 1 <= s.lastN.value)
  {
    EndsMeans(ep, n, s, t, row, begin, end);
    if s.start == Origin {
      assert PastBar(ep.touches[row].originBar);
    } else {
      assert PastBar(ep.touches[row].peakBar);
    }
  }

  // -- the values of the window --------------------------------------------------------------

  /** The values of a segment over the bars `w`: the levels, the changes since the first bar, or the changes
      over `span` bars that lie between the bar before the window and its end. */
  ghost predicate ValuesAre(xs: Series, s: Spec, w: Query, d: seq<real>)
    requires w.low <= w.high < |xs|
  {
    match s.form
    case Level =>
      |d| == w.high - w.low + 1 && forall i | 0 <= i < |d| :: xs[w.low + i] == Some(d[i])
    case FromStart =>
      && |d| == w.high - w.low + 1 && xs[w.low].Some?
      && forall i | 0 <= i < |d| :: xs[w.low + i] == Some(xs[w.low].value + d[i])
    case Changes =>
      var span := if s.span.Some? then s.span.value else 1;
      && |d| > 0 && |d| == w.high - w.low + 2 - span && w.low >= 1
      && (forall k | w.low - 1 <= k <= w.high :: xs[k].Some?)
      && forall i | 0 <= i < |d| && 0 <= w.low - 1 + i + span < |xs| ::
           xs[w.low - 1 + i].Some? && xs[w.low - 1 + i + span] == Some(xs[w.low - 1 + i].value + d[i])
  }

  /** The magnitudes of a list of values. */
  ghost predicate Sizes(d: seq<real>, m: seq<real>) {
    |m| == |d| && forall i | 0 <= i < |d| :: m[i] >= 0.0 && (m[i] == d[i] || m[i] + d[i] == 0.0)
  }

  /** `v` is the combination of `d`; a share is stated with its two quotients cleared. */
  ghost predicate CombinesTo(a: Aggregate, top: nat, d: seq<real>, m: seq<real>, v: real)
    requires |d| > 0 && Sizes(d, m)
  {
    match a
    case SumOf => v == SumAll(d)
    case MeanPerBar => v * |d| as real == SumAll(d)
    case MaxOf => v in d && forall i | 0 <= i < |d| :: d[i] <= v
    case MinOf => v in d && forall i | 0 <= i < |d| :: v <= d[i]
    case AbsSum => v == SumAll(m)
    case TopAbsSum => v == TopSum(m, top)
    case TopAbsShare =>
      v * ((|d| - top) as real * SumAll(m)) + top as real * SumAll(m) == |d| as real * TopSum(m, top)
  }

  lemma SizesUnique(d: seq<real>, m: seq<real>)
    requires Sizes(d, m)
    ensures Magnitudes(d) == m
  {
  }

  lemma ShareMeans(m: seq<real>, top: nat)
    requires |m| > 0
    ensures Share(m, top).Some? <==> SumAll(m) > 0.0 && top < |m|
    ensures Share(m, top).Some? ==>
              Share(m, top).value * ((|m| - top) as real * SumAll(m)) + top as real * SumAll(m) == |m| as real * TopSum(m, top)
  {
    hide SumAll, TopSum;
    if SumAll(m) > 0.0 && top < |m| {
      ClearedShare(TopSum(m, top), SumAll(m), top as real, |m| as real);
      assert (|m| - top) as real == |m| as real - top as real;
    }
  }

  lemma ClearedShare(part: real, total: real, top: real, n: real)
    requires total > 0.0 && 0.0 <= top < n
    ensures top / n < 1.0
    ensures (part / total - top / n) / (1.0 - top / n) * ((n - top) * total) + top * total == n * part
  {
    StrictRatio(top, n);
    var share, floor := part / total, top / n;
    var x := (share - floor) / (1.0 - floor);
    assert x * (1.0 - floor) == share - floor;
    assert share * total == part && floor * n == top;
    assert x * ((n - top) * total) == (x * (1.0 - floor)) * (n * total) by {
      assert (1.0 - floor) * n == n - top;
      Regroup(x, 1.0 - floor, n, total);
    }
    assert (share - floor) * (n * total) == n * (share * total) - (floor * n) * total by {
      Expand(share, floor, n, total);
    }
  }

  lemma Regroup(x: real, f: real, n: real, total: real)
    ensures x * ((f * n) * total) == (x * f) * (n * total)
  {
  }

  lemma Expand(a: real, b: real, n: real, total: real)
    ensures (a - b) * (n * total) == n * (a * total) - (b * n) * total
  {
  }

  /** What combining yields, and when a share has no value: when the window does not move or is no longer than
      the number of largest changes. */
  lemma CombineMeans(a: Aggregate, top: nat, d: seq<real>, m: seq<real>)
    requires |d| > 0 && Sizes(d, m)
    ensures Combine(a, top, d).None? <==> a == TopAbsShare && (SumAll(m) <= 0.0 || |m| <= top)
    ensures var v := Combine(a, top, d); v.Some? ==> CombinesTo(a, top, d, m, v.value)
  {
    hide SumAll, TopSum, Share;
    SizesUnique(d, m);
    ShareMeans(m, top);
    match a
    case MaxOf =>
      ExtremeIs(true, d, 0, |d|);
    case MinOf =>
      ExtremeIs(false, d, 0, |d|);
    case MeanPerBar =>
      Divided(SumAll(d), |d| as real);
    case _ =>
  }

  lemma Divided(x: real, n: real)
    requires n != 0.0
    ensures x / n * n == x
  {
  }

  lemma SameSeq(d: seq<real>, e: seq<real>)
    requires |d| == |e| && forall i | 0 <= i < |d| :: d[i] == e[i]
    ensures d == e
  {
  }

  /** The window's value is the combination of its values. */
  lemma OverWindowMeans(xs: Series, s: Spec, w: Query, d: seq<real>)
    requires w.low <= w.high < |xs| && Admitted(s) && ValuesAre(xs, s, w, d)
    ensures |d| > 0 && OverWindow(xs, s, w) == Combine(s.aggregate, s.top, d)
  {
    hide Combine;
    var clean := Clean(xs);
    match s.form
    case Level =>
      PresentAll(xs, w, d, 0.0);
      SameSeq(d, Slice(clean, w.low, w.high + 1));
    case FromStart =>
      PresentAll(xs, w, d, xs[w.low].value);
      SameSeq(d, SinceStart(clean, w.low, w.high));
    case Changes =>
      var first := w.low + SpanOf(s) - 1;
      var changes := ChangesOver(clean, first, w.high, SpanOf(s));
      forall i | 0 <= i < |d| ensures d[i] == changes[i] {
        assert w.low - 1 + i + SpanOf(s) == first + i;
      }
      SameSeq(d, changes);
  }

  lemma PresentAll(xs: Series, w: Query, d: seq<real>, base: real)
    requires w.low <= w.high < |xs| && |d| == w.high - w.low + 1
    requires forall i | 0 <= i < |d| :: xs[w.low + i] == Some(base + d[i])
    ensures Present(xs, w.low, w.high + 1)
  {
    forall k | w.low <= k <= w.high ensures xs[k].Some? {
      assert xs[w.low + (k - w.low)] == Some(base + d[k - w.low]);
    }
  }

  /** A window with a value has all the values it needs. */
  lemma OverWindowHasValues(xs: Series, s: Spec, w: Query)
    requires w.low <= w.high < |xs| && Admitted(s) && OverWindow(xs, s, w).Some?
    ensures exists d: seq<real> :: ValuesAre(xs, s, w, d)
  {
    hide Combine;
    var clean := Clean(xs);
    match s.form
    case Level =>
      assert ValuesAre(xs, s, w, Slice(clean, w.low, w.high + 1));
    case FromStart =>
      assert ValuesAre(xs, s, w, SinceStart(clean, w.low, w.high));
    case Changes =>
      assert ValuesAre(xs, s, w, ChangesOver(clean, w.low + SpanOf(s) - 1, w.high, SpanOf(s)));
  }

  // -- eligibility -----------------------------------------------------------------------------

  /** Both legs are long enough in bars, and over its last `window` one-bar changes, or all it has, nothing is
      missing and the impulse rose. `i` and `b` are the bars before those changes. */
  lemma EligibleMeans(
      ep: SideEpisode, xs: Series, legs: Legs, t: nat, row: nat, o: nat, p: nat, i: int, b: int)
    requires Tables(ep, |xs|) && t < |xs| && Waves(ep, t, row, o, p)
    requires legs.impulsePositive ==> legs.window.Some?
    requires legs.window.Some? ==> legs.window.value >= 1
    requires legs.window.Some? ==>
               && p - i <= legs.window.value && p - i <= p - o + 1
               && (p - i == legs.window.value || p - i == p - o + 1)
               && t - b <= legs.window.value && t - b <= t - p + 1
               && (t - b == legs.window.value || t - b == t - p + 1)
    ensures Eligible(ep, |xs|, xs, legs, t) <==>
              && (legs.pullbackMinBars.Some? ==> t - p + 1 >= legs.pullbackMinBars.value)
              && (legs.legsMinBars.Some? ==> p - o + 1 >= legs.legsMinBars.value && t - p + 1 >= legs.legsMinBars.value)
              && (legs.window.Some? ==>
                    && 0 <= i && 0 <= b
                    && (forall k | i <= k <= p :: xs[k].Some?) && (forall k | b <= k <= t :: xs[k].Some?)
                    && (legs.impulsePositive ==> xs[i].value < xs[p].value))
  {
    WaveMeans(ep, |xs|, t, row, o, p);
  }

  // -- the segment -----------------------------------------------------------------------------

  /** The segment over a window is the combination of the window's values, its sign turned when asked for, and
      is missing exactly where an eligibility fails or a share has nothing to share. */
  lemma SegmentMeans(ep: SideEpisode, xs: Series, s: Spec, t: nat, w: Query, d: seq<real>, m: seq<real>)
    requires Tables(ep, |xs|) && t < |xs| && Admitted(s) && WindowAt(ep, |xs|, s, t) == Some(w)
    requires ValuesAre(xs, s, w, d) && |d| > 0 && Sizes(d, m)
    ensures SegmentAt(ep, xs, s, t).None? <==>
              || (s.eligibility.Some? && !Eligible(ep, |xs|, xs, s.eligibility.value, t))
              || (s.aggregate == TopAbsShare && (SumAll(m) <= 0.0 || |m| <= s.top))
    ensures var v := SegmentAt(ep, xs, s, t);
            v.Some? ==> CombinesTo(s.aggregate, s.top, d, m, if s.negate then -v.value else v.value)
  {
    hide Tables, WindowAt, Eligible, Combine, CombinesTo, OverWindow, ValuesAre, SumAll;
    OverWindowMeans(xs, s, w, d);
    CombineMeans(s.aggregate, s.top, d, m);
    var v := Combine(s.aggregate, s.top, d);
    if v.Some? {
      assert -(-v.value) == v.value;
    }
  }
}
