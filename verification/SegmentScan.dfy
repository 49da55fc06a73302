/** The fast evaluation of a segment over all bars at once: prefix sums for totals, a sparse table for extremes
    and sorted windows for the largest changes. On every bar it gives what the direct definition gives. */
module SegmentScan {
  import opened NodeProgram
  import opened EpisodeTables
  import opened WindowMath
  import opened SortedWindow
  import opened TouchLegs
  import opened SegmentValues

  ghost predicate Inside(n: nat, ws: Windows) {
    |ws| == n && forall t | 0 <= t < n && ws[t].Some? :: ws[t].value.low <= ws[t].value.high < n
  }

  // -- what the fast forms rest on -----------------------------------------------------------

  lemma {:induction false} SumOfSlice(xs: seq<real>, s: nat, e: nat, ys: seq<real>, c: real, k: nat)
    requires s <= e <= |xs| && |ys| == e - s && forall i | 0 <= i < e - s :: ys[i] == xs[s + i] - c
    requires k <= e - s
    ensures Sum(ys, 0, k) == Sum(xs, s, s + k) - k as real * c
  {
    if k > 0 {
      SumOfSlice(xs, s, e, ys, c, k - 1);
      assert k as real * c == (k - 1) as real * c + c;
    }
  }

  lemma ExtremeOfSlice(largest: bool, xs: seq<real>, s: nat, e: nat, ys: seq<real>, c: real)
    requires s < e <= |xs| && |ys| == e - s && forall i | 0 <= i < e - s :: ys[i] == xs[s + i] - c
    ensures Extreme(largest, ys, 0, |ys|) == Extreme(largest, xs, s, e) - c
  {
    ExtremeIs(largest, xs, s, e);
    var x := Extreme(largest, xs, s, e);
    var j :| s <= j < e && xs[j] == x;
    assert ys[j - s] == x - c;
    forall i | 0 <= i < |ys| ensures if largest then ys[i] <= x - c else x - c <= ys[i] {
      assert xs[s + i] == ys[i] + c;
    }
    ExtremeUnique(largest, ys, 0, |ys|, x - c);
  }

  /** One-bar changes add up to the difference of the ends. */
  lemma {:induction false} Telescopes(xs: seq<real>, low: nat, high: nat, d: seq<real>, k: nat)
    requires 1 <= low <= high < |xs| && d == ChangesOver(xs, low, high, 1) && k <= |d|
    ensures Sum(d, 0, k) == xs[low - 1 + k] - xs[low - 1]
  {
    if k > 0 {
      Telescopes(xs, low, high, d, k - 1);
    }
  }

  /** The whole column of changes; bars without an earlier one count as unchanged and are never in a window. */
  function ChangeColumn(xs: seq<real>, span: nat): (d: seq<real>)
    ensures |d| == |xs|
  {
    seq(|xs|, i requires 0 <= i < |xs| => if i < span then 0.0 else xs[i] - xs[i - span])
  }

  lemma ChangesAreSlices(xs: seq<real>, span: nat, first: nat, high: nat)
    requires span <= first <= high < |xs|
    ensures ChangesOver(xs, first, high, span) == ChangeColumn(xs, span)[first..high + 1]
    ensures Magnitudes(ChangesOver(xs, first, high, span)) == Magnitudes(ChangeColumn(xs, span))[first..high + 1]
  {
    var d, c := ChangesOver(xs, first, high, span), ChangeColumn(xs, span);
    assert d == c[first..high + 1];
    forall i | 0 <= i < |d| ensures Magnitudes(d)[i] == Magnitudes(c)[first..high + 1][i] {
    }
  }

  // -- narrowing -------------------------------------------------------------------------------

  /** Windows in which nothing is missing, from `back` bars before their start on. */
  method Complete(xs: Series, bad: seq<nat>, ws: Windows, back: nat) returns (out: Windows)
    requires MissingCounts(xs, bad) && Inside(|xs|, ws)
    ensures Inside(|xs|, out)
    ensures forall t | 0 <= t < |xs| ::
              out[t] == if ws[t].Some? && Present(xs, ws[t].value.low - back, ws[t].value.high + 1) then ws[t] else None
  {
    out := [];
    var t := 0;
    while t < |xs|
      invariant 0 <= t <= |xs| && |out| == t
      invariant forall k | 0 <= k < t ::
                  out[k] == if ws[k].Some? && Present(xs, ws[k].value.low - back, ws[k].value.high + 1) then ws[k] else None
    {
      var keep := None;
      if ws[t].Some? && ws[t].value.low >= back {
        NothingMissing(xs, ws[t].value.low - back, ws[t].value.high + 1);
        if bad[ws[t].value.high + 1] == bad[ws[t].value.low - back] {
          keep := ws[t];
        }
      }
      out := out + [keep];
      t := t + 1;
    }
  }

  /** Windows cut to the bars on which a `span`-bar change ends inside them. */
  method Spanned(n: nat, ws: Windows, span: nat) returns (out: Windows)
    requires Inside(n, ws) && span >= 1
    ensures Inside(n, out)
    ensures forall t | 0 <= t < n ::
              out[t] == if ws[t].Some? && ws[t].value.low + span - 1 <= ws[t].value.high
                        then Some(Query(ws[t].value.low + span - 1, ws[t].value.high)) else None
  {
    out := [];
    var t := 0;
    while t < n
      invariant 0 <= t <= n && |out| == t
      invariant forall k | 0 <= k < t ::
                  out[k] == if ws[k].Some? && ws[k].value.low + span - 1 <= ws[k].value.high
                            then Some(Query(ws[k].value.low + span - 1, ws[k].value.high)) else None
    {
      var first := if ws[t].Some? then ws[t].value.low + span - 1 else 0;
      out := out + [if ws[t].Some? && first <= ws[t].value.high then Some(Query(first, ws[t].value.high)) else None];
      t := t + 1;
    }
  }

  // -- aggregates over all windows ---------------------------------------------------------------

  ghost predicate TotalsOf(xs: seq<real>, ws: Windows, out: Series) {
    && Inside(|xs|, ws) && |out| == |xs|
    && forall t | 0 <= t < |xs| ::
         out[t] == if ws[t].Some? then Some(Sum(xs, ws[t].value.low, ws[t].value.high + 1)) else None
  }

  method TotalRows(xs: seq<real>, ws: Windows) returns (out: Series)
    requires Inside(|xs|, ws)
    ensures TotalsOf(xs, ws, out)
  {
    var cumulative := Cumulate(xs);
    out := [];
    var t := 0;
    while t < |xs|
      invariant 0 <= t <= |xs| && |out| == t
      invariant forall k | 0 <= k < t ::
                  out[k] == if ws[k].Some? then Some(Sum(xs, ws[k].value.low, ws[k].value.high + 1)) else None
    {
      var value := None;
      if ws[t].Some? {
        PrefixDifference(xs, cumulative, ws[t].value.low, ws[t].value.high + 1);
        value := Some(cumulative[ws[t].value.high + 1] - cumulative[ws[t].value.low]);
      }
      out := out + [value];
      t := t + 1;
    }
  }

  /** The first `offset` values read backwards from the window's end, zeros before its start. */
  ghost function Backwards(absolute: seq<real>, q: Query, offset: nat): multiset<real>
    requires q.low <= q.high < |absolute|
  {
    var length := q.high - q.low + 1;
    if offset <= length then multiset(absolute[q.high + 1 - offset..q.high + 1])
    else multiset(absolute[q.low..q.high + 1]) + multiset(Zeros(offset - length))
  }

  lemma OneBack(absolute: seq<real>, q: Query, offset: nat)
    requires q.low <= q.high < |absolute|
    ensures var index := q.high - offset;
            Backwards(absolute, q, offset + 1)
            == Backwards(absolute, q, offset) + multiset{if index >= q.low then absolute[index] else 0.0}
  {
    var index, length := q.high - offset, q.high - q.low + 1;
    if index >= q.low {
      assert absolute[index..q.high + 1] == [absolute[index]] + absolute[index + 1..q.high + 1];
    } else {
      assert Zeros(offset + 1 - length) == Zeros(offset - length) + [0.0];
    }
  }

  method GatherWindow(absolute: seq<real>, q: Query, lastN: nat) returns (gathered: seq<real>)
    requires q.low <= q.high < |absolute|
    ensures multiset(gathered) == Backwards(absolute, q, lastN)
  {
    gathered := [];
    var offset := 0;
    while offset < lastN
      invariant 0 <= offset <= lastN && multiset(gathered) == Backwards(absolute, q, offset)
    {
      OneBack(absolute, q, offset);
      var index := q.high - offset;
      gathered := gathered + [if index >= q.low then absolute[index] else 0.0];
      offset := offset + 1;
    }
  }

  /** The last `lastN` magnitudes before the window's end, zeros where they lie before its start, sorted; the
      sum of the top of them is that of the window. */
  method WindowTopSum(absolute: seq<real>, q: Query, top: nat, lastN: nat) returns (sum: real)
    requires q.low <= q.high < |absolute| && q.high - q.low + 1 <= lastN
    requires forall i | 0 <= i < |absolute| :: absolute[i] >= 0.0
    ensures sum == TopSum(absolute[q.low..q.high + 1], top)
  {
    hide Sum, TopSum, Backwards, Sorted;
    var gathered := GatherWindow(absolute, q, lastN);
    WindowPadded(absolute, q, lastN, gathered, top);
    var ordered := Sorted(gathered);
    sum := Sum(ordered, |ordered| - Least(top, |ordered|), |ordered|);
  }

  lemma WindowPadded(absolute: seq<real>, q: Query, lastN: nat, gathered: seq<real>, top: nat)
    requires q.low <= q.high < |absolute| && q.high - q.low + 1 <= lastN
    requires forall i | 0 <= i < |absolute| :: absolute[i] >= 0.0
    requires multiset(gathered) == Backwards(absolute, q, lastN)
    ensures var o := Sorted(gathered);
            Sum(o, |o| - Least(top, |o|), |o|) == TopSum(absolute[q.low..q.high + 1], top)
  {
    hide Sorted, Sum, TopSum;
    var window, zeros := absolute[q.low..q.high + 1], lastN - (q.high - q.low + 1);
    assert Zeros(0) == [];
    assert multiset(gathered) == multiset(Zeros(zeros) + window);
    PaddingIsHarmless(gathered, window, zeros, top);
  }

  // -- the form's own aggregate over all windows -----------------------------------------------------

  /** Bar by bar what the direct definition makes of the window; the windows are complete for the form. */
  ghost predicate Evaluates(xs: Series, s: Spec, ws: Windows, out: Series)
    requires s.span.Some? ==> s.span.value >= 1
  {
    && Inside(|xs|, ws) && |out| == |xs|
    && forall t | 0 <= t < |xs| :: out[t] == if ws[t].Some? then OverWindow(xs, s, ws[t].value) else None
  }

  method LevelRows(xs: Series, bad: seq<nat>, s: Spec, ws: Windows) returns (out: Series)
    requires MissingCounts(xs, bad) && Inside(|xs|, ws) && Admitted(s) && s.form == Level
    ensures Evaluates(xs, s, ws, out)
  {
    var clean := Clean(xs);
    var complete := Complete(xs, bad, ws, 0);
    if Extremal(s.aggregate) {
      out := RowExtremes(Largest(s.aggregate), clean, complete);
      forall t | 0 <= t < |xs| ensures out[t] == if ws[t].Some? then OverWindow(xs, s, ws[t].value) else None {
        if complete[t].Some? {
          LevelExtreme(xs, s, ws[t].value);
        }
      }
    } else {
      var totals := TotalRows(clean, complete);
      out := Averages(s, complete, totals, |xs|);
      forall t | 0 <= t < |xs| ensures out[t] == if ws[t].Some? then OverWindow(xs, s, ws[t].value) else None {
        if complete[t].Some? {
          LevelTotal(xs, s, ws[t].value);
        }
      }
    }
  }

  function Averaged(s: Spec, w: Query, total: real): real
    requires w.low <= w.high
  {
    if s.aggregate == SumOf then total else total / (w.high - w.low + 1) as real
  }

  method Averages(s: Spec, ws: Windows, totals: Series, n: nat) returns (out: Series)
    requires Inside(n, ws) && |totals| == n && forall t | 0 <= t < n :: totals[t].Some? <==> ws[t].Some?
    ensures |out| == n
    ensures forall t | 0 <= t < n ::
              out[t] == if ws[t].Some? then Some(Averaged(s, ws[t].value, totals[t].value)) else None
  {
    out := seq(n, t requires 0 <= t < n && Inside(n, ws) && |totals| == n && (totals[t].Some? <==> ws[t].Some?) =>
      if ws[t].Some? then Some(Averaged(s, ws[t].value, totals[t].value)) else None);
  }

  lemma LevelExtreme(xs: Series, s: Spec, w: Query)
    requires w.low <= w.high < |xs| && Admitted(s) && s.form == Level && Extremal(s.aggregate)
    requires Present(xs, w.low, w.high + 1)
    ensures OverWindow(xs, s, w) == Some(Extreme(Largest(s.aggregate), Clean(xs), w.low, w.high + 1))
  {
    ExtremeOfSlice(Largest(s.aggregate), Clean(xs), w.low, w.high + 1, Slice(Clean(xs), w.low, w.high + 1), 0.0);
  }

  lemma LevelTotal(xs: Series, s: Spec, w: Query)
    requires w.low <= w.high < |xs| && Admitted(s) && s.form == Level && Averaging(s.aggregate)
    requires Present(xs, w.low, w.high + 1)
    ensures OverWindow(xs, s, w) == Some(Averaged(s, w, Sum(Clean(xs), w.low, w.high + 1)))
  {
    var d := Slice(Clean(xs), w.low, w.high + 1);
    SumOfSlice(Clean(xs), w.low, w.high + 1, d, 0.0, |d|);
  }

  /** The level's aggregate, and the start level as often as it enters. */
  function LevelOf(clean: seq<real>, s: Spec, w: Query): real
    requires w.low <= w.high < |clean|
  {
    if Extremal(s.aggregate) then Extreme(Largest(s.aggregate), clean, w.low, w.high + 1)
    else Averaged(s, w, Sum(clean, w.low, w.high + 1))
  }

  function StartOf(clean: seq<real>, s: Spec, w: Query): real
    requires w.low <= w.high < |clean|
  {
    if s.aggregate == SumOf then clean[w.low] * (w.high - w.low + 1) as real else clean[w.low]
  }

  /** What the fast form makes of a window since its first bar. */
  function LessStart(xs: Series, s: Spec, w: Query): real
    requires w.low <= w.high < |xs|
  {
    LevelOf(Clean(xs), s, w) - StartOf(Clean(xs), s, w)
  }

  method LevelRowsOf(clean: seq<real>, s: Spec, ws: Windows) returns (levels: Series)
    requires Inside(|clean|, ws)
    ensures |levels| == |clean|
    ensures forall t | 0 <= t < |clean| && ws[t].Some? :: levels[t] == Some(LevelOf(clean, s, ws[t].value))
  {
    hide Extreme, Sum;
    if Extremal(s.aggregate) {
      levels := RowExtremes(Largest(s.aggregate), clean, ws);
    } else {
      var totals := TotalRows(clean, ws);
      levels := Averages(s, ws, totals, |clean|);
    }
  }

  /** Changes since the window's first bar: the level's aggregate less the start level, taken as often as it
      enters. */
  method FromStartRows(xs: Series, bad: seq<nat>, s: Spec, ws: Windows) returns (out: Series)
    requires MissingCounts(xs, bad) && Inside(|xs|, ws) && Admitted(s) && s.form == FromStart
    ensures Evaluates(xs, s, ws, out)
  {
    hide OverWindow, LevelOf, StartOf, CountMissing;
    var clean := Clean(xs);
    var complete := Complete(xs, bad, ws, 0);
    var levels := LevelRowsOf(clean, s, complete);
    out := [];
    var t := 0;
    while t < |xs|
      invariant 0 <= t <= |xs| && |out| == t
      invariant forall k | 0 <= k < t :: out[k] == if ws[k].Some? then OverWindow(xs, s, ws[k].value) else None
    {
      var value := None;
      if ws[t].Some? {
        Incomplete(xs, s, ws[t].value);
      }
      if complete[t].Some? {
        FromStartValue(xs, s, complete[t].value);
        value := Some(levels[t].value - StartOf(clean, s, complete[t].value));
      }
      out := out + [value];
      t := t + 1;
    }
  }

  lemma FromStartValue(xs: Series, s: Spec, w: Query)
    requires w.low <= w.high < |xs| && Admitted(s) && s.form == FromStart && Present(xs, w.low, w.high + 1)
    ensures OverWindow(xs, s, w) == Some(LessStart(xs, s, w))
  {
    if Extremal(s.aggregate) {
      FromStartExtreme(xs, s, w);
    } else {
      FromStartTotal(xs, s, w);
    }
  }

  lemma FromStartExtreme(xs: Series, s: Spec, w: Query)
    requires w.low <= w.high < |xs| && Admitted(s) && s.form == FromStart && Present(xs, w.low, w.high + 1)
    requires Extremal(s.aggregate)
    ensures OverWindow(xs, s, w) == Some(LessStart(xs, s, w))
  {
    hide Extreme, Sum;
    var clean := Clean(xs);
    ExtremeOfSlice(Largest(s.aggregate), clean, w.low, w.high + 1, SinceStart(clean, w.low, w.high), clean[w.low]);
  }

  lemma FromStartTotal(xs: Series, s: Spec, w: Query)
    requires w.low <= w.high < |xs| && Admitted(s) && s.form == FromStart && Present(xs, w.low, w.high + 1)
    requires Averaging(s.aggregate)
    ensures OverWindow(xs, s, w) == Some(LessStart(xs, s, w))
  {
    hide Extreme, Sum;
    var clean := Clean(xs);
    var d, n, total := SinceStart(clean, w.low, w.high), (w.high - w.low + 1) as real, Sum(clean, w.low, w.high + 1);
    SumOfSlice(clean, w.low, w.high + 1, d, clean[w.low], |d|);
    assert |d| as real == n && SumAll(d) == total - n * clean[w.low];
    assert OverWindow(xs, s, w) == Combine(s.aggregate, s.top, d);
    if s.aggregate == SumOf {
      var start := clean[w.low] * n;
      assert StartOf(clean, s, w) == start && LevelOf(clean, s, w) == total;
      assert n * clean[w.low] == start;
      assert SumAll(d) == total - start;
    } else {
      MeanLess(total, n, clean[w.low]);
      assert SumAll(d) / |d| as real == total / n - clean[w.low];
    }
  }

  /** A window that misses a value it needs, or that is too short for the span, has no aggregate. */
  lemma Incomplete(xs: Series, s: Spec, w: Query)
    requires w.low <= w.high < |xs| && (s.span.Some? ==> s.span.value >= 1)
    ensures s.form != Changes && !Present(xs, w.low, w.high + 1) ==> OverWindow(xs, s, w).None?
    ensures s.form == Changes && !Present(xs, w.low - 1, w.high + 1) ==> OverWindow(xs, s, w).None?
    ensures s.form == Changes && w.low + SpanOf(s) - 1 > w.high ==> OverWindow(xs, s, w).None?
  {
  }

  lemma MeanLess(total: real, n: real, x: real)
    requires n > 0.0
    ensures (total - n * x) / n == total / n - x
  {
    var mean := total / n;
    assert mean * n == total;
    assert (mean - x) * n == total - n * x;
  }

  /** Totals and means of one-bar changes: the difference of the two ends. */
  method NetChangeRows(xs: Series, bad: seq<nat>, s: Spec, ws: Windows) returns (out: Series)
    requires MissingCounts(xs, bad) && Inside(|xs|, ws) && Admitted(s) && s.form == Changes
    requires Averaging(s.aggregate)
    ensures Evaluates(xs, s, ws, out)
  {
    var clean := Clean(xs);
    var complete := Complete(xs, bad, ws, 1);
    out := [];
    var t := 0;
    while t < |xs|
      invariant 0 <= t <= |xs| && |out| == t
      invariant forall k | 0 <= k < t :: out[k] == if ws[k].Some? then OverWindow(xs, s, ws[k].value) else None
    {
      var value := None;
      if complete[t].Some? {
        var w := complete[t].value;
        NetChange(xs, s, w);
        value := Some(Averaged(s, w, clean[w.high] - clean[w.low - 1]));
      }
      out := out + [value];
      t := t + 1;
    }
  }

  lemma NetChange(xs: Series, s: Spec, w: Query)
    requires 1 <= w.low <= w.high < |xs| && Admitted(s) && s.form == Changes && Averaging(s.aggregate)
    requires Present(xs, w.low - 1, w.high + 1)
    ensures OverWindow(xs, s, w) == Some(Averaged(s, w, Clean(xs)[w.high] - Clean(xs)[w.low - 1]))
  {
    hide CountMissing, Extreme, Sum;
    var d := ChangesOver(Clean(xs), w.low, w.high, 1);
    Telescopes(Clean(xs), w.low, w.high, d, |d|);
  }

  /** Extremes, magnitudes and concentration of changes. */
  method ChangeRows(xs: Series, bad: seq<nat>, s: Spec, ws: Windows) returns (out: Series)
    requires MissingCounts(xs, bad) && Inside(|xs|, ws) && Admitted(s) && s.form == Changes
    requires !Averaging(s.aggregate)
    requires forall t | 0 <= t < |xs| && ws[t].Some? && s.lastN.Some? ::
               ws[t].value.high - ws[t].value.low + 1 <= s.lastN.value
    ensures Evaluates(xs, s, ws, out)
  {
    hide OverWindow, Sum, Extreme, CountMissing;
    var clean := Clean(xs);
    var complete := Complete(xs, bad, ws, 1);
    var spanned := Spanned(|xs|, complete, SpanOf(s));
    var column := ChangeColumn(clean, SpanOf(s));
    if Extremal(s.aggregate) {
      out := RowExtremes(Largest(s.aggregate), column, spanned);
      forall t | 0 <= t < |xs| ensures out[t] == if ws[t].Some? then OverWindow(xs, s, ws[t].value) else None {
        if spanned[t].Some? {
          ChangeExtreme(xs, s, ws[t].value);
        } else if ws[t].Some? {
          Incomplete(xs, s, ws[t].value);
        }
      }
    } else {
      var totals := TotalRows(Magnitudes(column), spanned);
      out := [];
      var t := 0;
      while t < |xs|
        invariant 0 <= t <= |xs| && |out| == t
        invariant forall k | 0 <= k < t :: out[k] == if ws[k].Some? then OverWindow(xs, s, ws[k].value) else None
      {
        var value := None;
        if ws[t].Some? {
          Incomplete(xs, s, ws[t].value);
        }
        if spanned[t].Some? {
          value := Concentration(xs, s, column, ws[t].value, spanned[t].value, totals[t].value);
        }
        out := out + [value];
        t := t + 1;
      }
    }
  }

  lemma ChangeExtreme(xs: Series, s: Spec, w: Query)
    requires 1 <= w.low <= w.high < |xs| && Admitted(s) && s.form == Changes && Extremal(s.aggregate)
    requires Present(xs, w.low - 1, w.high + 1) && w.low + SpanOf(s) - 1 <= w.high
    ensures OverWindow(xs, s, w) == Some(
              Extreme(Largest(s.aggregate), ChangeColumn(Clean(xs), SpanOf(s)), w.low + SpanOf(s) - 1, w.high + 1))
  {
    hide Sum, Extreme, Magnitudes;
    var clean, first := Clean(xs), w.low + SpanOf(s) - 1;
    ChangesAreSlices(clean, SpanOf(s), first, w.high);
    ExtremeOfSlice(Largest(s.aggregate), ChangeColumn(clean, SpanOf(s)), first, w.high + 1,
                   ChangesOver(clean, first, w.high, SpanOf(s)), 0.0);
  }

  method Concentration(xs: Series, s: Spec, column: seq<real>, w: Query, q: Query, total: real)
    returns (value: Option<real>)
    requires 1 <= w.low <= w.high < |xs| && Admitted(s) && s.form == Changes
    requires OfMagnitudes(s.aggregate)
    requires s.lastN.Some? ==> w.high - w.low + 1 <= s.lastN.value
    requires Present(xs, w.low - 1, w.high + 1) && w.low + SpanOf(s) - 1 <= w.high
    requires q == Query(w.low + SpanOf(s) - 1, w.high) && column == ChangeColumn(Clean(xs), SpanOf(s))
    requires total == Sum(Magnitudes(column), q.low, q.high + 1)
    ensures value == OverWindow(xs, s, w)
  {
    hide Sum, Extreme, Sorted;
    var magnitudes := Magnitudes(column);
    ChangesAreSlices(Clean(xs), SpanOf(s), q.low, q.high);
    ghost var d := Magnitudes(ChangesOver(Clean(xs), q.low, q.high, SpanOf(s)));
    SumOfSlice(magnitudes, q.low, q.high + 1, d, 0.0, |d|);
    if s.aggregate == AbsSum {
      return Some(total);
    }
    var sum := WindowTopSum(magnitudes, q, s.top, s.lastN.value);
    if s.aggregate == TopAbsSum {
      return Some(sum);
    }
    value := NormalizedShare(sum, total, q.high - q.low + 1, s.top);
  }

  function NormalizedShare(topSum: real, total: real, bars: nat, top: nat): Option<real>
    requires bars > 0
  {
    if total <= 0.0 || bars <= top then None else
    var floor := top as real / bars as real;
    Some((topSum / total - floor) / (1.0 - floor))
  }

  /** Both legs' conditions by missing counts. */
  method EligibleRow(ep: SideEpisode, xs: Series, bad: seq<nat>, clean: seq<real>, legs: Legs, t: nat) returns (ok: bool)
    requires Tables(ep, |xs|) && t < |xs| && MissingCounts(xs, bad) && clean == Clean(xs)
    requires legs.impulsePositive ==> legs.window.Some?
    requires legs.window.Some? ==> legs.window.value >= 1
    ensures ok == Eligible(ep, |xs|, xs, legs, t)
  {
    var wave := WaveAt(ep, |xs|, t);
    if wave.None? {
      return false;
    }
    var o, p := wave.value.origin, wave.value.peak;
    ok := (legs.pullbackMinBars.Some? ==> t - p + 1 >= legs.pullbackMinBars.value)
          && (legs.legsMinBars.Some? ==>
                p - o + 1 >= legs.legsMinBars.value && t - p + 1 >= legs.legsMinBars.value);
    if legs.window.Some? {
      var impulse := Larger(o, p - legs.window.value + 1) - 1;
      var pullback := Larger(p, t - legs.window.value + 1) - 1;
      if impulse < 0 || pullback < 0 {
        return false;
      }
      NothingMissing(xs, impulse, p + 1);
      NothingMissing(xs, pullback, t + 1);
      ok := ok && bad[p + 1] == bad[impulse] && bad[t + 1] == bad[pullback]
            && (legs.impulsePositive ==> clean[p] - clean[impulse] > 0.0);
    }
  }

  method EligibleWindows(ep: SideEpisode, xs: Series, bad: seq<nat>, s: Spec) returns (ws: Windows)
    requires Tables(ep, |xs|) && MissingCounts(xs, bad) && Admitted(s)
    ensures Inside(|xs|, ws)
    ensures forall t | 0 <= t < |xs| ::
              ws[t] == if s.eligibility.Some? && !Eligible(ep, |xs|, xs, s.eligibility.value, t)
                       then None else WindowAt(ep, |xs|, s, t)
  {
    var clean := Clean(xs);
    ws := [];
    var t := 0;
    while t < |xs|
      invariant 0 <= t <= |xs| && |ws| == t
      invariant forall k | 0 <= k < t ::
                  ws[k] == if s.eligibility.Some? && !Eligible(ep, |xs|, xs, s.eligibility.value, k)
                           then None else WindowAt(ep, |xs|, s, k)
    {
      var ok := true;
      if s.eligibility.Some? {
        ok := EligibleRow(ep, xs, bad, clean, s.eligibility.value, t);
      }
      ws := ws + [if ok then WindowAt(ep, |xs|, s, t) else None];
      t := t + 1;
    }
  }

  /** The segment on every bar, refining the direct definition bar by bar for every form, aggregate, touch,
      boundary policy and eligibility. */
  method ScanSegment(ep: SideEpisode, xs: Series, s: Spec) returns (out: Series)
    requires Tables(ep, |xs|) && Admitted(s)
    ensures |out| == |xs| && forall t | 0 <= t < |xs| :: out[t] == SegmentAt(ep, xs, s, t)
  {
    var bad := CumulateMissing(xs);
    var ws := EligibleWindows(ep, xs, bad, s);
    var values;
    match s.form {
      case Level => values := LevelRows(xs, bad, s, ws);
      case FromStart => values := FromStartRows(xs, bad, s, ws);
      case Changes =>
        if Averaging(s.aggregate) {
          values := NetChangeRows(xs, bad, s, ws);
        } else {
          values := ChangeRows(xs, bad, s, ws);
        }
    }
    out := [];
    var t := 0;
    while t < |xs|
      invariant 0 <= t <= |xs| && |out| == t
      invariant forall k | 0 <= k < t :: out[k] == SegmentAt(ep, xs, s, k)
    {
      out := out + [Signed(s.negate, values[t])];
      t := t + 1;
    }
  }
}
