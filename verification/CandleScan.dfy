/** The fast evaluation of the largest candle over all bars: buckets once, full candles through a sparse table,
    the clipped first and last candle by hand. */
module CandleScan {
  import opened NodeProgram
  import opened EpisodeTables
  import opened WindowMath
  import opened TouchLegs
  import opened CandleValues
  import opened CandleUnits

  /** The ordinals of the first `i` bars, of `count` buckets. */
  ghost predicate OrdinalsTo(m: Market, tf: nat, i: nat, ordinal: seq<nat>, count: nat)
    requires tf > 0
  {
    && i <= |m.time| && |ordinal| == i && (i > 0 ==> ordinal[i - 1] == count - 1) && (i == 0 <==> count == 0)
    && forall k | 0 <= k < i :: ordinal[k] == Ordinal(m, tf, k) && ordinal[k] < count
  }

  /** The buckets are stretches that follow one another and end at bar `i - 1`. */
  ghost predicate StretchesTo(i: nat, first: seq<nat>, last: seq<nat>) {
    && |first| == |last|
    && (forall b | 0 <= b < |first| ::
          first[b] <= last[b] < i && (first[b] == 0 <==> b == 0) && (last[b] == i - 1 <==> b == |first| - 1))
    && (forall b | 0 < b < |first| :: Follows(first, last, b))
  }

  ghost predicate Covers(ordinal: seq<nat>, first: seq<nat>, last: seq<nat>) {
    forall k | 0 <= k < |ordinal| ::
      && ordinal[k] < |first| && ordinal[k] < |last|
      && first[ordinal[k]] <= k <= last[ordinal[k]]
  }

  /** The buckets of the first `i` bars. */
  ghost predicate BucketedTo(m: Market, tf: nat, i: nat, ordinal: seq<nat>, first: seq<nat>, last: seq<nat>)
    requires tf > 0
  {
    OrdinalsTo(m, tf, i, ordinal, |first|) && StretchesTo(i, first, last) && Covers(ordinal, first, last)
  }

  lemma NextOrdinal(m: Market, tf: nat, i: nat, ordinal: seq<nat>, count: nat)
    requires tf > 0 && OrdinalsTo(m, tf, i, ordinal, count) && i < |m.time|
    ensures i == 0 || Bucket(m, tf, i) != Bucket(m, tf, i - 1) ==> OrdinalsTo(m, tf, i + 1, ordinal + [count], count + 1)
    ensures i > 0 && Bucket(m, tf, i) == Bucket(m, tf, i - 1) ==> OrdinalsTo(m, tf, i + 1, ordinal + [count - 1], count)
  {
    hide Bucket;
    if i > 0 {
      assert Ordinal(m, tf, i) == ordinal[i - 1] + if Bucket(m, tf, i) != Bucket(m, tf, i - 1) then 1 else 0;
    }
  }

  lemma NewStretch(i: nat, ordinal: seq<nat>, first: seq<nat>, last: seq<nat>)
    requires StretchesTo(i, first, last) && Covers(ordinal, first, last) && |ordinal| == i && (i == 0 <==> |first| == 0)
    ensures StretchesTo(i + 1, first + [i], last + [i])
    ensures Covers(ordinal + [|first|], first + [i], last + [i])
  {
    hide Covers;
    var f, l := first + [i], last + [i];
    forall b | 0 < b < |f| ensures Follows(f, l, b) {
      if b < |first| {
        assert Follows(first, last, b);
      }
    }
    NewCovers(i, ordinal, first, last);
  }

  lemma NewCovers(i: nat, ordinal: seq<nat>, first: seq<nat>, last: seq<nat>)
    requires |first| == |last| && Covers(ordinal, first, last) && |ordinal| == i
    ensures Covers(ordinal + [|first|], first + [i], last + [i])
  {
  }

  lemma LongerStretch(i: nat, ordinal: seq<nat>, first: seq<nat>, last: seq<nat>)
    requires StretchesTo(i, first, last) && Covers(ordinal, first, last) && |ordinal| == i && |first| > 0
    ensures StretchesTo(i + 1, first, last[|last| - 1 := i])
    ensures Covers(ordinal + [|first| - 1], first, last[|last| - 1 := i])
  {
    var longer := last[|last| - 1 := i];
    forall b | 0 < b < |first| ensures Follows(first, longer, b) {
      assert Follows(first, last, b);
    }
  }

  lemma NothingBucketed(m: Market, tf: nat)
    requires tf > 0
    ensures BucketedTo(m, tf, 0, [], [], [])
  {
  }

  lemma AllBucketed(m: Market, tf: nat, ordinal: seq<nat>, first: seq<nat>, last: seq<nat>)
    requires tf > 0 && BucketedTo(m, tf, |m.time|, ordinal, first, last)
    ensures Bucketed(m, tf, Buckets(ordinal, first, last))
  {
  }

  method FindBuckets(m: Market, tf: nat) returns (bs: Buckets)
    requires tf > 0 && Grid(m, |m.time|)
    ensures Bucketed(m, tf, bs)
  {
    hide Bucket, OrdinalsTo, StretchesTo, Covers;
    var n := |m.time|;
    var ordinal: seq<nat>, first: seq<nat>, last: seq<nat> := [], [], [];
    NothingBucketed(m, tf);
    var i := 0;
    while i < n
      invariant 0 <= i <= n && BucketedTo(m, tf, i, ordinal, first, last)
      invariant |ordinal| == i && |first| == |last| && (i == 0 <==> |first| == 0)
    {
      NextOrdinal(m, tf, i, ordinal, |first|);
      if i == 0 || Bucket(m, tf, i) != Bucket(m, tf, i - 1) {
        NewStretch(i, ordinal, first, last);
        ordinal := ordinal + [|first|];
        first, last := first + [i], last + [i];
      } else {
        LongerStretch(i, ordinal, first, last);
        ordinal := ordinal + [|first| - 1];
        last := last[|last| - 1 := i];
      }
      i := i + 1;
    }
    AllBucketed(m, tf, ordinal, first, last);
    bs := Buckets(ordinal, first, last);
  }

  // -- one leg -----------------------------------------------------------------------------

  /** A candle that ends at the leg's end. */
  function EndValue(m: Market, tf: nat, base: nat, sign: real, units: Units, bs: Buckets, u: nat, end: nat): real
    requires tf > 0 && Grid(m, |m.time|) && Bucketed(m, tf, bs) && u <= end < |m.time|
  {
    Normalised(BodyOf(sign, m.open[u], m.close[end]), UnitOf(units, bs.ordinal[end], !Closes(m, tf, base, end)))
  }

  /** A candle that ends with its bucket, before the leg's end. */
  function InnerValue(m: Market, tf: nat, sign: real, units: Units, bs: Buckets, u: nat, b: nat): real
    requires tf > 0 && Grid(m, |m.time|) && Bucketed(m, tf, bs) && b < |bs.first| && u <= bs.last[b]
  {
    Normalised(BodyOf(sign, m.open[u], m.close[bs.last[b]]), UnitOf(units, b, false))
  }

  /** The value of the leg's candle in bucket `b`. */
  function ClippedValue(
    m: Market, tf: nat, base: nat, sign: real, units: Units, bs: Buckets, begin: nat, end: nat, b: nat): real
    requires tf > 0 && Grid(m, |m.time|) && Bucketed(m, tf, bs) && begin <= end < |m.time|
    requires bs.ordinal[begin] <= b <= bs.ordinal[end]
  {
    if b == bs.ordinal[end] then
      ClippedInside(m, tf, bs, begin, end, b);
      EndValue(m, tf, base, sign, units, bs, ClipLow(bs, begin, b), end)
    else
      ClippedInside(m, tf, bs, begin, end, b);
      InnerBefore(m, tf, bs, begin, end, b);
      InnerValue(m, tf, sign, units, bs, ClipLow(bs, begin, b), b)
  }

  lemma InnerBefore(m: Market, tf: nat, bs: Buckets, begin: nat, end: nat, b: nat)
    requires tf > 0 && Bucketed(m, tf, bs) && begin <= end < |m.time|
    requires bs.ordinal[begin] <= b < bs.ordinal[end]
    ensures ClipHigh(bs, end, b) == bs.last[b] < end && ClipLow(bs, begin, b) <= bs.last[b]
  {
    ClippedInside(m, tf, bs, begin, end, b);
    BucketsApart(m, tf, bs, b, bs.ordinal[end]);
  }

  lemma EndBucket(m: Market, tf: nat, bs: Buckets, end: nat)
    requires tf > 0 && Bucketed(m, tf, bs) && end < |m.time|
    ensures ClipHigh(bs, end, bs.ordinal[end]) == end
  {
  }

  lemma ClippedIsCandle(
    m: Market, tf: nat, base: nat, sign: real, units: Units, bs: Buckets, begin: nat, end: nat, b: nat)
    requires tf > 0 && Grid(m, |m.time|) && Bucketed(m, tf, bs) && begin <= end < |m.time|
    requires bs.ordinal[begin] <= b <= bs.ordinal[end]
    ensures var u, v := ClipLow(bs, begin, b), ClipHigh(bs, end, b);
            && CandleOf(m, tf, begin, end, u, v)
            && CandleValue(m, tf, base, sign, units, end, u, v) == ClippedValue(m, tf, base, sign, units, bs, begin, end, b)
  {
    hide CandleOf, Normalised, BodyOf, Closes;
    BucketIsCandle(m, tf, bs, begin, end, b);
    ClippedInside(m, tf, bs, begin, end, b);
    if b == bs.ordinal[end] {
      EndBucket(m, tf, bs, end);
    } else {
      InnerBefore(m, tf, bs, begin, end, b);
    }
  }

  /** A value that no bucket of the leg exceeds and one attains is its largest candle. */
  lemma LargestOfBuckets(
    m: Market, tf: nat, base: nat, sign: real, units: Units, bs: Buckets, begin: nat, end: nat, x: real, top: nat)
    requires tf > 0 && Grid(m, |m.time|) && Bucketed(m, tf, bs) && begin <= end < |m.time|
    requires forall b | bs.ordinal[begin] <= b <= bs.ordinal[end] ::
               ClippedValue(m, tf, base, sign, units, bs, begin, end, b) <= x
    requires bs.ordinal[begin] <= top <= bs.ordinal[end]
    requires ClippedValue(m, tf, base, sign, units, bs, begin, end, top) == x
    ensures LargestCandle(m, tf, base, sign, units, begin, end, x)
  {
    hide CandleValue, ClippedValue;
    forall u: nat, v: nat | CandleOf(m, tf, begin, end, u, v)
      ensures CandleValue(m, tf, base, sign, units, end, u, v) <= x
    {
      CandlesAreBuckets(m, tf, bs, begin, end, u, v);
      var b :| bs.ordinal[begin] <= b <= bs.ordinal[end] && u == ClipLow(bs, begin, b) && v == ClipHigh(bs, end, b);
      ClippedIsCandle(m, tf, base, sign, units, bs, begin, end, b);
    }
    ClippedIsCandle(m, tf, base, sign, units, bs, begin, end, top);
  }

  /** The full candles of all buckets, as the sparse table reads them. */
  ghost predicate FullCandles(m: Market, tf: nat, sign: real, units: Units, bs: Buckets, full: seq<real>)
    requires tf > 0 && Grid(m, |m.time|) && Bucketed(m, tf, bs)
  {
    && |full| == |bs.first|
    && forall b | 0 <= b < |full| :: full[b] == InnerValue(m, tf, sign, units, bs, bs.first[b], b)
  }

  /** One-bucket, two-bucket and many-bucket legs: all three give the largest candle. */
  lemma RowIsLargest(
    m: Market, tf: nat, base: nat, sign: real, units: Units, bs: Buckets, full: seq<real>,
    begin: nat, end: nat, x: real)
    requires tf > 0 && Grid(m, |m.time|) && Bucketed(m, tf, bs) && begin <= end < |m.time|
    requires FullCandles(m, tf, sign, units, bs, full)
    requires bs.ordinal[begin] <= bs.ordinal[end]
    requires var first, last := bs.ordinal[begin], bs.ordinal[end];
             if first == last then x == EndValue(m, tf, base, sign, units, bs, begin, end)
             else
               bs.first[last] <= end &&
               var ends := Better(true, InnerValue(m, tf, sign, units, bs, begin, first),
                                  EndValue(m, tf, base, sign, units, bs, bs.first[last], end));
               x == if last - first < 2 then ends else Better(true, ends, Extreme(true, full, first + 1, last))
    ensures LargestCandle(m, tf, base, sign, units, begin, end, x)
  {
    hide EndValue, InnerValue;
    var first, last := bs.ordinal[begin], bs.ordinal[end];
    forall b | first <= b <= last ensures ClipLow(bs, begin, b) == if b == first then begin else bs.first[b] {
      BucketsApart(m, tf, bs, first, b);
    }
    if last - first >= 2 {
      ExtremeIs(true, full, first + 1, last);
    }
    assert forall b | first < b < last ::
        ClippedValue(m, tf, base, sign, units, bs, begin, end, b) == full[b];
    var top := if first == last || x == EndValue(m, tf, base, sign, units, bs, bs.first[last], end) then last
               else if x == InnerValue(m, tf, sign, units, bs, begin, first) then first
               else (var b :| first < b < last && full[b] == x; b);
    LargestOfBuckets(m, tf, base, sign, units, bs, begin, end, x, top);
  }

  // -- all bars ----------------------------------------------------------------------------

  /** The row of a bar: its leg's buckets. */
  datatype Row = Row(begin: nat, end: nat, first: nat, last: nat)

  ghost predicate RowsOf(ep: SideEpisode, m: Market, tf: nat, bs: Buckets, leg: Leg, rows: seq<Option<Row>>)
    requires tf > 0 && Tables(ep, |m.time|) && Bucketed(m, tf, bs)
  {
    && |rows| == |m.time|
    && forall t | 0 <= t < |m.time| ::
         var q := LegAt(ep, |m.time|, t, leg);
         rows[t] == if q.None? then None
                    else Some(Row(q.value.low, q.value.high, bs.ordinal[q.value.low], bs.ordinal[q.value.high]))
  }

  /** A leg's first bucket is not after its last. */
  lemma RowOrder(m: Market, tf: nat, bs: Buckets, begin: nat, end: nat)
    requires tf > 0 && Bucketed(m, tf, bs) && begin <= end < |m.time|
    ensures bs.ordinal[begin] <= bs.ordinal[end] < |bs.first| && bs.first[bs.ordinal[end]] <= end
    ensures begin <= bs.last[bs.ordinal[begin]]
  {
    OrdinalsRise(m, tf, begin, end);
  }

  method FindRows(ep: SideEpisode, m: Market, tf: nat, bs: Buckets, leg: Leg) returns (rows: seq<Option<Row>>)
    requires tf > 0 && Tables(ep, |m.time|) && Bucketed(m, tf, bs)
    ensures RowsOf(ep, m, tf, bs, leg, rows)
  {
    rows := [];
    var t := 0;
    while t < |m.time|
      invariant 0 <= t <= |m.time| && |rows| == t
      invariant forall k | 0 <= k < t ::
                  var q := LegAt(ep, |m.time|, k, leg);
                  rows[k] == if q.None? then None
                             else Some(Row(q.value.low, q.value.high, bs.ordinal[q.value.low], bs.ordinal[q.value.high]))
    {
      var q := LegAt(ep, |m.time|, t, leg);
      rows := rows + [if q.None? then None
                      else Some(Row(q.value.low, q.value.high, bs.ordinal[q.value.low], bs.ordinal[q.value.high]))];
      t := t + 1;
    }
  }

  /** The largest full candle strictly between the first and the last bucket, for the rows that have one. */
  method Between(full: seq<real>, rows: seq<Option<Row>>) returns (out: Series)
    requires forall t | 0 <= t < |rows| && rows[t].Some? :: rows[t].value.first <= rows[t].value.last < |full|
    ensures |out| == |rows|
    ensures forall t | 0 <= t < |rows| ::
              out[t] == if rows[t].Some? && rows[t].value.last - rows[t].value.first >= 2
                        then Some(Extreme(true, full, rows[t].value.first + 1, rows[t].value.last)) else None
  {
    hide Extreme;
    var ws: Windows := [];
    var t := 0;
    while t < |rows|
      invariant 0 <= t <= |rows| && |ws| == t
      invariant forall k | 0 <= k < t ::
                  ws[k] == if rows[k].Some? && rows[k].value.last - rows[k].value.first >= 2
                           then Some(Query(rows[k].value.first + 1, rows[k].value.last - 1)) else None
    {
      ws := ws + [if rows[t].Some? && rows[t].value.last - rows[t].value.first >= 2
                  then Some(Query(rows[t].value.first + 1, rows[t].value.last - 1)) else None];
      t := t + 1;
    }
    out := RowExtremes(true, full, ws);
  }

  method FullColumn(m: Market, tf: nat, sign: real, units: Units, bs: Buckets) returns (full: seq<real>)
    requires tf > 0 && Grid(m, |m.time|) && Bucketed(m, tf, bs)
    ensures FullCandles(m, tf, sign, units, bs, full)
  {
    full := [];
    var b := 0;
    while b < |bs.first|
      invariant 0 <= b <= |bs.first| && |full| == b
      invariant forall k | 0 <= k < b :: full[k] == InnerValue(m, tf, sign, units, bs, bs.first[k], k)
    {
      full := full + [InnerValue(m, tf, sign, units, bs, bs.first[b], b)];
      b := b + 1;
    }
  }

  /** What the operand promises on bar `t`. */
  ghost predicate CandleOn(
    ep: SideEpisode, m: Market, tf: nat, base: nat, sign: real, units: Units, leg: Leg, t: nat, value: Option<real>)
    requires tf > 0 && Grid(m, |m.time|) && Tables(ep, |m.time|) && t < |m.time|
  {
    var q := LegAt(ep, |m.time|, t, leg);
    && (value.Some? <==> q.Some?)
    && (value.Some? ==> LargestCandle(m, tf, base, sign, units, q.value.low, q.value.high, value.value))
  }

  /** What it means, in the bars and the ATR themselves: a value exactly on a bar with a leg, and then that of
      the candle that counts most. */
  ghost predicate MostOn(
    ep: SideEpisode, m: Market, tf: nat, base: nat, up: bool, atr: Option<Series>, period: nat, leg: Leg, t: nat,
    value: Option<real>)
    requires tf > 0 && Grid(m, |m.time|) && Tables(ep, |m.time|) && t < |m.time|
  {
    var q := LegAt(ep, |m.time|, t, leg);
    && (value.Some? <==> q.Some?)
    && (value.Some? ==> MostOf(m, tf, base, up, atr, period, q.value.low, q.value.high, value.value))
  }

  lemma OnMeans(
    ep: SideEpisode, m: Market, tf: nat, base: nat, up: bool, bs: Buckets, atr: Option<Series>, period: nat, leg: Leg, t: nat,
    value: Option<real>)
    requires tf > 0 && period > 0 && Grid(m, |m.time|) && Tables(ep, |m.time|) && t < |m.time| && Bucketed(m, tf, bs)
    requires CandleOn(ep, m, tf, base, SignOf(up), UnitsFor(m, tf, base, bs, atr, period), leg, t, value)
    ensures MostOn(ep, m, tf, base, up, atr, period, leg, t, value)
  {
    hide LargestCandle, MostOf, Bucketed, Tables, UnitsFor;
    if value.Some? {
      var q := LegAt(ep, |m.time|, t, leg).value;
      LargestMeans(m, tf, base, up, bs, atr, period, q.low, q.high, value.value);
    }
  }

  /** The candle operand on every bar: missing exactly without a leg, otherwise the largest candle of the leg. */
  method ScanCandles(
    ep: SideEpisode, m: Market, tf: nat, base: nat, leg: Leg, with: bool, atr: Option<Series>, period: nat)
    returns (out: Series, ghost bs: Buckets)
    requires tf > 0 && period > 0 && Grid(m, |m.time|) && Tables(ep, |m.time|)
    ensures |out| == |m.time| && Bucketed(m, tf, bs)
    ensures var sign := if with == (ep.side == Long) then 1.0 else -1.0;
            var units := UnitsFor(m, tf, base, bs, atr, period);
            forall t | 0 <= t < |m.time| :: CandleOn(ep, m, tf, base, sign, units, leg, t, out[t])
    ensures var up := if with then ep.side == Long else ep.side == Short;
            forall t | 0 <= t < |m.time| :: MostOn(ep, m, tf, base, up, atr, period, leg, t, out[t])
  {
    hide MostOf, CandleOn, LargestCandle, Bucketed, Tables, InnerValue, EndValue, UnitsOf, LegAt;
    var sign := if with == (ep.side == Long) then 1.0 else -1.0;
    var buckets := FindBuckets(m, tf);
    bs := buckets;
    var columns := UnitsFor(m, tf, base, buckets, atr, period);
    var full := FullColumn(m, tf, sign, columns, buckets);
    var rows := FindRows(ep, m, tf, buckets, leg);
    RowsOrdered(ep, m, tf, buckets, leg, rows, full, sign, columns);
    var between := Between(full, rows);
    out := [];
    var t := 0;
    while t < |m.time|
      invariant 0 <= t <= |m.time| && |out| == t
      invariant forall k | 0 <= k < t :: CandleOn(ep, m, tf, base, sign, columns, leg, k, out[k])
    {
      var value := CandleRow(ep, m, tf, base, sign, columns, buckets, full, leg, rows, between, t);
      out := out + [value];
      t := t + 1;
    }
    ghost var up := if with then ep.side == Long else ep.side == Short;
    assert sign == SignOf(up);
    forall k | 0 <= k < |m.time| ensures MostOn(ep, m, tf, base, up, atr, period, leg, k, out[k]) {
      OnMeans(ep, m, tf, base, up, buckets, atr, period, leg, k, out[k]);
    }
  }

  lemma RowsOrdered(
    ep: SideEpisode, m: Market, tf: nat, bs: Buckets, leg: Leg, rows: seq<Option<Row>>, full: seq<real>,
    sign: real, units: Units)
    requires tf > 0 && Grid(m, |m.time|) && Tables(ep, |m.time|) && Bucketed(m, tf, bs)
    requires RowsOf(ep, m, tf, bs, leg, rows) && FullCandles(m, tf, sign, units, bs, full)
    ensures |rows| == |m.time| && forall t | 0 <= t < |rows| && rows[t].Some? ::
              rows[t].value.first <= rows[t].value.last < |full|
  {
    forall t | 0 <= t < |rows| && rows[t].Some? ensures rows[t].value.first <= rows[t].value.last < |full| {
      RowOrder(m, tf, bs, rows[t].value.begin, rows[t].value.end);
    }
  }

  method CandleRow(
    ghost ep: SideEpisode, m: Market, tf: nat, base: nat, sign: real, units: Units, bs: Buckets,
    full: seq<real>, ghost leg: Leg, rows: seq<Option<Row>>, between: Series, t: nat)
    returns (value: Option<real>)
    requires tf > 0 && Grid(m, |m.time|) && Tables(ep, |m.time|) && Bucketed(m, tf, bs) && t < |m.time|
    requires RowsOf(ep, m, tf, bs, leg, rows) && FullCandles(m, tf, sign, units, bs, full)
    requires |between| == |rows|
    requires rows[t].Some? ==> rows[t].value.first <= rows[t].value.last < |full|
    requires between[t] == if rows[t].Some? && rows[t].value.last - rows[t].value.first >= 2
                           then Some(Extreme(true, full, rows[t].value.first + 1, rows[t].value.last)) else None
    ensures CandleOn(ep, m, tf, base, sign, units, leg, t, value)
  {
    hide LargestCandle, InnerValue, EndValue, Extreme;
    if rows[t].None? {
      return None;
    }
    var row := rows[t].value;
    RowOrder(m, tf, bs, row.begin, row.end);
    var x;
    if row.first == row.last {
      x := EndValue(m, tf, base, sign, units, bs, row.begin, row.end);
    } else {
      x := Better(true, InnerValue(m, tf, sign, units, bs, row.begin, row.first),
                  EndValue(m, tf, base, sign, units, bs, bs.first[row.last], row.end));
      if between[t].Some? {
        x := Better(true, x, between[t].value);
      }
    }
    RowIsLargest(m, tf, base, sign, units, bs, full, row.begin, row.end, x);
    value := Some(x);
  }
}
