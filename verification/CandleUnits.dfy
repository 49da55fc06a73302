/** The ATR a candle is measured in, and what a measured candle is worth: in the bars and the ATR column
    themselves, without the columns by bucket. */
module CandleUnits {
  import opened NodeProgram
  import opened EpisodeTables
  import opened WindowMath
  import opened CandleValues

  // -- the ATR of every bucket -------------------------------------------------------------

  function At(xs: Series, i: int): Option<real> {
    if 0 <= i < |xs| then xs[i] else None
  }

  /** The extreme of a bucket's prices; missing when one of them is. */
  function BucketExtreme(largest: bool, xs: Series, low: nat, high: nat): Option<real>
    requires low <= high < |xs|
  {
    if Present(xs, low, high + 1) then Some(Extreme(largest, Clean(xs), low, high + 1)) else None
  }

  function Distance(a: real, b: real): real {
    if a < b then b - a else a - b
  }

  /** The true range of a bucket; its plain range while the close before it is missing. */
  function TrueRange(high: Option<real>, low: Option<real>, previousClose: Option<real>): Option<real> {
    if high.None? || low.None? then None
    else if previousClose.None? then Some(high.value - low.value)
    else Some(Better(true, high.value - low.value,
                     Better(true, Distance(high.value, previousClose.value), Distance(low.value, previousClose.value))))
  }

  function Smoothed(previous: real, current: real, period: nat): real
    requires period > 0
  {
    (previous * (period as real - 1.0) + current) / period as real
  }

  function Recurred(prev: Option<real>, range: Option<real>, period: nat): Option<real>
    requires period > 0
  {
    if prev.None? || range.None? then None else Some(Smoothed(prev.value, range.value, period))
  }

  /** The two ATR columns by bucket: of the candle before it, and of its own. On the base timeframe they are read
      off; above it the own ATR is the aligned value at the next bucket, or the recursion while there is none. */
  function UnitsOf(m: Market, tf: nat, base: nat, bs: Buckets, atr: Series, period: nat): Units
    requires tf > 0 && period > 0 && Grid(m, |m.time|) && Bucketed(m, tf, bs)
  {
    if tf == base then
      Units(seq(|bs.first|, b requires 0 <= b < |bs.first| => At(atr, bs.first[b])),
            seq(|bs.first|, b requires 0 <= b < |bs.first| => At(atr, bs.first[b] as int - 1)))
    else
      Units(seq(|bs.first|, b requires 0 <= b < |bs.first| && Grid(m, |m.time|) && Bucketed(m, tf, bs) =>
                  OwnUnit(m, tf, bs, atr, period, b)),
            seq(|bs.first|, b requires 0 <= b < |bs.first| => At(atr, bs.first[b])))
  }

  function UnitsFor(m: Market, tf: nat, base: nat, bs: Buckets, atr: Option<Series>, period: nat): Units
    requires tf > 0 && period > 0 && Grid(m, |m.time|) && Bucketed(m, tf, bs)
  {
    if atr.None? then NoUnits else UnitsOf(m, tf, base, bs, atr.value, period)
  }

  predicate Adjacent(m: Market, tf: nat, bs: Buckets, b: int)
    requires tf > 0
  {
    && 0 < b < |bs.first| && bs.first[b] < |m.time| && bs.first[b - 1] < |m.time|
    && Bucket(m, tf, bs.first[b]) == Bucket(m, tf, bs.first[b - 1]) + 1
  }

  function OwnUnit(m: Market, tf: nat, bs: Buckets, atr: Series, period: nat, b: nat): Option<real>
    requires tf > 0 && period > 0 && b < |bs.first| && Grid(m, |m.time|) && Bucketed(m, tf, bs)
  {
    if Adjacent(m, tf, bs, b + 1) then At(atr, bs.first[b + 1])
    else if Adjacent(m, tf, bs, b) then
      Recurred(At(atr, bs.first[b]),
        TrueRange(BucketExtreme(true, m.high, bs.first[b], bs.last[b]),
                  BucketExtreme(false, m.low, bs.first[b], bs.last[b]),
                  if b == 0 then None else m.close[bs.last[b - 1]]),
        period)
    else None
  }

  // -- the candle that holds a bar -----------------------------------------------------------

  /** The bars `i` and `v` fall into one timeframe bucket. */
  ghost predicate Together(m: Market, tf: nat, v: int, i: int)
    requires tf > 0
  {
    0 <= i < |m.time| && 0 <= v < |m.time| && m.time[i] / tf == m.time[v] / tf
  }

  /** The bars `f..l` are all the bars of one timeframe bucket, that of bar `v`. */
  ghost predicate WholeBucket(m: Market, tf: nat, v: nat, f: nat, l: nat)
    requires tf > 0
  {
    && f <= v <= l < |m.time| && (forall i | f <= i <= l :: Together(m, tf, v, i))
    && !Together(m, tf, v, f - 1) && !Together(m, tf, v, l + 1)
  }

  ghost predicate Entry(xs: Series, i: int, x: real) {
    0 <= i < |xs| && xs[i] == Some(x)
  }

  /** `x` is the largest, or the smallest, of the prices of the bars `f..l`, none of which is missing. */
  ghost predicate Peak(largest: bool, xs: Series, f: nat, l: nat, x: real) {
    && l < |xs| && (exists i: nat :: f <= i <= l && xs[i] == Some(x))
    && forall i: nat | f <= i <= l :: xs[i].Some? && if largest then xs[i].value <= x else x <= xs[i].value
  }

  /** The true range of the candle `f..l`: the widest of its range and its reach from the close before it. */
  ghost predicate ReachOf(m: Market, f: nat, l: nat, r: real) {
    exists h, w :: Peak(true, m.high, f, l, h) && Peak(false, m.low, f, l, w) && Reach(h, w, m.close, f, r)
  }

  ghost predicate Reach(h: real, w: real, close: Series, f: nat, r: real) {
    if f == 0 || f > |close| || close[f - 1].None? then r == h - w else
    var c := close[f - 1].value;
    && r >= h - w && r >= h - c && r >= c - h && r >= w - c && r >= c - w
    && (r == h - w || r == h - c || r == c - h || r == w - c || r == c - w)
  }

  /** The candle's own ATR. On the base timeframe it stands on the candle's bar. Above it, it is what the next
      candle opens with, if that follows at once; while there is no such candle it continues the ATR of the
      candle before, if that one was adjacent, by one step of the average. */
  ghost predicate OwnAtr(m: Market, tf: nat, base: nat, atr: Series, period: nat, v: nat, a: real)
    requires tf > 0
  {
    exists f: nat, l: nat :: WholeBucket(m, tf, v, f, l) && OwnAtrOf(m, tf, base, atr, period, f, l, a)
  }

  ghost predicate OwnAtrOf(m: Market, tf: nat, base: nat, atr: Series, period: nat, f: nat, l: nat, a: real)
    requires tf > 0 && f <= l < |m.time|
  {
    if tf == base then Entry(atr, f, a)
    else if l + 1 < |m.time| && m.time[l + 1] / tf == m.time[l] / tf + 1 then Entry(atr, l + 1, a)
    else
      && f > 0 && m.time[f] / tf == m.time[f - 1] / tf + 1
      && exists p, r :: Entry(atr, f, p) && ReachOf(m, f, l, r) && a * period as real == p * (period as real - 1.0) + r
  }

  /** The ATR of the candle before: on the base timeframe one bar back, above it what the candle opened with. */
  ghost predicate PreviousAtr(m: Market, tf: nat, base: nat, atr: Series, v: nat, a: real)
    requires tf > 0
  {
    exists f: nat, l: nat :: WholeBucket(m, tf, v, f, l) && Entry(atr, if tf == base then f as int - 1 else f, a)
  }

  /** The end bar completes its candle on the time grid. */
  ghost predicate Complete(m: Market, tf: nat, base: nat, end: nat)
    requires tf > 0 && end < |m.time|
  {
    m.time[end] + base >= (m.time[end] / tf + 1) * tf
  }

  /** The ATR in use for a candle of a leg that ends on bar `end`: its own if the candle is closed, else the one
      before it; of use only if it is positive. */
  ghost predicate Usable(m: Market, tf: nat, base: nat, atr: Series, period: nat, end: nat, v: nat, a: real)
    requires tf > 0 && end < |m.time|
  {
    && a > 0.0
    && if v < end || Complete(m, tf, base, end) then OwnAtr(m, tf, base, atr, period, v, a)
       else PreviousAtr(m, tf, base, atr, v, a)
  }

  /** How far a body goes up, or down. */
  function Along(up: bool, open: real, close: real): real {
    if up then close - open else open - close
  }

  function SignOf(up: bool): real {
    if up then 1.0 else -1.0
  }

  function Positive(x: real): real {
    if x > 0.0 then x else 0.0
  }

  /** What the candle of bars `u..v` counts for in a leg that ends on bar `end`: the part of its body in the
      leg's direction, in its ATR if one is asked for. */
  ghost predicate Worth(
    m: Market, tf: nat, base: nat, up: bool, atr: Option<Series>, period: nat, end: nat, u: nat, v: nat, x: real)
    requires tf > 0 && end < |m.time| && Grid(m, |m.time|) && u <= v <= end
  {
    if m.open[u].None? || m.close[v].None? then x == 0.0 else
    var body := Positive(Along(up, m.open[u].value, m.close[v].value));
    if atr.None? then x == body
    else
      || (exists a :: Usable(m, tf, base, atr.value, period, end, v, a) && x * a == body)
      || (x == 0.0 && forall a :: !Usable(m, tf, base, atr.value, period, end, v, a))
  }

  /** `x` is what the candle of the leg that counts most counts for. */
  ghost predicate MostOf(
    m: Market, tf: nat, base: nat, up: bool, atr: Option<Series>, period: nat, begin: nat, end: nat, x: real)
    requires tf > 0 && end < |m.time| && Grid(m, |m.time|)
  {
    && (forall u: nat, v: nat, y | CandleOf(m, tf, begin, end, u, v) && Worth(m, tf, base, up, atr, period, end, u, v, y) ::
          y <= x)
    && exists u: nat, v: nat :: CandleOf(m, tf, begin, end, u, v) && Worth(m, tf, base, up, atr, period, end, u, v, x)
  }

  // -- the columns by bucket are these ATRs ----------------------------------------------------

  lemma BucketIsWhole(m: Market, tf: nat, bs: Buckets, v: nat)
    requires tf > 0 && Bucketed(m, tf, bs) && v < |m.time|
    ensures var b := bs.ordinal[v];
            && WholeBucket(m, tf, v, bs.first[b], bs.last[b])
            && forall f: nat, l: nat | WholeBucket(m, tf, v, f, l) :: f == bs.first[b] && l == bs.last[b]
  {
    var b := bs.ordinal[v];
    var f, l := bs.first[b], bs.last[b];
    WholeStretch(m, tf, bs, v);
    forall g: nat, k: nat | WholeBucket(m, tf, v, g, k) ensures g == f && k == l {
      OneBucket(m, tf, v, f, l, g, k);
    }
  }

  lemma OneBucket(m: Market, tf: nat, v: nat, f: nat, l: nat, g: nat, k: nat)
    requires tf > 0 && WholeBucket(m, tf, v, f, l) && WholeBucket(m, tf, v, g, k)
    ensures f == g && l == k
  {
    NoWider(m, tf, v, f, l, g, k);
    NoWider(m, tf, v, g, k, f, l);
  }

  lemma NoWider(m: Market, tf: nat, v: nat, f: nat, l: nat, g: nat, k: nat)
    requires tf > 0 && WholeBucket(m, tf, v, f, l) && WholeBucket(m, tf, v, g, k)
    ensures f <= g && k <= l
  {
    hide Together;
  }

  lemma WholeStretch(m: Market, tf: nat, bs: Buckets, v: nat)
    requires tf > 0 && Bucketed(m, tf, bs) && v < |m.time|
    ensures var b := bs.ordinal[v]; WholeBucket(m, tf, v, bs.first[b], bs.last[b])
  {
    hide Ordinal;
    var b := bs.ordinal[v];
    var f, l := bs.first[b], bs.last[b];
    BucketBars(m, tf, bs, f, b);
    BucketBars(m, tf, bs, l, b);
    OrdinalsRise(m, tf, f, l);
    forall i | f <= i <= l ensures Together(m, tf, v, i) {
      assert Bucket(m, tf, i) == Bucket(m, tf, f) && Bucket(m, tf, v) == Bucket(m, tf, f);
    }
    if f > 0 {
      BucketBars(m, tf, bs, f - 1, b);
      NextOrdinalDiffers(m, tf, f);
      assert Together(m, tf, v, f) && m.time[f - 1] / tf != m.time[f] / tf;
    }
    if l + 1 < |m.time| {
      BucketBars(m, tf, bs, l + 1, b);
      NextOrdinalDiffers(m, tf, l + 1);
      assert Together(m, tf, v, l) && m.time[l + 1] / tf != m.time[l] / tf;
    }
  }

  lemma NextOrdinalDiffers(m: Market, tf: nat, i: nat)
    requires tf > 0 && 0 < i < |m.time|
    ensures Ordinal(m, tf, i) != Ordinal(m, tf, i - 1) ==> m.time[i] / tf != m.time[i - 1] / tf
  {
  }

  lemma PeakIs(largest: bool, xs: Series, f: nat, l: nat)
    requires f <= l < |xs|
    ensures var e := BucketExtreme(largest, xs, f, l);
            if e.Some? then forall x :: Peak(largest, xs, f, l, x) <==> x == e.value
            else forall x :: !Peak(largest, xs, f, l, x)
  {
    hide Extreme;
    if Present(xs, f, l + 1) {
      ExtremeIs(largest, Clean(xs), f, l + 1);
      var e := Extreme(largest, Clean(xs), f, l + 1);
      var i :| f <= i < l + 1 && Clean(xs)[i] == e;
      assert xs[i] == Some(e);
      assert Peak(largest, xs, f, l, e);
      forall x | Peak(largest, xs, f, l, x) ensures x == e {
        var j: nat :| f <= j <= l && xs[j] == Some(x);
        assert Clean(xs)[j] == x;
      }
    }
  }

  lemma ReachIs(m: Market, f: nat, l: nat)
    requires f <= l < |m.time| && Grid(m, |m.time|)
    ensures var range := TrueRange(BucketExtreme(true, m.high, f, l), BucketExtreme(false, m.low, f, l),
                                   if f == 0 then None else m.close[f - 1]);
            if range.Some? then forall r :: ReachOf(m, f, l, r) <==> r == range.value
            else forall r :: !ReachOf(m, f, l, r)
  {
    hide BucketExtreme, Peak;
    PeakIs(true, m.high, f, l);
    PeakIs(false, m.low, f, l);
    var h, w := BucketExtreme(true, m.high, f, l), BucketExtreme(false, m.low, f, l);
    if h.Some? && w.Some? {
      forall r ensures ReachOf(m, f, l, r) <==> Reach(h.value, w.value, m.close, f, r) {
      }
    }
  }

  lemma Continued(a: real, p: real, r: real, period: nat)
    requires period > 0
    ensures a * period as real == p * (period as real - 1.0) + r <==> a == Smoothed(p, r, period)
  {
  }

  lemma OwnUnitIs(m: Market, tf: nat, bs: Buckets, atr: Series, period: nat, b: nat, a: real, base: nat)
    requires tf > 0 && period > 0 && tf != base && b < |bs.first| && Grid(m, |m.time|) && Bucketed(m, tf, bs)
    requires |bs.first| == |bs.last| && bs.first[b] <= bs.last[b] < |m.time|
    ensures OwnUnit(m, tf, bs, atr, period, b) == Some(a) <==> OwnAtrOf(m, tf, base, atr, period, bs.first[b], bs.last[b], a)
  {
    hide Reach, ReachOf, TrueRange, BucketExtreme, Ordinal, Recurred, Bucketed;
    BucketNeighbours(m, tf, bs, b);
    var f, l := bs.first[b], bs.last[b];
    ReachIs(m, f, l);
    if !Adjacent(m, tf, bs, b + 1) && Adjacent(m, tf, bs, b) {
      var p, range := At(atr, f), TrueRange(BucketExtreme(true, m.high, f, l), BucketExtreme(false, m.low, f, l),
                                            m.close[bs.last[b - 1]]);
      ContinuesIs(p, range, period, a);
      EntryIs(atr, f);
      assert OwnUnit(m, tf, bs, atr, period, b) == Recurred(p, range, period);
      if p.Some? && range.Some? && a * period as real == p.value * (period as real - 1.0) + range.value {
        assert Entry(atr, f, p.value) && ReachOf(m, f, l, range.value);
      }
    }
  }

  lemma EntryIs(xs: Series, i: int)
    ensures forall x :: Entry(xs, i, x) <==> At(xs, i) == Some(x)
  {
  }

  lemma ContinuesIs(p: Option<real>, range: Option<real>, period: nat, a: real)
    requires period > 0
    ensures Recurred(p, range, period) == Some(a) <==>
              p.Some? && range.Some? && a * period as real == p.value * (period as real - 1.0) + range.value
  {
    if p.Some? && range.Some? {
      Continued(a, p.value, range.value, period);
    }
  }

  /** Neighbouring buckets are next to each other. */
  lemma BucketNeighbours(m: Market, tf: nat, bs: Buckets, b: nat)
    requires tf > 0 && Bucketed(m, tf, bs) && b < |bs.first|
    ensures |bs.first| == |bs.last| && bs.first[b] <= bs.last[b] < |m.time|
    ensures b > 0 ==> bs.first[b] == bs.last[b - 1] + 1 && bs.first[b] > 0
    ensures b + 1 < |bs.first| <==> bs.last[b] + 1 < |m.time|
    ensures b + 1 < |bs.first| ==> bs.first[b + 1] == bs.last[b] + 1
    ensures b == 0 ==> bs.first[b] == 0
    ensures Adjacent(m, tf, bs, b + 1) <==>
              bs.last[b] + 1 < |m.time| && m.time[bs.last[b] + 1] / tf == m.time[bs.last[b]] / tf + 1
    ensures Adjacent(m, tf, bs, b) <==> b > 0 && m.time[bs.first[b]] / tf == m.time[bs.first[b] - 1] / tf + 1
  {
    hide Ordinal;
    if b > 0 {
      assert Follows(bs.first, bs.last, b);
      SameBucketEnds(m, tf, bs, b - 1);
    }
    if b + 1 < |bs.first| {
      assert Follows(bs.first, bs.last, b + 1);
      SameBucketEnds(m, tf, bs, b);
    }
  }

  lemma SameBucketEnds(m: Market, tf: nat, bs: Buckets, b: nat)
    requires tf > 0 && Bucketed(m, tf, bs) && b < |bs.first|
    ensures bs.first[b] <= bs.last[b] < |m.time| && m.time[bs.first[b]] / tf == m.time[bs.last[b]] / tf
  {
    hide Ordinal;
    BucketBars(m, tf, bs, bs.first[b], b);
    BucketBars(m, tf, bs, bs.last[b], b);
    OrdinalsRise(m, tf, bs.first[b], bs.last[b]);
    assert Bucket(m, tf, bs.last[b]) == Bucket(m, tf, bs.first[b]);
  }

  /** The unit in use is the usable ATR. */
  lemma UnitIs(
    m: Market, tf: nat, base: nat, bs: Buckets, atr: Series, period: nat, end: nat, v: nat, a: real)
    requires tf > 0 && period > 0 && Grid(m, |m.time|) && Bucketed(m, tf, bs) && v <= end < |m.time|
    ensures var unit := UnitOf(UnitsFor(m, tf, base, bs, Some(atr), period), Ordinal(m, tf, v), v == end && !Closes(m, tf, base, end));
            unit.Some? && (unit.value == Some(a) && a > 0.0 <==> Usable(m, tf, base, atr, period, end, v, a))
  {
    hide WholeBucket, OwnAtrOf, OwnUnit, Bucketed;
    ClosesIs(m, tf, base, end);
    BucketIsWhole(m, tf, bs, v);
    OrdinalIs(m, tf, bs, v);
    var b := bs.ordinal[v];
    if v < end || Complete(m, tf, base, end) {
      OwnColumn(m, tf, base, bs, atr, period, b, a);
    } else {
      PreviousColumn(m, tf, base, bs, atr, period, b, a);
    }
  }

  lemma ClosesIs(m: Market, tf: nat, base: nat, end: nat)
    requires tf > 0 && end < |m.time|
    ensures Closes(m, tf, base, end) <==> Complete(m, tf, base, end)
  {
  }

  lemma OrdinalIs(m: Market, tf: nat, bs: Buckets, v: nat)
    requires tf > 0 && Bucketed(m, tf, bs) && v < |m.time|
    ensures |bs.ordinal| == |m.time| && |bs.first| == |bs.last| && bs.ordinal[v] == Ordinal(m, tf, v) < |bs.first|
    ensures bs.first[bs.ordinal[v]] <= bs.last[bs.ordinal[v]] < |m.time|
  {
  }

  lemma OwnColumn(m: Market, tf: nat, base: nat, bs: Buckets, atr: Series, period: nat, b: nat, a: real)
    requires tf > 0 && period > 0 && Grid(m, |m.time|) && Bucketed(m, tf, bs) && b < |bs.first|
    requires |bs.first| == |bs.last| && bs.first[b] <= bs.last[b] < |m.time|
    ensures var unit := UnitOf(UnitsFor(m, tf, base, bs, Some(atr), period), b, false);
            unit.Some? && (unit.value == Some(a) <==> OwnAtrOf(m, tf, base, atr, period, bs.first[b], bs.last[b], a))
  {
    hide Bucketed, OwnUnit;
    if tf != base {
      OwnUnitIs(m, tf, bs, atr, period, b, a, base);
    }
  }

  lemma PreviousColumn(m: Market, tf: nat, base: nat, bs: Buckets, atr: Series, period: nat, b: nat, a: real)
    requires tf > 0 && period > 0 && Grid(m, |m.time|) && Bucketed(m, tf, bs) && b < |bs.first|
    ensures var unit := UnitOf(UnitsFor(m, tf, base, bs, Some(atr), period), b, true);
            unit.Some? && (unit.value == Some(a) <==> Entry(atr, if tf == base then bs.first[b] as int - 1 else bs.first[b], a))
  {
    hide Bucketed, OwnUnit;
  }

  /** A candle counts for exactly its value. */
  lemma WorthIs(
    m: Market, tf: nat, base: nat, up: bool, bs: Buckets, atr: Option<Series>, period: nat, end: nat, u: nat, v: nat, x: real)
    requires tf > 0 && period > 0 && Grid(m, |m.time|) && Bucketed(m, tf, bs) && u <= v <= end < |m.time|
    ensures Worth(m, tf, base, up, atr, period, end, u, v, x) <==>
              x == CandleValue(m, tf, base, SignOf(up), UnitsFor(m, tf, base, bs, atr, period), end, u, v)
  {
    hide Worth, UnitsFor, UnitOf, Bucketed, Ordinal, Closes, SignOf;
    var unit := UnitOf(UnitsFor(m, tf, base, bs, atr, period), Ordinal(m, tf, v), v == end && !Closes(m, tf, base, end));
    if atr.None? {
      assert atr == None;
      NoUnit(m, tf, base, bs, period, Ordinal(m, tf, v), v == end && !Closes(m, tf, base, end));
    } else {
      forall a ensures unit.Some? && (unit.value == Some(a) && a > 0.0 <==> Usable(m, tf, base, atr.value, period, end, v, a)) {
        UnitIs(m, tf, base, bs, atr.value, period, end, v, a);
      }
      UnitIs(m, tf, base, bs, atr.value, period, end, v, 0.0);
    }
    NormalisedIs(m, tf, base, up, atr, period, end, u, v, x, unit);
  }

  lemma NormalisedIs(
    m: Market, tf: nat, base: nat, up: bool, atr: Option<Series>, period: nat, end: nat, u: nat, v: nat, x: real, unit: Unit)
    requires tf > 0 && Grid(m, |m.time|) && u <= v <= end < |m.time|
    requires atr.None? <==> unit.None?
    requires atr.Some? ==> forall a ::
               unit.value == Some(a) && a > 0.0 <==> Usable(m, tf, base, atr.value, period, end, v, a)
    ensures Worth(m, tf, base, up, atr, period, end, u, v, x) <==>
              x == Normalised(BodyOf(SignOf(up), m.open[u], m.close[v]), unit)
  {
    hide Usable, Normalised, Positive, Along, BodyOf, SignOf;
    if m.open[u].Some? && m.close[v].Some? {
      var gain := Along(up, m.open[u].value, m.close[v].value);
      BodyIs(up, m.open[u].value, m.close[v].value);
      NormalisedMeans(gain, unit, x);
      if atr.Some? && unit.value.Some? && unit.value.value > 0.0 {
        OneUsable(m, tf, base, atr.value, period, end, v, unit.value.value, x, Positive(gain));
        assert Usable(m, tf, base, atr.value, period, end, v, unit.value.value);
      }
    } else {
      MissingBody(SignOf(up), m.open[u], m.close[v], unit);
    }
  }

  lemma OneUsable(
    m: Market, tf: nat, base: nat, atr: Series, period: nat, end: nat, v: nat, unit: real, x: real, body: real)
    requires tf > 0 && end < |m.time| && unit > 0.0
    requires forall a :: Usable(m, tf, base, atr, period, end, v, a) <==> a == unit
    ensures (exists a :: Usable(m, tf, base, atr, period, end, v, a) && x * a == body) <==> x * unit == body
  {
    hide Usable;
    if a :| Usable(m, tf, base, atr, period, end, v, a) && x * a == body {
      assert a == unit;
    }
    if x * unit == body {
      assert Usable(m, tf, base, atr, period, end, v, unit);
    }
  }

  lemma MissingBody(sign: real, open: Option<real>, close: Option<real>, unit: Unit)
    requires open.None? || close.None?
    ensures Normalised(BodyOf(sign, open, close), unit) == 0.0
  {
  }

  lemma BodyIs(up: bool, open: real, close: real)
    ensures BodyOf(SignOf(up), Some(open), Some(close)) == Some(Along(up, open, close))
  {
  }

  lemma NormalisedMeans(gain: real, unit: Unit, x: real)
    ensures x == Normalised(Some(gain), unit) <==>
              if unit.None? then x == Positive(gain)
              else if unit.value.Some? && unit.value.value > 0.0 then x * unit.value.value == Positive(gain)
              else x == 0.0
  {
    if unit.Some? && unit.value.Some? && unit.value.value > 0.0 {
      Divided(x, unit.value.value, Positive(gain));
    }
  }

  lemma NoUnit(m: Market, tf: nat, base: nat, bs: Buckets, period: nat, b: nat, open: bool)
    requires tf > 0 && period > 0 && Grid(m, |m.time|) && Bucketed(m, tf, bs)
    ensures UnitOf(UnitsFor(m, tf, base, bs, None, period), b, open) == None
  {
  }

  lemma Divided(x: real, a: real, body: real)
    requires a > 0.0
    ensures x * a == body <==> x == body / a
  {
  }

  /** The largest candle is the one that counts most. */
  lemma LargestMeans(
    m: Market, tf: nat, base: nat, up: bool, bs: Buckets, atr: Option<Series>, period: nat, begin: nat, end: nat, x: real)
    requires tf > 0 && period > 0 && Grid(m, |m.time|) && Bucketed(m, tf, bs) && end < |m.time|
    ensures LargestCandle(m, tf, base, SignOf(up), UnitsFor(m, tf, base, bs, atr, period), begin, end, x)
       <==> MostOf(m, tf, base, up, atr, period, begin, end, x)
  {
    hide CandleValue, Worth, UnitsFor, Bucketed, Bucket, SignOf;
    var units := UnitsFor(m, tf, base, bs, atr, period);
    forall u: nat, v: nat, y | CandleOf(m, tf, begin, end, u, v)
      ensures u <= v <= end
      ensures Worth(m, tf, base, up, atr, period, end, u, v, y) <==>
                y == CandleValue(m, tf, base, SignOf(up), units, end, u, v)
    {
      Ordered(m, tf, begin, end, u, v);
      WorthIs(m, tf, base, up, bs, atr, period, end, u, v, y);
    }
    if LargestCandle(m, tf, base, SignOf(up), units, begin, end, x) {
      var u: nat, v: nat :| CandleOf(m, tf, begin, end, u, v) && CandleValue(m, tf, base, SignOf(up), units, end, u, v) == x;
      assert Worth(m, tf, base, up, atr, period, end, u, v, x);
    }
    if MostOf(m, tf, base, up, atr, period, begin, end, x) {
      var u: nat, v: nat :| CandleOf(m, tf, begin, end, u, v) && Worth(m, tf, base, up, atr, period, end, u, v, x);
      forall p: nat, q: nat | CandleOf(m, tf, begin, end, p, q)
        ensures CandleValue(m, tf, base, SignOf(up), units, end, p, q) <= x
      {
        assert Worth(m, tf, base, up, atr, period, end, p, q, CandleValue(m, tf, base, SignOf(up), units, end, p, q));
      }
    }
  }

  lemma Ordered(m: Market, tf: nat, begin: nat, end: nat, u: nat, v: nat)
    requires tf > 0 && end < |m.time| && CandleOf(m, tf, begin, end, u, v)
    ensures u <= v <= end
  {
  }
}
