/** The largest candle of a leg (`candle_values`): the base bars of the leg build timeframe candles, clipped to
    the leg at both ends; each body counts in its direction, in units of its own candle's ATR. */
module CandleValues {
  import opened NodeProgram
  import opened EpisodeTables
  import opened WindowMath
  import opened TouchLegs

  datatype Market = Market(time: seq<nat>, open: Series, high: Series, low: Series, close: Series)

  predicate Grid(m: Market, n: nat) {
    |m.time| == n && |m.open| == n && |m.high| == n && |m.low| == n && |m.close| == n
  }

  function Bucket(m: Market, tf: nat, i: nat): nat
    requires tf > 0 && i < |m.time|
  {
    m.time[i] / tf
  }

  // -- the reference definition ------------------------------------------------------------

  /** The bars `u..v` are one candle of the leg `begin..end`: a longest stretch of the leg inside one bucket. */
  ghost predicate CandleOf(m: Market, tf: nat, begin: nat, end: nat, u: nat, v: nat)
    requires tf > 0 && end < |m.time|
  {
    && begin <= u <= v <= end
    && (forall i | u <= i <= v :: Bucket(m, tf, i) == Bucket(m, tf, u))
    && (u == begin || Bucket(m, tf, u - 1) != Bucket(m, tf, u))
    && (v == end || Bucket(m, tf, v + 1) != Bucket(m, tf, v))
  }

  function BodyOf(sign: real, open: Option<real>, close: Option<real>): Option<real> {
    if open.Some? && close.Some? then Some(sign * (close.value - open.value)) else None
  }

  /** The ATR in use: none at all, or a value that may be missing. */
  type Unit = Option<Option<real>>

  /** A body against the direction counts nothing, as does one without a usable ATR. */
  function Normalised(body: Option<real>, unit: Unit): real {
    if body.None? then 0.0 else
    var positive := if body.value < 0.0 then 0.0 else body.value;
    match unit
    case None => positive
    case Some(atr) => if atr.Some? && atr.value > 0.0 then positive / atr.value else 0.0
  }

  /** The end bar closes its candle on the time grid. */
  predicate Closes(m: Market, tf: nat, base: nat, end: nat)
    requires tf > 0 && end < |m.time|
  {
    m.time[end] + base >= (Bucket(m, tf, end) + 1) * tf
  }

  /** The ATR of the candle of a bucket: its own, or the one before it while the leg's last candle is open. */
  datatype Units = NoUnits | Units(own: seq<Option<real>>, prev: seq<Option<real>>)

  function UnitOf(units: Units, b: nat, open: bool): Unit {
    match units
    case NoUnits => None
    case Units(own, prev) =>
      var column := if open then prev else own;
      Some(if b < |column| then column[b] else None)
  }

  /** How many buckets precede that of bar `i`. */
  function Ordinal(m: Market, tf: nat, i: nat): nat
    requires tf > 0 && i < |m.time|
  {
    if i == 0 then 0 else
    Ordinal(m, tf, i - 1) + if Bucket(m, tf, i) != Bucket(m, tf, i - 1) then 1 else 0
  }

  function CandleValue(m: Market, tf: nat, base: nat, sign: real, units: Units, end: nat, u: nat, v: nat): real
    requires tf > 0 && u <= v <= end < |m.time| && Grid(m, |m.time|)
  {
    Normalised(BodyOf(sign, m.open[u], m.close[v]),
               UnitOf(units, Ordinal(m, tf, v), v == end && !Closes(m, tf, base, end)))
  }

  /** The largest candle of the leg. */
  ghost predicate LargestCandle(m: Market, tf: nat, base: nat, sign: real, units: Units, begin: nat, end: nat, x: real)
    requires tf > 0 && end < |m.time| && Grid(m, |m.time|)
  {
    && (forall u: nat, v: nat | CandleOf(m, tf, begin, end, u, v) :: CandleValue(m, tf, base, sign, units, end, u, v) <= x)
    && exists u: nat, v: nat :: CandleOf(m, tf, begin, end, u, v) && CandleValue(m, tf, base, sign, units, end, u, v) == x
  }

  // -- nothing after the end of the leg is read ------------------------------------------------

  predicate SameUpTo(m: Market, k: Market, t: nat) {
    && t < |m.time| && t < |k.time| && Grid(m, |m.time|) && Grid(k, |k.time|)
    && forall i | 0 <= i <= t :: m.time[i] == k.time[i] && m.open[i] == k.open[i] && m.close[i] == k.close[i]
  }

  lemma SameCandles(m: Market, k: Market, tf: nat, t: nat, begin: nat, end: nat, u: nat, v: nat)
    requires tf > 0 && SameUpTo(m, k, t) && end <= t
    ensures CandleOf(m, tf, begin, end, u, v) == CandleOf(k, tf, begin, end, u, v)
  {
    forall i | 0 <= i <= t ensures Bucket(m, tf, i) == Bucket(k, tf, i) {
    }
  }

  /** No look-ahead without an ATR: the largest candle of a leg that ends by `t` is settled by the bars up to
      `t`. */
  lemma CandlesReadNothingLater(
    m: Market, k: Market, tf: nat, base: nat, sign: real, t: nat, begin: nat, end: nat, x: real)
    requires tf > 0 && SameUpTo(m, k, t) && end <= t
    ensures LargestCandle(m, tf, base, sign, NoUnits, begin, end, x)
       <==> LargestCandle(k, tf, base, sign, NoUnits, begin, end, x)
  {
    hide CandleValue;
    forall u: nat, v: nat
      ensures CandleOf(m, tf, begin, end, u, v) == CandleOf(k, tf, begin, end, u, v)
      ensures CandleOf(m, tf, begin, end, u, v) ==>
                CandleValue(m, tf, base, sign, NoUnits, end, u, v) == CandleValue(k, tf, base, sign, NoUnits, end, u, v)
    {
      SameCandles(m, k, tf, t, begin, end, u, v);
      if u <= v <= end {
        SameValue(m, k, tf, base, sign, t, end, u, v);
      }
    }
  }

  lemma SameValue(m: Market, k: Market, tf: nat, base: nat, sign: real, t: nat, end: nat, u: nat, v: nat)
    requires tf > 0 && SameUpTo(m, k, t) && u <= v <= end <= t
    ensures CandleValue(m, tf, base, sign, NoUnits, end, u, v) == CandleValue(k, tf, base, sign, NoUnits, end, u, v)
  {
  }

  // -- buckets -----------------------------------------------------------------------------

  /** The bars of every bucket, in order. */
  datatype Buckets = Buckets(ordinal: seq<nat>, first: seq<nat>, last: seq<nat>)

  /** Bucket `b` starts where the one before it ends. */
  predicate Follows(first: seq<nat>, last: seq<nat>, b: nat) {
    0 < b < |first| && b <= |last| && last[b - 1] + 1 == first[b]
  }

  ghost predicate Bucketed(m: Market, tf: nat, bs: Buckets)
    requires tf > 0
  {
    var n := |m.time|;
    && |bs.ordinal| == n && |bs.first| == |bs.last|
    && (forall i | 0 <= i < n :: bs.ordinal[i] == Ordinal(m, tf, i) && bs.ordinal[i] < |bs.first|)
    && (forall b | 0 <= b < |bs.first| ::
          && bs.first[b] <= bs.last[b] < n
          && (bs.first[b] == 0 <==> b == 0) && (bs.last[b] == n - 1 <==> b == |bs.first| - 1))
    && (forall b | 0 < b < |bs.first| :: Follows(bs.first, bs.last, b))
    && (forall i | 0 <= i < n :: bs.first[bs.ordinal[i]] <= i <= bs.last[bs.ordinal[i]])
  }

  lemma {:induction false} OrdinalsRise(m: Market, tf: nat, i: nat, j: nat)
    requires tf > 0 && i <= j < |m.time|
    ensures Ordinal(m, tf, i) <= Ordinal(m, tf, j)
    ensures Ordinal(m, tf, i) == Ordinal(m, tf, j) ==>
              forall k | i <= k <= j :: Bucket(m, tf, k) == Bucket(m, tf, i)
    ensures (forall k | i <= k <= j :: Bucket(m, tf, k) == Bucket(m, tf, i)) ==>
              Ordinal(m, tf, i) == Ordinal(m, tf, j)
  {
    if i < j {
      OrdinalsRise(m, tf, i, j - 1);
      assert Bucket(m, tf, j - 1) == Bucket(m, tf, j - 1) && Bucket(m, tf, j) == Bucket(m, tf, j);
    }
  }

  /** The bars of bucket `b` are those between its first and its last. */
  lemma BucketBars(m: Market, tf: nat, bs: Buckets, i: nat, b: nat)
    requires tf > 0 && Bucketed(m, tf, bs) && i < |m.time| && b < |bs.first|
    ensures bs.ordinal[i] == b <==> bs.first[b] <= i <= bs.last[b]
  {
    hide Follows;
    if bs.first[b] <= i <= bs.last[b] {
      BucketsApart(m, tf, bs, b, bs.ordinal[i]);
      BucketsApart(m, tf, bs, bs.ordinal[i], b);
    }
  }

  lemma {:induction false} BucketsApart(m: Market, tf: nat, bs: Buckets, a: nat, b: nat)
    requires tf > 0 && Bucketed(m, tf, bs) && a < |bs.first| && b < |bs.first|
    ensures a < b ==> bs.last[a] < bs.first[b]
    decreases b
  {
    if a < b {
      assert Follows(bs.first, bs.last, b);
      if a + 1 < b {
        BucketsApart(m, tf, bs, a, b - 1);
      }
    }
  }

  /** The candle of the leg in bucket `b`: its bars, clipped to the leg. */
  function ClipLow(bs: Buckets, begin: nat, b: nat): nat
    requires b < |bs.first|
  {
    if bs.first[b] < begin then begin else bs.first[b]
  }

  function ClipHigh(bs: Buckets, end: nat, b: nat): nat
    requires b < |bs.last|
  {
    if end < bs.last[b] then end else bs.last[b]
  }

  /** The candles of a leg are exactly its clipped buckets. */
  lemma CandlesAreBuckets(m: Market, tf: nat, bs: Buckets, begin: nat, end: nat, u: nat, v: nat)
    requires tf > 0 && Bucketed(m, tf, bs) && begin <= end < |m.time|
    ensures CandleOf(m, tf, begin, end, u, v) <==>
              exists b | bs.ordinal[begin] <= b <= bs.ordinal[end] :: u == ClipLow(bs, begin, b) && v == ClipHigh(bs, end, b)
  {
    if CandleOf(m, tf, begin, end, u, v) {
      CandleIsBucket(m, tf, bs, begin, end, u, v);
    }
    if b :| bs.ordinal[begin] <= b <= bs.ordinal[end] && u == ClipLow(bs, begin, b) && v == ClipHigh(bs, end, b) {
      BucketIsCandle(m, tf, bs, begin, end, b);
    }
  }

  /** A bar that starts its bucket, or the leg, is where the clipped bucket starts. */
  lemma StretchStart(m: Market, tf: nat, bs: Buckets, begin: nat, u: nat)
    requires tf > 0 && Bucketed(m, tf, bs) && begin <= u < |m.time|
    ensures (u == begin || Bucket(m, tf, u - 1) != Bucket(m, tf, u)) <==> u == ClipLow(bs, begin, bs.ordinal[u])
  {
    if u > begin {
      BucketBars(m, tf, bs, u - 1, bs.ordinal[u]);
      assert Ordinal(m, tf, u) == Ordinal(m, tf, u - 1) + if Bucket(m, tf, u) != Bucket(m, tf, u - 1) then 1 else 0;
    }
  }

  lemma StretchEnd(m: Market, tf: nat, bs: Buckets, end: nat, v: nat)
    requires tf > 0 && Bucketed(m, tf, bs) && v <= end < |m.time|
    ensures (v == end || Bucket(m, tf, v + 1) != Bucket(m, tf, v)) <==> v == ClipHigh(bs, end, bs.ordinal[v])
  {
    if v < end {
      BucketBars(m, tf, bs, v + 1, bs.ordinal[v]);
      assert Ordinal(m, tf, v + 1) == Ordinal(m, tf, v) + if Bucket(m, tf, v + 1) != Bucket(m, tf, v) then 1 else 0;
    }
  }

  lemma CandleIsBucket(m: Market, tf: nat, bs: Buckets, begin: nat, end: nat, u: nat, v: nat)
    requires tf > 0 && Bucketed(m, tf, bs) && begin <= end < |m.time| && CandleOf(m, tf, begin, end, u, v)
    ensures var b := bs.ordinal[v];
            && bs.ordinal[begin] <= b <= bs.ordinal[end]
            && u == ClipLow(bs, begin, b) && v == ClipHigh(bs, end, b)
  {
    hide Bucket, Ordinal;
    OrdinalsRise(m, tf, u, v);
    OrdinalsRise(m, tf, begin, u);
    OrdinalsRise(m, tf, v, end);
    StretchStart(m, tf, bs, begin, u);
    StretchEnd(m, tf, bs, end, v);
  }

  lemma ClippedInside(m: Market, tf: nat, bs: Buckets, begin: nat, end: nat, b: nat)
    requires tf > 0 && Bucketed(m, tf, bs) && begin <= end < |m.time|
    requires bs.ordinal[begin] <= b <= bs.ordinal[end]
    ensures var u, v := ClipLow(bs, begin, b), ClipHigh(bs, end, b);
            begin <= u <= v <= end && bs.ordinal[u] == b == bs.ordinal[v]
  {
    hide Bucket, Ordinal;
    BucketsApart(m, tf, bs, bs.ordinal[begin], b);
    BucketsApart(m, tf, bs, b, bs.ordinal[end]);
    BucketBars(m, tf, bs, ClipLow(bs, begin, b), b);
    BucketBars(m, tf, bs, ClipHigh(bs, end, b), b);
  }

  lemma BucketIsCandle(m: Market, tf: nat, bs: Buckets, begin: nat, end: nat, b: nat)
    requires tf > 0 && Bucketed(m, tf, bs) && begin <= end < |m.time|
    requires bs.ordinal[begin] <= b <= bs.ordinal[end]
    ensures CandleOf(m, tf, begin, end, ClipLow(bs, begin, b), ClipHigh(bs, end, b))
    ensures Ordinal(m, tf, ClipHigh(bs, end, b)) == b
  {
    hide Bucket, Ordinal;
    var u, v := ClipLow(bs, begin, b), ClipHigh(bs, end, b);
    ClippedInside(m, tf, bs, begin, end, b);
    OrdinalsRise(m, tf, u, v);
    StretchStart(m, tf, bs, begin, u);
    StretchEnd(m, tf, bs, end, v);
  }
}
