/** Higher-timeframe features on the base timeline: base bars are grouped into candles, a feature is computed
    candle by candle, and each base row reads the last candle completed by then. No value ever repaints. */
module HigherTimeframe {
  import opened NodeProgram
  import opened EpisodeTables
  import A = AdxDmi

  datatype Bar = Bar(time: nat, open: real, high: real, low: real, close: real, volume: real)

  /** A candle of the bucket `[bucket * tf, (bucket + 1) * tf)`. */
  datatype Candle = Candle(bucket: nat, open: real, high: real, low: real, close: real, volume: real)

  /** Bars follow one another by at least one base duration; a gapless grid by exactly one. */
  ghost predicate Spaced(bars: seq<Bar>, base: nat) {
    base > 0 && forall i, j | 0 <= i < j < |bars| :: bars[i].time + base <= bars[j].time
  }

  function Bucket(bar: Bar, tf: nat): nat
    requires tf > 0
  {
    bar.time / tf
  }

  // -- resampling --------------------------------------------------------------------------

  function Higher(a: real, b: real): real {
    if b > a then b else a
  }

  function Lower(a: real, b: real): real {
    if b < a then b else a
  }

  /** Open of the first bar, close of the last, extremes and total volume of all: bar by bar. */
  function Resample(bars: seq<Bar>, tf: nat): (cs: seq<Candle>)
    requires tf > 0
    ensures |bars| > 0 ==> |cs| > 0 && cs[|cs| - 1].bucket == Bucket(bars[|bars| - 1], tf)
  {
    if |bars| == 0 then [] else
    var n := |bars| - 1;
    var cs, bar := Resample(bars[..n], tf), bars[n];
    if n > 0 && cs[|cs| - 1].bucket == Bucket(bar, tf) then
      var c := cs[|cs| - 1];
      cs[..|cs| - 1]
      + [Candle(c.bucket, c.open, Higher(c.high, bar.high), Lower(c.low, bar.low), bar.close, c.volume + bar.volume)]
    else
      cs + [Candle(Bucket(bar, tf), bar.open, bar.high, bar.low, bar.close, bar.volume)]
  }

  /** The bars of one bucket. */
  function Members(bars: seq<Bar>, tf: nat, bucket: nat): seq<Bar>
    requires tf > 0
  {
    if |bars| == 0 then [] else
    var n := |bars| - 1;
    Members(bars[..n], tf, bucket) + if Bucket(bars[n], tf) == bucket then [bars[n]] else []
  }

  function Volume(bars: seq<Bar>): real {
    if |bars| == 0 then 0.0 else Volume(bars[..|bars| - 1]) + bars[|bars| - 1].volume
  }

  /** What a candle of these bars is. */
  ghost predicate Summarises(c: Candle, bars: seq<Bar>) {
    && |bars| > 0 && c.open == bars[0].open && c.close == bars[|bars| - 1].close && c.volume == Volume(bars)
    && (exists k :: 0 <= k < |bars| && c.high == bars[k].high) && (forall k | 0 <= k < |bars| :: bars[k].high <= c.high)
    && (exists k :: 0 <= k < |bars| && c.low == bars[k].low) && (forall k | 0 <= k < |bars| :: c.low <= bars[k].low)
  }

  lemma SummaryOfOne(bar: Bar, bucket: nat)
    ensures Summarises(Candle(bucket, bar.open, bar.high, bar.low, bar.close, bar.volume), [bar])
  {
    assert [bar][..0] == [];
    assert [bar][0].high == bar.high;
  }

  lemma SummaryGrows(c: Candle, bars: seq<Bar>, bar: Bar)
    requires Summarises(c, bars)
    ensures Summarises(
      Candle(c.bucket, c.open, Higher(c.high, bar.high), Lower(c.low, bar.low), bar.close, c.volume + bar.volume),
      bars + [bar])
  {
    var more := bars + [bar];
    assert more[..|bars|] == bars;
    var h :| 0 <= h < |bars| && c.high == bars[h].high;
    var l :| 0 <= l < |bars| && c.low == bars[l].low;
    assert more[h].high == c.high && more[l].low == c.low && more[|bars|] == bar;
  }

  ghost predicate Increasing(cs: seq<Candle>) {
    forall i, j | 0 <= i < j < |cs| :: cs[i].bucket < cs[j].bucket
  }

  lemma BucketOrder(bars: seq<Bar>, tf: nat, base: nat, i: nat, j: nat)
    requires tf > 0 && Spaced(bars, base) && i <= j < |bars|
    ensures Bucket(bars[i], tf) <= Bucket(bars[j], tf)
  {
    if i < j {
      Quotients(bars[i].time, bars[j].time, tf);
    }
  }

  lemma Quotients(a: nat, b: nat, tf: nat)
    requires tf > 0 && a <= b
    ensures a / tf <= b / tf
  {
    var d := a / tf - b / tf;
    assert d * tf == a / tf * tf - b / tf * tf;
    assert a == a / tf * tf + a % tf && b == b / tf * tf + b % tf;
    assert d * tf < tf;
    BelowOne(d, tf);
  }

  lemma BelowOne(d: int, tf: nat)
    requires tf > 0 && d * tf < tf
    ensures d < 1
  {
  }

  lemma {:induction false} NoMembers(bars: seq<Bar>, tf: nat, bucket: nat)
    requires tf > 0 && forall i | 0 <= i < |bars| :: Bucket(bars[i], tf) != bucket
    ensures Members(bars, tf, bucket) == []
  {
    if |bars| > 0 {
      NoMembers(bars[..|bars| - 1], tf, bucket);
    }
  }

  lemma SpacedPrefix(bars: seq<Bar>, base: nat, n: nat)
    requires Spaced(bars, base) && n <= |bars|
    ensures Spaced(bars[..n], base)
  {
  }

  ghost predicate AllSummarised(cs: seq<Candle>, bars: seq<Bar>, tf: nat)
    requires tf > 0
  {
    forall k | 0 <= k < |cs| :: Summarises(cs[k], Members(bars, tf, cs[k].bucket))
  }

  /** Every candle summarises the bars of its own bucket, in increasing bucket order. */
  lemma {:induction false} ResampledExactly(bars: seq<Bar>, tf: nat, base: nat)
    requires tf > 0 && Spaced(bars, base)
    ensures var cs := Resample(bars, tf);
            Increasing(cs) && AllSummarised(cs, bars, tf)
  {
    hide Summarises, Bucket, Members, Spaced, Increasing;
    if |bars| == 0 {
      assert Increasing([]) by { NothingIncreases(); }
    } else {
      var n := |bars| - 1;
      SpacedPrefix(bars, base, n);
      ResampledExactly(bars[..n], tf, base);
      KeptCandles(bars, tf);
      LastCandle(bars, tf, base);
      IncreasingStep(bars, tf, base);
      var earlier, cs, bucket := Resample(bars[..n], tf), Resample(bars, tf), Bucket(bars[n], tf);
      forall k | 0 <= k < |cs| - 1 ensures Summarises(cs[k], Members(bars, tf, cs[k].bucket)) {
        assert cs[k] == earlier[k];
        assert cs[k].bucket < cs[|cs| - 1].bucket by { IncreasingAt(cs, k, |cs| - 1); }
        assert Summarises(earlier[k], Members(bars[..n], tf, earlier[k].bucket));
      }
    }
  }

  lemma NothingIncreases()
    ensures Increasing([])
  {
  }

  lemma IncreasingAt(cs: seq<Candle>, i: nat, j: nat)
    requires Increasing(cs) && i < j < |cs|
    ensures cs[i].bucket < cs[j].bucket
  {
  }

  /** The added bar's candle summarises its bucket. */
  lemma LastCandle(bars: seq<Bar>, tf: nat, base: nat)
    requires tf > 0 && |bars| > 0 && Spaced(bars, base)
    requires AllSummarised(Resample(bars[..|bars| - 1], tf), bars[..|bars| - 1], tf)
    ensures var cs := Resample(bars, tf); Summarises(cs[|cs| - 1], Members(bars, tf, cs[|cs| - 1].bucket))
  {
    hide Summarises, Bucket, Members, Spaced, AllSummarised;
    var n := |bars| - 1;
    var earlier, bar, bucket := Resample(bars[..n], tf), bars[n], Bucket(bars[n], tf);
    MembersLast(bars, tf);
    if n > 0 && earlier[|earlier| - 1].bucket == bucket {
      var c := earlier[|earlier| - 1];
      SummaryAt(earlier, bars[..n], tf, |earlier| - 1);
      SummaryGrows(c, Members(bars[..n], tf, bucket), bar);
    } else {
      NewBucket(bars, tf, base);
      SummaryOfOne(bar, bucket);
      assert [] + [bar] == [bar];
    }
  }

  lemma SummaryAt(cs: seq<Candle>, bars: seq<Bar>, tf: nat, k: nat)
    requires tf > 0 && AllSummarised(cs, bars, tf) && k < |cs|
    ensures Summarises(cs[k], Members(bars, tf, cs[k].bucket))
  {
  }

  lemma MembersLast(bars: seq<Bar>, tf: nat)
    requires tf > 0 && |bars| > 0
    ensures var n := |bars| - 1;
            Members(bars, tf, Bucket(bars[n], tf)) == Members(bars[..n], tf, Bucket(bars[n], tf)) + [bars[n]]
  {
  }

  /** A bar that opens a bucket has no earlier bar in it. */
  lemma NewBucket(bars: seq<Bar>, tf: nat, base: nat)
    requires tf > 0 && |bars| > 0 && Spaced(bars, base)
    requires |bars| > 1 ==> Bucket(bars[|bars| - 2], tf) != Bucket(bars[|bars| - 1], tf)
    ensures Members(bars[..|bars| - 1], tf, Bucket(bars[|bars| - 1], tf)) == []
  {
    hide Bucket, Spaced;
    var n := |bars| - 1;
    if n > 0 {
      forall i | 0 <= i < n ensures Bucket(bars[..n][i], tf) != Bucket(bars[n], tf) {
        BucketOrder(bars, tf, base, i, n - 1);
        BucketOrder(bars, tf, base, n - 1, n);
      }
    }
    NoMembers(bars[..n], tf, Bucket(bars[n], tf));
  }

  lemma IncreasingStep(bars: seq<Bar>, tf: nat, base: nat)
    requires tf > 0 && |bars| > 0 && Spaced(bars, base) && Increasing(Resample(bars[..|bars| - 1], tf))
    ensures Increasing(Resample(bars, tf))
  {
    hide Bucket;
    if |bars| > 1 {
      BucketOrder(bars, tf, base, |bars| - 2, |bars| - 1);
    }
  }

  /** Candles of other buckets keep their members when a bar is added. */
  lemma KeptCandles(bars: seq<Bar>, tf: nat)
    requires tf > 0 && |bars| > 0
    ensures forall b: nat | b != Bucket(bars[|bars| - 1], tf) ::
              Members(bars, tf, b) == Members(bars[..|bars| - 1], tf, b)
  {
  }

  // -- alignment ---------------------------------------------------------------------------

  /** A feature of the candles: one value each, reading none after it. */
  type Feature = seq<Candle> -> Series

  ghost predicate Causal(f: Feature) {
    && (forall cs :: |f(cs)| == |cs|)
    && (forall cs: seq<Candle>, ds: seq<Candle>, k: nat | k < |cs| && k < |ds| && cs[..k + 1] == ds[..k + 1] :: f(cs)[k] == f(ds)[k])
  }

  predicate Completed(c: Candle, tf: nat, query: nat) {
    (c.bucket + 1) * tf <= query
  }

  /** How many candles, from the first, are completed by `query`. */
  function CompletedCount(cs: seq<Candle>, tf: nat, query: nat): (k: nat)
    ensures k <= |cs| && (forall j | 0 <= j < k :: Completed(cs[j], tf, query))
    ensures k < |cs| ==> !Completed(cs[k], tf, query)
  {
    if |cs| == 0 || !Completed(cs[0], tf, query) then 0 else 1 + CompletedCount(cs[1..], tf, query)
  }

  /** The value of the last completed candle, also when it is missing. */
  function AlignedAt(cs: seq<Candle>, values: Series, tf: nat, query: nat): Option<real>
    requires |values| == |cs|
  {
    var k := CompletedCount(cs, tf, query);
    if k == 0 then None else values[k - 1]
  }

  datatype Availability = BarOpen | BarClose

  /** When a row's value is read: as its bar opens, or as it closes. */
  function QueryTime(bars: seq<Bar>, base: nat, availability: Availability, t: nat): nat
    requires t < |bars|
  {
    bars[t].time + if availability.BarClose? then base else 0
  }

  function AsCandles(bars: seq<Bar>): (cs: seq<Candle>)
    ensures |cs| == |bars|
  {
    seq(|bars|, i requires 0 <= i < |bars| =>
      var b := bars[i]; Candle(b.time, b.open, b.high, b.low, b.close, b.volume))
  }

  /** The feature on base row `t`: on the base timeframe of the row's own bar, else aligned. */
  ghost function ValueAt(bars: seq<Bar>, f: Feature, tf: nat, base: nat, availability: Availability, t: nat): Option<real>
    requires tf > 0 && t < |bars| && Causal(f)
  {
    if tf == base then f(AsCandles(bars))[t]
    else
      var cs := Resample(bars, tf);
      AlignedAt(cs, f(cs), tf, QueryTime(bars, base, availability, t))
  }

  // -- no repaint --------------------------------------------------------------------------

  predicate ClosedBy(bar: Bar, tf: nat, query: nat)
    requires tf > 0
  {
    (Bucket(bar, tf) + 1) * tf <= query
  }

  /** The first rows, whose buckets are completed by `query`. */
  function ClosedRows(bars: seq<Bar>, tf: nat, query: nat): (r: nat)
    requires tf > 0
    ensures r <= |bars| && (forall i | 0 <= i < r :: ClosedBy(bars[i], tf, query))
    ensures r < |bars| ==> !ClosedBy(bars[r], tf, query)
  {
    if |bars| == 0 || !ClosedBy(bars[0], tf, query) then 0 else 1 + ClosedRows(bars[1..], tf, query)
  }

  lemma TimeInBucket(bar: Bar, tf: nat)
    requires tf > 0
    ensures Bucket(bar, tf) * tf <= bar.time < (Bucket(bar, tf) + 1) * tf
  {
    assert bar.time == bar.time / tf * tf + bar.time % tf;
  }

  /** A completed bucket holds no row after the queried one, and at bar open not that one either. */
  lemma ClosedRowsBefore(bars: seq<Bar>, tf: nat, base: nat, availability: Availability, t: nat)
    requires tf > 0 && Spaced(bars, base) && t < |bars|
    ensures ClosedRows(bars, tf, QueryTime(bars, base, availability, t)) <= t + if availability.BarClose? then 1 else 0
  {
    var query := QueryTime(bars, base, availability, t);
    var r := ClosedRows(bars, tf, query);
    if r > 0 {
      TimeInBucket(bars[r - 1], tf);
    }
  }

  /** Rows up to a change of bucket make a prefix of the candles. */
  lemma {:induction false} ResamplePrefix(bars: seq<Bar>, tf: nat, r: nat)
    requires tf > 0 && r <= |bars|
    requires 0 < r < |bars| ==> Bucket(bars[r - 1], tf) != Bucket(bars[r], tf)
    ensures Resample(bars[..r], tf) <= Resample(bars, tf)
    ensures |Resample(bars, tf)| == |Resample(bars[..r], tf)| <==> r == |bars|
  {
    hide Bucket;
    if r == |bars| {
      assert bars[..r] == bars;
    } else {
      var n := |bars| - 1;
      assert bars[..n][..r] == bars[..r];
      assert 0 < r < n ==> bars[..n][r - 1] == bars[r - 1] && bars[..n][r] == bars[r];
      ResamplePrefix(bars[..n], tf, r);
    }
  }

  /** The completed candles are those of the rows in completed buckets. */
  lemma CompletedIsClosed(bars: seq<Bar>, tf: nat, base: nat, query: nat)
    requires tf > 0 && Spaced(bars, base)
    ensures var r := ClosedRows(bars, tf, query);
            && Resample(bars[..r], tf) <= Resample(bars, tf)
            && CompletedCount(Resample(bars, tf), tf, query) == |Resample(bars[..r], tf)|
  {
    hide Bucket, Completed, ClosedBy, Resample, Spaced, CompletedCount;
    var r := ClosedRows(bars, tf, query);
    var cs, closed := Resample(bars, tf), Resample(bars[..r], tf);
    if 0 < r < |bars| {
      BucketsDiffer(bars, tf, query, r);
    }
    ResamplePrefix(bars, tf, r);
    forall k | 0 <= k < |closed| ensures Completed(cs[k], tf, query) {
      ClosedCandle(bars, tf, query, k);
      assert closed[k] == cs[k];
    }
    if r < |bars| {
      FirstOpenCandle(bars, tf, base, r);
      BucketClosed(bars[r], tf, query);
    }
    CountIs(cs, tf, query, |closed|);
  }

  lemma ClosedCandle(bars: seq<Bar>, tf: nat, query: nat, k: nat)
    requires tf > 0 && k < |Resample(bars[..ClosedRows(bars, tf, query)], tf)|
    ensures Completed(Resample(bars[..ClosedRows(bars, tf, query)], tf)[k], tf, query)
  {
    hide Bucket, Completed, ClosedBy, Resample;
    var r := ClosedRows(bars, tf, query);
    CandleBuckets(bars[..r], tf);
    var i :| 0 <= i < |bars[..r]| && Bucket(bars[..r][i], tf) == Resample(bars[..r], tf)[k].bucket;
    BucketClosed(bars[i], tf, query);
  }

  lemma BucketClosed(bar: Bar, tf: nat, query: nat)
    requires tf > 0
    ensures forall c: Candle | c.bucket == Bucket(bar, tf) :: Completed(c, tf, query) <==> ClosedBy(bar, tf, query)
  {
  }

  lemma BucketsDiffer(bars: seq<Bar>, tf: nat, query: nat, r: nat)
    requires tf > 0 && 0 < r < |bars| && ClosedBy(bars[r - 1], tf, query) && !ClosedBy(bars[r], tf, query)
    ensures Bucket(bars[r - 1], tf) != Bucket(bars[r], tf)
  {
  }

  lemma CountIs(cs: seq<Candle>, tf: nat, query: nat, k: nat)
    requires k <= |cs| && (forall j | 0 <= j < k :: Completed(cs[j], tf, query))
    requires k < |cs| ==> !Completed(cs[k], tf, query)
    ensures CompletedCount(cs, tf, query) == k
  {
    var c := CompletedCount(cs, tf, query);
    assert c < |cs| ==> !Completed(cs[c], tf, query);
    assert k < |cs| ==> !Completed(cs[k], tf, query);
  }

  /** Every candle's bucket is that of one of the rows. */
  lemma {:induction false} CandleBuckets(bars: seq<Bar>, tf: nat)
    requires tf > 0
    ensures var cs := Resample(bars, tf);
            forall k | 0 <= k < |cs| :: exists i :: 0 <= i < |bars| && Bucket(bars[i], tf) == cs[k].bucket
  {
    hide Bucket;
    if |bars| > 0 {
      var n := |bars| - 1;
      var part := bars[..n];
      CandleBuckets(part, tf);
      var earlier, cs := Resample(part, tf), Resample(bars, tf);
      forall k | 0 <= k < |cs| ensures exists i :: 0 <= i < |bars| && Bucket(bars[i], tf) == cs[k].bucket {
        if k == |cs| - 1 {
          assert Bucket(bars[n], tf) == cs[k].bucket;
        } else {
          assert k < |earlier| && cs[k] == earlier[k] == Resample(part, tf)[k];
          var i :| 0 <= i < |part| && Bucket(part[i], tf) == Resample(part, tf)[k].bucket;
          assert Bucket(bars[i], tf) == cs[k].bucket;
        }
      }
    }
  }

  /** The candle after the rows before `r` starts with row `r`. */
  lemma {:induction false} FirstOpenCandle(bars: seq<Bar>, tf: nat, base: nat, r: nat)
    requires tf > 0 && r < |bars|
    requires r > 0 ==> Bucket(bars[r - 1], tf) != Bucket(bars[r], tf)
    ensures var cs, k := Resample(bars, tf), |Resample(bars[..r], tf)|;
            k < |cs| && cs[k].bucket == Bucket(bars[r], tf)
  {
    hide Bucket;
    var n := |bars| - 1;
    if r == n {
      assert bars[..n] == bars[..r];
    } else {
      assert bars[..n][..r] == bars[..r] && bars[..n][r] == bars[r];
      assert r > 0 ==> bars[..n][r - 1] == bars[r - 1];
      FirstOpenCandle(bars[..n], tf, base, r);
    }
  }

  /** A row reads the feature as if the candles completed by its query time were all there is. */
  lemma AlignedIsLastCompleted(
    bars: seq<Bar>, f: Feature, tf: nat, base: nat, availability: Availability, t: nat)
    requires tf > 0 && tf != base && Spaced(bars, base) && t < |bars| && Causal(f)
    ensures var closed := Resample(bars[..ClosedRows(bars, tf, QueryTime(bars, base, availability, t))], tf);
            && |f(closed)| == |closed|
            && ValueAt(bars, f, tf, base, availability, t) == if |closed| == 0 then None else f(closed)[|closed| - 1]
  {
    var query := QueryTime(bars, base, availability, t);
    CompletedIsClosed(bars, tf, base, query);
    var cs, closed := Resample(bars, tf), Resample(bars[..ClosedRows(bars, tf, query)], tf);
    if |closed| > 0 {
      assert cs[..|closed| - 1 + 1] == closed[..|closed| - 1 + 1];
    }
  }

  /** In prices and times: on a higher timeframe a row reads the candle that ended last by the time its bar opens,
      or closes, and nothing while no candle has ended. */
  lemma ReadsLastEnded(
    bars: seq<Bar>, f: Feature, tf: nat, base: nat, availability: Availability, t: nat, now: nat, k: nat)
    requires tf > 0 && tf != base && Spaced(bars, base) && t < |bars| && Causal(f)
    requires if availability == BarClose then now == bars[t].time + base else now == bars[t].time
    ensures var cs := Resample(bars, tf);
            && |f(cs)| == |cs|
            && (|cs| == 0 || now < (cs[0].bucket + 1) * tf ==> ValueAt(bars, f, tf, base, availability, t) == None)
            && (k < |cs| && (cs[k].bucket + 1) * tf <= now && (k + 1 < |cs| ==> now < (cs[k + 1].bucket + 1) * tf) ==>
                  ValueAt(bars, f, tf, base, availability, t) == f(cs)[k])
  {
    hide Spaced, Resample, AllSummarised, AlignedAt, Causal, Increasing;
    var cs := Resample(bars, tf);
    ResampledExactly(bars, tf, base);
    OneValueEach(f, cs);
    AlignedMeans(cs, f(cs), tf, now, k);
  }

  lemma OneValueEach(f: Feature, cs: seq<Candle>)
    requires Causal(f)
    ensures |f(cs)| == |cs|
  {
  }

  lemma AlignedMeans(cs: seq<Candle>, values: Series, tf: nat, now: nat, k: nat)
    requires Increasing(cs) && |values| == |cs|
    ensures |cs| == 0 || now < (cs[0].bucket + 1) * tf ==> AlignedAt(cs, values, tf, now) == None
    ensures k < |cs| && (cs[k].bucket + 1) * tf <= now && (k + 1 < |cs| ==> now < (cs[k + 1].bucket + 1) * tf) ==>
              AlignedAt(cs, values, tf, now) == values[k]
  {
    hide Increasing, CompletedCount;
    NoneEnded(cs, tf, now);
    LastEnded(cs, tf, now, k);
  }

  lemma NoneEnded(cs: seq<Candle>, tf: nat, now: nat)
    ensures |cs| == 0 || now < (cs[0].bucket + 1) * tf ==> CompletedCount(cs, tf, now) == 0
  {
  }

  lemma LastEnded(cs: seq<Candle>, tf: nat, now: nat, k: nat)
    requires Increasing(cs)
    ensures k < |cs| && (cs[k].bucket + 1) * tf <= now && (k + 1 < |cs| ==> now < (cs[k + 1].bucket + 1) * tf) ==>
              CompletedCount(cs, tf, now) == k + 1
  {
    hide CompletedCount;
    if k < |cs| && (cs[k].bucket + 1) * tf <= now && (k + 1 < |cs| ==> now < (cs[k + 1].bucket + 1) * tf) {
      forall j | 0 <= j < k ensures Completed(cs[j], tf, now) {
        EarlierEnds(cs[j].bucket + 1, cs[k].bucket + 1, tf);
      }
      CountIs(cs, tf, now, k + 1);
    }
  }

  lemma EarlierEnds(a: nat, b: nat, tf: nat)
    requires a <= b
    ensures a * tf <= b * tf
  {
    assert b * tf == a * tf + (b - a) * tf;
  }

  /** On its own timeframe a row reads the value of its own bar. */
  lemma BaseReadsItself(bars: seq<Bar>, f: Feature, base: nat, availability: Availability, t: nat, cs: seq<Candle>)
    requires base > 0 && t < |bars| && Causal(f) && |cs| == |bars|
    requires forall i | 0 <= i < |bars| ::
               && cs[i].bucket == bars[i].time && cs[i].open == bars[i].open && cs[i].high == bars[i].high
               && cs[i].low == bars[i].low && cs[i].close == bars[i].close && cs[i].volume == bars[i].volume
    ensures |f(cs)| == |cs| && ValueAt(bars, f, base, base, availability, t) == f(cs)[t]
  {
    assert cs == AsCandles(bars);
  }

  /** The same first rows are closed in any two frames that agree up to the queried row. */
  lemma {:induction false} ClosedRowsAgree(xs: seq<Bar>, ys: seq<Bar>, tf: nat, query: nat, r: nat)
    requires tf > 0 && r <= |xs| && r <= |ys| && xs[..r] == ys[..r]
    requires ClosedRows(xs, tf, query) <= r && ClosedRows(ys, tf, query) <= r
    ensures ClosedRows(xs, tf, query) == ClosedRows(ys, tf, query)
  {
    hide ClosedBy;
    forall i | 0 <= i < r ensures xs[i] == ys[i] {
      assert xs[i] == xs[..r][i] && ys[i] == ys[..r][i];
    }
    var a, b := ClosedRows(xs, tf, query), ClosedRows(ys, tf, query);
    assert a < |xs| ==> !ClosedBy(xs[a], tf, query);
    assert b < |ys| ==> !ClosedBy(ys[b], tf, query);
  }

  /** No repaint: a row's value is settled by the bars up to it (at bar open, by those before it and its own
      time), however the range ends or later bars turn out. */
  lemma NeverRepaints(
    xs: seq<Bar>, ys: seq<Bar>, f: Feature, tf: nat, base: nat, availability: Availability, t: nat)
    requires tf > 0 && Spaced(xs, base) && Spaced(ys, base) && Causal(f)
    requires t < |xs| && t < |ys| && xs[..t] == ys[..t] && xs[t].time == ys[t].time
    requires availability.BarClose? || tf == base ==> xs[t] == ys[t]
    ensures ValueAt(xs, f, tf, base, availability, t) == ValueAt(ys, f, tf, base, availability, t)
  {
    hide Causal, Spaced, Resample, ClosedRows, ValueAt;
    if tf == base {
      BaseNeverRepaints(xs, ys, f, base, availability, t);
    } else {
      ClosedAgree(xs, ys, tf, base, availability, t);
      AlignedIsLastCompleted(xs, f, tf, base, availability, t);
      AlignedIsLastCompleted(ys, f, tf, base, availability, t);
    }
  }

  lemma BaseNeverRepaints(xs: seq<Bar>, ys: seq<Bar>, f: Feature, base: nat, availability: Availability, t: nat)
    requires base > 0 && Causal(f) && t < |xs| && t < |ys| && xs[..t] == ys[..t] && xs[t] == ys[t]
    ensures ValueAt(xs, f, base, base, availability, t) == ValueAt(ys, f, base, base, availability, t)
  {
    OneMoreRow(xs, ys, t);
    forall i | 0 <= i <= t ensures xs[i] == ys[i] {
      assert xs[i] == xs[..t + 1][i] == ys[..t + 1][i];
    }
    assert AsCandles(xs)[..t + 1] == AsCandles(ys)[..t + 1];
  }

  lemma ClosedAgree(xs: seq<Bar>, ys: seq<Bar>, tf: nat, base: nat, availability: Availability, t: nat)
    requires tf > 0 && Spaced(xs, base) && Spaced(ys, base)
    requires t < |xs| && t < |ys| && xs[..t] == ys[..t] && xs[t].time == ys[t].time
    requires availability.BarClose? ==> xs[t] == ys[t]
    ensures QueryTime(xs, base, availability, t) == QueryTime(ys, base, availability, t)
    ensures var query := QueryTime(xs, base, availability, t);
            xs[..ClosedRows(xs, tf, query)] == ys[..ClosedRows(ys, tf, query)]
  {
    hide ClosedRows, Spaced;
    var query := QueryTime(xs, base, availability, t);
    var r := t + if availability.BarClose? then 1 else 0;
    ClosedRowsBefore(xs, tf, base, availability, t);
    ClosedRowsBefore(ys, tf, base, availability, t);
    if availability.BarClose? {
      OneMoreRow(xs, ys, t);
    }
    ClosedRowsAgree(xs, ys, tf, query, r);
    var c := ClosedRows(xs, tf, query);
    assert xs[..c] == xs[..r][..c] && ys[..c] == ys[..r][..c];
  }

  lemma OneMoreRow(xs: seq<Bar>, ys: seq<Bar>, t: nat)
    requires t < |xs| && t < |ys| && xs[..t] == ys[..t] && xs[t] == ys[t]
    ensures xs[..t + 1] == ys[..t + 1]
  {
    assert xs[..t + 1] == xs[..t] + [xs[t]];
    assert ys[..t + 1] == ys[..t] + [ys[t]];
  }

  /** A range that ends at a row gives that row the value of every longer range. */
  lemma EndsLater(bars: seq<Bar>, f: Feature, tf: nat, base: nat, availability: Availability, t: nat, n: nat)
    requires tf > 0 && Spaced(bars, base) && Causal(f) && t < n <= |bars|
    ensures ValueAt(bars[..n], f, tf, base, availability, t) == ValueAt(bars, f, tf, base, availability, t)
  {
    assert bars[..n][..t] == bars[..t];
    NeverRepaints(bars[..n], bars, f, tf, base, availability, t);
  }

  // -- trend strength on a higher timeframe ------------------------------------------------

  function Prices(cs: seq<Candle>): (ps: seq<A.Candle>)
    ensures |ps| == |cs| && forall k | 0 <= k < |cs| :: ps[k] == A.Candle(cs[k].high, cs[k].low, cs[k].close)
  {
    seq(|cs|, k requires 0 <= k < |cs| => A.Candle(cs[k].high, cs[k].low, cs[k].close))
  }

  function Adx(period: nat): Feature
    requires period >= 1
  {
    cs => seq(|cs|, k requires 0 <= k < |cs| => A.AdxAt(Prices(cs), period, k))
  }

  lemma AdxIsCausal(period: nat)
    requires period >= 1
    ensures Causal(Adx(period))
  {
    hide A.AdxAt;
    forall cs: seq<Candle>, ds: seq<Candle>, k: nat | k < |cs| && k < |ds| && cs[..k + 1] == ds[..k + 1]
      ensures Adx(period)(cs)[k] == Adx(period)(ds)[k]
    {
      forall j | 0 <= j <= k ensures cs[j] == ds[j] {
        assert cs[j] == cs[..k + 1][j] == ds[..k + 1][j];
      }
      assert Prices(cs)[..k + 1] == Prices(ds)[..k + 1];
      A.AdxLocal(Prices(cs), Prices(ds), period, k);
    }
  }

  /** ADX of a higher timeframe stays as it was first read and between 0 and 100, for sane bars. */
  lemma HigherAdx(
    bars: seq<Bar>, period: nat, tf: nat, base: nat, availability: Availability, t: nat, n: nat)
    requires period >= 1 && tf > 0 && tf != base && Spaced(bars, base) && t < n <= |bars|
    requires forall i | 0 <= i < |bars| :: bars[i].low <= bars[i].close <= bars[i].high
    ensures Causal(Adx(period))
    ensures var v := ValueAt(bars, Adx(period), tf, base, availability, t);
            && ValueAt(bars[..n], Adx(period), tf, base, availability, t) == v
            && (v.Some? ==> 0.0 <= v.value <= 100.0)
  {
    hide Causal, ValueAt, Spaced, ClosedRows, Resample, A.AdxAt;
    AdxIsCausal(period);
    EndsLater(bars, Adx(period), tf, base, availability, t, n);
    AlignedIsLastCompleted(bars, Adx(period), tf, base, availability, t);
    var rows := bars[..ClosedRows(bars, tf, QueryTime(bars, base, availability, t))];
    var closed := Resample(rows, tf);
    SaneCandles(rows, tf);
    if |closed| > 0 {
      AdxValueBounded(closed, period, |closed| - 1);
    }
  }

  lemma AdxValueBounded(cs: seq<Candle>, period: nat, k: nat)
    requires period >= 1 && k < |cs| && A.Sane(Prices(cs))
    ensures var v := Adx(period)(cs)[k]; v.Some? ==> 0.0 <= v.value <= 100.0
  {
    A.AdxBounded(Prices(cs), period, k);
  }

  ghost predicate SaneShape(c: Candle) {
    c.low <= c.close <= c.high
  }

  lemma {:induction false} SaneShapes(bars: seq<Bar>, tf: nat)
    requires tf > 0 && forall i | 0 <= i < |bars| :: bars[i].low <= bars[i].close <= bars[i].high
    ensures forall k | 0 <= k < |Resample(bars, tf)| :: SaneShape(Resample(bars, tf)[k])
  {
    hide Bucket;
    if |bars| > 0 {
      var n := |bars| - 1;
      SaneShapes(bars[..n], tf);
      var earlier := Resample(bars[..n], tf);
      assert bars[n].low <= bars[n].close <= bars[n].high;
      assert |earlier| > 0 ==> SaneShape(earlier[|earlier| - 1]);
    }
  }

  lemma SaneCandles(bars: seq<Bar>, tf: nat)
    requires tf > 0 && forall i | 0 <= i < |bars| :: bars[i].low <= bars[i].close <= bars[i].high
    ensures A.Sane(Prices(Resample(bars, tf)))
  {
    hide Resample;
    SaneShapes(bars, tf);
    var cs := Resample(bars, tf);
    forall k | 0 <= k < |cs| ensures cs[k].low <= cs[k].close <= cs[k].high {
      assert SaneShape(Resample(bars, tf)[k]);
    }
  }
}
