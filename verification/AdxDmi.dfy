/** Wilder's directional movement: the smoothed movements, the two directional indicators and their trend
    strength, and the bounds that hold for every candle series. */
module AdxDmi {
  import opened NodeProgram
  import opened EpisodeTables
  import opened WindowMath

  // -- Wilder's average --------------------------------------------------------------------

  /** The `period` values ending at bar `end` are all present. */
  predicate Filled(xs: Series, period: nat, end: nat)
    requires end + 1 >= period
  {
    end < |xs| && Present(xs, end + 1 - period, end + 1)
  }

  /** The first bar from `end` on that ends `period` present values. */
  function SeedFrom(xs: Series, period: nat, end: nat): (s: Option<nat>)
    requires period >= 1 && end + 1 >= period
    ensures s.Some? ==> end <= s.value && Filled(xs, period, s.value)
    ensures forall k | end <= k && (s.None? || k < s.value) :: !Filled(xs, period, k)
    decreases |xs| - end
  {
    if end >= |xs| then None
    else if Filled(xs, period, end) then Some(end)
    else SeedFrom(xs, period, end + 1)
  }

  function Seed(xs: Series, period: nat): Option<nat>
    requires period >= 1
  {
    SeedFrom(xs, period, period - 1)
  }

  function Mean(xs: seq<real>, s: nat, e: nat): real
    requires s < e <= |xs|
  {
    Sum(xs, s, e) / (e - s) as real
  }

  function Smooth(previous: real, current: real, period: nat): real
    requires period >= 1
  {
    (previous * (period as real - 1.0) + current) / period as real
  }

  /** The average on bar `i`: the mean at the seed, the recursion after it, and missing for good once a value
      is. */
  function RmaAt(xs: Series, period: nat, i: nat): Option<real>
    requires period >= 1 && i < |xs|
  {
    var seed := Seed(xs, period);
    if seed.None? || i < seed.value then None
    else if i == seed.value then Some(Mean(Clean(xs), i + 1 - period, i + 1))
    else
      var previous := RmaAt(xs, period, i - 1);
      if previous.None? || xs[i].None? then None else Some(Smooth(previous.value, xs[i].value, period))
  }

  method WilderRma(xs: Series, period: nat) returns (out: Series)
    requires period >= 1
    ensures |out| == |xs| && forall i | 0 <= i < |xs| :: out[i] == RmaAt(xs, period, i)
  {
    hide Sum, Mean, Smooth, Filled;
    var result := new Option<real>[|xs|](_ => None);
    if |xs| < period {
      out := result[..];
      return;
    }
    var end := period - 1;
    while end < |xs| && !Filled(xs, period, end)
      invariant period - 1 <= end <= |xs|
      invariant Seed(xs, period) == SeedFrom(xs, period, end)
    {
      end := end + 1;
    }
    if end == |xs| {
      out := result[..];
      return;
    }
    result[end] := Some(Mean(Clean(xs), end + 1 - period, end + 1));
    var index := end + 1;
    while index < |xs|
      invariant end < index <= |xs|
      invariant forall i | 0 <= i < index :: result[i] == RmaAt(xs, period, i)
      invariant forall i | index <= i < |xs| :: result[i] == None
    {
      var previous := result[index - 1];
      if previous.Some? && xs[index].Some? {
        result[index] := Some(Smooth(previous.value, xs[index].value, period));
      }
      index := index + 1;
    }
    out := result[..];
  }

  // -- movements ---------------------------------------------------------------------------

  datatype Candle = Candle(high: real, low: real, close: real)

  /** A close inside its candle's range. */
  predicate Sane(cs: seq<Candle>) {
    forall i | 0 <= i < |cs| :: cs[i].low <= cs[i].close <= cs[i].high
  }

  function Distance(a: real, b: real): real {
    if a < b then b - a else a - b
  }

  function UpMove(cs: seq<Candle>, i: nat): real
    requires 0 < i < |cs|
  {
    cs[i].high - cs[i - 1].high
  }

  function DownMove(cs: seq<Candle>, i: nat): real
    requires 0 < i < |cs|
  {
    cs[i - 1].low - cs[i].low
  }

  /** Only the larger of the two moves counts, and only when it is positive. */
  function PlusDm(cs: seq<Candle>, i: nat): real
    requires i < |cs|
  {
    if i > 0 && UpMove(cs, i) > DownMove(cs, i) && UpMove(cs, i) > 0.0 then UpMove(cs, i) else 0.0
  }

  function MinusDm(cs: seq<Candle>, i: nat): real
    requires i < |cs|
  {
    if i > 0 && DownMove(cs, i) > UpMove(cs, i) && DownMove(cs, i) > 0.0 then DownMove(cs, i) else 0.0
  }

  /** The first candle has no close before it: its true range is its range. */
  function TrueRange(cs: seq<Candle>, i: nat): real
    requires i < |cs|
  {
    var range := cs[i].high - cs[i].low;
    if i == 0 then range
    else Better(true, range, Better(true, Distance(cs[i].high, cs[i - 1].close), Distance(cs[i].low, cs[i - 1].close)))
  }

  function PlusColumn(cs: seq<Candle>): (xs: Series)
    ensures |xs| == |cs| && forall i | 0 <= i < |cs| :: xs[i] == Some(PlusDm(cs, i))
  {
    seq(|cs|, i requires 0 <= i < |cs| => Some(PlusDm(cs, i)))
  }

  function MinusColumn(cs: seq<Candle>): (xs: Series)
    ensures |xs| == |cs| && forall i | 0 <= i < |cs| :: xs[i] == Some(MinusDm(cs, i))
  {
    seq(|cs|, i requires 0 <= i < |cs| => Some(MinusDm(cs, i)))
  }

  function RangeColumn(cs: seq<Candle>): (xs: Series)
    ensures |xs| == |cs| && forall i | 0 <= i < |cs| :: xs[i] == Some(TrueRange(cs, i))
  {
    seq(|cs|, i requires 0 <= i < |cs| => Some(TrueRange(cs, i)))
  }

  // -- the indicators ----------------------------------------------------------------------

  /** A hundredfold quotient, missing when a side is or when the denominator is zero. */
  function Percent(x: Option<real>, y: Option<real>): Option<real> {
    if x.None? || y.None? || y.value == 0.0 then None else Some(100.0 * x.value / y.value)
  }

  function DiPlus(cs: seq<Candle>, period: nat, i: nat): Option<real>
    requires period >= 1 && i < |cs|
  {
    Percent(RmaAt(PlusColumn(cs), period, i), RmaAt(RangeColumn(cs), period, i))
  }

  function DiMinus(cs: seq<Candle>, period: nat, i: nat): Option<real>
    requires period >= 1 && i < |cs|
  {
    Percent(RmaAt(MinusColumn(cs), period, i), RmaAt(RangeColumn(cs), period, i))
  }

  function Dx(p: Option<real>, m: Option<real>): Option<real> {
    if p.None? || m.None? || p.value + m.value == 0.0 then None
    else Some(100.0 * Distance(p.value, m.value) / (p.value + m.value))
  }

  function DxColumn(cs: seq<Candle>, period: nat): (xs: Series)
    requires period >= 1
    ensures |xs| == |cs| && forall i | 0 <= i < |cs| :: xs[i] == Dx(DiPlus(cs, period, i), DiMinus(cs, period, i))
  {
    seq(|cs|, i requires 0 <= i < |cs| => Dx(DiPlus(cs, period, i), DiMinus(cs, period, i)))
  }

  /** Trend strength: the average of the columns' relative distance. */
  function AdxAt(cs: seq<Candle>, period: nat, i: nat): Option<real>
    requires period >= 1 && i < |cs|
  {
    RmaAt(DxColumn(cs, period), period, i)
  }

  /** Trend strength and both indicators on every bar; the indicators are hidden over the first `period` bars. */
  method ComputeAdxDmi(cs: seq<Candle>, period: nat) returns (adx: Series, plus: Series, minus: Series)
    requires period >= 1
    ensures |adx| == |plus| == |minus| == |cs|
    ensures forall i | 0 <= i < |cs| ::
              && adx[i] == AdxAt(cs, period, i)
              && plus[i] == (if i < period then None else DiPlus(cs, period, i))
              && minus[i] == (if i < period then None else DiMinus(cs, period, i))
  {
    hide RmaAt, Percent, Dx;
    var smoothRange := WilderRma(RangeColumn(cs), period);
    var smoothPlus := WilderRma(PlusColumn(cs), period);
    var smoothMinus := WilderRma(MinusColumn(cs), period);
    var p, m := new Option<real>[|cs|](_ => None), new Option<real>[|cs|](_ => None);
    var dx: Series := [];
    var i := 0;
    while i < |cs|
      invariant 0 <= i <= |cs| && |dx| == i
      invariant forall k | 0 <= k < i :: p[k] == DiPlus(cs, period, k) && m[k] == DiMinus(cs, period, k)
      invariant forall k | 0 <= k < i :: dx[k] == Dx(p[k], m[k])
    {
      p[i], m[i] := Percent(smoothPlus[i], smoothRange[i]), Percent(smoothMinus[i], smoothRange[i]);
      dx := dx + [Dx(p[i], m[i])];
      i := i + 1;
    }
    assert dx == DxColumn(cs, period);
    adx := WilderRma(dx, period);
    i := 0;
    while i < |cs| && i < period
      invariant 0 <= i <= |cs| && i <= period
      invariant forall k | 0 <= k < i :: p[k] == None && m[k] == None
      invariant forall k | i <= k < |cs| :: p[k] == DiPlus(cs, period, k) && m[k] == DiMinus(cs, period, k)
    {
      p[i], m[i] := None, None;
      i := i + 1;
    }
    plus, minus := p[..], m[..];
  }

  // -- bounds ------------------------------------------------------------------------------

  /** On one bar the two movements together never exceed the true range. */
  lemma MovesFitRange(cs: seq<Candle>, i: nat)
    requires Sane(cs) && i < |cs|
    ensures PlusDm(cs, i) >= 0.0 && MinusDm(cs, i) >= 0.0
    ensures PlusDm(cs, i) + MinusDm(cs, i) <= TrueRange(cs, i)
  {
    if i > 0 {
      assert cs[i - 1].low <= cs[i - 1].close <= cs[i - 1].high;
    }
    assert cs[i].low <= cs[i].high;
  }

  lemma {:induction false} SumsFit(xs: seq<real>, ys: seq<real>, zs: seq<real>, s: nat, e: nat)
    requires s <= e <= |xs| && |xs| == |ys| == |zs|
    requires forall i | s <= i < e :: xs[i] >= 0.0 && ys[i] >= 0.0 && xs[i] + ys[i] <= zs[i]
    ensures Sum(xs, s, e) >= 0.0 && Sum(ys, s, e) >= 0.0 && Sum(xs, s, e) + Sum(ys, s, e) <= Sum(zs, s, e)
  {
    if s < e {
      SumsFit(xs, ys, zs, s, e - 1);
    }
  }

  /** Two nonnegative values that together fit into a third. */
  ghost predicate Fits(x: real, y: real, z: real) {
    x >= 0.0 && y >= 0.0 && x + y <= z
  }

  lemma QuotientSign(x: real, c: real)
    requires x >= 0.0 && c > 0.0
    ensures x / c >= 0.0
  {
    RatioOrder(0.0, 1.0, x, c);
  }

  lemma QuotientsFit(x: real, y: real, z: real, c: real)
    requires Fits(x, y, z) && c > 0.0
    ensures Fits(x / c, y / c, z / c)
  {
    QuotientSign(x, c);
    QuotientSign(y, c);
    RatioOrder(x + y, c, z, c);
    assert (x + y) / c == x / c + y / c;
  }

  lemma SmoothFits(x: real, y: real, z: real, a: real, b: real, c: real, period: nat)
    requires period >= 1 && Fits(x, y, z) && Fits(a, b, c)
    ensures Fits(Smooth(x, a, period), Smooth(y, b, period), Smooth(z, c, period))
  {
    var k := period as real - 1.0;
    Scaled(x, k);
    Scaled(y, k);
    Scaled(z - x - y, k);
    assert (z - x - y) * k == z * k - x * k - y * k;
    QuotientsFit(x * k + a, y * k + b, z * k + c, period as real);
  }

  lemma Scaled(x: real, k: real)
    requires x >= 0.0 && k >= 0.0
    ensures x * k >= 0.0
  {
  }

  lemma SeedIsPeriod(xs: Series, period: nat)
    requires period >= 1 && forall i | 0 <= i < |xs| :: xs[i].Some?
    ensures Seed(xs, period) == if period <= |xs| then Some(period - 1) else None
  {
    if period <= |xs| {
      assert Filled(xs, period, period - 1);
    }
  }

  ghost predicate AllFit(xs: Series, ys: Series, zs: Series) {
    && |xs| == |ys| == |zs|
    && forall i | 0 <= i < |xs| ::
         xs[i].Some? && ys[i].Some? && zs[i].Some? && Fits(xs[i].value, ys[i].value, zs[i].value)
  }

  /** Three parallel recurrences: where two columns fit into a third bar by bar, their averages do too. */
  lemma {:induction false} AveragesFit(xs: Series, ys: Series, zs: Series, period: nat, i: nat)
    requires period >= 1 && AllFit(xs, ys, zs) && i < |xs|
    ensures var x, y, z := RmaAt(xs, period, i), RmaAt(ys, period, i), RmaAt(zs, period, i);
            && (x.Some? <==> z.Some?) && (y.Some? <==> z.Some?)
            && (z.Some? ==> Fits(x.value, y.value, z.value))
  {
    hide Sum, Smooth;
    SeedIsPeriod(xs, period);
    SeedIsPeriod(ys, period);
    SeedIsPeriod(zs, period);
    if i == period - 1 {
      SumsFit(Clean(xs), Clean(ys), Clean(zs), 0, period);
      QuotientsFit(Sum(Clean(xs), 0, period), Sum(Clean(ys), 0, period), Sum(Clean(zs), 0, period), period as real);
    } else if i >= period {
      AveragesFit(xs, ys, zs, period, i - 1);
      var x, y, z := RmaAt(xs, period, i - 1), RmaAt(ys, period, i - 1), RmaAt(zs, period, i - 1);
      if z.Some? {
        SmoothFits(x.value, y.value, z.value, xs[i].value, ys[i].value, zs[i].value, period);
      }
    }
  }

  /** Both indicators are nonnegative and add up to at most a hundred, and they are present or missing
      together. */
  lemma IndicatorsBounded(cs: seq<Candle>, period: nat, i: nat)
    requires Sane(cs) && period >= 1 && i < |cs|
    ensures var p, m := DiPlus(cs, period, i), DiMinus(cs, period, i);
            && (p.Some? <==> m.Some?)
            && (p.Some? ==> p.value >= 0.0 && m.value >= 0.0 && p.value + m.value <= 100.0)
  {
    hide RmaAt;
    forall k | 0 <= k < |cs| ensures Fits(PlusDm(cs, k), MinusDm(cs, k), TrueRange(cs, k)) {
      MovesFitRange(cs, k);
    }
    assert AllFit(PlusColumn(cs), MinusColumn(cs), RangeColumn(cs));
    AveragesFit(PlusColumn(cs), MinusColumn(cs), RangeColumn(cs), period, i);
    var x, y, z := RmaAt(PlusColumn(cs), period, i), RmaAt(MinusColumn(cs), period, i), RmaAt(RangeColumn(cs), period, i);
    if z.Some? && z.value != 0.0 {
      PercentsFit(x.value, y.value, z.value);
    }
  }

  lemma PercentsFit(x: real, y: real, z: real)
    requires Fits(x, y, z) && z > 0.0
    ensures 100.0 * x / z >= 0.0 && 100.0 * y / z >= 0.0 && 100.0 * x / z + 100.0 * y / z <= 100.0
  {
    QuotientSign(100.0 * x, z);
    QuotientSign(100.0 * y, z);
    RatioOrder(100.0 * x + 100.0 * y, z, 100.0, 1.0);
    assert (100.0 * x + 100.0 * y) / z == 100.0 * x / z + 100.0 * y / z;
  }

  lemma DxBounded(p: real, m: real)
    requires p >= 0.0 && m >= 0.0 && p + m > 0.0
    ensures 0.0 <= 100.0 * Distance(p, m) / (p + m) <= 100.0
  {
    QuotientSign(100.0 * Distance(p, m), p + m);
    RatioOrder(100.0 * Distance(p, m), p + m, 100.0, 1.0);
  }

  ghost predicate Within(xs: Series, low: real, high: real) {
    forall i | 0 <= i < |xs| && xs[i].Some? :: low <= xs[i].value <= high
  }

  lemma {:induction false} SumWithin(xs: seq<real>, s: nat, e: nat, high: real)
    requires s <= e <= |xs| && forall i | s <= i < e :: 0.0 <= xs[i] <= high
    ensures 0.0 <= Sum(xs, s, e) <= (e - s) as real * high
  {
    if s < e {
      SumWithin(xs, s, e - 1, high);
      assert (e - s) as real * high == (e - 1 - s) as real * high + high;
    }
  }

  /** Wilder's average stays between the bounds of its values, whatever is missing. */
  lemma {:induction false} AverageWithin(xs: Series, period: nat, high: real, i: nat)
    requires period >= 1 && i < |xs| && Within(xs, 0.0, high) && high >= 0.0
    ensures var v := RmaAt(xs, period, i); v.Some? ==> 0.0 <= v.value <= high
  {
    hide Sum, Smooth;
    var seed := Seed(xs, period);
    if seed.Some? && i == seed.value {
      var s := i + 1 - period;
      SumWithin(Clean(xs), s, i + 1, high);
      QuotientSign(Sum(Clean(xs), s, i + 1), period as real);
      RatioOrder(Sum(Clean(xs), s, i + 1), period as real, high, 1.0);
    } else if seed.Some? && i > seed.value {
      AverageWithin(xs, period, high, i - 1);
      var previous := RmaAt(xs, period, i - 1);
      if previous.Some? && xs[i].Some? {
        SmoothWithin(previous.value, xs[i].value, high, period);
      }
    }
  }

  lemma SmoothWithin(x: real, a: real, high: real, period: nat)
    requires period >= 1 && 0.0 <= x <= high && 0.0 <= a <= high
    ensures 0.0 <= Smooth(x, a, period) <= high
  {
    var k := period as real - 1.0;
    Scaled(x, k);
    Scaled(high - x, k);
    assert (high - x) * k == high * k - x * k;
    assert high * period as real == high * k + high;
    QuotientSign(x * k + a, period as real);
    RatioOrder(x * k + a, period as real, high, 1.0);
  }

  /** Trend strength lies between 0 and 100 for every candle series and every period. */
  lemma AdxBounded(cs: seq<Candle>, period: nat, i: nat)
    requires Sane(cs) && period >= 1 && i < |cs|
    ensures var v := AdxAt(cs, period, i); v.Some? ==> 0.0 <= v.value <= 100.0
  {
    hide RmaAt, DiPlus, DiMinus;
    var dx := DxColumn(cs, period);
    forall k | 0 <= k < |dx| && dx[k].Some? ensures 0.0 <= dx[k].value <= 100.0 {
      IndicatorsBounded(cs, period, k);
      DxBounded(DiPlus(cs, period, k).value, DiMinus(cs, period, k).value);
    }
    AverageWithin(dx, period, 100.0, i);
  }

  // -- nothing later is read ---------------------------------------------------------------

  lemma SeedLocal(xs: Series, ys: Series, period: nat, i: nat)
    requires period >= 1 && i < |xs| && i < |ys| && xs[..i + 1] == ys[..i + 1]
    ensures var a, b := Seed(xs, period), Seed(ys, period);
            (a.Some? && a.value <= i) || (b.Some? && b.value <= i) ==> a == b
  {
    forall k | period <= k + 1 && k <= i ensures Filled(xs, period, k) == Filled(ys, period, k) {
      forall j | 0 <= j <= k ensures xs[j] == ys[j] {
        assert xs[j] == xs[..i + 1][j] == ys[..i + 1][j];
      }
    }
  }

  /** Wilder's average on bar `i` is settled by the values up to it. */
  lemma {:induction false} RmaLocal(xs: Series, ys: Series, period: nat, i: nat)
    requires period >= 1 && i < |xs| && i < |ys| && xs[..i + 1] == ys[..i + 1]
    ensures RmaAt(xs, period, i) == RmaAt(ys, period, i)
  {
    hide Smooth, Sum;
    SeedLocal(xs, ys, period, i);
    var seed := Seed(xs, period);
    assert xs[i] == xs[..i + 1][i] == ys[..i + 1][i];
    if seed.Some? && i == seed.value {
      forall k | 0 <= k <= i ensures Clean(xs)[k] == Clean(ys)[k] {
        assert xs[k] == xs[..i + 1][k] == ys[..i + 1][k];
      }
      SumLocal(Clean(xs), Clean(ys), i + 1 - period, i + 1);
    } else if seed.Some? && i > seed.value {
      assert xs[..i] == xs[..i + 1][..i] && ys[..i] == ys[..i + 1][..i];
      RmaLocal(xs, ys, period, i - 1);
    }
  }

  lemma ColumnsLocal(cs: seq<Candle>, ds: seq<Candle>, i: nat)
    requires i < |cs| && i < |ds| && cs[..i + 1] == ds[..i + 1]
    ensures PlusColumn(cs)[..i + 1] == PlusColumn(ds)[..i + 1]
    ensures MinusColumn(cs)[..i + 1] == MinusColumn(ds)[..i + 1]
    ensures RangeColumn(cs)[..i + 1] == RangeColumn(ds)[..i + 1]
  {
    forall k | 0 <= k <= i ensures cs[k] == ds[k] {
      assert cs[k] == cs[..i + 1][k] == ds[..i + 1][k];
    }
  }

  lemma IndicatorsLocal(cs: seq<Candle>, ds: seq<Candle>, period: nat, i: nat)
    requires period >= 1 && i < |cs| && i < |ds| && cs[..i + 1] == ds[..i + 1]
    ensures DiPlus(cs, period, i) == DiPlus(ds, period, i) && DiMinus(cs, period, i) == DiMinus(ds, period, i)
  {
    hide RmaAt, PlusColumn, MinusColumn, RangeColumn;
    ColumnsLocal(cs, ds, i);
    RmaLocal(PlusColumn(cs), PlusColumn(ds), period, i);
    RmaLocal(MinusColumn(cs), MinusColumn(ds), period, i);
    RmaLocal(RangeColumn(cs), RangeColumn(ds), period, i);
  }

  /** Trend strength reads no candle after its own. */
  lemma AdxLocal(cs: seq<Candle>, ds: seq<Candle>, period: nat, i: nat)
    requires period >= 1 && i < |cs| && i < |ds| && cs[..i + 1] == ds[..i + 1]
    ensures AdxAt(cs, period, i) == AdxAt(ds, period, i)
  {
    hide RmaAt, DiPlus, DiMinus;
    forall k | 0 <= k <= i ensures DxColumn(cs, period)[k] == DxColumn(ds, period)[k] {
      assert cs[..k + 1] == cs[..i + 1][..k + 1] && ds[..k + 1] == ds[..i + 1][..k + 1];
      IndicatorsLocal(cs, ds, period, k);
    }
    assert DxColumn(cs, period)[..i + 1] == DxColumn(ds, period)[..i + 1];
    RmaLocal(DxColumn(cs, period), DxColumn(ds, period), period, i);
  }
}
