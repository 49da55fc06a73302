/** When an exit rule fires, and how far it is placed: bar by bar, in closes and column values. */
module ExitMeaning {
  import opened NodeProgram
  import opened EpisodeTables
  import opened ExitNodes
  import opened ExitPolicy

  ghost predicate Sized(market: Market) {
    forall f :: |market.column(f)| == |market.close|
  }

  /** A rule's signal over the whole frame. */
  ghost predicate Signals(market: Market, r: Outcome<ExitDatum>) {
    r.Value? && r.value.Flags? && |r.value.flags| == |market.close|
  }

  // -- signals ---------------------------------------------------------------------------------

  /** A long trade is left above the long threshold, a short one below the short threshold. */
  lemma RsiMeans(market: Market, rsi: FeatureNode, above: real, below: real, i: nat)
    requires Sized(market) && i < |market.close|
    ensures var spec, x := Rsi(Some(rsi), Some(above), Some(below)), market.column(rsi)[i];
            var long, short := SignalRule(market, spec, Long), SignalRule(market, spec, Short);
            && Signals(market, long) && (long.value.flags[i] <==> x.Some? && x.value > above)
            && Signals(market, short) && (short.value.flags[i] <==> x.Some? && x.value < below)
  {
  }

  /** Without its own threshold a side is refused, whatever the other side declares. */
  lemma RsiNeedsThreshold(market: Market, rsi: FeatureNode, threshold: real)
    requires Sized(market)
    ensures SignalRule(market, Rsi(Some(rsi), None, Some(threshold)), Long).Raised?
    ensures SignalRule(market, Rsi(Some(rsi), Some(threshold), None), Short).Raised?
  {
  }

  /** The value is on the losing side of a level. */
  ghost predicate Losing(side: Side, x: real, level: real) {
    if side == Long then x < level else level < x
  }

  /** A close loss fires once the last `confirm` closes all stand on the losing side of the average. */
  lemma CloseLossMeans(market: Market, ema: FeatureNode, confirm: int, side: Side, i: nat)
    requires Sized(market) && i < |market.close| && confirm >= 1
    ensures var r := SignalRule(market, EmaClose(Some(ema), confirm), side);
            && Signals(market, r)
            && (r.value.flags[i] <==>
                  && i + 1 >= confirm
                  && forall j | i - confirm < j <= i ::
                       market.column(ema)[j].Some? && Losing(side, market.close[j], market.column(ema)[j].value))
  {
    var r := SignalRule(market, EmaClose(Some(ema), confirm), side);
    assert r.value.flags[i] == ClosedBeyond(market.close, market.column(ema), i, confirm, side);
    forall j | 0 <= j <= i
      ensures Adverse(side, Some(market.close[j]), market.column(ema)[j])
         <==> market.column(ema)[j].Some? && Losing(side, market.close[j], market.column(ema)[j].value)
    {
    }
  }

  ghost predicate BothLosing(side: Side, fast: Series, slow: Series, j: int) {
    && 0 <= j < |fast| && j < |slow| && fast[j].Some? && slow[j].Some? && Losing(side, fast[j].value, slow[j].value)
  }

  ghost predicate BothStanding(side: Side, fast: Series, slow: Series, j: int) {
    && 0 <= j < |fast| && j < |slow| && fast[j].Some? && slow[j].Some? && !Losing(side, fast[j].value, slow[j].value)
  }

  /** A cross loss fires `confirm` bars after the last bar on which the fast average stood, if it has been on
      the losing side ever since. */
  lemma CrossLossMeans(market: Market, fast: FeatureNode, slow: FeatureNode, confirm: int, side: Side, i: nat)
    requires Sized(market) && i < |market.close| && confirm >= 1
    ensures var r := SignalRule(market, EmaCross(Some(fast), Some(slow), confirm), side);
            && Signals(market, r)
            && (r.value.flags[i] <==>
                  && BothStanding(side, market.column(fast), market.column(slow), i - confirm)
                  && forall j | i - confirm < j <= i :: BothLosing(side, market.column(fast), market.column(slow), j))
  {
    var xs, ys := market.column(fast), market.column(slow);
    ConfirmedCross(side, xs, ys, i, confirm);
    var r := SignalRule(market, EmaCross(Some(fast), Some(slow), confirm), side);
    assert r.value.flags[i] == CrossLost(side, xs, ys, i, confirm);
    forall j | 0 <= j <= i
      ensures Lost(side, xs, ys, j) <==> BothLosing(side, xs, ys, j)
      ensures Favourable(side, xs[j], ys[j]) <==> BothStanding(side, xs, ys, j)
    {
    }
    if BothStanding(side, xs, ys, i - confirm) && forall j | i - confirm < j <= i :: BothLosing(side, xs, ys, j) {
      assert Lost(side, xs, ys, i + 1 - confirm);
    }
  }

  /** A rule fires on no bar of a side that is not enabled. */
  lemma DisabledSide(market: Market, sides: set<Side>, rule: Rule, side: Side, i: nat)
    requires Sized(market) && i < |market.close| && side !in sides
    ensures var r := Contribution(market, sides, rule);
            r.Value? && r.value.SignalValue? ==> !r.value.signal.At(side)[i]
  {
  }

  // -- distances -------------------------------------------------------------------------------

  /** A distance and its ratio are there together, and the ratio of the close is the distance. */
  ghost predicate Proportional(market: Market, r: Outcome<ExitDatum>) {
    && r.Value? && r.value.Distances? && |r.value.distance| == |r.value.ratio| == |market.close|
    && forall i | 0 <= i < |market.close| ::
         && (r.value.distance[i].Some? <==> r.value.ratio[i].Some?)
         && (r.value.ratio[i].Some? ==> r.value.ratio[i].value * market.close[i] == r.value.distance[i].value)
  }

  lemma Quotient(x: real, y: real)
    requires y > 0.0
    ensures x / y * y == x
  {
  }

  /** An ATR distance is its column, a dollar distance its amount, and a percentage its own ratio; each needs
      its parameter and a positive close on every bar. */
  lemma DistanceMeans(market: Market, column: FeatureNode, amount: real, pct: real)
    requires Sized(market) && PositiveClose(market)
    ensures var r := DistanceRule(market, Atr(Some(column)));
            Proportional(market, r) && r.value.distance == market.column(column)
    ensures var r := DistanceRule(market, Usd(Some(amount)));
            Proportional(market, r) && forall i | 0 <= i < |market.close| :: r.value.distance[i] == Some(amount)
    ensures var r := DistanceRule(market, Pct(Some(pct)));
            if pct <= 0.0 then r.Raised?
            else Proportional(market, r) && forall i | 0 <= i < |market.close| :: r.value.ratio[i] == Some(pct)
  {
    AtrMeans(market, column);
    UsdMeans(market, amount);
    if pct > 0.0 {
      PctMeans(market, pct);
    }
  }

  lemma AtrMeans(market: Market, column: FeatureNode)
    requires Sized(market) && PositiveClose(market)
    ensures var r := DistanceRule(market, Atr(Some(column)));
            Proportional(market, r) && r.value.distance == market.column(column)
  {
    var r := DistanceRule(market, Atr(Some(column)));
    forall i | 0 <= i < |market.close| && r.value.ratio[i].Some?
      ensures r.value.ratio[i].value * market.close[i] == r.value.distance[i].value
    {
      Quotient(market.column(column)[i].value, market.close[i]);
    }
  }

  lemma UsdMeans(market: Market, amount: real)
    requires Sized(market) && PositiveClose(market)
    ensures var r := DistanceRule(market, Usd(Some(amount)));
            Proportional(market, r) && forall i | 0 <= i < |market.close| :: r.value.distance[i] == Some(amount)
  {
    var r := DistanceRule(market, Usd(Some(amount)));
    forall i | 0 <= i < |market.close|
      ensures r.value.ratio[i].Some? && r.value.ratio[i].value * market.close[i] == amount
    {
      Quotient(amount, market.close[i]);
    }
  }

  lemma PctMeans(market: Market, pct: real)
    requires Sized(market) && PositiveClose(market) && pct > 0.0
    ensures var r := DistanceRule(market, Pct(Some(pct)));
            Proportional(market, r) && forall i | 0 <= i < |market.close| :: r.value.ratio[i] == Some(pct)
  {
  }

  lemma DistanceRefused(market: Market, spec: DistanceSpec)
    requires Sized(market)
    ensures (exists i :: 0 <= i < |market.close| && market.close[i] <= 0.0) ==> DistanceRule(market, spec).Raised?
    ensures spec == Atr(None) || spec == Usd(None) || spec == Pct(None) ==> DistanceRule(market, spec).Raised?
  {
  }

  /** A rule is of the kind it was declared as; only a signal may leave its kind out. */
  ghost predicate OfItsKind(rule: Rule) {
    match rule.component
    case SignalComponent(_) => rule.declaredKind == None || rule.declaredKind == Some(ExitKind.Signal)
    case StopComponent(_) => rule.declaredKind == Some(StopLoss)
    case TakeComponent(_) => rule.declaredKind == Some(TakeProfit)
    case PartialComponent(_, _) => rule.declaredKind == Some(PartialTake)
    case Unsupported => false
  }

  /** A distance rule counts when it is named and of its kind and its distance is computed; a partial take beyond
      that only with a fraction strictly between nothing and everything. */
  lemma DistanceRuleCounts(market: Market, sides: set<Side>, rule: Rule)
    requires Sized(market) && !rule.component.SignalComponent? && !rule.component.Unsupported?
    ensures Contribution(market, sides, rule).Value? <==>
              && rule.id != "" && OfItsKind(rule) && DistanceRule(market, rule.component.distance).Value?
              && (rule.component.PartialComponent? ==>
                    rule.component.fraction.Some? && 0.0 < rule.component.fraction.value
                    && rule.component.fraction.value < 1.0)
  {
    hide DistanceRule;
  }

  /** A signal rule counts when it is named and of its kind and the signal of every enabled side is computed. */
  lemma SignalRuleCounts(market: Market, sides: set<Side>, rule: Rule)
    requires Sized(market) && rule.component.SignalComponent?
    ensures Contribution(market, sides, rule).Value? <==>
              && rule.id != "" && OfItsKind(rule)
              && forall side | side in sides :: SignalRule(market, rule.component.signal, side).Value?
  {
    hide SignalRule;
    if Contribution(market, sides, rule).Value? {
      forall side | side in sides ensures SignalRule(market, rule.component.signal, side).Value? {
        assert side == Long || side == Short;
      }
    }
  }
}
