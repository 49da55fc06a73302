/** The nodes of an exit policy: what each identity denotes over one market frame, and the exit rules whose
    computations and identities they are. */
module ExitNodes {
  import opened NodeProgram
  import opened EpisodeTables
  import O = Operands

  type FeatureNode = O.NodeSpec

  datatype Profile = Aligned | Countertrend | Neutral

  /** The base closes, and what the planned features and the profile series are on this frame. */
  datatype Market = Market(close: seq<real>, column: FeatureNode -> Series, profile: FeatureNode -> seq<Profile>)

  ghost predicate Framed(market: Market) {
    && (forall f :: |market.column(f)| == |market.close|)
    && (forall f :: |market.profile(f)| == |market.close|)
  }

  // -- what a signal reads -----------------------------------------------------------------

  predicate Adverse(side: Side, a: Option<real>, b: Option<real>) {
    a.Some? && b.Some? && if side == Long then a.value < b.value else a.value > b.value
  }

  predicate Favourable(side: Side, a: Option<real>, b: Option<real>) {
    a.Some? && b.Some? && !Adverse(side, a, b)
  }

  /** The fast average stands on the losing side of the slow one. */
  predicate Lost(side: Side, fast: Series, slow: Series, i: nat)
    requires i < |fast| == |slow|
  {
    Adverse(side, fast[i], slow[i])
  }

  /** The fast average crosses to the losing side on bar `i`. */
  predicate Crossed(side: Side, fast: Series, slow: Series, i: nat)
    requires i < |fast| == |slow|
  {
    i > 0 && Lost(side, fast, slow, i) && Favourable(side, fast[i - 1], slow[i - 1])
  }

  /** Lost on each of the last `confirm` bars. */
  predicate HeldLost(side: Side, fast: Series, slow: Series, i: nat, confirm: nat)
    requires i < |fast| == |slow|
  {
    confirm <= i + 1 && forall j | i + 1 - confirm <= j <= i :: Lost(side, fast, slow, j)
  }

  /** A cross loss: the cross itself, or a cross among the last `confirm` bars, all of which are lost. */
  predicate CrossLost(side: Side, fast: Series, slow: Series, i: nat, confirm: nat)
    requires i < |fast| == |slow| && confirm >= 1
  {
    if confirm == 1 then Crossed(side, fast, slow, i)
    else
      && HeldLost(side, fast, slow, i, confirm)
      && exists j: nat :: i + 1 - confirm <= j <= i && Crossed(side, fast, slow, j)
  }

  /** A confirmed cross fires on one bar only: `confirm - 1` bars after the cross, if all bars since are lost. */
  lemma ConfirmedCross(side: Side, fast: Series, slow: Series, i: nat, confirm: nat)
    requires i < |fast| == |slow| && confirm >= 1
    ensures CrossLost(side, fast, slow, i, confirm)
            <==> confirm <= i + 1 && Crossed(side, fast, slow, i + 1 - confirm) && HeldLost(side, fast, slow, i, confirm)
  {
    if confirm > 1 && HeldLost(side, fast, slow, i, confirm) {
      forall j: nat | i + 1 - confirm < j <= i ensures !Crossed(side, fast, slow, j) {
        assert Lost(side, fast, slow, j - 1);
      }
    }
  }

  // -- nodes -------------------------------------------------------------------------------

  /** Aggregates read an unordered set of rules: each is a commutative, idempotent reduction. */
  datatype ExitNode =
    | ConstantFalse
    | RsiSignal(rsi: FeatureNode, threshold: real, side: Side)
    | CloseLoss(ema: FeatureNode, confirm: nat, side: Side)
    | CrossLoss(fast: FeatureNode, slow: FeatureNode, confirm: nat, side: Side)
    | AtrDistance(distance: FeatureNode)
    | UsdDistance(amount: real)
    | PctDistance(pct: real)
    | AnySignal(rules: set<ExitNode>)
    | MinRatio(rules: set<ExitNode>)
    | MinDistance(rules: set<ExitNode>)
    | Ready(stopConfigured: bool, takeConfigured: bool, stop: ExitNode, take: ExitNode, takes: set<ExitNode>)
    | SelectFlag(profile: FeatureNode, aligned: ExitNode, countertrend: ExitNode, neutral: ExitNode)
    | SelectFloat(profile: FeatureNode, aligned: ExitNode, countertrend: ExitNode, neutral: ExitNode)

  datatype ExitDatum = Flags(flags: seq<bool>) | Floats(floats: Series) | Distances(distance: Series, ratio: Series)

  function Refusal(message: string): Failure {
    Failure("InvalidRequestError", message, [message], Some(Payload("invalid_request", message, map[], 422)))
  }

  function Over(x: Option<real>, close: real): Option<real>
    requires close > 0.0
  {
    if x.None? then None else Some(x.value / close)
  }

  predicate PositiveClose(market: Market) {
    forall i | 0 <= i < |market.close| :: market.close[i] > 0.0
  }

  ghost predicate Within(market: Market, i: nat) {
    i < |market.close| && Framed(market) && PositiveClose(market)
  }

  ghost function DistanceAt(market: Market, n: ExitNode, i: nat): Option<real>
    requires Within(market, i)
  {
    match n
    case AtrDistance(f) => market.column(f)[i]
    case UsdDistance(amount) => Some(amount)
    case PctDistance(pct) => Some(market.close[i] * pct)
    case _ => None
  }

  ghost function RatioAt(market: Market, n: ExitNode, i: nat): Option<real>
    requires Within(market, i)
  {
    match n
    case AtrDistance(f) => Over(market.column(f)[i], market.close[i])
    case UsdDistance(amount) => Some(amount / market.close[i])
    case PctDistance(pct) => Some(pct)
    case _ => None
  }

  /** `m` is the least of the present values, missing when there is none. */
  ghost predicate IsLeast(values: set<Option<real>>, m: Option<real>) {
    && m in values + {None}
    && forall v | v in values && v.Some? :: m.Some? && m.value <= v.value
  }

  lemma LeastUnique(values: set<Option<real>>, a: Option<real>, b: Option<real>)
    requires IsLeast(values, a) && IsLeast(values, b)
    ensures a == b
  {
  }

  ghost function Least(values: set<Option<real>>): Option<real> {
    if exists m :: IsLeast(values, m) then var m :| IsLeast(values, m); m else None
  }

  ghost function FloatAt(market: Market, n: ExitNode, i: nat): Option<real>
    requires Within(market, i)
  {
    match n
    case MinRatio(rules) => Least(set r | r in rules :: RatioAt(market, r, i))
    case MinDistance(rules) => Least(set r | r in rules :: DistanceAt(market, r, i))
    case SelectFloat(profile, aligned, countertrend, neutral) =>
      (match market.profile(profile)[i]
       case Aligned => FloatAt(market, aligned, i)
       case Countertrend => FloatAt(market, countertrend, i)
       case Neutral => FloatAt(market, neutral, i))
    case _ => None
  }

  ghost predicate SignalAt(market: Market, n: ExitNode, i: nat)
    requires i < |market.close| && Framed(market)
  {
    match n
    case RsiSignal(rsi, threshold, side) => RsiBeyond(market.column(rsi)[i], threshold, side)
    case CloseLoss(ema, confirm, side) => ClosedBeyond(market.close, market.column(ema), i, confirm, side)
    case CrossLoss(fast, slow, confirm, side) =>
      confirm >= 1 && CrossLost(side, market.column(fast), market.column(slow), i, confirm)
    case _ => false
  }

  predicate RsiBeyond(x: Option<real>, threshold: real, side: Side) {
    x.Some? && if side == Long then x.value > threshold else x.value < threshold
  }

  /** The close on the losing side of the average on each of the last `confirm` bars. */
  predicate ClosedBeyond(close: seq<real>, ema: Series, i: nat, confirm: nat, side: Side)
    requires i < |close| == |ema|
  {
    confirm <= i + 1 && forall j | i + 1 - confirm <= j <= i :: Adverse(side, Some(close[j]), ema[j])
  }

  ghost predicate FlagAt(market: Market, n: ExitNode, i: nat)
    requires i < |market.close| && Framed(market)
  {
    match n
    case AnySignal(rules) => exists r :: r in rules && SignalAt(market, r, i)
    case Ready(stopConfigured, takeConfigured, stop, take, takes) =>
      Within(market, i) ==>
        && (stopConfigured ==> FloatAt(market, stop, i).Some?)
        && (takeConfigured ==> FloatAt(market, take, i).Some?)
        && forall r | r in takes :: RatioAt(market, r, i).Some?
    case SelectFlag(profile, aligned, countertrend, neutral) =>
      (match market.profile(profile)[i]
       case Aligned => FlagAt(market, aligned, i)
       case Countertrend => FlagAt(market, countertrend, i)
       case Neutral => FlagAt(market, neutral, i))
    case _ => SignalAt(market, n, i)
  }

  /** The outcome every computation with this identity has. */
  ghost function Meaning(market: Market, n: ExitNode): Outcome<ExitDatum>
    requires Framed(market)
  {
    var size := |market.close|;
    match n
    case AtrDistance(_) => DistanceMeaning(market, n)
    case UsdDistance(_) => DistanceMeaning(market, n)
    case PctDistance(_) => DistanceMeaning(market, n)
    case MinRatio(_) => FloatMeaning(market, n)
    case MinDistance(_) => FloatMeaning(market, n)
    case SelectFloat(_, _, _, _) => FloatMeaning(market, n)
    case _ => Value(Flags(seq(size, i requires 0 <= i < size => FlagAt(market, n, i))))
  }

  const NOT_POSITIVE := Refusal("exit distance ratio requires positive close")

  ghost function DistanceMeaning(market: Market, n: ExitNode): Outcome<ExitDatum>
    requires Framed(market)
  {
    var size := |market.close|;
    if !PositiveClose(market) then Raised(NOT_POSITIVE)
    else Value(Distances(seq(size, i requires 0 <= i < size => DistanceAt(market, n, i)),
                         seq(size, i requires 0 <= i < size => RatioAt(market, n, i))))
  }

  /** Without positive closes no distance rule has a value: an aggregate is over no rule at all. */
  ghost function FloatMeaning(market: Market, n: ExitNode): Outcome<ExitDatum>
    requires Framed(market)
  {
    var size := |market.close|;
    if !PositiveClose(market) then Value(Floats(seq(size, i => None)))
    else Value(Floats(seq(size, i requires 0 <= i < size => FloatAt(market, n, i))))
  }

  // -- rules -------------------------------------------------------------------------------

  /** A feature the plan has no column for is `None`; so is a parameter that was not declared. */
  datatype SignalSpec =
    | Never
    | Rsi(rsi: Option<FeatureNode>, longAbove: Option<real>, shortBelow: Option<real>)
    | EmaClose(ema: Option<FeatureNode>, confirm: int)
    | EmaCross(fast: Option<FeatureNode>, slow: Option<FeatureNode>, confirm: int)

  datatype DistanceSpec = Atr(column: Option<FeatureNode>) | Usd(amount: Option<real>) | Pct(pct: Option<real>)

  datatype Component =
    | SignalComponent(signal: SignalSpec)
    | StopComponent(distance: DistanceSpec)
    | TakeComponent(distance: DistanceSpec)
    | PartialComponent(distance: DistanceSpec, fraction: Option<real>)
    | Unsupported

  datatype ExitKind = Signal | StopLoss | TakeProfit | PartialTake

  /** The kind is as declared; an undeclared kind is a signal. */
  datatype Rule = Rule(id: string, componentId: string, component: Component, declaredKind: Option<ExitKind>) {
    function Kind(): ExitKind {
      if declaredKind.Some? then declaredKind.value else Signal
    }
  }

  function ExpectedKind(component: Component): Option<ExitKind> {
    match component
    case SignalComponent(_) => Some(Signal)
    case StopComponent(_) => Some(StopLoss)
    case TakeComponent(_) => Some(TakeProfit)
    case PartialComponent(_, _) => Some(PartialTake)
    case Unsupported => None
  }

  function RuleHead(rule: Rule): Option<Failure> {
    if rule.id == "" then Some(Refusal("exit rule requires instance_id"))
    else if rule.component.Unsupported? then Some(Refusal("unsupported exit component"))
    else if ExpectedKind(rule.component) != Some(rule.Kind()) then Some(Refusal("mismatched exit_kind"))
    else None
  }

  function Threshold(spec: SignalSpec, side: Side): Option<real>
    requires spec.Rsi?
  {
    if side == Long then spec.longAbove else spec.shortBelow
  }

  /** The computation of one signal rule on an enabled side. */
  function SignalRule(market: Market, spec: SignalSpec, side: Side): Outcome<ExitDatum>
    requires forall f :: |market.column(f)| == |market.close|
  {
    var size := |market.close|;
    match spec
    case Never => Value(Flags(seq(size, i => false)))
    case Rsi(rsi, _, _) =>
      if rsi.None? then Raised(Refusal("missing RSI mapping for exit"))
      else if Threshold(spec, side).None? then Raised(Refusal("rsi_signal_exit requires its threshold"))
      else
        Value(Flags(seq(size, i requires 0 <= i < size =>
          RsiBeyond(market.column(rsi.value)[i], Threshold(spec, side).value, side))))
    case EmaClose(ema, confirm) =>
      if ema.None? then Raised(Refusal("missing EMA mapping for exit"))
      else if confirm < 1 then Raised(Refusal("confirm_bars must be >= 1"))
      else
        Value(Flags(seq(size, i requires 0 <= i < size =>
          ClosedBeyond(market.close, market.column(ema.value), i, confirm, side))))
    case EmaCross(fast, slow, confirm) =>
      if fast.None? || slow.None? then Raised(Refusal("missing EMA mapping for exit"))
      else if confirm < 1 then Raised(Refusal("confirm_bars must be >= 1"))
      else
        Value(Flags(seq(size, i requires 0 <= i < size =>
          CrossLost(side, market.column(fast.value), market.column(slow.value), i, confirm))))
  }

  function SignalNode(spec: SignalSpec, side: Side): Outcome<ExitNode> {
    match spec
    case Never => Value(ConstantFalse)
    case Rsi(rsi, _, _) =>
      if rsi.None? then Raised(Refusal("missing RSI mapping for exit"))
      else if Threshold(spec, side).None? then Raised(Refusal("rsi_signal_exit requires its threshold"))
      else Value(RsiSignal(rsi.value, Threshold(spec, side).value, side))
    case EmaClose(ema, confirm) =>
      if ema.None? then Raised(Refusal("missing EMA mapping for exit"))
      else if confirm < 1 then Raised(Refusal("confirm_bars must be >= 1"))
      else Value(CloseLoss(ema.value, confirm, side))
    case EmaCross(fast, slow, confirm) =>
      if fast.None? || slow.None? then Raised(Refusal("missing EMA mapping for exit"))
      else if confirm < 1 then Raised(Refusal("confirm_bars must be >= 1"))
      else Value(CrossLoss(fast.value, slow.value, confirm, side))
  }

  /** A distance and its ratio to the close; a percentage is its own ratio. */
  function DistanceRule(market: Market, spec: DistanceSpec): (r: Outcome<ExitDatum>)
    requires forall f :: |market.column(f)| == |market.close|
    ensures r.Value? ==> r.value.Distances? && |r.value.distance| == |r.value.ratio| == |market.close|
  {
    var size := |market.close|;
    match spec
    case Atr(column) =>
      if column.None? then Raised(Refusal("missing ATR distance mapping for exit"))
      else if !PositiveClose(market) then Raised(NOT_POSITIVE)
      else
        var xs := market.column(column.value);
        Value(Distances(xs, seq(size, i requires 0 <= i < size => Over(xs[i], market.close[i]))))
    case Usd(amount) =>
      if amount.None? then Raised(Refusal("constant USD exit requires usd_distance"))
      else if !PositiveClose(market) then Raised(NOT_POSITIVE)
      else
        Value(Distances(seq(size, i => Some(amount.value)),
                        seq(size, i requires 0 <= i < size => Some(amount.value / market.close[i]))))
    case Pct(pct) =>
      if pct.None? || pct.value <= 0.0 then Raised(Refusal("pct must be a positive number"))
      else if !PositiveClose(market) then Raised(NOT_POSITIVE)
      else
        Value(Distances(seq(size, i requires 0 <= i < size => Some(market.close[i] * pct.value)),
                        seq(size, i => Some(pct.value))))
  }

  function DistanceNode(spec: DistanceSpec): Outcome<ExitNode> {
    match spec
    case Atr(column) =>
      if column.None? then Raised(Refusal("missing ATR distance mapping for exit")) else Value(AtrDistance(column.value))
    case Usd(amount) =>
      if amount.None? then Raised(Refusal("constant USD exit requires usd_distance")) else Value(UsdDistance(amount.value))
    case Pct(pct) =>
      if pct.None? || pct.value <= 0.0 then Raised(Refusal("pct must be a positive number")) else Value(PctDistance(pct.value))
  }

  /** A rule's identity denotes what its computation yields, and is refused only where the computation is. */
  lemma SignalTwin(market: Market, spec: SignalSpec, side: Side)
    requires Framed(market)
    ensures match SignalNode(spec, side)
            case Value(n) => Meaning(market, n) == SignalRule(market, spec, side)
            case Raised(failure) => SignalRule(market, spec, side) == Raised(failure)
  {
    var node := SignalNode(spec, side);
    if node.Value? {
      var flags := SignalRule(market, spec, side).value.flags;
      assert Meaning(market, node.value).value.flags == flags;
    }
  }

  lemma DistanceTwin(market: Market, spec: DistanceSpec)
    requires Framed(market)
    ensures match DistanceNode(spec)
            case Value(n) => Meaning(market, n) == DistanceRule(market, spec)
            case Raised(failure) => DistanceRule(market, spec) == Raised(failure)
  {
    var node := DistanceNode(spec);
    if node.Value? && PositiveClose(market) {
      var meant, made := DistanceMeaning(market, node.value).value, DistanceRule(market, spec).value;
      assert meant.distance == made.distance;
      assert meant.ratio == made.ratio;
    }
  }
}
