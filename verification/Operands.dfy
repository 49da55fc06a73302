/** The operand language of pre-entry predicates: its identity twin and its evaluation.

    `NodeOf` and `Predicted` are the identity twin (`_resolve_operand`); `ComputationOf` is the
    evaluation (`_values`), a tree of node computations that consume one another. */
module Operands {
  import opened NodeProgram
  import opened NodeIdentity
  import opened EpisodeTables

  // -- node identities ---------------------------------------------------------

  /** Indicator, episode and context identities come from other stages; the rest are the predicate
      layer's own node families. */
  datatype Kind =
    | KIndicator(name: string) | KEpisode | KContext
    | KColumn | KEpisodeOperand
    | KSegment | KCandle | KFormingCandle | KImpulseAtr | KWindowChange
    | KLegMean | KLegSum | KLegTopMean | KAnchorFollow | KPullbackDepth
    | KLegSpeed | KLegEfficiency | KLegBars | KLegChange
    | KScale | KIntervalChange | KRatio | KAbs | KDifference | KAtPoint | KSigned | KOnlyIf
    | KCompare | KRange | KChange | KState | KTemporal

  datatype Name =
    | From | To | ValueForm | Window | Aggregate | Negate | IncludeStart | EmptyPolicy | Span | Touch
    | BySide | Top | EligibilityOf | LegName | Field | Share | Timeframe | Direction | Point
    | OperandTag | LastN | FormName | Factor | OperationName | IntervalKind | Bars | RefName
    | OfTag | LeftTag | RightTag | RightFloor | DenominatorMode | Center | RequireTags
    | Op | Min | Max | Bounds | Empty | Amount | Lookback | Regimes | Mode | Entity | Index

  datatype Role =
    | FeatureRole | EpisodeRole | AtrRole | SeriesRole | ContextRole
    | Left | Right | Inner | Of | Require(index: nat)

  datatype NodeSpec = NodeSpec(
    kind: Kind,
    params: map<Name, Canonical>,
    upstream: map<Role, NodeSpec>,
    side: Option<Side>)

  // -- operands ----------------------------------------------------------------

  /** A planned feature: its column label, and what its own parameters say of it. `barRows` is how
      many base rows one bar of its timeframe takes, none when that is not a whole number. */
  datatype Feature = Feature(columnLabel: string, onBase: bool, period: int, barRows: Option<nat>)

  datatype EpisodeRef = EpisodeRef(ref: string, entity: string, index: Option<int>, field: string)

  datatype Eligibility = Eligibility(
    legsMinBars: Option<int>, window: Option<int>, impulsePositive: bool, pullbackMinBars: Option<int>)

  datatype SeriesForm = Single | Subtraction | BySideForm

  /** The operands over a leg of the current touch, without the episode and the features they read. */
  datatype Shape =
    | Segment(form: SeriesForm, start: string, end: string, aggregate: string, value: string,
              lastN: Option<int>, negate: bool, span: Option<int>, top: Option<int>,
              eligibility: Option<Eligibility>, touch: string, includeStart: bool, emptyPolicy: string)
    | Candle(leg: string, timeframe: string, direction: string)
    | FormingCandle(timeframe: string, field: string)
    | ImpulseAtr
    | WindowChange(bars: int, changeForm: string)
    | LegMean(leg: string, field: string)
    | LegSum(leg: string, field: string)
    | LegTopMean(leg: string, field: string, share: Float)
    | AnchorFollow
    | PullbackDepth(touch: string)
    | LegSpeed(leg: string)
    | LegEfficiency(leg: string)
    | LegBars(leg: string)
    | LegChange(leg: string, field: string, touch: string)

  datatype Interval =
    | FixedInterval(bars: int)
    | EpisodeInterval(ref: string, leg: string, lastN: Option<int>)

  datatype Bound = Bound(min: Option<Float>, max: Option<Float>, bounds: string)

  datatype Operand =
    | Const(value: Float)
    | Price(field: string)
    | EpisodeValue(ref: EpisodeRef)
    | FeatureValue(feature: Feature)
    | OverLeg(episode: string, shape: Shape, features: seq<Feature>)
    | Ratio(left: Operand, right: Operand, rightFloor: Float, mode: string)
    | Difference(left: Operand, right: Operand)
    | Absolute(inner: Operand)
    | Scale(inner: Operand, factor: Float)
    | IntervalChange(inner: Operand, interval: Interval, operation: string)
    | AtPoint(episode: string, point: string, inner: Operand)
    | Signed(inner: Operand, center: Float)
    | OnlyIf(inner: Operand, require: seq<Requirement>)

  datatype Requirement = Requirement(operand: Operand, bound: Bound)

  // -- the market and the variants that share it ---------------------------------

  datatype Column = Column(values: Series, period: int)

  datatype HtfState = HtfState(up: seq<bool>, down: seq<bool>, neutral: seq<bool>)

  /** What one market frame makes of identities and parameters: the same for every variant of a
      batch. The functions stand for the per-leg and per-touch evaluators. */
  datatype World = World(
    size: nat,
    price: string -> Series,
    column: NodeSpec -> Series,
    onBase: NodeSpec -> bool,
    period: NodeSpec -> int,
    barRows: NodeSpec -> Option<nat>,
    table: NodeSpec -> SideEpisode,
    htf: NodeSpec -> HtfState,
    badTimeframe: Shape -> bool,
    episodeField: (SideEpisode, string, Option<int>, string) -> Series,
    overLeg: (Shape, SideEpisode, seq<Column>, Side) -> Series,
    intervalChange: (Interval, Option<SideEpisode>, string, Series) -> Series,
    atPoint: (SideEpisode, string, Series) -> Series)

  /** One variant's plan and bundle: identities and series under its own labels. */
  datatype Env = Env(
    featureIds: map<string, NodeSpec>,
    series: map<string, Series>,
    episodeIds: map<(string, Side), NodeSpec>,
    episodes: map<(string, Side), SideEpisode>,
    contextIds: map<string, NodeSpec>,
    contexts: map<string, HtfState>)

  /** Identities of earlier stages denote what the variant's frame and bundle hold under them. */
  ghost predicate EnvSound(world: World, env: Env) {
    && (forall l | l in env.featureIds ::
          l in env.series && env.series[l] == world.column(env.featureIds[l]))
    && (forall k | k in env.episodeIds ::
          k in env.episodes && env.episodes[k] == world.table(env.episodeIds[k]))
    && (forall c | c in env.contextIds ::
          c in env.contexts && env.contexts[c] == world.htf(env.contextIds[c]))
  }

  // -- the identity twin ---------------------------------------------------------

  function IntOrNone(o: Option<int>): Canonical {
    match o
    case None => CNone
    case Some(i) => CInt(i)
  }

  function FloatOrNone(o: Option<Float>): Canonical {
    match o
    case None => CNone
    case Some(f) => CFloat(f)
  }

  function ShapeKind(shape: Shape): Kind {
    match shape
    case Segment(_, _, _, _, _, _, _, _, _, _, _, _, _) => KSegment
    case Candle(_, _, _) => KCandle
    case FormingCandle(_, _) => KFormingCandle
    case ImpulseAtr => KImpulseAtr
    case WindowChange(_, _) => KWindowChange
    case LegMean(_, _) => KLegMean
    case LegSum(_, _) => KLegSum
    case LegTopMean(_, _, _) => KLegTopMean
    case AnchorFollow => KAnchorFollow
    case PullbackDepth(_) => KPullbackDepth
    case LegSpeed(_) => KLegSpeed
    case LegEfficiency(_) => KLegEfficiency
    case LegBars(_) => KLegBars
    case LegChange(_, _, _) => KLegChange
  }

  type Params = map<Name, Canonical>

  function When(present: bool, name: Name, value: Canonical): Params {
    if present then map[name := value] else map[]
  }

  function EligibilityParam(e: Eligibility): Canonical {
    CTuple([IntOrNone(e.legsMinBars), IntOrNone(e.window), CBool(e.impulsePositive), IntOrNone(e.pullbackMinBars)])
  }

  /** A segment's parameters; the optional ones enter only when they are not the default. */
  function SegmentParam(s: Shape, name: Name): Option<Canonical>
    requires s.Segment?
  {
    match name
    case From => Some(CStr(s.start))
    case To => Some(CStr(s.end))
    case ValueForm => Some(CStr(s.value))
    case Window => Some(IntOrNone(s.lastN))
    case Aggregate => Some(CStr(s.aggregate))
    case Negate => Some(CBool(s.negate))
    case IncludeStart => if s.includeStart then None else Some(CBool(false))
    case EmptyPolicy => if s.emptyPolicy == "missing" then None else Some(CStr(s.emptyPolicy))
    case Span => if s.span.None? then None else Some(IntOrNone(s.span))
    case Touch => if s.touch == "current" then None else Some(CStr(s.touch))
    case BySide => if s.form.BySideForm? then Some(CBool(true)) else None
    case Top => if s.top.None? then None else Some(IntOrNone(s.top))
    case EligibilityOf => if s.eligibility.None? then None else Some(EligibilityParam(s.eligibility.value))
    case _ => None
  }

  const SEGMENT_NAMES: set<Name> :=
    {From, To, ValueForm, Window, Aggregate, Negate, IncludeStart, EmptyPolicy, Span, Touch, BySide, Top, EligibilityOf}

  function SegmentParams(s: Shape): Params
    requires s.Segment?
  {
    map name | name in SEGMENT_NAMES && SegmentParam(s, name).Some? :: SegmentParam(s, name).value
  }

  function ShapeParams(shape: Shape): Params {
    match shape
    case Segment(_, _, _, _, _, _, _, _, _, _, _, _, _) => SegmentParams(shape)
    case Candle(leg, timeframe, direction) =>
      map[LegName := CStr(leg), Timeframe := CStr(timeframe), Direction := CStr(direction)]
    case FormingCandle(timeframe, field) =>
      map[Timeframe := CStr(timeframe)] + When(field == "range", Field, CStr("range"))
    case ImpulseAtr => map[]
    case WindowChange(bars, changeForm) => map[LastN := CInt(bars), FormName := CStr(changeForm)]
    case LegMean(leg, field) => map[LegName := CStr(leg), Field := CStr(field)]
    case LegSum(leg, field) => map[LegName := CStr(leg), Field := CStr(field)]
    case LegTopMean(leg, field, share) =>
      map[LegName := CStr(leg), Field := CStr(field), Share := CFloat(share)]
    case AnchorFollow => map[]
    case PullbackDepth(touch) => When(touch != "current", Touch, CStr(touch))
    case LegSpeed(leg) => map[LegName := CStr(leg)]
    case LegEfficiency(leg) => map[LegName := CStr(leg)]
    case LegBars(leg) => map[LegName := CStr(leg)]
    case LegChange(leg, field, touch) =>
      map[LegName := CStr(leg), Field := CStr(field), Touch := CStr(touch)]
  }

  /** The features the shape reads on `side`: a by-side series reads only the side's own one. */
  function Reads(shape: Shape, features: seq<Feature>, side: Side): seq<Feature> {
    if shape.Segment? && shape.form.BySideForm? && |features| == 2
    then [if side == Long then features[0] else features[1]]
    else features
  }

  /** How many features the parser admits for a shape. */
  predicate Fits(shape: Shape, features: seq<Feature>) {
    match shape
    case Segment(form, _, _, _, _, _, _, _, _, _, _, _, _) => |features| == if form.Single? then 1 else 2
    case Candle(_, _, _) => |features| <= 1
    case FormingCandle(_, field) => |features| == 1 && field in {"body", "range"}
    case ImpulseAtr => |features| == 1
    case WindowChange(_, _) => |features| == 1
    case _ => |features| == 0
  }

  function ReadRole(shape: Shape, i: nat): Role {
    if shape.Segment? then (if i == 0 then Left else Right)
    else if shape.WindowChange? then SeriesRole
    else AtrRole
  }

  function ColumnNode(feature: NodeSpec): NodeSpec {
    NodeSpec(KColumn, map[], map[FeatureRole := feature], None)
  }

  function ColumnOf(env: Env, f: Feature): NodeSpec
    requires f.columnLabel in env.featureIds
  {
    ColumnNode(env.featureIds[f.columnLabel])
  }

  function ReadNodes(env: Env, shape: Shape, columns: seq<Feature>): map<Role, NodeSpec>
    requires forall f | f in columns :: f.columnLabel in env.featureIds
    requires |columns| <= 2
  {
    if |columns| == 0 then map[]
    else if |columns| == 1 then map[ReadRole(shape, 0) := ColumnOf(env, columns[0])]
    else map[ReadRole(shape, 0) := ColumnOf(env, columns[0]), ReadRole(shape, 1) := ColumnOf(env, columns[1])]
  }

  function ColumnNodes(env: Env, columns: seq<Feature>): seq<NodeSpec>
    requires forall f | f in columns :: f.columnLabel in env.featureIds
  {
    if |columns| == 0 then [] else [ColumnOf(env, columns[0])] + ColumnNodes(env, columns[1..])
  }

  function ShapeTag(shape: Shape): string {
    match shape
    case Segment(_, _, _, _, _, _, _, _, _, _, _, _, _) => "segment"
    case Candle(_, _, _) => "candle"
    case FormingCandle(_, _) => "forming_candle"
    case ImpulseAtr => "impulse_atr"
    case WindowChange(_, _) => "window_change"
    case LegMean(_, _) => "leg_mean"
    case LegSum(_, _) => "leg_sum"
    case LegTopMean(_, _, _) => "leg_top_mean"
    case AnchorFollow => "anchor_follow"
    case PullbackDepth(_) => "pullback_depth"
    case LegSpeed(_) => "leg_speed"
    case LegEfficiency(_) => "leg_efficiency"
    case LegBars(_) => "leg_bars"
    case LegChange(_, _, _) => "leg_change"
  }

  function TagOf(op: Operand): Canonical {
    match op
    case Const(value) => CTuple([CStr("const"), CFloat(value)])
    case Price(field) => CTuple([CStr("price"), CStr(field)])
    case EpisodeValue(_) => CTuple([CStr("episode")])
    case FeatureValue(_) => CTuple([CStr("feature")])
    case OverLeg(_, shape, _) => CTuple([CStr(ShapeTag(shape))])
    case Ratio(_, _, _, _) => CTuple([CStr("ratio")])
    case Difference(_, _) => CTuple([CStr("difference")])
    case Absolute(_) => CTuple([CStr("abs")])
    case Scale(_, _) => CTuple([CStr("scale")])
    case IntervalChange(_, _, _) => CTuple([CStr("interval_change")])
    case AtPoint(_, _, _) => CTuple([CStr("at_point")])
    case Signed(_, _) => CTuple([CStr("signed")])
    case OnlyIf(_, _) => CTuple([CStr("only_if")])
  }

  /** Whether the operand itself is taken to read the episode bundle. */
  predicate NeedsEpisode(op: Operand) {
    match op
    case Const(_) => false
    case Price(_) => false
    case FeatureValue(_) => false
    case Scale(inner, _) => NeedsEpisode(inner)
    case IntervalChange(_, interval, _) => interval.EpisodeInterval?
    case Absolute(inner) => NeedsEpisode(inner)
    case Difference(left, right) => NeedsEpisode(left) || NeedsEpisode(right)
    case Ratio(left, right, _, _) => NeedsEpisode(left) || NeedsEpisode(right)
    case _ => true
  }

  predicate Planned(world: World, env: Env, f: Feature) {
    && f.columnLabel in env.featureIds
    && f.onBase == world.onBase(env.featureIds[f.columnLabel])
    && f.period == world.period(env.featureIds[f.columnLabel])
    && f.barRows == world.barRows(env.featureIds[f.columnLabel])
  }

  predicate Declared(env: Env, ref: string, side: Side) {
    (ref, side) in env.episodeIds
  }

  /** Every feature the operand reads is planned and every episode declared: resolution succeeds. */
  predicate Resolvable(world: World, env: Env, op: Operand, side: Side) {
    match op
    case Const(_) => true
    case Price(_) => true
    case EpisodeValue(ref) => Declared(env, ref.ref, side)
    case FeatureValue(f) => Planned(world, env, f)
    case OverLeg(episode, shape, features) =>
      && Declared(env, episode, side) && Fits(shape, features)
      && forall f | f in Reads(shape, features, side) :: Planned(world, env, f)
    case Ratio(left, right, _, _) => Resolvable(world, env, left, side) && Resolvable(world, env, right, side)
    case Difference(left, right) => Resolvable(world, env, left, side) && Resolvable(world, env, right, side)
    case Absolute(inner) => Resolvable(world, env, inner, side)
    case Scale(inner, _) => Resolvable(world, env, inner, side)
    case IntervalChange(inner, interval, _) =>
      && Resolvable(world, env, inner, side)
      && (interval.EpisodeInterval? ==> Declared(env, interval.ref, side))
    case AtPoint(episode, _, inner) => Declared(env, episode, side) && Resolvable(world, env, inner, side)
    case Signed(inner, _) => Resolvable(world, env, inner, side)
    case OnlyIf(inner, require) =>
      && Resolvable(world, env, inner, side)
      && forall i | 0 <= i < |require| :: Resolvable(world, env, require[i].operand, side)
  }

  function Slot(role: Role, node: Option<NodeSpec>): map<Role, NodeSpec> {
    if node.Some? then map[role := node.value] else map[]
  }

  function RatioParams(left: Canonical, right: Canonical, rightFloor: Float, mode: string): Params {
    map[LeftTag := left, RightTag := right]
    + When(Real(rightFloor) != 0.0, RightFloor, CFloat(rightFloor))
    + When(mode != "positive", DenominatorMode, CStr(mode))
  }

  function IntervalParams(interval: Interval, operation: string, of: Canonical): Params {
    match interval
    case FixedInterval(bars) =>
      map[IntervalKind := CStr("fixed"), Bars := CInt(bars), RefName := CNone, LegName := CNone, LastN := CNone,
          OperationName := CStr(operation), OfTag := of]
    case EpisodeInterval(ref, leg, lastN) =>
      map[IntervalKind := CStr("episode"), Bars := CNone, RefName := CStr(ref), LegName := CStr(leg),
          LastN := IntOrNone(lastN), OperationName := CStr(operation), OfTag := of]
  }

  function RequirementTag(r: Requirement): Canonical {
    CTuple([TagOf(r.operand), FloatOrNone(r.bound.min), FloatOrNone(r.bound.max), CStr(r.bound.bounds)])
  }

  function RequirementTags(rs: seq<Requirement>): (tags: seq<Canonical>)
    ensures |tags| == |rs| && forall i | 0 <= i < |rs| :: tags[i] == RequirementTag(rs[i])
  {
    seq(|rs|, i requires 0 <= i < |rs| => RequirementTag(rs[i]))
  }

  /** The node an operand contributes upstream of its parent; none for a price or a constant. */
  function NodeOf(world: World, env: Env, op: Operand, side: Side): Option<NodeSpec>
    requires Resolvable(world, env, op, side)
    decreases op, 1
  {
    match op
    case Const(_) => None
    case Price(_) => None
    case EpisodeValue(ref) =>
      Some(NodeSpec(KEpisodeOperand,
        map[Entity := CStr(ref.entity), Index := IntOrNone(ref.index), Field := CStr(ref.field)],
        map[EpisodeRole := env.episodeIds[(ref.ref, side)]], None))
    case FeatureValue(f) => Some(ColumnOf(env, f))
    case OverLeg(episode, shape, features) =>
      Some(NodeSpec(ShapeKind(shape), ShapeParams(shape),
        map[EpisodeRole := env.episodeIds[(episode, side)]]
        + ReadNodes(env, shape, Reads(shape, features, side)),
        Some(side)))
    case Ratio(left, right, rightFloor, mode) =>
      Some(NodeSpec(KRatio, RatioParams(TagOf(left), TagOf(right), rightFloor, mode),
        Slot(Left, NodeOf(world, env, left, side)) + Slot(Right, NodeOf(world, env, right, side)),
        SideIf(op, side)))
    case Difference(left, right) =>
      Some(NodeSpec(KDifference, map[LeftTag := TagOf(left), RightTag := TagOf(right)],
        Slot(Left, NodeOf(world, env, left, side)) + Slot(Right, NodeOf(world, env, right, side)),
        SideIf(op, side)))
    case Absolute(inner) =>
      Some(NodeSpec(KAbs, map[OperandTag := TagOf(inner)], Slot(Inner, NodeOf(world, env, inner, side)),
        SideIf(op, side)))
    case Scale(inner, factor) =>
      Some(NodeSpec(KScale, map[Factor := CFloat(factor), OperandTag := TagOf(inner)],
        Slot(Inner, NodeOf(world, env, inner, side)), SideIf(op, side)))
    case IntervalChange(inner, interval, operation) =>
      Some(NodeSpec(KIntervalChange, IntervalParams(interval, operation, TagOf(inner)),
        Slot(Of, NodeOf(world, env, inner, side))
        + (if interval.EpisodeInterval? then map[EpisodeRole := env.episodeIds[(interval.ref, side)]] else map[]),
        SideIf(op, side)))
    case AtPoint(episode, point, inner) =>
      Some(NodeSpec(KAtPoint, map[Point := CStr(point), OperandTag := TagOf(inner)],
        map[EpisodeRole := env.episodeIds[(episode, side)]] + Slot(Inner, NodeOf(world, env, inner, side)),
        Some(side)))
    case Signed(inner, center) =>
      Some(NodeSpec(KSigned, map[Center := CFloat(center), OperandTag := TagOf(inner)],
        Slot(Inner, NodeOf(world, env, inner, side)), Some(side)))
    case OnlyIf(inner, require) =>
      Some(NodeSpec(KOnlyIf,
        map[OperandTag := TagOf(inner), RequireTags := CTuple(RequirementTags(require))],
        Slot(Inner, NodeOf(world, env, inner, side)) + RequireNodes(world, env, require, side),
        Some(side)))
  }

  function RequireNodes(world: World, env: Env, rs: seq<Requirement>, side: Side): (nodes: map<Role, NodeSpec>)
    requires forall i | 0 <= i < |rs| :: Resolvable(world, env, rs[i].operand, side)
    ensures forall role | role in nodes :: role.Require? && role.index < |rs|
    decreases rs, 0
  {
    if |rs| == 0 then map[] else
      var last := rs[|rs| - 1];
      assert last in rs && last.operand < last;
      RequireNodes(world, env, rs[..|rs| - 1], side)
      + Slot(Require(|rs| - 1), NodeOf(world, env, last.operand, side))
  }

  lemma {:induction false} RequireNodesAt(world: World, env: Env, rs: seq<Requirement>, side: Side, i: nat)
    requires forall k | 0 <= k < |rs| :: Resolvable(world, env, rs[k].operand, side)
    requires i < |rs|
    ensures var nodes := RequireNodes(world, env, rs, side);
            NodeOf(world, env, rs[i].operand, side)
            == if Require(i) in nodes then Some(nodes[Require(i)]) else None
    decreases |rs|
  {
    if i < |rs| - 1 {
      RequireNodesAt(world, env, rs[..|rs| - 1], side, i);
    } else {
      assert Require(i) !in RequireNodes(world, env, rs[..|rs| - 1], side);
    }
  }

  function SideIf(op: Operand, side: Side): Option<Side> {
    if NeedsEpisode(op) then Some(side) else None
  }

  /** The real value of a finite parameter; zeros of either sign are equal as values. */
  function Real(f: Float): real {
    match f
    case Finite(negative, magnitude) => if negative then -magnitude else magnitude
    case _ => 0.0
  }

  /** The nodes an operand's evaluation is predicted to consume, its own node first. */
  function Predicted(world: World, env: Env, op: Operand, side: Side): seq<NodeSpec>
    requires Resolvable(world, env, op, side)
    decreases op, 1
  {
    var node := NodeOf(world, env, op, side);
    var own := if node.Some? then [node.value] else [];
    match op
    case OverLeg(_, shape, features) =>
      var columns := Reads(shape, features, side);
      own + ColumnNodes(env, columns)
    case Ratio(left, right, _, _) => own + Predicted(world, env, left, side) + Predicted(world, env, right, side)
    case Difference(left, right) => own + Predicted(world, env, left, side) + Predicted(world, env, right, side)
    case Absolute(inner) => own + Predicted(world, env, inner, side)
    case Scale(inner, _) => own + Predicted(world, env, inner, side)
    case IntervalChange(inner, _, _) => own + Predicted(world, env, inner, side)
    case AtPoint(_, _, inner) => own + Predicted(world, env, inner, side)
    case Signed(inner, _) => own + Predicted(world, env, inner, side)
    case OnlyIf(inner, require) =>
      own + Predicted(world, env, inner, side) + PredictedAll(world, env, require, side)
    case _ => own
  }

  function PredictedAll(world: World, env: Env, rs: seq<Requirement>, side: Side): seq<NodeSpec>
    requires forall i | 0 <= i < |rs| :: Resolvable(world, env, rs[i].operand, side)
    decreases rs, 0
  {
    if |rs| == 0 then [] else
      var first := rs[0];
      assert first in rs && first.operand < first;
      Predicted(world, env, first.operand, side) + PredictedAll(world, env, rs[1..], side)
  }
}
