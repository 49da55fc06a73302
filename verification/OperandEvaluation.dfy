/** Evaluation of operands (`_values`) as computations that consume one another through the context
    under the identities a resolution filled in. */
module OperandEvaluation {
  import opened NodeProgram
  import opened NodeIdentity
  import opened EpisodeTables
  import opened Operands

  // -- computations --------------------------------------------------------------

  /** What an evaluation hands over: a constant, a column, or a predicate's mask. */
  datatype Datum = Scalar(x: real) | Array(values: Series) | Mask(bits: seq<bool>)

  /** One node computation: it evaluates its inputs in order, stops at the first failure, and
      combines the values. Without an identity it runs unmemoized. */
  datatype Computation = Computation(
    identity: Option<NodeSpec>,
    inputs: seq<Computation>,
    combine: seq<Datum> -> Outcome<Datum>)

  function Eval(c: Computation): Outcome<Datum> {
    match EvalAll(c.inputs)
    case Value(vs) => c.combine(vs)
    case Raised(failure) => Raised(failure)
  }

  function EvalAll(cs: seq<Computation>): (r: Outcome<seq<Datum>>)
    ensures r.Value? ==> |r.value| == |cs|
  {
    if |cs| == 0 then Value([]) else
    match Eval(cs[0])
    case Raised(failure) => Raised(failure)
    case Value(v) =>
      match EvalAll(cs[1..])
      case Raised(failure) => Raised(failure)
      case Value(vs) => Value([v] + vs)
  }

  function Leaf(identity: Option<NodeSpec>, outcome: Outcome<Datum>): Computation {
    Computation(identity, [], _ => outcome)
  }

  /** The engine error of a request that evaluation refuses. */
  function Refused(message: string): Outcome<Datum> {
    Raised(Failure("InvalidRequestError", message, [message], Some(Payload("invalid_request", message, map[], 422))))
  }

  // -- the columns the operands combine ------------------------------------------

  function Broadcast(size: nat, d: Datum): Series {
    match d
    case Scalar(x) => seq(size, _ => Some(x))
    case Array(values) => values
    case Mask(bits) => seq(size, _ => None)
  }

  /** Bar by bar over the frame; a bar outside a column counts as missing. */
  function At(s: Series, i: int): Option<real> {
    if 0 <= i < |s| then s[i] else None
  }

  function Pointwise(size: nat, f: Option<real> -> Option<real>, s: Series): Series {
    seq(size, i => f(At(s, i)))
  }

  function Pairwise(size: nat, f: (Option<real>, Option<real>) -> Option<real>, a: Series, b: Series): Series {
    seq(size, i => f(At(a, i), At(b, i)))
  }

  /** A quotient is missing where a side is, where the denominator does not exceed the floor, and
      where it is not finite. */
  function Quotient(floor: real, absolute: bool, left: Option<real>, right: Option<real>): Option<real> {
    if left.None? || right.None? then None else
    var denominator := if absolute && right.value < 0.0 then -right.value else right.value;
    if denominator > floor && right.value != 0.0 then Some(left.value / right.value) else None
  }

  function Minus(left: Option<real>, right: Option<real>): Option<real> {
    if left.Some? && right.Some? then Some(left.value - right.value) else None
  }

  function Magnitude(x: Option<real>): Option<real> {
    if x.Some? && x.value < 0.0 then Some(-x.value) else x
  }

  function Times(factor: real, x: Option<real>): Option<real> {
    if x.Some? then Some(x.value * factor) else None
  }

  /** The value our way: unchanged on the long side, mirrored at the center on the short side. */
  function Mirrored(side: Side, center: real, x: Option<real>): Option<real> {
    if side == Long || x.None? then x else Some(center - (x.value - center))
  }

  /** Finite and inside its bounds. */
  predicate Inside(bound: Bound, x: Option<real>) {
    && x.Some?
    && (bound.min.Some? ==>
          var low := Real(bound.min.value);
          if bound.bounds == "exclusive" then x.value > low else x.value >= low)
    && (bound.max.Some? ==>
          var high := Real(bound.max.value);
          if bound.bounds == "exclusive" then x.value < high else x.value <= high)
  }

  predicate AllInside(bounds: seq<Bound>, xs: seq<Series>, i: int) {
    forall k | 0 <= k < |bounds| && k < |xs| :: Inside(bounds[k], At(xs[k], i))
  }

  function Columns(size: nat, vs: seq<Datum>): seq<Series> {
    seq(|vs|, k requires 0 <= k < |vs| => Broadcast(size, vs[k]))
  }

  function BoundsOf(rs: seq<Requirement>): (bounds: seq<Bound>)
    ensures |bounds| == |rs| && forall k | 0 <= k < |rs| :: bounds[k] == rs[k].bound
  {
    seq(|rs|, k requires 0 <= k < |rs| => rs[k].bound)
  }

  // -- what each family makes of its inputs ----------------------------------------

  function RatioValue(size: nat, floor: real, absolute: bool, vs: seq<Datum>): Outcome<Datum> {
    if |vs| != 2 then Refused("ratio") else
    Value(Array(Pairwise(size, (a, b) => Quotient(floor, absolute, a, b), Broadcast(size, vs[0]), Broadcast(size, vs[1]))))
  }

  function DifferenceValue(size: nat, vs: seq<Datum>): Outcome<Datum> {
    if |vs| != 2 then Refused("difference") else
    Value(Array(Pairwise(size, Minus, Broadcast(size, vs[0]), Broadcast(size, vs[1]))))
  }

  function MapValue(size: nat, f: Option<real> -> Option<real>, vs: seq<Datum>): Outcome<Datum> {
    if |vs| != 1 then Refused("operand") else Value(Array(Pointwise(size, f, Broadcast(size, vs[0]))))
  }

  function AbsoluteValue(size: nat, vs: seq<Datum>): Outcome<Datum> {
    MapValue(size, Magnitude, vs)
  }

  function ScaleValue(size: nat, factor: real, vs: seq<Datum>): Outcome<Datum> {
    MapValue(size, x => Times(factor, x), vs)
  }

  function SignedValue(size: nat, side: Side, center: real, vs: seq<Datum>): Outcome<Datum> {
    MapValue(size, x => Mirrored(side, center, x), vs)
  }

  /** The requirements come first, the guarded operand last. */
  function OnlyIfValue(size: nat, bounds: seq<Bound>, vs: seq<Datum>): Outcome<Datum> {
    if |vs| != |bounds| + 1 then Refused("only_if") else
    var xs := Columns(size, vs);
    Value(Array(seq(size, i => if AllInside(bounds, xs[..|bounds|], i) then At(xs[|bounds|], i) else None)))
  }

  /** A constant has no interval to measure. */
  function IntervalValue(world: World, interval: Interval, table: Option<SideEpisode>, operation: string, vs: seq<Datum>):
    Outcome<Datum>
  {
    if |vs| != 1 || !vs[0].Array? || (interval.EpisodeInterval? && table.None?)
    then Refused("interval_change requires an evaluated episode")
    else Value(Array(world.intervalChange(interval, table, operation, vs[0].values)))
  }

  function AtPointValue(world: World, table: SideEpisode, point: string, vs: seq<Datum>): Outcome<Datum> {
    if |vs| != 1 then Refused("at_point") else
    Value(Array(world.atPoint(table, point, Broadcast(world.size, vs[0]))))
  }

  function LegColumns(size: nat, columns: seq<Feature>, vs: seq<Datum>): seq<Column> {
    seq(|vs|, k requires 0 <= k < |vs| =>
      Column(Broadcast(size, vs[k]), if k < |columns| then columns[k].period else 0))
  }

  function LegValue(world: World, shape: Shape, table: SideEpisode, columns: seq<Feature>, side: Side, vs: seq<Datum>):
    Outcome<Datum>
  {
    Value(Array(world.overLeg(shape, table, LegColumns(world.size, columns, vs), side)))
  }

  /** A segment refuses any declared feature off the base timeframe, also one that the side does
      not read; a candle refuses a timeframe that does not fit the base grid. */
  predicate Refuses(world: World, shape: Shape, features: seq<Feature>) {
    if shape.Segment? then exists f | f in features :: !f.onBase else world.badTimeframe(shape)
  }

  // -- evaluation under filled-in identities -----------------------------------------

  datatype PathStep = AtLeft | AtRight | AtAbs | AtOperand | AtOf | AtRequire(index: nat)

  /** Where an operand stands inside its condition. */
  type Path = seq<PathStep>

  /** The dictionaries a resolution fills: columns by label, episode values by reference, every
      other operand by its path. */
  datatype Identities = Identities(
    columns: map<string, NodeSpec>,
    episodes: map<EpisodeRef, NodeSpec>,
    operands: map<Path, NodeSpec>)

  const NoIdentities := Identities(map[], map[], map[])

  function Lookup<K, T>(m: map<K, T>, k: K): Option<T> {
    if k in m then Some(m[k]) else None
  }

  function TableOf(env: Env, ref: string, side: Side): Option<SideEpisode> {
    Lookup(env.episodes, (ref, side))
  }

  datatype Child = Child(step: PathStep, operand: Operand)

  function Requirements(op: Operand): (cs: seq<Child>)
    requires op.OnlyIf?
    ensures |cs| == |op.require|
    ensures forall k | 0 <= k < |cs| :: cs[k] == Child(AtRequire(k), op.require[k].operand)
    ensures forall c | c in cs :: c.operand < op
  {
    seq(|op.require|, k requires 0 <= k < |op.require| =>
      var r := op.require[k];
      assert r.operand < op;
      Child(AtRequire(k), r.operand))
  }

  /** The operands an operand evaluates, in evaluation order. */
  function Children(op: Operand): (cs: seq<Child>)
    ensures forall c | c in cs :: c.operand < op
  {
    match op
    case Ratio(left, right, _, _) => [Child(AtLeft, left), Child(AtRight, right)]
    case Difference(left, right) => [Child(AtLeft, left), Child(AtRight, right)]
    case Absolute(inner) => [Child(AtAbs, inner)]
    case Scale(inner, _) => [Child(AtOperand, inner)]
    case IntervalChange(inner, _, _) => [Child(AtOf, inner)]
    case AtPoint(_, _, inner) => [Child(AtOperand, inner)]
    case Signed(inner, _) => [Child(AtOperand, inner)]
    case OnlyIf(inner, _) => Requirements(op) + [Child(AtOperand, inner)]
    case _ => []
  }

  /** An operand that is refused before it reads anything. */
  predicate Blocked(world: World, env: Env, op: Operand, side: Side) {
    match op
    case OverLeg(episode, shape, features) =>
      TableOf(env, episode, side).None? || Refuses(world, shape, features)
    case AtPoint(episode, _, _) => TableOf(env, episode, side).None?
    case _ => false
  }

  /** What an operand makes of the values of its children. */
  function Combined(world: World, env: Env, op: Operand, side: Side, vs: seq<Datum>): Outcome<Datum> {
    if Blocked(world, env, op, side) then Refused("operand has no evaluated episode or usable timeframe") else
    match op
    case Const(value) => Value(Scalar(Real(value)))
    case Price(field) => Value(Array(world.price(field)))
    case EpisodeValue(ref) =>
      var table := TableOf(env, ref.ref, side);
      if table.None? then Refused("episode operand has no evaluated episode")
      else Value(Array(world.episodeField(table.value, ref.entity, ref.index, ref.field)))
    case FeatureValue(f) =>
      if f.columnLabel in env.series then Value(Array(env.series[f.columnLabel]))
      else Refused("missing planned feature series")
    case OverLeg(episode, shape, features) =>
      LegValue(world, shape, TableOf(env, episode, side).value, Reads(shape, features, side), side, vs)
    case Ratio(_, _, rightFloor, mode) => RatioValue(world.size, Real(rightFloor), mode == "absolute", vs)
    case Difference(_, _) => DifferenceValue(world.size, vs)
    case Absolute(_) => AbsoluteValue(world.size, vs)
    case Scale(_, factor) => ScaleValue(world.size, Real(factor), vs)
    case IntervalChange(_, interval, operation) =>
      var table := if interval.EpisodeInterval? then TableOf(env, interval.ref, side) else None;
      IntervalValue(world, interval, table, operation, vs)
    case AtPoint(episode, point, _) => AtPointValue(world, TableOf(env, episode, side).value, point, vs)
    case Signed(_, center) => SignedValue(world.size, side, Real(center), vs)
    case OnlyIf(_, require) => OnlyIfValue(world.size, BoundsOf(require), vs)
  }

  /** The identity looked up where the operand is evaluated. */
  function IdentityAt(env: Env, ids: Identities, op: Operand, side: Side, path: Path): Option<NodeSpec> {
    match op
    case Const(_) => None
    case Price(_) => None
    case EpisodeValue(ref) =>
      if TableOf(env, ref.ref, side).None? then None else Lookup(ids.episodes, ref)
    case FeatureValue(f) => Lookup(ids.columns, f.columnLabel)
    case _ => Lookup(ids.operands, path)
  }

  function ColumnComputations(world: World, env: Env, ids: Identities, columns: seq<Feature>, side: Side):
    (cs: seq<Computation>)
    ensures |cs| == |columns|
  {
    if |columns| == 0 then [] else
    var f := FeatureValue(columns[0]);
    [Computation(IdentityAt(env, ids, f, side, []), [], vs => Combined(world, env, f, side, vs))]
    + ColumnComputations(world, env, ids, columns[1..], side)
  }

  function InputsOf(world: World, env: Env, ids: Identities, op: Operand, side: Side, path: Path): seq<Computation>
    decreases op, 1
  {
    if Blocked(world, env, op, side) then []
    else if op.OverLeg? then ColumnComputations(world, env, ids, Reads(op.shape, op.features, side), side)
    else ComputationsOf(world, env, ids, op, Children(op), side, path)
  }

  function ComputationsOf(
    world: World, env: Env, ids: Identities, parent: Operand, cs: seq<Child>, side: Side, path: Path):
    (r: seq<Computation>)
    requires forall c | c in cs :: c.operand < parent
    ensures |r| == |cs|
    decreases parent, 0, |cs|
  {
    if |cs| == 0 then [] else
    [ComputationOf(world, env, ids, cs[0].operand, side, path + [cs[0].step])]
    + ComputationsOf(world, env, ids, parent, cs[1..], side, path)
  }

  /** The evaluation of an operand where the filled-in identities say it stands. */
  function ComputationOf(world: World, env: Env, ids: Identities, op: Operand, side: Side, path: Path): Computation
    decreases op, 2
  {
    Computation(IdentityAt(env, ids, op, side, path), InputsOf(world, env, ids, op, side, path),
      vs => Combined(world, env, op, side, vs))
  }

  /** The operand's value without any memo. */
  function Values(world: World, env: Env, op: Operand, side: Side): Outcome<Datum> {
    Eval(ComputationOf(world, env, NoIdentities, op, side, []))
  }

  /** The children's values in order, up to the first failure. */
  function ChildValues(world: World, env: Env, cs: seq<Child>, side: Side): Outcome<seq<Datum>> {
    if |cs| == 0 then Value([]) else
    match Values(world, env, cs[0].operand, side)
    case Raised(failure) => Raised(failure)
    case Value(v) =>
      match ChildValues(world, env, cs[1..], side)
      case Raised(failure) => Raised(failure)
      case Value(vs) => Value([v] + vs)
  }

  function FeatureChildren(columns: seq<Feature>): seq<Child> {
    if |columns| == 0 then [] else [Child(AtOperand, FeatureValue(columns[0]))] + FeatureChildren(columns[1..])
  }

  /** Everything an operand reads, in order: none when it is blocked. */
  function Inputs(world: World, env: Env, op: Operand, side: Side): seq<Child> {
    if Blocked(world, env, op, side) then []
    else if op.OverLeg? then FeatureChildren(Reads(op.shape, op.features, side))
    else Children(op)
  }

  /** Evaluation is compositional and takes nothing from the identities it runs under. */
  lemma {:induction false} ValuesCompose(world: World, env: Env, ids: Identities, op: Operand, side: Side, path: Path)
    ensures Eval(ComputationOf(world, env, ids, op, side, path)) == Values(world, env, op, side)
    ensures Values(world, env, op, side) ==
            (match ChildValues(world, env, Inputs(world, env, op, side), side)
             case Raised(failure) => Raised(failure)
             case Value(vs) => Combined(world, env, op, side, vs))
    decreases op, 2
  {
    EvalUnfolds(world, env, ids, op, side, path);
    EvalUnfolds(world, env, NoIdentities, op, side, []);
    if Blocked(world, env, op, side) {
    } else if op.OverLeg? {
      var columns := Reads(op.shape, op.features, side);
      ColumnsCompose(world, env, ids, columns, side);
      ColumnsCompose(world, env, NoIdentities, columns, side);
    } else {
      ChildrenCompose(world, env, ids, op, Children(op), side, path);
      ChildrenCompose(world, env, NoIdentities, op, Children(op), side, []);
    }
  }

  lemma EvalUnfolds(world: World, env: Env, ids: Identities, op: Operand, side: Side, path: Path)
    ensures Eval(ComputationOf(world, env, ids, op, side, path)) ==
            (match EvalAll(InputsOf(world, env, ids, op, side, path))
             case Raised(failure) => Raised(failure)
             case Value(vs) => Combined(world, env, op, side, vs))
  {
  }

  lemma {:induction false} ColumnsCompose(world: World, env: Env, ids: Identities, columns: seq<Feature>, side: Side)
    ensures EvalAll(ColumnComputations(world, env, ids, columns, side))
         == ChildValues(world, env, FeatureChildren(columns), side)
  {
    if |columns| > 0 {
      ColumnsCompose(world, env, ids, columns[1..], side);
      EvalUnfolds(world, env, NoIdentities, FeatureValue(columns[0]), side, []);
    }
  }

  lemma {:induction false} ChildrenCompose(
    world: World, env: Env, ids: Identities, parent: Operand, cs: seq<Child>, side: Side, path: Path)
    requires forall c | c in cs :: c.operand < parent
    ensures EvalAll(ComputationsOf(world, env, ids, parent, cs, side, path)) == ChildValues(world, env, cs, side)
    decreases parent, 0, |cs|
  {
    if |cs| > 0 {
      ValuesCompose(world, env, ids, cs[0].operand, side, path + [cs[0].step]);
      ChildrenCompose(world, env, ids, parent, cs[1..], side, path);
    }
  }
}
