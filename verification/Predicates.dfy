/** Predicates over operands: their identity twin (`resolve_predicate`), their evaluation
    (`evaluate_predicate`), and the soundness of the identities. */
module Predicates {
  import opened NodeProgram
  import opened NodeIdentity
  import opened EpisodeTables
  import opened Operands
  import opened OperandEvaluation
  import opened OperandIdentity

  datatype Condition =
    | Compare(left: Operand, op: string, right: Operand)
    | Range(operand: Operand, bound: Bound, empty: string)
    | Change(feature: Feature, lookback: nat, op: string, amount: Float)

  datatype Predicate =
    | Plain(long: Condition, short: Option<Condition>)
    | State(contextRef: string, regimes: seq<string>)
    | Temporal(mode: string, bars: nat, of: Predicate)

  function ForSide(p: Predicate, side: Side): Condition
    requires p.Plain?
  {
    if side == Short && p.short.Some? then p.short.value else p.long
  }

  function ConditionOperands(c: Condition): seq<Operand> {
    match c
    case Compare(left, _, right) => [left, right]
    case Range(operand, _, _) => [operand]
    case Change(feature, _, _, _) => [FeatureValue(feature)]
  }

  /** The path of a condition's operand and the role of its node. */
  function OperandStep(c: Condition, i: nat): PathStep {
    if c.Compare? then (if i == 0 then AtLeft else AtRight) else AtOperand
  }

  function OperandRole(c: Condition, i: nat): Role {
    if c.Compare? then (if i == 0 then Left else Right) else Inner
  }

  // -- evaluation --------------------------------------------------------------------

  predicate Holds(op: string, left: real, right: real) {
    match op
    case ">" => left > right
    case ">=" => left >= right
    case "<" => left < right
    case _ => left <= right
  }

  /** A missing side makes a comparison false. */
  predicate Compares(op: string, left: Option<real>, right: Option<real>) {
    left.Some? && right.Some? && Holds(op, left.value, right.value)
  }

  /** Every set bound imposes its comparison on a finite value; a missing value follows `empty`. */
  predicate InRange(bound: Bound, empty: string, x: Option<real>) {
    if x.None? then empty == "pass" else Inside(bound, x)
  }

  function CompareMask(size: nat, op: string, left: Series, right: Series): seq<bool> {
    seq(size, i => Compares(op, At(left, i), At(right, i)))
  }

  function RangeMask(size: nat, bound: Bound, empty: string, xs: Series): seq<bool> {
    seq(size, i => InRange(bound, empty, At(xs, i)))
  }

  /** The value now against the value `shift` rows earlier; false where there is no such row. */
  function ChangeMask(size: nat, shift: nat, op: string, amount: real, xs: Series): seq<bool> {
    seq(size, i => Compares(op, Minus(At(xs, i), At(xs, i - shift)), Some(amount)))
  }

  datatype RawState = Up | Down | Neutral

  /** The side-relative regime of a raw higher-timeframe state. */
  function ResolveRegime(raw: RawState, side: Side): string {
    if raw == Neutral then "neutral"
    else if (raw == Up) == (side == Long) then "aligned"
    else "countertrend"
  }

  function Bit(bits: seq<bool>, i: int): bool {
    0 <= i < |bits| && bits[i]
  }

  function StateMask(size: nat, htf: HtfState, regimes: seq<string>, side: Side): seq<bool> {
    seq(size, i =>
      || (ResolveRegime(Up, side) in regimes && Bit(htf.up, i))
      || (ResolveRegime(Down, side) in regimes && Bit(htf.down, i))
      || (ResolveRegime(Neutral, side) in regimes && Bit(htf.neutral, i)))
  }

  /** `held_for`: the last `bars` bars are all true and exist; `within`: one of the last `bars` bars
      that exist is true. */
  predicate WindowHolds(mode: string, bars: nat, inner: seq<bool>, i: nat)
    requires i < |inner|
  {
    if mode == "held_for" then i + 1 >= bars && forall k | 0 <= k <= i && i - bars < k :: inner[k]
    else exists k | 0 <= k <= i && i - bars < k :: inner[k]
  }

  function WindowMask(mode: string, bars: nat, inner: seq<bool>): seq<bool> {
    seq(|inner|, i requires 0 <= i < |inner| => WindowHolds(mode, bars, inner, i))
  }

  function ConditionValue(world: World, c: Condition, vs: seq<Datum>): Outcome<Datum> {
    if |vs| != |ConditionOperands(c)| then Refused("condition") else
    match c
    case Compare(_, op, _) =>
      Value(Mask(CompareMask(world.size, op, Broadcast(world.size, vs[0]), Broadcast(world.size, vs[1]))))
    case Range(_, bound, empty) => Value(Mask(RangeMask(world.size, bound, empty, Broadcast(world.size, vs[0]))))
    case Change(feature, lookback, op, amount) =>
      if feature.barRows.None? then Refused("change operand timeframe must be an integral multiple") else
      Value(Mask(ChangeMask(world.size, lookback * feature.barRows.value, op, Real(amount), Broadcast(world.size, vs[0]))))
  }

  function TemporalValue(mode: string, bars: nat, vs: seq<Datum>): Outcome<Datum> {
    if |vs| != 1 || !vs[0].Mask? then Refused("temporal") else Value(Mask(WindowMask(mode, bars, vs[0].bits)))
  }

  function StateValue(world: World, env: Env, contextRef: string, regimes: seq<string>, side: Side): Outcome<Datum> {
    if contextRef !in env.contexts then Refused("state predicate context is not evaluated")
    else Value(Mask(StateMask(world.size, env.contexts[contextRef], regimes, side)))
  }

  function ConditionOutcome(world: World, c: Condition, inputs: Outcome<seq<Datum>>): Outcome<Datum> {
    match inputs
    case Raised(failure) => Raised(failure)
    case Value(vs) => ConditionValue(world, c, vs)
  }

  function TemporalOutcome(mode: string, bars: nat, inner: Outcome<Datum>): Outcome<Datum> {
    match inner
    case Raised(failure) => Raised(failure)
    case Value(v) => TemporalValue(mode, bars, [v])
  }

  /** The dictionaries and nodes a predicate's resolution filled in, level by level. */
  datatype PredicateIdentity =
    PredicateIdentity(local: Option<NodeSpec>, ids: Identities, inner: Option<PredicateIdentity>)

  const NoIdentity := PredicateIdentity(None, NoIdentities, None)

  function InnerIdentity(identity: PredicateIdentity): PredicateIdentity {
    if identity.inner.Some? then identity.inner.value else NoIdentity
  }

  function ConditionInputs(world: World, env: Env, ids: Identities, c: Condition, side: Side):
    (cs: seq<Computation>)
    ensures |cs| == |ConditionOperands(c)|
  {
    var ops := ConditionOperands(c);
    seq(|ops|, i requires 0 <= i < |ops| => ComputationOf(world, env, ids, ops[i], side, [OperandStep(c, i)]))
  }

  function PredicateComputation(world: World, env: Env, identity: PredicateIdentity, p: Predicate, side: Side):
    Computation
    decreases p
  {
    match p
    case Plain(_, _) =>
      var c := ForSide(p, side);
      Computation(identity.local, ConditionInputs(world, env, identity.ids, c, side), vs => ConditionValue(world, c, vs))
    case State(contextRef, regimes) =>
      Leaf(identity.local, StateValue(world, env, contextRef, regimes, side))
    case Temporal(mode, bars, of) =>
      Computation(identity.local, [PredicateComputation(world, env, InnerIdentity(identity), of, side)],
        vs => TemporalValue(mode, bars, vs))
  }

  /** The predicate's mask without any memo. */
  function MaskOf(world: World, env: Env, p: Predicate, side: Side): Outcome<Datum> {
    Eval(PredicateComputation(world, env, NoIdentity, p, side))
  }

  // -- the identity twin -------------------------------------------------------------

  predicate PredicateResolvable(world: World, env: Env, p: Predicate, side: Side) {
    match p
    case Plain(_, _) => forall op | op in ConditionOperands(ForSide(p, side)) :: Resolvable(world, env, op, side)
    case State(contextRef, _) => contextRef in env.contextIds
    case Temporal(_, _, of) => PredicateResolvable(world, env, of, side)
  }

  function ConditionKind(c: Condition): Kind {
    match c
    case Compare(_, _, _) => KCompare
    case Range(_, _, _) => KRange
    case Change(_, _, _, _) => KChange
  }

  function RangeParams(tag: Canonical, bound: Bound, empty: string): Params {
    map[OperandTag := tag, Min := FloatOrNone(bound.min), Max := FloatOrNone(bound.max)]
    + When(bound.bounds != "inclusive", Bounds, CStr(bound.bounds))
    + When(empty != "block", Empty, CStr(empty))
  }

  function ConditionParams(c: Condition): Params {
    match c
    case Compare(left, op, right) => map[Op := CStr(op), LeftTag := TagOf(left), RightTag := TagOf(right)]
    case Range(operand, bound, empty) => RangeParams(TagOf(operand), bound, empty)
    case Change(_, lookback, op, amount) => map[Op := CStr(op), Amount := CFloat(amount), Lookback := CInt(lookback)]
  }

  function ConditionUpstream(world: World, env: Env, c: Condition, side: Side): map<Role, NodeSpec>
    requires forall op | op in ConditionOperands(c) :: Resolvable(world, env, op, side)
  {
    match c
    case Compare(left, _, right) =>
      assert left in ConditionOperands(c) && right in ConditionOperands(c);
      Slot(Left, NodeOf(world, env, left, side)) + Slot(Right, NodeOf(world, env, right, side))
    case Range(operand, _, _) =>
      assert operand in ConditionOperands(c);
      Slot(Inner, NodeOf(world, env, operand, side))
    case Change(feature, _, _, _) =>
      assert FeatureValue(feature) in ConditionOperands(c);
      Slot(Inner, NodeOf(world, env, FeatureValue(feature), side))
  }

  /** The side enters the node only with a short override or an operand that needs the episode. */
  function ConditionSide(p: Predicate, side: Side): Option<Side>
    requires p.Plain?
  {
    if p.short.Some? || exists op | op in ConditionOperands(ForSide(p, side)) :: NeedsEpisode(op) then Some(side) else None
  }

  function Texts(ss: seq<string>): (cs: seq<Canonical>)
    ensures |cs| == |ss| && forall i | 0 <= i < |ss| :: cs[i] == CStr(ss[i])
  {
    seq(|ss|, i requires 0 <= i < |ss| => CStr(ss[i]))
  }

  function PredicateNode(world: World, env: Env, p: Predicate, side: Side): NodeSpec
    requires PredicateResolvable(world, env, p, side)
    decreases p
  {
    match p
    case Plain(_, _) =>
      var c := ForSide(p, side);
      NodeSpec(ConditionKind(c), ConditionParams(c), ConditionUpstream(world, env, c, side), ConditionSide(p, side))
    case State(contextRef, regimes) =>
      NodeSpec(KState, map[Regimes := CTuple(Texts(regimes))], map[ContextRole := env.contextIds[contextRef]], Some(side))
    case Temporal(mode, bars, of) =>
      var inner := PredicateNode(world, env, of, side);
      NodeSpec(KTemporal, map[Mode := CStr(mode), Bars := CInt(bars)], map[Of := inner], inner.side)
  }

  // -- identity soundness --------------------------------------------------------------

  datatype PredicateSite = PredicateSite(env: Env, rule: Predicate, side: Side)

  ghost predicate PredicateGuarded(p: Predicate, side: Side): (guarded: bool)
    ensures p.State? ==> guarded
  {
    match p
    case Plain(_, _) => forall op | op in ConditionOperands(ForSide(p, side)) :: Guarded(op, side)
    case State(_, _) => true
    case Temporal(_, _, of) => PredicateGuarded(of, side)
  }

  ghost predicate PredicateAdmissible(world: World, s: PredicateSite) {
    && EnvSound(world, s.env) && PredicateResolvable(world, s.env, s.rule, s.side)
    && PredicateGuarded(s.rule, s.side)
  }

  ghost predicate SamePredicateNode(world: World, a: PredicateSite, b: PredicateSite) {
    && PredicateAdmissible(world, a) && PredicateAdmissible(world, b)
    && PredicateNode(world, a.env, a.rule, a.side) == PredicateNode(world, b.env, b.rule, b.side)
  }

  ghost function PredicateMask(world: World, s: PredicateSite): Outcome<Datum> {
    MaskOf(world, s.env, s.rule, s.side)
  }

  /** What a plain predicate evaluates: its operands in order. */
  function OperandChildren(ops: seq<Operand>): seq<Child> {
    if |ops| == 0 then [] else [Child(AtOperand, ops[0])] + OperandChildren(ops[1..])
  }

  function PlainMask(world: World, env: Env, c: Condition, side: Side): Outcome<Datum> {
    ConditionOutcome(world, c, ChildValues(world, env, OperandChildren(ConditionOperands(c)), side))
  }

  lemma OperandChildrenAt(ops: seq<Operand>)
    ensures |OperandChildren(ops)| == |ops|
    ensures forall k | 0 <= k < |ops| :: OperandChildren(ops)[k].operand == ops[k]
  {
  }

  lemma {:induction false} InputsCompose(
    world: World, env: Env, ids: Identities, ops: seq<Operand>, side: Side, cs: seq<Computation>, paths: seq<Path>)
    requires |cs| == |ops| == |paths|
    requires forall k | 0 <= k < |ops| :: cs[k] == ComputationOf(world, env, ids, ops[k], side, paths[k])
    ensures EvalAll(cs) == ChildValues(world, env, OperandChildren(ops), side)
  {
    if |ops| > 0 {
      ValuesCompose(world, env, ids, ops[0], side, paths[0]);
      InputsCompose(world, env, ids, ops[1..], side, cs[1..], paths[1..]);
    }
  }

  /** Predicates too take nothing from the identities they are evaluated under. */
  lemma {:induction false} MaskComposes(world: World, env: Env, identity: PredicateIdentity, p: Predicate, side: Side)
    ensures Eval(PredicateComputation(world, env, identity, p, side)) == MaskOf(world, env, p, side)
    ensures p.Plain? ==> MaskOf(world, env, p, side) == PlainMask(world, env, ForSide(p, side), side)
    ensures p.Temporal? ==> MaskOf(world, env, p, side) == TemporalOutcome(p.mode, p.bars, MaskOf(world, env, p.of, side))
    decreases p
  {
    match p
    case Plain(_, _) =>
      PlainComposes(world, env, identity, p, side);
      PlainComposes(world, env, NoIdentity, p, side);
    case State(_, _) =>
    case Temporal(_, _, of) =>
      MaskComposes(world, env, InnerIdentity(identity), of, side);
      MaskComposes(world, env, NoIdentity, of, side);
      TemporalComposes(world, env, identity, p, side);
      TemporalComposes(world, env, NoIdentity, p, side);
  }

  lemma PlainComposes(world: World, env: Env, identity: PredicateIdentity, p: Predicate, side: Side)
    requires p.Plain?
    ensures Eval(PredicateComputation(world, env, identity, p, side)) == PlainMask(world, env, ForSide(p, side), side)
  {
    var c := ForSide(p, side);
    var ops := ConditionOperands(c);
    var paths := seq(|ops|, i requires 0 <= i < |ops| => [OperandStep(c, i)]);
    InputsCompose(world, env, identity.ids, ops, side, ConditionInputs(world, env, identity.ids, c, side), paths);
  }

  lemma TemporalComposes(world: World, env: Env, identity: PredicateIdentity, p: Predicate, side: Side)
    requires p.Temporal?
    ensures Eval(PredicateComputation(world, env, identity, p, side))
         == TemporalOutcome(p.mode, p.bars, Eval(PredicateComputation(world, env, InnerIdentity(identity), p.of, side)))
  {
    var inner := PredicateComputation(world, env, InnerIdentity(identity), p.of, side);
    assert [inner][1..] == [] && EvalAll([inner][1..]) == Value([]);
  }

  lemma RangeParamsInjective(t: Canonical, b: Bound, e: string, t': Canonical, b': Bound, e': string)
    requires RangeParams(t, b, e) == RangeParams(t', b', e')
    ensures t == t' && b == b' && e == e'
  {
    var p, q := RangeParams(t, b, e), RangeParams(t', b', e');
    assert p[OperandTag] == q[OperandTag] && p[Min] == q[Min] && p[Max] == q[Max];
    OptionalParam(p, q, Bounds);
    OptionalParam(p, q, Empty);
  }

  /** Two conditions of one node: the same family and parameters, over children that agree. */
  ghost predicate SameCondition(world: World, a: PredicateSite, b: PredicateSite) {
    && a.rule.Plain? && b.rule.Plain?
    && var c, d := ForSide(a.rule, a.side), ForSide(b.rule, b.side);
    && |ConditionOperands(c)| == |ConditionOperands(d)|
    && (forall k | 0 <= k < |ConditionOperands(c)| ::
          SameChild(world, Site(a.env, ConditionOperands(c)[k], a.side), Site(b.env, ConditionOperands(d)[k], b.side)))
    && forall vs :: ConditionValue(world, c, vs) == ConditionValue(world, d, vs)
  }

  lemma CompareParts(world: World, a: PredicateSite, b: PredicateSite)
    requires SamePredicateNode(world, a, b) && a.rule.Plain? && ForSide(a.rule, a.side).Compare?
    ensures SameCondition(world, a, b)
  {
    hide TagOf, NodeOf, Resolvable, Guarded, EnvSound;
    var n, m := PredicateNode(world, a.env, a.rule, a.side), PredicateNode(world, b.env, b.rule, b.side);
    assert m.kind == KCompare;
    var c, d := ForSide(a.rule, a.side), ForSide(b.rule, b.side);
    assert n.params[Op] == m.params[Op] && n.params[LeftTag] == m.params[LeftTag] && n.params[RightTag] == m.params[RightTag];
    assert c.left in ConditionOperands(c) && c.right in ConditionOperands(c);
    assert d.left in ConditionOperands(d) && d.right in ConditionOperands(d);
    assert Left in n.upstream <==> Left in m.upstream;
    assert Right in n.upstream <==> Right in m.upstream;
  }

  lemma RangeParts(world: World, a: PredicateSite, b: PredicateSite)
    requires SamePredicateNode(world, a, b) && a.rule.Plain? && ForSide(a.rule, a.side).Range?
    ensures SameCondition(world, a, b)
  {
    var n, m := PredicateNode(world, a.env, a.rule, a.side), PredicateNode(world, b.env, b.rule, b.side);
    assert m.kind == KRange;
    var c, d := ForSide(a.rule, a.side), ForSide(b.rule, b.side);
    RangeParamsInjective(TagOf(c.operand), c.bound, c.empty, TagOf(d.operand), d.bound, d.empty);
    assert c.operand in ConditionOperands(c) && d.operand in ConditionOperands(d);
    assert Inner in n.upstream <==> Inner in m.upstream;
  }

  lemma ChangeParts(world: World, a: PredicateSite, b: PredicateSite)
    requires SamePredicateNode(world, a, b) && a.rule.Plain? && ForSide(a.rule, a.side).Change?
    ensures SameCondition(world, a, b)
  {
    var n, m := PredicateNode(world, a.env, a.rule, a.side), PredicateNode(world, b.env, b.rule, b.side);
    assert m.kind == KChange;
    var c, d := ForSide(a.rule, a.side), ForSide(b.rule, b.side);
    assert n.params[Op] == m.params[Op] && n.params[Amount] == m.params[Amount] && n.params[Lookback] == m.params[Lookback];
    var f, g := FeatureValue(c.feature), FeatureValue(d.feature);
    assert f in ConditionOperands(c) && g in ConditionOperands(d);
    assert n.upstream[Inner] == m.upstream[Inner];
    ColumnInjective(a.env.featureIds[c.feature.columnLabel], b.env.featureIds[d.feature.columnLabel]);
  }

  lemma SamePlainMask(world: World, a: PredicateSite, b: PredicateSite)
    requires SamePredicateNode(world, a, b) && a.rule.Plain?
    ensures PredicateMask(world, a) == PredicateMask(world, b)
  {
    match ForSide(a.rule, a.side) {
      case Compare(_, _, _) => CompareParts(world, a, b);
      case Range(_, _, _) => RangeParts(world, a, b);
      case Change(_, _, _, _) => ChangeParts(world, a, b);
    }
    SameConditionMask(world, a, b);
  }

  lemma SameConditionMask(world: World, a: PredicateSite, b: PredicateSite)
    requires SameCondition(world, a, b)
    ensures PredicateMask(world, a) == PredicateMask(world, b)
  {
    MaskComposes(world, a.env, NoIdentity, a.rule, a.side);
    MaskComposes(world, b.env, NoIdentity, b.rule, b.side);
    var c, d := ConditionOperands(ForSide(a.rule, a.side)), ConditionOperands(ForSide(b.rule, b.side));
    OperandChildrenAt(c);
    OperandChildrenAt(d);
    forall k | 0 <= k < |c| ensures Values(world, a.env, c[k], a.side) == Values(world, b.env, d[k], b.side) {
      SameChildSameValue(world, Site(a.env, c[k], a.side), Site(b.env, d[k], b.side));
    }
    SameInputs(world, Site(a.env, Const(NaN), a.side), Site(b.env, Const(NaN), b.side), OperandChildren(c), OperandChildren(d));
  }

  lemma SameStateMask(world: World, a: PredicateSite, b: PredicateSite)
    requires SamePredicateNode(world, a, b) && a.rule.State?
    ensures PredicateMask(world, a) == PredicateMask(world, b)
  {
    var n, m := PredicateNode(world, a.env, a.rule, a.side), PredicateNode(world, b.env, b.rule, b.side);
    assert m.kind == KState;
    assert n.params[Regimes] == m.params[Regimes] && n.upstream[ContextRole] == m.upstream[ContextRole];
    var xs, ys := a.rule.regimes, b.rule.regimes;
    assert Texts(xs) == Texts(ys);
    forall i | 0 <= i < |xs| ensures xs[i] == ys[i] {
      assert Texts(xs)[i] == Texts(ys)[i];
    }
    assert xs == ys;
  }

  /** Identity soundness of predicates: equal nodes mean equal masks, also where the node is shared by
      the long and the short side. */
  lemma {:induction false} SamePredicateSameMask(world: World, a: PredicateSite, b: PredicateSite)
    requires SamePredicateNode(world, a, b)
    ensures PredicateMask(world, a) == PredicateMask(world, b)
    decreases a.rule
  {
    match a.rule
    case Plain(_, _) => SamePlainMask(world, a, b);
    case State(_, _) => SameStateMask(world, a, b);
    case Temporal(mode, bars, of) =>
      var n, m := PredicateNode(world, a.env, a.rule, a.side), PredicateNode(world, b.env, b.rule, b.side);
      assert m.kind == KTemporal;
      assert n.params[Mode] == m.params[Mode] && n.params[Bars] == m.params[Bars] && n.upstream[Of] == m.upstream[Of];
      MaskComposes(world, a.env, NoIdentity, a.rule, a.side);
      MaskComposes(world, b.env, NoIdentity, b.rule, b.side);
      SamePredicateSameMask(world, a.(rule := of), b.(rule := b.rule.of));
  }
}
