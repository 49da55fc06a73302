/** The resolution of a predicate (`resolve_predicate`), and what it guarantees its evaluation. */
module PredicateResolution {
  import opened NodeProgram
  import opened NodeIdentity
  import opened EpisodeTables
  import opened Operands
  import opened OperandEvaluation
  import opened OperandIdentity
  import opened Predicates
  import opened Resolution
  import opened ComputationPrograms
  import opened OperandMemo

  ghost predicate RuleParsed(world: World, env: Env, p: Predicate, side: Side): (parsed: bool)
    ensures p.State? ==> parsed
  {
    match p
    case Plain(_, _) => forall op | op in ConditionOperands(ForSide(p, side)) :: Parsed(world, env, op)
    case State(_, _) => true
    case Temporal(_, _, of) => RuleParsed(world, env, of, side)
  }

  ghost predicate ConditionFilled(world: World, env: Env, ids: Identities, c: Condition, side: Side) {
    forall k | 0 <= k < |ConditionOperands(c)| ::
      Filled(world, env, ids, ConditionOperands(c)[k], side, [OperandStep(c, k)])
  }

  /** Every lookup of the predicate's evaluation, level by level, finds the node it stands for. */
  ghost predicate RuleFilled(world: World, env: Env, identity: PredicateIdentity, p: Predicate, side: Side)
    decreases p
  {
    && PredicateResolvable(world, env, p, side)
    && identity.local == Some(PredicateNode(world, env, p, side))
    && match p
       case Plain(_, _) => ConditionFilled(world, env, identity.ids, ForSide(p, side), side)
       case State(_, _) => true
       case Temporal(_, _, of) => identity.inner.Some? && RuleFilled(world, env, identity.inner.value, of, side)
  }

  function PredictedOperands(world: World, env: Env, ops: seq<Operand>, side: Side): seq<NodeSpec>
    requires forall k | 0 <= k < |ops| :: Resolvable(world, env, ops[k], side)
  {
    if |ops| == 0 then [] else Predicted(world, env, ops[0], side) + PredictedOperands(world, env, ops[1..], side)
  }

  lemma OperandsResolvable(world: World, env: Env, c: Condition, side: Side)
    requires forall op | op in ConditionOperands(c) :: Resolvable(world, env, op, side)
    ensures forall k | 0 <= k < |ConditionOperands(c)| :: Resolvable(world, env, ConditionOperands(c)[k], side)
  {
  }

  /** The nodes predicted for one evaluation of the predicate, its own node first. */
  function PredictedRule(world: World, env: Env, p: Predicate, side: Side): seq<NodeSpec>
    requires PredicateResolvable(world, env, p, side)
    decreases p
  {
    [PredicateNode(world, env, p, side)] +
    match p
    case Plain(_, _) =>
      OperandsResolvable(world, env, ForSide(p, side), side);
      PredictedOperands(world, env, ConditionOperands(ForSide(p, side)), side)
    case State(_, _) => []
    case Temporal(_, _, of) => PredictedRule(world, env, of, side)
  }

  /** What a condition's resolution leaves behind: its upstream, its consumptions, its dictionaries. */
  ghost predicate ConditionResolved(
    world: World, env: Env, c: Condition, side: Side, upstream: map<Role, NodeSpec>, consumed: seq<NodeSpec>,
    ids: Identities)
  {
    && (forall k | 0 <= k < |ConditionOperands(c)| :: Resolvable(world, env, ConditionOperands(c)[k], side))
    && (forall op | op in ConditionOperands(c) :: Resolvable(world, env, op, side))
    && upstream == ConditionUpstream(world, env, c, side)
    && consumed == PredictedOperands(world, env, ConditionOperands(c), side)
    && ConditionFilled(world, env, ids, c, side)
  }

  method ResolveCondition(ghost world: World, env: Env, c: Condition, side: Side)
    returns (r: Option<(map<Role, NodeSpec>, seq<NodeSpec>, Identities)>)
    requires forall op | op in ConditionOperands(c) :: Parsed(world, env, op)
    ensures r.Some? <==> forall op | op in ConditionOperands(c) :: Resolvable(world, env, op, side)
    ensures r.Some? ==> ConditionResolved(world, env, c, side, r.value.0, r.value.1, r.value.2)
  {
    var ops := ConditionOperands(c);
    assert ops[0] in ops;
    var resolution := new Resolution();
    var first := resolution.ResolveOperand(world, env, ops[0], side, [OperandStep(c, 0)]);
    if first.None? {
      return None;
    }
    if !c.Compare? {
      SingleOperand(world, env, c, side, resolution.Ids());
      return Some((Slot(Inner, first.value.node), first.value.consumed, resolution.Ids()));
    }
    ghost var halfway := resolution.Ids();
    assert ops[1] in ops && [] + [AtLeft] == [AtLeft] && [] + [AtRight] == [AtRight];
    ClearBeside([], AtLeft, AtRight, NoIdentities, halfway);
    var second := resolution.ResolveOperand(world, env, ops[1], side, [AtRight]);
    if second.None? {
      return None;
    }
    FilledStays(world, env, halfway, resolution.Ids(), ops[0], side, [AtLeft], [AtRight]);
    TwoOperands(world, env, c, side, resolution.Ids());
    return Some((Slot(Left, first.value.node) + Slot(Right, second.value.node),
                 first.value.consumed + second.value.consumed, resolution.Ids()));
  }

  lemma SingleOperand(world: World, env: Env, c: Condition, side: Side, ids: Identities)
    requires !c.Compare? && Filled(world, env, ids, ConditionOperands(c)[0], side, [OperandStep(c, 0)])
    ensures ConditionResolved(world, env, c, side, Slot(Inner, NodeOf(world, env, ConditionOperands(c)[0], side)),
              Predicted(world, env, ConditionOperands(c)[0], side), ids)
  {
    assert ConditionOperands(c)[1..] == [];
  }

  lemma TwoOperands(world: World, env: Env, c: Condition, side: Side, ids: Identities)
    requires c.Compare? && Filled(world, env, ids, c.left, side, [AtLeft]) && Filled(world, env, ids, c.right, side, [AtRight])
    ensures ConditionResolved(world, env, c, side,
              Slot(Left, NodeOf(world, env, c.left, side)) + Slot(Right, NodeOf(world, env, c.right, side)),
              Predicted(world, env, c.left, side) + Predicted(world, env, c.right, side), ids)
  {
    assert ConditionOperands(c)[1..] == [c.right] && [c.right][1..] == [];
    assert PredictedOperands(world, env, [c.right], side) == Predicted(world, env, c.right, side);
  }

  /** The identity twin of a predicate: exactly when everything it reads is planned and declared, its
      node and nested consumptions, with every dictionary its evaluation looks into filled. */
  method ResolvePredicate(ghost world: World, env: Env, p: Predicate, side: Side)
    returns (r: Option<(PredicateIdentity, seq<NodeSpec>)>)
    requires RuleParsed(world, env, p, side)
    ensures r.Some? <==> PredicateResolvable(world, env, p, side)
    ensures r.Some? ==>
              RuleFilled(world, env, r.value.0, p, side) && r.value.1 == PredictedRule(world, env, p, side)
    decreases p
  {
    match p
    case State(contextRef, regimes) =>
      if contextRef !in env.contextIds {
        return None;
      }
      var local := NodeSpec(KState, map[Regimes := CTuple(Texts(regimes))],
        map[ContextRole := env.contextIds[contextRef]], Some(side));
      r := Some((PredicateIdentity(Some(local), NoIdentities, None), [local]));
    case Temporal(mode, bars, of) =>
      var inner := ResolvePredicate(world, env, of, side);
      if inner.None? {
        return None;
      }
      var below := inner.value.0.local.value;
      var local := NodeSpec(KTemporal, map[Mode := CStr(mode), Bars := CInt(bars)], map[Of := below], below.side);
      r := Some((PredicateIdentity(Some(local), NoIdentities, Some(inner.value.0)), [local] + inner.value.1));
    case Plain(_, _) =>
      var c := ForSide(p, side);
      var resolved := ResolveCondition(world, env, c, side);
      if resolved.None? {
        return None;
      }
      var local := NodeSpec(ConditionKind(c), ConditionParams(c), resolved.value.0, ConditionSide(p, side));
      r := Some((PredicateIdentity(Some(local), resolved.value.2, None), [local] + resolved.value.1));
  }
}
