/** When one node serves both sides: an operand or a predicate without an episode and without a value of its own per
    side has one identity, so its column is computed once for long and short; any other names its side. */
module IdentitySharing {
  import opened NodeProgram
  import opened NodeIdentity
  import opened EpisodeTables
  import opened Operands
  import opened OperandEvaluation
  import opened Predicates

  /** Nothing in the operand depends on the side. */
  predicate SideFree(op: Operand) {
    match op
    case Const(_) => true
    case Price(_) => true
    case FeatureValue(_) => true
    case Ratio(left, right, _, _) => SideFree(left) && SideFree(right)
    case Difference(left, right) => SideFree(left) && SideFree(right)
    case Absolute(inner) => SideFree(inner)
    case Scale(inner, _) => SideFree(inner)
    case IntervalChange(inner, interval, _) => SideFree(inner) && interval.FixedInterval?
    case _ => false
  }

  /** An operand without a side of its own is resolved on both sides or on neither, to one node, and has one value. */
  lemma {:induction false} OneOperandNode(world: World, env: Env, op: Operand)
    requires SideFree(op)
    ensures !NeedsEpisode(op)
    ensures Resolvable(world, env, op, Long) == Resolvable(world, env, op, Short)
    ensures Resolvable(world, env, op, Long) ==> NodeOf(world, env, op, Long) == NodeOf(world, env, op, Short)
    ensures Values(world, env, op, Long) == Values(world, env, op, Short)
  {
    hide Values, Combined;
    match op
    case Ratio(left, right, _, _) =>
      OneOperandNode(world, env, left);
      OneOperandNode(world, env, right);
      BothSides(world, env, op);
    case Difference(left, right) =>
      OneOperandNode(world, env, left);
      OneOperandNode(world, env, right);
      BothSides(world, env, op);
    case Absolute(inner) =>
      OneOperandNode(world, env, inner);
      BothSides(world, env, op);
    case Scale(inner, _) =>
      OneOperandNode(world, env, inner);
      BothSides(world, env, op);
    case IntervalChange(inner, _, _) =>
      OneOperandNode(world, env, inner);
      BothSides(world, env, op);
    case _ =>
      BothSides(world, env, op);
  }

  /** Equal children on both sides make an equal value. */
  lemma BothSides(world: World, env: Env, op: Operand)
    requires SideFree(op)
    requires forall c | c in Children(op) :: Values(world, env, c.operand, Long) == Values(world, env, c.operand, Short)
    ensures Values(world, env, op, Long) == Values(world, env, op, Short)
  {
    hide Values;
    ValuesCompose(world, env, NoIdentities, op, Long, []);
    ValuesCompose(world, env, NoIdentities, op, Short, []);
    EqualChildren(world, env, Children(op));
  }

  lemma {:induction false} EqualChildren(world: World, env: Env, cs: seq<Child>)
    requires forall c | c in cs :: Values(world, env, c.operand, Long) == Values(world, env, c.operand, Short)
    ensures ChildValues(world, env, cs, Long) == ChildValues(world, env, cs, Short)
  {
    hide Values;
    if |cs| > 0 {
      EqualChildren(world, env, cs[1..]);
    }
  }

  /** The operand measures an episode, mirrors at a center or is guarded, somewhere in it. */
  predicate Sided(op: Operand) {
    match op
    case EpisodeValue(_) => true
    case OverLeg(_, _, _) => true
    case AtPoint(_, _, _) => true
    case Signed(_, _) => true
    case OnlyIf(_, _) => true
    case IntervalChange(_, interval, _) => interval.EpisodeInterval?
    case Ratio(left, right, _, _) => Sided(left) || Sided(right)
    case Difference(left, right) => Sided(left) || Sided(right)
    case Absolute(inner) => Sided(inner)
    case Scale(inner, _) => Sided(inner)
    case _ => false
  }

  /** An operand with a side of its own names it; an episode's value is that of the side's own episode. */
  lemma {:induction false} SidedNode(world: World, env: Env, op: Operand, side: Side)
    requires Resolvable(world, env, op, side)
    ensures Sided(op) <==> NeedsEpisode(op)
    ensures Sided(op) && !op.EpisodeValue? ==>
              NodeOf(world, env, op, side).Some? && NodeOf(world, env, op, side).value.side == Some(side)
    ensures op.EpisodeValue? ==>
              && (op.ref.ref, side) in env.episodeIds
              && NodeOf(world, env, op, side).Some?
              && EpisodeRole in NodeOf(world, env, op, side).value.upstream
              && NodeOf(world, env, op, side).value.upstream[EpisodeRole] == env.episodeIds[(op.ref.ref, side)]
  {
    SidedMeans(op);
  }

  lemma {:induction false} SidedMeans(op: Operand)
    ensures Sided(op) <==> NeedsEpisode(op)
  {
    match op
    case Ratio(left, right, _, _) => SidedMeans(left); SidedMeans(right);
    case Difference(left, right) => SidedMeans(left); SidedMeans(right);
    case Absolute(inner) => SidedMeans(inner);
    case Scale(inner, _) => SidedMeans(inner);
    case _ =>
  }

  /** One condition for both sides over operands without a side of their own: one node, one mask. */
  predicate OneForBoth(p: Predicate) {
    match p
    case Plain(long, short) => short.None? && forall op | op in ConditionOperands(long) :: SideFree(op)
    case State(_, _) => false
    case Temporal(_, _, of) => OneForBoth(of)
  }

  lemma {:induction false} OnePredicateNode(world: World, env: Env, p: Predicate)
    requires OneForBoth(p)
    ensures PredicateResolvable(world, env, p, Long) == PredicateResolvable(world, env, p, Short)
    ensures PredicateResolvable(world, env, p, Long) ==>
              PredicateNode(world, env, p, Long) == PredicateNode(world, env, p, Short)
    ensures MaskOf(world, env, p, Long) == MaskOf(world, env, p, Short)
  {
    hide Values, ConditionValue, WindowMask;
    MaskComposes(world, env, NoIdentity, p, Long);
    MaskComposes(world, env, NoIdentity, p, Short);
    match p
    case Plain(long, _) =>
      forall op | op in ConditionOperands(long)
        ensures !NeedsEpisode(op) && Resolvable(world, env, op, Long) == Resolvable(world, env, op, Short)
        ensures Resolvable(world, env, op, Long) ==> NodeOf(world, env, op, Long) == NodeOf(world, env, op, Short)
        ensures Values(world, env, op, Long) == Values(world, env, op, Short)
      {
        OneOperandNode(world, env, op);
      }
      OperandsEqual(world, env, ConditionOperands(long));
    case Temporal(_, _, of) =>
      OnePredicateNode(world, env, of);
  }

  lemma {:induction false} OperandsEqual(world: World, env: Env, ops: seq<Operand>)
    requires forall op | op in ops :: Values(world, env, op, Long) == Values(world, env, op, Short)
    ensures ChildValues(world, env, OperandChildren(ops), Long) == ChildValues(world, env, OperandChildren(ops), Short)
  {
    hide Values;
    forall c | c in OperandChildren(ops) ensures c.operand in ops {
      OperandChild(ops, c);
    }
    EqualChildren(world, env, OperandChildren(ops));
  }

  lemma {:induction false} OperandChild(ops: seq<Operand>, c: Child)
    requires c in OperandChildren(ops)
    ensures c.operand in ops
  {
    if |ops| > 0 && c in OperandChildren(ops[1..]) {
      OperandChild(ops[1..], c);
    }
  }

  /** A regime, a short override and an operand with a side of its own put the side into the node, through any
      window. */
  lemma {:induction false} SidedPredicateNode(world: World, env: Env, p: Predicate, side: Side)
    requires PredicateResolvable(world, env, p, side)
    ensures p.State? ==> PredicateNode(world, env, p, side).side == Some(side)
    ensures p.Plain? && (p.short.Some? || exists op | op in ConditionOperands(p.long) :: Sided(op)) ==>
              PredicateNode(world, env, p, side).side == Some(side)
    ensures p.Temporal? ==> PredicateNode(world, env, p, side).side == PredicateNode(world, env, p.of, side).side
  {
    if p.Plain? && p.short.None? {
      forall op | op in ConditionOperands(p.long) ensures Sided(op) <==> NeedsEpisode(op) {
        SidedMeans(op);
      }
    }
  }
}
