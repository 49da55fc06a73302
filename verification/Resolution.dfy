/** The resolution of an operand tree (`_resolve_operand`): it names every node the evaluation will
    consume and fills the dictionaries in which the evaluation looks its identities up. */
module Resolution {
  import opened NodeProgram
  import opened NodeIdentity
  import opened EpisodeTables
  import opened Operands
  import opened OperandEvaluation

  /** What a resolution returns: the node for the parent, and the nodes the evaluation consumes. */
  datatype Resolved = Resolved(node: Option<NodeSpec>, consumed: seq<NodeSpec>)

  ghost predicate Faithful(world: World, env: Env, f: Feature) {
    f.columnLabel in env.featureIds ==> Planned(world, env, f)
  }

  /** A planned feature says of itself what its identity says of it, and a leg operand has the features
      its parser admits. What may still be missing is a plan entry or an episode. */
  ghost predicate Parsed(world: World, env: Env, op: Operand)
    decreases op
  {
    && (op.OverLeg? ==> Fits(op.shape, op.features) && forall f | f in op.features :: Faithful(world, env, f))
    && (op.FeatureValue? ==> Faithful(world, env, op.feature))
    && forall c | c in Children(op) :: Parsed(world, env, c.operand)
  }

  // -- what the dictionaries must hold ---------------------------------------------

  function Found(ids: Identities, op: Operand, path: Path): Option<NodeSpec> {
    match op
    case Const(_) => None
    case Price(_) => None
    case EpisodeValue(ref) => Lookup(ids.episodes, ref)
    case FeatureValue(f) => Lookup(ids.columns, f.columnLabel)
    case _ => Lookup(ids.operands, path)
  }

  ghost predicate ColumnFilled(env: Env, ids: Identities, f: Feature) {
    f.columnLabel in env.featureIds && Lookup(ids.columns, f.columnLabel) == Some(ColumnOf(env, f))
  }

  /** Every lookup the evaluation makes from `path` on finds the node of the operand that stands there. */
  ghost predicate Filled(world: World, env: Env, ids: Identities, op: Operand, side: Side, path: Path)
    decreases op
  {
    && Resolvable(world, env, op, side)
    && Found(ids, op, path) == NodeOf(world, env, op, side)
    && (op.OverLeg? ==> forall f | f in Reads(op.shape, op.features, side) :: ColumnFilled(env, ids, f))
    && forall c | c in Children(op) :: Filled(world, env, ids, c.operand, side, path + [c.step])
  }

  /** Entries stay what they are, and new operand entries stand at or below `path`. */
  ghost predicate Grows(path: Path, before: Identities, after: Identities) {
    && (forall l | l in before.columns :: Lookup(after.columns, l) == Some(before.columns[l]))
    && (forall r | r in before.episodes :: Lookup(after.episodes, r) == Some(before.episodes[r]))
    && (forall p | p in before.operands :: Lookup(after.operands, p) == Some(before.operands[p]))
    && (forall p | p in after.operands :: p in before.operands || path <= p)
  }

  /** No operand entry at or below `path` yet. */
  ghost predicate Clear(path: Path, ids: Identities) {
    forall p | p in ids.operands :: !(path <= p)
  }

  /** Columns and episode operands hold the nodes of their labels on the resolved side. */
  ghost predicate Shared(env: Env, side: Side, ids: Identities) {
    && (forall l | l in ids.columns :: l in env.featureIds && ids.columns[l] == ColumnNode(env.featureIds[l]))
    && (forall r | r in ids.episodes :: Declared(env, r.ref, side) && ids.episodes[r] == EpisodeNode(env, r, side))
  }

  function EpisodeNode(env: Env, ref: EpisodeRef, side: Side): NodeSpec
    requires Declared(env, ref.ref, side)
  {
    NodeSpec(KEpisodeOperand,
      map[Entity := CStr(ref.entity), Index := IntOrNone(ref.index), Field := CStr(ref.field)],
      map[EpisodeRole := env.episodeIds[(ref.ref, side)]], None)
  }

  lemma {:induction false} FilledStays(
    world: World, env: Env, before: Identities, after: Identities, op: Operand, side: Side, path: Path, top: Path)
    requires Filled(world, env, before, op, side, path) && Grows(top, before, after)
    ensures Filled(world, env, after, op, side, path)
    decreases op
  {
    forall c | c in Children(op) ensures Filled(world, env, after, c.operand, side, path + [c.step]) {
      FilledStays(world, env, before, after, c.operand, side, path + [c.step], top);
    }
    if op.OverLeg? {
      forall f | f in Reads(op.shape, op.features, side) ensures ColumnFilled(env, after, f) {
        assert ColumnFilled(env, before, f);
      }
    }
  }

  lemma LongerPath(path: Path, step: PathStep, p: Path)
    ensures path + [step] <= p ==> path <= p && p[|path|] == step
  {
    if path + [step] <= p {
      assert (path + [step])[|path|] == step;
      assert path <= path + [step];
    }
  }

  /** Below two different steps there is no common path. */
  lemma ClearBeside(path: Path, step: PathStep, other: PathStep, before: Identities, after: Identities)
    requires Clear(path + [other], before) && Grows(path + [step], before, after) && step != other
    ensures Clear(path + [other], after)
  {
    forall p | p in after.operands ensures !(path + [other] <= p) {
      LongerPath(path, step, p);
      LongerPath(path, other, p);
    }
  }

  lemma ClearBelow(path: Path, step: PathStep, ids: Identities)
    requires Clear(path, ids)
    ensures Clear(path + [step], ids)
  {
    forall p | p in ids.operands ensures !(path + [step] <= p) {
      LongerPath(path, step, p);
    }
  }

  lemma GrowsBelow(path: Path, step: PathStep, before: Identities, after: Identities)
    requires Grows(path + [step], before, after)
    ensures Grows(path, before, after)
  {
    forall p | p in after.operands ensures p in before.operands || path <= p {
      LongerPath(path, step, p);
    }
  }

  /** New operand entries stand strictly below `path`. */
  ghost predicate Below(path: Path, before: Identities, after: Identities) {
    forall p | p in after.operands :: p in before.operands || |path| < |p|
  }

  function InnerNode(env: Env, op: Operand, side: Side, inner: Option<NodeSpec>): NodeSpec
    requires op.Absolute? || op.Scale? || op.IntervalChange? || op.AtPoint? || op.Signed?
    requires op.AtPoint? ==> (op.episode, side) in env.episodeIds
    requires op.IntervalChange? && op.interval.EpisodeInterval? ==> (op.interval.ref, side) in env.episodeIds
  {
    match op
    case Absolute(of) => NodeSpec(KAbs, map[OperandTag := TagOf(of)], Slot(Inner, inner), SideIf(op, side))
    case Scale(of, factor) =>
      NodeSpec(KScale, map[Factor := CFloat(factor), OperandTag := TagOf(of)], Slot(Inner, inner), SideIf(op, side))
    case IntervalChange(of, interval, operation) =>
      NodeSpec(KIntervalChange, IntervalParams(interval, operation, TagOf(of)),
        Slot(Of, inner)
        + (if interval.EpisodeInterval? then map[EpisodeRole := env.episodeIds[(interval.ref, side)]] else map[]),
        SideIf(op, side))
    case AtPoint(episode, point, of) =>
      NodeSpec(KAtPoint, map[Point := CStr(point), OperandTag := TagOf(of)],
        map[EpisodeRole := env.episodeIds[(episode, side)]] + Slot(Inner, inner), Some(side))
    case Signed(of, center) =>
      NodeSpec(KSigned, map[Center := CFloat(center), OperandTag := TagOf(of)], Slot(Inner, inner), Some(side))
  }

  function PairNode(op: Operand, side: Side, left: Option<NodeSpec>, right: Option<NodeSpec>): NodeSpec
    requires op.Ratio? || op.Difference?
  {
    var upstream := Slot(Left, left) + Slot(Right, right);
    if op.Ratio? then
      NodeSpec(KRatio, RatioParams(TagOf(op.left), TagOf(op.right), op.rightFloor, op.mode), upstream, SideIf(op, side))
    else
      NodeSpec(KDifference, map[LeftTag := TagOf(op.left), RightTag := TagOf(op.right)], upstream, SideIf(op, side))
  }

  /** What the requirements contribute to the node and to the consumptions of their parent. */
  ghost predicate Gathered(
    world: World, env: Env, rs: seq<Requirement>, side: Side, upstream: map<Role, NodeSpec>, consumed: seq<NodeSpec>)
  {
    && AllResolvable(world, env, rs, side)
    && upstream == RequireNodes(world, env, rs, side) && consumed == PredictedAll(world, env, rs, side)
  }

  lemma GatherMore(
    world: World, env: Env, rs: seq<Requirement>, side: Side, k: nat,
    upstream: map<Role, NodeSpec>, consumed: seq<NodeSpec>)
    requires k < |rs| && Gathered(world, env, rs[..k], side, upstream, consumed)
    requires Resolvable(world, env, rs[k].operand, side)
    ensures Gathered(world, env, rs[..k + 1], side,
              upstream + Slot(Require(k), NodeOf(world, env, rs[k].operand, side)),
              consumed + Predicted(world, env, rs[k].operand, side))
  {
    var more := rs[..k + 1];
    forall i | 0 <= i < |more| ensures Resolvable(world, env, more[i].operand, side) {
      if i < k {
        assert more[i] == rs[..k][i];
      }
    }
    assert more[..k] == rs[..k] && more[..k + 1] == more;
    PredictedMore(world, env, more, side, k);
  }

  lemma {:induction false} PredictedMore(world: World, env: Env, rs: seq<Requirement>, side: Side, k: nat)
    requires k < |rs| && forall i | 0 <= i <= k :: Resolvable(world, env, rs[i].operand, side)
    ensures PredictedAll(world, env, rs[..k + 1], side)
         == PredictedAll(world, env, rs[..k], side) + Predicted(world, env, rs[k].operand, side)
  {
    hide Predicted, Resolvable;
    if k == 0 {
      assert rs[..1][1..] == [];
    } else {
      PredictedMore(world, env, rs[1..], side, k - 1);
      assert rs[..k + 1][1..] == rs[1..][..k] && rs[..k][1..] == rs[1..][..k - 1];
    }
  }

  ghost predicate AllResolvable(world: World, env: Env, rs: seq<Requirement>, side: Side) {
    forall i | 0 <= i < |rs| :: Resolvable(world, env, rs[i].operand, side)
  }

  /** The guarded operand and the requirements below `index` are in place, the others still clear. */
  ghost predicate Partly(
    world: World, env: Env, op: Operand, side: Side, path: Path, index: nat, before: Identities, now: Identities)
    requires op.OnlyIf? && index <= |op.require|
  {
    && Grows(path, before, now) && Below(path, before, now) && Shared(env, side, now)
    && Filled(world, env, now, op.inner, side, path + [AtOperand])
    && (forall k | 0 <= k < index :: Filled(world, env, now, op.require[k].operand, side, path + [AtRequire(k)]))
    && forall k: nat | index <= k :: Clear(path + [AtRequire(k)], now)
  }

  lemma InnerResolved(
    world: World, env: Env, op: Operand, side: Side, path: Path, before: Identities, after: Identities)
    requires op.OnlyIf? && Clear(path, before) && Grows(path + [AtOperand], before, after) && Shared(env, side, after)
    requires Filled(world, env, after, op.inner, side, path + [AtOperand])
    ensures Partly(world, env, op, side, path, 0, before, after)
  {
    GrowsBelow(path, AtOperand, before, after);
    forall k: nat ensures Clear(path + [AtRequire(k)], after) {
      ClearBelow(path, AtRequire(k), before);
      ClearBeside(path, AtOperand, AtRequire(k), before, after);
    }
  }

  lemma OnlyIfIs(world: World, env: Env, op: Operand, side: Side)
    requires op.OnlyIf? && Resolvable(world, env, op.inner, side) && AllResolvable(world, env, op.require, side)
    ensures Resolvable(world, env, op, side)
    ensures NodeOf(world, env, op, side) == Some(
              NodeSpec(KOnlyIf, map[OperandTag := TagOf(op.inner), RequireTags := CTuple(RequirementTags(op.require))],
                Slot(Inner, NodeOf(world, env, op.inner, side)) + RequireNodes(world, env, op.require, side), Some(side)))
    ensures Predicted(world, env, op, side)
         == [NodeOf(world, env, op, side).value] + Predicted(world, env, op.inner, side)
            + PredictedAll(world, env, op.require, side)
  {
  }

  lemma RequirementResolved(
    world: World, env: Env, op: Operand, side: Side, path: Path, index: nat,
    before: Identities, halfway: Identities, after: Identities)
    requires op.OnlyIf? && index < |op.require| && Partly(world, env, op, side, path, index, before, halfway)
    requires Grows(path + [AtRequire(index)], halfway, after) && Shared(env, side, after)
    requires Filled(world, env, after, op.require[index].operand, side, path + [AtRequire(index)])
    ensures Partly(world, env, op, side, path, index + 1, before, after)
  {
    GrowsBelow(path, AtRequire(index), halfway, after);
    GrowsTwice(path, before, halfway, after);
    FilledStays(world, env, halfway, after, op.inner, side, path + [AtOperand], path);
    forall k | 0 <= k < index
      ensures Filled(world, env, after, op.require[k].operand, side, path + [AtRequire(k)])
    {
      FilledStays(world, env, halfway, after, op.require[k].operand, side, path + [AtRequire(k)], path);
    }
    forall k: nat | index < k ensures Clear(path + [AtRequire(k)], after) {
      ClearBeside(path, AtRequire(index), AtRequire(k), halfway, after);
    }
  }

  lemma GrowsTwice(path: Path, a: Identities, b: Identities, c: Identities)
    requires Grows(path, a, b) && Grows(path, b, c)
    ensures Grows(path, a, c)
  {
  }

  /** What resolving `op` at `path` is to make of the dictionaries and to return. */
  ghost predicate Resolves(
    world: World, env: Env, op: Operand, side: Side, path: Path, before: Identities, after: Identities,
    r: Option<Resolved>)
  {
    && (r.Some? <==> Resolvable(world, env, op, side))
    && (r.Some? ==>
          && r.value == Resolved(NodeOf(world, env, op, side), Predicted(world, env, op, side))
          && Grows(path, before, after) && Shared(env, side, after)
          && Filled(world, env, after, op, side, path))
  }

  lemma EntryFilled(
    world: World, env: Env, op: Operand, side: Side, path: Path, node: NodeSpec,
    before: Identities, children: Identities, after: Identities)
    requires Resolvable(world, env, op, side) && NodeOf(world, env, op, side) == Some(node)
    requires !(op.Const? || op.Price? || op.EpisodeValue? || op.FeatureValue? || op.OverLeg?)
    requires Clear(path, before) && Grows(path, before, children) && Shared(env, side, children)
    requires forall c | c in Children(op) :: Filled(world, env, children, c.operand, side, path + [c.step])
    requires Below(path, before, children)
    requires after == children.(operands := children.operands[path := node])
    ensures Grows(path, before, after) && Shared(env, side, after)
    ensures Filled(world, env, after, op, side, path)
  {
    hide Filled, Grows, Shared, NodeOf, Resolvable, Clear, Below;
    EntryGrows(env, side, path, node, before, children, after);
    forall c | c in Children(op) ensures Filled(world, env, after, c.operand, side, path + [c.step]) {
      FilledStays(world, env, children, after, c.operand, side, path + [c.step], path);
    }
    FilledAbove(world, env, after, op, side, path);
  }

  lemma EntryGrows(
    env: Env, side: Side, path: Path, node: NodeSpec, before: Identities, children: Identities, after: Identities)
    requires Clear(path, before) && Grows(path, before, children) && Shared(env, side, children)
    requires Below(path, before, children)
    requires after == children.(operands := children.operands[path := node])
    ensures Grows(path, before, after) && Grows(path, children, after) && Shared(env, side, after)
  {
    assert path <= path;
  }

  lemma FilledAbove(world: World, env: Env, ids: Identities, op: Operand, side: Side, path: Path)
    requires Resolvable(world, env, op, side) && Found(ids, op, path) == NodeOf(world, env, op, side) && !op.OverLeg?
    requires forall c | c in Children(op) :: Filled(world, env, ids, c.operand, side, path + [c.step])
    ensures Filled(world, env, ids, op, side, path)
  {
  }

  /** The dictionaries of one predicate's resolution, filled as its operands are resolved. */
  class Resolution {
    var columns: map<string, NodeSpec>
    var episodes: map<EpisodeRef, NodeSpec>
    var operands: map<Path, NodeSpec>

    constructor ()
      ensures Ids() == NoIdentities
    {
      columns, episodes, operands := map[], map[], map[];
    }

    function Ids(): Identities
      reads this
    {
      Identities(columns, episodes, operands)
    }

    /** The identity twin of an operand: exactly when every feature is planned and every episode is
        declared, the node and the predicted consumptions, with every dictionary entry in place. */
    method ResolveOperand(ghost world: World, env: Env, op: Operand, side: Side, path: Path)
      returns (r: Option<Resolved>)
      requires Parsed(world, env, op) && Clear(path, Ids()) && Shared(env, side, Ids())
      modifies this
      ensures Resolves(world, env, op, side, path, old(Ids()), Ids(), r)
      decreases op, 1
    {
      match op
      case Const(_) => r := Some(Resolved(None, []));
      case Price(_) => r := Some(Resolved(None, []));
      case EpisodeValue(ref) =>
        if (ref.ref, side) !in env.episodeIds {
          return None;
        }
        var node := EpisodeNode(env, ref, side);
        episodes := episodes[ref := node];
        r := Some(Resolved(Some(node), [node]));
      case FeatureValue(feature) =>
        if feature.columnLabel !in env.featureIds {
          return None;
        }
        columns := columns[feature.columnLabel := ColumnOf(env, feature)];
        r := Some(Resolved(Some(ColumnOf(env, feature)), [ColumnOf(env, feature)]));
      case OverLeg(_, _, _) => r := ResolveLeg(world, env, op, side, path);
      case Ratio(_, _, _, _) => r := ResolvePair(world, env, op, side, path);
      case Difference(_, _) => r := ResolvePair(world, env, op, side, path);
      case OnlyIf(_, _) => r := ResolveOnlyIf(world, env, op, side, path);
      case _ => r := ResolveInner(world, env, op, side, path);
    }

    method ResolveLeg(ghost world: World, env: Env, op: Operand, side: Side, path: Path) returns (r: Option<Resolved>)
      requires Parsed(world, env, op) && Clear(path, Ids()) && Shared(env, side, Ids()) && op.OverLeg?
      modifies this
      ensures Resolves(world, env, op, side, path, old(Ids()), Ids(), r)
      decreases op, 0
    {
      if (op.episode, side) !in env.episodeIds {
        return None;
      }
      var columnsRead := Reads(op.shape, op.features, side);
      var planned := EnterColumns(world, env, columnsRead, side);
      if !planned {
        return None;
      }
      var node := NodeSpec(ShapeKind(op.shape), ShapeParams(op.shape),
        map[EpisodeRole := env.episodeIds[(op.episode, side)]] + ReadNodes(env, op.shape, columnsRead), Some(side));
      operands := operands[path := node];
      r := Some(Resolved(Some(node), [node] + ColumnNodes(env, columnsRead)));
    }

    method EnterColumns(ghost world: World, env: Env, features: seq<Feature>, side: Side) returns (planned: bool)
      requires Shared(env, side, Ids()) && forall f | f in features :: Faithful(world, env, f)
      modifies this
      ensures operands == old(operands)
      ensures planned <==> forall f | f in features :: Planned(world, env, f)
      ensures planned ==>
                && Shared(env, side, Ids()) && Grows([], old(Ids()), Ids())
                && forall f | f in features :: ColumnFilled(env, Ids(), f)
    {
      hide ColumnNode;
      planned := true;
      var index := 0;
      while index < |features|
        invariant 0 <= index <= |features| && operands == old(operands)
        invariant Grows([], old(Ids()), Ids()) && Shared(env, side, Ids())
        invariant forall k | 0 <= k < index :: ColumnFilled(env, Ids(), features[k]) && Planned(world, env, features[k])
      {
        var feature := features[index];
        assert feature in features;
        if feature.columnLabel !in env.featureIds {
          return false;
        }
        columns := columns[feature.columnLabel := ColumnOf(env, feature)];
        index := index + 1;
      }
    }

    method ResolvePair(ghost world: World, env: Env, op: Operand, side: Side, path: Path) returns (r: Option<Resolved>)
      requires Parsed(world, env, op) && Clear(path, Ids()) && Shared(env, side, Ids())
      requires op.Ratio? || op.Difference?
      modifies this
      ensures Resolves(world, env, op, side, path, old(Ids()), Ids(), r)
      decreases op, 0
    {
      hide Filled, Shared;
      ghost var before := Ids();
      assert Children(op) == [Child(AtLeft, op.left), Child(AtRight, op.right)];
      assert Children(op)[0] in Children(op) && Children(op)[1] in Children(op);
      ClearBelow(path, AtLeft, before);
      var left := ResolveOperand(world, env, op.left, side, path + [AtLeft]);
      if left.None? {
        return None;
      }
      ghost var halfway := Ids();
      ClearBelow(path, AtRight, before);
      ClearBeside(path, AtLeft, AtRight, before, halfway);
      var right := ResolveOperand(world, env, op.right, side, path + [AtRight]);
      if right.None? {
        return None;
      }
      GrowsBelow(path, AtLeft, before, halfway);
      GrowsBelow(path, AtRight, halfway, Ids());
      FilledStays(world, env, halfway, Ids(), op.left, side, path + [AtLeft], path);
      var node := PairNode(op, side, left.value.node, right.value.node);
      r := Some(Resolved(Some(node), [node] + left.value.consumed + right.value.consumed));
      Enter(world, env, op, side, path, node, before);
    }

    method ResolveInner(ghost world: World, env: Env, op: Operand, side: Side, path: Path) returns (r: Option<Resolved>)
      requires Parsed(world, env, op) && Clear(path, Ids()) && Shared(env, side, Ids())
      requires op.Absolute? || op.Scale? || op.IntervalChange? || op.AtPoint? || op.Signed?
      modifies this
      ensures Resolves(world, env, op, side, path, old(Ids()), Ids(), r)
      decreases op, 0
    {
      ghost var before := Ids();
      if op.AtPoint? && (op.episode, side) !in env.episodeIds {
        return None;
      }
      var step := Children(op)[0].step;
      assert Children(op) == [Child(step, op.inner)] && Children(op)[0] in Children(op);
      ClearBelow(path, step, before);
      var inner := ResolveOperand(world, env, op.inner, side, path + [step]);
      if inner.None? || (op.IntervalChange? && op.interval.EpisodeInterval? && (op.interval.ref, side) !in env.episodeIds) {
        return None;
      }
      GrowsBelow(path, step, before, Ids());
      var node := InnerNode(env, op, side, inner.value.node);
      Enter(world, env, op, side, path, node, before);
      r := Some(Resolved(Some(node), [node] + inner.value.consumed));
    }

    method ResolveOnlyIf(ghost world: World, env: Env, op: Operand, side: Side, path: Path) returns (r: Option<Resolved>)
      requires Parsed(world, env, op) && Clear(path, Ids()) && Shared(env, side, Ids()) && op.OnlyIf?
      modifies this
      ensures Resolves(world, env, op, side, path, old(Ids()), Ids(), r)
      decreases op, 0, 2
    {
      hide Filled, Shared, Partly, Predicted, NodeOf, RequireNodes, PredictedAll, Grows;
      ghost var before := Ids();
      assert Children(op)[|op.require|] == Child(AtOperand, op.inner);
      ClearBelow(path, AtOperand, before);
      var inner := ResolveOperand(world, env, op.inner, side, path + [AtOperand]);
      if inner.None? {
        return None;
      }
      InnerResolved(world, env, op, side, path, before, Ids());
      var nodes := ResolveRequirements(world, env, op, side, path, before);
      if nodes.None? {
        return None;
      }
      var node := NodeSpec(KOnlyIf, map[OperandTag := TagOf(op.inner), RequireTags := CTuple(RequirementTags(op.require))],
        Slot(Inner, inner.value.node) + nodes.value.0, Some(side));
      OnlyIfIs(world, env, op, side);
      Enter(world, env, op, side, path, node, before);
      r := Some(Resolved(Some(node), [node] + inner.value.consumed + nodes.value.1));
    }

    method ResolveRequirement(
      ghost world: World, env: Env, op: Operand, side: Side, path: Path, index: nat, ghost before: Identities)
      returns (child: Option<Resolved>)
      requires op.OnlyIf? && Parsed(world, env, op) && index < |op.require|
      requires Partly(world, env, op, side, path, index, before, Ids())
      modifies this
      ensures var required := op.require[index].operand;
              && (child.Some? <==> Resolvable(world, env, required, side))
              && (child.Some? ==>
                    && child.value == Resolved(NodeOf(world, env, required, side), Predicted(world, env, required, side))
                    && Partly(world, env, op, side, path, index + 1, before, Ids()))
      decreases op, 0, 0
    {
      ghost var halfway := Ids();
      assert Children(op)[index] == Child(AtRequire(index), op.require[index].operand);
      assert op.require[index].operand < op.require[index];
      child := ResolveOperand(world, env, op.require[index].operand, side, path + [AtRequire(index)]);
      if child.Some? {
        RequirementResolved(world, env, op, side, path, index, before, halfway, Ids());
      }
    }

    /** The requirements in declared order, after the guarded operand. */
    method ResolveRequirements(
      ghost world: World, env: Env, op: Operand, side: Side, path: Path, ghost before: Identities)
      returns (r: Option<(map<Role, NodeSpec>, seq<NodeSpec>)>)
      requires op.OnlyIf? && Parsed(world, env, op) && Partly(world, env, op, side, path, 0, before, Ids())
      modifies this
      ensures r.Some? <==> AllResolvable(world, env, op.require, side)
      ensures r.Some? ==>
                && Partly(world, env, op, side, path, |op.require|, before, Ids())
                && r.value == (RequireNodes(world, env, op.require, side), PredictedAll(world, env, op.require, side))
      decreases op, 0, 1
    {
      var rs := op.require;
      var upstream, consumed := map[], [];
      var index := 0;
      while index < |rs|
        invariant 0 <= index <= |rs| && Partly(world, env, op, side, path, index, before, Ids())
        invariant Gathered(world, env, rs[..index], side, upstream, consumed)
      {
        var child := ResolveRequirement(world, env, op, side, path, index, before);
        if child.None? {
          return None;
        }
        GatherMore(world, env, rs, side, index, upstream, consumed);
        upstream := upstream + Slot(Require(index), child.value.node);
        consumed := consumed + child.value.consumed;
        index := index + 1;
      }
      assert rs[..|rs|] == rs;
      r := Some((upstream, consumed));
    }

    /** The operand's own entry, once its children are resolved. */
    method Enter(
      ghost world: World, env: Env, op: Operand, side: Side, path: Path, node: NodeSpec, ghost before: Identities)
      requires Resolvable(world, env, op, side) && NodeOf(world, env, op, side) == Some(node)
      requires !(op.Const? || op.Price? || op.EpisodeValue? || op.FeatureValue? || op.OverLeg?)
      requires Clear(path, before) && Grows(path, before, Ids()) && Shared(env, side, Ids())
      requires forall c | c in Children(op) :: Filled(world, env, Ids(), c.operand, side, path + [c.step])
      requires Below(path, before, Ids())
      modifies this
      ensures Grows(path, before, Ids()) && Shared(env, side, Ids())
      ensures Filled(world, env, Ids(), op, side, path)
    {
      ghost var children := Ids();
      operands := operands[path := node];
      EntryFilled(world, env, op, side, path, node, before, children, Ids());
    }
  }
}
