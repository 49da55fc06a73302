/** Identity soundness: two operand trees, each under its own plan and on its own side, that resolve
    to the same node evaluate to the same outcome. */
module OperandIdentity {
  import opened NodeProgram
  import opened NodeIdentity
  import opened EpisodeTables
  import opened Operands
  import opened OperandEvaluation

  /** A segment that refuses an off-base feature reads one on `side`. Evaluation checks every declared
      feature, also the one that a by-side segment does not read there; the node leaves it out. */
  ghost predicate Covers(shape: Shape, features: seq<Feature>, side: Side) {
    (exists f | f in features :: !f.onBase) ==> exists f | f in Reads(shape, features, side) :: !f.onBase
  }

  ghost predicate Guarded(op: Operand, side: Side)
    decreases op
  {
    && (op.OverLeg? && op.shape.Segment? ==> Covers(op.shape, op.features, side))
    && (forall c | c in Children(op) :: Guarded(c.operand, side))
  }

  /** An operand tree where it stands: the variant's plan and bundle, and the evaluated side. */
  datatype Site = Site(env: Env, op: Operand, side: Side)

  ghost predicate Admissible(world: World, s: Site) {
    EnvSound(world, s.env) && Resolvable(world, s.env, s.op, s.side) && Guarded(s.op, s.side)
  }

  ghost function Node(world: World, s: Site): Option<NodeSpec>
    requires Admissible(world, s)
  {
    NodeOf(world, s.env, s.op, s.side)
  }

  ghost function ValueAt(world: World, s: Site): Outcome<Datum> {
    Values(world, s.env, s.op, s.side)
  }

  /** What the parent's identity says of a child: its tag, and its node if it has one. */
  ghost predicate SameChild(world: World, a: Site, b: Site) {
    && Admissible(world, a) && Admissible(world, b)
    && TagOf(a.op) == TagOf(b.op) && Node(world, a) == Node(world, b)
  }

  // -- what equal nodes have in common, family by family ---------------------------

  ghost predicate SameNode(world: World, a: Site, b: Site) {
    && Admissible(world, a) && Admissible(world, b)
    && Node(world, a).Some? && Node(world, a) == Node(world, b)
  }

  lemma RatioParamsInjective(
    l: Canonical, r: Canonical, floor: Float, mode: string, l': Canonical, r': Canonical, floor': Float, mode': string)
    requires RatioParams(l, r, floor, mode) == RatioParams(l', r', floor', mode')
    ensures l == l' && r == r' && Real(floor) == Real(floor') && mode == mode'
  {
    var p, q := RatioParams(l, r, floor, mode), RatioParams(l', r', floor', mode');
    assert p[LeftTag] == q[LeftTag] && p[RightTag] == q[RightTag];
    assert RightFloor in p <==> RightFloor in q;
    assert RightFloor in p ==> p[RightFloor] == q[RightFloor];
    assert DenominatorMode in p <==> DenominatorMode in q;
    assert DenominatorMode in p ==> p[DenominatorMode] == q[DenominatorMode];
  }

  lemma RatioParts(world: World, a: Site, b: Site)
    requires SameNode(world, a, b) && a.op.Ratio?
    ensures b.op.Ratio? && Real(a.op.rightFloor) == Real(b.op.rightFloor) && a.op.mode == b.op.mode
    ensures SameChild(world, a.(op := a.op.left), b.(op := b.op.left))
    ensures SameChild(world, a.(op := a.op.right), b.(op := b.op.right))
  {
    hide TagOf, RatioParams, ShapeParams, ReadNodes;
    var n, m := Node(world, a).value, Node(world, b).value;
    assert m.kind == KRatio;
    assert a.op.left == Children(a.op)[0].operand && a.op.right == Children(a.op)[1].operand;
    assert b.op.left == Children(b.op)[0].operand && b.op.right == Children(b.op)[1].operand;
    RatioParamsInjective(TagOf(a.op.left), TagOf(a.op.right), a.op.rightFloor, a.op.mode,
                         TagOf(b.op.left), TagOf(b.op.right), b.op.rightFloor, b.op.mode);
    assert Left in n.upstream <==> Left in m.upstream;
    assert Right in n.upstream <==> Right in m.upstream;
  }

  lemma DifferenceParts(world: World, a: Site, b: Site)
    requires SameNode(world, a, b) && a.op.Difference?
    ensures b.op.Difference?
    ensures SameChild(world, a.(op := a.op.left), b.(op := b.op.left))
    ensures SameChild(world, a.(op := a.op.right), b.(op := b.op.right))
  {
    hide TagOf, RatioParams, ShapeParams, ReadNodes;
    var n, m := Node(world, a).value, Node(world, b).value;
    assert m.kind == KDifference;
    assert a.op.left == Children(a.op)[0].operand && a.op.right == Children(a.op)[1].operand;
    assert b.op.left == Children(b.op)[0].operand && b.op.right == Children(b.op)[1].operand;
    assert n.params[LeftTag] == m.params[LeftTag] && n.params[RightTag] == m.params[RightTag];
    assert Left in n.upstream <==> Left in m.upstream;
    assert Right in n.upstream <==> Right in m.upstream;
  }

  lemma AbsoluteParts(world: World, a: Site, b: Site)
    requires SameNode(world, a, b) && a.op.Absolute?
    ensures b.op.Absolute? && SameChild(world, a.(op := a.op.inner), b.(op := b.op.inner))
  {
    hide TagOf, RatioParams, ShapeParams, ReadNodes;
    var n, m := Node(world, a).value, Node(world, b).value;
    assert m.kind == KAbs;
    assert a.op.inner == Children(a.op)[0].operand && b.op.inner == Children(b.op)[0].operand;
    assert n.params[OperandTag] == m.params[OperandTag];
    assert Inner in n.upstream <==> Inner in m.upstream;
  }

  lemma ScaleParts(world: World, a: Site, b: Site)
    requires SameNode(world, a, b) && a.op.Scale?
    ensures b.op.Scale? && a.op.factor == b.op.factor
    ensures SameChild(world, a.(op := a.op.inner), b.(op := b.op.inner))
  {
    hide TagOf, RatioParams, ShapeParams, ReadNodes;
    var n, m := Node(world, a).value, Node(world, b).value;
    assert m.kind == KScale;
    assert a.op.inner == Children(a.op)[0].operand && b.op.inner == Children(b.op)[0].operand;
    assert n.params[OperandTag] == m.params[OperandTag] && n.params[Factor] == m.params[Factor];
    assert Inner in n.upstream <==> Inner in m.upstream;
  }

  lemma IntervalParamsInjective(
    i: Interval, operation: string, of: Canonical, i': Interval, operation': string, of': Canonical)
    requires IntervalParams(i, operation, of) == IntervalParams(i', operation', of')
    ensures i == i' && operation == operation' && of == of'
  {
    var p, q := IntervalParams(i, operation, of), IntervalParams(i', operation', of');
    assert p[OfTag] == q[OfTag] && p[OperationName] == q[OperationName];
    assert p[RefName] == q[RefName] && p[Bars] == q[Bars];
    assert p[LegName] == q[LegName] && p[LastN] == q[LastN];
  }

  lemma IntervalParts(world: World, a: Site, b: Site)
    requires SameNode(world, a, b) && a.op.IntervalChange?
    ensures b.op.IntervalChange? && a.op.interval == b.op.interval && a.op.operation == b.op.operation
    ensures a.op.interval.EpisodeInterval? ==>
              TableOf(a.env, a.op.interval.ref, a.side) == TableOf(b.env, b.op.interval.ref, b.side)
    ensures SameChild(world, a.(op := a.op.inner), b.(op := b.op.inner))
  {
    hide TagOf, IntervalParams, ShapeParams, ReadNodes;
    var n, m := Node(world, a).value, Node(world, b).value;
    assert m.kind == KIntervalChange;
    assert a.op.inner == Children(a.op)[0].operand && b.op.inner == Children(b.op)[0].operand;
    IntervalParamsInjective(a.op.interval, a.op.operation, TagOf(a.op.inner),
                            b.op.interval, b.op.operation, TagOf(b.op.inner));
    assert Of in n.upstream <==> Of in m.upstream;
    if a.op.interval.EpisodeInterval? {
      assert n.upstream[EpisodeRole] == m.upstream[EpisodeRole];
    }
  }

  lemma AtPointParts(world: World, a: Site, b: Site)
    requires SameNode(world, a, b) && a.op.AtPoint?
    ensures b.op.AtPoint? && a.op.point == b.op.point
    ensures TableOf(a.env, a.op.episode, a.side).Some?
    ensures TableOf(a.env, a.op.episode, a.side) == TableOf(b.env, b.op.episode, b.side)
    ensures SameChild(world, a.(op := a.op.inner), b.(op := b.op.inner))
  {
    hide TagOf, RatioParams, ShapeParams, ReadNodes;
    var n, m := Node(world, a).value, Node(world, b).value;
    assert m.kind == KAtPoint;
    assert a.op.inner == Children(a.op)[0].operand && b.op.inner == Children(b.op)[0].operand;
    assert n.params[OperandTag] == m.params[OperandTag] && n.params[Point] == m.params[Point];
    assert n.upstream[EpisodeRole] == m.upstream[EpisodeRole];
    assert Inner in n.upstream <==> Inner in m.upstream;
  }

  lemma SignedParts(world: World, a: Site, b: Site)
    requires SameNode(world, a, b) && a.op.Signed?
    ensures b.op.Signed? && a.op.center == b.op.center && a.side == b.side
    ensures SameChild(world, a.(op := a.op.inner), b.(op := b.op.inner))
  {
    hide TagOf, RatioParams, ShapeParams, ReadNodes;
    var n, m := Node(world, a).value, Node(world, b).value;
    assert m.kind == KSigned;
    assert a.op.inner == Children(a.op)[0].operand && b.op.inner == Children(b.op)[0].operand;
    assert n.params[OperandTag] == m.params[OperandTag] && n.params[Center] == m.params[Center];
    assert Inner in n.upstream <==> Inner in m.upstream;
  }

  lemma OnlyIfParts(world: World, a: Site, b: Site)
    requires SameNode(world, a, b) && a.op.OnlyIf?
    ensures b.op.OnlyIf? && |a.op.require| == |b.op.require|
    ensures SameChild(world, a.(op := a.op.inner), b.(op := b.op.inner))
    ensures forall k | 0 <= k < |a.op.require| ::
              && a.op.require[k].bound == b.op.require[k].bound
              && SameChild(world, a.(op := a.op.require[k].operand), b.(op := b.op.require[k].operand))
  {
    var n, m := Node(world, a).value, Node(world, b).value;
    assert m.kind == KOnlyIf;
    var last := |a.op.require|;
    assert a.op.inner == Children(a.op)[|a.op.require|].operand;
    assert b.op.inner == Children(b.op)[|b.op.require|].operand;
    assert n.params[OperandTag] == m.params[OperandTag] && n.params[RequireTags] == m.params[RequireTags];
    assert Inner in n.upstream <==> Inner in m.upstream;
    assert RequirementTags(a.op.require) == RequirementTags(b.op.require);
    forall k | 0 <= k < |a.op.require|
      ensures a.op.require[k].bound == b.op.require[k].bound
      ensures SameChild(world, a.(op := a.op.require[k].operand), b.(op := b.op.require[k].operand))
    {
      RequirePart(world, a, b, k);
    }
  }

  lemma RequirePart(world: World, a: Site, b: Site, k: nat)
    requires SameNode(world, a, b) && a.op.OnlyIf? && b.op.OnlyIf?
    requires k < |a.op.require| == |b.op.require|
    requires RequirementTags(a.op.require) == RequirementTags(b.op.require)
    ensures a.op.require[k].bound == b.op.require[k].bound
    ensures SameChild(world, a.(op := a.op.require[k].operand), b.(op := b.op.require[k].operand))
  {
    var n, m := Node(world, a).value, Node(world, b).value;
    assert RequirementTag(a.op.require[k]) == RequirementTags(a.op.require)[k] == RequirementTag(b.op.require[k]);
    RequirementTagInjective(a.op.require[k], b.op.require[k]);
    assert Children(a.op)[k].operand == a.op.require[k].operand;
    assert Children(b.op)[k].operand == b.op.require[k].operand;
    RequireNodesAt(world, a.env, a.op.require, a.side, k);
    RequireNodesAt(world, b.env, b.op.require, b.side, k);
    assert Require(k) in n.upstream <==> Require(k) in RequireNodes(world, a.env, a.op.require, a.side);
    assert Require(k) in m.upstream <==> Require(k) in RequireNodes(world, b.env, b.op.require, b.side);
  }

  lemma RequirementTagInjective(r: Requirement, r': Requirement)
    requires RequirementTag(r) == RequirementTag(r')
    ensures r.bound == r'.bound && TagOf(r.operand) == TagOf(r'.operand)
  {
    var x, y := RequirementTag(r).items, RequirementTag(r').items;
    assert x[0] == y[0] && x[1] == y[1] && x[2] == y[2] && x[3] == y[3];
  }

  // -- leg operands ------------------------------------------------------------------

  lemma SegmentParamsInjective(s: Shape, t: Shape)
    requires s.Segment? && t.Segment? && SegmentParams(s) == SegmentParams(t)
    ensures s.start == t.start && s.end == t.end && s.value == t.value && s.lastN == t.lastN
    ensures s.aggregate == t.aggregate && s.negate == t.negate && s.includeStart == t.includeStart
    ensures s.emptyPolicy == t.emptyPolicy && s.span == t.span && s.touch == t.touch && s.top == t.top
    ensures s.eligibility == t.eligibility && (s.form.BySideForm? <==> t.form.BySideForm?)
  {
    forall name | name in SEGMENT_NAMES ensures SegmentParam(s, name) == SegmentParam(t, name) {
      OptionalParam(SegmentParams(s), SegmentParams(t), name);
    }
    assert SegmentParam(s, From) == SegmentParam(t, From) && SegmentParam(s, To) == SegmentParam(t, To);
    assert SegmentParam(s, ValueForm) == SegmentParam(t, ValueForm) && SegmentParam(s, Window) == SegmentParam(t, Window);
    assert SegmentParam(s, Aggregate) == SegmentParam(t, Aggregate) && SegmentParam(s, Negate) == SegmentParam(t, Negate);
    assert SegmentParam(s, IncludeStart) == SegmentParam(t, IncludeStart);
    assert SegmentParam(s, EmptyPolicy) == SegmentParam(t, EmptyPolicy) && SegmentParam(s, Span) == SegmentParam(t, Span);
    assert SegmentParam(s, Touch) == SegmentParam(t, Touch) && SegmentParam(s, BySide) == SegmentParam(t, BySide);
    assert SegmentParam(s, Top) == SegmentParam(t, Top) && SegmentParam(s, EligibilityOf) == SegmentParam(t, EligibilityOf);
    if s.eligibility.Some? {
      EligibilityInjective(s.eligibility.value, t.eligibility.value);
    }
  }

  lemma EligibilityInjective(e: Eligibility, f: Eligibility)
    requires EligibilityParam(e) == EligibilityParam(f)
    ensures e == f
  {
    var x, y := EligibilityParam(e).items, EligibilityParam(f).items;
    assert x[0] == y[0] && x[1] == y[1] && x[2] == y[2] && x[3] == y[3];
  }

  lemma OptionalParam(p: Params, q: Params, name: Name)
    requires p == q
    ensures name in p <==> name in q
    ensures name in p ==> p[name] == q[name]
  {
  }

  lemma ShapeInjective(s: Shape, t: Shape, fs: seq<Feature>, gs: seq<Feature>)
    requires ShapeKind(s) == ShapeKind(t) && ShapeParams(s) == ShapeParams(t) && Fits(s, fs) && Fits(t, gs)
    requires s.Segment? && t.Segment? && s.form.BySideForm? == t.form.BySideForm? ==> s.form == t.form
    ensures s == t
  {
    var p, q := ShapeParams(s), ShapeParams(t);
    match s
    case Segment(_, _, _, _, _, _, _, _, _, _, _, _, _) => SegmentParamsInjective(s, t);
    case Candle(_, _, _) =>
      assert p[LegName] == q[LegName] && p[Timeframe] == q[Timeframe] && p[Direction] == q[Direction];
    case FormingCandle(_, _) =>
      assert p[Timeframe] == q[Timeframe];
      assert Field in p <==> Field in q;
    case ImpulseAtr =>
    case WindowChange(_, _) => assert p[LastN] == q[LastN] && p[FormName] == q[FormName];
    case LegMean(_, _) => assert p[LegName] == q[LegName] && p[Field] == q[Field];
    case LegSum(_, _) => assert p[LegName] == q[LegName] && p[Field] == q[Field];
    case LegTopMean(_, _, _) =>
      assert p[LegName] == q[LegName] && p[Field] == q[Field] && p[Share] == q[Share];
    case AnchorFollow =>
    case PullbackDepth(_) =>
      assert Touch in p <==> Touch in q;
      assert Touch in p ==> p[Touch] == q[Touch];
    case LegSpeed(_) => assert p[LegName] == q[LegName];
    case LegEfficiency(_) => assert p[LegName] == q[LegName];
    case LegBars(_) => assert p[LegName] == q[LegName];
    case LegChange(_, _, _) =>
      assert p[LegName] == q[LegName] && p[Field] == q[Field] && p[Touch] == q[Touch];
  }

  lemma ReadNodesSize(env: Env, s: Shape, fs: seq<Feature>)
    requires |fs| <= 2 && forall f | f in fs :: f.columnLabel in env.featureIds
    requires |fs| == 2 ==> s.Segment?
    ensures |ReadNodes(env, s, fs)| == |fs|
  {
  }

  lemma ColumnInjective(f: NodeSpec, g: NodeSpec)
    requires ColumnNode(f) == ColumnNode(g)
    ensures f == g
  {
    assert ColumnNode(f).upstream[FeatureRole] == ColumnNode(g).upstream[FeatureRole];
  }

  /** Equal upstream columns, read in the same roles. */
  lemma SameColumns(env: Env, env': Env, s: Shape, t: Shape, fs: seq<Feature>, gs: seq<Feature>)
    requires |fs| <= 2 && |gs| <= 2 && ShapeKind(s) == ShapeKind(t)
    requires (|fs| == 2 ==> s.Segment?) && (|gs| == 2 ==> t.Segment?)
    requires forall f | f in fs :: f.columnLabel in env.featureIds
    requires forall g | g in gs :: g.columnLabel in env'.featureIds
    requires ReadNodes(env, s, fs) == ReadNodes(env', t, gs)
    ensures |fs| == |gs|
    ensures forall k | 0 <= k < |fs| :: env.featureIds[fs[k].columnLabel] == env'.featureIds[gs[k].columnLabel]
  {
    ReadNodesSize(env, s, fs);
    ReadNodesSize(env', t, gs);
    SameRole(s, t, 0);
    SameRole(s, t, 1);
    forall k | 0 <= k < |fs| ensures env.featureIds[fs[k].columnLabel] == env'.featureIds[gs[k].columnLabel] {
      ReadNodeAt(env, s, fs, k);
      ReadNodeAt(env', t, gs, k);
      ColumnInjective(env.featureIds[fs[k].columnLabel], env'.featureIds[gs[k].columnLabel]);
    }
  }

  lemma SameRole(s: Shape, t: Shape, i: nat)
    requires ShapeKind(s) == ShapeKind(t)
    ensures ReadRole(s, i) == ReadRole(t, i)
  {
  }

  lemma ReadNodeAt(env: Env, s: Shape, fs: seq<Feature>, k: nat)
    requires k < |fs| <= 2 && forall f | f in fs :: f.columnLabel in env.featureIds
    requires |fs| == 2 ==> s.Segment?
    ensures var nodes := ReadNodes(env, s, fs);
            ReadRole(s, k) in nodes && nodes[ReadRole(s, k)] == ColumnOf(env, fs[k])
  {
  }

  predicate IsLegKind(k: Kind) {
    || k.KSegment? || k.KCandle? || k.KFormingCandle? || k.KImpulseAtr? || k.KWindowChange? || k.KLegMean?
    || k.KLegSum? || k.KLegTopMean? || k.KAnchorFollow? || k.KPullbackDepth? || k.KLegSpeed? || k.KLegEfficiency?
    || k.KLegBars? || k.KLegChange?
  }

  lemma LegKind(shape: Shape)
    ensures IsLegKind(ShapeKind(shape))
  {
  }

  lemma LegNode(world: World, s: Site)
    requires Admissible(world, s) && Node(world, s).Some?
    ensures IsLegKind(Node(world, s).value.kind) <==> s.op.OverLeg?
  {
    if s.op.OverLeg? {
      LegKind(s.op.shape);
    }
  }

  lemma LegUpstream(e: NodeSpec, e': NodeSpec, cols: map<Role, NodeSpec>, cols': map<Role, NodeSpec>)
    requires EpisodeRole !in cols && EpisodeRole !in cols'
    requires map[EpisodeRole := e] + cols == map[EpisodeRole := e'] + cols'
    ensures e == e' && cols == cols'
  {
    var p, q := map[EpisodeRole := e] + cols, map[EpisodeRole := e'] + cols';
    assert p[EpisodeRole] == e && q[EpisodeRole] == e';
    assert cols == p - {EpisodeRole} && cols' == q - {EpisodeRole};
  }

  ghost function ReadsOf(s: Site): seq<Feature>
    requires s.op.OverLeg?
  {
    Reads(s.op.shape, s.op.features, s.side)
  }

  lemma ReadsPlanned(world: World, s: Site)
    requires Admissible(world, s) && s.op.OverLeg?
    ensures forall f | f in ReadsOf(s) :: Planned(world, s.env, f)
    ensures |ReadsOf(s)| <= 2 && (|ReadsOf(s)| == 2 ==> s.op.shape.Segment?)
    ensures s.op.shape.Segment? && !s.op.shape.form.BySideForm? ==>
              |ReadsOf(s)| == if s.op.shape.form.Single? then 1 else 2
    ensures TableOf(s.env, s.op.episode, s.side) == Some(world.table(s.env.episodeIds[(s.op.episode, s.side)]))
  {
  }

  /** What equal nodes of leg operands have in common. */
  lemma OverLegParts(world: World, a: Site, b: Site)
    requires SameNode(world, a, b) && a.op.OverLeg?
    ensures b.op.OverLeg? && a.side == b.side && a.op.shape == b.op.shape
    ensures TableOf(a.env, a.op.episode, a.side).Some?
    ensures TableOf(a.env, a.op.episode, a.side) == TableOf(b.env, b.op.episode, b.side)
    ensures SameReads(world, a, b)
  {
    LegNode(world, a);
    LegNode(world, b);
    LegNodeParts(world, a, b);
    ReadsPlanned(world, a);
    ReadsPlanned(world, b);
    SameColumns(a.env, b.env, a.op.shape, b.op.shape, ReadsOf(a), ReadsOf(b));
    SameShape(world, a, b);
    forall k | 0 <= k < |ReadsOf(a)| ensures SameFeature(a.env, b.env, ReadsOf(a)[k], ReadsOf(b)[k]) {
      assert ReadsOf(a)[k] in ReadsOf(a) && ReadsOf(b)[k] in ReadsOf(b);
    }
  }

  ghost function LegNodeOf(s: Site, episode: NodeSpec, columns: map<Role, NodeSpec>): NodeSpec
    requires s.op.OverLeg?
  {
    NodeSpec(ShapeKind(s.op.shape), ShapeParams(s.op.shape), map[EpisodeRole := episode] + columns, Some(s.side))
  }

  lemma LegNodeIs(world: World, s: Site)
    requires Admissible(world, s) && s.op.OverLeg?
    requires |ReadsOf(s)| <= 2 && forall f | f in ReadsOf(s) :: f.columnLabel in s.env.featureIds
    ensures (s.op.episode, s.side) in s.env.episodeIds
    ensures Node(world, s) ==
            Some(LegNodeOf(s, s.env.episodeIds[(s.op.episode, s.side)], ReadNodes(s.env, s.op.shape, ReadsOf(s))))
  {
  }

  lemma NoEpisodeRole(env: Env, shape: Shape, fs: seq<Feature>)
    requires |fs| <= 2 && forall f | f in fs :: f.columnLabel in env.featureIds
    ensures EpisodeRole !in ReadNodes(env, shape, fs)
  {
  }

  lemma LegNodeParts(world: World, a: Site, b: Site)
    requires SameNode(world, a, b) && a.op.OverLeg? && b.op.OverLeg?
    ensures a.side == b.side && ShapeKind(a.op.shape) == ShapeKind(b.op.shape)
    ensures ShapeParams(a.op.shape) == ShapeParams(b.op.shape)
    ensures TableOf(a.env, a.op.episode, a.side).Some?
    ensures TableOf(a.env, a.op.episode, a.side) == TableOf(b.env, b.op.episode, b.side)
    ensures forall f | f in ReadsOf(a) :: f.columnLabel in a.env.featureIds
    ensures forall f | f in ReadsOf(b) :: f.columnLabel in b.env.featureIds
    ensures |ReadsOf(a)| <= 2 && |ReadsOf(b)| <= 2
    ensures ReadNodes(a.env, a.op.shape, ReadsOf(a)) == ReadNodes(b.env, b.op.shape, ReadsOf(b))
  {
    hide ReadNodes, ShapeParams, Guarded, EnvSound, Node, Resolvable;
    ReadsPlanned(world, a);
    ReadsPlanned(world, b);
    LegNodeIs(world, a);
    LegNodeIs(world, b);
    NoEpisodeRole(a.env, a.op.shape, ReadsOf(a));
    NoEpisodeRole(b.env, b.op.shape, ReadsOf(b));
    LegUpstream(a.env.episodeIds[(a.op.episode, a.side)], b.env.episodeIds[(b.op.episode, b.side)],
                ReadNodes(a.env, a.op.shape, ReadsOf(a)), ReadNodes(b.env, b.op.shape, ReadsOf(b)));
  }

  lemma SameShape(world: World, a: Site, b: Site)
    requires Admissible(world, a) && Admissible(world, b) && a.op.OverLeg? && b.op.OverLeg?
    requires ShapeKind(a.op.shape) == ShapeKind(b.op.shape) && ShapeParams(a.op.shape) == ShapeParams(b.op.shape)
    requires |ReadsOf(a)| == |ReadsOf(b)|
    ensures a.op.shape == b.op.shape
  {
    if a.op.shape.Segment? {
      ReadsPlanned(world, a);
      ReadsPlanned(world, b);
      SegmentParamsInjective(a.op.shape, b.op.shape);
    }
    ShapeInjective(a.op.shape, b.op.shape, a.op.features, b.op.features);
  }

  /** The columns read are the same columns, with the same period and the same timeframe. */
  ghost predicate SameReads(world: World, a: Site, b: Site) {
    && a.op.OverLeg? && b.op.OverLeg? && |ReadsOf(a)| == |ReadsOf(b)|
    && forall k | 0 <= k < |ReadsOf(a)| :: SameFeature(a.env, b.env, ReadsOf(a)[k], ReadsOf(b)[k])
  }

  ghost predicate SameFeature(env: Env, env': Env, f: Feature, g: Feature) {
    && f.columnLabel in env.series && g.columnLabel in env'.series
    && env.series[f.columnLabel] == env'.series[g.columnLabel]
    && f.period == g.period && f.onBase == g.onBase
  }

  // -- identity soundness --------------------------------------------------------------

  lemma {:induction false} SameInputs(world: World, a: Site, b: Site, cs: seq<Child>, ds: seq<Child>)
    requires |cs| == |ds|
    requires forall k | 0 <= k < |cs| ::
               Values(world, a.env, cs[k].operand, a.side) == Values(world, b.env, ds[k].operand, b.side)
    ensures ChildValues(world, a.env, cs, a.side) == ChildValues(world, b.env, ds, b.side)
  {
    if |cs| > 0 {
      SameInputs(world, a, b, cs[1..], ds[1..]);
    }
  }

  lemma FeatureInputs(columns: seq<Feature>)
    ensures |FeatureChildren(columns)| == |columns|
    ensures forall k | 0 <= k < |columns| :: FeatureChildren(columns)[k].operand == FeatureValue(columns[k])
  {
    if |columns| > 0 {
      FeatureInputs(columns[1..]);
    }
  }

  lemma FeatureRead(world: World, env: Env, f: Feature, side: Side)
    requires f.columnLabel in env.series
    ensures Values(world, env, FeatureValue(f), side) == Value(Array(env.series[f.columnLabel]))
  {
    ValuesCompose(world, env, NoIdentities, FeatureValue(f), side, []);
  }

  /** What a leg operand reads, and whether it is refused, is settled by its node. */
  lemma SameLegInputs(world: World, a: Site, b: Site)
    requires SameNode(world, a, b) && a.op.OverLeg?
    ensures b.op.OverLeg? && Blocked(world, a.env, a.op, a.side) == Blocked(world, b.env, b.op, b.side)
    ensures ChildValues(world, a.env, Inputs(world, a.env, a.op, a.side), a.side)
         == ChildValues(world, b.env, Inputs(world, b.env, b.op, b.side), b.side)
  {
    OverLegParts(world, a, b);
    SameRefusal(world, a, b);
    var fs, gs := ReadsOf(a), ReadsOf(b);
    FeatureInputs(fs);
    FeatureInputs(gs);
    forall k | 0 <= k < |fs|
      ensures Values(world, a.env, FeatureValue(fs[k]), a.side) == Values(world, b.env, FeatureValue(gs[k]), b.side)
    {
      assert SameFeature(a.env, b.env, fs[k], gs[k]);
      FeatureRead(world, a.env, fs[k], a.side);
      FeatureRead(world, b.env, gs[k], b.side);
    }
    SameInputs(world, a, b, FeatureChildren(fs), FeatureChildren(gs));
  }

  lemma SameRefusal(world: World, a: Site, b: Site)
    requires Admissible(world, a) && Admissible(world, b) && SameReads(world, a, b)
    requires a.side == b.side && a.op.shape == b.op.shape
    ensures Refuses(world, a.op.shape, a.op.features) == Refuses(world, b.op.shape, b.op.features)
  {
    if a.op.shape.Segment? {
      RefusedByReads(world, a);
      RefusedByReads(world, b);
      forall k | 0 <= k < |ReadsOf(a)| ensures ReadsOf(a)[k].onBase == ReadsOf(b)[k].onBase {
        assert SameFeature(a.env, b.env, ReadsOf(a)[k], ReadsOf(b)[k]);
      }
    }
  }

  /** In a guarded tree only a feature that the side reads can make a segment refuse. */
  lemma RefusedByReads(world: World, s: Site)
    requires Guarded(s.op, s.side) && s.op.OverLeg? && s.op.shape.Segment?
    ensures Refuses(world, s.op.shape, s.op.features) <==> exists k | 0 <= k < |ReadsOf(s)| :: !ReadsOf(s)[k].onBase
  {
    if Refuses(world, s.op.shape, s.op.features) {
      var f :| f in ReadsOf(s) && !f.onBase;
    }
    if k :| 0 <= k < |ReadsOf(s)| && !ReadsOf(s)[k].onBase {
      assert ReadsOf(s)[k] in s.op.features;
    }
  }

  lemma SameLegColumns(world: World, a: Site, b: Site, vs: seq<Datum>)
    requires SameReads(world, a, b) && |vs| == |ReadsOf(a)|
    ensures LegColumns(world.size, ReadsOf(a), vs) == LegColumns(world.size, ReadsOf(b), vs)
  {
    forall k | 0 <= k < |vs| ensures ReadsOf(a)[k].period == ReadsOf(b)[k].period {
      assert SameFeature(a.env, b.env, ReadsOf(a)[k], ReadsOf(b)[k]);
    }
  }

  lemma {:induction false} InputCount(world: World, env: Env, cs: seq<Child>, side: Side)
    ensures var r := ChildValues(world, env, cs, side); r.Value? ==> |r.value| == |cs|
  {
    if |cs| > 0 {
      InputCount(world, env, cs[1..], side);
    }
  }

  lemma SameLegValue(world: World, a: Site, b: Site)
    requires SameNode(world, a, b) && a.op.OverLeg?
    ensures ValueAt(world, a) == ValueAt(world, b)
  {
    ValuesCompose(world, a.env, NoIdentities, a.op, a.side, []);
    ValuesCompose(world, b.env, NoIdentities, b.op, b.side, []);
    SameLegInputs(world, a, b);
    OverLegParts(world, a, b);
    InputCount(world, a.env, Inputs(world, a.env, a.op, a.side), a.side);
    FeatureInputs(ReadsOf(a));
    var vs := ChildValues(world, a.env, Inputs(world, a.env, a.op, a.side), a.side);
    if vs.Value? && !Blocked(world, a.env, a.op, a.side) {
      SameLegColumns(world, a, b, vs.value);
    }
  }

  /** Operands without a node are settled by their tag. */
  lemma SameTagSameValue(world: World, a: Site, b: Site)
    requires SameChild(world, a, b) && Node(world, a).None?
    ensures ValueAt(world, a) == ValueAt(world, b)
  {
    assert a.op.Const? || a.op.Price?;
    var x, y := TagOf(a.op).items, TagOf(b.op).items;
    assert x[0] == y[0] && x[1] == y[1];
    assert a.op == b.op;
    ValuesCompose(world, a.env, NoIdentities, a.op, a.side, []);
    ValuesCompose(world, b.env, NoIdentities, b.op, b.side, []);
  }

  lemma {:induction false} SameChildSameValue(world: World, a: Site, b: Site)
    requires SameChild(world, a, b)
    ensures ValueAt(world, a) == ValueAt(world, b)
    decreases a.op, 1
  {
    if Node(world, a).None? {
      SameTagSameValue(world, a, b);
    } else {
      SameNodeSameValue(world, a, b);
    }
  }

  /** Identity soundness: equal nodes, on whichever side and under whichever plan, mean equal
      outcomes, values and refusals alike. */
  lemma {:induction false} SameNodeSameValue(world: World, a: Site, b: Site)
    requires SameNode(world, a, b)
    ensures ValueAt(world, a) == ValueAt(world, b)
    decreases a.op, 0
  {
    if a.op.OverLeg? {
      SameLegValue(world, a, b);
    } else if a.op.OnlyIf? {
      OnlyIfParts(world, a, b);
      forall k | 0 <= k < |a.op.require|
        ensures ValueAt(world, a.(op := a.op.require[k].operand)) == ValueAt(world, b.(op := b.op.require[k].operand))
      {
        assert a.op.require[k].operand < a.op.require[k];
        SameChildSameValue(world, a.(op := a.op.require[k].operand), b.(op := b.op.require[k].operand));
      }
      SameChildSameValue(world, a.(op := a.op.inner), b.(op := b.op.inner));
      SameOnlyIfValue(world, a, b);
    } else if a.op.Ratio? || a.op.Difference? {
      if a.op.Ratio? {
        RatioParts(world, a, b);
      } else {
        DifferenceParts(world, a, b);
      }
      SameChildSameValue(world, a.(op := a.op.left), b.(op := b.op.left));
      SameChildSameValue(world, a.(op := a.op.right), b.(op := b.op.right));
      SamePairValue(world, a, b);
    } else if a.op.EpisodeValue? || a.op.FeatureValue? {
      SameLeafValue(world, a, b);
    } else {
      SameInner(world, a, b);
      SameChildSameValue(world, a.(op := a.op.inner), b.(op := b.op.inner));
      SameInnerValue(world, a, b);
    }
  }

  lemma SameLeafValue(world: World, a: Site, b: Site)
    requires SameNode(world, a, b) && (a.op.EpisodeValue? || a.op.FeatureValue?)
    ensures ValueAt(world, a) == ValueAt(world, b)
  {
    var n, m := Node(world, a).value, Node(world, b).value;
    LegNode(world, b);
    ValuesCompose(world, a.env, NoIdentities, a.op, a.side, []);
    ValuesCompose(world, b.env, NoIdentities, b.op, b.side, []);
    if a.op.EpisodeValue? {
      assert b.op.EpisodeValue?;
      assert n.params[Entity] == m.params[Entity] && n.params[Index] == m.params[Index];
      assert n.params[Field] == m.params[Field] && n.upstream[EpisodeRole] == m.upstream[EpisodeRole];
    } else {
      assert b.op.FeatureValue?;
      ColumnInjective(a.env.featureIds[a.op.feature.columnLabel], b.env.featureIds[b.op.feature.columnLabel]);
    }
  }

  /** Operands of one inner operand. */
  ghost predicate Wraps(op: Operand) {
    op.Absolute? || op.Scale? || op.IntervalChange? || op.AtPoint? || op.Signed?
  }

  /** The same family, with the same parameters, the same table and the same inner operand. */
  ghost predicate SameWrap(world: World, a: Site, b: Site) {
    && Wraps(a.op) && Wraps(b.op)
    && SameChild(world, a.(op := a.op.inner), b.(op := b.op.inner))
    && Blocked(world, a.env, a.op, a.side) == Blocked(world, b.env, b.op, b.side)
    && forall vs :: Combined(world, a.env, a.op, a.side, vs) == Combined(world, b.env, b.op, b.side, vs)
  }

  lemma SameInner(world: World, a: Site, b: Site)
    requires SameNode(world, a, b) && Wraps(a.op)
    ensures SameWrap(world, a, b)
  {
    match a.op
    case Absolute(_) => AbsoluteParts(world, a, b);
    case Scale(_, _) => ScaleParts(world, a, b);
    case IntervalChange(_, _, _) => IntervalParts(world, a, b);
    case AtPoint(_, _, _) => AtPointParts(world, a, b);
    case Signed(_, _) => SignedParts(world, a, b);
  }

  lemma InnerInputs(world: World, env: Env, op: Operand, side: Side)
    requires Wraps(op)
    ensures !Blocked(world, env, op, side) ==>
              var cs := Inputs(world, env, op, side);
              |cs| == 1 && cs[0].operand == op.inner
    ensures Blocked(world, env, op, side) ==> Inputs(world, env, op, side) == []
  {
  }

  lemma SameInnerValue(world: World, a: Site, b: Site)
    requires SameWrap(world, a, b)
    requires ValueAt(world, a.(op := a.op.inner)) == ValueAt(world, b.(op := b.op.inner))
    ensures ValueAt(world, a) == ValueAt(world, b)
  {
    hide Blocked, Inputs, Values, SameChild;
    ValuesCompose(world, a.env, NoIdentities, a.op, a.side, []);
    ValuesCompose(world, b.env, NoIdentities, b.op, b.side, []);
    InnerInputs(world, a.env, a.op, a.side);
    InnerInputs(world, b.env, b.op, b.side);
    SameInputs(world, a, b, Inputs(world, a.env, a.op, a.side), Inputs(world, b.env, b.op, b.side));
  }

  lemma SamePairValue(world: World, a: Site, b: Site)
    requires (a.op.Ratio? && b.op.Ratio? && Real(a.op.rightFloor) == Real(b.op.rightFloor) && a.op.mode == b.op.mode)
          || (a.op.Difference? && b.op.Difference?)
    requires ValueAt(world, a.(op := a.op.left)) == ValueAt(world, b.(op := b.op.left))
    requires ValueAt(world, a.(op := a.op.right)) == ValueAt(world, b.(op := b.op.right))
    ensures ValueAt(world, a) == ValueAt(world, b)
  {
    ValuesCompose(world, a.env, NoIdentities, a.op, a.side, []);
    ValuesCompose(world, b.env, NoIdentities, b.op, b.side, []);
    SameInputs(world, a, b, Children(a.op), Children(b.op));
  }

  lemma SameOnlyIfValue(world: World, a: Site, b: Site)
    requires a.op.OnlyIf? && b.op.OnlyIf? && |a.op.require| == |b.op.require|
    requires forall k | 0 <= k < |a.op.require| ::
               && a.op.require[k].bound == b.op.require[k].bound
               && ValueAt(world, a.(op := a.op.require[k].operand)) == ValueAt(world, b.(op := b.op.require[k].operand))
    requires ValueAt(world, a.(op := a.op.inner)) == ValueAt(world, b.(op := b.op.inner))
    ensures ValueAt(world, a) == ValueAt(world, b)
  {
    ValuesCompose(world, a.env, NoIdentities, a.op, a.side, []);
    ValuesCompose(world, b.env, NoIdentities, b.op, b.side, []);
    var cs, ds := Children(a.op), Children(b.op);
    forall k | 0 <= k < |cs|
      ensures Values(world, a.env, cs[k].operand, a.side) == Values(world, b.env, ds[k].operand, b.side)
    {
      if k < |a.op.require| {
        assert ValueAt(world, a.(op := a.op.require[k].operand)) == ValueAt(world, b.(op := b.op.require[k].operand));
      }
    }
    SameInputs(world, a, b, cs, ds);
    assert BoundsOf(a.op.require) == BoundsOf(b.op.require);
  }

  // -- where the node of a by-side segment says too little -------------------------------

  /** The same segment with the unread feature replaced by the one that is read. */
  function ReadTwin(s: Site): Site
    requires s.op.OverLeg?
  {
    var own := Reads(s.op.shape, s.op.features, s.side);
    if |own| == 1 then s.(op := s.op.(features := [own[0], own[0]])) else s
  }

  /** A by-side segment and its twin have one node, but one value exactly when the guard holds: a
      segment whose unread feature alone is off the base timeframe is refused, its twin is not. */
  lemma UnreadFeatureDecides(world: World, s: Site)
    requires EnvSound(world, s.env) && Resolvable(world, s.env, s.op, s.side)
    requires s.op.OverLeg? && s.op.shape.Segment? && s.op.shape.form.BySideForm?
    ensures var twin := ReadTwin(s);
            && Admissible(world, twin)
            && NodeOf(world, twin.env, twin.op, twin.side) == NodeOf(world, s.env, s.op, s.side)
            && (ValueAt(world, s) == ValueAt(world, twin) <==> Guarded(s.op, s.side))
  {
    var twin := ReadTwin(s);
    var own := Reads(s.op.shape, s.op.features, s.side);
    assert own == ReadsOf(twin) && own[0] in own && own[0] in s.op.features && own[0] in twin.op.features;
    ValuesCompose(world, s.env, NoIdentities, s.op, s.side, []);
    ValuesCompose(world, twin.env, NoIdentities, twin.op, twin.side, []);
    if Guarded(s.op, s.side) {
      SameNodeSameValue(world, s, twin);
    } else {
      FeatureInputs(own);
      FeatureRead(world, s.env, own[0], s.side);
    }
  }

  /** A market of no bars with two indicators, the second one off the base timeframe. */
  function TinyWorld(): World {
    World(0, _ => [], _ => [], n => n == Indicator("fast"), _ => 1, _ => Some(1),
          _ => SideEpisode(Long, [], [], [], []), _ => HtfState([], [], []), _ => false,
          (_, _, _, _) => [], (_, _, _, _) => [], (_, _, _, _) => [], (_, _, _) => [])
  }

  function Indicator(name: string): NodeSpec {
    NodeSpec(KIndicator(name), map[], map[], None)
  }

  /** A long by-side segment over "fast" whose short side reads `other`. */
  function TinySite(other: Feature): Site {
    var env := Env(map["fast" := Indicator("fast"), "slow" := Indicator("slow")], map["fast" := [], "slow" := []],
                   map[("e", Long) := NodeSpec(KEpisode, map[], map[], Some(Long))],
                   map[("e", Long) := SideEpisode(Long, [], [], [], [])], map[], map[]);
    var shape := Segment(BySideForm, "P", "t", "max", "level", None, false, None, None, None, "current", true, "missing");
    Site(env, OverLeg("e", shape, [Feature("fast", true, 1, Some(1)), other]), Long)
  }

  /** One node, two outcomes: two variants of one batch can differ in the unread feature alone. */
  lemma SameNodeTwoOutcomes()
    ensures var world := TinyWorld();
            var a, b := TinySite(Feature("fast", true, 1, Some(1))), TinySite(Feature("slow", false, 1, Some(1)));
            && EnvSound(world, a.env) && Resolvable(world, a.env, a.op, a.side)
            && EnvSound(world, b.env) && Resolvable(world, b.env, b.op, b.side)
            && NodeOf(world, a.env, a.op, a.side) == NodeOf(world, b.env, b.op, b.side)
            && ValueAt(world, a) != ValueAt(world, b)
  {
    hide Values, Guarded, ReadTwin;
    var world := TinyWorld();
    var b := TinySite(Feature("slow", false, 1, Some(1)));
    TinyIsPlanned(Feature("slow", false, 1, Some(1)));
    TinyTwin();
    UnreadFeatureDecides(world, b);
  }

  lemma TinyIsPlanned(other: Feature)
    ensures var world, s := TinyWorld(), TinySite(other);
            EnvSound(world, s.env) && Resolvable(world, s.env, s.op, s.side)
  {
  }

  lemma TinyTwin()
    ensures var b := TinySite(Feature("slow", false, 1, Some(1)));
            ReadTwin(b) == TinySite(Feature("fast", true, 1, Some(1))) && !Guarded(b.op, b.side)
  {
    var b := TinySite(Feature("slow", false, 1, Some(1)));
    assert b.op.features[1] in b.op.features && !b.op.features[1].onBase;
  }
}
