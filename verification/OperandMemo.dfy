/** Operands under the shared context: what a node denotes, and why an evaluation under resolved
    identities is sound and consumes what its resolution predicted. */
module OperandMemo {
  import opened NodeProgram
  import opened NodeIdentity
  import opened EpisodeTables
  import opened Operands
  import opened OperandEvaluation
  import opened OperandIdentity
  import opened Predicates
  import opened Resolution
  import opened ComputationPrograms

  // -- what a node denotes -----------------------------------------------------------

  ghost predicate StandsFor(world: World, s: Site, n: NodeSpec) {
    Admissible(world, s) && Node(world, s) == Some(n)
  }

  ghost predicate RuleStandsFor(world: World, s: PredicateSite, n: NodeSpec) {
    PredicateAdmissible(world, s) && PredicateNode(world, s.env, s.rule, s.side) == n
  }

  /** The outcome of any operand or predicate with this node, over one market. */
  ghost function Denotes(world: World, n: NodeSpec): Outcome<Datum> {
    if exists s :: StandsFor(world, s, n) then
      var s :| StandsFor(world, s, n); ValueAt(world, s)
    else if exists s :: RuleStandsFor(world, s, n) then
      var s :| RuleStandsFor(world, s, n); PredicateMask(world, s)
    else Refused("no such node")
  }

  ghost function Meaning(world: World): NodeSpec -> Outcome<Datum> {
    n => Denotes(world, n)
  }

  predicate IsRuleKind(k: Kind) {
    k.KCompare? || k.KRange? || k.KChange? || k.KState? || k.KTemporal?
  }

  lemma OperandKind(world: World, s: Site)
    requires Admissible(world, s) && Node(world, s).Some?
    ensures !IsRuleKind(Node(world, s).value.kind)
  {
    LegNode(world, s);
  }

  lemma RuleKind(world: World, s: PredicateSite)
    requires PredicateAdmissible(world, s)
    ensures IsRuleKind(PredicateNode(world, s.env, s.rule, s.side).kind)
  {
  }

  /** A node denotes the value of every operand that resolves to it. */
  lemma OperandDenoted(world: World, s: Site)
    requires Admissible(world, s) && Node(world, s).Some?
    ensures Denotes(world, Node(world, s).value) == ValueAt(world, s)
  {
    var n := Node(world, s).value;
    assert StandsFor(world, s, n);
    var t :| StandsFor(world, t, n) && Denotes(world, n) == ValueAt(world, t);
    OneValue(world, t, s, n);
  }

  lemma OneValue(world: World, a: Site, b: Site, n: NodeSpec)
    requires StandsFor(world, a, n) && StandsFor(world, b, n)
    ensures ValueAt(world, a) == ValueAt(world, b)
  {
    SameNodeSameValue(world, a, b);
  }

  /** A node denotes the mask of every predicate that resolves to it. */
  lemma RuleDenoted(world: World, s: PredicateSite)
    requires PredicateAdmissible(world, s)
    ensures Denotes(world, PredicateNode(world, s.env, s.rule, s.side)) == PredicateMask(world, s)
  {
    var n := PredicateNode(world, s.env, s.rule, s.side);
    assert RuleStandsFor(world, s, n);
    RuleKind(world, s);
    forall t ensures !StandsFor(world, t, n) {
      if Admissible(world, t) && Node(world, t).Some? {
        OperandKind(world, t);
      }
    }
    var t :| RuleStandsFor(world, t, n) && Denotes(world, n) == PredicateMask(world, t);
    OneMask(world, t, s, n);
  }

  lemma OneMask(world: World, a: PredicateSite, b: PredicateSite, n: NodeSpec)
    requires RuleStandsFor(world, a, n) && RuleStandsFor(world, b, n)
    ensures PredicateMask(world, a) == PredicateMask(world, b)
  {
    SamePredicateSameMask(world, a, b);
  }

  // -- children stand below their parent -----------------------------------------------

  lemma UpstreamBelow(n: NodeSpec, role: Role)
    requires role in n.upstream
    ensures n.upstream[role] < n
  {
  }

  lemma RequirementBelow(world: World, env: Env, op: Operand, side: Side, k: nat)
    requires op.OnlyIf? && Resolvable(world, env, op, side) && k < |op.require|
    ensures NodeOf(world, env, op, side).Some?
    ensures var node := NodeOf(world, env, op.require[k].operand, side);
            node.Some? ==> node.value < NodeOf(world, env, op, side).value
  {
    RequireNodesAt(world, env, op.require, side, k);
    var n := NodeOf(world, env, op, side).value;
    if Require(k) in n.upstream {
      UpstreamBelow(n, Require(k));
    }
  }

  /** The role in which a parent takes the node of its child at `k`. */
  function RoleOf(op: Operand, k: nat): Role {
    if op.Ratio? || op.Difference? then (if k == 0 then Left else Right)
    else if op.IntervalChange? then Of else Inner
  }

  lemma PairRole(world: World, env: Env, op: Operand, side: Side, k: nat)
    requires Resolvable(world, env, op, side) && (op.Ratio? || op.Difference?) && k < 2
    ensures NodeOf(world, env, op, side).Some? && Resolvable(world, env, Children(op)[k].operand, side)
    ensures var node := NodeOf(world, env, Children(op)[k].operand, side);
            node.Some? ==>
              var n := NodeOf(world, env, op, side).value;
              RoleOf(op, k) in n.upstream && n.upstream[RoleOf(op, k)] == node.value
  {
    hide TagOf, RatioParams, SideIf;
  }

  lemma InnerRole(world: World, env: Env, op: Operand, side: Side)
    requires Resolvable(world, env, op, side) && (Wraps(op) || op.OnlyIf?)
    ensures NodeOf(world, env, op, side).Some? && Resolvable(world, env, op.inner, side)
    ensures var node := NodeOf(world, env, op.inner, side);
            node.Some? ==>
              var n := NodeOf(world, env, op, side).value;
              RoleOf(op, 0) in n.upstream && n.upstream[RoleOf(op, 0)] == node.value
  {
    hide TagOf, IntervalParams, RequirementTags, SideIf;
  }

  /** The node of a child is part of the node of its parent. */
  lemma ChildBelow(world: World, env: Env, op: Operand, side: Side, k: nat)
    requires Resolvable(world, env, op, side) && k < |Children(op)|
    requires Resolvable(world, env, Children(op)[k].operand, side)
    ensures NodeOf(world, env, op, side).Some?
    ensures var node := NodeOf(world, env, Children(op)[k].operand, side);
            node.Some? ==> node.value < NodeOf(world, env, op, side).value
  {
    hide NodeOf, Resolvable;
    if op.OnlyIf? && k < |op.require| {
      RequirementBelow(world, env, op, side, k);
    } else {
      if op.Ratio? || op.Difference? {
        PairRole(world, env, op, side, k);
      } else {
        InnerRole(world, env, op, side);
      }
      var n := NodeOf(world, env, op, side).value;
      if RoleOf(op, k) in n.upstream {
        UpstreamBelow(n, RoleOf(op, k));
      }
    }
  }

  lemma ColumnBelow(world: World, env: Env, op: Operand, side: Side, k: nat)
    requires Resolvable(world, env, op, side) && op.OverLeg?
    requires k < |Reads(op.shape, op.features, side)| <= 2
    requires |Reads(op.shape, op.features, side)| == 2 ==> op.shape.Segment?
    ensures Reads(op.shape, op.features, side)[k] in Reads(op.shape, op.features, side)
    ensures ColumnOf(env, Reads(op.shape, op.features, side)[k]) < NodeOf(world, env, op, side).value
  {
    var fs := Reads(op.shape, op.features, side);
    ReadNodeAt(env, op.shape, fs, k);
    var n := NodeOf(world, env, op, side).value;
    assert ReadRole(op.shape, k) in n.upstream;
    UpstreamBelow(n, ReadRole(op.shape, k));
  }

  // -- grounded evaluation -------------------------------------------------------------

  lemma IdentityFound(world: World, env: Env, ids: Identities, op: Operand, side: Side, path: Path)
    requires EnvSound(world, env) && Filled(world, env, ids, op, side, path)
    ensures IdentityAt(env, ids, op, side, path) == NodeOf(world, env, op, side)
  {
  }

  lemma GroundedOne(c: Computation, denotes: NodeSpec -> Outcome<Datum>, top: Option<NodeSpec>)
    requires c.identity.Some? ==> denotes(c.identity.value) == Eval(c)
    requires c.identity.Some? && top.Some? ==> c.identity.value < top.value
    requires Grounded(c.inputs, denotes, if c.identity.Some? then c.identity else top)
    ensures Grounded([c], denotes, top)
  {
    assert [c][1..] == [];
  }

  lemma {:induction false} OperandGrounded(
    world: World, env: Env, ids: Identities, op: Operand, side: Side, path: Path, top: Option<NodeSpec>)
    requires EnvSound(world, env) && Guarded(op, side) && Filled(world, env, ids, op, side, path)
    requires var node := NodeOf(world, env, op, side); node.Some? && top.Some? ==> node.value < top.value
    ensures Grounded([ComputationOf(world, env, ids, op, side, path)], Meaning(world), top)
    decreases op, 2
  {
    var c := ComputationOf(world, env, ids, op, side, path);
    IdentityFound(world, env, ids, op, side, path);
    ValuesCompose(world, env, ids, op, side, path);
    if c.identity.Some? {
      OperandDenoted(world, Site(env, op, side));
      InputsGrounded(world, env, ids, op, side, path);
    }
    GroundedOne(c, Meaning(world), top);
  }

  lemma {:induction false} InputsGrounded(world: World, env: Env, ids: Identities, op: Operand, side: Side, path: Path)
    requires EnvSound(world, env) && Guarded(op, side) && Filled(world, env, ids, op, side, path)
    requires NodeOf(world, env, op, side).Some?
    ensures Grounded(InputsOf(world, env, ids, op, side, path), Meaning(world), NodeOf(world, env, op, side))
    decreases op, 1
  {
    var node := NodeOf(world, env, op, side);
    if Blocked(world, env, op, side) {
    } else if op.OverLeg? {
      var fs := Reads(op.shape, op.features, side);
      forall k | 0 <= k < |fs| ensures ColumnReady(world, env, ids, fs[k], node.value) {
        ReadsPlanned(world, Site(env, op, side));
        ColumnBelow(world, env, op, side, k);
      }
      ColumnsGrounded(world, env, ids, fs, side, node.value);
    } else {
      forall k | 0 <= k < |Children(op)| ensures ChildReady(world, env, ids, Children(op)[k], side, path, node.value) {
        assert Children(op)[k] in Children(op);
        ChildBelow(world, env, op, side, k);
      }
      ChildrenGrounded(world, env, ids, op, Children(op), side, path, node.value);
    }
  }

  ghost predicate ColumnReady(world: World, env: Env, ids: Identities, f: Feature, node: NodeSpec) {
    && Planned(world, env, f) && ColumnFilled(env, ids, f) && ColumnOf(env, f) < node
  }

  ghost predicate ChildReady(world: World, env: Env, ids: Identities, c: Child, side: Side, path: Path, node: NodeSpec) {
    && Guarded(c.operand, side) && Filled(world, env, ids, c.operand, side, path + [c.step])
    && var own := NodeOf(world, env, c.operand, side); own.Some? ==> own.value < node
  }

  lemma {:induction false} ColumnsGrounded(
    world: World, env: Env, ids: Identities, fs: seq<Feature>, side: Side, node: NodeSpec)
    requires EnvSound(world, env) && forall k | 0 <= k < |fs| :: ColumnReady(world, env, ids, fs[k], node)
    ensures Grounded(ColumnComputations(world, env, ids, fs, side), Meaning(world), Some(node))
  {
    if |fs| > 0 {
      var f := FeatureValue(fs[0]);
      assert ColumnReady(world, env, ids, fs[0], node);
      OperandDenoted(world, Site(env, f, side));
      EvalUnfolds(world, env, ids, f, side, []);
      FeatureRead(world, env, fs[0], side);
      forall k | 0 <= k < |fs[1..]| ensures ColumnReady(world, env, ids, fs[1..][k], node) {
        assert fs[1..][k] == fs[k + 1];
      }
      ColumnsGrounded(world, env, ids, fs[1..], side, node);
    }
  }

  lemma {:induction false} ChildrenGrounded(
    world: World, env: Env, ids: Identities, parent: Operand, cs: seq<Child>, side: Side, path: Path, node: NodeSpec)
    requires EnvSound(world, env) && forall c | c in cs :: c.operand < parent
    requires forall k | 0 <= k < |cs| :: ChildReady(world, env, ids, cs[k], side, path, node)
    ensures Grounded(ComputationsOf(world, env, ids, parent, cs, side, path), Meaning(world), Some(node))
    decreases parent, 0, |cs|
  {
    if |cs| > 0 {
      assert ChildReady(world, env, ids, cs[0], side, path, node);
      OperandGrounded(world, env, ids, cs[0].operand, side, path + [cs[0].step], Some(node));
      forall k | 0 <= k < |cs[1..]| ensures ChildReady(world, env, ids, cs[1..][k], side, path, node) {
        assert cs[1..][k] == cs[k + 1];
      }
      ChildrenGrounded(world, env, ids, parent, cs[1..], side, path, node);
    }
  }

  // -- prediction completeness -----------------------------------------------------------

  ghost predicate AllFilled(
    world: World, env: Env, ids: Identities, cs: seq<Child>, side: Side, path: Path)
  {
    forall k | 0 <= k < |cs| :: Filled(world, env, ids, cs[k].operand, side, path + [cs[k].step])
  }

  ghost function PredictedOf(world: World, env: Env, cs: seq<Child>, side: Side): multiset<NodeSpec>
    requires forall k | 0 <= k < |cs| :: Resolvable(world, env, cs[k].operand, side)
  {
    if |cs| == 0 then multiset{} else
    multiset(Predicted(world, env, cs[0].operand, side)) + PredictedOf(world, env, cs[1..], side)
  }

  lemma ChildrenResolvable(world: World, env: Env, ids: Identities, op: Operand, side: Side, path: Path)
    requires Filled(world, env, ids, op, side, path)
    ensures AllFilled(world, env, ids, Children(op), side, path)
    ensures forall k | 0 <= k < |Children(op)| :: Resolvable(world, env, Children(op)[k].operand, side)
  {
    forall k | 0 <= k < |Children(op)|
      ensures Filled(world, env, ids, Children(op)[k].operand, side, path + [Children(op)[k].step])
    {
      assert Children(op)[k] in Children(op);
    }
  }

  lemma {:induction false} RequirementsPredicted(world: World, env: Env, rs: seq<Requirement>, cs: seq<Child>, side: Side)
    requires |cs| == |rs| && forall k | 0 <= k < |rs| :: cs[k].operand == rs[k].operand
    requires forall k | 0 <= k < |rs| :: Resolvable(world, env, rs[k].operand, side)
    ensures multiset(PredictedAll(world, env, rs, side)) == PredictedOf(world, env, cs, side)
  {
    if |rs| > 0 {
      RequirementsPredicted(world, env, rs[1..], cs[1..], side);
    }
  }

  lemma {:induction false} PredictedOfMore(world: World, env: Env, cs: seq<Child>, last: Child, side: Side)
    requires forall k | 0 <= k < |cs| :: Resolvable(world, env, cs[k].operand, side)
    requires Resolvable(world, env, last.operand, side)
    ensures PredictedOf(world, env, cs + [last], side)
         == PredictedOf(world, env, cs, side) + multiset(Predicted(world, env, last.operand, side))
  {
    if |cs| > 0 {
      assert (cs + [last])[1..] == cs[1..] + [last];
      PredictedOfMore(world, env, cs[1..], last, side);
    }
  }

  lemma PredictedOfOne(world: World, env: Env, c: Child, side: Side)
    requires Resolvable(world, env, c.operand, side)
    ensures PredictedOf(world, env, [c], side) == multiset(Predicted(world, env, c.operand, side))
  {
    assert [c][1..] == [];
    assert PredictedOf(world, env, [], side) == multiset{};
  }

  lemma OnlyIfPredicted(world: World, env: Env, op: Operand, side: Side)
    requires Resolvable(world, env, op, side) && op.OnlyIf?
    ensures forall k | 0 <= k < |Children(op)| :: Resolvable(world, env, Children(op)[k].operand, side)
    ensures multiset(PredictedAll(world, env, op.require, side)) + multiset(Predicted(world, env, op.inner, side))
         == PredictedOf(world, env, Children(op), side)
  {
    RequirementsPredicted(world, env, op.require, Requirements(op), side);
    PredictedOfMore(world, env, Requirements(op), Child(AtOperand, op.inner), side);
  }

  lemma PairPredicted(world: World, env: Env, left: Child, right: Child, side: Side)
    requires Resolvable(world, env, left.operand, side) && Resolvable(world, env, right.operand, side)
    ensures PredictedOf(world, env, [left, right], side)
         == multiset(Predicted(world, env, left.operand, side)) + multiset(Predicted(world, env, right.operand, side))
  {
    PredictedOfOne(world, env, left, side);
    PredictedOfMore(world, env, [left], right, side);
    assert [left] + [right] == [left, right];
  }

  function OwnNode(node: Option<NodeSpec>): seq<NodeSpec> {
    if node.Some? then [node.value] else []
  }

  lemma PairUnfolds(world: World, env: Env, op: Operand, side: Side)
    requires (op.Ratio? || op.Difference?) && Resolvable(world, env, op, side)
    ensures Resolvable(world, env, op.left, side) && Resolvable(world, env, op.right, side)
    ensures Predicted(world, env, op, side)
         == OwnNode(NodeOf(world, env, op, side))
            + Predicted(world, env, op.left, side) + Predicted(world, env, op.right, side)
  {
    hide NodeOf;
  }

  lemma WrapUnfolds(world: World, env: Env, op: Operand, side: Side)
    requires Wraps(op) && Resolvable(world, env, op, side)
    ensures Resolvable(world, env, op.inner, side)
    ensures Predicted(world, env, op, side)
         == OwnNode(NodeOf(world, env, op, side)) + Predicted(world, env, op.inner, side)
  {
    hide NodeOf;
  }

  lemma OnlyIfUnfolds(world: World, env: Env, op: Operand, side: Side)
    requires op.OnlyIf? && Resolvable(world, env, op, side)
    ensures Resolvable(world, env, op.inner, side) && AllResolvable(world, env, op.require, side)
    ensures Predicted(world, env, op, side)
         == OwnNode(NodeOf(world, env, op, side))
            + Predicted(world, env, op.inner, side) + PredictedAll(world, env, op.require, side)
  {
    hide NodeOf, PredictedAll;
  }

  lemma LeafUnfolds(world: World, env: Env, op: Operand, side: Side)
    requires Children(op) == [] && !op.OverLeg? && !op.OnlyIf? && Resolvable(world, env, op, side)
    ensures Predicted(world, env, op, side) == OwnNode(NodeOf(world, env, op, side))
  {
    hide NodeOf;
  }

  /** What an operand's resolution predicts, in the order of evaluation: only the requirements of a
      conditional operand trade places with the operand they guard. */
  lemma PredictedInOrder(world: World, env: Env, op: Operand, side: Side)
    requires Resolvable(world, env, op, side) && !op.OverLeg?
    requires forall k | 0 <= k < |Children(op)| :: Resolvable(world, env, Children(op)[k].operand, side)
    ensures multiset(Predicted(world, env, op, side))
         == Own(NodeOf(world, env, op, side)) + PredictedOf(world, env, Children(op), side)
  {
    hide NodeOf, Resolvable, Predicted, PredictedOf, Own;
    if op.OnlyIf? {
      OnlyIfInOrder(world, env, op, side);
    } else if op.Ratio? || op.Difference? {
      PairInOrder(world, env, op, side);
    } else if Wraps(op) {
      WrapInOrder(world, env, op, side);
    } else {
      LeafInOrder(world, env, op, side);
    }
  }

  lemma WrapChild(op: Operand)
    requires Wraps(op)
    ensures |Children(op)| == 1 && Children(op)[0].operand == op.inner && Children(op) == [Children(op)[0]]
  {
  }

  lemma WrapInOrder(world: World, env: Env, op: Operand, side: Side)
    requires Wraps(op) && Resolvable(world, env, op, side)
    requires forall k | 0 <= k < |Children(op)| :: Resolvable(world, env, Children(op)[k].operand, side)
    ensures multiset(Predicted(world, env, op, side))
         == Own(NodeOf(world, env, op, side)) + PredictedOf(world, env, Children(op), side)
  {
    hide NodeOf, Resolvable, Predicted, PredictedOf, OwnNode, Own, Children;
    WrapUnfolds(world, env, op, side);
    OwnMembers(NodeOf(world, env, op, side));
    WrapChild(op);
    PredictedOfOne(world, env, Children(op)[0], side);
  }

  lemma LeafInOrder(world: World, env: Env, op: Operand, side: Side)
    requires Children(op) == [] && !op.OverLeg? && !op.OnlyIf? && Resolvable(world, env, op, side)
    ensures multiset(Predicted(world, env, op, side))
         == Own(NodeOf(world, env, op, side)) + PredictedOf(world, env, [], side)
  {
    hide NodeOf, Resolvable, Predicted, OwnNode, Own;
    LeafUnfolds(world, env, op, side);
    OwnMembers(NodeOf(world, env, op, side));
  }

  lemma Members(a: seq<NodeSpec>, b: seq<NodeSpec>, c: seq<NodeSpec>)
    ensures multiset(a + b + c) == multiset(a) + multiset(b) + multiset(c)
  {
  }

  lemma OwnMembers(node: Option<NodeSpec>)
    ensures multiset(OwnNode(node)) == Own(node)
  {
  }

  lemma OnlyIfInOrder(world: World, env: Env, op: Operand, side: Side)
    requires op.OnlyIf? && Resolvable(world, env, op, side)
    requires forall k | 0 <= k < |Children(op)| :: Resolvable(world, env, Children(op)[k].operand, side)
    ensures multiset(Predicted(world, env, op, side))
         == Own(NodeOf(world, env, op, side)) + PredictedOf(world, env, Children(op), side)
  {
    hide NodeOf, Resolvable, Predicted, PredictedAll, PredictedOf, OwnNode, Own;
    OnlyIfUnfolds(world, env, op, side);
    OnlyIfPredicted(world, env, op, side);
    OwnMembers(NodeOf(world, env, op, side));
    Members(OwnNode(NodeOf(world, env, op, side)), Predicted(world, env, op.inner, side),
            PredictedAll(world, env, op.require, side));
  }

  lemma PairInOrder(world: World, env: Env, op: Operand, side: Side)
    requires (op.Ratio? || op.Difference?) && Resolvable(world, env, op, side)
    requires forall k | 0 <= k < |Children(op)| :: Resolvable(world, env, Children(op)[k].operand, side)
    ensures multiset(Predicted(world, env, op, side))
         == Own(NodeOf(world, env, op, side)) + PredictedOf(world, env, Children(op), side)
  {
    hide NodeOf, Resolvable, Predicted, PredictedOf, OwnNode, Own;
    PairUnfolds(world, env, op, side);
    PairPredicted(world, env, Child(AtLeft, op.left), Child(AtRight, op.right), side);
    OwnMembers(NodeOf(world, env, op, side));
    Members(OwnNode(NodeOf(world, env, op, side)), Predicted(world, env, op.left, side),
            Predicted(world, env, op.right, side));
  }

  lemma UsedOne(c: Computation)
    ensures Used([c]) == Own(c.identity) + Used(c.inputs)
  {
    assert [c][1..] == [];
  }

  /** Prediction completeness: on a run that misses every lookup an operand consumes no more than its
      resolution predicted, and exactly that when it has a value. */
  lemma {:induction false} OperandUsed(world: World, env: Env, ids: Identities, op: Operand, side: Side, path: Path)
    requires EnvSound(world, env) && Filled(world, env, ids, op, side, path)
    ensures var used := Used([ComputationOf(world, env, ids, op, side, path)]);
            var predicted := multiset(Predicted(world, env, op, side));
            used <= predicted && (Values(world, env, op, side).Value? ==> used == predicted)
    decreases op, 2
  {
    FilledResolves(world, env, ids, op, side, path);
    hide Values, Combined, Filled, EnvSound, Predicted, PredictedOf, Used, Resolvable, NodeOf, Own;
    var c := ComputationOf(world, env, ids, op, side, path);
    UsedOne(c);
    BlockedFails(world, env, op, side);
    IdentityFound(world, env, ids, op, side, path);
    ValuesCompose(world, env, ids, op, side, path);
    if op.OverLeg? {
      LegUsed(world, env, ids, op, side, path);
    } else {
      ChildrenResolvable(world, env, ids, op, side, path);
      PredictedInOrder(world, env, op, side);
      if !Blocked(world, env, op, side) {
        ChildrenUsed(world, env, ids, op, Children(op), side, path);
      }
    }
  }

  lemma FilledResolves(world: World, env: Env, ids: Identities, op: Operand, side: Side, path: Path)
    requires Filled(world, env, ids, op, side, path)
    ensures Resolvable(world, env, op, side)
  {
  }

  lemma BlockedFails(world: World, env: Env, op: Operand, side: Side)
    ensures Blocked(world, env, op, side) ==> Values(world, env, op, side).Raised?
  {
    hide Values, Blocked;
    ValuesCompose(world, env, NoIdentities, op, side, []);
  }

  lemma LegUsed(world: World, env: Env, ids: Identities, op: Operand, side: Side, path: Path)
    requires EnvSound(world, env) && Filled(world, env, ids, op, side, path) && op.OverLeg?
    ensures var used := Used(InputsOf(world, env, ids, op, side, path));
            var columns := multiset(ColumnNodes(env, Reads(op.shape, op.features, side)));
            used <= columns && (!Blocked(world, env, op, side) ==> used == columns)
    ensures multiset(Predicted(world, env, op, side))
         == Own(NodeOf(world, env, op, side)) + multiset(ColumnNodes(env, Reads(op.shape, op.features, side)))
  {
    ColumnsUsed(world, env, ids, Reads(op.shape, op.features, side), side);
  }

  lemma {:induction false} ColumnsUsed(world: World, env: Env, ids: Identities, fs: seq<Feature>, side: Side)
    requires EnvSound(world, env) && forall f | f in fs :: f.columnLabel in env.featureIds && ColumnFilled(env, ids, f)
    ensures Used(ColumnComputations(world, env, ids, fs, side)) == multiset(ColumnNodes(env, fs))
  {
    if |fs| > 0 {
      assert ColumnFilled(env, ids, fs[0]);
      EvalUnfolds(world, env, ids, FeatureValue(fs[0]), side, []);
      ColumnsUsed(world, env, ids, fs[1..], side);
    }
  }

  lemma {:induction false} ChildrenUsed(
    world: World, env: Env, ids: Identities, parent: Operand, cs: seq<Child>, side: Side, path: Path)
    requires EnvSound(world, env) && (forall c | c in cs :: c.operand < parent) && AllFilled(world, env, ids, cs, side, path)
    ensures forall k | 0 <= k < |cs| :: Resolvable(world, env, cs[k].operand, side)
    ensures var used := Used(ComputationsOf(world, env, ids, parent, cs, side, path));
            var predicted := PredictedOf(world, env, cs, side);
            used <= predicted && (ChildValues(world, env, cs, side).Value? ==> used == predicted)
    decreases parent, 0, |cs|
  {
    if |cs| > 0 {
      var c := ComputationOf(world, env, ids, cs[0].operand, side, path + [cs[0].step]);
      OperandUsed(world, env, ids, cs[0].operand, side, path + [cs[0].step]);
      UsedOne(c);
      ValuesCompose(world, env, ids, cs[0].operand, side, path + [cs[0].step]);
      ChildrenUsed(world, env, ids, parent, cs[1..], side, path);
    }
  }
}
