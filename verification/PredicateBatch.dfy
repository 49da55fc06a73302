/** A batch of variants over one market, each evaluating its own predicates under its own resolved
    identities, through one shared context. */
module PredicateBatch {
  import opened NodeProgram
  import opened NodeIdentity
  import opened EpisodeTables
  import opened Operands
  import opened OperandEvaluation
  import opened OperandIdentity
  import opened Predicates
  import opened Resolution
  import opened ComputationPrograms
  import opened OperandMemo
  import opened PredicateResolution
  import Context = EvaluationContext
  import Memo = MemoTheorems
  import Batch = RangeBatch

  // -- predicates are grounded and predicted ---------------------------------------------

  lemma {:induction false} GroundedAll(
    cs: seq<Computation>, denotes: NodeSpec -> Outcome<Datum>, top: Option<NodeSpec>)
    requires forall k | 0 <= k < |cs| :: Grounded([cs[k]], denotes, top)
    ensures Grounded(cs, denotes, top)
  {
    if |cs| > 0 {
      assert Grounded([cs[0]], denotes, top);
      GroundedAll(cs[1..], denotes, top);
    }
  }

  lemma ConditionRole(world: World, env: Env, c: Condition, side: Side, k: nat)
    requires (forall op | op in ConditionOperands(c) :: Resolvable(world, env, op, side)) && k < |ConditionOperands(c)|
    requires Resolvable(world, env, ConditionOperands(c)[k], side)
    ensures var node := NodeOf(world, env, ConditionOperands(c)[k], side);
            node.Some? ==>
              var upstream := ConditionUpstream(world, env, c, side);
              OperandRole(c, k) in upstream && upstream[OperandRole(c, k)] == node.value
  {
  }

  /** An operand's node is part of the node of its condition. */
  lemma ConditionBelow(world: World, env: Env, p: Predicate, side: Side, k: nat)
    requires p.Plain? && PredicateResolvable(world, env, p, side) && k < |ConditionOperands(ForSide(p, side))|
    requires Resolvable(world, env, ConditionOperands(ForSide(p, side))[k], side)
    ensures var node := NodeOf(world, env, ConditionOperands(ForSide(p, side))[k], side);
            node.Some? ==> node.value < PredicateNode(world, env, p, side)
  {
    var c := ForSide(p, side);
    var n := PredicateNode(world, env, p, side);
    ConditionRole(world, env, c, side, k);
    if OperandRole(c, k) in n.upstream {
      UpstreamBelow(n, OperandRole(c, k));
    }
  }

  lemma {:induction false} RuleGrounded(
    world: World, env: Env, identity: PredicateIdentity, p: Predicate, side: Side, top: Option<NodeSpec>)
    requires EnvSound(world, env) && PredicateGuarded(p, side) && RuleFilled(world, env, identity, p, side)
    requires top.Some? ==> PredicateNode(world, env, p, side) < top.value
    ensures Grounded([PredicateComputation(world, env, identity, p, side)], Meaning(world), top)
    decreases p
  {
    var c := PredicateComputation(world, env, identity, p, side);
    MaskComposes(world, env, identity, p, side);
    RuleDenoted(world, PredicateSite(env, p, side));
    match p {
      case Plain(_, _) =>
        ConditionGrounded(world, env, identity, p, side);
      case State(_, _) =>
      case Temporal(_, _, of) =>
        UpstreamBelow(PredicateNode(world, env, p, side), Of);
        RuleGrounded(world, env, InnerIdentity(identity), of, side, identity.local);
    }
    GroundedOne(c, Meaning(world), top);
  }

  lemma ConditionGrounded(world: World, env: Env, identity: PredicateIdentity, p: Predicate, side: Side)
    requires p.Plain? && EnvSound(world, env) && PredicateGuarded(p, side) && RuleFilled(world, env, identity, p, side)
    ensures Grounded(ConditionInputs(world, env, identity.ids, ForSide(p, side), side), Meaning(world), identity.local)
  {
    var c := ForSide(p, side);
    var ops := ConditionOperands(c);
    var cs := ConditionInputs(world, env, identity.ids, c, side);
    forall k | 0 <= k < |cs| ensures Grounded([cs[k]], Meaning(world), identity.local) {
      assert ops[k] in ops;
      ConditionBelow(world, env, p, side, k);
      OperandGrounded(world, env, identity.ids, ops[k], side, [OperandStep(c, k)], identity.local);
    }
    GroundedAll(cs, Meaning(world), identity.local);
  }

  lemma {:induction false} OperandsUsed(
    world: World, env: Env, ids: Identities, ops: seq<Operand>, side: Side, cs: seq<Computation>, paths: seq<Path>)
    requires EnvSound(world, env) && |cs| == |ops| == |paths|
    requires forall k | 0 <= k < |ops| ::
               && cs[k] == ComputationOf(world, env, ids, ops[k], side, paths[k])
               && Resolvable(world, env, ops[k], side) && Filled(world, env, ids, ops[k], side, paths[k])
    ensures var predicted := multiset(PredictedOperands(world, env, ops, side));
            Used(cs) <= predicted && (EvalAll(cs).Value? ==> Used(cs) == predicted)
  {
    hide Filled, Resolvable, EnvSound, Predicted, Values, Combined, ComputationOf;
    if |cs| > 0 {
      OperandUsed(world, env, ids, ops[0], side, paths[0]);
      UsedOne(cs[0]);
      ValuesCompose(world, env, ids, ops[0], side, paths[0]);
      OperandsUsed(world, env, ids, ops[1..], side, cs[1..], paths[1..]);
    }
  }

  /** Prediction completeness for predicates. */
  lemma {:induction false} RuleUsed(world: World, env: Env, identity: PredicateIdentity, p: Predicate, side: Side)
    requires EnvSound(world, env) && RuleFilled(world, env, identity, p, side)
    ensures var used := Used([PredicateComputation(world, env, identity, p, side)]);
            var predicted := multiset(PredictedRule(world, env, p, side));
            used <= predicted && (MaskOf(world, env, p, side).Value? ==> used == predicted)
    decreases p
  {
    hide Filled, Resolvable, PredicateNode, MaskOf, NodeOf, EnvSound;
    if p.Plain? {
      PlainUsed(world, env, identity, p, side);
    } else {
      UsedOne(PredicateComputation(world, env, identity, p, side));
      MaskComposes(world, env, identity, p, side);
      if p.Temporal? {
        RuleUsed(world, env, InnerIdentity(identity), p.of, side);
      }
    }
  }

  lemma PlainUsed(world: World, env: Env, identity: PredicateIdentity, p: Predicate, side: Side)
    requires p.Plain? && EnvSound(world, env) && RuleFilled(world, env, identity, p, side)
    ensures var used := Used([PredicateComputation(world, env, identity, p, side)]);
            var predicted := multiset(PredictedRule(world, env, p, side));
            used <= predicted && (MaskOf(world, env, p, side).Value? ==> used == predicted)
  {
    hide Filled, Resolvable, PredicateNode, MaskOf, NodeOf, EnvSound, Used, EvalAll, PredictedOperands;
    var c := PredicateComputation(world, env, identity, p, side);
    UsedOne(c);
    MaskComposes(world, env, identity, p, side);
    var condition := ForSide(p, side);
    var ops := ConditionOperands(condition);
    var paths := seq(|ops|, i requires 0 <= i < |ops| => [OperandStep(condition, i)]);
    OperandsResolvable(world, env, condition, side);
    OperandsUsed(world, env, identity.ids, ops, side, c.inputs, paths);
    InputsCompose(world, env, identity.ids, ops, side, c.inputs, paths);
  }

  // -- every failure of a node is a refusal -------------------------------------------------

  ghost predicate Refuses(r: Outcome<Datum>) {
    r.Raised? ==> exists message :: r == Refused(message)
  }

  lemma {:induction false} OperandRefuses(world: World, env: Env, op: Operand, side: Side)
    ensures Refuses(Values(world, env, op, side))
    decreases op, 1
  {
    ValuesCompose(world, env, NoIdentities, op, side, []);
    var cs := Inputs(world, env, op, side);
    if op.OverLeg? && !Blocked(world, env, op, side) {
      FeatureInputs(Reads(op.shape, op.features, side));
      forall k | 0 <= k < |cs| ensures Refuses(Values(world, env, cs[k].operand, side)) {
        FeatureRefuses(world, env, Reads(op.shape, op.features, side)[k], side);
      }
    } else {
      forall k | 0 <= k < |cs| ensures Refuses(Values(world, env, cs[k].operand, side)) {
        assert cs[k] in Children(op);
        OperandRefuses(world, env, cs[k].operand, side);
      }
    }
    ChildrenRefuse(world, env, cs, side);
    CombinedRefuses(world, env, op, side);
  }

  lemma FeatureRefuses(world: World, env: Env, f: Feature, side: Side)
    ensures Refuses(Values(world, env, FeatureValue(f), side))
  {
    ValuesCompose(world, env, NoIdentities, FeatureValue(f), side, []);
  }

  lemma CombinedRefuses(world: World, env: Env, op: Operand, side: Side)
    ensures forall vs :: Refuses(Combined(world, env, op, side, vs))
  {
  }

  lemma {:induction false} ChildrenRefuse(world: World, env: Env, cs: seq<Child>, side: Side)
    requires forall k | 0 <= k < |cs| :: Refuses(Values(world, env, cs[k].operand, side))
    ensures var r := ChildValues(world, env, cs, side);
            r.Raised? ==> exists message :: Raised(r.failure) == Refused(message)
  {
    if |cs| > 0 {
      assert Refuses(Values(world, env, cs[0].operand, side));
      ChildrenRefuse(world, env, cs[1..], side);
    }
  }

  lemma {:induction false} RuleRefuses(world: World, env: Env, p: Predicate, side: Side)
    ensures Refuses(MaskOf(world, env, p, side))
    decreases p
  {
    MaskComposes(world, env, NoIdentity, p, side);
    match p
    case Plain(_, _) =>
      var ops := ConditionOperands(ForSide(p, side));
      OperandChildrenAt(ops);
      forall k | 0 <= k < |ops| ensures Refuses(Values(world, env, OperandChildren(ops)[k].operand, side)) {
        OperandRefuses(world, env, ops[k], side);
      }
      ChildrenRefuse(world, env, OperandChildren(ops), side);
    case State(_, _) =>
    case Temporal(_, _, of) => RuleRefuses(world, env, of, side);
  }

  lemma NodeRefuses(world: World, n: NodeSpec)
    ensures Refuses(Denotes(world, n))
  {
    forall s | StandsFor(world, s, n) ensures Refuses(ValueAt(world, s)) {
      OperandRefuses(world, s.env, s.op, s.side);
    }
    forall s | RuleStandsFor(world, s, n) ensures Refuses(PredicateMask(world, s)) {
      RuleRefuses(world, s.env, s.rule, s.side);
    }
  }

  // -- the batch -------------------------------------------------------------------------------

  /** One predicate of a variant on one side, with the identity its resolution produced. */
  datatype Check = Check(identity: PredicateIdentity, rule: Predicate, side: Side)

  /** A variant under its own plan and bundle: its checks in order, and what it makes of the masks. */
  datatype Job = Job(variantId: string, env: Env, checks: seq<Check>, verdict: seq<Datum> -> Outcome<Datum>)

  ghost predicate CheckReady(world: World, env: Env, check: Check) {
    PredicateGuarded(check.rule, check.side) && RuleFilled(world, env, check.identity, check.rule, check.side)
  }

  ghost predicate JobReady(world: World, job: Job) {
    EnvSound(world, job.env) && forall k | 0 <= k < |job.checks| :: CheckReady(world, job.env, job.checks[k])
  }

  function JobInputs(world: World, env: Env, checks: seq<Check>): seq<Computation> {
    if |checks| == 0 then [] else
    [PredicateComputation(world, env, checks[0].identity, checks[0].rule, checks[0].side)]
    + JobInputs(world, env, checks[1..])
  }

  function JobPrediction(world: World, env: Env, checks: seq<Check>): multiset<NodeSpec>
    requires forall k | 0 <= k < |checks| :: PredicateResolvable(world, env, checks[k].rule, checks[k].side)
  {
    if |checks| == 0 then multiset{} else
    multiset(PredictedRule(world, env, checks[0].rule, checks[0].side)) + JobPrediction(world, env, checks[1..])
  }

  /** The masks of the checks without any memo, up to the first failure. */
  function Masks(world: World, env: Env, checks: seq<Check>): Outcome<seq<Datum>> {
    if |checks| == 0 then Value([]) else
    match MaskOf(world, env, checks[0].rule, checks[0].side)
    case Raised(failure) => Raised(failure)
    case Value(v) =>
      match Masks(world, env, checks[1..])
      case Raised(failure) => Raised(failure)
      case Value(vs) => Value([v] + vs)
  }

  function Verdict(world: World, job: Job): Outcome<Datum> {
    match Masks(world, job.env, job.checks)
    case Raised(failure) => Raised(failure)
    case Value(vs) => job.verdict(vs)
  }

  /** The stream of plain, unmemoized evaluations, one variant after the other. */
  function Plainly(world: World, jobs: seq<Job>): Batch.Stream<Datum> {
    if |jobs| == 0 then Batch.Stream([], None) else
    var last := jobs[|jobs| - 1];
    Batch.Deliver(Plainly(world, jobs[..|jobs| - 1]), last.variantId, Verdict(world, last))
  }

  lemma {:induction false} JobMeaning(world: World, env: Env, checks: seq<Check>)
    requires EnvSound(world, env) && forall k | 0 <= k < |checks| :: CheckReady(world, env, checks[k])
    ensures EvalAll(JobInputs(world, env, checks)) == Masks(world, env, checks)
    ensures Grounded(JobInputs(world, env, checks), Meaning(world), None)
    ensures forall k | 0 <= k < |checks| :: PredicateResolvable(world, env, checks[k].rule, checks[k].side)
    ensures Used(JobInputs(world, env, checks)) <= JobPrediction(world, env, checks)
  {
    hide PredicateGuarded, EnvSound, PredictedRule, PredicateComputation;
    if |checks| > 0 {
      var first := checks[0];
      assert CheckReady(world, env, first);
      var c := PredicateComputation(world, env, first.identity, first.rule, first.side);
      MaskComposes(world, env, first.identity, first.rule, first.side);
      RuleGrounded(world, env, first.identity, first.rule, first.side, None);
      RuleUsed(world, env, first.identity, first.rule, first.side);
      UsedOne(c);
      forall k | 0 <= k < |checks[1..]| ensures CheckReady(world, env, checks[1..][k]) {
        assert checks[1..][k] == checks[k + 1];
      }
      JobMeaning(world, env, checks[1..]);
    }
  }

  function JobCode(world: World, job: Job): Code {
    InputsThen(JobInputs(world, job.env, job.checks), [], job.verdict)
  }

  ghost function JobVariant(world: World, job: Job): Batch.Variant<NodeSpec, Datum>
    requires JobReady(world, job)
  {
    Batch.Variant(job.variantId, JobCode(world, job), Steps(JobInputs(world, job.env, job.checks)),
      JobPrediction(world, job.env, job.checks))
  }

  /** A job is a sound program, gives its verdict, and consumes no more than predicted. */
  lemma JobIsSound(world: World, job: Job)
    requires JobReady(world, job)
    ensures var v := JobVariant(world, job);
            && Bounded(v.program, v.bound) && Sound(v.program, v.bound, Meaning(world), {})
            && Direct(v.program, v.bound) == Verdict(world, job)
            && Consumed(v.program, v.bound) <= v.prediction
  {
    var cs := JobInputs(world, job.env, job.checks);
    JobMeaning(world, job.env, job.checks);
    CodeBounded(cs, [], job.verdict);
    CodeMeaning(cs, [], job.verdict);
    CodeSound(cs, [], job.verdict, Meaning(world), None, {});
    var masks := Masks(world, job.env, job.checks);
    assert masks.Value? ==> [] + masks.value == masks.value;
  }

  /** Every refusal of an operand or predicate is an engine error and can be remembered. */
  lemma JobsAreCovered(world: World, settings: Context.Settings, used: multiset<NodeSpec>)
    ensures Memo.Rememberable(settings, Meaning(world), used)
  {
    forall n | n in used && Denotes(world, n).Raised?
      ensures Context.Capturable(settings, Denotes(world, n).failure)
    {
      NodeRefuses(world, n);
      Context.CapturableExactly(settings, Denotes(world, n).failure);
    }
  }

  lemma {:induction false} SinglesArePlain(
    world: World, settings: Context.Settings, jobs: seq<Job>, variants: seq<Batch.Variant<NodeSpec, Datum>>)
    requires |variants| == |jobs|
    requires forall k | 0 <= k < |jobs| :: JobReady(world, jobs[k]) && variants[k] == JobVariant(world, jobs[k])
    requires forall v | v in variants :: Bounded(v.program, v.bound)
    ensures Batch.Singles(settings, variants) == Plainly(world, jobs)
  {
    hide JobCode, Verdict, JobReady, JobInputs, JobPrediction, Batch.Alone, Steps;
    if |jobs| > 0 {
      var last := |jobs| - 1;
      JobIsSound(world, jobs[last]);
      Batch.AloneIsDirect(settings, variants[last], Meaning(world));
      SinglesArePlain(world, settings, jobs[..last], variants[..last]);
    }
  }

  function JobIds(jobs: seq<Job>): seq<string> {
    seq(|jobs|, k requires 0 <= k < |jobs| => jobs[k].variantId)
  }

  function Verdicts(world: World, jobs: seq<Job>): seq<Outcome<Datum>> {
    seq(|jobs|, k requires 0 <= k < |jobs| => Verdict(world, jobs[k]))
  }

  lemma VerdictsAreDirect(world: World, jobs: seq<Job>, variants: seq<Batch.Variant<NodeSpec, Datum>>)
    requires |variants| == |jobs|
    requires forall k | 0 <= k < |jobs| :: JobReady(world, jobs[k]) && variants[k] == JobVariant(world, jobs[k])
    requires forall v | v in variants :: Bounded(v.program, v.bound)
    ensures Batch.Ids(variants) == JobIds(jobs) && Batch.Directs(variants) == Verdicts(world, jobs)
  {
    hide JobCode, Verdict, JobReady, JobInputs, JobPrediction, Steps;
    forall k | 0 <= k < |jobs| ensures Batch.Directs(variants)[k] == Verdicts(world, jobs)[k] {
      JobIsSound(world, jobs[k]);
    }
  }

  /** A whole batch of predicates: whatever the variants share through equal identities, each one is
      delivered exactly what evaluating its own predicates alone and unmemoized gives, and with the
      predictions its resolutions made no node is computed twice and nothing is retained. The stream reports
      the verdicts in the variants' order up to the first failure that is no engine error. */
  method StreamJobs(
    ghost world: World, context: Context.Context<NodeSpec, Datum>, ghost jobs: seq<Job>,
    variants: seq<Batch.Variant<NodeSpec, Datum>>)
    returns (stream: Batch.Stream<Datum>)
    requires context.State() == Context.Fresh()
    requires |variants| == |jobs|
    requires forall k | 0 <= k < |jobs| :: JobReady(world, jobs[k]) && variants[k] == JobVariant(world, jobs[k])
    modifies context
    ensures stream == Plainly(world, jobs)
    ensures Batch.Streams(JobIds(jobs), Verdicts(world, jobs), stream)
    ensures stream.propagated.None? ==> context.refcounts == map[] && context.memo == map[]
    ensures context.settings.memoEnabled ==>
              context.stats.unforeseen == 0 && forall n :: context.stats.computeCalls[n] <= 1
  {
    ghost var settings := context.settings;
    forall v | v in variants ensures SoundVariant(world, v) {
      var k :| 0 <= k < |variants| && variants[k] == v;
      JobIsSound(world, jobs[k]);
    }
    assert forall v | v in variants :: SoundVariant(world, v);
    forall v | v in variants ensures Memo.Rememberable(settings, Meaning(world), Consumed(v.program, v.bound)) {
      JobsAreCovered(world, settings, Consumed(v.program, v.bound));
    }
    SinglesArePlain(world, settings, jobs, variants);
    VerdictsAreDirect(world, jobs, variants);
    ghost var calls;
    stream, calls := Batch.StreamVariants(context, variants, Meaning(world));
  }

  ghost predicate SoundVariant(world: World, v: Batch.Variant<NodeSpec, Datum>) {
    && Bounded(v.program, v.bound) && Sound(v.program, v.bound, Meaning(world), {})
    && Consumed(v.program, v.bound) <= v.prediction
  }
}
