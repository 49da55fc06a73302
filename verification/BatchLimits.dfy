/** What the shared memo does where identities are too weak: an operand outside the guard hands its refusal
    to another variant. */
module BatchLimits {
  import opened NodeProgram
  import opened NodeIdentity
  import opened EpisodeTables
  import opened Operands
  import opened OperandEvaluation
  import opened OperandIdentity
  import opened Resolution
  import opened ComputationPrograms
  import opened OperandMemo
  import Context = EvaluationContext
  import Memo = MemoTheorems
  import Batch = RangeBatch

  /** One operand as a root: its node is consumed, and its outcome delivered. */
  function OperandCode(world: World, ids: Identities, s: Site): Code {
    InputsThen([ComputationOf(world, s.env, ids, s.op, s.side, [])], [], Delivered)
  }

  function Delivered(vs: seq<Datum>): Outcome<Datum> {
    if |vs| == 1 then Value(vs[0]) else Refused("one operand")
  }

  ghost function OperandVariant(world: World, ids: Identities, s: Site, id: string, prediction: multiset<NodeSpec>):
    Batch.Variant<NodeSpec, Datum>
  {
    Batch.Variant(id, OperandCode(world, ids, s), Steps([ComputationOf(world, s.env, ids, s.op, s.side, [])]), prediction)
  }

  ghost predicate Ready(world: World, ids: Identities, s: Site) {
    EnvSound(world, s.env) && Filled(world, s.env, ids, s.op, s.side, [])
  }

  /** An operand that passes the guard is delivered its own value when it is evaluated alone. */
  lemma GuardedAlone(
    settings: Context.Settings, world: World, ids: Identities, s: Site, id: string, prediction: multiset<NodeSpec>)
    requires Ready(world, ids, s) && Guarded(s.op, s.side)
    ensures var v := OperandVariant(world, ids, s, id, prediction);
            && Bounded(v.program, v.bound) && Batch.Alone(settings, v) == ValueAt(world, s)
  {
    hide Guarded, Batch.Alone, Meaning;
    var c := ComputationOf(world, s.env, ids, s.op, s.side, []);
    var v := OperandVariant(world, ids, s, id, prediction);
    CodeBounded([c], [], Delivered);
    OperandGrounded(world, s.env, ids, s.op, s.side, [], None);
    CodeSound([c], [], Delivered, Meaning(world), None, {});
    CodeMeaning([c], [], Delivered);
    ValuesCompose(world, s.env, ids, s.op, s.side, []);
    OneDelivered(c);
    Batch.AloneIsDirect(settings, v, Meaning(world));
  }

  lemma OneDelivered(c: Computation)
    ensures Finish(EvalAll([c]), [], Delivered) == Eval(c)
  {
    hide Eval;
    assert [c][1..] == [] && EvalAll([]) == Value([]);
    if Eval(c).Value? {
      assert EvalAll([c]) == Value([Eval(c).value] + []);
      assert [] + ([Eval(c).value] + []) == [Eval(c).value];
    }
  }

  /** The first root computes a failure under `n` while a later root still expects the node: that root is
      answered with the failure, whatever its own computation would give. */
  lemma FailureIsShared(
    settings: Context.Settings, n: NodeSpec, failure: Failure, first: Code, second: Code, k: nat, m: nat,
    a: multiset<NodeSpec>, b: multiset<NodeSpec>)
    requires settings.memoEnabled && Context.Capturable(settings, failure) && n in a && n in b
    requires Bounded(first, k) && Bounded(second, m) && first.Call? && second.Call?
    requires first.identity == second.identity == Some(n) && first.compute == Done(Raised(failure))
    requires first.next(Raised(failure)) == second.next(Raised(failure)) == Done(Raised(failure))
    ensures var start := Context.Plan(Context.Fresh<NodeSpec, Datum>(), [a, b]);
            var one := Context.RunRoot(settings, start, 0, first, k);
            var two := Context.RunRoot(settings, one.state, 1, second, m);
            one.result == Raised(failure) && two.result == Raised(failure)
  {
    var start := Context.Plan(Context.Fresh<NodeSpec, Datum>(), [a, b]);
    PlannedTwice(n, a, b);
    var one := Context.RunRoot(settings, start, 0, first, k);
    FirstStores(settings, start, n, failure, first, k, a, b);
    SecondHits(settings, one.state, n, failure, second, m);
  }

  lemma PlannedTwice(n: NodeSpec, a: multiset<NodeSpec>, b: multiset<NodeSpec>)
    ensures var start := Context.Plan(Context.Fresh<NodeSpec, Datum>(), [a, b]);
            && start.pending == Some([a, b]) && start.memo == map[] && start.active.None?
            && Context.Ref(start.refs, n) == a[n] + b[n]
  {
    assert [a, b][..1] == [a] && [a][..0] == [];
    assert Context.Total([a]) == a && Context.Total([a, b]) == a + b;
  }

  lemma FirstStores(
    settings: Context.Settings, start: Context.Snapshot<NodeSpec, Datum>, n: NodeSpec, failure: Failure, first: Code,
    k: nat, a: multiset<NodeSpec>, b: multiset<NodeSpec>)
    requires settings.memoEnabled && Context.Capturable(settings, failure) && n in a && n in b
    requires Bounded(first, k) && first.Call? && first.identity == Some(n) && first.compute == Done(Raised(failure))
    requires first.next(Raised(failure)) == Done(Raised(failure))
    requires start.pending == Some([a, b]) && start.memo == map[] && start.active.None?
    requires Context.Ref(start.refs, n) == a[n] + b[n]
    ensures var one := Context.RunRoot(settings, start, 0, first, k);
            && one.result == Raised(failure) && one.state.active.None?
            && n in one.state.memo && one.state.memo[n] == Context.StoredFailure(Context.RecordOf(failure))
  {
    hide Context.EndRoot, Context.Memoized;
    var active := start.(active := Some(0));
    FailureStored(settings, active, n, failure, k - 1, a, b);
    RootOfOne(settings, active, n, first, k, failure);
    EndKeeps(Context.Memoized(settings, active, n, first.compute, k - 1).state, n, a, b);
  }

  lemma FailureStored(
    settings: Context.Settings, active: Context.Snapshot<NodeSpec, Datum>, n: NodeSpec, failure: Failure, k: nat,
    a: multiset<NodeSpec>, b: multiset<NodeSpec>)
    requires settings.memoEnabled && Context.Capturable(settings, failure) && n in a && n in b
    requires active.pending == Some([a, b]) && active.memo == map[] && active.active == Some(0)
    requires Context.Ref(active.refs, n) == a[n] + b[n]
    ensures var node := Context.Memoized(settings, active, n, Done(Raised(failure)), k);
            && node.result == Raised(failure) && Context.Ref(node.state.refs, n) == a[n] + b[n] - 1
            && node.state.pending == Some([a[n := a[n] - 1], b])
            && n in node.state.memo && node.state.memo[n] == Context.StoredFailure(Context.RecordOf(failure))
  {
    var code: Code := Done(Raised(failure));
    assert Context.Foreseen(active, n);
    var (consumed, remaining) := Context.Consume(active, n);
    assert remaining == a[n] + b[n] - 1 > 0;
    var started := Context.Computed(consumed, n);
    var ran := Context.Exec(settings, started, code, k);
    assert ran.result == Raised(failure) && ran.state == started;
    assert [a, b][0 := a[n := a[n] - 1]] == [a[n := a[n] - 1], b];
  }

  /** A root that consumes one node and delivers its failure. */
  lemma RootOfOne(
    settings: Context.Settings, active: Context.Snapshot<NodeSpec, Datum>, n: NodeSpec, code: Code, k: nat, failure: Failure)
    requires Bounded(code, k) && code.Call? && code.identity == Some(n)
    requires Context.Memoized(settings, active, n, code.compute, k - 1).result == Raised(failure)
    requires code.next(Raised(failure)) == Done(Raised(failure))
    ensures var ran := Context.Exec(settings, active, code, k);
            && ran.result == Raised(failure)
            && ran.state == Context.Memoized(settings, active, n, code.compute, k - 1).state
  {
    hide Context.Memoized;
    var node := Context.ComputeThrough(settings, active, Some(n), code.compute, k - 1);
    assert code.next(node.result) == Done(Raised(failure));
    var rest := Context.Exec(settings, node.state, code.next(node.result), k - 1);
    assert rest.result == Raised(failure) && rest.state == node.state;
  }

  /** Closing the first root keeps what the second one still expects. */
  lemma EndKeeps(s: Context.Snapshot<NodeSpec, Datum>, n: NodeSpec, a: multiset<NodeSpec>, b: multiset<NodeSpec>)
    requires n in a && n in b && n in s.memo && Context.Ref(s.refs, n) == a[n] + b[n] - 1
    requires s.pending == Some([a[n := a[n] - 1], b])
    ensures var ended := Context.EndRoot(s, 0);
            ended.active.None? && n in ended.memo && ended.memo[n] == s.memo[n]
  {
    assert s.pending.value[0][n] == a[n] - 1;
  }

  lemma SecondHits(
    settings: Context.Settings, s: Context.Snapshot<NodeSpec, Datum>, n: NodeSpec, failure: Failure, second: Code, m: nat)
    requires Context.Capturable(settings, failure) && s.active.None?
    requires n in s.memo && s.memo[n] == Context.StoredFailure(Context.RecordOf(failure))
    requires Bounded(second, m) && second.Call? && second.identity == Some(n)
    requires second.next(Raised(failure)) == Done(Raised(failure))
    ensures Context.RunRoot(settings, s, 1, second, m).result == Raised(failure)
  {
    hide Context.EndRoot, Context.Consume, Context.Hit;
    var active := s.(active := Some(1));
    assert Context.EntryOutcome(settings, active.memo[n]) == Raised(failure);
    RootOfOne(settings, active, n, second, m, failure);
  }

  /** Why the guard is needed in the batch. `b` is refused for a feature its side never reads, `a` is the same
      segment without that feature: with `b` in front, the shared memo delivers its refusal to `a`, which
      evaluated alone has its own outcome. */
  lemma UnguardedRefusalIsShared(
    settings: Context.Settings, world: World, a: Site, b: Site, ids: Identities, ids': Identities,
    planA: multiset<NodeSpec>, planB: multiset<NodeSpec>)
    requires settings.memoEnabled && Ready(world, ids, a) && Ready(world, ids', b)
    requires Guarded(a.op, a.side) && a.op.OverLeg? && b.op.OverLeg? && Blocked(world, b.env, b.op, b.side)
    requires var n := NodeOf(world, a.env, a.op, a.side);
             n.Some? && NodeOf(world, b.env, b.op, b.side) == n && n.value in planA && n.value in planB
    ensures var first, second := OperandVariant(world, ids', b, "b", planB), OperandVariant(world, ids, a, "a", planA);
            && Bounded(first.program, first.bound) && Bounded(second.program, second.bound)
            && Batch.Alone(settings, second) == ValueAt(world, a)
            && ValueAt(world, b).Raised?
            && var start := Context.Plan(Context.Fresh<NodeSpec, Datum>(), [planB, planA]);
               var one := Context.RunRoot(settings, start, 0, first.program, first.bound);
               && one.result == ValueAt(world, b)
               && Context.RunRoot(settings, one.state, 1, second.program, second.bound).result == ValueAt(world, b)
  {
    hide Guarded, Batch.Alone, EnvSound, Context.RunRoot, Combined;
    GuardedAlone(settings, world, ids, a, "a", planA);
    IdentityFound(world, a.env, ids, a.op, a.side, []);
    IdentityFound(world, b.env, ids', b.op, b.side, []);
    var c, d := ComputationOf(world, a.env, ids, a.op, a.side, []), ComputationOf(world, b.env, ids', b.op, b.side, []);
    CodeBounded([c], [], Delivered);
    CodeBounded([d], [], Delivered);
    BlockedRefuses(world, ids', b);
    var refusal := ValueAt(world, b).failure;
    Context.CapturableExactly(settings, refusal);
    var first, second := OperandVariant(world, ids', b, "b", planB), OperandVariant(world, ids, a, "a", planA);
    assert first.program == Call(d.identity, Body(d), r => Continue(r, [d][1..], [], Delivered));
    assert second.program == Call(c.identity, Body(c), r => Continue(r, [c][1..], [], Delivered));
    FailureIsShared(settings, c.identity.value, refusal, first.program, second.program, first.bound, second.bound,
                    planB, planA);
  }

  lemma BlockedRefuses(world: World, ids: Identities, s: Site)
    requires s.op.OverLeg? && Blocked(world, s.env, s.op, s.side)
    ensures var value := ValueAt(world, s);
            && value.Raised? && value.failure.payload.Some? && value.failure.text == value.failure.payload.value.message
            && Body(ComputationOf(world, s.env, ids, s.op, s.side, [])) == Done(Raised(value.failure))
  {
    ValuesCompose(world, s.env, ids, s.op, s.side, []);
  }

  /** The identities a resolution finds for either segment of the tiny market. */
  ghost function TinyIds(n: NodeSpec): Identities {
    Identities(map["fast" := ColumnNode(Indicator("fast"))], map[], map[[] := n])
  }

  lemma TinyReady(other: Feature, n: NodeSpec)
    requires var s := TinySite(other); NodeOf(TinyWorld(), s.env, s.op, s.side) == Some(n)
    ensures Ready(TinyWorld(), TinyIds(n), TinySite(other))
  {
    hide NodeOf;
    TinyIsPlanned(other);
    var s, ids := TinySite(other), TinyIds(n);
    assert Children(s.op) == [];
    assert Found(ids, s.op, []) == Some(n);
    assert Reads(s.op.shape, s.op.features, s.side) == [Feature("fast", true, 1, Some(1))];
    assert "fast" != "slow";
    assert ColumnOf(s.env, Feature("fast", true, 1, Some(1))) == ColumnNode(Indicator("fast"));
    assert ColumnFilled(s.env, ids, Feature("fast", true, 1, Some(1)));
  }

  /** Two variants of one batch, alike but for a feature the side never reads: alone the second one is
      evaluated, behind the first one it is refused. */
  lemma BatchIsNotItsSingles(settings: Context.Settings)
    requires settings.memoEnabled
    ensures var world := TinyWorld();
            var a, b := TinySite(Feature("fast", true, 1, Some(1))), TinySite(Feature("slow", false, 1, Some(1)));
            exists ids, plan: multiset<NodeSpec> ::
              var first, second := OperandVariant(world, ids, b, "b", plan), OperandVariant(world, ids, a, "a", plan);
              && Bounded(first.program, first.bound) && Bounded(second.program, second.bound)
              && var start := Context.Plan(Context.Fresh<NodeSpec, Datum>(), [plan, plan]);
                 var one := Context.RunRoot(settings, start, 0, first.program, first.bound);
                 Context.RunRoot(settings, one.state, 1, second.program, second.bound).result
                 != Batch.Alone(settings, second)
  {
    hide OperandVariant, Ready, NodeOf, ValueAt, Batch.Alone, Context.RunRoot, Guarded, Context.Plan;
    var world := TinyWorld();
    var a, b := TinySite(Feature("fast", true, 1, Some(1))), TinySite(Feature("slow", false, 1, Some(1)));
    SameNodeTwoOutcomes();
    TinyNode(Feature("fast", true, 1, Some(1)));
    var n := NodeOf(world, a.env, a.op, a.side).value;
    TinyReady(Feature("fast", true, 1, Some(1)), n);
    TinyReady(Feature("slow", false, 1, Some(1)), n);
    TinyGuard();
    UnguardedRefusalIsShared(settings, world, a, b, TinyIds(n), TinyIds(n), multiset{n}, multiset{n});
  }

  lemma TinyNode(other: Feature)
    ensures var s := TinySite(other); NodeOf(TinyWorld(), s.env, s.op, s.side).Some?
  {
  }

  lemma TinyGuard()
    ensures var a, b := TinySite(Feature("fast", true, 1, Some(1))), TinySite(Feature("slow", false, 1, Some(1)));
            Guarded(a.op, a.side) && Blocked(TinyWorld(), b.env, b.op, b.side)
  {
    var b := TinySite(Feature("slow", false, 1, Some(1)));
    assert b.op.features[1] in b.op.features && !b.op.features[1].onBase;
  }
}
