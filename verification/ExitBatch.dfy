/** The exit policies of several variants over one market, each a root of one shared context. */
module ExitBatch {
  import opened NodeProgram
  import opened EpisodeTables
  import opened EvaluationContext
  import opened MemoTheorems
  import opened RangeBatch
  import opened ExitNodes
  import opened ExitPolicy
  import opened ExitTheorems
  import opened ExitIdentity
  import opened ExitTwin
  import opened ExitEvaluation
  import opened ExitRun

  /** A variant's exit policy, with the identities its resolution produced, if it did. */
  datatype ExitJob = ExitJob(variantId: string, policy: Policy, identities: Option<Identity>)

  ghost predicate JobResolved(job: ExitJob) {
    job.identities.Some? ==> Resolved(job.policy) == Value(job.identities.value)
  }

  ghost function JobAsks(job: ExitJob): multiset<ExitNode> {
    AskedPolicy(job.policy, job.identities)
  }

  /** The stream of plain, unmemoized evaluations, one variant after the other. */
  ghost function PlainStream(market: Market, jobs: seq<ExitJob>): Stream<Evaluation>
    requires Framed(market)
  {
    if |jobs| == 0 then Stream([], None) else
    var last := jobs[|jobs| - 1];
    Deliver(PlainStream(market, jobs[..|jobs| - 1]), last.variantId, PlainPolicy(market, last.policy))
  }

  lemma PlainNext(market: Market, jobs: seq<ExitJob>, k: nat)
    requires Framed(market) && k < |jobs|
    ensures PlainStream(market, jobs[..k + 1])
         == Deliver(PlainStream(market, jobs[..k]), jobs[k].variantId, PlainPolicy(market, jobs[k].policy))
  {
    hide Framed, PlainPolicy, Deliver;
    assert jobs[..k + 1][..k] == jobs[..k];
  }

  function JobIds(jobs: seq<ExitJob>): seq<string> {
    seq(|jobs|, k requires 0 <= k < |jobs| => jobs[k].variantId)
  }

  ghost function PlainOutcomes(market: Market, jobs: seq<ExitJob>): seq<Outcome<Evaluation>>
    requires Framed(market)
  {
    seq(|jobs|, k requires 0 <= k < |jobs| => PlainPolicy(market, jobs[k].policy))
  }

  /** The stream reports the plain evaluations in the variants' order. */
  lemma {:induction false} PlainStreams(market: Market, jobs: seq<ExitJob>)
    requires Framed(market)
    ensures Streams(JobIds(jobs), PlainOutcomes(market, jobs), PlainStream(market, jobs))
  {
    hide Framed, PlainPolicy, Streams, Deliver;
    if |jobs| == 0 {
      NothingStreams<Evaluation>(JobIds(jobs), PlainOutcomes(market, jobs));
    } else {
      var most, last := jobs[..|jobs| - 1], jobs[|jobs| - 1];
      PlainStreams(market, most);
      StreamGrows(JobIds(most), PlainOutcomes(market, most), PlainStream(market, most), last.variantId,
                  PlainPolicy(market, last.policy));
      assert JobIds(jobs) == JobIds(most) + [last.variantId];
      assert PlainOutcomes(market, jobs) == PlainOutcomes(market, most) + [PlainPolicy(market, last.policy)];
    }
  }

  lemma NothingStreamed(market: Market, jobs: seq<ExitJob>)
    requires Framed(market)
    ensures PlainStream(market, jobs[..0]) == Stream([], None)
  {
  }

  lemma {:induction false} PropagatedEnds(market: Market, jobs: seq<ExitJob>, done: nat)
    requires Framed(market) && done <= |jobs| && PlainStream(market, jobs[..done]).propagated.Some?
    ensures PlainStream(market, jobs) == PlainStream(market, jobs[..done])
  {
    hide Framed, PlainPolicy;
    if done == |jobs| {
      assert jobs[..done] == jobs;
    } else {
      var most := jobs[..|jobs| - 1];
      assert most[..done] == jobs[..done];
      PropagatedEnds(market, most, done);
    }
  }

  // -- the plan ----------------------------------------------------------------------------

  /** What the roots still expect when those below `done` have ended. */
  ghost function Pending(jobs: seq<ExitJob>, done: nat): seq<multiset<ExitNode>> {
    seq(|jobs|, i requires 0 <= i < |jobs| => if i < done then multiset{} else JobAsks(jobs[i]))
  }

  lemma ResolvedKeyed(policy: Policy, identity: Identity)
    requires Resolved(policy) == Value(identity)
    ensures Keyed(identity.rules.signals) && Keyed(identity.rules.distances)
  {
    RulesKept(policy, FilledNodes(policy.rules, RuleNodes(policy.sides, policy.rules).value));
  }

  method PredictJob(job: ExitJob) returns (planned: multiset<ExitNode>)
    requires JobResolved(job)
    ensures planned == JobAsks(job)
  {
    hide Resolved;
    var predicted := [];
    if Usable(job.policy, job.identities).Some? && job.identities.Some? {
      ResolvedKeyed(job.policy, job.identities.value);
      predicted := ExitPolicyConsumptions(job.identities.value);
    }
    planned := multiset(predicted);
  }

  method PredictJobs(jobs: seq<ExitJob>) returns (roots: seq<multiset<ExitNode>>)
    requires forall job | job in jobs :: JobResolved(job)
    ensures roots == Pending(jobs, 0)
  {
    hide JobResolved, JobAsks;
    roots := [];
    for k := 0 to |jobs|
      invariant |roots| == k && forall i | 0 <= i < k :: roots[i] == JobAsks(jobs[i])
    {
      var planned := PredictJob(jobs[k]);
      roots := roots + [planned];
    }
  }

  // -- the roots ---------------------------------------------------------------------------

  /** Between two roots: those below `done` have been delivered and ended, and with the memo on nothing has been
      computed twice. */
  ghost predicate Between(
    settings: Settings, s: Snapshot<ExitNode, ExitDatum>, market: Market, jobs: seq<ExitJob>, done: nat)
  {
    && Framed(market) && MemoSound(settings, s, Denoted(market))
    && s.active.None? && s.pending == Some(Pending(jobs, done))
    && (settings.memoEnabled ==> Conserved(s) && OnceEach(s, {}))
  }

  lemma BatchStarts(settings: Settings, market: Market, jobs: seq<ExitJob>)
    requires Framed(market)
    ensures Between(settings, Plan(Fresh<ExitNode, ExitDatum>(), Pending(jobs, 0)), market, jobs, 0)
  {
    FreshConserves<ExitNode, ExitDatum>();
    PlanConserves(Fresh<ExitNode, ExitDatum>(), Pending(jobs, 0));
  }

  lemma RootStarts(settings: Settings, s: Snapshot<ExitNode, ExitDatum>, market: Market, jobs: seq<ExitJob>, index: nat)
    requires index < |jobs| && Between(settings, s, market, jobs, index)
    ensures Serving(settings, s.(active := Some(index)), market, settings.memoEnabled, JobAsks(jobs[index]) + multiset{})
  {
    hide JobAsks;
    var active := s.(active := Some(index));
    assert Expected(active) == Expected(s);
    assert JobAsks(jobs[index]) + multiset{} == JobAsks(jobs[index]);
  }

  lemma RootEnds(
    settings: Settings, active: Snapshot<ExitNode, ExitDatum>, s: Snapshot<ExitNode, ExitDatum>, market: Market,
    jobs: seq<ExitJob>, index: nat)
    requires index < |jobs| && active.active == Some(index) && active.pending == Some(Pending(jobs, index))
    requires Serving(settings, s, market, settings.memoEnabled, multiset{}) && Elsewhere(s) == Elsewhere(active)
    ensures Between(settings, EndRoot(s, index), market, jobs, index + 1)
  {
    hide JobAsks;
    var ended := EndRoot(s, index);
    assert ended.memo.Keys <= s.memo.Keys;
    assert s.pending.value[index := multiset{}] == Pending(jobs, index + 1);
    if settings.memoEnabled {
      EndConserves(s, index);
      EndKeepsOnce(s, index);
    }
  }

  /** One root: activated, evaluated, and closed whether it succeeds or fails. */
  method EvaluateExitRoot(
    context: Context<ExitNode, ExitDatum>, market: Market, ghost jobs: seq<ExitJob>, index: nat, job: ExitJob)
    returns (r: Outcome<Evaluation>, ghost calls: multiset<ExitNode>)
    requires index < |jobs| && jobs[index] == job && JobResolved(job)
    requires Between(context.settings, context.State(), market, jobs, index)
    modifies context
    ensures Framed(market) && r == PlainPolicy(market, job.policy)
    ensures calls <= JobAsks(job) && (r.Value? ==> calls == JobAsks(job))
    ensures Between(context.settings, context.State(), market, jobs, index + 1)
  {
    hide Serving, Elsewhere, PlainPolicy, EndRoot, MemoSound, Conserved, OnceEach;
    RootStarts(context.settings, context.State(), market, jobs, index);
    context.activeRoot := Some(index);
    ghost var active := context.State();
    r, calls := EvaluateExitPolicy(context, market, job.policy, job.identities, context.settings.memoEnabled, multiset{});
    RootEnds(context.settings, active, context.State(), market, jobs, index);
    context.CloseRoot(index);
  }

  lemma ComputedOnceSoFar(
    settings: Settings, s: Snapshot<ExitNode, ExitDatum>, market: Market, jobs: seq<ExitJob>, done: nat)
    requires Between(settings, s, market, jobs, done)
    ensures settings.memoEnabled ==> forall n :: s.stats.computeCalls[n] <= 1
  {
  }

  lemma NothingPending(settings: Settings, s: Snapshot<ExitNode, ExitDatum>, market: Market, jobs: seq<ExitJob>)
    requires settings.memoEnabled && Between(settings, s, market, jobs, |jobs|)
    ensures s.refs == map[] && s.memo == map[]
  {
    TotalOfNothing(s.pending.value);
    NothingRetained(s);
  }

  /** The exit policies of a batch: whatever the variants share through equal identities, each one is delivered
      what its policy evaluates to alone and unmemoized; with the memo on no identity is computed twice over
      the whole batch, and a stream that runs to its end retains nothing. */
  method StreamExitPolicies(context: Context<ExitNode, ExitDatum>, market: Market, jobs: seq<ExitJob>)
    returns (stream: Stream<Evaluation>)
    requires Framed(market) && context.State() == Fresh()
    requires forall job | job in jobs :: JobResolved(job)
    modifies context
    ensures stream == PlainStream(market, jobs)
    ensures Streams(JobIds(jobs), PlainOutcomes(market, jobs), stream)
    ensures context.settings.memoEnabled ==> forall n :: context.stats.computeCalls[n] <= 1
    ensures context.settings.memoEnabled && stream.propagated.None? ==>
              context.refcounts == map[] && context.memo == map[]
  {
    hide Framed, PlainPolicy, PlainStream, JobResolved, Between, Deliver, Plan, Pending, Streams;
    PlainStreams(market, jobs);
    var roots := PredictJobs(jobs);
    BatchStarts(context.settings, market, jobs);
    var planned := context.PlanRoots(roots);
    stream := Stream([], None);
    var index := 0;
    NothingStreamed(market, jobs);
    while index < |jobs|
      invariant 0 <= index <= |jobs| && stream.propagated.None?
      invariant Between(context.settings, context.State(), market, jobs, index)
      invariant stream == PlainStream(market, jobs[..index])
    {
      var r;
      ghost var calls;
      PlainNext(market, jobs, index);
      r, calls := EvaluateExitRoot(context, market, jobs, index, jobs[index]);
      stream := Deliver(stream, jobs[index].variantId, r);
      index := index + 1;
      if stream.propagated.Some? {
        PropagatedEnds(market, jobs, index);
        ComputedOnceSoFar(context.settings, context.State(), market, jobs, index);
        return;
      }
    }
    assert jobs[..index] == jobs;
    ComputedOnceSoFar(context.settings, context.State(), market, jobs, index);
    if context.settings.memoEnabled {
      NothingPending(context.settings, context.State(), market, jobs);
    }
  }
}
