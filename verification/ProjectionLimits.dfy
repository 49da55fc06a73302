/** How far the parity of the managed projection reaches: a consumer without the replay's tolerance, phase
    exits with a confirmation, and rules that share an id, each with a policy on which the runs part. */
module ProjectionLimits {
  import opened NodeProgram
  import opened EpisodeTables
  import opened ManagedPolicy
  import opened CompositeFold
  import opened ManagedReplay
  import opened ManagedProjection
  import opened ProjectionWrites
  import opened ProjectionIds
  import opened ProjectionParity

  // -- the stop tolerance ------------------------------------------------------------------

  /** Two stops of one trade, the second one at least as tight and within the tolerance. */
  predicate Close(side: Side, a: Option<real>, b: Option<real>) {
    (a.None? && b.None?)
    || (a.Some? && b.Some?
        && if side == Long then a.value <= b.value <= a.value + EPSILON else a.value - EPSILON <= b.value <= a.value)
  }

  /** Equal but for the stop and its attribution. */
  predicate AlikeStates(side: Side, a: State, b: State) {
    a.(stop := None, stopRule := None) == b.(stop := None, stopRule := None) && Close(side, a.stop, b.stop)
  }

  predicate AlikeDecisions(side: Side, a: Decision, b: Decision) {
    a.(stop := None) == b.(stop := None) && Close(side, a.stop, b.stop)
  }

  /** One ratchet step each: the eager stop stays within the tolerance of the replay's. */
  lemma RatchetClose(side: Side, index: nat, ps: seq<Proposal>, a: Stopping, b: Stopping)
    requires Close(side, a.stop, b.stop)
    ensures Close(side, Keep(WithTolerance, side, index, ps, a).stop, Keep(Exactly, side, index, ps, b).stop)
  {
  }

  lemma StepAlike(frame: Frame, p: Projection, trade: Trade, a: State, b: State, index: nat)
    requires trade.entryPrice > 0.0 && index < |frame.bars|
    requires AlikeStates(trade.side, a, b)
    ensures AlikeStates(trade.side, ConsumerStep(p, WithTolerance, frame, trade, a, index).state,
                        ConsumerStep(p, Exactly, frame, trade, b, index).state)
  {
    hide Transited, Switched, Exiting, Moves, Keep, Close;
    var moved, moved' := Extremes(frame, trade, a, index), Extremes(frame, trade, b, index);
    var phase := Transited(p, trade, MetricsOf(moved), index, p.rules, Phasing(a.phase, a.maxPhase, [])).phase;
    RatchetClose(trade.side, index, Moves(p, trade, moved.best, index, phase, p.rules),
                 Stopping(a.stop, a.stopRule, []), Stopping(b.stop, b.stopRule, []));
  }

  lemma {:induction false} ConsumersAlike(frame: Frame, p: Projection, trade: Trade, n: nat)
    requires trade.entryPrice > 0.0 && trade.entryIndex + n <= |frame.bars|
    ensures var a, b := Consume(p, WithTolerance, frame, trade, n), Consume(p, Exactly, frame, trade, n);
            && AlikeStates(trade.side, a.state, b.state) && |a.decisions| == |b.decisions| == n
            && forall k | 0 <= k < n :: AlikeDecisions(trade.side, a.decisions[k], b.decisions[k])
  {
    hide OneMoreConsumed;
    if n > 0 {
      ConsumersAlike(frame, p, trade, n - 1);
      var a, b := Consume(p, WithTolerance, frame, trade, n - 1), Consume(p, Exactly, frame, trade, n - 1);
      ConsumeUnfolds(p, WithTolerance, frame, trade, n);
      ConsumeUnfolds(p, Exactly, frame, trade, n);
      DecisionsAlike(frame, p, trade, a, b, trade.entryIndex + n - 1);
    }
  }

  lemma DecisionsAlike(frame: Frame, p: Projection, trade: Trade, a: Run, b: Run, index: nat)
    requires trade.entryPrice > 0.0 && index < |frame.bars|
    requires AlikeStates(trade.side, a.state, b.state) && |a.decisions| == |b.decisions|
    requires forall k | 0 <= k < |a.decisions| :: AlikeDecisions(trade.side, a.decisions[k], b.decisions[k])
    ensures var a', b' := OneMoreConsumed(p, WithTolerance, frame, trade, a, index),
                          OneMoreConsumed(p, Exactly, frame, trade, b, index);
            && AlikeStates(trade.side, a'.state, b'.state)
            && |a'.decisions| == |b'.decisions| == |a.decisions| + 1
            && forall k | 0 <= k < |a'.decisions| :: AlikeDecisions(trade.side, a'.decisions[k], b'.decisions[k])
  {
    hide ConsumerStep;
    StepAlike(frame, p, trade, a.state, b.state, index);
  }

  /** Where a consumer without the tolerance holds another stop than the replay, its stop is the tighter one
      and no further away than the tolerance: on every bar of every trade. */
  lemma StopWithinTolerance(frame: Frame, policy: Policy, p: Projection, trade: Trade, n: nat)
    requires trade.entryPrice > 0.0 && trade.entryIndex + n <= |frame.bars|
    requires Rendered(frame, policy, p) && PolicyParsed(frame, policy)
    ensures var a, b := Replay(frame, policy, trade, 0, n), Consume(p, Exactly, frame, trade, n);
            && |a.decisions| == |b.decisions| == n
            && forall k | 0 <= k < n :: Close(trade.side, a.decisions[k].stop, b.decisions[k].stop)
  {
    hide Replay, Consume, Rendered, PolicyParsed, ExitsAgreeOn;
    TradeParity(frame, policy, p, WithTolerance, trade, n);
    ConsumersAlike(frame, p, trade, n);
    var a, b, c := Replay(frame, policy, trade, 0, n), Consume(p, Exactly, frame, trade, n),
                   Consume(p, WithTolerance, frame, trade, n);
    assert SameStops(n, a, c);
    forall k | 0 <= k < n ensures Close(trade.side, a.decisions[k].stop, b.decisions[k].stop) {
      assert AlikeDecisions(trade.side, c.decisions[k], b.decisions[k]);
    }
  }

  function SmallTrade(): Trade {
    Trade(Long, 0, 100.0, Some(99.999999995))
  }

  function SmallFrame(): Frame {
    Frame([Bar(100.0, 100.0)], map[])
  }

  function BreakEvenPolicy(): Policy {
    Policy([], [StopRule("s", InitialRisk, BreakEven(0.0))], [], [])
  }

  /** A break-even rule on a trade whose initial stop is within the tolerance of its entry: the replay keeps
      the initial stop, a consumer without the tolerance moves to the entry price. */
  lemma ToleranceShows()
    ensures var frame, policy, trade := SmallFrame(), BreakEvenPolicy(), SmallTrade();
            && Aligned(frame) && PolicyParsed(frame, policy) && Consistent(frame, policy)
            && Replay(frame, policy, trade, 0, 1).state.stop == Some(99.999999995)
            && Consume(Built(frame, policy), Exactly, frame, trade, 1).state.stop == Some(100.0)
  {
    hide Replay, Consume, Step, ConsumerStep, Built, Consistent;
    var frame, policy, trade := SmallFrame(), BreakEvenPolicy(), SmallTrade();
    var p := Built(frame, policy);
    assert Clean("s");
    DistinguishableIsConsistent(frame, policy);
    RenderedExactly(frame, policy);
    OneBar(frame, policy, p, Exactly, trade);
    OneBar(frame, policy, p, WithTolerance, trade);
    StepParity(frame, policy, p, Exactly, trade, Initial(trade, 0), Initial(trade, 0), 0);
    StepParity(frame, policy, p, WithTolerance, trade, Initial(trade, 0), Initial(trade, 0), 0);
    ProposesEntry(frame, policy, trade);
  }

  lemma ProposesEntry(frame: Frame, policy: Policy, trade: Trade)
    requires policy == BreakEvenPolicy() && trade == SmallTrade() && frame == SmallFrame()
    ensures ProposedAt(frame, policy, trade, Initial(trade, 0), 0) == [Proposal(100.0, "s")]
  {
    var none: seq<Proposal> := [];
    assert policy.stops[..0] == [];
    assert Proposals(frame, trade, 100.0, 0, InitialRisk, []) == none;
    assert none + [Proposal(100.0, "s")] == [Proposal(100.0, "s")];
  }

  /** Both evaluators on the entry bar of a trade. */
  lemma OneBar(frame: Frame, policy: Policy, p: Projection, keeping: Keeping, trade: Trade)
    requires trade.entryPrice > 0.0 && trade.entryIndex < |frame.bars|
    ensures var s, index := Initial(trade, 0), trade.entryIndex;
            && Replay(frame, policy, trade, 0, 1).state == Step(frame, policy, trade, index, s, index).state
            && Consume(p, keeping, frame, trade, 1).state == ConsumerStep(p, keeping, frame, trade, s, index).state
  {
    hide Step, ConsumerStep;
    ReplayUnfolds(frame, policy, trade, 0, 1);
    ConsumeUnfolds(p, keeping, frame, trade, 1);
  }

  // -- confirmed phase exits -----------------------------------------------------------------

  function ClosingPolicy(id: string): Policy {
    Policy([], [], [], [RuntimeRule(id, InitialRisk, PhaseExit("close"), 2, "market_close")])
  }

  /** A closing phase exit that asks for two bars: on the entry bar of any trade the replay arms it, a
      consumer of the projection does not. */
  lemma ConfirmedPhaseExitDiverges(frame: Frame, p: Projection, keeping: Keeping, trade: Trade, id: string)
    requires trade.entryPrice > 0.0 && trade.entryIndex < |frame.bars|
    requires Rendered(frame, ClosingPolicy(id), p)
    ensures Replay(frame, ClosingPolicy(id), trade, 0, 1).state.exits == [id]
    ensures Consume(p, keeping, frame, trade, 1).state.exits == []
  {
    hide Replay, Consume;
    var policy, index := ClosingPolicy(id), trade.entryIndex;
    var rule := policy.runtimes[0];
    OneBar(frame, policy, p, keeping, trade);
    assert ExitRendered(frame, p.conditions, rule, p.rules[0]);
    assert policy.runtimes[..0] == [];
    assert Armed(frame, trade.side, index, index, InitialRisk, []) == [];
    forall phase ensures Exiting(p, trade, index, phase, p.rules) == [] {
      assert |p.rules| == 1 && p.rules[..0] == [] && !Confirmed(p, trade, index, p.rules[0]);
      assert Exiting(p, trade, index, phase, []) == [];
    }
  }

  // -- rules that share an id ----------------------------------------------------------------

  /** A policy whose ids keep its writes apart, and whose closing phase exits confirm on one bar, is compiled
      correctly: over any trade a consumer with the tolerance is the replay, events included. */
  lemma CompiledCorrectly(frame: Frame, policy: Policy, trade: Trade, n: nat)
    requires trade.entryPrice > 0.0 && trade.entryIndex + n <= |frame.bars|
    requires PolicyParsed(frame, policy) && Consistent(frame, policy)
    requires forall k | 0 <= k < |policy.runtimes| && policy.runtimes[k].action.PhaseExit?
               && policy.runtimes[k].action.exitPrice == "close" :: policy.runtimes[k].confirmBars == 1
    ensures Consume(Built(frame, policy), WithTolerance, frame, trade, n) == Replay(frame, policy, trade, 0, n)
  {
    hide Replay, Consume, Rendered, Consistent, Built;
    RenderedExactly(frame, policy);
    TradeParity(frame, policy, Built(frame, policy), WithTolerance, trade, n);
    NeutralIffSingleBar(trade, policy.runtimes);
  }

  function TwoPhases(): Policy {
    Policy([PhaseRule("x", Proven, Atomic(BarsInTrade(1))), PhaseRule("x", Protected, Atomic(BarsInTrade(5)))], [], [], [])
  }

  /** Two phase rules named alike: on the entry bar of any trade the replay reaches the first target, a consumer of
      what the builder wrote stays where it is, because the threshold it reads is the other rule's. */
  lemma SharedIdDiverges(frame: Frame, keeping: Keeping, trade: Trade)
    requires trade.entryPrice > 0.0 && trade.entryIndex < |frame.bars|
    ensures PolicyParsed(frame, TwoPhases()) && !Consistent(frame, TwoPhases())
    ensures Replay(frame, TwoPhases(), trade, 0, 1).state.phase == Proven
    ensures Consume(Built(frame, TwoPhases()), keeping, frame, trade, 1).state.phase == InitialRisk
  {
    hide Replay, Consume, Built;
    var policy := TwoPhases();
    var p := Built(frame, policy);
    OneBar(frame, policy, p, keeping, trade);
    ReachesProven(frame, trade);
    LaterThresholdStands(frame);
    SharedRules(frame);
    BuiltRules(frame, policy);
    StaysInitial(frame, p, trade);
    StepPhases(frame, policy, p, keeping, trade, Initial(trade, 0), trade.entryIndex);
  }

  lemma BuiltRules(frame: Frame, policy: Policy)
    ensures Built(frame, policy).rules == RulesFor(frame, policy)
  {
  }

  /** The phases of both evaluators on a bar depend on nothing but the phase rules. */
  lemma StepPhases(frame: Frame, policy: Policy, p: Projection, keeping: Keeping, trade: Trade, s: State, index: nat)
    requires trade.entryPrice > 0.0 && index < |frame.bars|
    ensures var m, phasing := MetricsOf(Extremes(frame, trade, s, index)), Phasing(s.phase, s.maxPhase, []);
            && Step(frame, policy, trade, trade.entryIndex, s, index).state.phase
               == Phased(frame, trade, m, index, policy.phases, phasing).phase
            && ConsumerStep(p, keeping, frame, trade, s, index).state.phase
               == Transited(p, trade, m, index, p.rules, phasing).phase
  {
    hide Phased, Transited;
  }

  lemma ReachesProven(frame: Frame, trade: Trade)
    requires trade.entryPrice > 0.0 && trade.entryIndex < |frame.bars|
    ensures var s, index := Initial(trade, 0), trade.entryIndex;
            var m := MetricsOf(Extremes(frame, trade, s, index));
            && m.barsInTrade == 1
            && Phased(frame, trade, m, index, TwoPhases().phases, Phasing(InitialRisk, InitialRisk, [])).phase == Proven
  {
    var rules := TwoPhases().phases;
    assert rules[..1] == [rules[0]] && [rules[0]][..0] == [];
    var s, index := Initial(trade, 0), trade.entryIndex;
    var m := MetricsOf(Extremes(frame, trade, s, index));
    var start := Phasing(InitialRisk, InitialRisk, []);
    assert Phased(frame, trade, m, index, [], start) == start;
    assert Phased(frame, trade, m, index, [rules[0]], start).phase == Proven;
  }

  function SharedId(): string {
    Prefix(Owner("phase", "x")) + "distance"
  }

  function SharedWrite(frame: Frame, bars: real): Write<Series> {
    Write(SharedId(), Constant(|frame.bars|, bars), false)
  }

  lemma SharedWrites(frame: Frame)
    ensures DistanceWrites(frame, TwoPhases()) == [SharedWrite(frame, 1.0), SharedWrite(frame, 5.0)]
  {
    hide SharedId, Constant;
    var rules := TwoPhases().phases;
    assert rules[..1] == [rules[0]] && [rules[0]][..0] == [];
    assert PhaseDistances(frame, rules[0]) == [SharedWrite(frame, 1.0)] by { IdIsShared(); }
    assert PhaseDistances(frame, rules[1]) == [SharedWrite(frame, 5.0)] by { IdIsShared(); }
    assert PhasesDistances(frame, [rules[0]]) == [SharedWrite(frame, 1.0)];
  }

  lemma IdIsShared()
    ensures Prefix(Owner("phase", "x")) + "distance" == SharedId()
  {
  }

  lemma SharedRules(frame: Frame)
    ensures var t := Threshold(SharedId(), BarsSinceEntry);
            RulesFor(frame, TwoPhases())
            == [PhaseTransition("x", Proven, ByThreshold(t)), PhaseTransition("x", Protected, ByThreshold(t))]
  {
    hide Prefix, SharedId;
    IdIsShared();
    var t, policy := Threshold(SharedId(), BarsSinceEntry), TwoPhases();
    assert PhaseRuleFor(frame, policy.phases[0]) == PhaseTransition("x", Proven, ByThreshold(t));
    assert PhaseRuleFor(frame, policy.phases[1]) == PhaseTransition("x", Protected, ByThreshold(t));
  }

  /** What stands under the shared id is the later rule's threshold. */
  lemma LaterThresholdStands(frame: Frame)
    ensures var p := Built(frame, TwoPhases());
            SharedId() in p.distances && p.distances[SharedId()] == Constant(|frame.bars|, 5.0)
    ensures |frame.bars| > 0 ==> !Consistent(frame, TwoPhases())
  {
    hide SharedId, DistanceWrites;
    SharedWrites(frame);
    var a, b := SharedWrite(frame, 1.0), SharedWrite(frame, 5.0);
    var ws := DistanceWrites(frame, TwoPhases());
    AppliedTwice(map[], [a], [b]);
    AppliedOne(Applied(map[], [a]), b);
    assert [a] + [b] == ws;
    if |frame.bars| > 0 {
      assert a.series[0] != b.series[0] && a in ws && b in ws;
    }
  }

  lemma StaysInitial(frame: Frame, p: Projection, trade: Trade)
    requires trade.entryPrice > 0.0 && trade.entryIndex < |frame.bars| && |p.rules| == 2
    requires forall k | 0 <= k < 2 ::
               && p.rules[k].PhaseTransition? && p.rules[k].gate.ByThreshold?
               && p.rules[k].gate.threshold.metric == BarsSinceEntry
               && p.rules[k].gate.threshold.distanceId in p.distances
               && p.distances[p.rules[k].gate.threshold.distanceId] == Constant(|frame.bars|, 5.0)
    ensures var m := MetricsOf(Extremes(frame, trade, Initial(trade, 0), trade.entryIndex));
            Transited(p, trade, m, trade.entryIndex, p.rules, Phasing(InitialRisk, InitialRisk, [])).phase == InitialRisk
  {
    var m, index := MetricsOf(Extremes(frame, trade, Initial(trade, 0), trade.entryIndex)), trade.entryIndex;
    var start := Phasing(InitialRisk, InitialRisk, []);
    assert p.rules[..1] == [p.rules[0]] && [p.rules[0]][..0] == [];
    assert forall k | 0 <= k < 2 :: GateMet(p.conditions, p.distances, trade, m, index, p.rules[k].gate) == Unmet;
    assert Transited(p, trade, m, index, [], start) == start;
    assert Transited(p, trade, m, index, [p.rules[0]], start) == start;
  }
}
