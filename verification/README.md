# Verification of the strategy engine's evaluation core

The engine evaluates trading strategies over one market frame: operands and predicates over indicator columns, an
exit policy, a managed trade policy, and the projections a back-tester or a live executor consumes. This project
models the parts of it whose correctness is not visible in any single function, and proves it in Dafny:

- **One shared memo.** A batch of strategy variants is evaluated through a reference-counted, self-evicting memo
  keyed by semantic node identities. `EvaluationContext` is the memo as a class; `MemoTheorems` proves that it is
  transparent, leak-free and computes nothing twice, for arbitrary programs of nested consumptions. The operand
  language, its identity twin and its predictions (`Operands` to `OperandMemo`, `IdentitySharing`), predicates (`Predicates` to
  `PredicateBatch`) and the exit policy (`ExitNodes` to `ExitBatch`) are then shown to be such programs, so that a whole
  batch delivers what evaluating every variant alone and unmemoized would.
- **One policy, two evaluators.** A managed trade policy is replayed bar by bar (`ManagedReplay`) and also compiled
  into trade-independent series and rules (`ProjectionWrites`, `ProjectionBuilder`). `ManagedProjection` is the consumer
  the contract documents; `ProjectionParity` proves exactly when it reaches the replay's states, `ProjectionLimits` gives
  the policies on which it does not, `ReplaySafety`, `ReplayLocality` and `OpenTrade` what every run keeps.
- **Fast array code against one-line meanings.** Prefix sums, sparse tables, sorted windows and bucketed candles
  (`WindowMath` to `LegMeasures`) refine direct definitions over index ranges, read nothing after the evaluated bar and
  stay inside their bounds; `AdxDmi` carries an inequality through three coupled recurrences.
- **Attribution, live history, higher timeframes.** `ExitAttribution` to `ExitProjection` prove that every executable
  leg finds the rule it comes from; `LiveHistory` that a cut history is enough; `HigherTimeframe` that an aligned value
  never changes once it could be read.
- **What the definitions mean.** The theorems above relate evaluators, and would hold of any operand, policy or unit that
  both sides share. `OperandMeaning`, `PolicyMeaning`, `ReplayMeaning`, `SegmentMeaning`, `LegMeaning`, `CandleUnits`,
  `ExitMeaning` and `AdxMeaning` therefore characterise each definition from outside: by values, prices, bars and
  thresholds, with quotients cleared and without the function being characterised.

## How to read the model

Floats are reals, missing or non-finite values are `None`; where the bit pattern matters (identities) a parameter is a
`Float`. A failure is what its consumers can observe of it. Methods follow the loops and dictionaries of the source and
are proved against a function or a predicate; the lemmas say what that function means. Where a main theorem has a
hypothesis, it is one a caller can check: unique exit rule ids, writes that agree, closes inside their candle's range.

## What the proofs found

- **A segment's identity is weaker than its guard.** Evaluation refuses a by-side segment if *any* declared feature is
  off the base timeframe (`src/strategy_engine/strategies/ema_pullback/predicates.py:1725-1731`), its identity names only
  the feature the side reads (2972-2980). Two variants can therefore share a node and differ in outcome:
  `SameNodeTwoOutcomes` gives them, `UnreadFeatureDecides` says exactly when, `UnguardedRefusalIsShared` what it does to a
  batch (the variant behind is delivered the refusal of the one in front), and `SameNodeSameValue` is proved for operands
  that pass the guard.
- **`phase_runtime_exit` and `confirm_bars`.** The replay ignores the parameter
  (`src/strategy_engine/strategies/ema_pullback/managed.py:476-477`), the projection emits it
  (`src/strategy_engine/strategies/ema_pullback/historical_managed_projection.py:431`). `ExitsParity` and
  `NeutralIffSingleBar` give the exact condition of agreement, `ConfirmedPhaseExitDiverges` a run that differs.
- **Managed rule ids are not checked**, neither for uniqueness nor for their alphabet, and the builder keys its
  dictionaries by them: rules that share an id overwrite each other
  (`src/strategy_engine/strategies/ema_pullback/historical_managed_projection.py:274-498`), children of composites keep
  the first series (157-193), and an id with a colon can meet the id of a composite's child.
  `RenderedExactly` is the exact condition for every policy: all ids lead to their own series if and only if the writes
  that meet under one id hold the same one. `SharedIdDiverges` is a policy whose projection replays differently.
- **The stop tolerance.** The replay moves a stop only past 1e-8
  (`src/strategy_engine/strategies/ema_pullback/managed.py:681`); the documented consumer
  (`src/strategy_engine/strategies/contracts.py:246-408`) and the reference consumer of the tests
  (`tests/test_ema_pullback_historical_managed_projection.py:131-271`) ratchet on every tightening. `KeepsAgree` and
  `TradeParity` give the exact condition of equal stops, `StopWithinTolerance` the bound where they differ, and
  `ToleranceShows` a trade on which they do.
- **Exit rule ids must be unique**, which the static semantics demand
  (`src/strategy_engine/strategies/ema_pullback/static_semantics.py:125-138`): without that, `RepeatedIdBreaks` reaches an
  aggregate that no rule in force accounts for.

## Model

| member | source | states |
|---|---|---|
| `EvaluationContext.Capture` | src/strategy_engine/indicators/evaluation_context.py:124-157 | a failure is recorded if and only if replaying its record is observably the same failure: for an engine error the category without its constructor, the recorded arguments and the payload set directly, for any other the category called with the recorded arguments |
| `EvaluationContext.CapturableExactly` | src/strategy_engine/indicators/evaluation_context.py:124-157 | exactly the engine errors that read as their message can be remembered, whatever signature their class has, and exactly those other failures that their class gives back from their arguments |
| `EvaluationContext.Context.PlanRoots` | src/strategy_engine/indicators/evaluation_context.py:266-277 | planning is refused once a plan exists or a root is active; otherwise every identity's count grows by its planned consumptions over all roots |
| `EvaluationContext.Context.CloseRoot` | src/strategy_engine/indicators/evaluation_context.py:279-307 | ending a root releases all it still expected, and exactly the identities nobody expects any more lose their memo entry |
| `EvaluationContext.Context.ConsumeOne` | src/strategy_engine/indicators/evaluation_context.py:309-328 | a consumption the active root foresaw takes one off its pending count and off the reference count; any other is counted as unforeseen and changes no count |
| `EvaluationContext.Context.MemoizedNode` | src/strategy_engine/indicators/evaluation_context.py:332-366 | hit or miss: the result, the whole new state and the calls made are those of the memo's one-step semantics, nested computations included |
| `EvaluationContext.Context.Run` | src/strategy_engine/indicators/evaluation_context.py:374-387 | an arbitrary program of nested consumptions leaves the result, state and calls of its execution semantics; nodes without an identity run unmemoized |
| `EvaluationContext.Context.EvaluateRoot` | src/strategy_engine/indicators/evaluation_context.py:279-297 | a root inside a root is refused without a trace; otherwise the root is closed whether its program succeeds or fails |
| `MemoTheorems.Transparent` | src/strategy_engine/indicators/evaluation_context.py:332-371 | memo transparency: from any state with a sound memo, under any plan and any counts, memo on or off, a program of nested calls has the value or the failure of its direct recursion, and the memo stays sound |
| `MemoTheorems.CallsAccounted` | src/strategy_engine/indicators/evaluation_context.py:332-366 | for every identity, hits plus computes equal the calls made |
| `MemoTheorems.ExecConserves` | src/strategy_engine/indicators/evaluation_context.py:309-371 | every sound run keeps the counts conserved and remembers only identities that are still expected |
| `MemoTheorems.EndConserves` | src/strategy_engine/indicators/evaluation_context.py:299-307 | the end of a root keeps the counts conserved: each is again the sum of the pending counts |
| `MemoTheorems.ExecKeepsOthers` | src/strategy_engine/indicators/evaluation_context.py:309-328 | a root's run leaves the pending counts of all other roots alone |
| `MemoTheorems.NothingRetained` | src/strategy_engine/indicators/evaluation_context.py:261-307 | no leak: in a conserved state that expects nothing more, the memo and the counts are both empty |
| `MemoTheorems.PredictionCovers` | src/strategy_engine/indicators/evaluation_context.py:309-328 | a root whose plan covers the consumptions of the direct run makes no unforeseen one and leaves the rest of the plan standing |
| `MemoTheorems.ComputedOnce` | src/strategy_engine/indicators/evaluation_context.py:309-366 | with the memo on, a covering plan and failures that can be recorded, no identity is computed twice, however deep and however often it is consumed |
| `MemoTheorems.NothingRemembered` | src/strategy_engine/indicators/evaluation_context.py:332-366 | with the memo off nothing is remembered, nothing is answered from memory, and every call of an identity computes |
| `RangeBatch.StreamVariants` | src/strategy_engine/strategies/application/evaluate_range_batch.py:88-131 | batch equals singles, delivery written out: for variants in which equal identities mean equal outcomes, the stream delivers, in order and up to the first failure without a payload, the value of each variant's direct evaluation under its id, or an engine error with its message, its code and its details; that failure, and no other, propagates. Counts stay conserved, a stream that ends retains nothing, and covering predictions mean no second computation over the whole batch |
| `RangeBatch.AloneIsDirect` | src/strategy_engine/strategies/application/evaluate_range.py:78-114 | a variant alone in a context of one root has its direct outcome |
| `RangeBatch.RootComputesOnce` | src/strategy_engine/strategies/application/evaluate_range.py:78-114 | one root keeps every promise of the memo, for itself and for the roots still to come |
| `NodeIdentity.CanonInjective` | src/strategy_engine/domain/node_identity.py:41-66 | canonical forms agree exactly for the same typed value: `True`, `1` and `1.0` apart, both zeros apart, all NaNs together, frozensets up to order |
| `NodeIdentity.SetCanonInjective` | src/strategy_engine/domain/node_identity.py:62-66 | sorted canonical members agree exactly when the two sets match member for member, whatever the iteration order |
| `OperandEvaluation.ValuesCompose` | src/strategy_engine/strategies/ema_pullback/predicates.py:1511-1708 | the value of an operand is made of the values of what it reads, in order and up to the first failure, and does not depend on the identities it is evaluated under; what each operand makes of them is said by `OperandMeaning` |
| `OperandMeaning.LeavesRead` | src/strategy_engine/strategies/ema_pullback/predicates.py:1511-1536 | a constant is its number on every bar, a price its market column, a feature its own column, and what is not planned or declared is refused |
| `OperandMeaning.RatioMeans` | src/strategy_engine/strategies/ema_pullback/predicates.py:1984-2008 | a ratio times its right side is its left side; it is there exactly where both sides are, the right side is not zero and the denominator exceeds the floor |
| `OperandMeaning.DifferenceMeans` | src/strategy_engine/strategies/ema_pullback/predicates.py:2011-2033 | a difference plus its right side is its left side, there exactly where both are |
| `OperandMeaning.AbsoluteMeans` | src/strategy_engine/strategies/ema_pullback/predicates.py:2036-2051 | an absolute value is nonnegative and the value or its opposite |
| `OperandMeaning.ScaleMeans` | src/strategy_engine/strategies/ema_pullback/predicates.py:2182-2208 | a scaled value is the factor times the value |
| `OperandMeaning.SignedMeans` | src/strategy_engine/strategies/ema_pullback/predicates.py:2083-2103 | a signed value is the value on the long side; on the short side the center lies halfway between the two |
| `OperandMeaning.OnlyIfMeans` | src/strategy_engine/strategies/ema_pullback/predicates.py:2106-2143 | a guarded operand has its inner value exactly on the bars on which every requirement is there and within its bounds, and the first failing part decides a refusal |
| `OperandMeaning.IntervalMeans` | src/strategy_engine/strategies/ema_pullback/predicates.py:2182-2208 | an interval change measures its inner column, over an episode's interval with the side's own episode; a constant and an episode never evaluated are refused |
| `OperandMeaning.AtPointMeans` | src/strategy_engine/strategies/ema_pullback/predicates.py:2054-2080 | a value at a point is read from its inner column in the side's own episode, refused before anything is read when there is none |
| `OperandMeaning.OverLegMeans` | src/strategy_engine/strategies/ema_pullback/predicates.py:1711-1781 | an operand over a leg is handed the side's own episode and the series and period of the features its side reads; it has a value exactly where all of these are there and no declared feature, or timeframe, is refused |
| `OperandMeaning.ComparesMeans` | src/strategy_engine/strategies/ema_pullback/predicates.py:2601-2633 | a comparison holds on exactly the bars on which both sides are there and stand in its relation, the short side by its own condition if it has one |
| `OperandMeaning.RangeMeans` | src/strategy_engine/strategies/ema_pullback/predicates.py:2636-2647 | a range holds where the value is within the bounds that are set, and on a missing value only if it lets it pass |
| `OperandMeaning.ChangeMeans` | src/strategy_engine/strategies/ema_pullback/predicates.py:2601-2633 | a change compares the value on a bar with the one so many bars of the feature's own timeframe earlier |
| `OperandMeaning.StateMeans` | src/strategy_engine/strategies/ema_pullback/predicates.py:2650-2676 | a regime is the raw state seen from the side: up is aligned for long and countertrend for short |
| `OperandMeaning.TemporalMeans` | src/strategy_engine/strategies/ema_pullback/predicates.py:2679-2715 | `held_for` asks for a streak of so many true bars up to the bar, `within` for one true bar among the last so many |
| `OperandIdentity.SameNodeSameValue` | src/strategy_engine/strategies/ema_pullback/predicates.py:2937-3461 | identity soundness: two guarded operand trees, each on its own side and under its own plan, that resolve to one node have equal outcomes, refusals included |
| `OperandIdentity.UnreadFeatureDecides` | src/strategy_engine/strategies/ema_pullback/predicates.py:1725-1737 | a by-side segment and the twin that reads one feature twice share a node, and share their value if and only if the segment passes the guard (no off-base feature on the side it does not read) |
| `OperandIdentity.SameNodeTwoOutcomes` | src/strategy_engine/strategies/ema_pullback/predicates.py:2964-2980 | a concrete market and two variants with one node, one of them refused and the other not |
| `BatchLimits.UnguardedRefusalIsShared` | src/strategy_engine/indicators/evaluation_context.py:332-371 | outside the guard a batch is not its singles: with the refused operand in front, the shared memo delivers its refusal to every guarded operand of the same node, which alone has its own outcome |
| `BatchLimits.BatchIsNotItsSingles` | src/strategy_engine/strategies/ema_pullback/predicates.py:2964-2980 | a concrete batch of two variants in which the second one is delivered something else than alone |
| `Predicates.MaskComposes` | src/strategy_engine/strategies/ema_pullback/predicates.py:2695-2741 | masks are compositional and do not depend on the identities they are evaluated under |
| `Predicates.SamePredicateSameMask` | src/strategy_engine/strategies/ema_pullback/predicates.py:2834-2935 | predicates that resolve to one node have equal masks, also where one node serves both sides |
| `IdentitySharing.OneOperandNode` | src/strategy_engine/strategies/ema_pullback/predicates.py:2937-3461 | the converse direction: an operand without an episode and without a value of its own per side resolves on both sides or on neither, to one node, and has one value |
| `IdentitySharing.SidedNode` | src/strategy_engine/strategies/ema_pullback/predicates.py:2937-3461 | an operand that measures an episode, mirrors or is guarded, anywhere in it, names its side in its node |
| `IdentitySharing.OnePredicateNode` | src/strategy_engine/strategies/ema_pullback/predicates.py:2834-2935 | a predicate with one condition for both sides over such operands has one node and one mask, through any windows |
| `IdentitySharing.SidedPredicateNode` | src/strategy_engine/strategies/ema_pullback/predicates.py:2834-2935 | a regime, a short override or an operand with a side of its own puts the side into the node |
| `Resolution.Resolution.ResolveOperand` | src/strategy_engine/strategies/ema_pullback/predicates.py:2937-3461 | resolution succeeds exactly when every feature is planned and every episode declared; it returns the node and the predicted consumptions, and every lookup the evaluation makes later finds the node of the operand standing there |
| `Resolution.Resolution.ResolveRequirements` | src/strategy_engine/strategies/ema_pullback/predicates.py:3424-3461 | the requirements of a conditional operand are all resolved, each under its own path |
| `ComputationPrograms.CodeMeaning` | src/strategy_engine/indicators/evaluation_context.py:374-387 | the program that consumes its inputs through the context means the plain evaluation and consumes what a run that misses every lookup uses |
| `ComputationPrograms.CodeSound` | src/strategy_engine/indicators/evaluation_context.py:374-387 | computations whose identities denote their outcomes and stand above their inputs are sound programs |
| `OperandMemo.OperandDenoted` | src/strategy_engine/strategies/ema_pullback/predicates.py:1511-1708 | a node denotes the value of every operand that resolves to it |
| `OperandMemo.ChildBelow` | src/strategy_engine/strategies/ema_pullback/predicates.py:2937-3461 | the node of a child is strictly inside the node of its parent |
| `OperandMemo.PredictedInOrder` | src/strategy_engine/strategies/ema_pullback/predicates.py:2937-3461 | the prediction lists the consumptions of the evaluation, up to the order of a guarded operand and its requirements |
| `OperandMemo.OperandUsed` | src/strategy_engine/strategies/ema_pullback/predicates.py:1511-1708 | prediction completeness: an all-miss run consumes no more than predicted, and as a multiset exactly that whenever it has a value |
| `PredicateResolution.ResolvePredicate` | src/strategy_engine/strategies/ema_pullback/predicates.py:2834-2935 | a predicate resolves exactly when everything it reads does, with its node, its nested consumptions and all the dictionaries its evaluation looks into |
| `PredicateBatch.RuleUsed` | src/strategy_engine/strategies/ema_pullback/predicates.py:2834-2935 | prediction completeness for predicates, temporal ones included |
| `PredicateBatch.JobIsSound` | src/strategy_engine/strategies/application/evaluate_range.py:78-138 | a variant's checks form a sound program that gives its verdict and stays inside its prediction |
| `PredicateBatch.StreamJobs` | src/strategy_engine/strategies/application/evaluate_range_batch.py:88-131 | the batch of real predicates, delivery written out as for `StreamVariants`: whatever the variants share, each is delivered the verdict of its own unmemoized evaluation, and with the memo on no node is computed twice |
| `CompositeFold.AdxDiSeries` | src/strategy_engine/strategies/ema_pullback/managed_composite.py:72-104 | the market series of the trend-strength atom, bar by bar its plain condition |
| `CompositeFold.MarketMasks` | src/strategy_engine/strategies/ema_pullback/managed_composite.py:140-207 | exactly the market children get a mask, and it is their truth on each bar |
| `CompositeFold.Vote` | src/strategy_engine/strategies/ema_pullback/managed_composite.py:214-226 | running counts find the bars on which at least k of the masks are true |
| `CompositeFold.FoldPhasePaths` | src/strategy_engine/strategies/ema_pullback/managed_composite.py:170-241 | every path is folded, in order, into one market mask and what is left for the trade |
| `CompositeFold.FoldedPathMeans` | src/strategy_engine/strategies/ema_pullback/managed_composite.py:208-289 | a folded path is true exactly when all required children and at least k of the counted ones are, however market and trade children are mixed |
| `CompositeFold.CompositeMet` | src/strategy_engine/strategies/ema_pullback/managed_composite.py:248-289 | the fold refines plain semantics: the first path in declared order that is true in the plain sense, or none |
| `ManagedReplay.ManagedTradeState.UpdateExtremes` | src/strategy_engine/strategies/ema_pullback/managed.py:327-342 | the best and worst price take in the bar for the trade's side |
| `ManagedReplay.ManagedTradeState.RunPhases` | src/strategy_engine/strategies/ema_pullback/managed.py:577-618 | the phase rules of one bar, in order: events, phase and path are those of the step function |
| `ManagedReplay.ManagedTradeState.RunStops` | src/strategy_engine/strategies/ema_pullback/managed.py:619-695 | the stop rules of one bar: the tightest ready proposal, the first among equals, moves the stop only past the tolerance |
| `ManagedReplay.RuntimeSignal` | src/strategy_engine/strategies/ema_pullback/managed.py:464-515 | a runtime exit signals when its condition held on its last bars since evaluation started; a phase exit never asks for confirmation |
| `ManagedReplay.ManagedTradeState.EvaluateBar` | src/strategy_engine/strategies/ema_pullback/managed.py:572-768 | one evaluated bar leaves exactly the state, events and decision of the step function |
| `ManagedReplay.ReplayTrade` | src/strategy_engine/strategies/ema_pullback/managed.py:518-769 | a whole replay, from refusal of an unusable entry price or target to the final state, is the run of the step function over the evaluated bars |
| `PolicyMeaning.AtomIs` | src/strategy_engine/strategies/ema_pullback/managed.py:345-402 | an atom in prices, quotients cleared: the gain against the initial risk, the entry price, the ATR, or columns against their thresholds |
| `PolicyMeaning.PathIs` | src/strategy_engine/strategies/ema_pullback/managed.py:433-461 | a path holds when all required children hold and at least as many of the counted ones as it asks for |
| `PolicyMeaning.ConditionIs` | src/strategy_engine/strategies/ema_pullback/managed.py:433-461 | a condition holds by the first declared path that holds, or by its atom |
| `PolicyMeaning.OffersIs` | src/strategy_engine/strategies/ema_pullback/managed.py:256-271 | what a stop rule proposes, in prices: a trailing price is so far behind the best price, a locked or break-even one so far from entry on the trade's side, and each is proposed if and only if its trigger is reached |
| `PolicyMeaning.OffersStayBehind` | src/strategy_engine/strategies/ema_pullback/managed.py:256-271 | a trailing stop that gives something back is never offered beyond the best price, a locked profit never on the losing side of entry |
| `PolicyMeaning.FiresIs` | src/strategy_engine/strategies/ema_pullback/managed.py:464-515 | a runtime exit fires once its own condition has held on so many bars in a row since evaluation started; a closing phase exit fires at once |
| `ReplayMeaning.PhaseMeans` | src/strategy_engine/strategies/ema_pullback/managed.py:577-618 | over every replay the phase after a bar is the highest of the phase before it and the targets of all rules whose condition holds on the bar |
| `ReplayMeaning.StopMeans` | src/strategy_engine/strategies/ema_pullback/managed.py:619-695 | over every replay the stop moves only to a price a rule in force offers, the tightest and the first among equals, and only when that is more than 0.00000001 tighter; otherwise it stays |
| `ReplayMeaning.TakeMeans` | src/strategy_engine/strategies/ema_pullback/managed.py:696-723 | the take profile after a bar is what the last take rule in force asks for, unchanged when none is |
| `ReplayMeaning.ExitMeans` | src/strategy_engine/strategies/ema_pullback/managed.py:724-754 | the runtime exits armed on a bar are exactly those in force that fire, each once |
| `ReplayMeaning.DecisionsMean` | src/strategy_engine/strategies/ema_pullback/managed.py:560-768 | evaluation starts in the initial phase with the entry price as both extremes and the initial stop, and every decision records the state its bar ends in |
| `ProjectionBuilder.Builder.CompositePaths` | src/strategy_engine/strategies/ema_pullback/historical_managed_projection.py:129-245 | the paths of a composite and, whatever the dictionaries held before, exactly its writes in their order: market part, counted children, required thresholds, required changes; a child series only where its id is still free |
| `ProjectionBuilder.BuildProjection` | src/strategy_engine/strategies/ema_pullback/historical_managed_projection.py:248-498 | for every policy, whatever its ids: the rules in their documented order over the dictionaries its writes leave; every id leads to the series of its own rule, child or path if and only if any two writes under one id hold the same series |
| `ProjectionWrites.RenderedExactly` | src/strategy_engine/strategies/ema_pullback/historical_managed_projection.py:248-498 | the exact condition: what is built from a policy is a rendering of it if and only if the writes that meet under one id agree, whichever of them wins |
| `ProjectionWrites.HeldExactly` | src/strategy_engine/strategies/ema_pullback/historical_managed_projection.py:157-193 | after any sequence of overwriting and first-wins writes every one of them still stands if and only if those under one id agree |
| `ProjectionIds.DistinguishableIsConsistent` | src/strategy_engine/strategies/ema_pullback/historical_managed_projection.py:274-498 | ids without a colon, distinct within their section, never meet, so such a policy is always rendered |
| `ProjectionParity.PathParity` | src/strategy_engine/strategies/ema_pullback/historical_managed_projection.py:129-245 | a rendered path is met by the consumer exactly when the path is true in the plain sense |
| `ProjectionParity.ExitParity` | src/strategy_engine/strategies/contracts.py:371-394 | replay and consumer agree on a runtime exit on a bar if and only if the confirmation of a phase exit fits into the trade by then |
| `ProjectionParity.ExitsParity` | src/strategy_engine/strategies/contracts.py:371-394 | the consumer never arms more exits than the replay, and arms the same list if and only if every confirmation in force fits |
| `ProjectionParity.KeepsAgree` | src/strategy_engine/strategies/ema_pullback/managed.py:669-695 | a stop kept with and without the replay's tolerance comes out the same if and only if the tightest proposal is not tighter by more than 0 and at most 1e-8 |
| `ProjectionParity.StepParity` | src/strategy_engine/strategies/contracts.py:246-408 | one bar, for a consumer with or without the tolerance: everything but stop and exits is the replay's; the exits if and only if the confirmations in force fit, the stop if and only if the move is not within a tolerance the consumer lacks |
| `ProjectionParity.TradeParity` | src/strategy_engine/strategies/ema_pullback/historical_managed_projection.py:248-498 | over a whole trade, for both consumers: phases with their paths, takes and extremes agree on every bar; exits on exactly the bars whose confirmations fit; stops on all bars if and only if no bar has a move within the tolerance the consumer lacks; the two runs are equal, events included, if and only if both hold on every bar |
| `ProjectionParity.NeutralIffSingleBar` | src/strategy_engine/strategies/ema_pullback/managed.py:476-477 | confirmations fit on every bar and in every phase if and only if every closing phase exit asks for one bar |
| `ProjectionLimits.StopWithinTolerance` | src/strategy_engine/strategies/ema_pullback/managed.py:669-695 | on every bar of every trade the stop of a consumer without the tolerance is never looser than the replay's and never more than the tolerance away |
| `ProjectionLimits.ToleranceShows` | src/strategy_engine/strategies/ema_pullback/managed.py:669-695 | a frame, a break-even policy and a trade on which the replay and the documented consumer of the built projection hold different stops |
| `ProjectionLimits.ConfirmedPhaseExitDiverges` | src/strategy_engine/strategies/ema_pullback/historical_managed_projection.py:424-494 | a two-bar phase exit: on the entry bar of any trade the replay arms it, a consumer of the projection does not |
| `ProjectionLimits.CompiledCorrectly` | src/strategy_engine/strategies/ema_pullback/historical_managed_projection.py:248-498 | the projection built from a policy whose writes agree and whose closing phase exits confirm on one bar is a correct compilation: the consumer's run over any trade is the replay |
| `ProjectionLimits.SharedIdDiverges` | src/strategy_engine/strategies/ema_pullback/historical_managed_projection.py:274-339 | a policy of two phase rules under one id: over the entry bar of any trade the replay ends in another phase than a consumer of the projection built from it |
| `ReplaySafety.PhasesClimb` | src/strategy_engine/strategies/ema_pullback/managed.py:577-618 | over every run the phase is the highest one reached, its changes chain from the initial phase, and there are at most four |
| `ReplaySafety.StopTightens` | src/strategy_engine/strategies/ema_pullback/managed.py:619-695 | of any two states of a run the later one's stop is at least as tight, and a stop once set is never lost |
| `ReplaySafety.StopCovers` | src/strategy_engine/strategies/ema_pullback/managed.py:619-695 | the stop is never more than the tolerance looser than any proposal made so far |
| `ReplaySafety.ExtremesRight` | src/strategy_engine/strategies/ema_pullback/managed.py:327-342 | the recorded extremes are those of the entry price and of all bars seen |
| `ReplaySafety.EarlierIsPrefix` | src/strategy_engine/strategies/ema_pullback/managed.py:518-769 | a replay to an earlier target is a prefix of a longer one |
| `ReplayLocality.ReplayReadsNothingLater` | src/strategy_engine/strategies/ema_pullback/managed.py:518-769 | no look-ahead: states, events and decisions of a replay up to a bar are unchanged by any edit of the bars, columns and predicate masks after it |
| `OpenTrade.StartAfterEntry` | src/strategy_engine/strategies/ema_pullback/managed.py:806-869 | the open-trade projection: a desired stop never looser than the receipt's, exactly the receipt's until a rule moves it, and the receipt's take unless the policy disabled it |
| `WindowMath.WindowExtreme` | src/strategy_engine/strategies/ema_pullback/window_extreme.py:8-28 | every answer of the sparse table is attained in its index range and beaten by nothing in it |
| `WindowMath.ExtremeUnique` | src/strategy_engine/strategies/ema_pullback/window_extreme.py:8-28 | a value that is attained in a range and beaten by nothing in it is the extreme |
| `WindowMath.RowExtremes` | src/strategy_engine/strategies/ema_pullback/candles.py:93-170 | the extremes of the rows that have a window, scattered back to their rows |
| `WindowMath.NothingMissing` | src/strategy_engine/strategies/ema_pullback/predicates.py:2310-2352 | equal cumulated missing counts at both ends of a window mean that nothing in it is missing |
| `SortedWindow.InsortIsSorted` | src/strategy_engine/strategies/ema_pullback/leg_means.py:155-165 | inserting the next value into the sorted window gives the sorted longer window |
| `SortedWindow.TopIsLargest` | src/strategy_engine/strategies/ema_pullback/predicates.py:2484-2500 | no choice of k of the values has a larger sum than the top k, and the top k is such a choice |
| `SortedWindow.TopHoldsItsShare` | src/strategy_engine/strategies/ema_pullback/predicates.py:2470-2500 | the k largest of n magnitudes hold at least k/n of their sum |
| `SortedWindow.PaddingIsHarmless` | src/strategy_engine/strategies/ema_pullback/predicates.py:2484-2500 | zeros beyond the start of the window do not change the sum of the largest magnitudes |
| `SegmentValues.SegmentReadsNothingLater` | src/strategy_engine/strategies/ema_pullback/predicates.py:2262-2352 | no look-ahead: the segment at bar t is unchanged by any edit of the series after t |
| `SegmentValues.ShareIsBounded` | src/strategy_engine/strategies/ema_pullback/predicates.py:2470-2481 | the normalised share of the largest changes lies in [0, 1] wherever it is present |
| `SegmentValues.ConcentrationIsBounded` | src/strategy_engine/strategies/ema_pullback/predicates.py:2420-2481 | the concentration aggregate of every admitted segment lies in [0, 1] on every bar that has one |
| `SegmentMeaning.RowMeans` | src/strategy_engine/strategies/ema_pullback/predicates.py:2262-2300 | the current touch is the live episode's by number, and there is none before its first touch |
| `SegmentMeaning.WaveMeans` | src/strategy_engine/strategies/ema_pullback/candles.py:25-55 | a wave is the current touch's origin and peak bars, in order and none after the evaluated bar |
| `SegmentMeaning.LegMeans` | src/strategy_engine/strategies/ema_pullback/candles.py:25-55 | the impulse runs from origin to peak, the pullback over all bars after the peak |
| `SegmentMeaning.WindowHasBars` | src/strategy_engine/strategies/ema_pullback/predicates.py:2262-2312 | a window has its touch and both its bars, in order and none after the evaluated bar |
| `SegmentMeaning.WindowMeans` | src/strategy_engine/strategies/ema_pullback/predicates.py:2262-2312 | a window ends where its leg ends and holds the last `lastN` bars that count, or all of them when there are fewer; the leg's first bar counts as the boundary policy says |
| `SegmentMeaning.CombineMeans` | src/strategy_engine/strategies/ema_pullback/predicates.py:2420-2500 | every aggregate with its quotients cleared: sums, the mean times the bars, extremes attained and not beaten, magnitudes, and the normalised share |
| `SegmentMeaning.OverWindowMeans` | src/strategy_engine/strategies/ema_pullback/predicates.py:2310-2462 | the values combined are the levels, the changes since the first bar, or the changes over the span that lie inside the window and the bar before it |
| `SegmentMeaning.OverWindowHasValues` | src/strategy_engine/strategies/ema_pullback/predicates.py:2310-2462 | a window with a value misses none of the values it needs |
| `SegmentMeaning.EligibleMeans` | src/strategy_engine/strategies/ema_pullback/predicates.py:2386-2418 | eligibility in bars: both legs long enough, nothing missing over the last one-bar changes of each, and a rising impulse where asked for |
| `SegmentMeaning.SegmentMeans` | src/strategy_engine/strategies/ema_pullback/predicates.py:2262-2352 | the segment over a window is the combination of its values, its sign turned when asked for, missing exactly where an eligibility fails or a share has nothing to share |
| `SegmentScan.Telescopes` | src/strategy_engine/strategies/ema_pullback/predicates.py:2420-2462 | one-bar changes over a window add up to the difference of its ends |
| `SegmentScan.WindowTopSum` | src/strategy_engine/strategies/ema_pullback/predicates.py:2484-2500 | the zero-padded, sorted trailing windows yield the sum of the top largest magnitudes of each window |
| `SegmentScan.FromStartRows` | src/strategy_engine/strategies/ema_pullback/predicates.py:2354-2384 | aggregates of changes since the window's first bar, from the level's aggregate and the start level |
| `SegmentScan.ChangeRows` | src/strategy_engine/strategies/ema_pullback/predicates.py:2420-2462 | extremes, magnitudes and concentration of spanned changes over every window, missing exactly where a needed value is |
| `SegmentScan.EligibleWindows` | src/strategy_engine/strategies/ema_pullback/predicates.py:2386-2418 | eligibility by missing and leg counts is eligibility of both legs |
| `SegmentScan.ScanSegment` | src/strategy_engine/strategies/ema_pullback/predicates.py:2262-2500 | the whole vectorised segment refines the direct definition on every bar, for every value form, aggregate, touch, boundary policy and eligibility |
| `CandleValues.CandlesAreBuckets` | src/strategy_engine/strategies/ema_pullback/candles.py:93-130 | the candles of a leg are exactly its buckets clipped to the leg |
| `CandleValues.CandlesReadNothingLater` | src/strategy_engine/strategies/ema_pullback/candles.py:70-170 | without an ATR the largest candle of a leg that ends by t is settled by the bars up to t |
| `CandleScan.RowIsLargest` | src/strategy_engine/strategies/ema_pullback/candles.py:128-170 | one-bucket, two-bucket and many-bucket legs all meet the one definition of the largest candle |
| `CandleScan.ScanCandles` | src/strategy_engine/strategies/ema_pullback/candles.py:70-170 | on every bar: missing without a leg, otherwise the largest worth of the leg's clipped candles, where the worth times the candle's positive ATR is the nonnegative body in the leg's direction, and the ATR is written out in the bars and the ATR column: the candle's own when the candle ends before the leg or the leg's last bar closes it, the one before it otherwise |
| `CandleUnits.WorthIs` | src/strategy_engine/strategies/ema_pullback/candles.py:132-159 | the worth of a candle in the bars and the ATR column themselves: times its positive ATR it is the body in the leg's direction, never negative, and without a positive ATR there is none |
| `CandleUnits.LargestMeans` | src/strategy_engine/strategies/ema_pullback/candles.py:128-170 | the largest candle is worth what one candle of the leg is and no candle of the leg is worth more |
| `LegMeasures.LegTotals` | src/strategy_engine/strategies/ema_pullback/leg_means.py:74-120 | sums and means of every leg from prefix sums, missing where a value of the leg is |
| `LegMeasures.LegTopMeans` | src/strategy_engine/strategies/ema_pullback/leg_means.py:123-167 | the kept window is always the sorted leg slice, so the mean is that of the leg's largest share |
| `LegMeasures.EfficiencyIsBounded` | src/strategy_engine/strategies/ema_pullback/leg_efficiency.py:16-43 | efficiency is in [0, 1]: no path is shorter than its net move |
| `LegMeasures.LegEfficiencies` | src/strategy_engine/strategies/ema_pullback/leg_efficiency.py:16-43 | cumulated steps give net move over path length on every bar, missing where the leg cannot be measured |
| `LegMeasures.PullbackDepths` | src/strategy_engine/strategies/ema_pullback/pullback_depth.py:20-60 | the carried extreme is the extreme from the peak to the bar, so the depth is the direct one |
| `LegMeasures.PreviousDepths` | src/strategy_engine/strategies/ema_pullback/pullback_depth.py:62-91 | the remembered depth of the previous touch is its own on every bar that reads it |
| `LegMeasures.FormingRanges` | src/strategy_engine/strategies/ema_pullback/forming_candle.py:61-92 | the range of the forming candle over its bucket prefix in units of the ATR at its open, present exactly for aligned gap-free prefixes of finite prices |
| `LegMeasures.LegsReadNothingLater` | src/strategy_engine/strategies/ema_pullback/leg_means.py:74-167 | no leg measure at bar t reads the series after t |
| `LegMeaning.TotalMeans` | src/strategy_engine/strategies/ema_pullback/leg_means.py:74-120 | a leg without gaps has its sum, and a mean that times the number of bars is the sum |
| `LegMeaning.TopMeanMeans` | src/strategy_engine/strategies/ema_pullback/leg_means.py:123-167 | the count is the least one of at least 1 that is not below the share of the bars; the mean times the count is the sum of the largest values |
| `LegMeaning.EfficiencyMeans` | src/strategy_engine/strategies/ema_pullback/leg_efficiency.py:16-43 | efficiency times the sum of the step lengths is the distance between the first and the last close, there exactly when the closes move |
| `LegMeaning.DepthMeans` | src/strategy_engine/strategies/ema_pullback/pullback_depth.py:20-60 | depth times the height of the impulse is what the deepest price since the peak gave back |
| `LegMeaning.PreviousDepthMeans` | src/strategy_engine/strategies/ema_pullback/pullback_depth.py:62-91 | the same for the touch before, up to the origin of the current wave |
| `LegMeaning.FormingMeans` | src/strategy_engine/strategies/ema_pullback/forming_candle.py:61-92 | with the bucket opened by a bar and no gap since, the range times the ATR of the opening bar is the highest high less the lowest low |
| `LegMeaning.FormingHasBucket` | src/strategy_engine/strategies/ema_pullback/forming_candle.py:61-92 | a forming candle with a range was opened on its boundary by a bar with a positive ATR and misses no bar and no price |
| `AdxDmi.WilderRma` | src/strategy_engine/indicators/implementations/adx_dmi.py:48-72 | the seeded average on every bar: missing before the first full window and for good after a gap |
| `AdxDmi.ComputeAdxDmi` | src/strategy_engine/indicators/implementations/adx_dmi.py:75-105 | the three columns, the indicators hidden over the first period |
| `AdxDmi.MovesFitRange` | src/strategy_engine/indicators/implementations/adx_dmi.py:84-95 | on every bar the two movements together never exceed the true range |
| `AdxDmi.AveragesFit` | src/strategy_engine/indicators/implementations/adx_dmi.py:48-72 | three parallel recurrences: columns that fit into a third bar by bar have averages that do |
| `AdxDmi.IndicatorsBounded` | src/strategy_engine/indicators/implementations/adx_dmi.py:92-105 | DI+ and DI- are nonnegative, add up to at most 100, and are present together |
| `AdxDmi.AdxBounded` | src/strategy_engine/indicators/implementations/adx_dmi.py:75-105 | ADX lies in [0, 100] for every candle series with closes inside their ranges and every period |
| `AdxDmi.AdxLocal` | src/strategy_engine/indicators/implementations/adx_dmi.py:75-105 | ADX reads no candle after its own |
| `AdxMeaning.MovementMeans` | src/strategy_engine/indicators/implementations/adx_dmi.py:84-91 | at most one movement of a bar is positive: the rise of the high or the fall of the low, whichever is larger |
| `AdxMeaning.RangeMeans` | src/strategy_engine/indicators/implementations/adx_dmi.py:84-91 | the true range is the width of the smallest band around the bar's range and the last close |
| `AdxMeaning.AverageMeans` | src/strategy_engine/indicators/implementations/adx_dmi.py:48-72 | the average in values: the mean of the first full window, then the last average weighed `period - 1` times against one value, and nothing from the first gap on |
| `AdxMeaning.IndicatorMeans` | src/strategy_engine/indicators/implementations/adx_dmi.py:92-105 | an indicator times the average range is a hundred times the average movement of its own side |
| `AdxMeaning.DistanceMeans` | src/strategy_engine/indicators/implementations/adx_dmi.py:92-105 | the relative distance times the sum of the indicators is a hundred times their distance |
| `AdxMeaning.OneSided` | src/strategy_engine/indicators/implementations/adx_dmi.py:84-105 | where lows never fall DI- is zero, where highs never rise DI+ is |
| `AdxMeaning.OneSidedTrend` | src/strategy_engine/indicators/implementations/adx_dmi.py:75-105 | in a market that moves one way only ADX is a hundred wherever it is there |
| `ExitNodes.ConfirmedCross` | src/strategy_engine/strategies/ema_pullback/exits.py:282-309 | a confirmed cross exit fires on one bar only: `confirm_bars - 1` bars after the cross, if every bar since is lost |
| `ExitMeaning.RsiMeans` | src/strategy_engine/strategies/ema_pullback/exits.py:261-281 | an RSI exit leaves a long above the long threshold and a short below the short one |
| `ExitMeaning.CloseLossMeans` | src/strategy_engine/strategies/ema_pullback/exits.py:282-309 | a close loss fires exactly when the last `confirm` closes all stand on the losing side of the average |
| `ExitMeaning.CrossLossMeans` | src/strategy_engine/strategies/ema_pullback/exits.py:282-309 | a cross loss fires exactly `confirm` bars after the last bar on which the fast average stood, if it has been on the losing side since |
| `ExitMeaning.DisabledSide` | src/strategy_engine/strategies/ema_pullback/exits.py:261-281 | a rule fires on no bar of a side that is not enabled |
| `ExitMeaning.DistanceMeans` | src/strategy_engine/strategies/ema_pullback/exits.py:316-362 | an ATR distance is its column, a dollar distance its amount, a percentage its own ratio; the ratio of the close is the distance |
| `ExitMeaning.DistanceRuleCounts` | src/strategy_engine/strategies/ema_pullback/exits.py:443-488 | a distance rule counts exactly when it is named, of its declared kind, its distance is computed, and a partial take's fraction lies strictly between 0 and 1 |
| `ExitMeaning.SignalRuleCounts` | src/strategy_engine/strategies/ema_pullback/exits.py:443-488 | a signal rule counts exactly when it is named, of its kind, and the signal of every enabled side is computed |
| `ExitNodes.SignalTwin` | src/strategy_engine/strategies/ema_pullback/exits.py:821-872 | a signal rule's identity denotes what the rule computes, and resolution fails only where computation does, alike |
| `ExitNodes.DistanceTwin` | src/strategy_engine/strategies/ema_pullback/exits.py:875-913 | a distance rule's identity denotes its distance and ratio columns, and resolution fails only where computation does, alike |
| `ExitPolicy.SelectedExact` | src/strategy_engine/strategies/ema_pullback/exits.py:491-522 | what a profile's aggregate reads: exactly the ids of the rules of that kind in `always_on` or the profile |
| `ExitPolicy.MinAt` | src/strategy_engine/strategies/ema_pullback/exits.py:383-386 | the aggregate ratio is the least present one, missing only where all are |
| `ExitAttribution.PickLegAttribution` | src/strategy_engine/strategies/historical_execution_projection.py:63-85 | the first declared rule of the kind, in force under the profile and with a present ratio, whose distance to the aggregate is at most 1e-9 times the larger of 1 and the aggregate; unattributed when there is none |
| `ExitAttribution.PartialTakes` | src/strategy_engine/strategies/historical_execution_projection.py:117-157 | the legs in force with their own ratios, or the refusal of a missing one, sorted |
| `ExitAttribution.SortIsStable` | src/strategy_engine/strategies/historical_execution_projection.py:157 | the ladder is ascending and legs at one level keep their declared order, none lost |
| `ExitAttribution.EntryOpportunities` | src/strategy_engine/strategies/historical_execution_projection.py:160-240 | long opportunities before short ones, refused on a bar executable for both sides |
| `ExitAttribution.ProfileEvents` | src/strategy_engine/strategies/historical_execution_projection.py:243-292 | events in bar order with the firing rules as candidates |
| `ExitTheorems.AggregateIsLeast` | src/strategy_engine/strategies/ema_pullback/exits.py:655-718 | with unique ids an aggregate is the least of the ratios of the rules in force |
| `ExitTheorems.PickIsFirstRule` | src/strategy_engine/strategies/historical_execution_projection.py:63-85 | the pick is the first declared rule in force within the written-out band of the aggregate, or there is none |
| `ExitTheorems.AttributedExactly` | src/strategy_engine/strategies/historical_execution_projection.py:55-85 | when every ratio in force equals the least one or is further from it than the band, the attributed rule has exactly the aggregate's ratio |
| `ExitAttribution.MatchMeans` | src/strategy_engine/strategies/historical_execution_projection.py:55-60 | close enough is a distance of at most 1e-9 times the larger of 1 and the aggregate |
| `ExitTheorems.LegTotal` | src/strategy_engine/strategies/historical_execution_projection.py:88-114 | every present aggregate has its rule: the unattributed leg cannot occur |
| `ExitTheorems.TakesTotal` | src/strategy_engine/strategies/historical_execution_projection.py:117-157 | where every take in force has its ratio, the ladder holds exactly the declared legs |
| `ExitTheorems.ProfileExact` | src/strategy_engine/strategies/ema_pullback/exits.py:419-436 | readiness is exactly: a stop and a take where configured, and all partial takes in force |
| `ExitProjection.OpportunityExact` | src/strategy_engine/strategies/historical_execution_projection.py:202-240 | a ready bar always has its opportunity: a leg per configured kind, its ratio the least in force, attributed to the first declared rule behind it, and all its takes |
| `ExitProjection.OpportunitiesExact` | src/strategy_engine/strategies/historical_execution_projection.py:160-240 | none of the internal assertions on legs and takes can trip: the projection is refused if and only if both sides are executable on one bar, and otherwise holds one opportunity per executable bar |
| `ExitProjection.SignalEventsExact` | src/strategy_engine/strategies/historical_execution_projection.py:243-292 | signal events are exactly the bars on which a rule in force fires, with exactly those rules as candidates, on both sides and under every profile |
| `ExitProjection.RepeatedIdBreaks` | src/strategy_engine/strategies/ema_pullback/exits.py:586-718 | why ids must be unique: two stops under one id leave an aggregate no rule in force accounts for |
| `ExitIdentity.ResolveExitPolicy` | src/strategy_engine/strategies/ema_pullback/exits.py:964-1070 | the nodes of all rules, aggregates and selections, up to the first unresolved rule |
| `ExitIdentity.ExitPolicyConsumptions` | src/strategy_engine/strategies/ema_pullback/exits.py:1092-1124 | the predicted consumptions: signal rules per side, distance rules, six aggregates per profile, ten selections, readiness |
| `ExitIdentity.PredictionIsRules` | src/strategy_engine/strategies/ema_pullback/exits.py:1092-1124 | with unique ids the dictionaries predict what the rules consume in declared order |
| `ExitTwin.FilledTwin` | src/strategy_engine/strategies/ema_pullback/exits.py:586-640 | every entry of the dictionaries is what the entry's node denotes |
| `ExitTwin.LeastTwin` | src/strategy_engine/strategies/ema_pullback/exits.py:383-386 | an aggregate over an unordered set of rule nodes denotes the minimum over the declared list, so order and repetition are no part of its identity |
| `ExitTwin.ReadyTwin` | src/strategy_engine/strategies/ema_pullback/exits.py:419-436 | readiness is what its node denotes |
| `ExitTwin.SelectFloatTwin` | src/strategy_engine/strategies/ema_pullback/exits.py:389-403 | the positional gather by profile is what its node denotes |
| `ExitEvaluation.Through` | src/strategy_engine/indicators/evaluation_context.py:374-387 | a computation through the context under its identity has its own outcome and makes one call |
| `ExitEvaluation.EvaluateRules` | src/strategy_engine/strategies/ema_pullback/exits.py:586-642 | the rules in declared order fill the dictionaries of the plain evaluation, or fail as it does |
| `ExitRun.EvaluateExitPolicy` | src/strategy_engine/strategies/ema_pullback/exits.py:553-789 | through any sound memo the policy evaluates to the plain evaluation; a run that succeeds consumes as a multiset exactly the prediction, a failed one no more; identities with repeated ids are never used |
| `ExitBatch.EvaluateExitRoot` | src/strategy_engine/strategies/ema_pullback/exits.py:553-789 | one root of a planned batch: the plain evaluation, no more consumptions than predicted, and every promise on the memo kept for the roots still to come |
| `ExitBatch.StreamExitPolicies` | src/strategy_engine/strategies/application/evaluate_range_batch.py:88-131 | the exit policies of a whole batch over one memo, delivery written out: each variant is delivered its plain evaluation or its refusal, with the memo on no exit node is computed twice over the batch, and a stream that ends retains nothing |
| `ExitRun.CountedOnce` | src/strategy_engine/strategies/ema_pullback/exits.py:531-550 | as many ids as rules means that no id is repeated |
| `ExitRun.MatchesMeans` | src/strategy_engine/strategies/ema_pullback/exits.py:531-550 | identities fit a policy exactly when no rule id is repeated and the dictionaries hold the ids of its signal rules and of its distance rules, and no others |
| `LiveHistory.IntervalChangeValues` | src/strategy_engine/strategies/ema_pullback/predicates.py:2146-2179 | the fixed-interval change on every bar, missing before the interval fits |
| `LiveHistory.FixedMeans` | src/strategy_engine/strategies/ema_pullback/predicates.py:2146-2179 | a change with its quotients cleared, for each of the four operations; there exactly when both ends are and a relative one starts away from zero |
| `LiveHistory.HistoryIsLongest` | src/strategy_engine/strategies/ema_pullback/live_calculation_requirements.py:73-97 | an operand's history is the longest interval measured in it, no more and no less |
| `LiveHistory.ConditionRows` | src/strategy_engine/strategies/ema_pullback/live_calculation_requirements.py:131-195 | a condition asks for the longest history of its operands, a change for its lookback in candles of the feature's timeframe |
| `LiveHistory.WindowRows` | src/strategy_engine/strategies/ema_pullback/live_calculation_requirements.py:131-195 | a window asks for one candle less than it is long on top of what it looks at |
| `LiveHistory.WindowMaskByCounts` | src/strategy_engine/strategies/ema_pullback/predicates.py:2679-2692 | the counted window mask is the window predicate: all of the last bars, or one of them |
| `LiveHistory.OperandSame` | src/strategy_engine/strategies/ema_pullback/live_calculation_requirements.py:73-97 | an operand without episodes has the same value at the target in a frame cut before its displacement |
| `LiveHistory.CutExists` | src/strategy_engine/strategies/ema_pullback/live_calculation_requirements.py:73-97 | every market can be cut at every bar, so the theorems on cut frames speak of all of them |
| `LiveHistory.WindowSame` | src/strategy_engine/strategies/ema_pullback/predicates.py:2679-2692 | a window over bits that agree from its first bar on gives the same answer |
| `LiveHistory.HistorySuffices` | src/strategy_engine/strategies/ema_pullback/live_calculation_requirements.py:131-195 | live history is sufficient: on the required rows before the target every admitted episode-free predicate gives the bit, or the refusal, of the whole history; a window over a higher-timeframe change included |
| `HigherTimeframe.ResampledExactly` | src/strategy_engine/indicators/implementations/frame_ops.py:42-57 | every candle summarises exactly the bars of its own bucket, buckets increasing |
| `HigherTimeframe.ClosedRowsBefore` | src/strategy_engine/indicators/implementations/frame_ops.py:60-75 | no row after the queried one lies in a completed bucket; at bar open not that one either |
| `HigherTimeframe.AlignedIsLastCompleted` | src/strategy_engine/indicators/implementations/frame_ops.py:60-75 | a row reads the feature as if the candles completed by its query time were all there is |
| `HigherTimeframe.ReadsLastEnded` | src/strategy_engine/indicators/implementations/frame_ops.py:60-75 | in times: a row reads the candle that ended last by the time its bar opens, or closes, and nothing while none has ended |
| `HigherTimeframe.NeverRepaints` | src/strategy_engine/indicators/implementations/range_evaluator.py:246-254 | for every causal feature and both availabilities a row's value is settled by the bars it may know, however later bars turn out |
| `HigherTimeframe.EndsLater` | src/strategy_engine/indicators/implementations/range_evaluator.py:246-254 | a range that ends at a row gives it the value of every longer range |
| `HigherTimeframe.AdxIsCausal` | src/strategy_engine/indicators/implementations/adx_dmi.py:75-105 | ADX is a causal feature: its value on a candle is settled by the candles up to it |
| `HigherTimeframe.HigherAdx` | src/strategy_engine/indicators/implementations/range_evaluator.py:246-254 | higher-timeframe ADX never repaints and stays in [0, 100] |

## Left out

- OperandIdentity.SameNodeSameValue: for operands that pass the guard on unread features; outside it the statement is false, and the exact condition is `UnreadFeatureDecides`.
- ProjectionParity.TradeParity: for evaluation offset 0, the only one a consumer of the projection has; conditions on single bars refer to the replay's state there.
- CandleValues.CandlesReadNothingLater: only without an ATR, because the own ATR of a candle may be read from the next candle's row.
- LiveHistory.HistorySuffices: indicator columns of the cut frame are taken to be warmed up (their warm-up is a separate requirement); forming-candle operands and operands over episodes are not covered.
- HigherTimeframe.NeverRepaints: buckets are aligned to the epoch, as for timeframes that divide a day; weekly and other anchored timeframes are library behaviour.
- PredicateBatch.StreamJobs: variants are made of predicates; entries, setups and triggers are not part of the batch model. The exit policy's batch theorem is separate (`StreamExitPolicies`).
- ExitRun.EvaluateExitPolicy: which column a label names, and the profile series, are inputs; the groups come as one list of rules in declared order.
- Episode tables, entry masks and context states are inputs; how `stack_episode.py`, `setups.py`, `triggers.py` and `contexts.py` compute them is not part of this model. Tables are taken as built: rows inside the touch table, known bars not negative.
- In the operand language the per-leg and per-touch evaluators are functions of the market; `segment_values`, `candle_values` and the leg measures are modelled on their own, the remaining ones (anchor follow, speed, impulse in ATR, leg change, window change, values at a point) are not.
- Infinite prices, floating-point rounding and array dtypes; thresholds and distances of the exit rules are reals.
- Series lengths equal the bar count of their frame, and the empty string names no column.
- Pandas index alignment and library resampling beyond what is stated, hashing, serialization, HTTP, settings and the market data client.
- Exceptions are modelled by category, text, arguments and payload; tracebacks, chaining and the `details` labels of refusals are not.
- Locks and threads around the context, generators abandoned by their consumer in mid-stream, and per-context identity checks of the market frame.
- Spec parsers and validators: models start from parsed values, with the parser's guarantees as stated predicates.
- Diagnostics and traces (`predicate_value`, decision diagnostics, counters), legacy decision events, live entry plans.
- The bounce-counter history tiers and the per-component history table of the live planner: constants per component, without a property that spans them.
