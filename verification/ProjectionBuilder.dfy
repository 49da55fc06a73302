/** The builder of the managed projection: it fills the condition and distance dictionaries rule by rule
    under string ids, and appends the rules that refer to them. Every method is proved to perform exactly the
    writes of its part of the policy, in the order the policy declares them. */
module ProjectionBuilder {
  import opened NodeProgram
  import opened EpisodeTables
  import opened ManagedPolicy
  import opened CompositeFold
  import opened ManagedReplay
  import opened ManagedProjection
  import opened ProjectionWrites

  // -- the two folds of a composite ----------------------------------------------------------

  lemma MasksAre(frame: Frame, side: Side, children: seq<Child>, masks: Masks)
    requires MasksRight(frame, side, children, masks)
    ensures masks == MasksOf(frame, side, children)
  {
    forall id | Find(children, id).Some? ensures id in Ids(children) {
      FindKnown(children, id);
    }
    forall id | id in masks ensures masks[id] == MarketMask(frame, side, Find(children, id).value) {
    }
  }

  lemma PathMaskIs(frame: Frame, side: Side, children: seq<Child>, path: Path, folded: FoldedPath)
    requires PathFolded(|frame.bars|, MasksOf(frame, side, children), path, folded)
    ensures folded.market.Some? ==> folded.market.value == PathMask(frame, side, children, path)
  {
  }

  /** The two folds of a composite, at one of its paths. */
  ghost predicate FoldsOf(frame: Frame, children: seq<Child>, path: Path, long: Folded, short: Folded, k: nat) {
    && k < |long.paths| && k < |short.paths|
    && long.masks == MasksOf(frame, Long, children) && short.masks == MasksOf(frame, Short, children)
    && PathFolded(|frame.bars|, long.masks, path, long.paths[k])
    && PathFolded(|frame.bars|, short.masks, path, short.paths[k])
  }

  /** Both sides fold a path in the same way, into the masks of that side. */
  lemma FoldedSides(frame: Frame, children: seq<Child>, path: Path, long: Folded, short: Folded, k: nat)
    requires FoldsOf(frame, children, path, long, short, k)
    ensures var folded, mirror := long.paths[k], short.paths[k];
            && (folded.market.Some? <==> HasMarketPart(frame, children, path))
            && (folded.market.Some? ==>
                  && mirror.market.Some?
                  && ConditionSeries(folded.market.value, mirror.market.value) == PathSeries(frame, children, path))
            && (folded.atLeast.Some? <==> path.atLeast.Some? && !Votes(MasksOf(frame, Long, children), path))
            && (folded.atLeast.Some? ==> folded.atLeast == path.atLeast)
            && TradeRefs(children, folded.tradeRequire) == TradeRefs(children, path.require)
            && ChangeRefs(children, folded.tradeRequire) == ChangeRefs(children, path.require)
  {
    PathMaskIs(frame, Long, children, path, long.paths[k]);
    PathMaskIs(frame, Short, children, path, short.paths[k]);
    SameMarketRefs(frame, children);
    SameVotes(long.masks, short.masks, path.require);
    if path.atLeast.Some? {
      SameVotes(long.masks, short.masks, path.atLeast.value.of);
    }
    MasksMarket(frame, Long, children);
    UntradedKeeps(children, long.masks, path.require);
  }

  /** The masks' ids are the market references. */
  lemma MasksMarket(frame: Frame, side: Side, children: seq<Child>)
    ensures forall ref :: ref in MasksOf(frame, side, children) <==> MarketRef(children, ref)
  {
    forall ref | Find(children, ref).Some? ensures ref in Ids(children) {
      FindKnown(children, ref);
    }
  }

  lemma {:induction false} UntradedKeeps(children: seq<Child>, masks: Masks, refs: seq<string>)
    requires forall ref :: ref in masks <==> MarketRef(children, ref)
    ensures TradeRefs(children, Untraded(masks, refs)) == TradeRefs(children, refs)
    ensures ChangeRefs(children, Untraded(masks, refs)) == ChangeRefs(children, refs)
  {
    if |refs| > 0 {
      var most, last := refs[..|refs| - 1], refs[|refs| - 1];
      UntradedKeeps(children, masks, most);
      if last !in masks {
        assert (Untraded(masks, most) + [last])[..|Untraded(masks, most)|] == Untraded(masks, most);
      }
    }
  }

  lemma UntradedKnown(frame: Frame, children: seq<Child>, path: Path, refs: seq<string>)
    requires PathParsed(children, path) && refs == Untraded(MasksOf(frame, Long, children), path.require)
    ensures forall ref | ref in refs :: Find(children, ref).Some? && !MarketRef(children, ref)
  {
    MasksMarket(frame, Long, children);
    UntradedAre(MasksOf(frame, Long, children), path.require);
    forall ref | ref in refs ensures Find(children, ref).Some? {
      RefersFinds(children, ref);
    }
  }

  lemma CountedKnown(frame: Frame, children: seq<Child>, path: Path)
    requires PathParsed(children, path)
    ensures forall ref | ref in Counted(frame, children, path) ::
              Find(children, ref).Some? && (ref in MasksOf(frame, Long, children) <==> MarketRef(children, ref))
  {
    MasksMarket(frame, Long, children);
    forall ref | ref in Counted(frame, children, path) ensures Find(children, ref).Some? {
      RefersFinds(children, ref);
    }
  }

  // -- the builder ---------------------------------------------------------------------------

  lemma NothingApplied<T>(entries: map<string, T>)
    ensures var none: seq<Write<T>> := []; Applied(entries, none) == entries
  {
  }

  class Builder {
    var conditions: Conditions
    var distances: Distances
    var rules: seq<ManagedRule>

    constructor ()
      ensures conditions == map[] && distances == map[] && rules == []
    {
      conditions, distances, rules := map[], map[], [];
    }

    /** The series of a market child, written once however many terms refer to it. */
    method MarketTermId(
      frame: Frame, o: Owner, children: seq<Child>, long: Masks, short: Masks, ref: string)
      returns (id: string)
      requires long == MasksOf(frame, Long, children) && short == MasksOf(frame, Short, children) && ref in long
      modifies `conditions
      ensures id == ConditionKey(o, ref)
      ensures conditions == Applied(old(conditions), RefConditions(frame, o, children, ref))
    {
      id := ConditionKey(o, ref);
      if id !in conditions {
        conditions := conditions[id := ConditionSeries(long[ref], short[ref])];
      }
      AppliedOne(old(conditions), Write(id, MarketSeries(frame, Find(children, ref).value), true));
    }

    method TradeTermOf(frame: Frame, o: Owner, children: seq<Child>, ref: string) returns (threshold: Threshold)
      requires TradeRef(children, ref)
      modifies `distances
      ensures threshold == ThresholdFor(o, children, ref)
      ensures distances == Applied(old(distances), RefDistances(frame, o, children, ref))
    {
      hide DistanceKey, ThresholdSeries, Applied;
      var atom := Find(children, ref).value.atom;
      var id := DistanceKey(o, ref);
      if id !in distances {
        distances := distances[id := ThresholdSeries(frame, atom)];
      }
      threshold := Threshold(id, MetricOf(atom));
      AppliedOne(old(distances), Write(id, ThresholdSeries(frame, atom), true));
    }

    method ChangeTermOf(frame: Frame, o: Owner, children: seq<Child>, ref: string) returns (change: EntryChange)
      requires ChangeRef(children, ref)
      modifies `distances
      ensures change == ChangeFor(o, children, ref)
      ensures distances == Applied(old(distances), RefDistances(frame, o, children, ref))
    {
      hide SeriesKey, SeriesOf, Applied;
      var content := Find(children, ref).value;
      var id := SeriesKey(o, ref);
      if id !in distances {
        distances := distances[id := SeriesOf(frame, Some(content.feature))];
      }
      change := EntryChange(id, content.op, content.amount);
      AppliedOne(old(distances), Write(id, SeriesOf(frame, Some(content.feature)), true));
    }

    method TermOf(frame: Frame, o: Owner, children: seq<Child>, long: Masks, short: Masks, ref: string)
      returns (term: Term)
      requires long == MasksOf(frame, Long, children) && short == MasksOf(frame, Short, children)
      requires Find(children, ref).Some? && (ref in long <==> MarketRef(children, ref))
      modifies `conditions, `distances
      ensures term == TermFor(o, children, ref)
      ensures conditions == Applied(old(conditions), RefConditions(frame, o, children, ref))
      ensures distances == Applied(old(distances), RefDistances(frame, o, children, ref))
    {
      hide ConditionKey, ThresholdFor, ChangeFor, MasksOf;
      if ref in long {
        var id := MarketTermId(frame, o, children, long, short, ref);
        term := MarketTerm(id);
      } else if Find(children, ref).value.ChangeChild? {
        var change := ChangeTermOf(frame, o, children, ref);
        term := ChangeTerm(change);
      } else {
        var threshold := TradeTermOf(frame, o, children, ref);
        term := TradeTerm(threshold);
      }
    }

    method TermsOf(frame: Frame, o: Owner, children: seq<Child>, long: Masks, short: Masks, refs: seq<string>)
      returns (terms: seq<Term>)
      requires long == MasksOf(frame, Long, children) && short == MasksOf(frame, Short, children)
      requires forall ref | ref in refs :: Find(children, ref).Some? && (ref in long <==> MarketRef(children, ref))
      modifies `conditions, `distances
      ensures terms == TermsFor(o, children, refs)
      ensures conditions == Applied(old(conditions), RefsConditions(frame, o, children, refs))
      ensures distances == Applied(old(distances), RefsDistances(frame, o, children, refs))
    {
      hide TermFor, RefConditions, RefDistances, MasksOf, MarketRef, Find;
      terms := [];
      var k := 0;
      while k < |refs|
        invariant 0 <= k <= |refs|
        invariant terms == TermsFor(o, children, refs[..k])
        invariant conditions == Applied(old(conditions), RefsConditions(frame, o, children, refs[..k]))
        invariant distances == Applied(old(distances), RefsDistances(frame, o, children, refs[..k]))
      {
        var term := TermOf(frame, o, children, long, short, refs[k]);
        terms := terms + [term];
        assert refs[..k + 1][..k] == refs[..k];
        AppliedTwice(old(conditions), RefsConditions(frame, o, children, refs[..k]),
                     RefConditions(frame, o, children, refs[k]));
        AppliedTwice(old(distances), RefsDistances(frame, o, children, refs[..k]),
                     RefDistances(frame, o, children, refs[k]));
        k := k + 1;
      }
      assert refs[..k] == refs;
    }

    /** The thresholds of the required trade children, in declared order: `refs` names no market child. */
    method ThresholdsOf(frame: Frame, o: Owner, children: seq<Child>, refs: seq<string>)
      returns (thresholds: seq<Threshold>)
      requires forall ref | ref in refs :: Find(children, ref).Some? && !MarketRef(children, ref)
      modifies `distances
      ensures thresholds == ThresholdsFor(o, children, TradeRefs(children, refs))
      ensures distances == Applied(old(distances), RefsDistances(frame, o, children, TradeRefs(children, refs)))
    {
      hide ThresholdFor, RefDistances, MarketRef, ChangeRef, Find;
      thresholds := [];
      var k := 0;
      while k < |refs|
        invariant 0 <= k <= |refs|
        invariant thresholds == ThresholdsFor(o, children, TradeRefs(children, refs[..k]))
        invariant distances == Applied(old(distances), RefsDistances(frame, o, children, TradeRefs(children, refs[..k])))
      {
        assert refs[..k + 1][..k] == refs[..k];
        var ref, trade := refs[k], TradeRefs(children, refs[..k]);
        if !ChangeRef(children, ref) {
          NeitherIsTrade(children, ref);
          var threshold := TradeTermOf(frame, o, children, ref);
          thresholds := thresholds + [threshold];
          AppliedTwice(old(distances), RefsDistances(frame, o, children, trade), RefDistances(frame, o, children, ref));
          assert (trade + [ref])[..|trade|] == trade;
        }
        k := k + 1;
      }
      assert refs[..k] == refs;
    }

    /** The required entry changes, in declared order. */
    method ChangesOf(frame: Frame, o: Owner, children: seq<Child>, refs: seq<string>)
      returns (changes: seq<EntryChange>)
      modifies `distances
      ensures changes == ChangesFor(o, children, ChangeRefs(children, refs))
      ensures distances == Applied(old(distances), RefsDistances(frame, o, children, ChangeRefs(children, refs)))
    {
      hide ChangeFor, RefDistances, ChangeRef;
      changes := [];
      var k := 0;
      while k < |refs|
        invariant 0 <= k <= |refs|
        invariant changes == ChangesFor(o, children, ChangeRefs(children, refs[..k]))
        invariant distances == Applied(old(distances), RefsDistances(frame, o, children, ChangeRefs(children, refs[..k])))
      {
        assert refs[..k + 1][..k] == refs[..k];
        var ref, some := refs[k], ChangeRefs(children, refs[..k]);
        if ChangeRef(children, ref) {
          var change := ChangeTermOf(frame, o, children, ref);
          changes := changes + [change];
          AppliedTwice(old(distances), RefsDistances(frame, o, children, some), RefDistances(frame, o, children, ref));
          assert (some + [ref])[..|some|] == some;
        }
        k := k + 1;
      }
      assert refs[..k] == refs;
    }

    /** One path: its folded market part, a mixed vote, and its required trade children. */
    method PathOf(
      frame: Frame, o: Owner, children: seq<Child>, path: Path, long: Folded, short: Folded, k: nat)
      returns (out: TransitionPath)
      requires FoldsOf(frame, children, path, long, short, k) && PathParsed(children, path)
      modifies `conditions, `distances
      ensures out == PathFor(frame, o, children, path)
      ensures conditions == Applied(old(conditions), PathConditions(frame, o, children, path))
      ensures distances == Applied(old(distances), PathDistances(frame, o, children, path))
    {
      hide HasMarketPart, PathKey, PathSeries, TermsFor, ThresholdsFor, ChangesFor, TradeRefs, ChangeRefs;
      hide RefsConditions, RefsDistances, Untraded, MasksOf;
      var folded, mirror := long.paths[k], short.paths[k];
      FoldedSides(frame, children, path, long, short, k);
      MixedMeans(frame, children, path);
      ghost var counted, market := Counted(frame, children, path), [];
      var conditionId := None;
      if folded.market.Some? {
        var id := PathKey(o, path.id);
        market := [Write(id, PathSeries(frame, children, path), false)];
        AppliedOne(conditions, market[0]);
        conditions := conditions[id := ConditionSeries(folded.market.value, mirror.market.value)];
        conditionId := Some(id);
      }
      assert conditions == Applied(old(conditions), market);
      var atLeast := None;
      if folded.atLeast.Some? {
        CountedKnown(frame, children, path);
        var terms := TermsOf(frame, o, children, long.masks, short.masks, folded.atLeast.value.of);
        atLeast := Some(TermsAtLeast(folded.atLeast.value.k, terms));
      }
      CountedApplied(frame, o, children, path, old(conditions), old(distances), market);
      UntradedKnown(frame, children, path, folded.tradeRequire);
      var thresholds := ThresholdsOf(frame, o, children, folded.tradeRequire);
      var changes := ChangesOf(frame, o, children, folded.tradeRequire);
      RequiredApplied(frame, o, children, path, old(distances));
      out := TransitionPath(path.id, conditionId, thresholds, changes, atLeast);
    }

    method CompositePaths(frame: Frame, o: Owner, children: seq<Child>, paths: seq<Path>)
      returns (outs: seq<TransitionPath>)
      requires Aligned(frame) && CompositeParsed(frame, children, paths)
      modifies `conditions, `distances
      ensures outs == PathsFor(frame, o, children, paths)
      ensures conditions == Applied(old(conditions), PathsConditions(frame, o, children, paths))
      ensures distances == Applied(old(distances), PathsDistances(frame, o, children, paths))
    {
      hide PathFor, PathConditions, PathDistances, PathParsed, PathFolded, MasksOf, DistinctIds;
      var long := FoldPhasePaths(frame, children, paths, Long);
      var short := FoldPhasePaths(frame, children, paths, Short);
      MasksAre(frame, Long, children, long.masks);
      MasksAre(frame, Short, children, short.masks);
      outs := [];
      var k := 0;
      while k < |paths|
        invariant 0 <= k <= |paths|
        invariant outs == PathsFor(frame, o, children, paths[..k])
        invariant conditions == Applied(old(conditions), PathsConditions(frame, o, children, paths[..k]))
        invariant distances == Applied(old(distances), PathsDistances(frame, o, children, paths[..k]))
      {
        var out := PathOf(frame, o, children, paths[k], long, short, k);
        outs := outs + [out];
        assert paths[..k + 1][..k] == paths[..k];
        AppliedTwice(old(conditions), PathsConditions(frame, o, children, paths[..k]),
                     PathConditions(frame, o, children, paths[k]));
        AppliedTwice(old(distances), PathsDistances(frame, o, children, paths[..k]),
                     PathDistances(frame, o, children, paths[k]));
        k := k + 1;
      }
      assert paths[..k] == paths;
    }

    /** Atomic rules overwrite whatever stands under their id. */
    method PhaseRuleOf(frame: Frame, rule: PhaseRule) returns (out: ManagedRule)
      requires Aligned(frame) && ConditionParsed(frame, rule.condition)
      modifies `conditions, `distances
      ensures out == PhaseRuleFor(frame, rule)
      ensures conditions == Applied(old(conditions), PhaseConditions(frame, rule))
      ensures distances == Applied(old(distances), PhaseDistances(frame, rule))
    {
      hide PathsFor, PathsConditions, PathsDistances, Prefix, ThresholdSeries;
      var o := PhaseOwner(rule);
      match rule.condition {
        case Composite(children, paths) =>
          var outs := CompositePaths(frame, o, children, paths);
          out := PhaseTransition(rule.id, rule.toPhase, ByPaths(outs));
        case Atomic(atom) =>
          if TradeAtom(atom) {
            var id := Prefix(o) + "distance";
            AppliedOne(distances, Write(id, ThresholdSeries(frame, atom), false));
            distances := distances[id := ThresholdSeries(frame, atom)];
            out := PhaseTransition(rule.id, rule.toPhase, ByThreshold(Threshold(id, MetricOf(atom))));
          } else {
            var id := Prefix(o) + "condition";
            var long, short := AdxDiSeries(frame, atom);
            assert ConditionSeries(long, short) == MarketSeries(frame, AtomChild(atom));
            AppliedOne(conditions, Write(id, ConditionSeries(long, short), false));
            conditions := conditions[id := ConditionSeries(long, short)];
            out := PhaseTransition(rule.id, rule.toPhase, ByCondition(id));
          }
      }
    }

    method StopRuleOf(frame: Frame, rule: StopRule) returns (out: ManagedRule)
      modifies `distances
      ensures out == StopRuleFor(rule)
      ensures distances == Applied(old(distances), StopDistances(frame, rule))
    {
      hide Prefix, StopDistance, Constant, Applied;
      var o := StopOwner(rule);
      var id, triggerId := Prefix(o) + "distance", Prefix(o) + "trigger";
      var formula := FromEntry;
      ghost var trigger := [];
      NothingApplied(distances);
      if rule.action.InitialRLock? || rule.action.InitialRTrailing? {
        trigger := [Write(triggerId, Constant(|frame.bars|, rule.action.trigger), false)];
        AppliedOne(distances, trigger[0]);
        distances := distances[triggerId := Constant(|frame.bars|, rule.action.trigger)];
        formula := if rule.action.InitialRLock? then LockFormula(triggerId) else TrailingFormula(triggerId);
      }
      ghost var distance := Write(id, StopDistance(frame, rule.action), false);
      AppliedOne(distances, distance);
      AppliedTwice(old(distances), trigger, [distance]);
      distances := distances[id := StopDistance(frame, rule.action)];
      out := StopMove(rule.id, rule.activation, id, formula);
      assert StopDistances(frame, rule) == trigger + [distance];
    }

    method ExitRuleOf(frame: Frame, rule: RuntimeRule) returns (out: ManagedRule)
      modifies `conditions
      ensures out == ExitRuleFor(rule)
      ensures conditions == Applied(old(conditions), [ExitCondition(frame, rule)])
    {
      hide Prefix, ExitSeries;
      var id := Prefix(ExitOwner(rule)) + "condition";
      AppliedOne(conditions, ExitCondition(frame, rule));
      conditions := conditions[id := ExitSeries(frame, rule.action)];
      out := RuntimeExit(rule.id, rule.activation, id, rule.confirmBars, ClassOf(rule.exitKind));
    }

    method AddPhases(frame: Frame, rules: seq<PhaseRule>)
      requires Aligned(frame) && forall k | 0 <= k < |rules| :: ConditionParsed(frame, rules[k].condition)
      modifies this
      ensures this.rules == old(this.rules) + PhaseRulesFor(frame, rules)
      ensures conditions == Applied(old(conditions), PhasesConditions(frame, rules))
      ensures distances == Applied(old(distances), PhasesDistances(frame, rules))
    {
      hide PhaseRuleFor, PhaseConditions, PhaseDistances, ConditionParsed, Applied;
      NothingApplied(conditions);
      NothingApplied(distances);
      var k := 0;
      while k < |rules|
        invariant 0 <= k <= |rules|
        invariant this.rules == old(this.rules) + PhaseRulesFor(frame, rules[..k])
        invariant conditions == Applied(old(conditions), PhasesConditions(frame, rules[..k]))
        invariant distances == Applied(old(distances), PhasesDistances(frame, rules[..k]))
      {
        var out := PhaseRuleOf(frame, rules[k]);
        this.rules := this.rules + [out];
        assert rules[..k + 1][..k] == rules[..k];
        AppliedTwice(old(conditions), PhasesConditions(frame, rules[..k]), PhaseConditions(frame, rules[k]));
        AppliedTwice(old(distances), PhasesDistances(frame, rules[..k]), PhaseDistances(frame, rules[k]));
        assert PhaseRulesFor(frame, rules[..k + 1]) == PhaseRulesFor(frame, rules[..k]) + [out];
        k := k + 1;
      }
      assert rules[..k] == rules;
    }

    method AddStops(frame: Frame, rules: seq<StopRule>)
      modifies `distances, `rules
      ensures this.rules == old(this.rules) + StopRulesFor(rules)
      ensures distances == Applied(old(distances), StopsDistances(frame, rules))
    {
      hide StopRuleFor, StopDistances, Applied;
      NothingApplied(distances);
      var k := 0;
      while k < |rules|
        invariant 0 <= k <= |rules|
        invariant this.rules == old(this.rules) + StopRulesFor(rules[..k])
        invariant distances == Applied(old(distances), StopsDistances(frame, rules[..k]))
      {
        var out := StopRuleOf(frame, rules[k]);
        this.rules := this.rules + [out];
        assert rules[..k + 1][..k] == rules[..k];
        AppliedTwice(old(distances), StopsDistances(frame, rules[..k]), StopDistances(frame, rules[k]));
        assert StopRulesFor(rules[..k + 1]) == StopRulesFor(rules[..k]) + [out];
        k := k + 1;
      }
      assert rules[..k] == rules;
    }

    method AddTakes(rules: seq<TakeRule>)
      modifies `rules
      ensures this.rules == old(this.rules) + TakeRulesFor(rules)
    {
      var k := 0;
      while k < |rules|
        invariant 0 <= k <= |rules|
        invariant this.rules == old(this.rules) + TakeRulesFor(rules[..k])
      {
        var rule := rules[k];
        this.rules := this.rules + [TakeMove(rule.id, rule.activation, ProfileOf(rule.action))];
        assert TakeRulesFor(rules[..k + 1]) == TakeRulesFor(rules[..k]) + [TakeRuleFor(rule)];
        k := k + 1;
      }
      assert rules[..k] == rules;
    }

    method AddExits(frame: Frame, rules: seq<RuntimeRule>)
      modifies `conditions, `rules
      ensures this.rules == old(this.rules) + ExitRulesFor(rules)
      ensures conditions == Applied(old(conditions), ExitsConditions(frame, rules))
    {
      hide ExitRuleFor, ExitCondition, Applied;
      NothingApplied(conditions);
      var k := 0;
      while k < |rules|
        invariant 0 <= k <= |rules|
        invariant this.rules == old(this.rules) + ExitRulesFor(rules[..k])
        invariant conditions == Applied(old(conditions), ExitsConditions(frame, rules[..k]))
      {
        var out := ExitRuleOf(frame, rules[k]);
        this.rules := this.rules + [out];
        assert rules[..k + 1][..k] == rules[..k];
        AppliedTwice(old(conditions), ExitsConditions(frame, rules[..k]), [ExitCondition(frame, rules[k])]);
        assert ExitRulesFor(rules[..k + 1]) == ExitRulesFor(rules[..k]) + [out];
        k := k + 1;
      }
      assert rules[..k] == rules;
    }
  }

  /** After the market part and a mixed vote. */
  lemma CountedApplied(
    frame: Frame, o: Owner, children: seq<Child>, path: Path, conditions: Conditions, distances: Distances,
    market: seq<Write<ConditionSeries>>)
    ensures var counted := Counted(frame, children, path);
            && Applied(Applied(conditions, market), RefsConditions(frame, o, children, counted))
               == Applied(conditions, market + RefsConditions(frame, o, children, counted))
            && (!Mixed(frame, children, path) ==>
                  && RefsConditions(frame, o, children, counted) == []
                  && RefsDistances(frame, o, children, counted) == []
                  && Applied(conditions, market + RefsConditions(frame, o, children, counted))
                     == Applied(conditions, market)
                  && Applied(distances, RefsDistances(frame, o, children, counted)) == distances)
  {
    AppliedTwice(conditions, market, RefsConditions(frame, o, children, Counted(frame, children, path)));
    assert market + [] == market;
  }

  /** After the counted, the required and the changing children. */
  lemma RequiredApplied(frame: Frame, o: Owner, children: seq<Child>, path: Path, distances: Distances)
    ensures var counted := RefsDistances(frame, o, children, Counted(frame, children, path));
            var trade := RefsDistances(frame, o, children, TradeRefs(children, path.require));
            var changes := RefsDistances(frame, o, children, ChangeRefs(children, path.require));
            Applied(Applied(Applied(distances, counted), trade), changes)
            == Applied(distances, PathDistances(frame, o, children, path))
  {
    hide RefsDistances, Counted, TradeRefs, ChangeRefs;
    var counted := RefsDistances(frame, o, children, Counted(frame, children, path));
    var trade := RefsDistances(frame, o, children, TradeRefs(children, path.require));
    var changes := RefsDistances(frame, o, children, ChangeRefs(children, path.require));
    AppliedTwice(Applied(distances, counted), trade, changes);
    AppliedTwice(distances, counted, trade + changes);
  }

  lemma NeitherIsTrade(children: seq<Child>, ref: string)
    requires Find(children, ref).Some? && !MarketRef(children, ref) && !ChangeRef(children, ref)
    ensures TradeRef(children, ref)
  {
  }

  /** The projection of every policy the parser admits: the rules in their documented order, and every id
      leading to the series of its own rule, child or path if and only if the writes that meet under one id
      agree. */
  method BuildProjection(frame: Frame, policy: Policy) returns (p: Projection)
    requires Aligned(frame) && PolicyParsed(frame, policy)
    ensures p == Built(frame, policy)
    ensures Rendered(frame, policy, p) <==> Consistent(frame, policy)
  {
    hide Rendered, Consistent, PhasesConditions, PhasesDistances, StopsDistances, ExitsConditions, Applied;
    hide PhaseRulesFor, StopRulesFor, TakeRulesFor, ExitRulesFor, ConditionParsed;
    var builder := new Builder();
    builder.AddPhases(frame, policy.phases);
    builder.AddStops(frame, policy.stops);
    builder.AddTakes(policy.takes);
    builder.AddExits(frame, policy.runtimes);
    p := Projection(builder.conditions, builder.distances, builder.rules);
    AppliedTwice(map[], PhasesConditions(frame, policy.phases), ExitsConditions(frame, policy.runtimes));
    AppliedTwice(map[], PhasesDistances(frame, policy.phases), StopsDistances(frame, policy.stops));
    RenderedExactly(frame, policy);
  }
}
