/** Parity of the two evaluators of a managed policy: a consumer of the candidate-wide projection reaches
    what the single-trade replay reaches. */
module ProjectionParity {
  import opened NodeProgram
  import opened EpisodeTables
  import opened ManagedPolicy
  import opened CompositeFold
  import opened ManagedReplay
  import opened ManagedProjection

  // -- conditions ----------------------------------------------------------------------

  lemma AtomParity(frame: Frame, distances: Distances, trade: Trade, m: Metrics, index: nat, atom: Atom, t: Threshold)
    requires trade.entryPrice > 0.0 && index < |frame.bars| && AtomRendered(frame, distances, atom, t)
    ensures ThresholdMet(distances, trade, m, index, t) <==> AtomMet(frame, trade, m, index, atom)
  {
  }

  lemma MarketParity(
    frame: Frame, conditions: Conditions, trade: Trade, m: Metrics, index: nat, content: Content, id: string)
    requires trade.entryPrice > 0.0 && index < |frame.bars| && MarketRendered(frame, conditions, content, id)
    ensures ConditionAt(conditions, id, trade.side, index) <==> ChildTrue(frame, trade, m, index, content)
  {
  }

  lemma ThresholdParity(
    frame: Frame, distances: Distances, trade: Trade, m: Metrics, index: nat, children: seq<Child>, ref: string, t: Threshold)
    requires trade.entryPrice > 0.0 && index < |frame.bars| && ThresholdRendered(frame, distances, children, ref, t)
    ensures ThresholdMet(distances, trade, m, index, t) <==> RefTrue(frame, trade, m, index, children, ref)
  {
    AtomParity(frame, distances, trade, m, index, Find(children, ref).value.atom, t);
  }

  lemma ChangeParity(
    frame: Frame, distances: Distances, trade: Trade, m: Metrics, index: nat, children: seq<Child>, ref: string,
    c: EntryChange)
    requires trade.entryPrice > 0.0 && ChangeRendered(frame, distances, children, ref, c)
    ensures ChangeMet(distances, trade, index, c) <==> RefTrue(frame, trade, m, index, children, ref)
  {
  }

  lemma TermParity(
    frame: Frame, conditions: Conditions, distances: Distances, trade: Trade, m: Metrics, index: nat,
    children: seq<Child>, ref: string, term: Term)
    requires trade.entryPrice > 0.0 && index < |frame.bars|
    requires TermRendered(frame, conditions, distances, children, ref, term)
    ensures TermMet(conditions, distances, trade, m, index, term) <==> RefTrue(frame, trade, m, index, children, ref)
  {
    match term
    case MarketTerm(id) => MarketParity(frame, conditions, trade, m, index, Find(children, ref).value, id);
    case TradeTerm(t) => ThresholdParity(frame, distances, trade, m, index, children, ref, t);
    case ChangeTerm(c) => ChangeParity(frame, distances, trade, m, index, children, ref, c);
  }

  lemma {:induction false} CountParity(
    frame: Frame, conditions: Conditions, distances: Distances, trade: Trade, m: Metrics, index: nat,
    children: seq<Child>, refs: seq<string>, terms: seq<Term>)
    requires trade.entryPrice > 0.0 && index < |frame.bars|
    requires TermsRendered(frame, conditions, distances, children, refs, terms)
    ensures CountMet(conditions, distances, trade, m, index, terms) == CountTrue(frame, trade, m, index, children, refs)
  {
    if |refs| > 0 {
      var last := |refs| - 1;
      TermParity(frame, conditions, distances, trade, m, index, children, refs[last], terms[last]);
      CountParity(frame, conditions, distances, trade, m, index, children, refs[..last], terms[..last]);
    }
  }

  // -- paths ---------------------------------------------------------------------------

  lemma MasksAreRight(frame: Frame, side: Side, children: seq<Child>)
    ensures MasksRight(frame, side, children, MasksOf(frame, side, children))
  {
    forall id | Find(children, id).Some? ensures id in Ids(children) {
      FindKnown(children, id);
    }
  }

  lemma {:induction false} RefsSplit(children: seq<Child>, refs: seq<string>)
    ensures forall ref :: ref in TradeRefs(children, refs) <==>
              ref in refs && !MarketRef(children, ref) && !ChangeRef(children, ref)
    ensures forall ref :: ref in ChangeRefs(children, refs) <==> ref in refs && ChangeRef(children, ref)
  {
    if |refs| > 0 {
      var most := refs[..|refs| - 1];
      RefsSplit(children, most);
      assert refs == most + [refs[|refs| - 1]];
    }
  }

  /** The market part a consumer reads is the conjunction of the market children and the market vote. */
  lemma MarketPartParity(
    frame: Frame, conditions: Conditions, distances: Distances, trade: Trade, m: Metrics, index: nat,
    children: seq<Child>, path: Path, out: TransitionPath)
    requires trade.entryPrice > 0.0 && index < |frame.bars|
    requires PathRendered(frame, conditions, distances, children, path, out)
    ensures var masks := MasksOf(frame, trade.side, children);
            (out.conditionId.Some? ==> ConditionAt(conditions, out.conditionId.value, trade.side, index))
            <==> MarketPart(masks, path, index)
  {
    var masks := MasksOf(frame, trade.side, children);
    SameMarketRefs(frame, children);
    SameVotes(masks, MasksOf(frame, Long, children), path.require);
    if path.atLeast.Some? {
      SameVotes(masks, MasksOf(frame, Long, children), path.atLeast.value.of);
    }
  }

  lemma MarketPartMeans(frame: Frame, trade: Trade, m: Metrics, index: nat, children: seq<Child>, path: Path)
    requires trade.entryPrice > 0.0 && index < |frame.bars|
    ensures var masks := MasksOf(frame, trade.side, children);
            MarketPart(masks, path, index) <==>
              && (forall ref | ref in path.require && MarketRef(children, ref) ::
                    RefTrue(frame, trade, m, index, children, ref))
              && (Votes(masks, path) ==>
                    CountTrue(frame, trade, m, index, children, path.atLeast.value.of) >= path.atLeast.value.k)
  {
    var folded := Folded(children, [], MasksOf(frame, trade.side, children));
    MasksAreRight(frame, trade.side, children);
    forall ref | ref in path.require && ref in folded.masks
      ensures |folded.masks[ref]| == |frame.bars|
      ensures folded.masks[ref][index] == RefTrue(frame, trade, m, index, children, ref)
    {
      MaskIsTruth(frame, trade, m, index, folded, ref);
    }
    if Votes(folded.masks, path) {
      CountIsTruth(frame, trade, m, index, folded, path.atLeast.value.of);
    }
  }

  lemma ThresholdsMean(
    frame: Frame, distances: Distances, trade: Trade, m: Metrics, index: nat, children: seq<Child>,
    refs: seq<string>, ts: seq<Threshold>)
    requires trade.entryPrice > 0.0 && index < |frame.bars|
    requires ThresholdsRendered(frame, distances, children, refs, ts)
    ensures (forall t | t in ts :: ThresholdMet(distances, trade, m, index, t))
       <==> (forall ref | ref in refs :: RefTrue(frame, trade, m, index, children, ref))
  {
    forall k | 0 <= k < |refs|
      ensures ThresholdMet(distances, trade, m, index, ts[k]) <==> RefTrue(frame, trade, m, index, children, refs[k])
    {
      ThresholdParity(frame, distances, trade, m, index, children, refs[k], ts[k]);
    }
    if forall t | t in ts :: ThresholdMet(distances, trade, m, index, t) {
      forall ref | ref in refs ensures RefTrue(frame, trade, m, index, children, ref) {
        var k :| 0 <= k < |refs| && refs[k] == ref;
        assert ts[k] in ts;
      }
    }
    if forall ref | ref in refs :: RefTrue(frame, trade, m, index, children, ref) {
      forall t | t in ts ensures ThresholdMet(distances, trade, m, index, t) {
        var k :| 0 <= k < |ts| && ts[k] == t;
        assert refs[k] in refs;
      }
    }
  }

  lemma ChangesMean(
    frame: Frame, distances: Distances, trade: Trade, m: Metrics, index: nat, children: seq<Child>,
    refs: seq<string>, cs: seq<EntryChange>)
    requires trade.entryPrice > 0.0 && ChangesRendered(frame, distances, children, refs, cs)
    ensures (forall c | c in cs :: ChangeMet(distances, trade, index, c))
       <==> (forall ref | ref in refs :: RefTrue(frame, trade, m, index, children, ref))
  {
    forall k | 0 <= k < |refs|
      ensures ChangeMet(distances, trade, index, cs[k]) <==> RefTrue(frame, trade, m, index, children, refs[k])
    {
      ChangeParity(frame, distances, trade, m, index, children, refs[k], cs[k]);
    }
    if forall c | c in cs :: ChangeMet(distances, trade, index, c) {
      forall ref | ref in refs ensures RefTrue(frame, trade, m, index, children, ref) {
        var k :| 0 <= k < |refs| && refs[k] == ref;
        assert cs[k] in cs;
      }
    }
    if forall ref | ref in refs :: RefTrue(frame, trade, m, index, children, ref) {
      forall c | c in cs ensures ChangeMet(distances, trade, index, c) {
        var k :| 0 <= k < |cs| && cs[k] == c;
        assert refs[k] in refs;
      }
    }
  }

  /** A rendered path is met exactly when the path is true in the plain sense. */
  lemma PathParity(
    frame: Frame, conditions: Conditions, distances: Distances, trade: Trade, m: Metrics, index: nat,
    children: seq<Child>, path: Path, out: TransitionPath)
    requires trade.entryPrice > 0.0 && index < |frame.bars|
    requires PathRendered(frame, conditions, distances, children, path, out)
    ensures PathMet(conditions, distances, trade, m, index, out) <==> PathTrue(frame, trade, m, index, children, path)
  {
    MarketPartParity(frame, conditions, distances, trade, m, index, children, path, out);
    MarketPartMeans(frame, trade, m, index, children, path);
    RefsSplit(children, path.require);
    ThresholdsMean(frame, distances, trade, m, index, children, TradeRefs(children, path.require), out.thresholds);
    ChangesMean(frame, distances, trade, m, index, children, ChangeRefs(children, path.require), out.changes);
    SameMarketRefs(frame, children);
    if path.atLeast.Some? {
      SameVotes(MasksOf(frame, trade.side, children), MasksOf(frame, Long, children), path.atLeast.value.of);
    }
    if out.atLeast.Some? {
      CountParity(frame, conditions, distances, trade, m, index, children, path.atLeast.value.of, out.atLeast.value.terms);
    }
  }

  lemma {:induction false} PathsParity(
    frame: Frame, conditions: Conditions, distances: Distances, trade: Trade, m: Metrics, index: nat,
    children: seq<Child>, paths: seq<Path>, outs: seq<TransitionPath>)
    requires trade.entryPrice > 0.0 && index < |frame.bars| && |paths| == |outs|
    requires forall k | 0 <= k < |paths| :: PathRendered(frame, conditions, distances, children, paths[k], outs[k])
    ensures FirstMet(conditions, distances, trade, m, index, outs) == FirstPath(frame, trade, m, index, children, paths)
  {
    if |paths| > 0 {
      PathParity(frame, conditions, distances, trade, m, index, children, paths[0], outs[0]);
      PathsParity(frame, conditions, distances, trade, m, index, children, paths[1..], outs[1..]);
    }
  }

  lemma GateParity(
    frame: Frame, conditions: Conditions, distances: Distances, trade: Trade, m: Metrics, index: nat,
    condition: PhaseCondition, gate: Gate)
    requires trade.entryPrice > 0.0 && index < |frame.bars|
    requires GateRendered(frame, conditions, distances, condition, gate)
    ensures GateMet(conditions, distances, trade, m, index, gate) == ConditionMet(frame, trade, m, index, condition)
  {
    match condition
    case Atomic(atom) =>
      if TradeAtom(atom) {
        AtomParity(frame, distances, trade, m, index, atom, gate.threshold);
      } else {
        MarketParity(frame, conditions, trade, m, index, AtomChild(atom), gate.conditionId);
      }
    case Composite(children, paths) =>
      PathsParity(frame, conditions, distances, trade, m, index, children, paths, gate.paths);
  }

  // -- the four passes over the rules -------------------------------------------------------

  /** The transitions among the rules are those of `phases`, first of all. */
  ghost predicate PhasesAt(
    frame: Frame, conditions: Conditions, distances: Distances, phases: seq<PhaseRule>, rules: seq<ManagedRule>)
  {
    forall n | 0 <= n < |rules| ::
      && (rules[n].PhaseTransition? <==> n < |phases|)
      && (rules[n].PhaseTransition? ==> PhaseRendered(frame, conditions, distances, phases[n], rules[n]))
  }

  lemma {:induction false} PhasesParity(
    frame: Frame, p: Projection, phases: seq<PhaseRule>, rules: seq<ManagedRule>,
    trade: Trade, m: Metrics, index: nat, s: Phasing)
    requires trade.entryPrice > 0.0 && index < |frame.bars|
    requires PhasesAt(frame, p.conditions, p.distances, phases, rules) && |phases| <= |rules|
    ensures Transited(p, trade, m, index, rules, s) == Phased(frame, trade, m, index, phases, s)
  {
    if |rules| > 0 {
      var last := |rules| - 1;
      if last == |phases| - 1 {
        PhasesParity(frame, p, phases[..last], rules[..last], trade, m, index, s);
        GateParity(frame, p.conditions, p.distances, trade, m, index, phases[last].condition, rules[last].gate);
      } else {
        PhasesParity(frame, p, phases, rules[..last], trade, m, index, s);
      }
    }
  }

  /** Which kind stands at `n`, and what it renders. */
  ghost predicate RightKind(frame: Frame, policy: Policy, p: Projection, n: nat)
    requires n < |p.rules|
  {
    var a, b, c := |policy.phases|, |policy.stops|, |policy.takes|;
    if n < a then PhaseRendered(frame, p.conditions, p.distances, policy.phases[n], p.rules[n])
    else if n < a + b then StopRendered(frame, p.distances, policy.stops[n - a], p.rules[n])
    else if n < a + b + c then TakeRendered(policy.takes[n - a - b], p.rules[n])
    else n - a - b - c < |policy.runtimes|
         && ExitRendered(frame, p.conditions, policy.runtimes[n - a - b - c], p.rules[n])
  }

  lemma OtherKinds(frame: Frame, policy: Policy, p: Projection, n: nat)
    requires Rendered(frame, policy, p) && n < |p.rules|
    ensures RightKind(frame, policy, p, n)
  {
    var a, b, c := |policy.phases|, |policy.stops|, |policy.takes|;
    if a <= n < a + b {
      assert StopRendered(frame, p.distances, policy.stops[n - a], p.rules[a + (n - a)]);
    } else if a + b <= n < a + b + c {
      assert TakeRendered(policy.takes[n - a - b], p.rules[a + b + (n - a - b)]);
    } else if a + b + c <= n {
      assert ExitRendered(frame, p.conditions, policy.runtimes[n - a - b - c], p.rules[a + b + c + (n - a - b - c)]);
    }
  }

  lemma ScaledAt(frame: Frame, multiple: real, column: Column, index: nat)
    requires index < |frame.bars|
    ensures var x := ValueAt(frame, column, index);
            Scaled(frame, multiple, column, false)[index] == if x.Some? then Some(Times(multiple, x.value)) else None
  {
    var x := ValueAt(frame, column, index);
    if x.Some? {
      assert Scaled(frame, multiple, column, false)[index].Some?;
    }
  }

  lemma MoveParity(frame: Frame, p: Projection, trade: Trade, best: real, index: nat, rule: StopRule, out: ManagedRule)
    requires index < |frame.bars| && StopRendered(frame, p.distances, rule, out)
    ensures Move(p, trade, best, index, out) == Candidate(frame, trade, best, index, rule.action)
  {
    assert DistanceAt(p.distances, out.distanceId, index) == StopDistance(frame, rule.action)[index];
    match rule.action
    case BreakEven(_) =>
    case BreakEvenAtr(multiple, atr) => ScaledAt(frame, multiple, atr, index);
    case LockProfit(multiple, atr) => ScaledAt(frame, multiple, atr, index);
    case InitialRLock(trigger, _) =>
      assert DistanceAt(p.distances, out.formula.triggerId, index) == Some(trigger);
    case InitialRTrailing(trigger, _) =>
      assert DistanceAt(p.distances, out.formula.triggerId, index) == Some(trigger);
  }

  /** The stop moves among the rules are those of `stops`, from `a` on. */
  ghost predicate StopsAt(frame: Frame, distances: Distances, stops: seq<StopRule>, rules: seq<ManagedRule>, a: nat) {
    forall n | 0 <= n < |rules| ::
      && (rules[n].StopMove? <==> a <= n < a + |stops|)
      && (rules[n].StopMove? ==> StopRendered(frame, distances, stops[n - a], rules[n]))
  }

  lemma {:induction false} StopsParity(
    frame: Frame, p: Projection, stops: seq<StopRule>, rules: seq<ManagedRule>, a: nat,
    trade: Trade, best: real, index: nat, phase: Phase)
    requires index < |frame.bars| && StopsAt(frame, p.distances, stops, rules, a) && a + |stops| <= |rules|
    ensures Moves(p, trade, best, index, phase, rules) == Proposals(frame, trade, best, index, phase, stops)
  {
    if |rules| > 0 {
      var last := |rules| - 1;
      if last == a + |stops| - 1 && |stops| > 0 {
        StopsParity(frame, p, stops[..|stops| - 1], rules[..last], a, trade, best, index, phase);
        MoveParity(frame, p, trade, best, index, stops[|stops| - 1], rules[last]);
      } else if last == a - 1 {
        NoMoves(p, rules, trade, best, index, phase);
      } else {
        StopsParity(frame, p, stops, rules[..last], a, trade, best, index, phase);
      }
    }
  }

  lemma {:induction false} NoMoves(
    p: Projection, rules: seq<ManagedRule>, trade: Trade, best: real, index: nat, phase: Phase)
    requires forall n | 0 <= n < |rules| :: !rules[n].StopMove?
    ensures Moves(p, trade, best, index, phase, rules) == []
  {
    if |rules| > 0 {
      NoMoves(p, rules[..|rules| - 1], trade, best, index, phase);
    }
  }

  /** The profile switches among the rules are those of `takes`, from `a` on. */
  ghost predicate TakesAt(takes: seq<TakeRule>, rules: seq<ManagedRule>, a: nat) {
    forall n | 0 <= n < |rules| ::
      && (rules[n].TakeMove? <==> a <= n < a + |takes|)
      && (rules[n].TakeMove? ==> TakeRendered(takes[n - a], rules[n]))
  }

  lemma SwitchIsTake(index: nat, phase: Phase, rule: TakeRule, out: ManagedRule, t: Taking)
    requires TakeRendered(rule, out)
    ensures Switch(index, phase, out, t) == Take(index, phase, rule, t)
  {
  }

  lemma {:induction false} TakesParity(
    takes: seq<TakeRule>, rules: seq<ManagedRule>, a: nat, index: nat, phase: Phase, t: Taking)
    requires TakesAt(takes, rules, a) && a + |takes| <= |rules|
    ensures Switched(index, phase, rules, t) == Taken(index, phase, takes, t)
  {
    if |rules| > 0 {
      var last := |rules| - 1;
      if last == a + |takes| - 1 && |takes| > 0 {
        TakesParity(takes[..|takes| - 1], rules[..last], a, index, phase, t);
        SwitchIsTake(index, phase, takes[|takes| - 1], rules[last],
                     Taken(index, phase, takes[..|takes| - 1], t));
      } else if last == a - 1 {
        NoSwitches(rules, index, phase, t);
      } else {
        TakesParity(takes, rules[..last], a, index, phase, t);
      }
    }
  }

  lemma {:induction false} NoSwitches(rules: seq<ManagedRule>, index: nat, phase: Phase, t: Taking)
    requires forall n | 0 <= n < |rules| :: !rules[n].TakeMove?
    ensures Switched(index, phase, rules, t) == t
  {
    if |rules| > 0 {
      NoSwitches(rules[..|rules| - 1], index, phase, t);
    }
  }

  /** The confirmation of a phase exit, which the replay does not ask for, changes nothing on the bar. */
  predicate ConfirmNeutral(trade: Trade, index: nat, rule: RuntimeRule) {
    rule.action.PhaseExit? && rule.action.exitPrice == "close" ==> index - rule.confirmBars + 1 >= trade.entryIndex
  }

  lemma ConfirmedMeans(frame: Frame, p: Projection, trade: Trade, index: nat, rule: RuntimeRule, out: ManagedRule)
    requires index < |frame.bars| && ExitRendered(frame, p.conditions, rule, out)
    ensures var first := index - rule.confirmBars + 1;
            Confirmed(p, trade, index, out) <==>
              first >= trade.entryIndex && forall i | first <= i <= index :: PreConfirm(frame, trade.side, rule.action, i)
  {
    var first := index - rule.confirmBars + 1;
    if first >= trade.entryIndex {
      forall i | first <= i <= index
        ensures ConditionAt(p.conditions, out.conditionId, trade.side, i) == PreConfirm(frame, trade.side, rule.action, i)
      {
      }
    }
  }

  lemma SignalsMean(frame: Frame, side: Side, start: nat, index: nat, rule: RuntimeRule)
    requires rule.confirmBars >= 1 && !rule.action.PhaseExit?
    ensures var first := index - rule.confirmBars + 1;
            Signals(frame, side, start, index, rule) <==>
              first >= start && forall i | first <= i <= index :: PreConfirm(frame, side, rule.action, i)
  {
    var first := index - rule.confirmBars + 1;
    assert first <= index;
    if forall i | first <= i <= index :: PreConfirm(frame, side, rule.action, i) {
      assert PreConfirm(frame, side, rule.action, index);
      if rule.action.RsiExit? {
        forall i | first <= i <= index
          ensures RsiSignal(side, RsiBoundary(side, rule.action).value, ValueAt(frame, rule.action.rsi, i))
        {
          assert PreConfirm(frame, side, rule.action, i);
        }
      } else {
        forall i | first <= i <= index
          ensures CrossSignal(side, ValueAt(frame, rule.action.fast, i), ValueAt(frame, rule.action.slow, i))
        {
          assert PreConfirm(frame, side, rule.action, i);
        }
      }
    }
  }

  /** A runtime exit signals on the same bars in both evaluators, except that the consumer holds a phase
      exit back until its confirmation fits into the trade: they agree on a bar if and only if it does. */
  lemma ExitParity(frame: Frame, p: Projection, trade: Trade, index: nat, rule: RuntimeRule, out: ManagedRule)
    requires index < |frame.bars| && ExitRendered(frame, p.conditions, rule, out) && rule.confirmBars >= 1
    ensures Confirmed(p, trade, index, out) == Signals(frame, trade.side, trade.entryIndex, index, rule)
       <==> ConfirmNeutral(trade, index, rule)
    ensures Confirmed(p, trade, index, out) ==> Signals(frame, trade.side, trade.entryIndex, index, rule)
  {
    ConfirmedMeans(frame, p, trade, index, rule, out);
    if rule.action.PhaseExit? {
      assert index - rule.confirmBars + 1 <= index;
      assert PreConfirm(frame, trade.side, rule.action, index) <==> rule.action.exitPrice == "close";
    } else {
      SignalsMean(frame, trade.side, trade.entryIndex, index, rule);
    }
  }

  /** The confirmation of every phase exit in force fits into the trade. */
  ghost predicate ActiveNeutral(trade: Trade, index: nat, phase: Phase, rules: seq<RuntimeRule>) {
    forall k | 0 <= k < |rules| && AtLeastPhase(phase, rules[k].activation) :: ConfirmNeutral(trade, index, rules[k])
  }

  /** The runtime exits among the rules are those of `exits`, from `a` on. */
  ghost predicate ExitsAt(frame: Frame, conditions: Conditions, exits: seq<RuntimeRule>, rules: seq<ManagedRule>, a: nat) {
    forall n | 0 <= n < |rules| ::
      && (rules[n].RuntimeExit? <==> a <= n < a + |exits|)
      && (rules[n].RuntimeExit? ==> ExitRendered(frame, conditions, exits[n - a], rules[n]))
  }

  /** The consumer never arms more exits than the replay, and arms the same ones exactly while every
      confirmation in force fits. */
  lemma {:induction false} ExitsParity(
    frame: Frame, p: Projection, exits: seq<RuntimeRule>, rules: seq<ManagedRule>, a: nat,
    trade: Trade, index: nat, phase: Phase)
    requires index < |frame.bars| && ExitsAt(frame, p.conditions, exits, rules, a) && a + |exits| <= |rules|
    requires forall k | 0 <= k < |exits| :: exits[k].confirmBars >= 1
    ensures var reached, armed := Exiting(p, trade, index, phase, rules),
                                  Armed(frame, trade.side, trade.entryIndex, index, phase, exits);
            && |reached| <= |armed|
            && (|reached| == |armed| <==> ActiveNeutral(trade, index, phase, exits))
            && (|reached| == |armed| ==> reached == armed)
  {
    hide Confirmed, Signals, ConfirmNeutral;
    if |rules| > 0 {
      var last := |rules| - 1;
      if last == a + |exits| - 1 && |exits| > 0 {
        var most := exits[..|exits| - 1];
        ExitsParity(frame, p, most, rules[..last], a, trade, index, phase);
        ExitParity(frame, p, trade, index, exits[|exits| - 1], rules[last]);
        ActiveLast(trade, index, phase, exits);
      } else if last == a - 1 {
        NoExits(p, rules, trade, index, phase);
      } else {
        ExitsParity(frame, p, exits, rules[..last], a, trade, index, phase);
      }
    }
  }

  lemma ActiveLast(trade: Trade, index: nat, phase: Phase, rules: seq<RuntimeRule>)
    requires |rules| > 0
    ensures var most, last := rules[..|rules| - 1], rules[|rules| - 1];
            ActiveNeutral(trade, index, phase, rules) <==>
              ActiveNeutral(trade, index, phase, most)
              && (AtLeastPhase(phase, last.activation) ==> ConfirmNeutral(trade, index, last))
  {
    hide ConfirmNeutral;
    var most := rules[..|rules| - 1];
    assert forall k | 0 <= k < |most| :: most[k] == rules[k];
  }

  lemma {:induction false} NoExits(p: Projection, rules: seq<ManagedRule>, trade: Trade, index: nat, phase: Phase)
    requires forall n | 0 <= n < |rules| :: !rules[n].RuntimeExit?
    ensures Exiting(p, trade, index, phase, rules) == []
  {
    if |rules| > 0 {
      NoExits(p, rules[..|rules| - 1], trade, index, phase);
    }
  }

  lemma AllKinds(frame: Frame, policy: Policy, p: Projection)
    requires Rendered(frame, policy, p)
    ensures var a, b, c := |policy.phases|, |policy.stops|, |policy.takes|;
            && PhasesAt(frame, p.conditions, p.distances, policy.phases, p.rules)
            && StopsAt(frame, p.distances, policy.stops, p.rules, a)
            && TakesAt(policy.takes, p.rules, a + b)
            && ExitsAt(frame, p.conditions, policy.runtimes, p.rules, a + b + c)
  {
    var a, b, c := |policy.phases|, |policy.stops|, |policy.takes|;
    forall n | 0 <= n < |p.rules|
      ensures p.rules[n].PhaseTransition? <==> n < a
      ensures p.rules[n].PhaseTransition? ==>
                PhaseRendered(frame, p.conditions, p.distances, policy.phases[n], p.rules[n])
      ensures p.rules[n].StopMove? <==> a <= n < a + b
      ensures p.rules[n].StopMove? ==> StopRendered(frame, p.distances, policy.stops[n - a], p.rules[n])
      ensures p.rules[n].TakeMove? <==> a + b <= n < a + b + c
      ensures p.rules[n].TakeMove? ==> TakeRendered(policy.takes[n - a - b], p.rules[n])
      ensures p.rules[n].RuntimeExit? <==> a + b + c <= n
      ensures p.rules[n].RuntimeExit? ==> ExitRendered(frame, p.conditions, policy.runtimes[n - a - b - c], p.rules[n])
    {
      OtherKinds(frame, policy, p, n);
    }
  }

  lemma RightSizes(frame: Frame, policy: Policy, p: Projection)
    requires Rendered(frame, policy, p)
    ensures |p.rules| == |policy.phases| + |policy.stops| + |policy.takes| + |policy.runtimes|
  {
  }

  // -- the stop tolerance ------------------------------------------------------------------

  function Tightening(side: Side, from: real, to: real): real {
    if side == Long then to - from else from - to
  }

  /** The tightest proposal would move the stop, but by no more than the replay's tolerance. */
  predicate TinyMove(side: Side, ps: seq<Proposal>, stop: Option<real>) {
    |ps| > 0 && stop.Some? && 0.0 < Tightening(side, stop.value, Tightest(side, ps).price) <= EPSILON
  }

  /** The two ways of keeping a stop agree on it if and only if the move is not a tiny one. */
  lemma KeepsAgree(side: Side, index: nat, ps: seq<Proposal>, s: Stopping)
    ensures Keep(WithTolerance, side, index, ps, s).stop == Keep(Exactly, side, index, ps, s).stop
       <==> !TinyMove(side, ps, s.stop)
    ensures !TinyMove(side, ps, s.stop) ==>
              Keep(WithTolerance, side, index, ps, s) == Keep(Exactly, side, index, ps, s)
  {
  }

  // -- one bar, and the whole trade ----------------------------------------------------------

  /** What a consumer without the tolerance, or with a held-back phase exit, may differ in is the stop and
      the armed exits; this is all the rest. */
  function Loose(s: State): State {
    s.(stop := None, stopRule := None, exits := [])
  }

  function PhasedAt(frame: Frame, policy: Policy, trade: Trade, s: State, index: nat): Phasing
    requires trade.entryPrice > 0.0 && index < |frame.bars|
  {
    Phased(frame, trade, MetricsOf(Extremes(frame, trade, s, index)), index, policy.phases,
           Phasing(s.phase, s.maxPhase, []))
  }

  function ProposedAt(frame: Frame, policy: Policy, trade: Trade, s: State, index: nat): seq<Proposal>
    requires trade.entryPrice > 0.0 && index < |frame.bars|
  {
    Proposals(frame, trade, Extremes(frame, trade, s, index).best, index, PhasedAt(frame, policy, trade, s, index).phase,
              policy.stops)
  }

  /** The stop comes out the same on the bar: the consumer has the tolerance, or the move is not tiny. */
  predicate StopAgrees(frame: Frame, policy: Policy, keeping: Keeping, trade: Trade, s: State, index: nat)
    requires trade.entryPrice > 0.0 && index < |frame.bars|
  {
    keeping.Exactly? ==> !TinyMove(trade.side, ProposedAt(frame, policy, trade, s, index), s.stop)
  }

  /** The armed exits come out the same on the bar. */
  ghost predicate ExitsAgree(frame: Frame, policy: Policy, trade: Trade, s: State, index: nat)
    requires trade.entryPrice > 0.0 && index < |frame.bars|
  {
    ActiveNeutral(trade, index, PhasedAt(frame, policy, trade, s, index).phase, policy.runtimes)
  }

  /** One bar, for both kinds of consumer: everything but stop and exits is the replay's; the exits are if
      and only if the confirmations in force fit; and from one stop the stop is if and only if the move is
      not within the tolerance the consumer lacks. */
  lemma StepParity(
    frame: Frame, policy: Policy, p: Projection, keeping: Keeping, trade: Trade, s: State, t: State, index: nat)
    requires trade.entryPrice > 0.0 && index < |frame.bars|
    requires Rendered(frame, policy, p) && PolicyParsed(frame, policy) && Loose(s) == Loose(t)
    ensures var r, c := Step(frame, policy, trade, trade.entryIndex, s, index),
                        ConsumerStep(p, keeping, frame, trade, t, index);
            && Loose(r.state) == Loose(c.state)
            && (r.state.exits == c.state.exits <==> ExitsAgree(frame, policy, trade, s, index))
            && c.state.stop == Keep(keeping, trade.side, index, ProposedAt(frame, policy, trade, s, index),
                                    Stopping(t.stop, t.stopRule, [])).stop
            && (s.stop == t.stop && s.stopRule == t.stopRule ==>
                  && (r.state.stop == c.state.stop <==> StopAgrees(frame, policy, keeping, trade, s, index))
                  && (r.state.stop == c.state.stop ==> r.state.stopRule == c.state.stopRule)
                  && (r.state.stop == c.state.stop && r.state.exits == c.state.exits ==> r == c))
  {
    hide Rendered, PhasesAt, StopsAt, TakesAt, ExitsAt, Ratchet, TinyMove, ActiveNeutral;
    hide Phased, Transited, Proposals, Moves, Taken, Switched, Armed, Exiting, Keep;
    RightSizes(frame, policy, p);
    AllKinds(frame, policy, p);
    var a, b, c := |policy.phases|, |policy.stops|, |policy.takes|;
    var moved := Extremes(frame, trade, s, index);
    PhasesParity(frame, p, policy.phases, p.rules, trade, MetricsOf(moved), index, Phasing(s.phase, s.maxPhase, []));
    var phase := PhasedAt(frame, policy, trade, s, index).phase;
    StopsParity(frame, p, policy.stops, p.rules, a, trade, moved.best, index, phase);
    TakesParity(policy.takes, p.rules, a + b, index, phase, Taking(s.profile, s.takeRule, []));
    ExitsParity(frame, p, policy.runtimes, p.rules, a + b + c, trade, index, phase);
    var ps := ProposedAt(frame, policy, trade, s, index);
    KeepsAgree(trade.side, index, ps, Stopping(s.stop, s.stopRule, []));
    KeepIsStopped(frame, policy, trade, moved.best, index, phase, Stopping(s.stop, s.stopRule, []));
    EqualStops(keeping, trade.side, index, ps, Stopping(s.stop, s.stopRule, []));
  }

  lemma KeepIsStopped(
    frame: Frame, policy: Policy, trade: Trade, best: real, index: nat, phase: Phase, s: Stopping)
    ensures Keep(WithTolerance, trade.side, index, Proposals(frame, trade, best, index, phase, policy.stops), s)
         == Stopped(frame, trade, best, index, phase, policy.stops, s)
  {
  }

  lemma EqualStops(keeping: Keeping, side: Side, index: nat, ps: seq<Proposal>, s: Stopping)
    ensures Keep(WithTolerance, side, index, ps, s).stop == Keep(keeping, side, index, ps, s).stop ==>
              Keep(WithTolerance, side, index, ps, s) == Keep(keeping, side, index, ps, s)
  {
    KeepsAgree(side, index, ps, s);
  }

  /** The replay's state before bar `k` of the trade. */
  function Before(frame: Frame, policy: Policy, trade: Trade, k: nat): State
    requires trade.entryPrice > 0.0 && trade.entryIndex + k <= |frame.bars|
  {
    Replay(frame, policy, trade, 0, k).state
  }

  ghost predicate StopAgreesOn(frame: Frame, policy: Policy, keeping: Keeping, trade: Trade, k: nat)
    requires trade.entryPrice > 0.0 && trade.entryIndex + k < |frame.bars|
  {
    StopAgrees(frame, policy, keeping, trade, Before(frame, policy, trade, k), trade.entryIndex + k)
  }

  ghost predicate ExitsAgreeOn(frame: Frame, policy: Policy, trade: Trade, k: nat)
    requires trade.entryPrice > 0.0 && trade.entryIndex + k < |frame.bars|
  {
    ExitsAgree(frame, policy, trade, Before(frame, policy, trade, k), trade.entryIndex + k)
  }

  /** What two runs over `n` bars have in common. */
  ghost predicate Alike(frame: Frame, policy: Policy, keeping: Keeping, trade: Trade, n: nat, a: Run, b: Run)
    requires trade.entryPrice > 0.0 && trade.entryIndex + n <= |frame.bars|
  {
    && Loose(a.state) == Loose(b.state) && |a.decisions| == |b.decisions| == n
    && (forall k | 0 <= k < n ::
          && a.decisions[k].(stop := None, exits := []) == b.decisions[k].(stop := None, exits := [])
          && (a.decisions[k].exits == b.decisions[k].exits <==> ExitsAgreeOn(frame, policy, trade, k)))
    && (SameStops(n, a, b) <==> forall k | 0 <= k < n :: StopAgreesOn(frame, policy, keeping, trade, k))
    && (SameStops(n, a, b) ==> a.state.stop == b.state.stop && a.state.stopRule == b.state.stopRule)
    && (a.decisions == b.decisions ==> a == b)
  }

  ghost predicate SameStops(n: nat, a: Run, b: Run)
    requires |a.decisions| == |b.decisions| == n
  {
    forall k | 0 <= k < n :: a.decisions[k].stop == b.decisions[k].stop
  }

  lemma {:induction false} RunsAlike(frame: Frame, policy: Policy, p: Projection, keeping: Keeping, trade: Trade, n: nat)
    requires trade.entryPrice > 0.0 && trade.entryIndex + n <= |frame.bars|
    requires Rendered(frame, policy, p) && PolicyParsed(frame, policy)
    ensures Alike(frame, policy, keeping, trade, n, Replay(frame, policy, trade, 0, n), Consume(p, keeping, frame, trade, n))
  {
    hide OneMoreBar, OneMoreConsumed, Rendered, PolicyParsed;
    if n > 0 {
      hide Alike;
      RunsAlike(frame, policy, p, keeping, trade, n - 1);
      ReplayUnfolds(frame, policy, trade, 0, n);
      ConsumeUnfolds(p, keeping, frame, trade, n);
      BarAlike(frame, policy, p, keeping, trade, n - 1, Replay(frame, policy, trade, 0, n - 1),
               Consume(p, keeping, frame, trade, n - 1));
    }
  }

  lemma BarAlike(
    frame: Frame, policy: Policy, p: Projection, keeping: Keeping, trade: Trade, n: nat, a: Run, b: Run)
    requires trade.entryPrice > 0.0 && trade.entryIndex + n < |frame.bars|
    requires Rendered(frame, policy, p) && PolicyParsed(frame, policy)
    requires a == Replay(frame, policy, trade, 0, n) && Alike(frame, policy, keeping, trade, n, a, b)
    ensures Alike(frame, policy, keeping, trade, n + 1,
                  OneMoreBar(frame, policy, trade, trade.entryIndex, a, trade.entryIndex + n),
                  OneMoreConsumed(p, keeping, frame, trade, b, trade.entryIndex + n))
  {
    hide Step, ConsumerStep, StopAgrees, ExitsAgree, Replay, Rendered, PolicyParsed, SameStops;
    hide OneMoreBar, OneMoreConsumed, StopAgreesOn, ExitsAgreeOn;
    var a' := OneMoreBar(frame, policy, trade, trade.entryIndex, a, trade.entryIndex + n);
    var b' := OneMoreConsumed(p, keeping, frame, trade, b, trade.entryIndex + n);
    LastBarAlike(frame, policy, p, keeping, trade, n, a, b);
    SameStopsMore(n, a, b, a', b');
    assert a'.decisions == b'.decisions ==> a'.decisions[..n] == b'.decisions[..n];
  }

  /** The bar that is added. */
  lemma LastBarAlike(
    frame: Frame, policy: Policy, p: Projection, keeping: Keeping, trade: Trade, n: nat, a: Run, b: Run)
    requires trade.entryPrice > 0.0 && trade.entryIndex + n < |frame.bars|
    requires Rendered(frame, policy, p) && PolicyParsed(frame, policy)
    requires a == Replay(frame, policy, trade, 0, n) && Loose(a.state) == Loose(b.state)
    requires |a.decisions| == |b.decisions| == n
    ensures var a', b' := OneMoreBar(frame, policy, trade, trade.entryIndex, a, trade.entryIndex + n),
                          OneMoreConsumed(p, keeping, frame, trade, b, trade.entryIndex + n);
            && |a'.decisions| == |b'.decisions| == n + 1
            && a'.decisions[..n] == a.decisions && b'.decisions[..n] == b.decisions
            && Loose(a'.state) == Loose(b'.state)
            && a'.decisions[n].(stop := None, exits := []) == b'.decisions[n].(stop := None, exits := [])
            && (a'.decisions[n].exits == b'.decisions[n].exits <==> ExitsAgreeOn(frame, policy, trade, n))
            && (a.state.stop == b.state.stop && a.state.stopRule == b.state.stopRule ==>
                  && (a'.decisions[n].stop == b'.decisions[n].stop
                      <==> StopAgreesOn(frame, policy, keeping, trade, n))
                  && (a'.decisions[n].stop == b'.decisions[n].stop ==>
                        a'.state.stop == b'.state.stop && a'.state.stopRule == b'.state.stopRule))
            && (a == b && a'.decisions[n] == b'.decisions[n] ==> a' == b')
  {
    hide Step, ConsumerStep, StopAgrees, ExitsAgree, Replay, Rendered, PolicyParsed;
    StepParity(frame, policy, p, keeping, trade, a.state, b.state, trade.entryIndex + n);
  }

  lemma SameStopsMore(n: nat, a: Run, b: Run, a': Run, b': Run)
    requires |a.decisions| == |b.decisions| == n && |a'.decisions| == |b'.decisions| == n + 1
    requires a'.decisions[..n] == a.decisions && b'.decisions[..n] == b.decisions
    ensures SameStops(n + 1, a', b') <==> SameStops(n, a, b) && a'.decisions[n].stop == b'.decisions[n].stop
    ensures forall k | 0 <= k < n :: a'.decisions[k] == a.decisions[k] && b'.decisions[k] == b.decisions[k]
  {
    assert forall k | 0 <= k < n :: a'.decisions[..n][k] == a'.decisions[k] && b'.decisions[..n][k] == b'.decisions[k];
  }

  /** Parity over the whole trade. From the projection alone a consumer of either kind reproduces every phase
      transition with its path, every take profile and the extremes of the replay on every bar. Its exits are
      the replay's on exactly the bars on which the confirmations in force fit; its stops are on all bars if
      and only if no bar brings a move within the tolerance it lacks; and the two runs are one, events
      included, if and only if both hold on every bar. */
  lemma TradeParity(frame: Frame, policy: Policy, p: Projection, keeping: Keeping, trade: Trade, n: nat)
    requires trade.entryPrice > 0.0 && trade.entryIndex + n <= |frame.bars|
    requires Rendered(frame, policy, p) && PolicyParsed(frame, policy)
    ensures var a, b := Replay(frame, policy, trade, 0, n), Consume(p, keeping, frame, trade, n);
            && |a.decisions| == |b.decisions| == n
            && (forall k | 0 <= k < n ::
                  a.decisions[k].(stop := None, exits := []) == b.decisions[k].(stop := None, exits := []))
            && (forall k | 0 <= k < n ::
                  a.decisions[k].exits == b.decisions[k].exits <==> ExitsAgreeOn(frame, policy, trade, k))
            && (SameStops(n, a, b) <==> forall k | 0 <= k < n :: StopAgreesOn(frame, policy, keeping, trade, k))
            && (a == b <==>
                  forall k | 0 <= k < n ::
                    StopAgreesOn(frame, policy, keeping, trade, k) && ExitsAgreeOn(frame, policy, trade, k))
  {
    hide Replay, Consume, Rendered, PolicyParsed, StopAgreesOn, ExitsAgreeOn;
    RunsAlike(frame, policy, p, keeping, trade, n);
    var a, b := Replay(frame, policy, trade, 0, n), Consume(p, keeping, frame, trade, n);
    if forall k | 0 <= k < n ::
      StopAgreesOn(frame, policy, keeping, trade, k) && ExitsAgreeOn(frame, policy, trade, k)
    {
      assert SameStops(n, a, b);
      forall k | 0 <= k < n ensures a.decisions[k] == b.decisions[k] {
        assert a.decisions[k].(stop := None, exits := []) == b.decisions[k].(stop := None, exits := []);
      }
      assert a.decisions == b.decisions;
    }
    if a == b {
      assert SameStops(n, a, b);
    }
  }

  lemma ConsumeUnfolds(p: Projection, keeping: Keeping, frame: Frame, trade: Trade, n: nat)
    requires trade.entryPrice > 0.0 && trade.entryIndex + n <= |frame.bars| && n > 0
    ensures Consume(p, keeping, frame, trade, n)
         == OneMoreConsumed(p, keeping, frame, trade, Consume(p, keeping, frame, trade, n - 1), trade.entryIndex + n - 1)
  {
  }

  /** The confirmations fit on every bar, whatever phase the trade is in, exactly when every closing phase
      exit confirms on its first bar: the components for which the replay ignores `confirm_bars`. */
  lemma NeutralIffSingleBar(trade: Trade, rules: seq<RuntimeRule>)
    requires forall k | 0 <= k < |rules| :: rules[k].confirmBars >= 1
    ensures (forall index: nat, phase: Phase | index >= trade.entryIndex :: ActiveNeutral(trade, index, phase, rules))
       <==> forall k | 0 <= k < |rules| && rules[k].action.PhaseExit? && rules[k].action.exitPrice == "close" ::
              rules[k].confirmBars == 1
  {
    if forall index: nat, phase: Phase | index >= trade.entryIndex :: ActiveNeutral(trade, index, phase, rules) {
      assert ActiveNeutral(trade, trade.entryIndex, Exhaustion, rules);
      forall k | 0 <= k < |rules| && rules[k].action.PhaseExit? && rules[k].action.exitPrice == "close"
        ensures rules[k].confirmBars == 1
      {
        assert AtLeastPhase(Exhaustion, rules[k].activation) && ConfirmNeutral(trade, trade.entryIndex, rules[k]);
      }
    }
  }
}
