/** What a managed replay reads: nothing after the bar it has reached. */
module ReplayLocality {
  import opened NodeProgram
  import opened EpisodeTables
  import opened ManagedPolicy
  import opened CompositeFold
  import opened ManagedReplay

  // -- edits after a bar ---------------------------------------------------------------------

  /** Two frames with the same bars and columns up to bar `last`; what follows may differ, in length too. */
  ghost predicate SameFrames(a: Frame, b: Frame, last: nat) {
    && Aligned(a) && Aligned(b) && last < |a.bars| && last < |b.bars|
    && (forall i | 0 <= i <= last :: a.bars[i] == b.bars[i])
    && a.series.Keys == b.series.Keys
    && forall name, i | name in a.series && 0 <= i <= last :: a.series[name][i] == b.series[name][i]
  }

  /** The masks of a predicate child may differ after bar `last`, all other children are the same. */
  ghost predicate SameContent(a: Content, b: Content, last: nat) {
    if a.PredicateChild? then
      && b.PredicateChild?
      && |a.long| > last && |a.short| > last && |b.long| > last && |b.short| > last
      && forall i | 0 <= i <= last :: a.long[i] == b.long[i] && a.short[i] == b.short[i]
    else a == b
  }

  ghost predicate SameChildren(a: seq<Child>, b: seq<Child>, last: nat) {
    |a| == |b| && forall k | 0 <= k < |a| :: a[k].id == b[k].id && SameContent(a[k].content, b[k].content, last)
  }

  ghost predicate SameCondition(a: PhaseCondition, b: PhaseCondition, last: nat) {
    if a.Composite? then b.Composite? && a.paths == b.paths && SameChildren(a.children, b.children, last) else a == b
  }

  ghost predicate SamePhases(a: seq<PhaseRule>, b: seq<PhaseRule>, last: nat) {
    && |a| == |b|
    && forall k | 0 <= k < |a| ::
         a[k].id == b[k].id && a[k].toPhase == b[k].toPhase && SameCondition(a[k].condition, b[k].condition, last)
  }

  /** One policy evaluated on both frames: its predicate children may differ after bar `last`. */
  ghost predicate SamePolicies(a: Policy, b: Policy, last: nat) {
    SamePhases(a.phases, b.phases, last) && a.stops == b.stops && a.takes == b.takes && a.runtimes == b.runtimes
  }

  lemma SameValue(a: Frame, b: Frame, last: nat, column: Column, i: int)
    requires SameFrames(a, b, last) && i <= last
    ensures ValueAt(a, column, i) == ValueAt(b, column, i)
  {
    if column.Some? && column.value in a.series {
      assert |a.series[column.value]| == |a.bars| && |b.series[column.value]| == |b.bars|;
    }
  }

  // -- conditions ------------------------------------------------------------------------------

  lemma AtomLocal(a: Frame, b: Frame, last: nat, trade: Trade, m: Metrics, index: nat, atom: Atom)
    requires SameFrames(a, b, last) && index <= last && trade.entryPrice > 0.0
    ensures AtomMet(a, trade, m, index, atom) == AtomMet(b, trade, m, index, atom)
  {
    hide SameFrames, ValueAt;
    match atom
    case MfeAtr(_, atr) => SameValue(a, b, last, atr, index);
    case AdxDi(adx, plus, minus, _, _) =>
      SameValue(a, b, last, adx, index);
      SameValue(a, b, last, plus, index);
      SameValue(a, b, last, minus, index);
    case _ =>
  }

  lemma {:induction false} FindLocal(c: seq<Child>, d: seq<Child>, last: nat, ref: string)
    requires SameChildren(c, d, last)
    ensures Find(c, ref).Some? == Find(d, ref).Some?
    ensures Find(c, ref).Some? ==> SameContent(Find(c, ref).value, Find(d, ref).value, last)
  {
    if |c| > 0 {
      FindLocal(c[1..], d[1..], last, ref);
    }
  }

  lemma RefLocal(
    a: Frame, b: Frame, last: nat, trade: Trade, m: Metrics, index: nat, c: seq<Child>, d: seq<Child>, ref: string)
    requires SameFrames(a, b, last) && index <= last && trade.entryIndex <= last && trade.entryPrice > 0.0
    requires SameChildren(c, d, last)
    ensures RefTrue(a, trade, m, index, c, ref) == RefTrue(b, trade, m, index, d, ref)
  {
    hide SameFrames, SameChildren, ValueAt, AtomMet;
    FindLocal(c, d, last, ref);
    if Find(c, ref).Some? {
      match Find(c, ref).value
      case PredicateChild(_, _) =>
      case AtomChild(atom) => AtomLocal(a, b, last, trade, m, index, atom);
      case ChangeChild(feature, _, _) =>
        SameValue(a, b, last, Some(feature), index);
        SameValue(a, b, last, Some(feature), trade.entryIndex);
    }
  }

  lemma {:induction false} CountLocal(
    a: Frame, b: Frame, last: nat, trade: Trade, m: Metrics, index: nat, c: seq<Child>, d: seq<Child>, refs: seq<string>)
    requires SameFrames(a, b, last) && index <= last && trade.entryIndex <= last && trade.entryPrice > 0.0
    requires SameChildren(c, d, last)
    ensures CountTrue(a, trade, m, index, c, refs) == CountTrue(b, trade, m, index, d, refs)
  {
    hide SameFrames, SameChildren, RefTrue;
    if |refs| > 0 {
      CountLocal(a, b, last, trade, m, index, c, d, refs[..|refs| - 1]);
      RefLocal(a, b, last, trade, m, index, c, d, refs[|refs| - 1]);
    }
  }

  lemma PathLocal(
    a: Frame, b: Frame, last: nat, trade: Trade, m: Metrics, index: nat, c: seq<Child>, d: seq<Child>, path: Path)
    requires SameFrames(a, b, last) && index <= last && trade.entryIndex <= last && trade.entryPrice > 0.0
    requires SameChildren(c, d, last)
    ensures PathTrue(a, trade, m, index, c, path) == PathTrue(b, trade, m, index, d, path)
  {
    hide SameFrames, SameChildren, RefTrue, CountTrue;
    forall ref | ref in path.require
      ensures RefTrue(a, trade, m, index, c, ref) == RefTrue(b, trade, m, index, d, ref)
    {
      RefLocal(a, b, last, trade, m, index, c, d, ref);
    }
    if path.atLeast.Some? {
      CountLocal(a, b, last, trade, m, index, c, d, path.atLeast.value.of);
    }
  }

  lemma {:induction false} FirstLocal(
    a: Frame, b: Frame, last: nat, trade: Trade, m: Metrics, index: nat, c: seq<Child>, d: seq<Child>, paths: seq<Path>)
    requires SameFrames(a, b, last) && index <= last && trade.entryIndex <= last && trade.entryPrice > 0.0
    requires SameChildren(c, d, last)
    ensures FirstPath(a, trade, m, index, c, paths) == FirstPath(b, trade, m, index, d, paths)
  {
    hide SameFrames, SameChildren, PathTrue;
    if |paths| > 0 {
      PathLocal(a, b, last, trade, m, index, c, d, paths[0]);
      FirstLocal(a, b, last, trade, m, index, c, d, paths[1..]);
    }
  }

  lemma ConditionLocal(
    a: Frame, b: Frame, last: nat, trade: Trade, m: Metrics, index: nat, c: PhaseCondition, d: PhaseCondition)
    requires SameFrames(a, b, last) && index <= last && trade.entryIndex <= last && trade.entryPrice > 0.0
    requires SameCondition(c, d, last)
    ensures ConditionMet(a, trade, m, index, c) == ConditionMet(b, trade, m, index, d)
  {
    hide SameFrames, SameChildren, FirstPath, AtomMet;
    match c
    case Atomic(atom) => AtomLocal(a, b, last, trade, m, index, atom);
    case Composite(children, paths) => FirstLocal(a, b, last, trade, m, index, children, d.children, paths);
  }

  // -- one bar ---------------------------------------------------------------------------------

  lemma {:induction false} PhasesLocal(
    a: Frame, b: Frame, last: nat, trade: Trade, m: Metrics, index: nat, c: seq<PhaseRule>, d: seq<PhaseRule>, p: Phasing)
    requires SameFrames(a, b, last) && index <= last && trade.entryIndex <= last && trade.entryPrice > 0.0
    requires SamePhases(c, d, last)
    ensures Phased(a, trade, m, index, c, p) == Phased(b, trade, m, index, d, p)
  {
    hide SameFrames, SameCondition, ConditionMet;
    if |c| > 0 {
      var k := |c| - 1;
      PhasesLocal(a, b, last, trade, m, index, c[..k], d[..k], p);
      ConditionLocal(a, b, last, trade, m, index, c[k].condition, d[k].condition);
    }
  }

  lemma CandidateLocal(a: Frame, b: Frame, last: nat, trade: Trade, best: real, index: nat, action: StopAction)
    requires SameFrames(a, b, last) && index <= last
    ensures Candidate(a, trade, best, index, action) == Candidate(b, trade, best, index, action)
  {
    hide SameFrames, ValueAt;
    match action
    case BreakEvenAtr(_, atr) => SameValue(a, b, last, atr, index);
    case LockProfit(_, atr) => SameValue(a, b, last, atr, index);
    case _ =>
  }

  lemma {:induction false} ProposalsLocal(
    a: Frame, b: Frame, last: nat, trade: Trade, best: real, index: nat, phase: Phase, rules: seq<StopRule>)
    requires SameFrames(a, b, last) && index <= last
    ensures Proposals(a, trade, best, index, phase, rules) == Proposals(b, trade, best, index, phase, rules)
  {
    hide SameFrames, Candidate;
    if |rules| > 0 {
      ProposalsLocal(a, b, last, trade, best, index, phase, rules[..|rules| - 1]);
      CandidateLocal(a, b, last, trade, best, index, rules[|rules| - 1].action);
    }
  }

  lemma SignalsLocal(a: Frame, b: Frame, last: nat, side: Side, start: nat, index: nat, rule: RuntimeRule)
    requires SameFrames(a, b, last) && index <= last
    ensures Signals(a, side, start, index, rule) == Signals(b, side, start, index, rule)
  {
    hide SameFrames, ValueAt;
    forall column, i | i <= index ensures ValueAt(a, column, i) == ValueAt(b, column, i) {
      SameValue(a, b, last, column, i);
    }
  }

  lemma {:induction false} ArmedLocal(
    a: Frame, b: Frame, last: nat, side: Side, start: nat, index: nat, phase: Phase, rules: seq<RuntimeRule>)
    requires SameFrames(a, b, last) && index <= last
    ensures Armed(a, side, start, index, phase, rules) == Armed(b, side, start, index, phase, rules)
  {
    hide SameFrames, Signals;
    if |rules| > 0 {
      ArmedLocal(a, b, last, side, start, index, phase, rules[..|rules| - 1]);
      SignalsLocal(a, b, last, side, start, index, rules[|rules| - 1]);
    }
  }

  lemma StepLocal(
    a: Frame, b: Frame, c: Policy, d: Policy, last: nat, trade: Trade, start: nat, s: State, index: nat)
    requires SameFrames(a, b, last) && SamePolicies(c, d, last)
    requires index <= last && trade.entryIndex <= last && trade.entryPrice > 0.0
    ensures Step(a, c, trade, start, s, index) == Step(b, d, trade, start, s, index)
  {
    hide SamePhases, Phased, Proposals, Armed, Taken, Ratchet;
    var moved := Extremes(a, trade, s, index);
    assert moved == Extremes(b, trade, s, index);
    hide SameFrames, Extremes;
    PhasesLocal(a, b, last, trade, MetricsOf(moved), index, c.phases, d.phases, Phasing(s.phase, s.maxPhase, []));
    var phase := Phased(a, trade, MetricsOf(moved), index, c.phases, Phasing(s.phase, s.maxPhase, [])).phase;
    ProposalsLocal(a, b, last, trade, moved.best, index, phase, c.stops);
    ArmedLocal(a, b, last, trade.side, start, index, phase, c.runtimes);
  }

  // -- the whole run -----------------------------------------------------------------------------

  /** A replay up to a target reads nothing after it: whatever later bars, columns and predicate masks
      become, states, events and decisions stay the same. */
  lemma {:induction false} ReplayReadsNothingLater(
    a: Frame, b: Frame, c: Policy, d: Policy, last: nat, trade: Trade, offset: Offset, n: nat)
    requires SameFrames(a, b, last) && SamePolicies(c, d, last) && trade.entryPrice > 0.0
    requires trade.entryIndex <= last && trade.entryIndex + offset + n <= last + 1
    ensures Replay(a, c, trade, offset, n) == Replay(b, d, trade, offset, n)
  {
    hide OneMoreBar, SamePolicies;
    if n > 0 {
      ReplayReadsNothingLater(a, b, c, d, last, trade, offset, n - 1);
      var start := trade.entryIndex + offset;
      ReplayUnfolds(a, c, trade, offset, n);
      ReplayUnfolds(b, d, trade, offset, n);
      BarLocal(a, b, c, d, last, trade, start, Replay(a, c, trade, offset, n - 1), start + n - 1);
    }
  }

  lemma BarLocal(
    a: Frame, b: Frame, c: Policy, d: Policy, last: nat, trade: Trade, start: nat, run: Run, index: nat)
    requires SameFrames(a, b, last) && SamePolicies(c, d, last)
    requires index <= last && trade.entryIndex <= last && trade.entryPrice > 0.0
    ensures OneMoreBar(a, c, trade, start, run, index) == OneMoreBar(b, d, trade, start, run, index)
  {
    hide Step;
    StepLocal(a, b, c, d, last, trade, start, run.state, index);
  }
}
