/** The candidate-wide managed projection and its consumer: the rules as the contract documents them,
    interpreted for one trade from opaque ids, series and distances alone. */
module ManagedProjection {
  import opened NodeProgram
  import opened EpisodeTables
  import opened ManagedPolicy
  import opened CompositeFold
  import opened ManagedReplay

  // -- the contract --------------------------------------------------------------------

  datatype ConditionSeries = ConditionSeries(long: seq<bool>, short: seq<bool>)

  datatype TradeMetric = BarsSinceEntry | MfePctMetric | MfeDistanceMetric | MfeRMetric

  datatype Threshold = Threshold(distanceId: string, metric: TradeMetric)

  datatype EntryChange = EntryChange(seriesId: string, op: ChangeOp, amount: real)

  datatype Term =
    | MarketTerm(conditionId: string)
    | TradeTerm(threshold: Threshold)
    | ChangeTerm(change: EntryChange)

  datatype TermsAtLeast = TermsAtLeast(k: int, terms: seq<Term>)

  datatype TransitionPath = TransitionPath(
    id: string, conditionId: Option<string>, thresholds: seq<Threshold>, changes: seq<EntryChange>,
    atLeast: Option<TermsAtLeast>)

  datatype Gate =
    | ByCondition(conditionId: string)
    | ByThreshold(threshold: Threshold)
    | ByPaths(paths: seq<TransitionPath>)

  datatype StopFormula = FromEntry | LockFormula(triggerId: string) | TrailingFormula(triggerId: string)

  datatype ExitClass = RuntimeProtective | RuntimeTake | RuntimeClose

  datatype ManagedRule =
    | PhaseTransition(id: string, target: Phase, gate: Gate)
    | StopMove(id: string, activation: Phase, distanceId: string, formula: StopFormula)
    | TakeMove(id: string, activation: Phase, profile: string)
    | RuntimeExit(id: string, activation: Phase, conditionId: string, confirmBars: int, exitClass: ExitClass)

  type Conditions = map<string, ConditionSeries>
  type Distances = map<string, Series>

  datatype Projection = Projection(conditions: Conditions, distances: Distances, rules: seq<ManagedRule>)

  // -- the consumer: reading ---------------------------------------------------------

  predicate ConditionAt(conditions: Conditions, id: string, side: Side, index: int) {
    && id in conditions
    && var mask := if side == Long then conditions[id].long else conditions[id].short;
       0 <= index < |mask| && mask[index]
  }

  /** NaN and an unknown id read as missing. */
  function DistanceAt(distances: Distances, id: string, index: int): Option<real> {
    if id in distances && 0 <= index < |distances[id]| then distances[id][index] else None
  }

  function MetricValue(trade: Trade, m: Metrics, metric: TradeMetric): Option<real>
    requires trade.entryPrice > 0.0
  {
    match metric
    case BarsSinceEntry => Some(m.barsInTrade as real)
    case MfePctMetric => Some(MfePctOf(trade, m.best))
    case MfeDistanceMetric => Some(MfeDistance(trade, m.best))
    case MfeRMetric => MfeROf(trade, m.best)
  }

  predicate ThresholdMet(distances: Distances, trade: Trade, m: Metrics, index: int, t: Threshold)
    requires trade.entryPrice > 0.0
  {
    var value, distance := MetricValue(trade, m, t.metric), DistanceAt(distances, t.distanceId, index);
    value.Some? && distance.Some? && value.value >= distance.value
  }

  predicate ChangeMet(distances: Distances, trade: Trade, index: int, c: EntryChange) {
    Changes(c.op, DistanceAt(distances, c.seriesId, index), DistanceAt(distances, c.seriesId, trade.entryIndex), c.amount)
  }

  predicate TermMet(conditions: Conditions, distances: Distances, trade: Trade, m: Metrics, index: int, term: Term)
    requires trade.entryPrice > 0.0
  {
    match term
    case MarketTerm(id) => ConditionAt(conditions, id, trade.side, index)
    case TradeTerm(threshold) => ThresholdMet(distances, trade, m, index, threshold)
    case ChangeTerm(change) => ChangeMet(distances, trade, index, change)
  }

  function CountMet(
    conditions: Conditions, distances: Distances, trade: Trade, m: Metrics, index: int, terms: seq<Term>): nat
    requires trade.entryPrice > 0.0
  {
    if |terms| == 0 then 0 else
    CountMet(conditions, distances, trade, m, index, terms[..|terms| - 1])
    + if TermMet(conditions, distances, trade, m, index, terms[|terms| - 1]) then 1 else 0
  }

  predicate PathMet(
    conditions: Conditions, distances: Distances, trade: Trade, m: Metrics, index: int, path: TransitionPath)
    requires trade.entryPrice > 0.0
  {
    && (path.conditionId.Some? ==> ConditionAt(conditions, path.conditionId.value, trade.side, index))
    && (forall t | t in path.thresholds :: ThresholdMet(distances, trade, m, index, t))
    && (forall c | c in path.changes :: ChangeMet(distances, trade, index, c))
    && (path.atLeast.Some? ==>
          CountMet(conditions, distances, trade, m, index, path.atLeast.value.terms) >= path.atLeast.value.k)
  }

  function FirstMet(
    conditions: Conditions, distances: Distances, trade: Trade, m: Metrics, index: int, paths: seq<TransitionPath>):
    Option<string>
    requires trade.entryPrice > 0.0
  {
    if |paths| == 0 then None
    else if PathMet(conditions, distances, trade, m, index, paths[0]) then Some(paths[0].id)
    else FirstMet(conditions, distances, trade, m, index, paths[1..])
  }

  function GateMet(conditions: Conditions, distances: Distances, trade: Trade, m: Metrics, index: int, gate: Gate): Met
    requires trade.entryPrice > 0.0
  {
    match gate
    case ByCondition(id) => if ConditionAt(conditions, id, trade.side, index) then Plainly else Unmet
    case ByThreshold(threshold) => if ThresholdMet(distances, trade, m, index, threshold) then Plainly else Unmet
    case ByPaths(paths) =>
      var path := FirstMet(conditions, distances, trade, m, index, paths);
      if path.Some? then ByPath(path.value) else Unmet
  }

  // -- the consumer: one trade ---------------------------------------------------------

  /** A transition only ever advances the phase. */
  function Transit(p: Projection, trade: Trade, m: Metrics, index: nat, rule: ManagedRule, s: Phasing): Phasing
    requires trade.entryPrice > 0.0
  {
    if !rule.PhaseTransition? || Rank(rule.target) <= Rank(s.phase) then s else
    var met := GateMet(p.conditions, p.distances, trade, m, index, rule.gate);
    if met.Unmet? then s else
    Phasing(rule.target,
      if Rank(rule.target) > Rank(s.maxPhase) then rule.target else s.maxPhase,
      s.events + [PhaseChanged(index, rule.id, s.phase, rule.target, met)])
  }

  function Transited(p: Projection, trade: Trade, m: Metrics, index: nat, rules: seq<ManagedRule>, s: Phasing): Phasing
    requires trade.entryPrice > 0.0
  {
    if |rules| == 0 then s else
    Transit(p, trade, m, index, rules[|rules| - 1], Transited(p, trade, m, index, rules[..|rules| - 1], s))
  }

  /** The stop a rule proposes: its distance from entry, or an initial-R formula past its trigger. */
  function Move(p: Projection, trade: Trade, best: real, index: nat, rule: ManagedRule): Option<real>
    requires rule.StopMove?
  {
    var distance := DistanceAt(p.distances, rule.distanceId, index);
    if distance.None? then None else
    match rule.formula
    case FromEntry => Some(InFavour(trade.side, trade.entryPrice, distance.value))
    case LockFormula(triggerId) => RMove(p, trade, best, index, distance.value, triggerId, false)
    case TrailingFormula(triggerId) => RMove(p, trade, best, index, distance.value, triggerId, true)
  }

  function RMove(
    p: Projection, trade: Trade, best: real, index: nat, risks: real, triggerId: string, trailing: bool): Option<real>
  {
    var trigger := DistanceAt(p.distances, triggerId, index);
    if trigger.None? then None else InitialRCandidate(trade, best, trigger.value, risks, trailing)
  }

  function Moves(p: Projection, trade: Trade, best: real, index: nat, phase: Phase, rules: seq<ManagedRule>):
    seq<Proposal>
  {
    if |rules| == 0 then [] else
    var rule := rules[|rules| - 1];
    var earlier := Moves(p, trade, best, index, phase, rules[..|rules| - 1]);
    if !rule.StopMove? || !AtLeastPhase(phase, rule.activation) then earlier else
    var price := Move(p, trade, best, index, rule);
    if price.None? then earlier else earlier + [Proposal(price.value, rule.id)]
  }

  /** The resulting profile is applied verbatim. */
  function Switch(index: nat, phase: Phase, rule: ManagedRule, t: Taking): Taking {
    if !rule.TakeMove? || !AtLeastPhase(phase, rule.activation) || rule.profile == t.profile then t else
    Taking(rule.profile, Some(rule.id), t.events + [TakeUpdated(index, rule.id, rule.profile)])
  }

  function Switched(index: nat, phase: Phase, rules: seq<ManagedRule>, t: Taking): Taking {
    if |rules| == 0 then t else
    Switch(index, phase, rules[|rules| - 1], Switched(index, phase, rules[..|rules| - 1], t))
  }

  /** The pre-confirm condition held on `confirmBars` bars in a row since the trade's entry. */
  predicate Confirmed(p: Projection, trade: Trade, index: nat, rule: ManagedRule)
    requires rule.RuntimeExit?
  {
    var first := index - rule.confirmBars + 1;
    && first >= trade.entryIndex
    && forall i | first <= i <= index :: ConditionAt(p.conditions, rule.conditionId, trade.side, i)
  }

  function Exiting(p: Projection, trade: Trade, index: nat, phase: Phase, rules: seq<ManagedRule>): seq<string> {
    if |rules| == 0 then [] else
    var rule := rules[|rules| - 1];
    var earlier := Exiting(p, trade, index, phase, rules[..|rules| - 1]);
    if rule.RuntimeExit? && AtLeastPhase(phase, rule.activation) && Confirmed(p, trade, index, rule)
    then earlier + [rule.id]
    else earlier
  }

  /** How the consumer keeps its stop: with the replay's tolerance, or moving on every tightening. */
  datatype Keeping = WithTolerance | Exactly

  function Keep(keeping: Keeping, side: Side, index: nat, ps: seq<Proposal>, s: Stopping): Stopping {
    if |ps| == 0 then s
    else if keeping.WithTolerance? then Ratchet(side, index, Tightest(side, ps), s)
    else
      var p := Tightest(side, ps);
      if s.stop.None? || Tighter(side, p.price, s.stop.value)
      then Stopping(Some(p.price), Some(p.ruleId), s.events + [StopUpdated(index, p.ruleId, p.price)])
      else s
  }

  function ConsumerStep(p: Projection, keeping: Keeping, frame: Frame, trade: Trade, s: State, index: nat): Stepped
    requires trade.entryPrice > 0.0 && index < |frame.bars|
  {
    var moved := Extremes(frame, trade, s, index);
    var phases := Transited(p, trade, MetricsOf(moved), index, p.rules, Phasing(s.phase, s.maxPhase, []));
    var moves := Moves(p, trade, moved.best, index, phases.phase, p.rules);
    var stops := Keep(keeping, trade.side, index, moves, Stopping(s.stop, s.stopRule, []));
    var takes := Switched(index, phases.phase, p.rules, Taking(s.profile, s.takeRule, []));
    var exits := Exiting(p, trade, index, phases.phase, p.rules);
    Stepped(
      State(moved.bars, phases.phase, phases.maxPhase, moved.best, moved.worst, stops.stop, stops.stopRule,
            takes.profile, takes.takeRule, exits),
      phases.events + stops.events + takes.events + Triggered(index, exits))
  }

  function OneMoreConsumed(p: Projection, keeping: Keeping, frame: Frame, trade: Trade, run: Run, index: nat): Run
    requires trade.entryPrice > 0.0 && index < |frame.bars|
  {
    var stepped := ConsumerStep(p, keeping, frame, trade, run.state, index);
    Run(stepped.state, run.events + stepped.events, run.decisions + [Decide(stepped.state, index)])
  }

  /** The trade's first `n` bars, resolved from the projection: entry bar included. The frame's columns
      are not read. */
  function Consume(p: Projection, keeping: Keeping, frame: Frame, trade: Trade, n: nat): Run
    requires trade.entryPrice > 0.0 && trade.entryIndex + n <= |frame.bars|
  {
    if n == 0 then Run(Initial(trade, 0), [], []) else
    OneMoreConsumed(p, keeping, frame, trade, Consume(p, keeping, frame, trade, n - 1), trade.entryIndex + n - 1)
  }

  // -- what a projection of a policy must hold ---------------------------------------------

  predicate TradeAtom(atom: Atom) {
    !atom.AdxDi?
  }

  function MetricOf(atom: Atom): TradeMetric
    requires TradeAtom(atom)
  {
    match atom
    case BarsInTrade(_) => BarsSinceEntry
    case MfePct(_) => MfePctMetric
    case MfeAtr(_, _) => MfeDistanceMetric
    case MfeR(_) => MfeRMetric
  }

  function Constant(n: nat, x: real): Series {
    seq(n, _ => Some(x))
  }

  /** An indicator times a multiple; missing where the indicator is, or where it must be positive. */
  function Scaled(frame: Frame, multiple: real, column: Column, positive: bool): Series {
    seq(|frame.bars|, i =>
      var x := ValueAt(frame, column, i);
      if x.Some? && (positive ==> x.value > 0.0) then Some(Times(multiple, x.value)) else None)
  }

  function ThresholdSeries(frame: Frame, atom: Atom): Series
    requires TradeAtom(atom)
  {
    match atom
    case BarsInTrade(bars) => Constant(|frame.bars|, bars as real)
    case MfePct(threshold) => Constant(|frame.bars|, threshold)
    case MfeAtr(multiple, atr) => Scaled(frame, multiple, atr, true)
    case MfeR(risks) => Constant(|frame.bars|, risks)
  }

  function MarketMask(frame: Frame, side: Side, content: Content): seq<bool>
    requires IsMarket(content)
  {
    seq(|frame.bars|, i => MarketTrue(frame, side, i, content))
  }

  function MarketSeries(frame: Frame, content: Content): ConditionSeries
    requires IsMarket(content)
  {
    ConditionSeries(MarketMask(frame, Long, content), MarketMask(frame, Short, content))
  }

  function Ids(children: seq<Child>): set<string> {
    set c | c in children :: c.id
  }

  predicate MarketRef(children: seq<Child>, ref: string) {
    Find(children, ref).Some? && IsMarket(Find(children, ref).value)
  }

  /** The masks of all market children of a composite on one side. */
  function MasksOf(frame: Frame, side: Side, children: seq<Child>): Masks {
    map id | id in Ids(children) && MarketRef(children, id) :: MarketMask(frame, side, Find(children, id).value)
  }

  lemma {:induction false} FindKnown(children: seq<Child>, id: string)
    requires Find(children, id).Some?
    ensures id in Ids(children)
  {
    if children[0].id == id {
      assert children[0] in children;
    } else {
      FindKnown(children[1..], id);
      var c :| c in children[1..] && c.id == id;
      assert c in children;
    }
  }

  lemma SameMarketRefs(frame: Frame, children: seq<Child>)
    ensures MasksOf(frame, Long, children).Keys == MasksOf(frame, Short, children).Keys
  {
  }

  lemma SameVotes(masks: Masks, masks': Masks, refs: seq<string>)
    requires masks.Keys == masks'.Keys
    ensures AllMarket(masks, refs) == AllMarket(masks', refs) && SomeMarket(masks, refs) == SomeMarket(masks', refs)
  {
    assert forall ref | ref in refs :: ref in masks <==> ref in masks';
  }

  function PathMask(frame: Frame, side: Side, children: seq<Child>, path: Path): seq<bool> {
    seq(|frame.bars|, i => MarketPart(MasksOf(frame, side, children), path, i))
  }

  function PathSeries(frame: Frame, children: seq<Child>, path: Path): ConditionSeries {
    ConditionSeries(PathMask(frame, Long, children, path), PathMask(frame, Short, children, path))
  }

  /** The path has a part that depends on the market alone. */
  predicate HasMarketPart(frame: Frame, children: seq<Child>, path: Path) {
    var masks := MasksOf(frame, Long, children);
    SomeMarket(masks, path.require) || Votes(masks, path)
  }

  predicate ChangeRef(children: seq<Child>, ref: string) {
    Find(children, ref).Some? && Find(children, ref).value.ChangeChild?
  }

  function TradeRefs(children: seq<Child>, refs: seq<string>): seq<string> {
    if |refs| == 0 then [] else
    var most, last := TradeRefs(children, refs[..|refs| - 1]), refs[|refs| - 1];
    if MarketRef(children, last) || ChangeRef(children, last) then most else most + [last]
  }

  function ChangeRefs(children: seq<Child>, refs: seq<string>): seq<string> {
    if |refs| == 0 then [] else
    var most, last := ChangeRefs(children, refs[..|refs| - 1]), refs[|refs| - 1];
    if ChangeRef(children, last) then most + [last] else most
  }

  ghost predicate AtomRendered(frame: Frame, distances: Distances, atom: Atom, t: Threshold) {
    && TradeAtom(atom) && t.metric == MetricOf(atom)
    && t.distanceId in distances && distances[t.distanceId] == ThresholdSeries(frame, atom)
  }

  ghost predicate ThresholdRendered(frame: Frame, distances: Distances, children: seq<Child>, ref: string, t: Threshold) {
    var content := Find(children, ref);
    content.Some? && content.value.AtomChild? && AtomRendered(frame, distances, content.value.atom, t)
  }

  ghost predicate ChangeRendered(frame: Frame, distances: Distances, children: seq<Child>, ref: string, c: EntryChange) {
    var content := Find(children, ref);
    && content.Some? && content.value.ChangeChild? && c.op == content.value.op && c.amount == content.value.amount
    && c.seriesId in distances && distances[c.seriesId] == SeriesOf(frame, Some(content.value.feature))
  }

  ghost predicate MarketRendered(frame: Frame, conditions: Conditions, content: Content, id: string) {
    IsMarket(content) && id in conditions && conditions[id] == MarketSeries(frame, content)
  }

  ghost predicate TermRendered(
    frame: Frame, conditions: Conditions, distances: Distances, children: seq<Child>, ref: string, term: Term)
  {
    match term
    case MarketTerm(id) => MarketRef(children, ref) && MarketRendered(frame, conditions, Find(children, ref).value, id)
    case TradeTerm(threshold) => ThresholdRendered(frame, distances, children, ref, threshold)
    case ChangeTerm(change) => ChangeRendered(frame, distances, children, ref, change)
  }

  ghost predicate PathRendered(
    frame: Frame, conditions: Conditions, distances: Distances, children: seq<Child>, path: Path, out: TransitionPath)
  {
    && out.id == path.id
    && (out.conditionId.Some? <==> HasMarketPart(frame, children, path))
    && (out.conditionId.Some? ==>
          out.conditionId.value in conditions
          && conditions[out.conditionId.value] == PathSeries(frame, children, path))
    && ThresholdsRendered(frame, distances, children, TradeRefs(children, path.require), out.thresholds)
    && ChangesRendered(frame, distances, children, ChangeRefs(children, path.require), out.changes)
    && (out.atLeast.Some? <==> path.atLeast.Some? && !Votes(MasksOf(frame, Long, children), path))
    && (out.atLeast.Some? ==>
          && out.atLeast.value.k == path.atLeast.value.k
          && TermsRendered(frame, conditions, distances, children, path.atLeast.value.of, out.atLeast.value.terms))
  }

  ghost predicate ThresholdsRendered(
    frame: Frame, distances: Distances, children: seq<Child>, refs: seq<string>, ts: seq<Threshold>)
  {
    |ts| == |refs| && forall k | 0 <= k < |refs| :: ThresholdRendered(frame, distances, children, refs[k], ts[k])
  }

  ghost predicate ChangesRendered(
    frame: Frame, distances: Distances, children: seq<Child>, refs: seq<string>, cs: seq<EntryChange>)
  {
    |cs| == |refs| && forall k | 0 <= k < |refs| :: ChangeRendered(frame, distances, children, refs[k], cs[k])
  }

  ghost predicate TermsRendered(
    frame: Frame, conditions: Conditions, distances: Distances, children: seq<Child>, refs: seq<string>, ts: seq<Term>)
  {
    |ts| == |refs| && forall k | 0 <= k < |refs| :: TermRendered(frame, conditions, distances, children, refs[k], ts[k])
  }

  ghost predicate GateRendered(
    frame: Frame, conditions: Conditions, distances: Distances, condition: PhaseCondition, gate: Gate)
  {
    match condition
    case Atomic(atom) =>
      if TradeAtom(atom) then gate.ByThreshold? && AtomRendered(frame, distances, atom, gate.threshold)
      else gate.ByCondition? && MarketRendered(frame, conditions, AtomChild(atom), gate.conditionId)
    case Composite(children, paths) =>
      && gate.ByPaths? && |gate.paths| == |paths|
      && forall k | 0 <= k < |paths| :: PathRendered(frame, conditions, distances, children, paths[k], gate.paths[k])
  }

  ghost predicate PhaseRendered(
    frame: Frame, conditions: Conditions, distances: Distances, rule: PhaseRule, out: ManagedRule)
  {
    && out.PhaseTransition? && out.id == rule.id && out.target == rule.toPhase
    && GateRendered(frame, conditions, distances, rule.condition, out.gate)
  }

  /** The distance of a stop: an offset from entry, or a number of initial risks. */
  function StopDistance(frame: Frame, action: StopAction): Series {
    match action
    case BreakEven(buffer) => Constant(|frame.bars|, buffer)
    case BreakEvenAtr(multiple, atr) => Scaled(frame, multiple, atr, false)
    case LockProfit(multiple, atr) => Scaled(frame, multiple, atr, false)
    case InitialRLock(_, risks) => Constant(|frame.bars|, risks)
    case InitialRTrailing(_, risks) => Constant(|frame.bars|, risks)
  }

  ghost predicate FormulaRendered(frame: Frame, distances: Distances, action: StopAction, formula: StopFormula) {
    match action
    case InitialRLock(trigger, _) => formula.LockFormula? && TriggerRendered(frame, distances, trigger, formula.triggerId)
    case InitialRTrailing(trigger, _) =>
      formula.TrailingFormula? && TriggerRendered(frame, distances, trigger, formula.triggerId)
    case _ => formula.FromEntry?
  }

  ghost predicate TriggerRendered(frame: Frame, distances: Distances, trigger: real, id: string) {
    id in distances && distances[id] == Constant(|frame.bars|, trigger)
  }

  ghost predicate StopRendered(frame: Frame, distances: Distances, rule: StopRule, out: ManagedRule) {
    && out.StopMove? && out.id == rule.id && out.activation == rule.activation
    && out.distanceId in distances && distances[out.distanceId] == StopDistance(frame, rule.action)
    && FormulaRendered(frame, distances, rule.action, out.formula)
  }

  ghost predicate TakeRendered(rule: TakeRule, out: ManagedRule) {
    out.TakeMove? && out.id == rule.id && out.activation == rule.activation && out.profile == ProfileOf(rule.action)
  }

  /** The pre-confirm signal of a runtime exit on one bar. */
  predicate PreConfirm(frame: Frame, side: Side, action: RuntimeAction, i: int) {
    match action
    case PhaseExit(exitPrice) => exitPrice == "close"
    case RsiExit(rsi, _, _) =>
      RsiBoundary(side, action).Some? && RsiSignal(side, RsiBoundary(side, action).value, ValueAt(frame, rsi, i))
    case EmaCross(fast, slow) => CrossSignal(side, ValueAt(frame, fast, i), ValueAt(frame, slow, i))
  }

  function ExitMask(frame: Frame, side: Side, action: RuntimeAction): seq<bool> {
    seq(|frame.bars|, i => PreConfirm(frame, side, action, i))
  }

  function ExitSeries(frame: Frame, action: RuntimeAction): ConditionSeries {
    ConditionSeries(ExitMask(frame, Long, action), ExitMask(frame, Short, action))
  }

  function ClassOf(exitKind: string): ExitClass {
    if exitKind == "protective_exit" then RuntimeProtective
    else if exitKind == "take_profit" then RuntimeTake
    else RuntimeClose
  }

  ghost predicate ExitRendered(frame: Frame, conditions: Conditions, rule: RuntimeRule, out: ManagedRule) {
    && out.RuntimeExit? && out.id == rule.id && out.activation == rule.activation
    && out.confirmBars == rule.confirmBars
    && (out.exitClass == RuntimeProtective <==> rule.exitKind == "protective_exit")
    && (out.exitClass == RuntimeTake <==> rule.exitKind == "take_profit")
    && out.conditionId in conditions && conditions[out.conditionId] == ExitSeries(frame, rule.action)
  }

  /** A projection of a policy: the rules in their documented order, every id leading to its own series. */
  ghost predicate Rendered(frame: Frame, policy: Policy, p: Projection) {
    var a, b, c, d := |policy.phases|, |policy.stops|, |policy.takes|, |policy.runtimes|;
    && |p.rules| == a + b + c + d
    && (forall k | 0 <= k < a :: PhaseRendered(frame, p.conditions, p.distances, policy.phases[k], p.rules[k]))
    && (forall k | 0 <= k < b :: StopRendered(frame, p.distances, policy.stops[k], p.rules[a + k]))
    && (forall k | 0 <= k < c :: TakeRendered(policy.takes[k], p.rules[a + b + k]))
    && (forall k | 0 <= k < d :: ExitRendered(frame, p.conditions, policy.runtimes[k], p.rules[a + b + c + k]))
  }
}
