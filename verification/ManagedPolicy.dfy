/** The managed exit policy of an open trade: parsed rules, market data, and what a phase condition
    means on one bar of one trade. */
module ManagedPolicy {
  import opened NodeProgram
  import opened EpisodeTables

  datatype Phase = InitialRisk | Proven | Protected | Runner | Exhaustion

  function Rank(p: Phase): nat {
    match p
    case InitialRisk => 0
    case Proven => 1
    case Protected => 2
    case Runner => 3
    case Exhaustion => 4
  }

  // -- the policy ----------------------------------------------------------------

  /** Columns are named by the feature plan; a feature that is not planned has no column. */
  type Column = Option<string>

  datatype Atom =
    | BarsInTrade(bars: int)
    | MfePct(threshold: real)
    | MfeAtr(multiple: real, atr: Column)
    | MfeR(risks: real)
    | AdxDi(adx: Column, plus: Column, minus: Column, strength: real, requireAlignment: bool)

  datatype ChangeOp = AtLeastOp | AboveOp | AtMostOp | BelowOp

  /** A child of a composite condition: a predicate with its evaluated masks, an atom, or a change
      since the entry bar. */
  datatype Content =
    | PredicateChild(long: seq<bool>, short: seq<bool>)
    | AtomChild(atom: Atom)
    | ChangeChild(feature: string, op: ChangeOp, amount: real)

  datatype Child = Child(id: string, content: Content)

  datatype AtLeast = AtLeast(k: int, of: seq<string>)

  datatype Path = Path(id: string, require: seq<string>, atLeast: Option<AtLeast>)

  datatype PhaseCondition =
    | Atomic(atom: Atom)
    | Composite(children: seq<Child>, paths: seq<Path>)

  datatype PhaseRule = PhaseRule(id: string, toPhase: Phase, condition: PhaseCondition)

  datatype StopAction =
    | BreakEven(buffer: real)
    | BreakEvenAtr(multiple: real, atr: Column)
    | LockProfit(multiple: real, atr: Column)
    | InitialRLock(trigger: real, risks: real)
    | InitialRTrailing(trigger: real, risks: real)

  datatype StopRule = StopRule(id: string, activation: Phase, action: StopAction)

  datatype TakeRule = TakeRule(id: string, activation: Phase, action: string)

  datatype RuntimeAction =
    | PhaseExit(exitPrice: string)
    | RsiExit(rsi: Column, longAbove: Option<real>, shortBelow: Option<real>)
    | EmaCross(fast: Column, slow: Column)

  datatype RuntimeRule =
    RuntimeRule(id: string, activation: Phase, action: RuntimeAction, confirmBars: int, exitKind: string)

  datatype Policy = Policy(
    phases: seq<PhaseRule>, stops: seq<StopRule>, takes: seq<TakeRule>, runtimes: seq<RuntimeRule>)

  // -- the market ------------------------------------------------------------------

  datatype Bar = Bar(high: real, low: real)

  datatype Frame = Frame(bars: seq<Bar>, series: map<string, Series>)

  /** One value per bar in every column. */
  ghost predicate Aligned(frame: Frame) {
    && "" !in frame.series
    && forall name | name in frame.series :: |frame.series[name]| == |frame.bars|
  }

  function Missing(n: nat): Series {
    seq(n, _ => None)
  }

  /** A column's values; an unknown column is missing throughout. */
  function SeriesOf(frame: Frame, column: Column): Series {
    var name := if column.Some? then column.value else "";
    if name in frame.series then frame.series[name] else Missing(|frame.bars|)
  }

  function ValueAt(frame: Frame, column: Column, index: int): Option<real> {
    if column.None? then None else
    var values := SeriesOf(frame, column);
    if 0 <= index < |values| then values[index] else None
  }

  lemma SeriesAgree(frame: Frame, column: Column, index: int)
    requires Aligned(frame) && 0 <= index < |frame.bars|
    ensures |SeriesOf(frame, column)| == |frame.bars|
    ensures SeriesOf(frame, column)[index] == ValueAt(frame, column, index)
  {
  }

  // -- one trade ---------------------------------------------------------------------

  datatype Trade = Trade(side: Side, entryIndex: nat, entryPrice: real, initialStop: Option<real>)

  /** The trade's quantities on a bar: the favourable extreme so far is all they depend on. */
  datatype Metrics = Metrics(barsInTrade: int, best: real)

  function Abs(x: real): real {
    if x < 0.0 then -x else x
  }

  function Times(multiple: real, x: real): real {
    multiple * x
  }

  function MfePctOf(trade: Trade, best: real): real
    requires trade.entryPrice > 0.0
  {
    (if trade.side == Long then best - trade.entryPrice else trade.entryPrice - best) / trade.entryPrice
  }

  function MfeDistance(trade: Trade, best: real): real {
    Abs(best - trade.entryPrice)
  }

  /** The distance from entry to the initial stop, frozen at entry. */
  function RiskOf(trade: Trade): Option<real> {
    if trade.initialStop.None? then None else Some(Abs(trade.entryPrice - trade.initialStop.value))
  }

  /** Progress in multiples of the initial risk; unavailable without a positive one. */
  function MfeROf(trade: Trade, best: real): Option<real> {
    var risk := RiskOf(trade);
    if risk.None? || risk.value <= 0.0 then None else Some(MfeDistance(trade, best) / risk.value)
  }

  // -- conditions on a bar -----------------------------------------------------------

  predicate AdxMet(side: Side, adx: Option<real>, plus: Option<real>, minus: Option<real>, strength: real, aligned: bool) {
    && adx.Some? && plus.Some? && minus.Some? && adx.value >= strength
    && (aligned ==> if side == Long then plus.value > minus.value else minus.value > plus.value)
  }

  predicate AtomMet(frame: Frame, trade: Trade, m: Metrics, index: int, atom: Atom)
    requires trade.entryPrice > 0.0
  {
    match atom
    case BarsInTrade(bars) => m.barsInTrade >= bars
    case MfePct(threshold) => MfePctOf(trade, m.best) >= threshold
    case MfeAtr(multiple, atr) =>
      var value := ValueAt(frame, atr, index);
      value.Some? && value.value > 0.0 && MfeDistance(trade, m.best) >= Times(multiple, value.value)
    case MfeR(risks) =>
      var r := MfeROf(trade, m.best);
      r.Some? && r.value >= risks
    case AdxDi(adx, plus, minus, strength, requireAlignment) =>
      AdxMet(trade.side, ValueAt(frame, adx, index), ValueAt(frame, plus, index), ValueAt(frame, minus, index),
             strength, requireAlignment)
  }

  predicate Changes(op: ChangeOp, current: Option<real>, anchor: Option<real>, amount: real) {
    && current.Some? && anchor.Some?
    && var change := current.value - anchor.value;
       match op
       case AtLeastOp => change >= amount
       case AboveOp => change > amount
       case AtMostOp => change <= amount
       case BelowOp => change < amount
  }

  function MaskFor(content: Content, side: Side): seq<bool>
    requires content.PredicateChild?
  {
    if side == Long then content.long else content.short
  }

  predicate ChildTrue(frame: Frame, trade: Trade, m: Metrics, index: int, content: Content)
    requires trade.entryPrice > 0.0
  {
    match content
    case PredicateChild(_, _) =>
      var mask := MaskFor(content, trade.side);
      0 <= index < |mask| && mask[index]
    case AtomChild(atom) => AtomMet(frame, trade, m, index, atom)
    case ChangeChild(feature, op, amount) =>
      Changes(op, ValueAt(frame, Some(feature), index), ValueAt(frame, Some(feature), trade.entryIndex), amount)
  }

  /** The child of an id: the first one declared with it. */
  function Find(children: seq<Child>, id: string): Option<Content> {
    if |children| == 0 then None
    else if children[0].id == id then Some(children[0].content)
    else Find(children[1..], id)
  }

  predicate RefTrue(frame: Frame, trade: Trade, m: Metrics, index: int, children: seq<Child>, ref: string)
    requires trade.entryPrice > 0.0
  {
    var content := Find(children, ref);
    content.Some? && ChildTrue(frame, trade, m, index, content.value)
  }

  /** How many of the references are true. */
  function CountTrue(frame: Frame, trade: Trade, m: Metrics, index: int, children: seq<Child>, refs: seq<string>): nat
    requires trade.entryPrice > 0.0
  {
    if |refs| == 0 then 0 else
    CountTrue(frame, trade, m, index, children, refs[..|refs| - 1])
    + if RefTrue(frame, trade, m, index, children, refs[|refs| - 1]) then 1 else 0
  }

  /** A path is true when all its required children are and enough of its counted ones. */
  predicate PathTrue(frame: Frame, trade: Trade, m: Metrics, index: int, children: seq<Child>, path: Path)
    requires trade.entryPrice > 0.0
  {
    && (forall ref | ref in path.require :: RefTrue(frame, trade, m, index, children, ref))
    && (path.atLeast.Some? ==>
          CountTrue(frame, trade, m, index, children, path.atLeast.value.of) >= path.atLeast.value.k)
  }

  /** The first true path in declared order. */
  function FirstPath(frame: Frame, trade: Trade, m: Metrics, index: int, children: seq<Child>, paths: seq<Path>):
    Option<string>
    requires trade.entryPrice > 0.0
  {
    if |paths| == 0 then None
    else if PathTrue(frame, trade, m, index, children, paths[0]) then Some(paths[0].id)
    else FirstPath(frame, trade, m, index, children, paths[1..])
  }

  /** Whether a phase condition is met, and by which path if it has any. */
  datatype Met = Unmet | Plainly | ByPath(id: string)

  function ConditionMet(frame: Frame, trade: Trade, m: Metrics, index: int, condition: PhaseCondition): Met
    requires trade.entryPrice > 0.0
  {
    match condition
    case Atomic(atom) => if AtomMet(frame, trade, m, index, atom) then Plainly else Unmet
    case Composite(children, paths) =>
      var path := FirstPath(frame, trade, m, index, children, paths);
      if path.Some? then ByPath(path.value) else Unmet
  }

  // -- what the parsers guarantee ------------------------------------------------------

  ghost predicate DistinctIds(children: seq<Child>) {
    forall i, j | 0 <= i < j < |children| :: children[i].id != children[j].id
  }

  ghost predicate Refers(children: seq<Child>, ref: string) {
    exists i | 0 <= i < |children| :: children[i].id == ref
  }

  ghost predicate PathParsed(children: seq<Child>, path: Path) {
    && (forall ref | ref in path.require :: Refers(children, ref))
    && (path.atLeast.Some? ==> forall ref | ref in path.atLeast.value.of :: Refers(children, ref))
  }

  ghost predicate CompositeParsed(frame: Frame, children: seq<Child>, paths: seq<Path>) {
    && DistinctIds(children)
    && (forall i | 0 <= i < |paths| :: PathParsed(children, paths[i]))
    && (forall i | 0 <= i < |children| && children[i].content.PredicateChild? ::
          |children[i].content.long| == |frame.bars| == |children[i].content.short|)
  }

  ghost predicate ConditionParsed(frame: Frame, condition: PhaseCondition) {
    condition.Composite? ==> CompositeParsed(frame, condition.children, condition.paths)
  }

  ghost predicate PolicyParsed(frame: Frame, policy: Policy) {
    && (forall i | 0 <= i < |policy.phases| :: ConditionParsed(frame, policy.phases[i].condition))
    && (forall i | 0 <= i < |policy.runtimes| :: policy.runtimes[i].confirmBars >= 1)
  }
}
