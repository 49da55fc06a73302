/** The replay of one trade's managed policy, bar by bar: phases, the stop ratchet, the take profile and
    the runtime exits. The functions say what each stage does to the state; the class carries the state
    in mutable fields and every stage is proved to take exactly that step. */
module ManagedReplay {
  import opened NodeProgram
  import opened EpisodeTables
  import opened ManagedPolicy
  import opened CompositeFold

  // -- state, events, decisions ------------------------------------------------------

  datatype State = State(
    bars: int, phase: Phase, maxPhase: Phase, best: real, worst: real,
    stop: Option<real>, stopRule: Option<string>,
    profile: string, takeRule: Option<string>, exits: seq<string>)

  datatype Event =
    | PhaseChanged(bar: int, ruleId: string, from: Phase, to: Phase, met: Met)
    | StopUpdated(bar: int, ruleId: string, price: real)
    | TakeUpdated(bar: int, ruleId: string, profile: string)
    | ExitTriggered(bar: int, ruleId: string)

  /** What is decided at the end of a bar. */
  datatype Decision = Decision(
    bar: int, phase: Phase, bars: int, best: real, worst: real, stop: Option<real>, profile: string, exits: seq<string>)

  datatype Run = Run(state: State, events: seq<Event>, decisions: seq<Decision>)

  /** Whether evaluation starts on the entry bar or on the one after it. */
  type Offset = o: nat | o <= 1

  function Initial(trade: Trade, offset: Offset): State {
    State(offset, InitialRisk, InitialRisk, trade.entryPrice, trade.entryPrice,
          trade.initialStop, None, "initial", None, [])
  }

  predicate AtLeastPhase(phase: Phase, threshold: Phase) {
    Rank(phase) >= Rank(threshold)
  }

  function Higher(a: real, b: real): real {
    if a < b then b else a
  }

  function Lower(a: real, b: real): real {
    if b < a then b else a
  }

  // -- extremes ----------------------------------------------------------------------

  function Extremes(frame: Frame, trade: Trade, s: State, index: nat): State
    requires index < |frame.bars|
  {
    var bar := frame.bars[index];
    if trade.side == Long then
      s.(bars := index - trade.entryIndex + 1, best := Higher(s.best, bar.high), worst := Lower(s.worst, bar.low))
    else
      s.(bars := index - trade.entryIndex + 1, best := Lower(s.best, bar.low), worst := Higher(s.worst, bar.high))
  }

  function MetricsOf(s: State): Metrics {
    Metrics(s.bars, s.best)
  }

  // -- phases ------------------------------------------------------------------------

  datatype Phasing = Phasing(phase: Phase, maxPhase: Phase, events: seq<Event>)

  /** One phase rule: it can only advance, and only when its condition is met. */
  function Advance(frame: Frame, trade: Trade, m: Metrics, index: nat, rule: PhaseRule, p: Phasing): Phasing
    requires trade.entryPrice > 0.0
  {
    if Rank(rule.toPhase) <= Rank(p.phase) then p else
    var met := ConditionMet(frame, trade, m, index, rule.condition);
    if met.Unmet? then p else
    Phasing(rule.toPhase,
      if Rank(rule.toPhase) > Rank(p.maxPhase) then rule.toPhase else p.maxPhase,
      p.events + [PhaseChanged(index, rule.id, p.phase, rule.toPhase, met)])
  }

  function Phased(frame: Frame, trade: Trade, m: Metrics, index: nat, rules: seq<PhaseRule>, p: Phasing): Phasing
    requires trade.entryPrice > 0.0
  {
    if |rules| == 0 then p else
    Advance(frame, trade, m, index, rules[|rules| - 1], Phased(frame, trade, m, index, rules[..|rules| - 1], p))
  }

  // -- stops -------------------------------------------------------------------------

  /** Away from the entry price in the trade's favour. */
  function InFavour(side: Side, price: real, offset: real): real {
    if side == Long then price + offset else price - offset
  }

  function InitialRCandidate(trade: Trade, best: real, trigger: real, risks: real, trailing: bool): Option<real> {
    var r := MfeROf(trade, best);
    if r.None? || r.value < trigger then None else
    var offset := risks * RiskOf(trade).value;
    Some(if trailing then InFavour(trade.side, best, -offset) else InFavour(trade.side, trade.entryPrice, offset))
  }

  /** The stop a rule proposes on this bar, if it is ready. */
  function Candidate(frame: Frame, trade: Trade, best: real, index: nat, action: StopAction): Option<real> {
    match action
    case BreakEven(buffer) => Some(InFavour(trade.side, trade.entryPrice, buffer))
    case BreakEvenAtr(multiple, atr) => AtrCandidate(trade, multiple, ValueAt(frame, atr, index))
    case LockProfit(multiple, atr) => AtrCandidate(trade, multiple, ValueAt(frame, atr, index))
    case InitialRLock(trigger, risks) => InitialRCandidate(trade, best, trigger, risks, false)
    case InitialRTrailing(trigger, risks) => InitialRCandidate(trade, best, trigger, risks, true)
  }

  function AtrCandidate(trade: Trade, multiple: real, atr: Option<real>): Option<real> {
    if atr.None? then None else Some(InFavour(trade.side, trade.entryPrice, Times(multiple, atr.value)))
  }

  datatype Proposal = Proposal(price: real, ruleId: string)

  /** The proposals of the active rules that are ready, in declared order. */
  function Proposals(frame: Frame, trade: Trade, best: real, index: nat, phase: Phase, rules: seq<StopRule>):
    seq<Proposal>
  {
    if |rules| == 0 then [] else
    var rule := rules[|rules| - 1];
    var earlier := Proposals(frame, trade, best, index, phase, rules[..|rules| - 1]);
    if !AtLeastPhase(phase, rule.activation) then earlier else
    var price := Candidate(frame, trade, best, index, rule.action);
    if price.None? then earlier else earlier + [Proposal(price.value, rule.id)]
  }

  predicate Tighter(side: Side, a: real, b: real) {
    if side == Long then a > b else a < b
  }

  /** The tightest proposal, the first one among equals. */
  function Tightest(side: Side, ps: seq<Proposal>): Proposal
    requires |ps| > 0
  {
    if |ps| == 1 then ps[0] else
    var earlier := Tightest(side, ps[..|ps| - 1]);
    var last := ps[|ps| - 1];
    if Tighter(side, last.price, earlier.price) then last else earlier
  }

  const EPSILON := 0.00000001

  datatype Stopping = Stopping(stop: Option<real>, stopRule: Option<string>, events: seq<Event>)

  /** The ratchet: the stop moves to the tighter of itself and the proposal, if that is a move. */
  function Ratchet(side: Side, index: nat, p: Proposal, s: Stopping): Stopping {
    var tightened :=
      if s.stop.None? then p.price
      else if side == Long then Higher(s.stop.value, p.price) else Lower(s.stop.value, p.price);
    if s.stop.None? || Abs(tightened - s.stop.value) > EPSILON
    then Stopping(Some(tightened), Some(p.ruleId), s.events + [StopUpdated(index, p.ruleId, tightened)])
    else s
  }

  function Stopped(
    frame: Frame, trade: Trade, best: real, index: nat, phase: Phase, rules: seq<StopRule>, s: Stopping): Stopping
  {
    var ps := Proposals(frame, trade, best, index, phase, rules);
    if |ps| == 0 then s else Ratchet(trade.side, index, Tightest(trade.side, ps), s)
  }

  // -- take profile ------------------------------------------------------------------

  function ProfileOf(action: string): string {
    if action == "disable_fixed_tp" then "disable_initial_tp"
    else if action == "keep_initial" then "initial"
    else action
  }

  datatype Taking = Taking(profile: string, takeRule: Option<string>, events: seq<Event>)

  function Take(index: nat, phase: Phase, rule: TakeRule, t: Taking): Taking {
    if !AtLeastPhase(phase, rule.activation) || ProfileOf(rule.action) == t.profile then t else
    Taking(ProfileOf(rule.action), Some(rule.id), t.events + [TakeUpdated(index, rule.id, ProfileOf(rule.action))])
  }

  function Taken(index: nat, phase: Phase, rules: seq<TakeRule>, t: Taking): Taking {
    if |rules| == 0 then t else Take(index, phase, rules[|rules| - 1], Taken(index, phase, rules[..|rules| - 1], t))
  }

  // -- runtime exits -----------------------------------------------------------------

  predicate RsiSignal(side: Side, boundary: real, value: Option<real>) {
    value.Some? && if side == Long then value.value >= boundary else value.value <= boundary
  }

  predicate CrossSignal(side: Side, fast: Option<real>, slow: Option<real>) {
    fast.Some? && slow.Some? && if side == Long then fast.value <= slow.value else fast.value >= slow.value
  }

  function RsiBoundary(side: Side, action: RuntimeAction): Option<real>
    requires action.RsiExit?
  {
    if side == Long then action.longAbove else action.shortBelow
  }

  /** The exit signal on bar `index`, confirmed over the rule's last bars since evaluation started. A
      phase exit needs no confirmation. */
  predicate Signals(frame: Frame, side: Side, start: nat, index: nat, rule: RuntimeRule) {
    var first := index - rule.confirmBars + 1;
    match rule.action
    case PhaseExit(exitPrice) => exitPrice == "close"
    case RsiExit(rsi, _, _) =>
      && first >= start && RsiBoundary(side, rule.action).Some?
      && forall i | first <= i <= index :: RsiSignal(side, RsiBoundary(side, rule.action).value, ValueAt(frame, rsi, i))
    case EmaCross(fast, slow) =>
      && first >= start
      && forall i | first <= i <= index :: CrossSignal(side, ValueAt(frame, fast, i), ValueAt(frame, slow, i))
  }

  /** The ids of the active rules that signal, in declared order. */
  function Armed(frame: Frame, side: Side, start: nat, index: nat, phase: Phase, rules: seq<RuntimeRule>): seq<string> {
    if |rules| == 0 then [] else
    var rule := rules[|rules| - 1];
    var earlier := Armed(frame, side, start, index, phase, rules[..|rules| - 1]);
    if AtLeastPhase(phase, rule.activation) && Signals(frame, side, start, index, rule)
    then earlier + [rule.id]
    else earlier
  }

  function Triggered(index: int, ids: seq<string>): seq<Event> {
    seq(|ids|, k requires 0 <= k < |ids| => ExitTriggered(index, ids[k]))
  }

  // -- one bar, and the whole run ------------------------------------------------------

  datatype Stepped = Stepped(state: State, events: seq<Event>)

  function Step(frame: Frame, policy: Policy, trade: Trade, start: nat, s: State, index: nat): Stepped
    requires trade.entryPrice > 0.0 && index < |frame.bars|
  {
    var moved := Extremes(frame, trade, s, index);
    var p := Phased(frame, trade, MetricsOf(moved), index, policy.phases, Phasing(s.phase, s.maxPhase, []));
    var stops := Stopped(frame, trade, moved.best, index, p.phase, policy.stops, Stopping(s.stop, s.stopRule, []));
    var takes := Taken(index, p.phase, policy.takes, Taking(s.profile, s.takeRule, []));
    var exits := Armed(frame, trade.side, start, index, p.phase, policy.runtimes);
    Stepped(
      State(moved.bars, p.phase, p.maxPhase, moved.best, moved.worst, stops.stop, stops.stopRule,
            takes.profile, takes.takeRule, exits),
      p.events + stops.events + takes.events + Triggered(index, exits))
  }

  function Decide(s: State, index: nat): Decision {
    Decision(index, s.phase, s.bars, s.best, s.worst, s.stop, s.profile, s.exits)
  }

  function OneMoreBar(frame: Frame, policy: Policy, trade: Trade, start: nat, run: Run, index: nat): Run
    requires trade.entryPrice > 0.0 && index < |frame.bars|
  {
    var stepped := Step(frame, policy, trade, start, run.state, index);
    Run(stepped.state, run.events + stepped.events, run.decisions + [Decide(stepped.state, index)])
  }

  /** The run over the first `n` evaluated bars. */
  function Replay(frame: Frame, policy: Policy, trade: Trade, offset: Offset, n: nat): Run
    requires trade.entryPrice > 0.0 && trade.entryIndex + offset + n <= |frame.bars|
  {
    if n == 0 then Run(Initial(trade, offset), [], []) else
    var start := trade.entryIndex + offset;
    OneMoreBar(frame, policy, trade, start, Replay(frame, policy, trade, offset, n - 1), start + n - 1)
  }

  // -- the replay as it runs -------------------------------------------------------------

  class ManagedTradeState {
    const side: Side
    const entryIndex: nat
    const entryPrice: real
    const initialStop: Option<real>
    var bars: int
    var phase: Phase
    var maxPhase: Phase
    var best: real
    var worst: real
    var stop: Option<real>
    var stopRule: Option<string>
    var profile: string
    var takeRule: Option<string>
    var exits: seq<string>
    var events: seq<Event>
    var decisions: seq<Decision>

    constructor (trade: Trade, offset: Offset)
      ensures TradeOf() == trade && Value() == Initial(trade, offset) && events == [] && decisions == []
    {
      side, entryIndex, entryPrice, initialStop := trade.side, trade.entryIndex, trade.entryPrice, trade.initialStop;
      bars, phase, maxPhase := offset, InitialRisk, InitialRisk;
      best, worst := trade.entryPrice, trade.entryPrice;
      stop, stopRule := trade.initialStop, None;
      profile, takeRule, exits := "initial", None, [];
      events, decisions := [], [];
    }

    function TradeOf(): Trade {
      Trade(side, entryIndex, entryPrice, initialStop)
    }

    function Value(): State
      reads this
    {
      State(bars, phase, maxPhase, best, worst, stop, stopRule, profile, takeRule, exits)
    }

    function Sofar(): Run
      reads this
    {
      Run(Value(), events, decisions)
    }

    method UpdateExtremes(frame: Frame, index: nat)
      requires index < |frame.bars|
      modifies `bars, `best, `worst
      ensures Value() == Extremes(frame, TradeOf(), old(Value()), index)
    {
      bars := index - entryIndex + 1;
      if side == Long {
        best := Higher(best, frame.bars[index].high);
        worst := Lower(worst, frame.bars[index].low);
      } else {
        best := Lower(best, frame.bars[index].low);
        worst := Higher(worst, frame.bars[index].high);
      }
    }

    /** Whether a condition is met on the bar: composites are read from their fold. */
    method ConditionValue(frame: Frame, index: nat, condition: PhaseCondition, fold: Option<Folded>) returns (met: Met)
      requires entryPrice > 0.0 && index < |frame.bars|
      requires FoldOf(frame, side, condition, fold)
      ensures met == ConditionMet(frame, TradeOf(), MetricsOf(Value()), index, condition)
    {
      match condition
      case Atomic(atom) =>
        met := if AtomMet(frame, TradeOf(), MetricsOf(Value()), index, atom) then Plainly else Unmet;
      case Composite(children, paths) =>
        var path := CompositeMet(frame, TradeOf(), MetricsOf(Value()), index, fold.value, children, paths);
        met := if path.Some? then ByPath(path.value) else Unmet;
    }

    method RunPhases(frame: Frame, index: nat, rules: seq<PhaseRule>, folds: seq<Option<Folded>>)
      requires entryPrice > 0.0 && index < |frame.bars| && Folds(frame, side, rules, folds)
      modifies `phase, `maxPhase, `events
      ensures var p := Phased(frame, TradeOf(), MetricsOf(old(Value())), index, rules,
                              Phasing(old(phase), old(maxPhase), []));
              phase == p.phase && maxPhase == p.maxPhase && events == old(events) + p.events
    {
      ghost var m, p0 := MetricsOf(Value()), Phasing(phase, maxPhase, []);
      var k := 0;
      while k < |rules|
        invariant 0 <= k <= |rules|
        invariant var p := Phased(frame, TradeOf(), m, index, rules[..k], p0);
                  phase == p.phase && maxPhase == p.maxPhase && events == old(events) + p.events
      {
        var rule := rules[k];
        assert rules[..k + 1][..k] == rules[..k];
        if Rank(rule.toPhase) > Rank(phase) {
          var met := ConditionValue(frame, index, rule.condition, folds[k]);
          if !met.Unmet? {
            events := events + [PhaseChanged(index, rule.id, phase, rule.toPhase, met)];
            phase := rule.toPhase;
            if Rank(rule.toPhase) > Rank(maxPhase) {
              maxPhase := rule.toPhase;
            }
          }
        }
        k := k + 1;
      }
      assert rules[..k] == rules;
    }

    method RunStops(frame: Frame, index: nat, rules: seq<StopRule>)
      modifies `stop, `stopRule, `events
      ensures var s := Stopped(frame, TradeOf(), best, index, phase, rules, Stopping(old(stop), old(stopRule), []));
              stop == s.stop && stopRule == s.stopRule && events == old(events) + s.events
    {
      var proposals: seq<Proposal> := [];
      var k := 0;
      while k < |rules|
        invariant 0 <= k <= |rules|
        invariant proposals == Proposals(frame, TradeOf(), best, index, phase, rules[..k])
      {
        assert rules[..k + 1][..k] == rules[..k];
        if AtLeastPhase(phase, rules[k].activation) {
          var price := Candidate(frame, TradeOf(), best, index, rules[k].action);
          if price.Some? {
            proposals := proposals + [Proposal(price.value, rules[k].id)];
          }
        }
        k := k + 1;
      }
      assert rules[..k] == rules;
      if |proposals| > 0 {
        var chosen := Choose(side, proposals);
        var tightened :=
          if stop.None? then chosen.price
          else if side == Long then Higher(stop.value, chosen.price) else Lower(stop.value, chosen.price);
        if stop.None? || Abs(tightened - stop.value) > EPSILON {
          stop, stopRule := Some(tightened), Some(chosen.ruleId);
          events := events + [StopUpdated(index, chosen.ruleId, tightened)];
        }
      }
    }

    method RunTakes(index: nat, rules: seq<TakeRule>)
      modifies `profile, `takeRule, `events
      ensures var t := Taken(index, phase, rules, Taking(old(profile), old(takeRule), []));
              profile == t.profile && takeRule == t.takeRule && events == old(events) + t.events
    {
      ghost var t0 := Taking(profile, takeRule, []);
      var k := 0;
      while k < |rules|
        invariant 0 <= k <= |rules|
        invariant var t := Taken(index, phase, rules[..k], t0);
                  profile == t.profile && takeRule == t.takeRule && events == old(events) + t.events
      {
        assert rules[..k + 1][..k] == rules[..k];
        if AtLeastPhase(phase, rules[k].activation) {
          var next := ProfileOf(rules[k].action);
          if next != profile {
            profile, takeRule := next, Some(rules[k].id);
            events := events + [TakeUpdated(index, rules[k].id, next)];
          }
        }
        k := k + 1;
      }
      assert rules[..k] == rules;
    }

    method RunExits(frame: Frame, start: nat, index: nat, rules: seq<RuntimeRule>)
      requires start <= index < |frame.bars| && Aligned(frame)
      modifies `exits, `events
      ensures exits == Armed(frame, side, start, index, phase, rules)
      ensures events == old(events) + Triggered(index, exits)
    {
      var armed: seq<string> := [];
      var k := 0;
      while k < |rules|
        invariant 0 <= k <= |rules|
        invariant armed == Armed(frame, side, start, index, phase, rules[..k])
        invariant events == old(events) + Triggered(index, armed)
      {
        assert rules[..k + 1][..k] == rules[..k];
        if AtLeastPhase(phase, rules[k].activation) {
          var signals := RuntimeSignal(frame, side, start, index, rules[k]);
          if signals {
            armed := armed + [rules[k].id];
            events := events + [ExitTriggered(index, rules[k].id)];
          }
        }
        k := k + 1;
      }
      assert rules[..k] == rules;
      exits := armed;
    }

    /** One evaluated bar. */
    method EvaluateBar(frame: Frame, policy: Policy, folds: seq<Option<Folded>>, start: nat, index: nat)
      requires entryPrice > 0.0 && start <= index < |frame.bars| && Aligned(frame)
      requires Folds(frame, side, policy.phases, folds)
      modifies this
      ensures Sofar() == OneMoreBar(frame, policy, TradeOf(), start, old(Sofar()), index)
    {
      hide Phased, Extremes, Stopped, Taken, Armed, Triggered, Folds;
      UpdateExtremes(frame, index);
      RunPhases(frame, index, policy.phases, folds);
      RunStops(frame, index, policy.stops);
      RunTakes(index, policy.takes);
      RunExits(frame, start, index, policy.runtimes);
      decisions := decisions + [Decide(Value(), index)];
    }
  }

  /** The fold of a composite condition; none for an atomic one. */
  ghost predicate FoldOf(frame: Frame, side: Side, condition: PhaseCondition, fold: Option<Folded>) {
    condition.Composite? ==> fold.Some? && FoldRight(frame, side, condition.children, condition.paths, fold.value)
  }

  ghost predicate Folds(frame: Frame, side: Side, rules: seq<PhaseRule>, folds: seq<Option<Folded>>) {
    |folds| == |rules| && forall k | 0 <= k < |rules| :: FoldOf(frame, side, rules[k].condition, folds[k])
  }

  method FoldRules(frame: Frame, side: Side, rules: seq<PhaseRule>) returns (folds: seq<Option<Folded>>)
    requires Aligned(frame) && forall k | 0 <= k < |rules| :: ConditionParsed(frame, rules[k].condition)
    ensures Folds(frame, side, rules, folds)
  {
    folds := [];
    var k := 0;
    while k < |rules|
      invariant 0 <= k <= |rules| && |folds| == k
      invariant forall j | 0 <= j < k :: FoldOf(frame, side, rules[j].condition, folds[j])
    {
      match rules[k].condition {
        case Atomic(_) => folds := folds + [None];
        case Composite(children, paths) =>
          var fold := FoldPhasePaths(frame, children, paths, side);
          folds := folds + [Some(fold)];
      }
      k := k + 1;
    }
  }

  method Choose(side: Side, proposals: seq<Proposal>) returns (chosen: Proposal)
    requires |proposals| > 0
    ensures chosen == Tightest(side, proposals)
  {
    chosen := proposals[0];
    var k := 1;
    while k < |proposals|
      invariant 1 <= k <= |proposals| && chosen == Tightest(side, proposals[..k])
    {
      assert proposals[..k + 1][..k] == proposals[..k];
      if Tighter(side, proposals[k].price, chosen.price) {
        chosen := proposals[k];
      }
      k := k + 1;
    }
    assert proposals[..k] == proposals;
  }

  method RuntimeSignal(frame: Frame, side: Side, start: nat, index: nat, rule: RuntimeRule) returns (signals: bool)
    requires index < |frame.bars| && Aligned(frame)
    ensures signals == Signals(frame, side, start, index, rule)
  {
    if rule.action.PhaseExit? {
      return rule.action.exitPrice == "close";
    }
    var first := index - rule.confirmBars + 1;
    if first < start || (rule.action.RsiExit? && RsiBoundary(side, rule.action).None?) {
      return false;
    }
    var i := first;
    while i <= index
      invariant first <= i
      invariant forall j | first <= j < i && j <= index ::
                  if rule.action.RsiExit?
                  then RsiSignal(side, RsiBoundary(side, rule.action).value, ValueAt(frame, rule.action.rsi, j))
                  else CrossSignal(side, ValueAt(frame, rule.action.fast, j), ValueAt(frame, rule.action.slow, j))
    {
      var signal :=
        if rule.action.RsiExit?
        then RsiSignal(side, RsiBoundary(side, rule.action).value, ValueAt(frame, rule.action.rsi, i))
        else CrossSignal(side, ValueAt(frame, rule.action.fast, i), ValueAt(frame, rule.action.slow, i));
      if !signal {
        return false;
      }
      i := i + 1;
    }
    signals := true;
  }

  /** The replay of one trade up to the bar `target`: refused for a non-positive entry price and for a
      target before the entry or past the frame. */
  method ReplayTrade(frame: Frame, policy: Policy, trade: Trade, offset: Offset, target: int) returns (r: Option<Run>)
    requires Aligned(frame) && PolicyParsed(frame, policy)
    ensures r.Some? <==> trade.entryPrice > 0.0 && trade.entryIndex <= target < |frame.bars|
    ensures r.Some? ==> r.value == Replay(frame, policy, trade, offset, target + 1 - trade.entryIndex - offset)
  {
    if trade.entryPrice <= 0.0 || target < trade.entryIndex || target >= |frame.bars| {
      return None;
    }
    var state := new ManagedTradeState(trade, offset);
    var folds := FoldRules(frame, trade.side, policy.phases);
    EvaluateBars(state, frame, policy, folds, trade, offset, target);
    r := Some(state.Sofar());
  }

  method EvaluateBars(
    state: ManagedTradeState, frame: Frame, policy: Policy, folds: seq<Option<Folded>>, ghost trade: Trade,
    offset: Offset, target: nat)
    requires Aligned(frame) && Folds(frame, trade.side, policy.phases, folds)
    requires trade.entryPrice > 0.0 && trade.entryIndex <= target < |frame.bars|
    requires state.TradeOf() == trade && state.Sofar() == Replay(frame, policy, trade, offset, 0)
    modifies state
    ensures state.Sofar() == Replay(frame, policy, trade, offset, target + 1 - trade.entryIndex - offset)
  {
    hide OneMoreBar, Folds;
    var start := state.entryIndex + offset;
    var index := start;
    while index <= target
      invariant start <= index <= target + 1
      invariant state.Sofar() == Replay(frame, policy, trade, offset, index - start)
    {
      state.EvaluateBar(frame, policy, folds, start, index);
      index := index + 1;
      ReplayUnfolds(frame, policy, trade, offset, index - start);
    }
  }

  lemma ReplayUnfolds(frame: Frame, policy: Policy, trade: Trade, offset: Offset, n: nat)
    requires trade.entryPrice > 0.0 && trade.entryIndex + offset + n <= |frame.bars| && n > 0
    ensures var start := trade.entryIndex + offset;
            Replay(frame, policy, trade, offset, n)
            == OneMoreBar(frame, policy, trade, start, Replay(frame, policy, trade, offset, n - 1), start + n - 1)
  {
  }
}
