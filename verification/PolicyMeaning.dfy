/** What the rules of a managed policy say on a bar, in prices and column values: conditions as inequalities
    cleared of their quotients, proposals by their distance from entry or from the best price. */
module PolicyMeaning {
  import opened NodeProgram
  import opened EpisodeTables
  import opened ManagedPolicy
  import opened CompositeFold
  import opened ManagedReplay

  // -- columns and distances -------------------------------------------------------------------

  /** The column has the value `x` on the bar. */
  ghost predicate Shows(frame: Frame, column: Column, index: int, x: real) {
    && column.Some? && column.value in frame.series
    && 0 <= index < |frame.series[column.value]| && frame.series[column.value][index] == Some(x)
  }

  lemma ShowsIs(frame: Frame, column: Column, index: int)
    ensures ValueAt(frame, column, index).Some? ==> Shows(frame, column, index, ValueAt(frame, column, index).value)
    ensures forall x | Shows(frame, column, index, x) :: ValueAt(frame, column, index) == Some(x)
  {
  }

  function Apart(a: real, b: real): real {
    if a >= b then a - b else b - a
  }

  /** The trade's initial risk: how far its initial stop is from entry; a trade has one only if it is not zero. */
  ghost predicate Risks(trade: Trade, risk: real) {
    trade.initialStop.Some? && risk == Apart(trade.entryPrice, trade.initialStop.value) && risk > 0.0
  }

  /** How far the price has come the trade's way. */
  function Gain(trade: Trade, price: real): real {
    if trade.side == Long then price - trade.entryPrice else trade.entryPrice - price
  }

  // -- conditions --------------------------------------------------------------------------------

  ghost predicate AtomHolds(frame: Frame, trade: Trade, bars: int, best: real, index: int, atom: Atom) {
    match atom
    case BarsInTrade(least) => bars >= least
    case MfePct(threshold) => Gain(trade, best) >= threshold * trade.entryPrice
    case MfeAtr(multiple, atr) =>
      exists x :: Shows(frame, atr, index, x) && x > 0.0 && Apart(best, trade.entryPrice) >= multiple * x
    case MfeR(risks) => exists risk :: Risks(trade, risk) && Apart(best, trade.entryPrice) >= risks * risk
    case AdxDi(adx, plus, minus, strength, aligned) =>
      exists x, p, m :: Shows(frame, adx, index, x) && Shows(frame, plus, index, p) && Shows(frame, minus, index, m)
        && x >= strength && (aligned ==> if trade.side == Long then p > m else p < m)
  }

  lemma Cleared(x: real, y: real, z: real)
    requires y > 0.0
    ensures x / y >= z <==> x >= z * y
  {
    var q := x / y;
    assert q * y == x;
    if q >= z {
      assert (q - z) * y >= 0.0;
    } else {
      assert (z - q) * y > 0.0;
    }
  }

  lemma AtomIs(frame: Frame, trade: Trade, m: Metrics, index: int, atom: Atom)
    requires trade.entryPrice > 0.0
    ensures AtomMet(frame, trade, m, index, atom) <==> AtomHolds(frame, trade, m.barsInTrade, m.best, index, atom)
  {
    hide Shows, ValueAt;
    match atom
    case BarsInTrade(_) =>
    case MfePct(threshold) => Cleared(Gain(trade, m.best), trade.entryPrice, threshold);
    case MfeAtr(_, atr) => ShowsIs(frame, atr, index);
    case MfeR(risks) => RiskIs(trade, m.best, risks);
    case AdxDi(adx, plus, minus, _, _) =>
      ShowsIs(frame, adx, index);
      ShowsIs(frame, plus, index);
      ShowsIs(frame, minus, index);
  }

  lemma RiskIs(trade: Trade, best: real, risks: real)
    ensures RiskOf(trade).Some? ==> RiskOf(trade).value > 0.0 ==> Risks(trade, RiskOf(trade).value)
    ensures forall risk | Risks(trade, risk) :: RiskOf(trade) == Some(risk)
    ensures var r := MfeROf(trade, best);
            (r.Some? && r.value >= risks <==> exists risk :: Risks(trade, risk) && Apart(best, trade.entryPrice) >= risks * risk)
  {
    var risk := RiskOf(trade);
    if risk.Some? && risk.value > 0.0 {
      Cleared(MfeDistance(trade, best), risk.value, risks);
      assert Risks(trade, risk.value);
    }
  }

  /** A child of a composite: its mask on the trade's side, its atom, or the change since the entry bar. */
  ghost predicate ChildHolds(frame: Frame, trade: Trade, bars: int, best: real, index: int, content: Content) {
    match content
    case PredicateChild(long, short) =>
      if trade.side == Long then 0 <= index < |long| && long[index] else 0 <= index < |short| && short[index]
    case AtomChild(atom) => AtomHolds(frame, trade, bars, best, index, atom)
    case ChangeChild(feature, op, amount) =>
      exists x, anchor :: Shows(frame, Some(feature), index, x) && Shows(frame, Some(feature), trade.entryIndex, anchor)
        && match op
           case AtLeastOp => x >= anchor + amount
           case AboveOp => x > anchor + amount
           case AtMostOp => x <= anchor + amount
           case BelowOp => x < anchor + amount
  }

  lemma ChildIs(frame: Frame, trade: Trade, m: Metrics, index: int, content: Content)
    requires trade.entryPrice > 0.0
    ensures ChildTrue(frame, trade, m, index, content)
       <==> ChildHolds(frame, trade, m.barsInTrade, m.best, index, content)
  {
    hide Shows, ValueAt, AtomMet, AtomHolds;
    match content
    case PredicateChild(_, _) =>
    case AtomChild(atom) => AtomIs(frame, trade, m, index, atom);
    case ChangeChild(feature, _, _) =>
      ShowsIs(frame, Some(feature), index);
      ShowsIs(frame, Some(feature), trade.entryIndex);
  }

  /** The first child declared with an id holds. */
  ghost predicate NamedHolds(frame: Frame, trade: Trade, bars: int, best: real, index: int, children: seq<Child>, id: string) {
    exists k :: 0 <= k < |children| && FirstNamed(children, id, k)
                && ChildHolds(frame, trade, bars, best, index, children[k].content)
  }

  ghost predicate FirstNamed(children: seq<Child>, id: string, k: nat) {
    k < |children| && children[k].id == id && forall j | 0 <= j < k :: children[j].id != id
  }

  lemma {:induction false} FindIsFirst(children: seq<Child>, id: string)
    ensures Find(children, id).Some? ==>
              exists k :: 0 <= k < |children| && FirstNamed(children, id, k) && Find(children, id).value == children[k].content
    ensures Find(children, id).None? ==> forall k | 0 <= k < |children| :: children[k].id != id
  {
    if |children| > 0 {
      if children[0].id == id {
        assert FirstNamed(children, id, 0);
      } else {
        FindIsFirst(children[1..], id);
        if Find(children, id).Some? {
          var k :| 0 <= k < |children[1..]| && FirstNamed(children[1..], id, k)
                   && Find(children, id).value == children[1..][k].content;
          assert forall j | 0 < j < k + 1 :: children[j] == children[1..][j - 1];
          assert FirstNamed(children, id, k + 1);
        } else {
          assert forall j | 0 < j < |children| :: children[j] == children[1..][j - 1];
        }
      }
    }
  }

  lemma NamedIs(frame: Frame, trade: Trade, m: Metrics, index: int, children: seq<Child>, id: string)
    requires trade.entryPrice > 0.0
    ensures RefTrue(frame, trade, m, index, children, id)
       <==> NamedHolds(frame, trade, m.barsInTrade, m.best, index, children, id)
  {
    hide ChildTrue, ChildHolds;
    FindIsFirst(children, id);
    if Find(children, id).Some? {
      ChildIs(frame, trade, m, index, Find(children, id).value);
    }
  }

  /** The counted references that hold, by their places. */
  ghost function Holding(
    frame: Frame, trade: Trade, bars: int, best: real, index: int, children: seq<Child>, refs: seq<string>): set<int>
  {
    set k | 0 <= k < |refs| && NamedHolds(frame, trade, bars, best, index, children, refs[k])
  }

  lemma {:induction false} CountIs(
    frame: Frame, trade: Trade, m: Metrics, index: int, children: seq<Child>, refs: seq<string>)
    requires trade.entryPrice > 0.0
    ensures CountTrue(frame, trade, m, index, children, refs)
         == |Holding(frame, trade, m.barsInTrade, m.best, index, children, refs)|
  {
    hide RefTrue, NamedHolds;
    if |refs| > 0 {
      var n := |refs| - 1;
      CountIs(frame, trade, m, index, children, refs[..n]);
      NamedIs(frame, trade, m, index, children, refs[n]);
      var all := Holding(frame, trade, m.barsInTrade, m.best, index, children, refs);
      var most := Holding(frame, trade, m.barsInTrade, m.best, index, children, refs[..n]);
      assert forall k | 0 <= k < n :: refs[..n][k] == refs[k];
      assert n !in most && all == if RefTrue(frame, trade, m, index, children, refs[n]) then most + {n} else most;
    }
  }

  ghost predicate PathHolds(frame: Frame, trade: Trade, bars: int, best: real, index: int, children: seq<Child>, path: Path) {
    && (forall ref | ref in path.require :: NamedHolds(frame, trade, bars, best, index, children, ref))
    && (path.atLeast.Some? ==>
          |Holding(frame, trade, bars, best, index, children, path.atLeast.value.of)| >= path.atLeast.value.k)
  }

  lemma PathIs(frame: Frame, trade: Trade, m: Metrics, index: int, children: seq<Child>, path: Path)
    requires trade.entryPrice > 0.0
    ensures PathTrue(frame, trade, m, index, children, path)
       <==> PathHolds(frame, trade, m.barsInTrade, m.best, index, children, path)
  {
    hide RefTrue, NamedHolds, CountTrue, Holding;
    forall ref | ref in path.require
      ensures RefTrue(frame, trade, m, index, children, ref)
         <==> NamedHolds(frame, trade, m.barsInTrade, m.best, index, children, ref)
    {
      NamedIs(frame, trade, m, index, children, ref);
    }
    if path.atLeast.Some? {
      CountIs(frame, trade, m, index, children, path.atLeast.value.of);
    }
  }

  /** A condition holds, by the first path that does if it has paths. */
  ghost predicate HoldsBy(frame: Frame, trade: Trade, bars: int, best: real, index: int, condition: PhaseCondition, met: Met) {
    match condition
    case Atomic(atom) => met.Plainly? && AtomHolds(frame, trade, bars, best, index, atom)
    case Composite(children, paths) =>
      met.ByPath? && exists k :: 0 <= k < |paths| && paths[k].id == met.id && FirstHolding(frame, trade, bars, best, index, children, paths, k)
  }

  ghost predicate FirstHolding(
    frame: Frame, trade: Trade, bars: int, best: real, index: int, children: seq<Child>, paths: seq<Path>, k: nat)
  {
    && k < |paths| && PathHolds(frame, trade, bars, best, index, children, paths[k])
    && forall j | 0 <= j < k :: !PathHolds(frame, trade, bars, best, index, children, paths[j])
  }

  lemma {:induction false} FirstPathIs(frame: Frame, trade: Trade, m: Metrics, index: int, children: seq<Child>, paths: seq<Path>)
    requires trade.entryPrice > 0.0
    ensures match FirstPath(frame, trade, m, index, children, paths)
            case Some(id) => exists k :: 0 <= k < |paths| && paths[k].id == id
                               && FirstHolding(frame, trade, m.barsInTrade, m.best, index, children, paths, k)
            case None => forall k | 0 <= k < |paths| :: !PathHolds(frame, trade, m.barsInTrade, m.best, index, children, paths[k])
  {
    hide PathTrue, PathHolds;
    if |paths| > 0 {
      PathIs(frame, trade, m, index, children, paths[0]);
      FirstPathIs(frame, trade, m, index, children, paths[1..]);
      assert forall j | 0 < j < |paths| :: paths[j] == paths[1..][j - 1];
      if PathHolds(frame, trade, m.barsInTrade, m.best, index, children, paths[0]) {
        assert FirstHolding(frame, trade, m.barsInTrade, m.best, index, children, paths, 0);
      } else if FirstPath(frame, trade, m, index, children, paths[1..]).Some? {
        var k :| 0 <= k < |paths[1..]| && paths[1..][k].id == FirstPath(frame, trade, m, index, children, paths[1..]).value
                 && FirstHolding(frame, trade, m.barsInTrade, m.best, index, children, paths[1..], k);
        assert FirstHolding(frame, trade, m.barsInTrade, m.best, index, children, paths, k + 1);
      }
    }
  }

  /** The first path that holds is found, and no other. */
  lemma ConditionIs(frame: Frame, trade: Trade, m: Metrics, index: int, condition: PhaseCondition)
    requires trade.entryPrice > 0.0
    ensures var met := ConditionMet(frame, trade, m, index, condition);
            if met.Unmet? then forall other :: !HoldsBy(frame, trade, m.barsInTrade, m.best, index, condition, other)
            else HoldsBy(frame, trade, m.barsInTrade, m.best, index, condition, met)
  {
    hide AtomMet, AtomHolds, FirstPath, PathHolds;
    match condition
    case Atomic(atom) => AtomIs(frame, trade, m, index, atom);
    case Composite(children, paths) => FirstPathIs(frame, trade, m, index, children, paths);
  }

  // -- stop proposals ------------------------------------------------------------------------------

  /** The price a stop rule proposes once `best` is the best price: so far from entry, or, for a trailing
      stop, so far behind the best price. */
  ghost predicate Offers(frame: Frame, trade: Trade, best: real, index: int, action: StopAction, price: real) {
    match action
    case BreakEven(buffer) => Gain(trade, price) == buffer
    case BreakEvenAtr(multiple, atr) => exists x :: Shows(frame, atr, index, x) && Gain(trade, price) == multiple * x
    case LockProfit(multiple, atr) => exists x :: Shows(frame, atr, index, x) && Gain(trade, price) == multiple * x
    case InitialRLock(trigger, risks) =>
      exists risk :: Risks(trade, risk) && Apart(best, trade.entryPrice) >= trigger * risk
                     && Gain(trade, price) == risks * risk
    case InitialRTrailing(trigger, risks) =>
      exists risk :: Risks(trade, risk) && Apart(best, trade.entryPrice) >= trigger * risk
                     && (if trade.side == Long then best - price else price - best) == risks * risk
  }

  lemma OffersIs(frame: Frame, trade: Trade, best: real, index: nat, action: StopAction)
    ensures var price := Candidate(frame, trade, best, index, action);
            if price.Some? then forall other :: Offers(frame, trade, best, index, action, other) <==> other == price.value
            else forall other :: !Offers(frame, trade, best, index, action, other)
  {
    hide Shows, ValueAt, MfeROf, RiskOf, Risks;
    match action
    case BreakEven(_) =>
    case BreakEvenAtr(_, atr) => ShowsIs(frame, atr, index);
    case LockProfit(_, atr) => ShowsIs(frame, atr, index);
    case InitialRLock(trigger, risks) => RiskOffers(frame, trade, best, index, trigger, risks, false);
    case InitialRTrailing(trigger, risks) => RiskOffers(frame, trade, best, index, trigger, risks, true);
  }

  lemma RiskOffers(frame: Frame, trade: Trade, best: real, index: nat, trigger: real, risks: real, trailing: bool)
    ensures var price := InitialRCandidate(trade, best, trigger, risks, trailing);
            var action := if trailing then InitialRTrailing(trigger, risks) else InitialRLock(trigger, risks);
            if price.Some? then forall other :: Offers(frame, trade, best, index, action, other) <==> other == price.value
            else forall other :: !Offers(frame, trade, best, index, action, other)
  {
    hide MfeROf, RiskOf, Risks, Apart;
    RiskIs(trade, best, trigger);
    RiskAvailable(trade, best);
    var price := InitialRCandidate(trade, best, trigger, risks, trailing);
    if price.Some? {
      var risk := RiskOf(trade).value;
      assert Risks(trade, risk) && Apart(best, trade.entryPrice) >= trigger * risk;
    }
  }

  lemma RiskAvailable(trade: Trade, best: real)
    ensures MfeROf(trade, best).Some? ==> RiskOf(trade).Some? && Risks(trade, RiskOf(trade).value)
  {
  }

  /** A trailing stop that gives something back is never offered beyond the best price, and a locked profit is
      on the winning side of entry. */
  lemma OffersStayBehind(frame: Frame, trade: Trade, best: real, index: nat, trigger: real, risks: real, price: real)
    requires risks >= 0.0
    ensures Offers(frame, trade, best, index, InitialRTrailing(trigger, risks), price) ==>
              if trade.side == Long then price <= best else price >= best
    ensures Offers(frame, trade, best, index, InitialRLock(trigger, risks), price) ==> Gain(trade, price) >= 0.0
  {
  }

  // -- runtime exits -------------------------------------------------------------------------------

  /** The exit's own condition on one bar. */
  ghost predicate Signals(frame: Frame, side: Side, action: RuntimeAction, i: int) {
    match action
    case PhaseExit(exitPrice) => exitPrice == "close"
    case RsiExit(rsi, longAbove, shortBelow) =>
      if side == Long then longAbove.Some? && exists x :: Shows(frame, rsi, i, x) && x >= longAbove.value
      else shortBelow.Some? && exists x :: Shows(frame, rsi, i, x) && x <= shortBelow.value
    case EmaCross(fast, slow) =>
      exists x, y :: Shows(frame, fast, i, x) && Shows(frame, slow, i, y) && if side == Long then x <= y else x >= y
  }

  /** A closing phase exit fires at once; the others once their condition has held on `confirmBars` bars in a
      row, none before evaluation started. */
  ghost predicate Fires(frame: Frame, side: Side, start: nat, index: nat, rule: RuntimeRule) {
    if rule.action.PhaseExit? then Signals(frame, side, rule.action, index)
    else
      index + 1 - rule.confirmBars >= start
      && forall i | index + 1 - rule.confirmBars <= i <= index :: Signals(frame, side, rule.action, i)
  }

  lemma FiresIs(frame: Frame, side: Side, start: nat, index: nat, rule: RuntimeRule)
    requires rule.confirmBars >= 1
    ensures ManagedReplay.Signals(frame, side, start, index, rule) <==> Fires(frame, side, start, index, rule)
  {
    hide Shows, ValueAt;
    forall i | index + 1 - rule.confirmBars <= i <= index
      ensures rule.action.RsiExit? ==>
                (Signals(frame, side, rule.action, i) <==>
                   RsiBoundary(side, rule.action).Some?
                   && RsiSignal(side, RsiBoundary(side, rule.action).value, ValueAt(frame, rule.action.rsi, i)))
      ensures rule.action.EmaCross? ==>
                (Signals(frame, side, rule.action, i) <==>
                   CrossSignal(side, ValueAt(frame, rule.action.fast, i), ValueAt(frame, rule.action.slow, i)))
    {
      SignalIs(frame, side, rule.action, i);
    }
    if rule.action.RsiExit? && Fires(frame, side, start, index, rule) {
      assert Signals(frame, side, rule.action, index);
    }
  }

  lemma SignalIs(frame: Frame, side: Side, action: RuntimeAction, i: int)
    ensures action.RsiExit? ==>
              (Signals(frame, side, action, i) <==>
                 RsiBoundary(side, action).Some?
                 && RsiSignal(side, RsiBoundary(side, action).value, ValueAt(frame, action.rsi, i)))
    ensures action.EmaCross? ==>
              (Signals(frame, side, action, i) <==>
                 CrossSignal(side, ValueAt(frame, action.fast, i), ValueAt(frame, action.slow, i)))
  {
    hide Shows, ValueAt;
    if action.RsiExit? {
      ShowsIs(frame, action.rsi, i);
    } else if action.EmaCross? {
      ShowsIs(frame, action.fast, i);
      ShowsIs(frame, action.slow, i);
    }
  }
}
