/** Live history is sufficient: a predicate without episodes reads only as many bars before the target as its
    history requirement names, so a frame cut there gives the same answer at the target. */
module LiveHistory {
  import opened NodeProgram
  import opened NodeIdentity
  import opened EpisodeTables
  import opened Operands
  import opened OperandEvaluation
  import opened Predicates

  // -- fixed intervals ---------------------------------------------------------------------

  datatype Operation = Operation(relative: bool, perBar: bool)

  function OperationOf(name: string): Operation {
    Operation(name == "relative_change" || name == "relative_change_per_bar",
              name == "change_per_bar" || name == "relative_change_per_bar")
  }

  function Measured(operation: Operation, u: Option<real>, v: Option<real>, bars: nat): Option<real>
    requires bars > 0
  {
    if u.None? || v.None? then None else
    var change := v.value - u.value;
    if operation.relative && u.value == 0.0 then None else
    var scaled := if operation.relative then change / u.value else change;
    Some(if operation.perBar then scaled / bars as real else scaled)
  }

  /** The change over the last `bars` bars; missing where they do not all exist. */
  function FixedChange(bars: int, name: string, xs: Series): Series {
    seq(|xs|, t requires 0 <= t < |xs| =>
      if bars > 0 && t >= bars then Measured(OperationOf(name), xs[t - bars], xs[t], bars) else None)
  }

  /** What a change is, per operation, with its quotients cleared: `u` and `v` are the values `bars` bars ago and
      now. */
  ghost predicate Changed(name: string, u: real, v: real, bars: nat, c: real) {
    if name == "relative_change" then u * c == v - u
    else if name == "relative_change_per_bar" then u * (c * bars as real) == v - u
    else if name == "change_per_bar" then u + c * bars as real == v
    else u + c == v
  }

  /** A change is there when both ends are, and for a relative one when it starts away from zero. */
  lemma FixedMeans(bars: nat, name: string, xs: Series, t: nat)
    requires bars > 0 && t < |xs|
    ensures var change := FixedChange(bars, name, xs)[t];
            && (change.Some? <==>
                  && bars <= t && xs[t - bars].Some? && xs[t].Some?
                  && (xs[t - bars] == Some(0.0) ==> name != "relative_change" && name != "relative_change_per_bar"))
            && (change.Some? ==> Changed(name, xs[t - bars].value, xs[t].value, bars, change.value))
  {
    if FixedChange(bars, name, xs)[t].Some? {
      var u, change := xs[t - bars].value, xs[t].value - xs[t - bars].value;
      Restored(change, bars as real);
      if OperationOf(name).relative {
        Restored(change, u);
        Restored(change / u, bars as real);
      }
    }
  }

  lemma Restored(x: real, c: real)
    requires c != 0.0
    ensures x / c * c == x
  {
  }

  /** The per-bar form of the source: start and end rows, a validity mask, then the masked rows. */
  method IntervalChangeValues(xs: Series, bars: nat, name: string) returns (out: Series)
    requires bars > 0
    ensures out == FixedChange(bars, name, xs)
  {
    var result := new Option<real>[|xs|](_ => None);
    for t := 0 to |xs|
      invariant forall i | 0 <= i < t :: result[i] == FixedChange(bars, name, xs)[i]
      invariant forall i | t <= i < |xs| :: result[i] == None
    {
      var start, end := t - bars, t;
      if start >= 0 && start < end {
        result[t] := Measured(OperationOf(name), xs[start], xs[end], end - start);
      }
    }
    out := result[..];
  }

  // -- windows by counting -----------------------------------------------------------------

  function Trues(bits: seq<bool>, s: nat, e: nat): nat
    requires s <= e <= |bits|
  {
    if s == e then 0 else Trues(bits, s, e - 1) + if bits[e - 1] then 1 else 0
  }

  lemma {:induction false} TruesSplit(bits: seq<bool>, s: nat, m: nat, e: nat)
    requires s <= m <= e <= |bits|
    ensures Trues(bits, s, e) == Trues(bits, s, m) + Trues(bits, m, e)
  {
    if m < e {
      TruesSplit(bits, s, m, e - 1);
    }
  }

  /** All of a range is true exactly when it counts its length, some of it when it counts at all. */
  lemma {:induction false} TruesMean(bits: seq<bool>, s: nat, e: nat)
    requires s <= e <= |bits|
    ensures Trues(bits, s, e) <= e - s
    ensures Trues(bits, s, e) == e - s <==> forall k | s <= k < e :: bits[k]
    ensures Trues(bits, s, e) > 0 <==> exists k :: s <= k < e && bits[k]
  {
    if s < e {
      TruesMean(bits, s, e - 1);
    }
  }

  /** The trailing window by a cumulative count and a shifted difference. */
  method WindowMaskByCounts(mode: string, bars: nat, inner: seq<bool>) returns (mask: seq<bool>)
    requires bars > 0
    ensures mask == WindowMask(mode, bars, inner)
  {
    hide WindowHolds;
    var cumulative: seq<nat> := [0];
    for k := 0 to |inner|
      invariant |cumulative| == k + 1
      invariant forall j | 0 <= j <= k :: cumulative[j] == Trues(inner, 0, j)
    {
      cumulative := cumulative + [cumulative[k] + if inner[k] then 1 else 0];
    }
    mask := [];
    for i := 0 to |inner|
      invariant |mask| == i
      invariant forall k | 0 <= k < i :: mask[k] == WindowHolds(mode, bars, inner, k)
    {
      var start := if i + 1 - bars > 0 then i + 1 - bars else 0;
      var count: int := cumulative[i + 1] as int - cumulative[start] as int;
      CountedWindow(mode, bars, inner, i, start, count);
      mask := mask + [if mode == "held_for" then count == bars else count > 0];
    }
  }

  lemma CountedWindow(mode: string, bars: nat, inner: seq<bool>, i: nat, start: nat, count: int)
    requires bars > 0 && i < |inner| && start == (if i + 1 - bars > 0 then i + 1 - bars else 0)
    requires count == Trues(inner, 0, i + 1) - Trues(inner, 0, start)
    ensures WindowHolds(mode, bars, inner, i) == if mode == "held_for" then count == bars else count > 0
  {
    TruesSplit(inner, 0, start, i + 1);
    TruesMean(inner, start, i + 1);
  }

  // -- requirements ------------------------------------------------------------------------

  /** The displacement of an operand's endpoints: its fixed intervals. */
  function OperandHistory(op: Operand): nat
    decreases op, 1
  {
    match op
    case IntervalChange(_, FixedInterval(bars), _) => if bars > 0 then bars else 0
    case Ratio(left, right, _, _) => Larger(OperandHistory(left), OperandHistory(right))
    case Difference(left, right) => Larger(OperandHistory(left), OperandHistory(right))
    case Absolute(inner) => OperandHistory(inner)
    case Scale(inner, _) => OperandHistory(inner)
    case Signed(inner, _) => OperandHistory(inner)
    case OnlyIf(inner, require) =>
      assert forall r | r in require :: r < op && r.operand < op;
      Larger(OperandHistory(inner), RequireHistory(op, require))
    case _ => 0
  }

  function RequireHistory(parent: Operand, rs: seq<Requirement>): nat
    requires forall r | r in rs :: r.operand < parent
    decreases parent, 0, |rs|
  {
    if |rs| == 0 then 0 else Larger(OperandHistory(rs[0].operand), RequireHistory(parent, rs[1..]))
  }

  function Larger(a: nat, b: nat): nat {
    if a > b then a else b
  }

  /** So many bars of a timeframe, one bar of which takes `rows` base rows. */
  datatype HistoryRequirement = HistoryRequirement(rows: Option<nat>, bars: nat)

  function ConditionHistory(c: Condition): nat {
    match c
    case Compare(left, _, right) => Larger(OperandHistory(left), OperandHistory(right))
    case Range(operand, _, _) => OperandHistory(operand)
    case Change(_, _, _, _) => 0
  }

  function PredicateHistory(p: Predicate): HistoryRequirement {
    match p
    case Plain(long, short) =>
      if long.Change? then HistoryRequirement(long.feature.barRows, long.lookback)
      else HistoryRequirement(Some(1), Larger(ConditionHistory(long), if short.Some? then ConditionHistory(short.value) else 0))
    case State(_, _) => HistoryRequirement(Some(1), 0)
    case Temporal(_, bars, of) =>
      var inner := PredicateHistory(of);
      HistoryRequirement(inner.rows, (if bars > 0 then bars - 1 else 0) + inner.bars)
  }

  /** The base rows before the target that the requirement asks for. */
  function RequiredRows(p: Predicate): nat {
    var h := PredicateHistory(p);
    h.bars * if h.rows.Some? then h.rows.value else 0
  }

  /** An interval of `bars` bars is measured somewhere in the operand. */
  ghost predicate Measures(op: Operand, bars: int)
    decreases op
  {
    match op
    case IntervalChange(_, FixedInterval(b), _) => b == bars
    case Ratio(left, right, _, _) => Measures(left, bars) || Measures(right, bars)
    case Difference(left, right) => Measures(left, bars) || Measures(right, bars)
    case Absolute(inner) => Measures(inner, bars)
    case Scale(inner, _) => Measures(inner, bars)
    case Signed(inner, _) => Measures(inner, bars)
    case OnlyIf(inner, require) => Measures(inner, bars) || exists r | r in require :: Measures(r.operand, bars)
    case _ => false
  }

  /** An operand's history is the longest interval measured in it: none is longer, and it is one of them unless
      it is nothing. */
  lemma {:induction false} HistoryIsLongest(op: Operand)
    ensures forall bars | Measures(op, bars) :: bars <= OperandHistory(op)
    ensures OperandHistory(op) > 0 ==> Measures(op, OperandHistory(op))
    decreases op, 1
  {
    match op
    case Ratio(left, right, _, _) => HistoryIsLongest(left); HistoryIsLongest(right);
    case Difference(left, right) => HistoryIsLongest(left); HistoryIsLongest(right);
    case Absolute(inner) => HistoryIsLongest(inner);
    case Scale(inner, _) => HistoryIsLongest(inner);
    case Signed(inner, _) => HistoryIsLongest(inner);
    case OnlyIf(inner, require) =>
      HistoryIsLongest(inner);
      assert forall r | r in require :: r < op && r.operand < op;
      RequireIsLongest(op, require);
    case _ =>
  }

  lemma {:induction false} RequireIsLongest(parent: Operand, rs: seq<Requirement>)
    requires forall r | r in rs :: r.operand < parent
    ensures forall r, bars | r in rs && Measures(r.operand, bars) :: bars <= RequireHistory(parent, rs)
    ensures RequireHistory(parent, rs) > 0 ==> exists r | r in rs :: Measures(r.operand, RequireHistory(parent, rs))
    decreases parent, 0, |rs|
  {
    if |rs| > 0 {
      HistoryIsLongest(rs[0].operand);
      RequireIsLongest(parent, rs[1..]);
    }
  }

  /** The rows a condition asks for: the longest history of its operands, and of a change its lookback in candles
      of the feature's timeframe. */
  lemma ConditionRows(c: Condition)
    ensures c.Change? && c.feature.barRows.Some? ==>
              RequiredRows(Plain(c, None)) == c.lookback * c.feature.barRows.value
    ensures c.Change? && c.feature.barRows.None? ==> RequiredRows(Plain(c, None)) == 0
    ensures c.Compare? ==>
              && OperandHistory(c.left) <= RequiredRows(Plain(c, None))
              && OperandHistory(c.right) <= RequiredRows(Plain(c, None))
              && (RequiredRows(Plain(c, None)) == OperandHistory(c.left)
                  || RequiredRows(Plain(c, None)) == OperandHistory(c.right))
    ensures c.Range? ==> RequiredRows(Plain(c, None)) == OperandHistory(c.operand)
  {
    hide OperandHistory;
  }

  /** Both sides' conditions are served, and no row more is asked for. */
  lemma SidesRows(long: Condition, short: Condition)
    requires Admitted(Plain(long, Some(short)))
    ensures var p, one, other := Plain(long, Some(short)), Plain(long, None), Plain(short, None);
            && RequiredRows(one) <= RequiredRows(p) && RequiredRows(other) <= RequiredRows(p)
            && (RequiredRows(p) == RequiredRows(one) || RequiredRows(p) == RequiredRows(other))
  {
    hide OperandHistory, EpisodeFree;
  }

  /** A window asks for one candle less than it is long, on top of what it looks at; regimes need no history. */
  lemma WindowRows(mode: string, bars: nat, of: Predicate, rows: nat)
    requires Admitted(Temporal(mode, bars, of))
    requires if of.Plain? && of.long.Change? then of.long.feature.barRows == Some(rows) else rows == 1
    ensures RequiredRows(Temporal(mode, bars, of)) == RequiredRows(of) + (bars - 1) * rows
    ensures of.State? ==> RequiredRows(of) == 0
  {
    hide OperandHistory, EpisodeFree, ConditionAdmitted;
    var inner := PredicateHistory(of);
    assert inner.rows == Some(rows);
    assert (bars - 1 + inner.bars) * rows == (bars - 1) * rows + inner.bars * rows;
  }

  // -- what the parser admits, without episodes --------------------------------------------

  /** The series of an interval: base features, prices, constants and arithmetic over them. */
  predicate Sampled(op: Operand) {
    match op
    case Const(_) => true
    case Price(_) => true
    case FeatureValue(_) => true
    case Ratio(left, right, _, _) => Sampled(left) && Sampled(right)
    case Difference(left, right) => Sampled(left) && Sampled(right)
    case Absolute(inner) => Sampled(inner)
    case Scale(inner, _) => Sampled(inner)
    case _ => false
  }

  predicate EpisodeFree(op: Operand) {
    match op
    case Const(_) => true
    case Price(_) => true
    case FeatureValue(_) => true
    case Ratio(left, right, _, _) => EpisodeFree(left) && EpisodeFree(right)
    case Difference(left, right) => EpisodeFree(left) && EpisodeFree(right)
    case Absolute(inner) => EpisodeFree(inner)
    case Scale(inner, _) => EpisodeFree(inner)
    case Signed(inner, _) => EpisodeFree(inner)
    case OnlyIf(inner, require) => EpisodeFree(inner) && forall r | r in require :: EpisodeFree(r.operand)
    case IntervalChange(inner, interval, _) => Sampled(inner) && interval.FixedInterval? && interval.bars > 0
    case _ => false
  }

  predicate ConditionAdmitted(c: Condition) {
    match c
    case Compare(left, _, right) => EpisodeFree(left) && EpisodeFree(right)
    case Range(operand, _, _) => EpisodeFree(operand)
    case Change(feature, lookback, _, _) => lookback > 0 && (feature.barRows.Some? ==> feature.barRows.value > 0)
  }

  /** A short override keeps its class, and over a change it keeps the feature and the lookback. */
  predicate Admitted(p: Predicate) {
    match p
    case Plain(long, short) =>
      && ConditionAdmitted(long)
      && (short.Some? ==>
            && ConditionAdmitted(short.value) && (short.value.Change? <==> long.Change?)
            && (long.Change? ==> short.value.feature == long.feature && short.value.lookback == long.lookback))
    case State(_, _) => true
    case Temporal(_, bars, of) => bars > 0 && !of.Temporal? && Admitted(of)
  }

  // -- cutting a frame ---------------------------------------------------------------------

  ghost predicate Suffix(whole: Series, rest: Series, size: nat, k: nat) {
    |whole| == size && k <= size && rest == whole[k..]
  }

  ghost predicate BitSuffix(whole: seq<bool>, rest: seq<bool>, size: nat, k: nat) {
    |whole| == size && k <= size && rest == whole[k..]
  }

  /** The same market without its first `k` bars, every column warmed up: what is left reads as before. */
  ghost predicate Cut(world: World, env: Env, tail: World, tailEnv: Env, k: nat) {
    && k <= world.size && world.size == tail.size + k
    && (forall f :: Suffix(world.price(f), tail.price(f), world.size, k))
    && env.series.Keys == tailEnv.series.Keys
    && (forall l | l in env.series :: Suffix(env.series[l], tailEnv.series[l], world.size, k))
    && env.contexts.Keys == tailEnv.contexts.Keys
    && (forall c | c in env.contexts ::
          && BitSuffix(env.contexts[c].up, tailEnv.contexts[c].up, world.size, k)
          && BitSuffix(env.contexts[c].down, tailEnv.contexts[c].down, world.size, k)
          && BitSuffix(env.contexts[c].neutral, tailEnv.contexts[c].neutral, world.size, k))
    && MeasuresIntervals(world) && MeasuresIntervals(tail)
  }

  ghost predicate MeasuresIntervals(world: World) {
    forall bars, name, xs :: world.intervalChange(FixedInterval(bars), None, name, xs) == FixedChange(bars, name, xs)
  }

  /** Every column, series and regime of the market is as long as its frame. */
  ghost predicate Framed(world: World, env: Env) {
    && (forall f :: |world.price(f)| == world.size)
    && (forall l | l in env.series :: |env.series[l]| == world.size)
    && (forall c | c in env.contexts ::
          |env.contexts[c].up| == |env.contexts[c].down| == |env.contexts[c].neutral| == world.size)
  }

  /** Every market can be cut, at every bar. */
  lemma CutExists(world: World, env: Env, k: nat)
    requires Framed(world, env) && MeasuresIntervals(world) && k <= world.size
    ensures exists tail, tailEnv :: Cut(world, env, tail, tailEnv, k)
  {
    hide Cut;
    MarketIsCut(world, env, k);
  }

  function TailOf(world: World, k: nat): World
    requires k <= world.size
  {
    world.(size := world.size - k, price := (f: string) => From(world.price(f), k))
  }

  function TailEnvOf(env: Env, k: nat): Env {
    env.(
      series := map l | l in env.series :: From(env.series[l], k),
      contexts := map c | c in env.contexts :: StateFrom(env.contexts[c], k))
  }

  lemma MarketIsCut(world: World, env: Env, k: nat)
    requires Framed(world, env) && MeasuresIntervals(world) && k <= world.size
    ensures Cut(world, env, TailOf(world, k), TailEnvOf(env, k), k)
  {
    hide From, Suffix, BitSuffix, FixedChange;
    forall f ensures Suffix(world.price(f), From(world.price(f), k), world.size, k) {
      FromIsSuffix(world.price(f), world.size, k);
    }
    forall l | l in env.series ensures Suffix(env.series[l], From(env.series[l], k), world.size, k) {
      FromIsSuffix(env.series[l], world.size, k);
    }
  }

  lemma FromIsSuffix(xs: Series, size: nat, k: nat)
    requires |xs| == size && k <= size
    ensures Suffix(xs, From(xs, k), size, k)
  {
  }

  function StateFrom(state: HtfState, k: nat): (rest: HtfState)
    ensures k <= |state.up| == |state.down| == |state.neutral| ==>
              && BitSuffix(state.up, rest.up, |state.up|, k) && BitSuffix(state.down, rest.down, |state.up|, k)
              && BitSuffix(state.neutral, rest.neutral, |state.up|, k)
  {
    HtfState(From(state.up, k), From(state.down, k), From(state.neutral, k))
  }

  function From<T>(xs: seq<T>, k: nat): seq<T> {
    if k <= |xs| then xs[k..] else []
  }

  /** Equal at bar `t` of the whole frame and at the same bar of the cut one. */
  ghost predicate SameAt(a: Datum, b: Datum, size: nat, k: nat, t: nat)
    requires k <= t < size
  {
    || (a.Scalar? && a == b)
    || (a.Array? && b.Array? && |a.values| == size && |b.values| == size - k && a.values[t] == b.values[t - k])
  }

  ghost predicate SameOutcome(a: Outcome<Datum>, b: Outcome<Datum>, size: nat, k: nat, t: nat)
    requires k <= t < size
  {
    if a.Raised? then a == b else b.Value? && SameAt(a.value, b.value, size, k, t)
  }

  ghost predicate SameInputs(a: Outcome<seq<Datum>>, b: Outcome<seq<Datum>>, size: nat, k: nat, t: nat)
    requires k <= t < size
  {
    if a.Raised? then a == b else
    b.Value? && |a.value| == |b.value| && forall j | 0 <= j < |a.value| :: SameAt(a.value[j], b.value[j], size, k, t)
  }

  lemma SameRead(a: Datum, b: Datum, size: nat, k: nat, t: nat)
    requires k <= t < size && SameAt(a, b, size, k, t)
    ensures At(Broadcast(size, a), t) == At(Broadcast(size - k, b), t - k)
  {
  }

  // -- operands ----------------------------------------------------------------------------

  lemma {:induction false} SampledIsFree(op: Operand)
    requires Sampled(op)
    ensures EpisodeFree(op) && OperandHistory(op) == 0
  {
    match op
    case Ratio(left, right, _, _) => SampledIsFree(left); SampledIsFree(right);
    case Difference(left, right) => SampledIsFree(left); SampledIsFree(right);
    case Absolute(inner) => SampledIsFree(inner);
    case Scale(inner, _) => SampledIsFree(inner);
    case _ =>
  }

  ghost predicate InReach(op: Operand, k: nat, t: nat) {
    EpisodeFree(op) && k + OperandHistory(op) <= t
  }

  lemma {:induction false} RequireReach(parent: Operand, rs: seq<Requirement>, j: nat)
    requires j < |rs| && forall r | r in rs :: r.operand < parent
    ensures OperandHistory(rs[j].operand) <= RequireHistory(parent, rs)
  {
    if j > 0 {
      assert rs[1..][j - 1] == rs[j];
      RequireReach(parent, rs[1..], j - 1);
    }
  }

  lemma ChildReach(op: Operand, k: nat, t: nat)
    requires InReach(op, k, t) && !op.IntervalChange?
    ensures forall c | c in Children(op) :: c.operand < op && InReach(c.operand, k, t)
  {
    if op.OnlyIf? {
      forall c | c in Children(op) ensures InReach(c.operand, k, t) {
        if c != Child(AtOperand, op.inner) {
          var j :| 0 <= j < |Requirements(op)| && Requirements(op)[j] == c;
          assert forall r | r in op.require :: r < op && r.operand < op;
          RequireReach(op, op.require, j);
        }
      }
    }
  }

  /** An operand without episodes has the same value at the target in the cut frame, as long as its fixed
      intervals start inside it. */
  lemma {:induction false} OperandSame(world: World, env: Env, tail: World, tailEnv: Env, op: Operand, side: Side, k: nat, t: nat)
    requires Cut(world, env, tail, tailEnv, k) && k <= t < world.size && InReach(op, k, t)
    ensures SameOutcome(Values(world, env, op, side), Values(tail, tailEnv, op, side), world.size, k, t)
    decreases op, 1
  {
    hide Combined, Cut, SameAt, Values;
    ValuesCompose(world, env, NoIdentities, op, side, []);
    ValuesCompose(tail, tailEnv, NoIdentities, op, side, []);
    NotBlocked(world, env, op, side);
    NotBlocked(tail, tailEnv, op, side);
    if op.IntervalChange? {
      SampledIsFree(op.inner);
      OperandSame(world, env, tail, tailEnv, op.inner, side, k, t);
      OperandSame(world, env, tail, tailEnv, op.inner, side, k, t - op.interval.bars);
      OnlyChild(world, env, op, side);
      OnlyChild(tail, tailEnv, op, side);
      IntervalSame(world, env, tail, tailEnv, op, side, k, t);
    } else {
      ChildReach(op, k, t);
      ChildrenSame(world, env, tail, tailEnv, op, Children(op), side, k, t);
      var a, b := ChildValues(world, env, Children(op), side), ChildValues(tail, tailEnv, Children(op), side);
      if a.Value? {
        CombinedSame(world, env, tail, tailEnv, op, side, a.value, b.value, k, t);
      }
    }
  }

  lemma NotBlocked(world: World, env: Env, op: Operand, side: Side)
    requires EpisodeFree(op)
    ensures !Blocked(world, env, op, side) && Inputs(world, env, op, side) == Children(op)
  {
  }

  lemma OnlyChild(world: World, env: Env, op: Operand, side: Side)
    requires op.IntervalChange?
    ensures var v := Values(world, env, op.inner, side);
            ChildValues(world, env, Children(op), side) == if v.Raised? then Raised(v.failure) else Value([v.value])
  {
    var cs := Children(op);
    assert cs[1..] == [];
    assert ChildValues(world, env, cs[1..], side) == Value([]);
    var v := Values(world, env, op.inner, side);
    if v.Value? {
      var none: seq<Datum> := [];
      assert [v.value] + none == [v.value];
    }
  }

  lemma {:induction false} ChildrenSame(
    world: World, env: Env, tail: World, tailEnv: Env, parent: Operand, cs: seq<Child>, side: Side, k: nat, t: nat)
    requires Cut(world, env, tail, tailEnv, k) && k <= t < world.size
    requires forall c | c in cs :: c.operand < parent && InReach(c.operand, k, t)
    ensures SameInputs(ChildValues(world, env, cs, side), ChildValues(tail, tailEnv, cs, side), world.size, k, t)
    decreases parent, 0, |cs|
  {
    hide Cut, Values, SameAt;
    if |cs| > 0 {
      assert cs[0] in cs;
      OperandSame(world, env, tail, tailEnv, cs[0].operand, side, k, t);
      assert forall c | c in cs[1..] :: c in cs;
      ChildrenSame(world, env, tail, tailEnv, parent, cs[1..], side, k, t);
    }
  }

  lemma IntervalSame(world: World, env: Env, tail: World, tailEnv: Env, op: Operand, side: Side, k: nat, t: nat)
    requires Cut(world, env, tail, tailEnv, k) && k <= t < world.size && InReach(op, k, t) && op.IntervalChange?
    requires SameOutcome(Values(world, env, op.inner, side), Values(tail, tailEnv, op.inner, side), world.size, k, t)
    requires SameOutcome(Values(world, env, op.inner, side), Values(tail, tailEnv, op.inner, side), world.size, k, t - op.interval.bars)
    ensures var a, b := Values(world, env, op.inner, side), Values(tail, tailEnv, op.inner, side);
            a.Value? ==>
              SameOutcome(Combined(world, env, op, side, [a.value]), Combined(tail, tailEnv, op, side, [b.value]), world.size, k, t)
  {
    hide Values, Measured;
    var a, b := Values(world, env, op.inner, side), Values(tail, tailEnv, op.inner, side);
    if a.Value? && a.value.Array? {
      var name, bars := op.operation, op.interval.bars;
      assert world.intervalChange(op.interval, None, name, a.value.values) == FixedChange(bars, name, a.value.values);
      assert tail.intervalChange(op.interval, None, name, b.value.values) == FixedChange(bars, name, b.value.values);
      assert a.value.values[t - bars] == b.value.values[t - bars - k];
    }
  }

  lemma CombinedSame(
    world: World, env: Env, tail: World, tailEnv: Env, op: Operand, side: Side, vs: seq<Datum>, ws: seq<Datum>, k: nat, t: nat)
    requires Cut(world, env, tail, tailEnv, k) && k <= t < world.size && EpisodeFree(op) && !op.IntervalChange?
    requires SameInputs(Value(vs), Value(ws), world.size, k, t)
    ensures SameOutcome(Combined(world, env, op, side, vs), Combined(tail, tailEnv, op, side, ws), world.size, k, t)
  {
    hide SameAt;
    forall j | 0 <= j < |vs| ensures At(Broadcast(world.size, vs[j]), t) == At(Broadcast(tail.size, ws[j]), t - k) {
      SameRead(vs[j], ws[j], world.size, k, t);
    }
    if op.OnlyIf? {
      OnlyIfSame(world.size, tail.size, BoundsOf(op.require), vs, ws, k, t);
    } else {
      LeafOrArithmeticSame(world, env, tail, tailEnv, op, side, vs, ws, k, t);
    }
  }

  lemma LeafOrArithmeticSame(
    world: World, env: Env, tail: World, tailEnv: Env, op: Operand, side: Side, vs: seq<Datum>, ws: seq<Datum>, k: nat, t: nat)
    requires Cut(world, env, tail, tailEnv, k) && k <= t < world.size
    requires EpisodeFree(op) && !op.IntervalChange? && !op.OnlyIf?
    requires |vs| == |ws|
    requires forall j | 0 <= j < |vs| :: At(Broadcast(world.size, vs[j]), t) == At(Broadcast(tail.size, ws[j]), t - k)
    ensures SameOutcome(Combined(world, env, op, side, vs), Combined(tail, tailEnv, op, side, ws), world.size, k, t)
  {
    hide Broadcast, Quotient, Minus, Magnitude, Times, Mirrored, MeasuresIntervals;
    match op
    case Price(field) => assert Suffix(world.price(field), tail.price(field), world.size, k);
    case FeatureValue(f) =>
    case _ =>
  }

  lemma OnlyIfSame(size: nat, rest: nat, bounds: seq<Bound>, vs: seq<Datum>, ws: seq<Datum>, k: nat, t: nat)
    requires k <= t < size && size == rest + k && |vs| == |ws|
    requires forall j | 0 <= j < |vs| :: At(Broadcast(size, vs[j]), t) == At(Broadcast(rest, ws[j]), t - k)
    ensures SameOutcome(OnlyIfValue(size, bounds, vs), OnlyIfValue(rest, bounds, ws), size, k, t)
  {
    hide Broadcast, Inside;
    if |vs| == |bounds| + 1 {
      var xs, ys := Columns(size, vs), Columns(rest, ws);
      var n := |bounds|;
      assert forall j | 0 <= j < n :: At(xs[..n][j], t) == At(ys[..n][j], t - k);
      assert AllInside(bounds, xs[..n], t) == AllInside(bounds, ys[..n], t - k);
      assert At(xs[n], t) == At(ys[n], t - k);
    }
  }

  // -- predicates --------------------------------------------------------------------------

  ghost predicate SameBit(a: Outcome<Datum>, b: Outcome<Datum>, size: nat, k: nat, t: nat)
    requires k <= t < size
  {
    if a.Raised? then a == b else
    && a.value.Mask? && |a.value.bits| == size
    && b.Value? && b.value.Mask? && |b.value.bits| == size - k
    && a.value.bits[t] == b.value.bits[t - k]
  }

  lemma {:induction false} OperandsSame(
    world: World, env: Env, tail: World, tailEnv: Env, ops: seq<Operand>, side: Side, k: nat, t: nat)
    requires Cut(world, env, tail, tailEnv, k) && k <= t < world.size
    requires forall op | op in ops :: InReach(op, k, t)
    ensures SameInputs(ChildValues(world, env, OperandChildren(ops), side),
                       ChildValues(tail, tailEnv, OperandChildren(ops), side), world.size, k, t)
  {
    hide Cut, Values, SameAt;
    if |ops| > 0 {
      assert ops[0] in ops;
      OperandSame(world, env, tail, tailEnv, ops[0], side, k, t);
      assert forall op | op in ops[1..] :: op in ops;
      OperandsSame(world, env, tail, tailEnv, ops[1..], side, k, t);
    }
  }

  lemma ConditionReach(c: Condition, k: nat, t: nat)
    requires ConditionAdmitted(c) && k + ConditionHistory(c) <= t
    ensures forall op | op in ConditionOperands(c) :: InReach(op, k, t)
  {
  }

  /** Where a change looks back to. */
  function Shift(c: Condition): nat
    requires c.Change?
  {
    c.lookback * if c.feature.barRows.Some? then c.feature.barRows.value else 0
  }

  lemma ConditionSame(world: World, env: Env, tail: World, tailEnv: Env, c: Condition, side: Side, k: nat, t: nat)
    requires Cut(world, env, tail, tailEnv, k) && k <= t < world.size && ConditionAdmitted(c)
    requires k + ConditionHistory(c) <= t && (c.Change? ==> k + Shift(c) <= t)
    ensures SameBit(PlainMask(world, env, c, side), PlainMask(tail, tailEnv, c, side), world.size, k, t)
  {
    hide Cut, Values, SameAt, ChildValues, OperandChildren;
    var ops := ConditionOperands(c);
    ConditionReach(c, k, t);
    OperandsSame(world, env, tail, tailEnv, ops, side, k, t);
    var a, b := ChildValues(world, env, OperandChildren(ops), side), ChildValues(tail, tailEnv, OperandChildren(ops), side);
    if a.Value? {
      CutSizes(world, env, tail, tailEnv, k);
      if c.Change? {
        ConditionReach(c, k, t - Shift(c));
        OperandsSame(world, env, tail, tailEnv, ops, side, k, t - Shift(c));
        ChangeSame(world, tail, c, a.value, b.value, k, t);
      } else {
        ComparisonSame(world, tail, c, a.value, b.value, k, t);
      }
    }
  }

  lemma CutSizes(world: World, env: Env, tail: World, tailEnv: Env, k: nat)
    requires Cut(world, env, tail, tailEnv, k)
    ensures world.size == tail.size + k
  {
  }

  lemma ComparisonSame(world: World, tail: World, c: Condition, vs: seq<Datum>, ws: seq<Datum>, k: nat, t: nat)
    requires world.size == tail.size + k && k <= t < world.size && !c.Change?
    requires SameInputs(Value(vs), Value(ws), world.size, k, t)
    ensures SameBit(ConditionValue(world, c, vs), ConditionValue(tail, c, ws), world.size, k, t)
  {
    hide SameAt, Compares, InRange, Broadcast;
    forall j | 0 <= j < |vs| ensures At(Broadcast(world.size, vs[j]), t) == At(Broadcast(tail.size, ws[j]), t - k) {
      SameRead(vs[j], ws[j], world.size, k, t);
    }
  }

  lemma ChangeSame(world: World, tail: World, c: Condition, vs: seq<Datum>, ws: seq<Datum>, k: nat, t: nat)
    requires world.size == tail.size + k && c.Change? && k + Shift(c) <= t < world.size
    requires SameInputs(Value(vs), Value(ws), world.size, k, t)
    requires SameInputs(Value(vs), Value(ws), world.size, k, t - Shift(c))
    ensures SameBit(ConditionValue(world, c, vs), ConditionValue(tail, c, ws), world.size, k, t)
  {
    hide SameAt, Broadcast, At, ChangeMask;
    if |vs| == 1 {
      var shift := Shift(c);
      SameRead(vs[0], ws[0], world.size, k, t);
      SameRead(vs[0], ws[0], world.size, k, t - shift);
      var xs, ys := Broadcast(world.size, vs[0]), Broadcast(tail.size, ws[0]);
      ChangeMaskSame(world.size, tail.size, shift, c.op, Real(c.amount), xs, ys, k, t);
    }
  }

  lemma ChangeMaskAt(size: nat, shift: nat, op: string, amount: real, xs: Series, t: nat)
    requires t < size
    ensures |ChangeMask(size, shift, op, amount, xs)| == size
    ensures ChangeMask(size, shift, op, amount, xs)[t] == Compares(op, Minus(At(xs, t), At(xs, t - shift)), Some(amount))
  {
    hide Compares, Minus, At;
  }

  lemma ChangeMaskSame(size: nat, rest: nat, shift: nat, op: string, amount: real, xs: Series, ys: Series, k: nat, t: nat)
    requires size == rest + k && k + shift <= t < size
    requires At(xs, t) == At(ys, t - k) && At(xs, t - shift) == At(ys, t - shift - k)
    ensures |ChangeMask(size, shift, op, amount, xs)| == size && |ChangeMask(rest, shift, op, amount, ys)| == rest
    ensures ChangeMask(size, shift, op, amount, xs)[t] == ChangeMask(rest, shift, op, amount, ys)[t - k]
  {
    hide Compares, Minus, At, ChangeMask;
    ChangeMaskAt(size, shift, op, amount, xs, t);
    ChangeMaskAt(rest, shift, op, amount, ys, t - k);
    assert t - shift - k == t - k - shift;
  }

  /** A window over bits that agree from its first bar on. */
  lemma WindowSame(mode: string, bars: nat, inner: seq<bool>, rest: seq<bool>, size: nat, k: nat, t: nat)
    requires bars > 0 && |inner| == size && |rest| == size - k && k + (bars - 1) <= t < size
    requires forall j: nat | t + 1 - bars <= j <= t :: inner[j] == rest[j - k]
    ensures WindowHolds(mode, bars, inner, t) == WindowHolds(mode, bars, rest, t - k)
  {
    forall j: nat | t + 1 - bars <= j <= t ensures inner[j] == rest[j - k] {}
    if mode == "held_for" {
      if WindowHolds(mode, bars, rest, t - k) {
        forall j | 0 <= j <= t && t - bars < j ensures inner[j] {
          assert rest[j - k];
        }
      }
      if WindowHolds(mode, bars, inner, t) {
        forall j | 0 <= j <= t - k && t - k - bars < j ensures rest[j] {
          assert inner[j + k];
        }
      }
    } else {
      if j :| 0 <= j <= t && t - bars < j && inner[j] {
        assert rest[j - k];
      }
      if j :| 0 <= j <= t - k && t - k - bars < j && rest[j] {
        assert inner[j + k];
      }
    }
  }

  lemma HistoryParts(p: Predicate)
    requires Admitted(p) && p.Temporal?
    ensures PredicateHistory(p.of).rows.Some? ==> PredicateHistory(p.of).rows.value > 0
    ensures PredicateHistory(p.of).rows.Some? ==> RequiredRows(p) >= p.bars - 1 + RequiredRows(p.of)
  {
    var inner := PredicateHistory(p.of);
    if inner.rows.Some? {
      var rows := inner.rows.value;
      assert (p.bars - 1 + inner.bars) * rows == (p.bars - 1) * rows + inner.bars * rows;
      Grows(p.bars - 1, rows);
    }
  }

  lemma Grows(a: nat, rows: nat)
    requires rows > 0
    ensures a * rows >= a
  {
  }

  /** A change over a timeframe that is no whole number of base bars is refused on every frame. */
  lemma UnmeasuredChange(world: World, env: Env, tail: World, tailEnv: Env, p: Predicate, side: Side, k: nat)
    requires Cut(world, env, tail, tailEnv, k) && k < world.size && Admitted(p)
    requires p.Plain? && p.long.Change? && p.long.feature.barRows.None?
    ensures MaskOf(world, env, p, side).Raised? && MaskOf(tail, tailEnv, p, side) == MaskOf(world, env, p, side)
  {
    hide Cut, SameAt, ChildValues, OperandChildren, ChangeMask, Values;
    var c := ForSide(p, side);
    MaskComposes(world, env, NoIdentity, p, side);
    MaskComposes(tail, tailEnv, NoIdentity, p, side);
    OperandsSame(world, env, tail, tailEnv, ConditionOperands(c), side, k, world.size - 1);
  }

  lemma StateSame(world: World, env: Env, tail: World, tailEnv: Env, p: Predicate, side: Side, k: nat, t: nat)
    requires Cut(world, env, tail, tailEnv, k) && k <= t < world.size && p.State?
    ensures SameBit(MaskOf(world, env, p, side), MaskOf(tail, tailEnv, p, side), world.size, k, t)
  {
    hide ResolveRegime;
    StateIsItsValue(world, env, p, side);
    StateIsItsValue(tail, tailEnv, p, side);
    if p.contextRef in env.contexts {
      assert BitSuffix(env.contexts[p.contextRef].up, tailEnv.contexts[p.contextRef].up, world.size, k);
    }
  }

  lemma StateIsItsValue(world: World, env: Env, p: Predicate, side: Side)
    requires p.State?
    ensures MaskOf(world, env, p, side) == StateValue(world, env, p.contextRef, p.regimes, side)
  {
  }

  /** Live history is sufficient: evaluated on the required rows before the target and the target itself, every
      admitted predicate without episodes gives the bit, or the refusal, of the whole history. */
  lemma {:induction false} HistorySuffices(
    world: World, env: Env, tail: World, tailEnv: Env, p: Predicate, side: Side, k: nat, t: nat)
    requires Cut(world, env, tail, tailEnv, k) && Admitted(p)
    requires k + RequiredRows(p) <= t < world.size
    ensures SameBit(MaskOf(world, env, p, side), MaskOf(tail, tailEnv, p, side), world.size, k, t)
    decreases p
  {
    hide Cut, SameBit, MaskOf, RequiredRows, Admitted;
    match p
    case State(_, _) =>
      StateSame(world, env, tail, tailEnv, p, side, k, t);
    case Plain(_, _) =>
      PlainSame(world, env, tail, tailEnv, p, side, k, t);
    case Temporal(_, _, _) =>
      TemporalSame(world, env, tail, tailEnv, p, side, k, t);
  }

  lemma PlainSame(world: World, env: Env, tail: World, tailEnv: Env, p: Predicate, side: Side, k: nat, t: nat)
    requires Cut(world, env, tail, tailEnv, k) && Admitted(p) && p.Plain?
    requires k + RequiredRows(p) <= t < world.size
    ensures SameBit(MaskOf(world, env, p, side), MaskOf(tail, tailEnv, p, side), world.size, k, t)
  {
    hide Cut, SameBit, MaskOf, PlainMask, OperandHistory, EpisodeFree;
    MaskComposes(world, env, NoIdentity, p, side);
    MaskComposes(tail, tailEnv, NoIdentity, p, side);
    SideReach(p, side);
    ConditionSame(world, env, tail, tailEnv, ForSide(p, side), side, k, t);
  }

  /** The required rows of a predicate reach as far as the condition of either side. */
  lemma SideReach(p: Predicate, side: Side)
    requires Admitted(p) && p.Plain?
    ensures var c := ForSide(p, side);
            && ConditionAdmitted(c) && ConditionHistory(c) <= RequiredRows(p)
            && (c.Change? ==> Shift(c) <= RequiredRows(p))
  {
    hide OperandHistory, EpisodeFree;
  }

  lemma TemporalSame(world: World, env: Env, tail: World, tailEnv: Env, p: Predicate, side: Side, k: nat, t: nat)
    requires Cut(world, env, tail, tailEnv, k) && Admitted(p) && p.Temporal?
    requires k + RequiredRows(p) <= t < world.size
    ensures SameBit(MaskOf(world, env, p, side), MaskOf(tail, tailEnv, p, side), world.size, k, t)
    decreases p, 0
  {
    hide Cut, WindowHolds, PlainMask;
    var of := p.of;
    MaskComposes(world, env, NoIdentity, p, side);
    MaskComposes(tail, tailEnv, NoIdentity, p, side);
    var a, b := MaskOf(world, env, of, side), MaskOf(tail, tailEnv, of, side);
    if PredicateHistory(of).rows.None? {
      UnmeasuredChange(world, env, tail, tailEnv, of, side, k);
    } else {
      HistoryParts(p);
      forall j: nat | t + 1 - p.bars <= j <= t ensures k <= j < world.size && SameBit(a, b, world.size, k, j) {
        HistorySuffices(world, env, tail, tailEnv, of, side, k, j);
      }
      assert SameBit(a, b, world.size, k, t);
      if a.Value? {
        forall j: nat | t + 1 - p.bars <= j <= t ensures a.value.bits[j] == b.value.bits[j - k] {
          assert SameBit(a, b, world.size, k, j);
        }
        WindowSame(p.mode, p.bars, a.value.bits, b.value.bits, world.size, k, t);
      }
    }
  }
}
