/** What every managed replay keeps, whatever the policy and the market: phases only advance, the stop only
    tightens, the extremes are those of the bars seen, and an earlier target sees a prefix. */
module ReplaySafety {
  import opened NodeProgram
  import opened EpisodeTables
  import opened ManagedPolicy
  import opened CompositeFold
  import opened ManagedReplay

  ghost predicate Replayable(frame: Frame, trade: Trade, offset: Offset, n: nat) {
    trade.entryPrice > 0.0 && trade.entryIndex + offset + n <= |frame.bars|
  }

  // -- phases --------------------------------------------------------------------------

  /** The phase changes among the events. */
  function PhaseChanges(events: seq<Event>): seq<Event> {
    if |events| == 0 then [] else
    var last := events[|events| - 1];
    PhaseChanges(events[..|events| - 1]) + if last.PhaseChanged? then [last] else []
  }

  /** Phase changes that lead from one phase to another, each one upwards from where the last one ended. */
  predicate Climbs(events: seq<Event>, from: Phase, to: Phase) {
    if |events| == 0 then from == to else
    var last := events[|events| - 1];
    && last.PhaseChanged? && last.to == to && Rank(last.from) < Rank(last.to)
    && Climbs(events[..|events| - 1], from, last.from)
  }

  lemma {:induction false} ClimbsOn(a: seq<Event>, b: seq<Event>, from: Phase, middle: Phase, to: Phase)
    requires Climbs(a, from, middle) && Climbs(b, middle, to)
    ensures Climbs(a + b, from, to)
  {
    if |b| == 0 {
      assert a + b == a;
    } else {
      var last := |b| - 1;
      assert (a + b)[..|a + b| - 1] == a + b[..last];
      ClimbsOn(a, b[..last], from, middle, b[last].from);
    }
  }

  lemma {:induction false} ClimbsFew(events: seq<Event>, from: Phase, to: Phase)
    requires Climbs(events, from, to)
    ensures |events| <= Rank(to) - Rank(from)
  {
    if |events| > 0 {
      ClimbsFew(events[..|events| - 1], from, events[|events| - 1].from);
    }
  }

  lemma {:induction false} ChangesOfBoth(a: seq<Event>, b: seq<Event>)
    ensures PhaseChanges(a + b) == PhaseChanges(a) + PhaseChanges(b)
  {
    if |b| == 0 {
      assert a + b == a;
    } else {
      assert (a + b)[..|a + b| - 1] == a + b[..|b| - 1];
      ChangesOfBoth(a, b[..|b| - 1]);
    }
  }

  lemma {:induction false} NoChanges(events: seq<Event>)
    requires forall e | e in events :: !e.PhaseChanged?
    ensures PhaseChanges(events) == []
  {
    if |events| > 0 {
      NoChanges(events[..|events| - 1]);
    }
  }

  lemma {:induction false} AllChanges(events: seq<Event>, from: Phase, to: Phase)
    requires Climbs(events, from, to)
    ensures PhaseChanges(events) == events
  {
    if |events| > 0 {
      AllChanges(events[..|events| - 1], from, events[|events| - 1].from);
    }
  }

  lemma {:induction false} RulesClimb(
    frame: Frame, trade: Trade, m: Metrics, index: nat, rules: seq<PhaseRule>, phase: Phase)
    requires trade.entryPrice > 0.0
    ensures var p := Phased(frame, trade, m, index, rules, Phasing(phase, phase, []));
            p.phase == p.maxPhase && Climbs(p.events, phase, p.phase)
  {
    if |rules| > 0 {
      hide ConditionMet;
      RulesClimb(frame, trade, m, index, rules[..|rules| - 1], phase);
      var p := Phased(frame, trade, m, index, rules[..|rules| - 1], Phasing(phase, phase, []));
      var q := Advance(frame, trade, m, index, rules[|rules| - 1], p);
      if q != p {
        assert q.events[..|q.events| - 1] == p.events;
      }
    }
  }

  lemma StopsOnly(frame: Frame, trade: Trade, best: real, index: nat, phase: Phase, rules: seq<StopRule>, s: Stopping)
    requires s.events == []
    ensures forall e | e in Stopped(frame, trade, best, index, phase, rules, s).events :: e.StopUpdated?
  {
  }

  lemma {:induction false} TakesOnly(index: nat, phase: Phase, rules: seq<TakeRule>, t: Taking)
    requires forall e | e in t.events :: e.TakeUpdated?
    ensures forall e | e in Taken(index, phase, rules, t).events :: e.TakeUpdated?
  {
    if |rules| > 0 {
      hide ProfileOf;
      TakesOnly(index, phase, rules[..|rules| - 1], t);
    }
  }

  /** The phase changes of one bar lead from the phase before it to the phase after it. */
  lemma StepClimbs(frame: Frame, policy: Policy, trade: Trade, start: nat, s: State, index: nat)
    requires trade.entryPrice > 0.0 && index < |frame.bars| && s.phase == s.maxPhase
    ensures var stepped := Step(frame, policy, trade, start, s, index);
            && stepped.state.phase == stepped.state.maxPhase
            && Climbs(PhaseChanges(stepped.events), s.phase, stepped.state.phase)
  {
    hide Phased, Stopped, Taken, Armed, Climbs;
    var moved := Extremes(frame, trade, s, index);
    RulesClimb(frame, trade, MetricsOf(moved), index, policy.phases, s.phase);
    var p := Phased(frame, trade, MetricsOf(moved), index, policy.phases, Phasing(s.phase, s.maxPhase, []));
    var stops := Stopped(frame, trade, moved.best, index, p.phase, policy.stops, Stopping(s.stop, s.stopRule, []));
    var takes := Taken(index, p.phase, policy.takes, Taking(s.profile, s.takeRule, []));
    var exits := Triggered(index, Armed(frame, trade.side, start, index, p.phase, policy.runtimes));
    StopsOnly(frame, trade, moved.best, index, p.phase, policy.stops, Stopping(s.stop, s.stopRule, []));
    TakesOnly(index, p.phase, policy.takes, Taking(s.profile, s.takeRule, []));
    OnlyFirstClimbs(p.events, stops.events, takes.events, exits, s.phase, p.phase);
  }

  lemma OnlyFirstClimbs(a: seq<Event>, b: seq<Event>, c: seq<Event>, d: seq<Event>, from: Phase, to: Phase)
    requires Climbs(a, from, to)
    requires forall e | e in b || e in c || e in d :: !e.PhaseChanged?
    ensures PhaseChanges(a + b + c + d) == a
  {
    AllChanges(a, from, to);
    NoChanges(b);
    NoChanges(c);
    NoChanges(d);
    ChangesOfBoth(a, b);
    ChangesOfBoth(a + b, c);
    ChangesOfBoth(a + b + c, d);
  }

  /** Over the whole run the phase is the highest one reached, its changes chain from the initial phase, and
      there are at most four of them. */
  lemma {:induction false} PhasesClimb(frame: Frame, policy: Policy, trade: Trade, offset: Offset, n: nat)
    requires Replayable(frame, trade, offset, n)
    ensures var run := Replay(frame, policy, trade, offset, n);
            && run.state.phase == run.state.maxPhase
            && Climbs(PhaseChanges(run.events), InitialRisk, run.state.phase)
            && |PhaseChanges(run.events)| <= 4
  {
    hide OneMoreBar, Climbs;
    if n == 0 {
      NothingClimbs();
    } else {
      var run, start := Replay(frame, policy, trade, offset, n - 1), trade.entryIndex + offset;
      PhasesClimb(frame, policy, trade, offset, n - 1);
      ReplayUnfolds(frame, policy, trade, offset, n);
      BarClimbs(frame, policy, trade, start, run, start + n - 1);
    }
    ClimbsFew(PhaseChanges(Replay(frame, policy, trade, offset, n).events), InitialRisk,
              Replay(frame, policy, trade, offset, n).state.phase);
  }

  lemma NothingClimbs()
    ensures PhaseChanges([]) == [] && Climbs([], InitialRisk, InitialRisk)
  {
  }

  lemma BarClimbs(frame: Frame, policy: Policy, trade: Trade, start: nat, run: Run, index: nat)
    requires trade.entryPrice > 0.0 && index < |frame.bars| && run.state.phase == run.state.maxPhase
    requires Climbs(PhaseChanges(run.events), InitialRisk, run.state.phase)
    ensures var next := OneMoreBar(frame, policy, trade, start, run, index);
            && next.state.phase == next.state.maxPhase
            && Climbs(PhaseChanges(next.events), InitialRisk, next.state.phase)
  {
    hide Step, Climbs, PhaseChanges;
    var stepped := Step(frame, policy, trade, start, run.state, index);
    StepClimbs(frame, policy, trade, start, run.state, index);
    ChangesOfBoth(run.events, stepped.events);
    ClimbsOn(PhaseChanges(run.events), PhaseChanges(stepped.events), InitialRisk, run.state.phase, stepped.state.phase);
  }

  // -- stops ---------------------------------------------------------------------------

  /** A stop at least as tight as another one: a stop once set is never lost. */
  predicate AsTight(side: Side, now: Option<real>, before: Option<real>) {
    before.Some? ==> now.Some? && if side == Long then now.value >= before.value else now.value <= before.value
  }

  /** A stop no looser than a proposal, up to the tolerance. */
  predicate Covers(side: Side, stop: Option<real>, price: real) {
    stop.Some? && if side == Long then stop.value >= price - EPSILON else stop.value <= price + EPSILON
  }

  lemma {:induction false} TightestCovers(side: Side, ps: seq<Proposal>, k: nat)
    requires k < |ps|
    ensures var t := Tightest(side, ps);
            if side == Long then t.price >= ps[k].price else t.price <= ps[k].price
  {
    if k < |ps| - 1 {
      TightestCovers(side, ps[..|ps| - 1], k);
    } else if |ps| > 1 {
      TightestCovers(side, ps[..|ps| - 1], 0);
    }
  }

  lemma StoppedTightens(
    frame: Frame, trade: Trade, best: real, index: nat, phase: Phase, rules: seq<StopRule>, s: Stopping)
    ensures var after := Stopped(frame, trade, best, index, phase, rules, s);
            && AsTight(trade.side, after.stop, s.stop)
            && forall p | p in Proposals(frame, trade, best, index, phase, rules) :: Covers(trade.side, after.stop, p.price)
  {
    hide Proposals;
    var ps := Proposals(frame, trade, best, index, phase, rules);
    forall p | p in ps
      ensures Covers(trade.side, Stopped(frame, trade, best, index, phase, rules, s).stop, p.price)
    {
      var k :| 0 <= k < |ps| && ps[k] == p;
      TightestCovers(trade.side, ps, k);
    }
  }

  /** The proposals made on the bar that `after` is the state of. */
  function ProposalsOn(frame: Frame, policy: Policy, trade: Trade, index: nat, after: State): seq<Proposal> {
    Proposals(frame, trade, after.best, index, after.phase, policy.stops)
  }

  lemma StepTightens(frame: Frame, policy: Policy, trade: Trade, start: nat, s: State, index: nat)
    requires trade.entryPrice > 0.0 && index < |frame.bars|
    ensures var after := Step(frame, policy, trade, start, s, index).state;
            && AsTight(trade.side, after.stop, s.stop)
            && forall p | p in ProposalsOn(frame, policy, trade, index, after) :: Covers(trade.side, after.stop, p.price)
  {
    hide Phased, Stopped, Taken, Armed, Proposals, AsTight, Covers;
    var moved := Extremes(frame, trade, s, index);
    var p := Phased(frame, trade, MetricsOf(moved), index, policy.phases, Phasing(s.phase, s.maxPhase, []));
    StoppedTightens(frame, trade, moved.best, index, p.phase, policy.stops, Stopping(s.stop, s.stopRule, []));
  }

  ghost function StateAfter(frame: Frame, policy: Policy, trade: Trade, offset: Offset, n: nat): State
    requires Replayable(frame, trade, offset, n)
  {
    Replay(frame, policy, trade, offset, n).state
  }

  lemma NextState(frame: Frame, policy: Policy, trade: Trade, offset: Offset, n: nat)
    requires Replayable(frame, trade, offset, n) && n > 0
    ensures var start := trade.entryIndex + offset;
            StateAfter(frame, policy, trade, offset, n)
            == Step(frame, policy, trade, start, StateAfter(frame, policy, trade, offset, n - 1), start + n - 1).state
  {
    hide Step;
    ReplayUnfolds(frame, policy, trade, offset, n);
  }

  /** The stop only ever tightens: of two states of a run the later one's stop is at least as tight. */
  lemma {:induction false} StopTightens(frame: Frame, policy: Policy, trade: Trade, offset: Offset, m: nat, n: nat)
    requires Replayable(frame, trade, offset, n) && m <= n
    ensures AsTight(trade.side, StateAfter(frame, policy, trade, offset, n).stop,
                    StateAfter(frame, policy, trade, offset, m).stop)
  {
    hide StateAfter, Step;
    if m < n {
      StopTightens(frame, policy, trade, offset, m, n - 1);
      NextState(frame, policy, trade, offset, n);
      StepTightens(frame, policy, trade, trade.entryIndex + offset, StateAfter(frame, policy, trade, offset, n - 1),
                   trade.entryIndex + offset + n - 1);
    }
  }

  /** Every proposal ever made stays covered: the stop is no more than the tolerance looser than it. */
  lemma StopCovers(frame: Frame, policy: Policy, trade: Trade, offset: Offset, m: nat, n: nat, p: Proposal)
    requires Replayable(frame, trade, offset, n) && 0 < m <= n
    requires p in ProposalsOn(frame, policy, trade, trade.entryIndex + offset + m - 1,
                              StateAfter(frame, policy, trade, offset, m))
    ensures Covers(trade.side, StateAfter(frame, policy, trade, offset, n).stop, p.price)
  {
    hide StateAfter, Step, ProposalsOn;
    NextState(frame, policy, trade, offset, m);
    StepTightens(frame, policy, trade, trade.entryIndex + offset, StateAfter(frame, policy, trade, offset, m - 1),
                 trade.entryIndex + offset + m - 1);
    StopTightens(frame, policy, trade, offset, m, n);
  }

  // -- extremes ------------------------------------------------------------------------

  /** `x` is the largest of `base` and the values of `f` over the bars from `from` to before `to`. */
  ghost predicate IsHighest(frame: Frame, base: real, from: nat, to: nat, x: real)
    requires to <= |frame.bars|
  {
    && x >= base && (forall i | from <= i < to :: x >= frame.bars[i].high)
    && (x == base || exists i | from <= i < to :: x == frame.bars[i].high)
  }

  ghost predicate IsLowest(frame: Frame, base: real, from: nat, to: nat, x: real)
    requires to <= |frame.bars|
  {
    && x <= base && (forall i | from <= i < to :: x <= frame.bars[i].low)
    && (x == base || exists i | from <= i < to :: x == frame.bars[i].low)
  }

  /** The favourable and the adverse extreme of a state are those of the entry price and the bars seen. */
  ghost predicate Extremal(frame: Frame, trade: Trade, from: nat, to: nat, s: State)
    requires to <= |frame.bars|
  {
    if trade.side == Long
    then IsHighest(frame, trade.entryPrice, from, to, s.best) && IsLowest(frame, trade.entryPrice, from, to, s.worst)
    else IsLowest(frame, trade.entryPrice, from, to, s.best) && IsHighest(frame, trade.entryPrice, from, to, s.worst)
  }

  lemma ExtremesExtend(frame: Frame, trade: Trade, from: nat, to: nat, s: State)
    requires from <= to < |frame.bars| && Extremal(frame, trade, from, to, s)
    ensures Extremal(frame, trade, from, to + 1, Extremes(frame, trade, s, to))
  {
    var after := Extremes(frame, trade, s, to);
    assert frame.bars[to].high == frame.bars[to].high && frame.bars[to].low == frame.bars[to].low;
    assert after.best == s.best || after.best == if trade.side == Long then frame.bars[to].high else frame.bars[to].low;
    assert after.worst == s.worst || after.worst == if trade.side == Long then frame.bars[to].low else frame.bars[to].high;
  }

  lemma {:induction false} ExtremesRight(frame: Frame, policy: Policy, trade: Trade, offset: Offset, n: nat)
    requires Replayable(frame, trade, offset, n)
    ensures var s, start := StateAfter(frame, policy, trade, offset, n), trade.entryIndex + offset;
            && Extremal(frame, trade, start, start + n, s)
            && s.bars == offset + n
  {
    hide StateAfter, Extremal, Step;
    var start := trade.entryIndex + offset;
    if n == 0 {
      InitialExtremes(frame, policy, trade, offset);
    } else {
      ExtremesRight(frame, policy, trade, offset, n - 1);
      var s := StateAfter(frame, policy, trade, offset, n - 1);
      NextState(frame, policy, trade, offset, n);
      ExtremesExtend(frame, trade, start, start + n - 1, s);
      StepExtremes(frame, policy, trade, start, s, start + n - 1);
    }
  }

  lemma InitialExtremes(frame: Frame, policy: Policy, trade: Trade, offset: Offset)
    requires Replayable(frame, trade, offset, 0)
    ensures var s, start := StateAfter(frame, policy, trade, offset, 0), trade.entryIndex + offset;
            Extremal(frame, trade, start, start, s) && s.bars == offset
  {
  }

  lemma StepExtremes(frame: Frame, policy: Policy, trade: Trade, start: nat, s: State, index: nat)
    requires trade.entryPrice > 0.0 && index < |frame.bars|
    requires Extremal(frame, trade, start, index + 1, Extremes(frame, trade, s, index))
    ensures var after := Step(frame, policy, trade, start, s, index).state;
            Extremal(frame, trade, start, index + 1, after) && after.bars == index - trade.entryIndex + 1
  {
    hide Phased, Stopped, Taken, Armed;
  }

  // -- earlier targets -----------------------------------------------------------------

  /** What a run to an earlier target decides and reports is a prefix of the longer run. */
  lemma {:induction false} EarlierIsPrefix(frame: Frame, policy: Policy, trade: Trade, offset: Offset, m: nat, n: nat)
    requires Replayable(frame, trade, offset, n) && m <= n
    ensures var short, long := Replay(frame, policy, trade, offset, m), Replay(frame, policy, trade, offset, n);
            && |short.decisions| == m && |long.decisions| == n
            && short.decisions <= long.decisions && short.events <= long.events
  {
    hide OneMoreBar;
    if n > 0 {
      ReplayUnfolds(frame, policy, trade, offset, n);
      var start := trade.entryIndex + offset;
      BarAppends(frame, policy, trade, start, Replay(frame, policy, trade, offset, n - 1), start + n - 1);
      if m < n {
        EarlierIsPrefix(frame, policy, trade, offset, m, n - 1);
      } else {
        EarlierIsPrefix(frame, policy, trade, offset, n - 1, n - 1);
      }
    }
  }

  lemma BarAppends(frame: Frame, policy: Policy, trade: Trade, start: nat, run: Run, index: nat)
    requires trade.entryPrice > 0.0 && index < |frame.bars|
    ensures var next := OneMoreBar(frame, policy, trade, start, run, index);
            && |next.decisions| == |run.decisions| + 1
            && run.decisions <= next.decisions && run.events <= next.events
  {
    hide Step;
  }
}
