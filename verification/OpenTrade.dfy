/** The projection of an open trade: the replay strictly after entry, from the plan's entry price and the
    protection on the receipt. */
module OpenTrade {
  import opened NodeProgram
  import opened EpisodeTables
  import opened ManagedPolicy
  import opened CompositeFold
  import opened ManagedReplay
  import opened ReplaySafety

  datatype OpenTradeProjection = OpenTradeProjection(run: Run, desiredStop: real, desiredTake: Option<real>)

  /** Until some rule moves it, the stop is the receipt's. */
  lemma {:induction false} UnmovedStop(frame: Frame, policy: Policy, trade: Trade, offset: Offset, n: nat)
    requires Replayable(frame, trade, offset, n)
    ensures var s := StateAfter(frame, policy, trade, offset, n);
            if s.stopRule.None? then s.stop == trade.initialStop else s.stop.Some?
  {
    hide StateAfter, Step;
    if n == 0 {
      FirstState(frame, policy, trade, offset);
    } else {
      UnmovedStop(frame, policy, trade, offset, n - 1);
      NextState(frame, policy, trade, offset, n);
      StepMovesBoth(frame, policy, trade, trade.entryIndex + offset, StateAfter(frame, policy, trade, offset, n - 1),
                    trade.entryIndex + offset + n - 1);
    }
  }

  lemma FirstState(frame: Frame, policy: Policy, trade: Trade, offset: Offset)
    requires Replayable(frame, trade, offset, 0)
    ensures StateAfter(frame, policy, trade, offset, 0) == Initial(trade, offset)
  {
  }

  /** A step leaves the stop and its attribution alone, or sets both. */
  lemma StepMovesBoth(frame: Frame, policy: Policy, trade: Trade, start: nat, s: State, index: nat)
    requires trade.entryPrice > 0.0 && index < |frame.bars|
    ensures var after := Step(frame, policy, trade, start, s, index).state;
            (after.stop == s.stop && after.stopRule == s.stopRule) || (after.stop.Some? && after.stopRule.Some?)
  {
    hide Phased, Taken, Armed, Proposals;
  }

  /** An open trade's desired protection: refused where the replay or the receipt is unusable; otherwise the
      replay from the bar after entry, a stop that is never looser than the receipt's and is exactly the
      receipt's until a rule moves it, and the receipt's take unless the policy disabled it. */
  method StartAfterEntry(
    frame: Frame, policy: Policy, side: Side, entryIndex: nat, plannedEntry: real,
    initialStop: real, initialTake: real, target: int)
    returns (r: Option<OpenTradeProjection>)
    requires Aligned(frame) && PolicyParsed(frame, policy)
    ensures r.Some? <==> initialStop > 0.0 && initialTake > 0.0 && plannedEntry > 0.0 && entryIndex <= target < |frame.bars|
    ensures r.Some? ==>
              var trade := Trade(side, entryIndex, plannedEntry, Some(initialStop));
              var state := r.value.run.state;
              && r.value.run == Replay(frame, policy, trade, 1, target - entryIndex)
              && state.stop == Some(r.value.desiredStop)
              && AsTight(side, Some(r.value.desiredStop), Some(initialStop))
              && (state.stopRule.None? ==> r.value.desiredStop == initialStop)
              && r.value.desiredTake == (if state.profile == "disable_initial_tp" then None else Some(initialTake))
  {
    hide OneMoreBar, PolicyParsed, Aligned;
    if initialStop <= 0.0 || initialTake <= 0.0 {
      return None;
    }
    var trade := Trade(side, entryIndex, plannedEntry, Some(initialStop));
    var run := ReplayTrade(frame, policy, trade, 1, target);
    if run.None? {
      return None;
    }
    var state := run.value.state;
    UnmovedStop(frame, policy, trade, 1, target - entryIndex);
    StopTightens(frame, policy, trade, 1, 0, target - entryIndex);
    FirstState(frame, policy, trade, 1);
    var stop := if state.stopRule.None? then initialStop else state.stop.value;
    r := Some(OpenTradeProjection(run.value, stop,
      if state.profile == "disable_initial_tp" then None else Some(initialTake)));
  }
}
