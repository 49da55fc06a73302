/** What one more bar of a managed replay decides, said about the run itself: in prices, phases and column
    values, without the stages that compute it. */
module ReplayMeaning {
  import opened NodeProgram
  import opened EpisodeTables
  import opened ManagedPolicy
  import opened CompositeFold
  import opened ManagedReplay
  import opened ReplaySafety
  import M = PolicyMeaning

  /** The bar the `n`-th evaluation is about. */
  function LastBar(trade: Trade, offset: Offset, n: nat): int {
    trade.entryIndex + offset + n - 1
  }

  // -- phases ------------------------------------------------------------------------------------

  /** The rule's condition holds on a bar. */
  ghost predicate Reached(frame: Frame, trade: Trade, bars: int, best: real, index: int, rule: PhaseRule) {
    exists met :: M.HoldsBy(frame, trade, bars, best, index, rule.condition, met)
  }

  /** The highest of a phase and of the targets whose condition holds. */
  ghost predicate Highest(
    frame: Frame, trade: Trade, bars: int, best: real, index: int, rules: seq<PhaseRule>, before: Phase, after: Phase)
  {
    && Rank(after) >= Rank(before)
    && (forall k | 0 <= k < |rules| && Reached(frame, trade, bars, best, index, rules[k]) ::
          Rank(after) >= Rank(rules[k].toPhase))
    && (after == before || exists k :: 0 <= k < |rules| && Reached(frame, trade, bars, best, index, rules[k])
                                       && after == rules[k].toPhase)
  }

  lemma {:induction false} PhasedIsHighest(
    frame: Frame, trade: Trade, m: Metrics, index: nat, rules: seq<PhaseRule>, p: Phasing)
    requires trade.entryPrice > 0.0
    ensures Highest(frame, trade, m.barsInTrade, m.best, index, rules, p.phase,
                    Phased(frame, trade, m, index, rules, p).phase)
  {
    hide M.HoldsBy, ConditionMet;
    if |rules| > 0 {
      var n := |rules| - 1;
      PhasedIsHighest(frame, trade, m, index, rules[..n], p);
      M.ConditionIs(frame, trade, m, index, rules[n].condition);
      assert forall k | 0 <= k < n :: rules[..n][k] == rules[k];
      var met := ConditionMet(frame, trade, m, index, rules[n].condition);
      assert Reached(frame, trade, m.barsInTrade, m.best, index, rules[n]) <==> !met.Unmet?;
      RanksDiffer();
    }
  }

  lemma RanksDiffer()
    ensures forall a: Phase, b: Phase | Rank(a) == Rank(b) :: a == b
  {
  }

  /** The five phases in order. */
  lemma PhaseOrder()
    ensures Rank(InitialRisk) < Rank(Proven) < Rank(Protected) < Rank(Runner) < Rank(Exhaustion)
  {
  }

  /** The phase after a bar is the highest of the phase before it and the targets of all rules whose condition
      holds on the bar, in whatever order the rules are declared. */
  lemma PhaseMeans(frame: Frame, policy: Policy, trade: Trade, offset: Offset, n: nat)
    requires Replayable(frame, trade, offset, n) && n > 0
    ensures var before, after := StateAfter(frame, policy, trade, offset, n - 1), StateAfter(frame, policy, trade, offset, n);
            Highest(frame, trade, after.bars, after.best, LastBar(trade, offset, n), policy.phases,
                    before.phase, after.phase)
  {
    hide StateAfter, Step, Highest, Phased;
    var before, index := StateAfter(frame, policy, trade, offset, n - 1), LastBar(trade, offset, n);
    NextState(frame, policy, trade, offset, n);
    StepParts(frame, policy, trade, trade.entryIndex + offset, before, index);
    var moved := Extremes(frame, trade, before, index);
    PhasedIsHighest(frame, trade, MetricsOf(moved), index, policy.phases, Phasing(before.phase, before.maxPhase, []));
  }

  /** The parts of a step. */
  lemma StepParts(frame: Frame, policy: Policy, trade: Trade, start: nat, s: State, index: nat)
    requires trade.entryPrice > 0.0 && index < |frame.bars|
    ensures var after, moved := Step(frame, policy, trade, start, s, index).state, Extremes(frame, trade, s, index);
            && after.bars == moved.bars && after.best == moved.best && after.worst == moved.worst
            && after.phase == Phased(frame, trade, MetricsOf(moved), index, policy.phases,
                                     Phasing(s.phase, s.maxPhase, [])).phase
            && (var stops := Stopped(frame, trade, after.best, index, after.phase, policy.stops,
                                     Stopping(s.stop, s.stopRule, []));
                after.stop == stops.stop && after.stopRule == stops.stopRule)
            && (var takes := Taken(index, after.phase, policy.takes, Taking(s.profile, s.takeRule, []));
                after.profile == takes.profile && after.takeRule == takes.takeRule)
            && after.exits == Armed(frame, trade.side, start, index, after.phase, policy.runtimes)
  {
    hide Phased, Stopped, Taken, Armed;
  }

  // -- stops --------------------------------------------------------------------------------------

  /** The `k`-th stop rule is in force in the phase and offers this price. */
  ghost predicate OffersAt(
    frame: Frame, trade: Trade, best: real, index: int, phase: Phase, rules: seq<StopRule>, k: nat, price: real)
  {
    && k < |rules| && Rank(phase) >= Rank(rules[k].activation)
    && M.Offers(frame, trade, best, index, rules[k].action, price)
  }

  ghost predicate Offered(
    frame: Frame, trade: Trade, best: real, index: int, phase: Phase, rules: seq<StopRule>, price: real)
  {
    exists k :: 0 <= k < |rules| && OffersAt(frame, trade, best, index, phase, rules, k, price)
  }

  ghost predicate IsOffer(
    frame: Frame, trade: Trade, best: real, index: int, phase: Phase, rules: seq<StopRule>, k: int, p: Proposal)
  {
    0 <= k < |rules| && p.ruleId == rules[k].id && OffersAt(frame, trade, best, index, phase, rules, k, p.price)
  }

  /** Every proposal is an offer, and every price on offer is proposed. */
  ghost predicate AllOffers(
    frame: Frame, trade: Trade, best: real, index: int, phase: Phase, rules: seq<StopRule>, ps: seq<Proposal>)
  {
    && (forall p | p in ps :: exists k :: IsOffer(frame, trade, best, index, phase, rules, k, p))
    && forall price | Offered(frame, trade, best, index, phase, rules, price) :: exists p :: p in ps && p.price == price
  }

  lemma {:induction false} ProposalsAre(
    frame: Frame, trade: Trade, best: real, index: nat, phase: Phase, rules: seq<StopRule>)
    ensures AllOffers(frame, trade, best, index, phase, rules, Proposals(frame, trade, best, index, phase, rules))
  {
    hide M.Offers, Candidate, AllOffers;
    if |rules| == 0 {
      NoOffers(frame, trade, best, index, phase, rules);
    } else {
      var n := |rules| - 1;
      ProposalsAre(frame, trade, best, index, phase, rules[..n]);
      M.OffersIs(frame, trade, best, index, rules[n].action);
      OffersMore(frame, trade, best, index, phase, rules, Proposals(frame, trade, best, index, phase, rules[..n]),
                 Candidate(frame, trade, best, index, rules[n].action));
    }
  }

  lemma NoOffers(frame: Frame, trade: Trade, best: real, index: nat, phase: Phase, rules: seq<StopRule>)
    requires |rules| == 0
    ensures AllOffers(frame, trade, best, index, phase, rules, [])
  {
  }

  lemma OffersMore(
    frame: Frame, trade: Trade, best: real, index: nat, phase: Phase, rules: seq<StopRule>, earlier: seq<Proposal>,
    price: Option<real>)
    requires |rules| > 0 && AllOffers(frame, trade, best, index, phase, rules[..|rules| - 1], earlier)
    requires var action := rules[|rules| - 1].action;
             if price.Some? then forall other :: M.Offers(frame, trade, best, index, action, other) <==> other == price.value
             else forall other :: !M.Offers(frame, trade, best, index, action, other)
    ensures var last := rules[|rules| - 1];
            AllOffers(frame, trade, best, index, phase, rules,
                      if price.Some? && AtLeastPhase(phase, last.activation)
                      then earlier + [Proposal(price.value, last.id)] else earlier)
  {
    hide M.Offers;
    var n := |rules| - 1;
    var last := rules[n];
    var ps := if price.Some? && AtLeastPhase(phase, last.activation) then earlier + [Proposal(price.value, last.id)] else earlier;
    forall p | p in ps ensures exists k :: IsOffer(frame, trade, best, index, phase, rules, k, p) {
      if p in earlier {
        var k :| IsOffer(frame, trade, best, index, phase, rules[..n], k, p);
        assert IsOffer(frame, trade, best, index, phase, rules, k, p);
      } else {
        assert IsOffer(frame, trade, best, index, phase, rules, n, p);
      }
    }
    forall other | Offered(frame, trade, best, index, phase, rules, other) ensures exists p :: p in ps && p.price == other {
      var k :| 0 <= k < |rules| && OffersAt(frame, trade, best, index, phase, rules, k, other);
      if k < n {
        assert OffersAt(frame, trade, best, index, phase, rules[..n], k, other);
        assert Offered(frame, trade, best, index, phase, rules[..n], other);
        var p :| p in earlier && p.price == other;
        assert p in ps;
      } else {
        assert Proposal(price.value, last.id) in ps;
      }
    }
  }

  /** How much tighter `to` is than `from`. */
  function Tightening(side: Side, from: real, to: real): real {
    if side == Long then to - from else from - to
  }

  lemma {:induction false} TightestIsOne(side: Side, ps: seq<Proposal>)
    requires |ps| > 0
    ensures Tightest(side, ps) in ps
    ensures forall p | p in ps :: Tightening(side, p.price, Tightest(side, ps).price) >= 0.0
  {
    if |ps| > 1 {
      var most := ps[..|ps| - 1];
      TightestIsOne(side, most);
      assert ps == most + [ps[|ps| - 1]];
    }
  }

  /** The `k`-th rule offers the price, and every rule before it that offers anything offers a looser one. */
  ghost predicate FirstOffer(
    frame: Frame, trade: Trade, best: real, index: int, phase: Phase, rules: seq<StopRule>, k: nat, price: real)
  {
    && OffersAt(frame, trade, best, index, phase, rules, k, price)
    && forall j, other | 0 <= j < k && OffersAt(frame, trade, best, index, phase, rules, j, other) ::
         Tightening(trade.side, other, price) > 0.0
  }

  ghost predicate FirstOffered(
    frame: Frame, trade: Trade, best: real, index: int, phase: Phase, rules: seq<StopRule>, p: Proposal)
  {
    exists k :: 0 <= k < |rules| && rules[k].id == p.ruleId && FirstOffer(frame, trade, best, index, phase, rules, k, p.price)
  }

  /** The chosen proposal is the first one of its tightness. */
  lemma {:induction false} TightestIsFirst(
    frame: Frame, trade: Trade, best: real, index: nat, phase: Phase, rules: seq<StopRule>)
    ensures var ps := Proposals(frame, trade, best, index, phase, rules);
            |ps| > 0 ==> FirstOffered(frame, trade, best, index, phase, rules, Tightest(trade.side, ps))
  {
    hide Candidate, FirstOffered, Tightest;
    if |rules| > 0 {
      var n := |rules| - 1;
      var earlier, ps := Proposals(frame, trade, best, index, phase, rules[..n]),
                         Proposals(frame, trade, best, index, phase, rules);
      TightestIsFirst(frame, trade, best, index, phase, rules[..n]);
      if |ps| == |earlier| {
        if |ps| > 0 {
          FirstStays(frame, trade, best, index, phase, rules, Tightest(trade.side, earlier));
        }
      } else {
        assert ps[..|ps| - 1] == earlier;
        ProposalsAre(frame, trade, best, index, phase, rules[..n]);
        LastOffers(frame, trade, best, index, phase, rules);
        NextIsFirst(frame, trade, best, index, phase, rules, earlier, ps);
      }
    }
  }

  /** One more proposal: it is chosen only if it is strictly tighter. */
  lemma NextIsFirst(
    frame: Frame, trade: Trade, best: real, index: int, phase: Phase, rules: seq<StopRule>,
    earlier: seq<Proposal>, ps: seq<Proposal>)
    requires |rules| > 0 && AllOffers(frame, trade, best, index, phase, rules[..|rules| - 1], earlier)
    requires |ps| == |earlier| + 1 && ps[..|ps| - 1] == earlier
    requires |earlier| > 0 ==> FirstOffered(frame, trade, best, index, phase, rules[..|rules| - 1], Tightest(trade.side, earlier))
    requires ps[|earlier|].ruleId == rules[|rules| - 1].id
    requires OffersAt(frame, trade, best, index, phase, rules, |rules| - 1, ps[|earlier|].price)
    ensures FirstOffered(frame, trade, best, index, phase, rules, Tightest(trade.side, ps))
  {
    hide AllOffers, FirstOffered, OffersAt;
    var last := ps[|earlier|];
    if |earlier| == 0 {
      LastIsFirst(frame, trade, best, index, phase, rules, earlier, last);
    } else {
      TightestIsOne(trade.side, earlier);
      if Tighter(trade.side, last.price, Tightest(trade.side, earlier).price) {
        LastIsFirst(frame, trade, best, index, phase, rules, earlier, last);
      } else {
        FirstStays(frame, trade, best, index, phase, rules, Tightest(trade.side, earlier));
      }
    }
  }

  lemma LastOffers(frame: Frame, trade: Trade, best: real, index: nat, phase: Phase, rules: seq<StopRule>)
    requires |rules| > 0
    requires |Proposals(frame, trade, best, index, phase, rules)|
           > |Proposals(frame, trade, best, index, phase, rules[..|rules| - 1])|
    ensures var ps, n := Proposals(frame, trade, best, index, phase, rules), |rules| - 1;
            ps[|ps| - 1].ruleId == rules[n].id && OffersAt(frame, trade, best, index, phase, rules, n, ps[|ps| - 1].price)
  {
    hide M.Offers, Candidate;
    M.OffersIs(frame, trade, best, index, rules[|rules| - 1].action);
  }

  lemma FirstStays(
    frame: Frame, trade: Trade, best: real, index: int, phase: Phase, rules: seq<StopRule>, p: Proposal)
    requires |rules| > 0 && FirstOffered(frame, trade, best, index, phase, rules[..|rules| - 1], p)
    ensures FirstOffered(frame, trade, best, index, phase, rules, p)
  {
    hide M.Offers;
    var most := rules[..|rules| - 1];
    var k :| 0 <= k < |most| && most[k].id == p.ruleId && FirstOffer(frame, trade, best, index, phase, most, k, p.price);
    forall j, other | 0 <= j <= k ensures OffersAt(frame, trade, best, index, phase, rules, j, other)
                                     <==> OffersAt(frame, trade, best, index, phase, most, j, other) {
      assert most[j] == rules[j];
    }
    assert FirstOffer(frame, trade, best, index, phase, rules, k, p.price);
  }

  lemma LastIsFirst(
    frame: Frame, trade: Trade, best: real, index: int, phase: Phase, rules: seq<StopRule>, earlier: seq<Proposal>, p: Proposal)
    requires |rules| > 0 && AllOffers(frame, trade, best, index, phase, rules[..|rules| - 1], earlier)
    requires forall q | q in earlier :: Tightening(trade.side, q.price, p.price) > 0.0
    requires p.ruleId == rules[|rules| - 1].id && OffersAt(frame, trade, best, index, phase, rules, |rules| - 1, p.price)
    ensures FirstOffered(frame, trade, best, index, phase, rules, p)
  {
    hide M.Offers;
    var n := |rules| - 1;
    forall j, other | 0 <= j < n && OffersAt(frame, trade, best, index, phase, rules, j, other)
      ensures Tightening(trade.side, other, p.price) > 0.0
    {
      assert OffersAt(frame, trade, best, index, phase, rules[..n], j, other);
      assert Offered(frame, trade, best, index, phase, rules[..n], other);
      var q :| q in earlier && q.price == other;
    }
    assert FirstOffer(frame, trade, best, index, phase, rules, n, p.price);
  }

  /** The stop after a bar. It moves only to a price that a rule in force offers, more than 0.00000001 tighter
      than the stop so far and the tightest on offer, and the move is attributed to the first rule that offers
      it; and no offer is left more than 0.00000001 tighter than the stop. So it stays where nothing is offered, and
      takes the tightest offer where that is a move. */
  ghost predicate StopMoves(
    frame: Frame, policy: Policy, trade: Trade, index: int, before: State, after: State)
  {
    && (after.stop != before.stop ==>
          && after.stop.Some? && after.stopRule.Some?
          && (before.stop.Some? ==> Tightening(trade.side, before.stop.value, after.stop.value) > 0.00000001)
          && FirstOffered(frame, trade, after.best, index, after.phase, policy.stops,
                          Proposal(after.stop.value, after.stopRule.value))
          && forall price | Offered(frame, trade, after.best, index, after.phase, policy.stops, price) ::
               Tightening(trade.side, price, after.stop.value) >= 0.0)
    && (forall price | Offered(frame, trade, after.best, index, after.phase, policy.stops, price) ::
          after.stop.Some? && Tightening(trade.side, after.stop.value, price) <= 0.00000001)
  }

  lemma StopMeans(frame: Frame, policy: Policy, trade: Trade, offset: Offset, n: nat)
    requires Replayable(frame, trade, offset, n) && n > 0
    ensures StopMoves(frame, policy, trade, LastBar(trade, offset, n),
                      StateAfter(frame, policy, trade, offset, n - 1), StateAfter(frame, policy, trade, offset, n))
  {
    hide StateAfter, Step, Proposals, OffersAt, Offered, FirstOffered, Tightest;
    var before, after, index := StateAfter(frame, policy, trade, offset, n - 1),
                                StateAfter(frame, policy, trade, offset, n), LastBar(trade, offset, n);
    NextState(frame, policy, trade, offset, n);
    StepParts(frame, policy, trade, trade.entryIndex + offset, before, index);
    ProposalsAre(frame, trade, after.best, index, after.phase, policy.stops);
    var ps := Proposals(frame, trade, after.best, index, after.phase, policy.stops);
    if |ps| > 0 {
      TightestIsOne(trade.side, ps);
      TightestIsFirst(frame, trade, after.best, index, after.phase, policy.stops);
    }
  }

  // -- take profile and runtime exits ---------------------------------------------------------------

  /** The profile a take rule asks for. */
  ghost predicate Asks(action: string, profile: string) {
    && (action == "disable_fixed_tp" ==> profile == "disable_initial_tp")
    && (action == "keep_initial" ==> profile == "initial")
    && (action != "disable_fixed_tp" && action != "keep_initial" ==> profile == action)
  }

  /** Between a profile before the rules and one after them. */
  ghost predicate LastAsks(phase: Phase, rules: seq<TakeRule>, before: string, after: string) {
    || (after == before && forall k | 0 <= k < |rules| :: Rank(phase) < Rank(rules[k].activation))
    || exists k :: 0 <= k < |rules| && LastActive(phase, rules, k) && Asks(rules[k].action, after)
  }

  lemma {:induction false} TakenIsLast(index: nat, phase: Phase, rules: seq<TakeRule>, t: Taking)
    ensures LastAsks(phase, rules, t.profile, Taken(index, phase, rules, t).profile)
  {
    hide Asks, ProfileOf, LastAsks;
    if |rules| == 0 {
      NothingAsks(phase, rules, t.profile);
    } else {
      var n := |rules| - 1;
      TakenIsLast(index, phase, rules[..n], t);
      AsksIs(rules[n].action);
      OneMoreAsks(phase, rules, t.profile, Taken(index, phase, rules[..n], t).profile, Taken(index, phase, rules, t).profile);
    }
  }

  lemma NothingAsks(phase: Phase, rules: seq<TakeRule>, profile: string)
    requires |rules| == 0
    ensures LastAsks(phase, rules, profile, profile)
  {
  }

  lemma OneMoreAsks(phase: Phase, rules: seq<TakeRule>, before: string, middle: string, after: string)
    requires |rules| > 0 && LastAsks(phase, rules[..|rules| - 1], before, middle)
    requires var last := rules[|rules| - 1];
             if Rank(phase) >= Rank(last.activation) then Asks(last.action, after) else after == middle
    ensures LastAsks(phase, rules, before, after)
  {
    hide Asks, Rank, LastActive;
    var n := |rules| - 1;
    assert forall k | 0 <= k < n :: rules[..n][k] == rules[k];
    if Rank(phase) >= Rank(rules[n].activation) {
      LastOfAll(phase, rules);
    } else if k :| 0 <= k < n && LastActive(phase, rules[..n], k) && Asks(rules[..n][k].action, middle) {
      StillLast(phase, rules, k);
    }
  }

  lemma LastOfAll(phase: Phase, rules: seq<TakeRule>)
    requires |rules| > 0 && Rank(phase) >= Rank(rules[|rules| - 1].activation)
    ensures LastActive(phase, rules, |rules| - 1)
  {
    hide Rank;
  }

  lemma StillLast(phase: Phase, rules: seq<TakeRule>, k: nat)
    requires k < |rules| - 1 && Rank(phase) < Rank(rules[|rules| - 1].activation)
    requires LastActive(phase, rules[..|rules| - 1], k)
    ensures LastActive(phase, rules, k)
  {
    hide Rank;
    assert forall j | 0 <= j < |rules| - 1 :: rules[..|rules| - 1][j] == rules[j];
  }

  lemma AsksIs(action: string)
    ensures Asks(action, ProfileOf(action))
  {
  }

  ghost predicate LastActive(phase: Phase, rules: seq<TakeRule>, k: nat) {
    && k < |rules| && Rank(phase) >= Rank(rules[k].activation)
    && forall j | k < j < |rules| :: Rank(phase) < Rank(rules[j].activation)
  }

  /** The take profile after a bar is what the last rule in force asks for, unchanged if none is. */
  lemma TakeMeans(frame: Frame, policy: Policy, trade: Trade, offset: Offset, n: nat)
    requires Replayable(frame, trade, offset, n) && n > 0
    ensures var before, after := StateAfter(frame, policy, trade, offset, n - 1), StateAfter(frame, policy, trade, offset, n);
            LastAsks(after.phase, policy.takes, before.profile, after.profile)
  {
    hide StateAfter, Step, Taken, LastAsks;
    var before, index := StateAfter(frame, policy, trade, offset, n - 1), LastBar(trade, offset, n);
    NextState(frame, policy, trade, offset, n);
    StepParts(frame, policy, trade, trade.entryIndex + offset, before, index);
    TakenIsLast(index, StateAfter(frame, policy, trade, offset, n).phase, policy.takes,
                Taking(before.profile, before.takeRule, []));
  }

  /** The places of the runtime exits that are in force and fire. */
  ghost function Firing(frame: Frame, side: Side, start: nat, index: int, phase: Phase, rules: seq<RuntimeRule>): set<int>
    requires index >= 0
  {
    set k | 0 <= k < |rules| && Rank(phase) >= Rank(rules[k].activation) && M.Fires(frame, side, start, index, rules[k])
  }

  /** The ids of the rules at these places, each place once. */
  ghost predicate IdsOf(rules: seq<RuntimeRule>, places: set<int>, ids: seq<string>) {
    && |ids| == |places|
    && (forall k | k in places :: 0 <= k < |rules| && rules[k].id in ids)
    && forall id | id in ids :: exists k :: k in places && 0 <= k < |rules| && rules[k].id == id
  }

  lemma {:induction false} ArmedAre(frame: Frame, side: Side, start: nat, index: nat, phase: Phase, rules: seq<RuntimeRule>)
    requires forall k | 0 <= k < |rules| :: rules[k].confirmBars >= 1
    ensures IdsOf(rules, Firing(frame, side, start, index, phase, rules), Armed(frame, side, start, index, phase, rules))
  {
    hide Signals, M.Fires, IdsOf;
    if |rules| == 0 {
      NoIds(rules, Firing(frame, side, start, index, phase, rules));
    } else {
      var n := |rules| - 1;
      ArmedAre(frame, side, start, index, phase, rules[..n]);
      M.FiresIs(frame, side, start, index, rules[n]);
      var firing, earlier := Firing(frame, side, start, index, phase, rules), Firing(frame, side, start, index, phase, rules[..n]);
      assert forall k | 0 <= k < n :: rules[..n][k] == rules[k];
      assert n !in earlier && firing == if n in firing then earlier + {n} else earlier;
      MoreIds(rules, earlier, Armed(frame, side, start, index, phase, rules[..n]), n in firing);
    }
  }

  lemma NoIds(rules: seq<RuntimeRule>, places: set<int>)
    requires |rules| == 0 && places == {}
    ensures IdsOf(rules, places, [])
  {
  }

  lemma MoreIds(rules: seq<RuntimeRule>, places: set<int>, ids: seq<string>, last: bool)
    requires |rules| > 0 && IdsOf(rules[..|rules| - 1], places, ids)
    ensures var n := |rules| - 1;
            IdsOf(rules, if last then places + {n} else places, if last then ids + [rules[n].id] else ids)
  {
    var n := |rules| - 1;
    assert forall k | 0 <= k < n :: rules[..n][k] == rules[k];
    assert n !in places;
    var all, more := if last then ids + [rules[n].id] else ids, if last then places + {n} else places;
    forall id | id in all ensures exists k :: k in more && 0 <= k < |rules| && rules[k].id == id {
      if id in ids {
        var k :| k in places && 0 <= k < n && rules[..n][k].id == id;
        assert k in more;
      } else {
        assert n in more;
      }
    }
  }

  /** The runtime exits armed on a bar are those in force that fire, each once. */
  lemma ExitMeans(frame: Frame, policy: Policy, trade: Trade, offset: Offset, n: nat)
    requires Replayable(frame, trade, offset, n) && n > 0 && PolicyParsed(frame, policy)
    ensures var after := StateAfter(frame, policy, trade, offset, n);
            var firing := Firing(frame, trade.side, trade.entryIndex + offset, LastBar(trade, offset, n), after.phase, policy.runtimes);
            IdsOf(policy.runtimes, firing, after.exits)
  {
    hide StateAfter, Step, Armed, Firing, IdsOf;
    var before, index := StateAfter(frame, policy, trade, offset, n - 1), LastBar(trade, offset, n);
    NextState(frame, policy, trade, offset, n);
    StepParts(frame, policy, trade, trade.entryIndex + offset, before, index);
    ArmedAre(frame, trade.side, trade.entryIndex + offset, index, StateAfter(frame, policy, trade, offset, n).phase,
             policy.runtimes);
  }

  // -- the run --------------------------------------------------------------------------------------

  /** A decision records the state its bar ends in. */
  ghost predicate Records(d: Decision, bar: int, s: State) {
    && d.bar == bar && d.phase == s.phase && d.bars == s.bars && d.best == s.best && d.worst == s.worst
    && d.stop == s.stop && d.profile == s.profile && d.exits == s.exits
  }

  /** Evaluation starts in the initial phase with the entry price as both extremes and the initial stop, and
      every decision of a run is the state after so many bars. */
  lemma {:induction false} DecisionsMean(frame: Frame, policy: Policy, trade: Trade, offset: Offset, n: nat)
    requires Replayable(frame, trade, offset, n)
    ensures var s := StateAfter(frame, policy, trade, offset, 0);
            && s.phase == InitialRisk && s.best == s.worst == trade.entryPrice && s.stop == trade.initialStop
            && s.profile == "initial" && s.exits == []
    ensures var run := Replay(frame, policy, trade, offset, n);
            && |run.decisions| == n
            && forall k | 0 <= k < n ::
                 Records(run.decisions[k], LastBar(trade, offset, k + 1), StateAfter(frame, policy, trade, offset, k + 1))
  {
    hide OneMoreBar;
    if n > 0 {
      DecisionsMean(frame, policy, trade, offset, n - 1);
      ReplayUnfolds(frame, policy, trade, offset, n);
      var start := trade.entryIndex + offset;
      LastDecision(frame, policy, trade, start, Replay(frame, policy, trade, offset, n - 1), start + n - 1);
    }
  }

  lemma LastDecision(frame: Frame, policy: Policy, trade: Trade, start: nat, run: Run, index: nat)
    requires trade.entryPrice > 0.0 && index < |frame.bars|
    ensures var next := OneMoreBar(frame, policy, trade, start, run, index);
            && |next.decisions| == |run.decisions| + 1 && run.decisions <= next.decisions
            && Records(next.decisions[|run.decisions|], index, next.state)
  {
    hide Step;
  }
}
