/** The whole execution projection of an evaluated exit policy: entry opportunities and signal exits are exactly
    what the declared rules say, on every bar. */
module ExitProjection {
  import opened NodeProgram
  import opened EpisodeTables
  import opened ExitNodes
  import opened ExitPolicy
  import opened ExitAttribution
  import opened ExitTheorems

  // -- what the evaluation holds -----------------------------------------------------------

  /** The evaluation is assembled from the rules' own contributions. */
  lemma EvaluatedParts(market: Market, policy: Policy, vs: seq<RuleValue>, e: Evaluation)
    requires Evaluated(market, policy, vs, e)
    ensures var size, t := |market.close|, Filled(policy.sides, policy.rules, vs);
            && Matching(policy.rules, vs, size) && Complete(t, policy.rules, size)
            && var profiles := Profiles(market, policy);
               && |profiles.long| == |profiles.short| == size
               && e == Assembled(profiles, t, policy.rules, size)
  {
    FilledComplete(policy.sides, policy.rules, vs, |market.close|);
  }

  /** On every bar and side the selected ratios are the least in force, and readiness is what the rules in
      force need. */
  lemma PolicyBar(market: Market, policy: Policy, vs: seq<RuleValue>, e: Evaluation, side: Side, i: nat)
    requires Evaluated(market, policy, vs, e) && DistinctIds(policy.rules) && i < |market.close|
    ensures Matching(policy.rules, vs, |market.close|)
    ensures Sides(e, side, |market.close|)
    ensures BarExact(policy.rules, vs, |market.close|, e.profile.At(side)[i], i,
                     e.stopRatio.At(side)[i], e.takeRatio.At(side)[i], e.ready.At(side)[i])
  {
    hide Filled, Complete, BarExact, ProfileOf, ProfileReady, Contributions, Evaluated;
    EvaluatedParts(market, policy, vs, e);
    var size, t := |market.close|, Filled(policy.sides, policy.rules, vs);
    var profile := e.profile.At(side)[i];
    ProfileExact(policy.sides, policy.rules, vs, size, profile, i);
    var s := AllProfiles(t, policy.rules, size);
    assert SizedProfile(s.At(Aligned), size) && SizedProfile(s.At(Countertrend), size) && SizedProfile(s.At(Neutral), size);
    assert e.stopRatio.At(side)[i] == StopRatios(s).At(profile)[i] == s.At(profile).stopRatio[i];
    assert e.takeRatio.At(side)[i] == ExitPolicy.TakeRatios(s).At(profile)[i] == s.At(profile).takeRatio[i];
    assert e.ready.At(side)[i] == AllReady(t, policy.rules, size).At(profile)[i];
  }

  ghost predicate Sides(e: Evaluation, side: Side, size: nat) {
    && |e.profile.At(side)| == |e.ready.At(side)| == size
    && |e.stopRatio.At(side)| == |e.takeRatio.At(side)| == size
  }

  // -- entry opportunities -----------------------------------------------------------------

  /** No leg without a rule of its kind in force; otherwise the least ratio, attributed to the first declared
      rule behind it. */
  ghost predicate LegExact(
    leg: Option<Leg>, rules: seq<Placed>, vs: seq<RuleValue>, size: nat, kind: ExitKind, profile: Profile, i: nat)
    requires Matching(rules, vs, size) && i < size && kind != Signal
  {
    if !Configured(rules, profile, kind) then leg == None else
    && leg.Some? && IsLeast(RatiosInForce(rules, vs, size, profile, kind, i), Some(leg.value.ratio))
    && exists k :: && IsFirstRule(rules, vs, kind, profile, i, leg.value.ratio, k)
                   && leg.value.attribution == RuleAttribution(rules[k])
  }

  ghost predicate ExactOpportunity(
    o: Opportunity, rules: seq<Placed>, vs: seq<RuleValue>, size: nat, side: Side, profile: Profile, i: nat)
    requires Matching(rules, vs, size) && i < size
  {
    && o.bar == i && o.side == side && o.profile == profile
    && LegExact(o.stop, rules, vs, size, StopLoss, profile, i)
    && LegExact(o.take, rules, vs, size, TakeProfit, profile, i)
    && TakesPresent(rules, vs, profile, i)
    && o.takes == SortLegs(DeclaredLegs(rules, vs, profile, i))
  }

  lemma ExactLeg(
    sides: set<Side>, rules: seq<Placed>, vs: seq<RuleValue>, size: nat, kind: ExitKind, profile: Profile, i: nat,
    ratio: Option<real>)
    requires Matching(rules, vs, size) && i < size && kind != Signal
    requires IsLeast(RatiosInForce(rules, vs, size, profile, kind, i), ratio)
    requires Configured(rules, profile, kind) ==> ratio.Some?
    ensures var leg := LegFor(Filled(sides, rules, vs).evidence, kind, profile, i, ratio);
            leg.Value? && LegExact(leg.value, rules, vs, size, kind, profile, i)
  {
    LegTotal(sides, rules, vs, size, kind, profile, i, ratio);
    PresentIsConfigured(rules, vs, size, kind, profile, i, ratio);
  }

  lemma PresentIsConfigured(
    rules: seq<Placed>, vs: seq<RuleValue>, size: nat, kind: ExitKind, profile: Profile, i: nat, ratio: Option<real>)
    requires Matching(rules, vs, size) && i < size && kind != Signal
    requires IsLeast(RatiosInForce(rules, vs, size, profile, kind, i), ratio)
    ensures ratio.Some? ==> Configured(rules, profile, kind)
  {
    if ratio.Some? {
      var k :| 0 <= k < |rules| && Reads(rules[k], profile, kind) && vs[k].DistanceValue? && vs[k].ratio[i] == ratio;
    }
  }

  lemma ReadyTakes(rules: seq<Placed>, vs: seq<RuleValue>, size: nat, profile: Profile, i: nat)
    requires Matching(rules, vs, size) && i < size && RatiosPresent(rules, vs, size, profile, i)
    ensures TakesPresent(rules, vs, profile, i)
  {
    forall k | 0 <= k < |rules| && Reads(rules[k], profile, PartialTake) ensures TakePresent(rules[k], vs[k], i) {
      assert RuleHead(rules[k].rule).None? && Fits(vs[k], rules[k].rule, size);
    }
  }

  /** A ready bar always has its opportunity, with all its legs attributed. */
  lemma OpportunityExact(market: Market, policy: Policy, vs: seq<RuleValue>, e: Evaluation, side: Side, i: nat)
    requires Evaluated(market, policy, vs, e) && DistinctIds(policy.rules) && i < |market.close|
    requires Matching(policy.rules, vs, |market.close|) && Sides(e, side, |market.close|) && e.ready.At(side)[i]
    ensures var o := OpportunityAt(e, side, i);
            o.Value? && ExactOpportunity(o.value, policy.rules, vs, |market.close|, side, e.profile.At(side)[i], i)
  {
    hide Filled, Matching, Complete, ProfileOf, ProfileReady, IsLeast, RatiosInForce, Configured, RatiosPresent,
      LegExact, LegFor, TakeLegs, TakesPresent, Contributions, Evaluated;
    EvaluatedParts(market, policy, vs, e);
    PolicyBar(market, policy, vs, e, side, i);
    var size, rules, profile := |market.close|, policy.rules, e.profile.At(side)[i];
    ExactLeg(policy.sides, rules, vs, size, StopLoss, profile, i, e.stopRatio.At(side)[i]);
    ExactLeg(policy.sides, rules, vs, size, TakeProfit, profile, i, e.takeRatio.At(side)[i]);
    ReadyTakes(rules, vs, size, profile, i);
    TakesTotal(policy.sides, rules, vs, size, profile, i);
  }

  /** The opportunities of one side on the first `n` bars: one for each executable bar, in bar order. */
  ghost predicate SideExact(
    os: seq<Opportunity>, e: Evaluation, entries: BySide<seq<bool>>, rules: seq<Placed>, vs: seq<RuleValue>,
    side: Side, size: nat, n: nat)
    requires Matching(rules, vs, size) && n <= size && Sides(e, side, size) && |entries.At(side)| == size
  {
    && (forall k | 0 <= k < |os| ::
          && os[k].bar < n && Executable(e, entries, side, os[k].bar)
          && ExactOpportunity(os[k], rules, vs, size, side, e.profile.At(side)[os[k].bar], os[k].bar))
    && (forall j, k | 0 <= j < k < |os| :: os[j].bar < os[k].bar)
    && (forall i: nat | i < n && Executable(e, entries, side, i) :: exists k :: 0 <= k < |os| && os[k].bar == i)
  }

  lemma {:induction false} SideTotal(
    market: Market, policy: Policy, vs: seq<RuleValue>, e: Evaluation, entries: BySide<seq<bool>>, side: Side, n: nat)
    requires Evaluated(market, policy, vs, e) && DistinctIds(policy.rules) && n <= |market.close|
    requires Matching(policy.rules, vs, |market.close|) && Sides(e, side, |market.close|)
    requires Consistent(e, entries, |market.close|)
    ensures |entries.At(side)| == |market.close|
    ensures var os := SideOpportunities(e, entries, side, |market.close|, n);
            os.Value? && SideExact(os.value, e, entries, policy.rules, vs, side, |market.close|, n)
  {
    hide Evaluated, Matching, OpportunityAt, ExactOpportunity, Sized;
    if n > 0 {
      SideTotal(market, policy, vs, e, entries, side, n - 1);
      var earlier := SideOpportunities(e, entries, side, |market.close|, n - 1).value;
      var os := SideOpportunities(e, entries, side, |market.close|, n);
      if Executable(e, entries, side, n - 1) {
        OpportunityExact(market, policy, vs, e, side, n - 1);
        var o := OpportunityAt(e, side, n - 1).value;
        assert os.value == earlier + [o];
        assert o.bar == n - 1 by { BarOf(o, policy.rules, vs, |market.close|, side, e.profile.At(side)[n - 1], n - 1); }
        SideGrows(earlier, o, e, entries, policy.rules, vs, side, |market.close|, n);
      } else {
        assert SideExact(earlier, e, entries, policy.rules, vs, side, |market.close|, n);
      }
    }
  }

  lemma BarOf(o: Opportunity, rules: seq<Placed>, vs: seq<RuleValue>, size: nat, side: Side, profile: Profile, i: nat)
    requires Matching(rules, vs, size) && i < size && ExactOpportunity(o, rules, vs, size, side, profile, i)
    ensures o.bar == i
  {
  }

  lemma SideGrows(
    earlier: seq<Opportunity>, o: Opportunity, e: Evaluation, entries: BySide<seq<bool>>, rules: seq<Placed>,
    vs: seq<RuleValue>, side: Side, size: nat, n: nat)
    requires Matching(rules, vs, size) && 0 < n <= size && Sides(e, side, size) && |entries.At(side)| == size
    requires SideExact(earlier, e, entries, rules, vs, side, size, n - 1)
    requires Executable(e, entries, side, n - 1) && o.bar == n - 1
    requires ExactOpportunity(o, rules, vs, size, side, e.profile.At(side)[n - 1], n - 1)
    ensures SideExact(earlier + [o], e, entries, rules, vs, side, size, n)
  {
    hide Matching, ExactOpportunity;
    var os := earlier + [o];
    forall i: nat | i < n && Executable(e, entries, side, i) ensures exists k :: 0 <= k < |os| && os[k].bar == i {
      if i == n - 1 {
        assert os[|earlier|].bar == i;
      } else {
        var k :| 0 <= k < |earlier| && earlier[k].bar == i;
        assert os[k].bar == i;
      }
    }
  }

  lemma PolicyConsistent(market: Market, policy: Policy, vs: seq<RuleValue>, e: Evaluation, entries: BySide<seq<bool>>)
    requires Evaluated(market, policy, vs, e)
    requires |entries.long| == |entries.short| == |market.close|
    ensures Consistent(e, entries, |market.close|)
    ensures Matching(policy.rules, vs, |market.close|)
    ensures forall side: Side :: Sides(e, side, |market.close|)
  {
    EvaluatedParts(market, policy, vs, e);
    EvidenceSized(policy.sides, policy.rules, vs, |market.close|);
  }

  lemma {:induction false} EvidenceSized(sides: set<Side>, rules: seq<Placed>, vs: seq<RuleValue>, size: nat)
    requires Matching(rules, vs, size)
    ensures Sized(Filled(sides, rules, vs).evidence, size)
  {
    if |rules| > 0 {
      EvidenceSized(sides, rules[..|rules| - 1], vs[..|rules| - 1], size);
    }
  }

  /** The projection of an evaluated policy never meets an internal inconsistency: it is refused exactly when
      both sides are executable on one bar, and otherwise its opportunities are the executable bars, each leg
      attributed. */
  lemma OpportunitiesExact(
    market: Market, policy: Policy, vs: seq<RuleValue>, e: Evaluation, entries: BySide<seq<bool>>)
    requires Evaluated(market, policy, vs, e) && DistinctIds(policy.rules)
    requires |entries.long| == |entries.short| == |market.close|
    ensures Consistent(e, entries, |market.close|) && Matching(policy.rules, vs, |market.close|)
    ensures forall side: Side :: Sides(e, side, |market.close|)
    ensures var size, r := |market.close|, Opportunities(e, entries, |market.close|);
            && (r.Raised? <==> exists i: nat :: Clash(e, entries, size, i))
            && (r.Raised? ==> r == Raised(SIMULTANEOUS))
            && (r.Value? ==> exists long, short ::
                  && r.value == long + short
                  && SideExact(long, e, entries, policy.rules, vs, Long, size, size)
                  && SideExact(short, e, entries, policy.rules, vs, Short, size, size))
  {
    hide Evaluated, Matching, SideExact, SideOpportunities;
    PolicyConsistent(market, policy, vs, e, entries);
    SideTotal(market, policy, vs, e, entries, Long, |market.close|);
    SideTotal(market, policy, vs, e, entries, Short, |market.close|);
  }

  // -- signal exits ------------------------------------------------------------------------

  ghost predicate RuleFires(p: Placed, v: RuleValue, side: Side, profile: Profile, i: nat) {
    Reads(p, profile, Signal) && v.SignalValue? && i < |v.signal.At(side)| && v.signal.At(side)[i]
  }

  /** The declared signal rules in force that fire for the side on bar `i`. */
  ghost function FiringRules(rules: seq<Placed>, vs: seq<RuleValue>, side: Side, profile: Profile, i: nat): seq<Attribution>
    requires |rules| == |vs|
  {
    if |rules| == 0 then [] else
    var k := |rules| - 1;
    FiringRules(rules[..k], vs[..k], side, profile, i)
    + if RuleFires(rules[k], vs[k], side, profile, i) then [RuleAttribution(rules[k])] else []
  }

  lemma {:induction false} FiringSplits(a: seq<Evidence>, b: seq<Evidence>, side: Side, profile: Profile, i: nat)
    ensures Firing(a + b, side, profile, i) == Firing(a, side, profile, i) + Firing(b, side, profile, i)
  {
    if |b| == 0 {
      assert a + b == a;
    } else {
      var n := |b| - 1;
      assert (a + b)[..|a| + n] == a + b[..n];
      FiringSplits(a, b[..n], side, profile, i);
    }
  }

  lemma FiringOne(e: Evidence, side: Side, profile: Profile, i: nat)
    ensures Firing([e], side, profile, i) == if Fires(e, side, profile, i) then [AttributionOf(e)] else []
    ensures Firing([], side, profile, i) == []
  {
    assert [e][..0] == [];
  }

  /** A side that is not enabled never fires. */
  ghost predicate Quiet(sides: set<Side>, v: RuleValue) {
    v.SignalValue? ==> forall side: Side, i | side !in sides && 0 <= i < |v.signal.At(side)| :: !v.signal.At(side)[i]
  }

  lemma {:induction false} DisabledIsQuiet(market: Market, sides: set<Side>, rules: seq<Placed>)
    requires forall f :: |market.column(f)| == |market.close|
    ensures var r := Contributions(market, sides, rules);
            r.Value? ==> forall k | 0 <= k < |r.value| :: Quiet(sides, r.value[k])
  {
    hide SignalRule, DistanceRule, Fits, RuleHead;
    if |rules| > 0 {
      DisabledIsQuiet(market, sides, rules[..|rules| - 1]);
    }
  }

  lemma RuleFiring(sides: set<Side>, p: Placed, v: RuleValue, size: nat, side: Side, profile: Profile, i: nat)
    requires RuleHead(p.rule).None? && Fits(v, p.rule, size) && Quiet(sides, v)
    ensures Firing(RuleEvidence(sides, p, v), side, profile, i)
            == if RuleFires(p, v, side, profile, i) then [RuleAttribution(p)] else []
  {
    hide Firing;
    if v.SignalValue? {
      var long, short := SignalEvidence(sides, p, v, Long), SignalEvidence(sides, p, v, Short);
      FiringSplits(long, short, side, profile, i);
      if |long| > 0 { FiringOne(long[0], side, profile, i); }
      if |short| > 0 { FiringOne(short[0], side, profile, i); }
      FiringOne(Evidence("", "", Signal, AlwaysOn, None, None, None), side, profile, i);
    } else {
      FiringOne(RuleEvidence(sides, p, v)[0], side, profile, i);
    }
  }

  lemma {:induction false} FiringIsRules(
    sides: set<Side>, rules: seq<Placed>, vs: seq<RuleValue>, size: nat, side: Side, profile: Profile, i: nat)
    requires Matching(rules, vs, size) && forall k | 0 <= k < |vs| :: Quiet(sides, vs[k])
    ensures Firing(Filled(sides, rules, vs).evidence, side, profile, i) == FiringRules(rules, vs, side, profile, i)
  {
    hide RuleEvidence, Quiet, RuleFires, Fires, Fits, RuleHead;
    if |rules| > 0 {
      var n := |rules| - 1;
      var earlier := Filled(sides, rules[..n], vs[..n]);
      assert Matching(rules[..n], vs[..n], size);
      FiringIsRules(sides, rules[..n], vs[..n], size, side, profile, i);
      FiringSplits(earlier.evidence, RuleEvidence(sides, rules[n], vs[n]), side, profile, i);
      RuleFiring(sides, rules[n], vs[n], size, side, profile, i);
    }
  }

  lemma {:induction false} SomeRuleFires(rules: seq<Placed>, vs: seq<RuleValue>, side: Side, profile: Profile, i: nat)
    requires |rules| == |vs|
    ensures FiringRules(rules, vs, side, profile, i) != []
            <==> exists k :: 0 <= k < |rules| && RuleFires(rules[k], vs[k], side, profile, i)
  {
    hide RuleFires;
    if |rules| > 0 {
      var n := |rules| - 1;
      SomeRuleFires(rules[..n], vs[..n], side, profile, i);
      if k :| 0 <= k < n && RuleFires(rules[..n][k], vs[..n][k], side, profile, i) {
        assert RuleFires(rules[k], vs[k], side, profile, i);
      }
      if k :| 0 <= k < n && RuleFires(rules[k], vs[k], side, profile, i) {
        assert RuleFires(rules[..n][k], vs[..n][k], side, profile, i);
      }
    }
  }

  /** A profile's signal fires on a bar exactly when one of its rules does. */
  lemma ProfileSignalFires(sides: set<Side>, rules: seq<Placed>, vs: seq<RuleValue>, size: nat, side: Side, profile: Profile, i: nat)
    requires DistinctIds(rules) && Matching(rules, vs, size) && i < size
    requires Complete(Filled(sides, rules, vs), rules, size)
    ensures var s := ProfileOf(Filled(sides, rules, vs), rules, size, profile);
            |s.signal.At(side)| == size && (s.signal.At(side)[i] <==> FiringRules(rules, vs, side, profile, i) != [])
  {
    hide Filled, Selected, FiringRules;
    var t, ids := Filled(sides, rules, vs), Selected(rules, profile, Signal);
    SelectedFound(t, rules, size, profile, Signal);
    var columns := SideSignals(t, ids, side);
    SomeRuleFires(rules, vs, side, profile, i);
    if k :| 0 <= k < |columns| && columns[k][i] {
      SelectedExact(rules, profile, Signal, ids[k]);
      var j :| 0 <= j < |rules| && Reads(rules[j], profile, Signal) && rules[j].rule.id == ids[k];
      FilledLookup(sides, rules, vs, size, j);
      KindOfValue(rules, vs, size, j);
      assert RuleFires(rules[j], vs[j], side, profile, i);
    }
    if j :| 0 <= j < |rules| && RuleFires(rules[j], vs[j], side, profile, i) {
      FilledLookup(sides, rules, vs, size, j);
      SelectedExact(rules, profile, Signal, rules[j].rule.id);
      var k :| 0 <= k < |ids| && ids[k] == rules[j].rule.id;
      assert columns[k][i];
    }
  }

  /** One event for each bar on which a rule fires, with those rules in declared order. */
  ghost predicate EventsExact(
    events: seq<SignalEvent>, rules: seq<Placed>, vs: seq<RuleValue>, side: Side, profile: Profile, n: nat)
    requires |rules| == |vs|
  {
    && (forall k | 0 <= k < |events| ::
          && events[k].bar < n && events[k].candidates != []
          && events[k].candidates == FiringRules(rules, vs, side, profile, events[k].bar))
    && (forall j, k | 0 <= j < k < |events| :: events[j].bar < events[k].bar)
    && (forall i: nat | i < n && FiringRules(rules, vs, side, profile, i) != [] ::
          exists k :: 0 <= k < |events| && events[k].bar == i)
  }

  lemma {:induction false} EventsTotal(
    evidence: seq<Evidence>, rules: seq<Placed>, vs: seq<RuleValue>, side: Side, profile: Profile, series: seq<bool>, n: nat)
    requires |rules| == |vs| && n <= |series|
    requires forall i: nat | i < |series| ::
               && Firing(evidence, side, profile, i) == FiringRules(rules, vs, side, profile, i)
               && (series[i] <==> FiringRules(rules, vs, side, profile, i) != [])
    ensures var events := EventsUntil(evidence, side, profile, series, n);
            events.Value? && EventsExact(events.value, rules, vs, side, profile, n)
  {
    hide Firing, FiringRules, EventsExact;
    if n == 0 {
      assert EventsExact([], rules, vs, side, profile, 0) by { NoEvents(rules, vs, side, profile); }
    } else {
      EventsTotal(evidence, rules, vs, side, profile, series, n - 1);
      var earlier := EventsUntil(evidence, side, profile, series, n - 1).value;
      if series[n - 1] {
        EventsGrow(earlier, SignalEvent(n - 1, FiringRules(rules, vs, side, profile, n - 1)), rules, vs, side, profile, n);
      } else {
        EventsStay(earlier, rules, vs, side, profile, n);
      }
    }
  }

  lemma NoEvents(rules: seq<Placed>, vs: seq<RuleValue>, side: Side, profile: Profile)
    requires |rules| == |vs|
    ensures EventsExact([], rules, vs, side, profile, 0)
  {
  }

  lemma EventsGrow(
    earlier: seq<SignalEvent>, event: SignalEvent, rules: seq<Placed>, vs: seq<RuleValue>, side: Side, profile: Profile, n: nat)
    requires |rules| == |vs| && n > 0 && EventsExact(earlier, rules, vs, side, profile, n - 1)
    requires event == SignalEvent(n - 1, FiringRules(rules, vs, side, profile, n - 1)) && event.candidates != []
    ensures EventsExact(earlier + [event], rules, vs, side, profile, n)
  {
    hide FiringRules;
    var events := earlier + [event];
    forall i: nat | i < n && FiringRules(rules, vs, side, profile, i) != []
      ensures exists k :: 0 <= k < |events| && events[k].bar == i
    {
      if i == n - 1 {
        assert events[|earlier|].bar == i;
      } else {
        var k :| 0 <= k < |earlier| && earlier[k].bar == i;
        assert events[k].bar == i;
      }
    }
  }

  lemma EventsStay(events: seq<SignalEvent>, rules: seq<Placed>, vs: seq<RuleValue>, side: Side, profile: Profile, n: nat)
    requires |rules| == |vs| && n > 0 && EventsExact(events, rules, vs, side, profile, n - 1)
    requires FiringRules(rules, vs, side, profile, n - 1) == []
    ensures EventsExact(events, rules, vs, side, profile, n)
  {
    hide FiringRules;
  }

  /** Signal exits never meet an inconsistency: for each side and profile, the events are exactly the bars on
      which a rule in force fires, with exactly those rules as candidates. */
  lemma SignalEventsExact(
    market: Market, policy: Policy, vs: seq<RuleValue>, e: Evaluation, side: Side, profile: Profile)
    requires Evaluated(market, policy, vs, e) && DistinctIds(policy.rules)
    ensures var size, series := |market.close|, e.byProfile.At(profile).signal.At(side);
            && |series| == size && |vs| == |policy.rules|
            && var events := EventsUntil(e.evidence, side, profile, series, size);
               events.Value? && EventsExact(events.value, policy.rules, vs, side, profile, size)
  {
    hide Filled, Complete, Contributions, Quiet, ProfileOf, Firing, FiringRules, EventsUntil, EventsExact;
    EvaluatedParts(market, policy, vs, e);
    DisabledIsQuiet(market, policy.sides, policy.rules);
    assert Contributions(market, policy.sides, policy.rules).value == vs;
    assert forall k | 0 <= k < |vs| :: Quiet(policy.sides, vs[k]);
    var size, rules, t := |market.close|, policy.rules, Filled(policy.sides, policy.rules, vs);
    var series := ProfileOf(t, rules, size, profile).signal.At(side);
    assert SizedProfile(AllProfiles(t, rules, size).At(profile), size);
    forall i: nat | i < size
      ensures Firing(t.evidence, side, profile, i) == FiringRules(rules, vs, side, profile, i)
      ensures series[i] <==> FiringRules(rules, vs, side, profile, i) != []
    {
      FiringIsRules(policy.sides, rules, vs, size, side, profile, i);
      ProfileSignalFires(policy.sides, rules, vs, size, side, profile, i);
    }
    EventsTotal(t.evidence, rules, vs, side, profile, series, size);
  }

  // -- why ids must be unique --------------------------------------------------------------

  /** Two stops under one id, in two profiles. */
  function TwoStops(id: string, a: real, b: real): seq<Placed> {
    [Placed(Only(Aligned), Rule(id, "constant_usd_stop_loss", StopComponent(Usd(Some(a))), Some(StopLoss))),
     Placed(Only(Neutral), Rule(id, "constant_usd_stop_loss", StopComponent(Usd(Some(b))), Some(StopLoss)))]
  }

  lemma TwoContributions(market: Market, id: string, a: real, b: real)
    requires id != "" && market.close == [1.0] && Framed(market)
    ensures Contributions(market, {}, TwoStops(id, a, b))
            == Value([DistanceValue([Some(a)], [Some(a)]), DistanceValue([Some(b)], [Some(b)])])
  {
    var rules := TwoStops(id, a, b);
    assert rules[..1][..0] == [];
    var sides: set<Side> := {};
    assert Contributions(market, sides, rules[..1][..0]) == Value([]);
    assert rules[..1][0] == rules[0];
    assert Contribution(market, {}, rules[0].rule).value == DistanceValue([Some(a)], [Some(a)]);
    assert Contribution(market, {}, rules[1].rule).value == DistanceValue([Some(b)], [Some(b)]);
    var none: seq<RuleValue> := [];
    var v, w := DistanceValue([Some(a)], [Some(a)]), DistanceValue([Some(b)], [Some(b)]);
    assert none + [v] == [v] && [v] + [w] == [v, w];
    assert Contribution(market, sides, rules[0].rule) == Value(v) && Contribution(market, sides, rules[1].rule) == Value(w);
    assert Contributions(market, sides, rules[..1]) == Value([v]);
  }

  /** Under a repeated id the dictionary holds the last rule's ratios: the first profile's aggregate is then a
      ratio none of its own rules has, and the leg cannot be attributed. */
  lemma RepeatedIdBreaks(market: Market, id: string, a: real, b: real)
    requires id != "" && market.close == [1.0] && Framed(market) && !CloseEnough(a, b)
    ensures var rules := TwoStops(id, a, b);
            && Contributions(market, {}, rules).Value?
            && var t := Filled({}, rules, Contributions(market, {}, rules).value);
            && Selected(rules, Aligned, StopLoss) == [id] && id in t.ratio && t.ratio[id] == [Some(b)]
            && LegFor(t.evidence, StopLoss, Aligned, 0, Some(b)) == Raised(UNATTRIBUTED)
  {
    hide Contributions;
    TwoContributions(market, id, a, b);
    var rules := TwoStops(id, a, b);
    var vs := [DistanceValue([Some(a)], [Some(a)]), DistanceValue([Some(b)], [Some(b)])];
    var first := rules[..1];
    assert first[..0] == [] && vs[..1][..0] == [];
    assert GroupIds(first, AlwaysOn, StopLoss) == [] && GroupIds(rules, AlwaysOn, StopLoss) == [];
    assert GroupIds(first, Only(Aligned), StopLoss) == [id];
    assert GroupIds(rules, Only(Aligned), StopLoss) == [id];
    var sides: set<Side> := {};
    assert Filled(sides, first[..0], vs[..1][..0]) == NO_TABLES;
    var one := Filled({}, first, vs[..1]);
    assert one == Enter({}, NO_TABLES, first[0], vs[0]);
    var t := Filled({}, rules, vs);
    assert t == Enter({}, one, rules[1], vs[1]);
    assert |t.evidence| == 2;
    assert !Matches(t.evidence[0], StopLoss, Aligned, 0, b) && !Matches(t.evidence[1], StopLoss, Aligned, 0, b);
    assert t.evidence[1..][1..] == [];
    assert FirstMatch(t.evidence[1..], StopLoss, Aligned, 0, b) == FirstMatch([], StopLoss, Aligned, 0, b);
  }
}
