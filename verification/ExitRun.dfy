/** The whole exit policy evaluation over a shared context, from the rules to the selections by profile. */
module ExitRun {
  import opened NodeProgram
  import opened EpisodeTables
  import opened EvaluationContext
  import opened MemoTheorems
  import opened ExitNodes
  import opened ExitPolicy
  import opened ExitTheorems
  import opened ExitIdentity
  import opened ExitTwin
  import opened ExitEvaluation

  // -- aggregates of one profile -----------------------------------------------------------

  /** The disjunction of the signals, one after the other. */
  method OrAll(signals: seq<seq<bool>>, size: nat) returns (output: seq<bool>)
    requires AllSized(signals, size)
    ensures output == AnyOf(signals, size)
  {
    output := seq(size, i => false);
    for k := 0 to |signals|
      invariant |output| == size
      invariant forall i | 0 <= i < size :: output[i] <==> exists j :: 0 <= j < k && signals[j][i]
    {
      output := seq(size, i requires 0 <= i < size => output[i] || signals[k][i]);
    }
  }

  /** The identities of a profile's aggregates, where the policy is memoized. */
  ghost predicate ProfileTwins(
    market: Market, rules: seq<Placed>, ids: RuleIds, t: Tables, profile: Profile, nodes: Option<ProfileNodes>)
  {
    nodes.Some? ==> TablesTwin(market, ids, t) && nodes.value == ProfileNodesOf(ids, rules, profile)
  }

  function ProfileData(s: ProfileSeries): (r: seq<ExitDatum>)
    ensures |r| == 6
  {
    [Flags(s.signal.long), Flags(s.signal.short), Floats(s.stopRatio), Floats(s.takeRatio), Floats(s.stopDistance),
     Floats(s.takeDistance)]
  }

  function FromData(rs: seq<ExitDatum>): ProfileSeries
    requires |rs| == 6 && rs[0].Flags? && rs[1].Flags? && forall k | 2 <= k < 6 :: rs[k].Floats?
  {
    ProfileSeries(BySide(rs[0].flags, rs[1].flags), rs[2].floats, rs[3].floats, rs[4].floats, rs[5].floats)
  }

  /** Every node of the list denotes its value. */
  ghost predicate AllMean(market: Market, ids: Option<seq<ExitNode>>, made: seq<ExitDatum>)
    requires Framed(market)
  {
    ids.Some? ==> |ids.value| == |made| && forall k | 0 <= k < |made| :: Meaning(market, ids.value[k]) == Value(made[k])
  }

  function ListOf(nodes: Option<ProfileNodes>): Option<seq<ExitNode>> {
    if nodes.None? then None else Some(ProfileList(nodes.value))
  }

  lemma AggregateTwins(
    market: Market, rules: seq<Placed>, ids: RuleIds, t: Tables, profile: Profile, nodes: Option<ProfileNodes>)
    requires ProfileTwins(market, rules, ids, t, profile, nodes) && Framed(market)
    requires Complete(t, rules, |market.close|)
    ensures AllMean(market, ListOf(nodes), ProfileData(ProfileOf(t, rules, |market.close|, profile)))
    ensures nodes.Some? ==> Meaning(market, nodes.value.ready) == Value(Flags(ProfileReady(t, rules, |market.close|, profile)))
  {
    hide Meaning, TablesTwin, Selected, SignalSet, DistanceSet, AnyOf, MinOf, Complete;
    if nodes.Some? {
      var size := |market.close|;
      SelectedFound(t, rules, size, profile, Signal);
      SelectedFound(t, rules, size, profile, StopLoss);
      SelectedFound(t, rules, size, profile, TakeProfit);
      SelectedFound(t, rules, size, profile, PartialTake);
      RatiosAndDistances(t, rules, size);
      var stops, takes := Selected(rules, profile, StopLoss), Selected(rules, profile, TakeProfit);
      AnyTwin(market, ids, t, Selected(rules, profile, Signal), Long);
      AnyTwin(market, ids, t, Selected(rules, profile, Signal), Short);
      LeastTwin(market, ids, t, stops, true);
      LeastTwin(market, ids, t, takes, true);
      LeastTwin(market, ids, t, stops, false);
      LeastTwin(market, ids, t, takes, false);
      ReadyTwin(market, ids, t, stops, takes, Selected(rules, profile, PartialTake));
    }
  }

  lemma RatiosAndDistances(t: Tables, rules: seq<Placed>, size: nat)
    requires Complete(t, rules, size)
    ensures t.distance.Keys == t.ratio.Keys
  {
  }

  /** A profile's six aggregates, computed from the dictionaries. */
  method ComputeProfile(t: Tables, rules: seq<Placed>, size: nat, profile: Profile) returns (s: ProfileSeries)
    requires Complete(t, rules, size)
    ensures s == ProfileOf(t, rules, size, profile)
  {
    hide Complete, Selected, MinAt;
    SelectedFound(t, rules, size, profile, Signal);
    SelectedFound(t, rules, size, profile, StopLoss);
    SelectedFound(t, rules, size, profile, TakeProfit);
    SizedColumns(t, rules, size);
    RatiosAndDistances(t, rules, size);
    var signals := Selected(rules, profile, Signal);
    var stops, takes := Selected(rules, profile, StopLoss), Selected(rules, profile, TakeProfit);
    var long := OrAll(SideSignals(t, signals, Long), size);
    var short := OrAll(SideSignals(t, signals, Short), size);
    s := ProfileSeries(
      BySide(long, short), MinOf(Gather(t.ratio, stops), size), MinOf(Gather(t.ratio, takes), size),
      MinOf(Gather(t.distance, stops), size), MinOf(Gather(t.distance, takes), size));
  }

  method EvaluateProfile(
    context: Context<ExitNode, ExitDatum>, market: Market, t: Tables, rules: seq<Placed>, profile: Profile,
    nodes: Option<ProfileNodes>, ghost ids: RuleIds, ghost covered: bool, ghost need: multiset<ExitNode>)
    returns (s: ProfileSeries, ghost calls: multiset<ExitNode>)
    requires Framed(market) && Complete(t, rules, |market.close|)
    requires ProfileTwins(market, rules, ids, t, profile, nodes)
    requires Serving(context.settings, context.State(), market, covered, AskedList(ListOf(nodes)) + need)
    modifies context
    ensures s == ProfileOf(t, rules, |market.close|, profile)
    ensures calls == AskedList(ListOf(nodes))
    ensures Serving(context.settings, context.State(), market, covered, need)
    ensures Elsewhere(context.State()) == old(Elsewhere(context.State()))
  {
    hide Serving, Elsewhere, AllMean, ProfileTwins, Complete, ProfileOf, AskedList, Framed, ListOf;
    AggregateTwins(market, rules, ids, t, profile, nodes);
    var made := ComputeProfile(t, rules, |market.close|, profile);
    var rs;
    rs, calls := ThroughAll(context, ListOf(nodes), ProfileData(made), market, covered, need);
    s := FromData(rs);
  }

  lemma SizedColumns(t: Tables, rules: seq<Placed>, size: nat)
    requires Complete(t, rules, size)
    ensures forall id | id in t.ratio :: id in t.distance && |t.ratio[id]| == |t.distance[id]| == size
    ensures forall id | id in t.signal :: |t.signal[id].long| == |t.signal[id].short| == size
  {
  }

  // -- several nodes in a row --------------------------------------------------------------

  ghost function AskedList(ids: Option<seq<ExitNode>>): multiset<ExitNode> {
    if ids.Some? then multiset(ids.value) else multiset{}
  }

  /** What the list still asks for from `k` on. */
  ghost function AskedFrom(ids: Option<seq<ExitNode>>, k: nat): multiset<ExitNode> {
    if ids.Some? && k <= |ids.value| then multiset(ids.value[k..]) else multiset{}
  }

  lemma AskedNext(ids: Option<seq<ExitNode>>, k: nat, need: multiset<ExitNode>)
    requires ids.Some? ==> k < |ids.value|
    ensures var id := if ids.Some? then Some(ids.value[k]) else None;
            && AskedFrom(ids, k) == Asked(id) + AskedFrom(ids, k + 1)
            && AskedFrom(ids, k) + need == Asked(id) + (AskedFrom(ids, k + 1) + need)
  {
    assert ids.Some? ==> ids.value[k..] == [ids.value[k]] + ids.value[k + 1..];
  }

  lemma AskedEnds(ids: Option<seq<ExitNode>>, size: nat, need: multiset<ExitNode>)
    requires ids.Some? ==> |ids.value| == size
    ensures AskedFrom(ids, 0) == AskedList(ids)
    ensures AskedFrom(ids, size) == multiset{} && AskedFrom(ids, size) + need == need
  {
    assert ids.Some? ==> ids.value[0..] == ids.value;
  }

  /** Values to compute, each under its identity, in order. */
  method ThroughAll(
    context: Context<ExitNode, ExitDatum>, ids: Option<seq<ExitNode>>, made: seq<ExitDatum>,
    ghost market: Market, ghost covered: bool, ghost need: multiset<ExitNode>)
    returns (rs: seq<ExitDatum>, ghost calls: multiset<ExitNode>)
    requires Framed(market) && AllMean(market, ids, made)
    requires Serving(context.settings, context.State(), market, covered, AskedList(ids) + need)
    modifies context
    ensures rs == made && calls == AskedList(ids)
    ensures Serving(context.settings, context.State(), market, covered, need)
    ensures Elsewhere(context.State()) == old(Elsewhere(context.State()))
  {
    hide Serving, Elsewhere, Meaning, Framed, Asked, AskedFrom, AskedList;
    rs, calls := [], multiset{};
    var k := 0;
    AskedEnds(ids, |made|, need);
    while k < |made|
      invariant 0 <= k <= |made| && rs == made[..k]
      invariant calls + AskedFrom(ids, k) == AskedList(ids)
      invariant Serving(context.settings, context.State(), market, covered, AskedFrom(ids, k) + need)
      invariant Elsewhere(context.State()) == old(Elsewhere(context.State()))
    {
      var id := if ids.Some? then Some(ids.value[k]) else None;
      AskedNext(ids, k, need);
      var r;
      ghost var more;
      r, more := Through(context, id, Value(made[k]), market, covered, AskedFrom(ids, k + 1) + need);
      rs, calls := rs + [r.value], calls + more;
      k := k + 1;
    }
  }

  // -- selections --------------------------------------------------------------------------

  /** The ten selections by the bar's profile, in the order they are consumed. */
  ghost function SelectData(e: Evaluation): (r: seq<ExitDatum>)
    ensures |r| == 10
  {
    [Flags(e.signal.long), Flags(e.signal.short), Floats(e.stopRatio.long), Floats(e.stopRatio.short),
     Floats(e.takeRatio.long), Floats(e.takeRatio.short), Floats(e.stopDistance.long), Floats(e.stopDistance.short),
     Floats(e.takeDistance.long), Floats(e.takeDistance.short)]
  }

  ghost function ReadyData(ready: ByProfile<seq<bool>>, e: Evaluation): (r: seq<ExitDatum>)
    ensures |r| == 5
  {
    [Flags(ready.aligned), Flags(ready.countertrend), Flags(ready.neutral), Flags(e.ready.long), Flags(e.ready.short)]
  }

  ghost predicate PolicyTwins(market: Market, policy: Policy, t: Tables, ids: Option<Identity>) {
    ids.Some? ==> TablesTwin(market, ids.value.rules, t) && ids.value == IdentityOf(policy, ids.value.rules)
  }

  ghost function AssembledHere(market: Market, policy: Policy, t: Tables): Evaluation
    requires Framed(market) && Complete(t, policy.rules, |market.close|)
  {
    Assembled(Profiles(market, policy), t, policy.rules, |market.close|)
  }

  function SelectIds(ids: Option<Identity>): Option<seq<ExitNode>> {
    if ids.None? then None else Some(SelectList(ids.value.select))
  }

  function ReadyIds(ids: Option<Identity>): Option<seq<ExitNode>> {
    if ids.None? then None else Some(ReadyList(ids.value))
  }

  function ProfileIds(ids: Option<Identity>, profile: Profile): Option<ProfileNodes> {
    if ids.None? then None else Some(ids.value.byProfile.At(profile))
  }

  lemma ProfileMeans(market: Market, policy: Policy, t: Tables, ids: Option<Identity>, profile: Profile)
    requires Framed(market) && Complete(t, policy.rules, |market.close|) && PolicyTwins(market, policy, t, ids) && ids.Some?
    ensures ProfileTwins(market, policy.rules, ids.value.rules, t, profile, ProfileIds(ids, profile))
    ensures var n, s := ids.value.byProfile.At(profile), ProfileOf(t, policy.rules, |market.close|, profile);
            && SizedProfile(s, |market.close|)
            && Meaning(market, n.signal.long) == Value(Flags(s.signal.long))
            && Meaning(market, n.signal.short) == Value(Flags(s.signal.short))
            && Meaning(market, n.stopRatio) == Value(Floats(s.stopRatio))
            && Meaning(market, n.takeRatio) == Value(Floats(s.takeRatio))
            && Meaning(market, n.stopDistance) == Value(Floats(s.stopDistance))
            && Meaning(market, n.takeDistance) == Value(Floats(s.takeDistance))
            && Meaning(market, n.ready) == Value(Flags(ProfileReady(t, policy.rules, |market.close|, profile)))
  {
    hide Meaning, ProfileNodesOf, TablesTwin, Complete, Selected, AnyOf, MinOf;
    var nodes := Some(ids.value.byProfile.At(profile));
    AggregateTwins(market, policy.rules, ids.value.rules, t, profile, nodes);
    var list, made := ProfileList(nodes.value), ProfileData(ProfileOf(t, policy.rules, |market.close|, profile));
    assert Meaning(market, list[0]) == Value(made[0]) && Meaning(market, list[1]) == Value(made[1]);
    assert Meaning(market, list[2]) == Value(made[2]) && Meaning(market, list[3]) == Value(made[3]);
    assert Meaning(market, list[4]) == Value(made[4]) && Meaning(market, list[5]) == Value(made[5]);
    var s := AllProfiles(t, policy.rules, |market.close|);
    assert SizedProfile(s.At(profile), |market.close|);
  }

  /** One family of selections. */
  lemma FloatsMean(market: Market, p: FeatureNode, nodes: ByProfile<ExitNode>, values: ByProfile<Series>)
    requires Framed(market)
    requires |values.aligned| == |values.countertrend| == |values.neutral| == |market.close|
    requires Meaning(market, nodes.aligned) == Value(Floats(values.aligned))
    requires Meaning(market, nodes.countertrend) == Value(Floats(values.countertrend))
    requires Meaning(market, nodes.neutral) == Value(Floats(values.neutral))
    ensures Meaning(market, SelectFloat(p, nodes.aligned, nodes.countertrend, nodes.neutral))
            == Value(Floats(Select(market.profile(p), values, |market.close|)))
  {
    hide Meaning;
    forall q: Profile ensures |values.At(q)| == |market.close| && Meaning(market, nodes.At(q)) == Value(Floats(values.At(q))) {}
    SelectFloatTwin(market, p, nodes, values);
  }

  lemma FlagsMean(market: Market, p: FeatureNode, nodes: ByProfile<ExitNode>, values: ByProfile<seq<bool>>)
    requires Framed(market)
    requires |values.aligned| == |values.countertrend| == |values.neutral| == |market.close|
    requires Meaning(market, nodes.aligned) == Value(Flags(values.aligned))
    requires Meaning(market, nodes.countertrend) == Value(Flags(values.countertrend))
    requires Meaning(market, nodes.neutral) == Value(Flags(values.neutral))
    ensures Meaning(market, SelectFlag(p, nodes.aligned, nodes.countertrend, nodes.neutral))
            == Value(Flags(Select(market.profile(p), values, |market.close|)))
  {
    hide Meaning;
    forall q: Profile ensures |values.At(q)| == |market.close| && Meaning(market, nodes.At(q)) == Value(Flags(values.At(q))) {}
    SelectFlagTwin(market, p, nodes, values);
  }

  function NodesOf(b: ByProfile<ProfileNodes>, f: ProfileNodes -> ExitNode): ByProfile<ExitNode> {
    ByProfile(f(b.aligned), f(b.countertrend), f(b.neutral))
  }

  lemma SelectionsMean(market: Market, policy: Policy, t: Tables, ids: Option<Identity>)
    requires Framed(market) && Complete(t, policy.rules, |market.close|) && PolicyTwins(market, policy, t, ids)
    ensures AllMean(market, SelectIds(ids), SelectData(AssembledHere(market, policy, t)))
    ensures AllMean(market, ReadyIds(ids),
                    ReadyData(AllReady(t, policy.rules, |market.close|), AssembledHere(market, policy, t)))
  {
    hide Meaning, ProfileNodesOf, ProfileTwins, TablesTwin, Complete, ProfileOf, ProfileReady, Select;
    if ids.Some? {
      ProfileMeans(market, policy, t, ids, Aligned);
      ProfileMeans(market, policy, t, ids, Countertrend);
      ProfileMeans(market, policy, t, ids, Neutral);
      var b, s, p := ids.value.byProfile, AllProfiles(t, policy.rules, |market.close|), policy.profile;
      FlagsMean(market, p.long, NodesOf(b, (n: ProfileNodes) => n.signal.long), SignalsOf(s, Long));
      FlagsMean(market, p.short, NodesOf(b, (n: ProfileNodes) => n.signal.short), SignalsOf(s, Short));
      FloatsMean(market, p.long, NodesOf(b, (n: ProfileNodes) => n.stopRatio), StopRatios(s));
      FloatsMean(market, p.short, NodesOf(b, (n: ProfileNodes) => n.stopRatio), StopRatios(s));
      FloatsMean(market, p.long, NodesOf(b, (n: ProfileNodes) => n.takeRatio), TakeRatios(s));
      FloatsMean(market, p.short, NodesOf(b, (n: ProfileNodes) => n.takeRatio), TakeRatios(s));
      FloatsMean(market, p.long, NodesOf(b, (n: ProfileNodes) => n.stopDistance), StopDistances(s));
      FloatsMean(market, p.short, NodesOf(b, (n: ProfileNodes) => n.stopDistance), StopDistances(s));
      FloatsMean(market, p.long, NodesOf(b, (n: ProfileNodes) => n.takeDistance), TakeDistances(s));
      FloatsMean(market, p.short, NodesOf(b, (n: ProfileNodes) => n.takeDistance), TakeDistances(s));
      var ready := AllReady(t, policy.rules, |market.close|);
      FlagsMean(market, p.long, NodesOf(b, (n: ProfileNodes) => n.ready), ready);
      FlagsMean(market, p.short, NodesOf(b, (n: ProfileNodes) => n.ready), ready);
    }
  }

  // -- the whole policy --------------------------------------------------------------------

  function IdsOf(rules: seq<Placed>): set<string> {
    set k | 0 <= k < |rules| :: rules[k].rule.id
  }

  /** Every rule's id present once: repeated ids would make the dictionaries ambiguous, so they never memoize. */
  predicate MatchesRules(rules: seq<Placed>, ids: RuleIds) {
    && |IdsOf(rules)| == |rules|
    && ids.signals.at.Keys == (set k | 0 <= k < |rules| && rules[k].rule.component.SignalComponent? :: rules[k].rule.id)
    && ids.distances.at.Keys == (set k | 0 <= k < |rules| && !rules[k].rule.component.SignalComponent? :: rules[k].rule.id)
  }

  lemma {:induction false} IdsAtMost(rules: seq<Placed>)
    ensures |IdsOf(rules)| <= |rules|
  {
    if |rules| == 0 {
      assert IdsOf(rules) == {};
    } else {
      var n := |rules| - 1;
      IdsAtMost(rules[..n]);
      IdsSplit(rules);
    }
  }

  lemma IdsSplit(rules: seq<Placed>)
    requires |rules| > 0
    ensures IdsOf(rules) == IdsOf(rules[..|rules| - 1]) + {rules[|rules| - 1].rule.id}
  {
    var n := |rules| - 1;
    forall id | id in IdsOf(rules) ensures id in IdsOf(rules[..n]) + {rules[n].rule.id} {
      var k :| 0 <= k < |rules| && rules[k].rule.id == id;
      assert k < n ==> rules[..n][k].rule.id == id;
    }
    forall id | id in IdsOf(rules[..n]) ensures id in IdsOf(rules) {
      var k :| 0 <= k < n && rules[..n][k].rule.id == id;
      assert rules[k].rule.id == id;
    }
  }

  lemma OneMore(ids: set<string>, id: string)
    ensures |ids + {id}| == |ids| + if id in ids then 0 else 1
  {
    if id in ids {
      assert ids + {id} == ids;
    }
  }

  /** As many ids as rules: no id is repeated. */
  lemma {:induction false} CountedOnce(rules: seq<Placed>)
    requires |IdsOf(rules)| == |rules|
    ensures DistinctIds(rules)
  {
    if |rules| > 0 {
      var n := |rules| - 1;
      IdsSplit(rules);
      IdsAtMost(rules[..n]);
      var earlier, last := IdsOf(rules[..n]), rules[n].rule.id;
      OneMore(earlier, last);
      CountedOnce(rules[..n]);
      forall j, k | 0 <= j < k < |rules| ensures rules[j].rule.id != rules[k].rule.id {
        assert rules[..n][j].rule.id == rules[j].rule.id;
        if k < n {
          assert rules[..n][k].rule.id == rules[k].rule.id;
        }
      }
    }
  }

  /** Identities fit a policy exactly when no rule id is repeated and the dictionaries hold the ids of its signal
      rules and of its distance rules, and no others. */
  lemma MatchesMeans(rules: seq<Placed>, ids: RuleIds)
    ensures MatchesRules(rules, ids) <==>
              && DistinctIds(rules)
              && (forall id :: id in ids.signals.at <==>
                    exists k :: 0 <= k < |rules| && rules[k].rule.component.SignalComponent? && rules[k].rule.id == id)
              && (forall id :: id in ids.distances.at <==>
                    exists k :: 0 <= k < |rules| && !rules[k].rule.component.SignalComponent? && rules[k].rule.id == id)
  {
    if |IdsOf(rules)| == |rules| {
      CountedOnce(rules);
    }
    if DistinctIds(rules) {
      OnceCounted(rules);
    }
  }

  lemma {:induction false} OnceCounted(rules: seq<Placed>)
    requires DistinctIds(rules)
    ensures |IdsOf(rules)| == |rules|
  {
    if |rules| == 0 {
      assert IdsOf(rules) == {};
    } else {
      var n := |rules| - 1;
      OnceCounted(rules[..n]);
      IdsSplit(rules);
      OneMore(IdsOf(rules[..n]), rules[n].rule.id);
      forall k | 0 <= k < n ensures rules[..n][k].rule.id != rules[n].rule.id {
        assert rules[..n][k] == rules[k];
      }
    }
  }

  function Usable(policy: Policy, identities: Option<Identity>): Option<Identity> {
    if identities.Some? && MatchesRules(policy.rules, identities.value.rules) then identities else None
  }

  /** What the evaluation asks the memo for: the prediction of usable identities. */
  ghost function AskedPolicy(policy: Policy, identities: Option<Identity>): multiset<ExitNode> {
    var ids := Usable(policy, identities);
    if ids.Some? && Keyed(ids.value.rules.signals) && Keyed(ids.value.rules.distances)
    then PredictedCalls(ids.value) else multiset{}
  }

  ghost function RuleList(policy: Policy, ids: Option<Identity>): seq<RuleNode> {
    var nodes := RuleNodes(policy.sides, policy.rules);
    if ids.Some? && nodes.Value? then nodes.value else []
  }

  function RulesOf(ids: Option<Identity>): Option<RuleIds> {
    if ids.None? then None else Some(ids.value.rules)
  }

  lemma UsableIsTwin(policy: Policy, identities: Option<Identity>)
    requires identities.Some? ==> Resolved(policy) == Value(identities.value)
    ensures var ids, ns := Usable(policy, identities), RuleList(policy, Usable(policy, identities));
            && (ids.Some? ==> TwinOf(ids.value.rules, policy, ns) && ids.value == IdentityOf(policy, ids.value.rules))
            && AskedPolicy(policy, identities)
               == AskedRules(RulesOf(ids), ns) + if ids.Some? then PolicyCalls(ids.value) else multiset{}
  {
    hide RuleNodes, FilledNodes, IdentityOf, PolicyCalls, RuleCalls, Pairs, Values, DistinctIds;
    var ids := Usable(policy, identities);
    if ids.Some? {
      CountedOnce(policy.rules);
      var nodes := RuleNodes(policy.sides, policy.rules);
      assert nodes.Value?;
      RulesKept(policy, FilledNodes(policy.rules, nodes.value));
      PredictionIsRules(policy.rules, nodes.value);
    }
  }

  lemma RulesKept(policy: Policy, ids: RuleIds)
    ensures IdentityOf(policy, ids).rules == ids
  {
  }

  lemma UsableTables(market: Market, policy: Policy, identities: Option<Identity>)
    requires Framed(market) && TablesOf(market, policy).Value?
    requires identities.Some? ==> Resolved(policy) == Value(identities.value)
    ensures Complete(TablesOf(market, policy).value, policy.rules, |market.close|)
    ensures PolicyTwins(market, policy, TablesOf(market, policy).value, Usable(policy, identities))
    ensures PlainPolicy(market, policy) == Value(AssembledHere(market, policy, TablesOf(market, policy).value))
  {
    hide Assembled, Filled, FilledNodes, Contributions, RuleNodes, TablesTwin, Complete, IdentityOf;
    var vs := Contributions(market, policy.sides, policy.rules).value;
    FilledComplete(policy.sides, policy.rules, vs, |market.close|);
    if Usable(policy, identities).Some? {
      UsableIsTwin(policy, identities);
      FilledTwin(market, policy.sides, policy.rules);
    }
  }

  /** The exit policy through the shared context: whatever the memo holds and whoever filled it, the outcome is
      the plain evaluation; a successful run consumes exactly what was predicted, a failed one no more; and
      where the plan covers the run, no identity has been computed twice. */
  method EvaluateExitPolicy(
    context: Context<ExitNode, ExitDatum>, market: Market, policy: Policy, identities: Option<Identity>,
    ghost covered: bool, ghost rest: multiset<ExitNode>)
    returns (r: Outcome<Evaluation>, ghost calls: multiset<ExitNode>)
    requires Framed(market) && (identities.Some? ==> Resolved(policy) == Value(identities.value))
    requires Serving(context.settings, context.State(), market, covered, AskedPolicy(policy, identities) + rest)
    modifies context
    ensures r == PlainPolicy(market, policy)
    ensures calls <= AskedPolicy(policy, identities) && (r.Value? ==> calls == AskedPolicy(policy, identities))
    ensures Serving(context.settings, context.State(), market, covered, rest)
    ensures Elsewhere(context.State()) == old(Elsewhere(context.State()))
  {
    hide Serving, Elsewhere, Framed, AskedPolicy, AskedRules, TwinOf, PolicyTwins, Complete, PlainPolicy, TablesOf, Usable, RuleList,
      IdentityOf, AssembledHere, Resolved, AskedAfter;
    var ids := Usable(policy, identities);
    UsableIsTwin(policy, identities);
    Regroup(policy, identities, rest);
    var t;
    t, calls := EvaluateRules(context, market, policy, RulesOf(ids), RuleList(policy, ids), covered, AskedAfter(ids) + rest);
    if t.Raised? {
      ServingLess(context.settings, context.State(), market, covered, AskedAfter(ids) + rest, rest);
      FailedPolicy(market, policy);
      return Raised(t.failure), calls;
    }
    UsableTables(market, policy, identities);
    var evaluation;
    ghost var more;
    evaluation, more := EvaluateAggregates(context, market, policy, t.value, ids, covered, rest);
    return Value(evaluation), calls + more;
  }

  lemma FailedPolicy(market: Market, policy: Policy)
    requires Framed(market) && TablesOf(market, policy).Raised?
    ensures PlainPolicy(market, policy) == Raised(TablesOf(market, policy).failure)
  {
  }

  ghost function AskedAfter(ids: Option<Identity>): multiset<ExitNode> {
    if ids.Some? then PolicyCalls(ids.value) else multiset{}
  }

  lemma Regroup(policy: Policy, identities: Option<Identity>, rest: multiset<ExitNode>)
    requires identities.Some? ==> Resolved(policy) == Value(identities.value)
    ensures var ids := Usable(policy, identities);
            && AskedPolicy(policy, identities) == AskedRules(RulesOf(ids), RuleList(policy, ids)) + AskedAfter(ids)
            && AskedPolicy(policy, identities) + rest
               == AskedRules(RulesOf(ids), RuleList(policy, ids)) + (AskedAfter(ids) + rest)
  {
    hide AskedPolicy, AskedRules, RuleList, PolicyCalls;
    UsableIsTwin(policy, identities);
  }

  ghost function ProfileAsked(ids: Option<Identity>, profile: Profile): multiset<ExitNode> {
    AskedList(ListOf(ProfileIds(ids, profile)))
  }

  lemma AfterRegrouped(ids: Option<Identity>, rest: multiset<ExitNode>)
    ensures AskedAfter(ids) == ProfileAsked(ids, Aligned) + ProfileAsked(ids, Countertrend) + ProfileAsked(ids, Neutral)
                               + AskedList(SelectIds(ids)) + AskedList(ReadyIds(ids))
    ensures AskedAfter(ids) + rest
            == ProfileAsked(ids, Aligned) + (ProfileAsked(ids, Countertrend) + (ProfileAsked(ids, Neutral)
               + (AskedList(SelectIds(ids)) + (AskedList(ReadyIds(ids)) + rest))))
  {
    hide ProfileList, SelectList, ReadyList;
  }

  lemma TwinProfiles(market: Market, policy: Policy, t: Tables, ids: Option<Identity>, profile: Profile)
    requires Framed(market) && Complete(t, policy.rules, |market.close|) && PolicyTwins(market, policy, t, ids)
    ensures ProfileTwins(market, policy.rules, if ids.Some? then ids.value.rules else NO_IDS, t, profile, ProfileIds(ids, profile))
  {
    hide Complete;
    if ids.Some? {
      ProfileMeans(market, policy, t, ids, profile);
    }
  }

  method EvaluateAggregates(
    context: Context<ExitNode, ExitDatum>, market: Market, policy: Policy, t: Tables, ids: Option<Identity>,
    ghost covered: bool, ghost rest: multiset<ExitNode>)
    returns (e: Evaluation, ghost calls: multiset<ExitNode>)
    requires Framed(market) && Complete(t, policy.rules, |market.close|) && PolicyTwins(market, policy, t, ids)
    requires Serving(context.settings, context.State(), market, covered, AskedAfter(ids) + rest)
    modifies context
    ensures e == AssembledHere(market, policy, t)
    ensures calls == AskedAfter(ids)
    ensures Serving(context.settings, context.State(), market, covered, rest)
    ensures Elsewhere(context.State()) == old(Elsewhere(context.State()))
  {
    hide Serving, Elsewhere, Complete, PolicyTwins, ProfileTwins, AskedAfter, ProfileAsked, AskedList, ProfileOf, AllMean, ProfileReady,
      Select, IdentityOf, ProfileIds, SelectIds, ReadyIds, Selections, Readiness, SelectData, ReadyData, AssembledHere,
      Framed;
    AfterRegrouped(ids, rest);
    AssembledSized(market, policy, t);
    var size, rules := |market.close|, policy.rules;
    ghost var names := if ids.Some? then ids.value.rules else NO_IDS;
    ghost var last := AskedList(SelectIds(ids)) + (AskedList(ReadyIds(ids)) + rest);
    TwinProfiles(market, policy, t, ids, Aligned);
    TwinProfiles(market, policy, t, ids, Countertrend);
    TwinProfiles(market, policy, t, ids, Neutral);
    SelectionsMean(market, policy, t, ids);
    var aligned, countertrend, neutral, rs, ready;
    ghost var more;
    assert ProfileAsked(ids, Aligned) == AskedList(ListOf(ProfileIds(ids, Aligned))) by { AskedHere(ids, Aligned); }
    assert ProfileAsked(ids, Countertrend) == AskedList(ListOf(ProfileIds(ids, Countertrend))) by { AskedHere(ids, Countertrend); }
    assert ProfileAsked(ids, Neutral) == AskedList(ListOf(ProfileIds(ids, Neutral))) by { AskedHere(ids, Neutral); }
    aligned, calls := EvaluateProfile(context, market, t, rules, Aligned, ProfileIds(ids, Aligned), names, covered,
                                      ProfileAsked(ids, Countertrend) + (ProfileAsked(ids, Neutral) + last));
    countertrend, more := EvaluateProfile(context, market, t, rules, Countertrend, ProfileIds(ids, Countertrend), names, covered,
                                          ProfileAsked(ids, Neutral) + last);
    calls := calls + more;
    neutral, more := EvaluateProfile(context, market, t, rules, Neutral, ProfileIds(ids, Neutral), names, covered, last);
    calls := calls + more;
    var s := ByProfile(aligned, countertrend, neutral);
    var profiles := Profiles(market, policy);
    SelectionsAssembled(market, policy, t);
    assert s == AllProfiles(t, rules, size);
    rs, more := ThroughAll(context, SelectIds(ids), Selections(profiles, s, size), market, covered,
                           AskedList(ReadyIds(ids)) + rest);
    calls := calls + more;
    ready, more := ThroughAll(context, ReadyIds(ids), Readiness(profiles, t, rules, s, size), market, covered, rest);
    FromSelections(market, policy, t, rs, ready);
    calls := calls + more;
    e := Evaluation(
      profiles, BySide(rs[0].flags, rs[1].flags), BySide(rs[2].floats, rs[3].floats), BySide(rs[4].floats, rs[5].floats),
      BySide(rs[6].floats, rs[7].floats), BySide(rs[8].floats, rs[9].floats), BySide(ready[3].flags, ready[4].flags),
      s, t.evidence, t.takes);
  }

  /** The ten selections, each side by its own profile series. */
  function Selections(profiles: BySide<seq<Profile>>, s: ByProfile<ProfileSeries>, size: nat): (r: seq<ExitDatum>)
    requires |profiles.long| == |profiles.short| == size
    requires SizedProfile(s.aligned, size) && SizedProfile(s.countertrend, size) && SizedProfile(s.neutral, size)
    ensures |r| == 10
  {
    [Flags(Select(profiles.long, SignalsOf(s, Long), size)), Flags(Select(profiles.short, SignalsOf(s, Short), size)),
     Floats(Select(profiles.long, StopRatios(s), size)), Floats(Select(profiles.short, StopRatios(s), size)),
     Floats(Select(profiles.long, TakeRatios(s), size)), Floats(Select(profiles.short, TakeRatios(s), size)),
     Floats(Select(profiles.long, StopDistances(s), size)), Floats(Select(profiles.short, StopDistances(s), size)),
     Floats(Select(profiles.long, TakeDistances(s), size)), Floats(Select(profiles.short, TakeDistances(s), size))]
  }

  /** Readiness of each profile, then of each side. */
  function Readiness(
    profiles: BySide<seq<Profile>>, t: Tables, rules: seq<Placed>, s: ByProfile<ProfileSeries>, size: nat): (r: seq<ExitDatum>)
    requires |profiles.long| == |profiles.short| == size && Complete(t, rules, size)
    requires SizedProfile(s.aligned, size) && SizedProfile(s.countertrend, size) && SizedProfile(s.neutral, size)
    ensures |r| == 5
  {
    var ready := ByProfile(ReadyFrom(t, rules, size, Aligned, s.aligned),
                           ReadyFrom(t, rules, size, Countertrend, s.countertrend),
                           ReadyFrom(t, rules, size, Neutral, s.neutral));
    [Flags(ready.aligned), Flags(ready.countertrend), Flags(ready.neutral),
     Flags(Select(profiles.long, ready, size)), Flags(Select(profiles.short, ready, size))]
  }

  lemma AssembledSized(market: Market, policy: Policy, t: Tables)
    requires Framed(market) && Complete(t, policy.rules, |market.close|)
    ensures |Profiles(market, policy).long| == |Profiles(market, policy).short| == |market.close|
    ensures forall p: Profile :: SizedProfile(ProfileOf(t, policy.rules, |market.close|, p), |market.close|)
  {
    var s := AllProfiles(t, policy.rules, |market.close|);
    forall p: Profile ensures SizedProfile(ProfileOf(t, policy.rules, |market.close|, p), |market.close|) {
      assert SizedProfile(s.At(p), |market.close|);
    }
  }

  lemma SelectionsAssembled(market: Market, policy: Policy, t: Tables)
    requires Framed(market) && Complete(t, policy.rules, |market.close|)
    ensures |Profiles(market, policy).long| == |Profiles(market, policy).short| == |market.close|
    ensures forall p: Profile :: SizedProfile(ProfileOf(t, policy.rules, |market.close|, p), |market.close|)
    ensures var profiles, s, size := Profiles(market, policy), AllProfiles(t, policy.rules, |market.close|), |market.close|;
            && SizedProfile(s.aligned, size) && SizedProfile(s.countertrend, size) && SizedProfile(s.neutral, size)
            && Selections(profiles, s, size) == SelectData(AssembledHere(market, policy, t))
            && Readiness(profiles, t, policy.rules, s, size)
               == ReadyData(AllReady(t, policy.rules, size), AssembledHere(market, policy, t))
  {
    hide Complete, ProfileOf, Select;
    AssembledSized(market, policy, t);
  }

  lemma FromSelections(market: Market, policy: Policy, t: Tables, rs: seq<ExitDatum>, ready: seq<ExitDatum>)
    requires Framed(market) && Complete(t, policy.rules, |market.close|)
    requires rs == SelectData(AssembledHere(market, policy, t))
    requires ready == ReadyData(AllReady(t, policy.rules, |market.close|), AssembledHere(market, policy, t))
    ensures rs[0].Flags? && rs[1].Flags? && (forall k | 2 <= k < 10 :: rs[k].Floats?) && ready[3].Flags? && ready[4].Flags?
    ensures AssembledHere(market, policy, t) == Evaluation(
      Profiles(market, policy), BySide(rs[0].flags, rs[1].flags), BySide(rs[2].floats, rs[3].floats),
      BySide(rs[4].floats, rs[5].floats), BySide(rs[6].floats, rs[7].floats), BySide(rs[8].floats, rs[9].floats),
      BySide(ready[3].flags, ready[4].flags), AllProfiles(t, policy.rules, |market.close|), t.evidence, t.takes)
  {
    hide Complete, ProfileOf, Select, ProfileReady;
    AssembledSized(market, policy, t);
  }

  lemma AskedHere(ids: Option<Identity>, profile: Profile)
    ensures ProfileAsked(ids, profile) == AskedList(ListOf(ProfileIds(ids, profile)))
  {
  }
}
