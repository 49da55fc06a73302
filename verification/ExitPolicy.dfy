/** The exit policy as plain values: what each rule contributes, the per-profile aggregates, the selection by
    the bar's profile, and the identities of all of these nodes. */
module ExitPolicy {
  import opened NodeProgram
  import opened EpisodeTables
  import opened ExitNodes

  datatype Group = AlwaysOn | Only(profile: Profile)

  datatype Placed = Placed(group: Group, rule: Rule)

  datatype BySide<T> = BySide(long: T, short: T) {
    function At(side: Side): T {
      if side == Long then long else short
    }
  }

  /** The rules in declared order, the enabled sides, and the identities of the two profile series. */
  datatype Policy = Policy(sides: set<Side>, rules: seq<Placed>, profile: BySide<FeatureNode>)

  const ORDER := [Aligned, Countertrend, Neutral]

  predicate InForce(group: Group, profile: Profile) {
    group.AlwaysOn? || group == Only(profile)
  }

  // -- what one rule contributes -----------------------------------------------------------

  datatype RuleValue = SignalValue(signal: BySide<seq<bool>>) | DistanceValue(distance: Series, ratio: Series)

  /** A side that is not enabled has the constant signal. */
  function SideSignal(market: Market, sides: set<Side>, spec: SignalSpec, side: Side): (r: Outcome<ExitDatum>)
    requires forall f :: |market.column(f)| == |market.close|
    ensures r.Value? ==> r.value.Flags? && |r.value.flags| == |market.close|
  {
    if side in sides then SignalRule(market, spec, side) else Value(Flags(seq(|market.close|, i => false)))
  }

  function FractionProblem(rule: Rule): Option<Failure> {
    if rule.component.PartialComponent? && (rule.component.fraction.None? || !(0.0 < rule.component.fraction.value < 1.0))
    then Some(Refusal("fraction_of_initial must be in (0, 1)")) else None
  }

  function Contribution(market: Market, sides: set<Side>, rule: Rule): (r: Outcome<RuleValue>)
    requires forall f :: |market.column(f)| == |market.close|
    ensures r.Value? ==> RuleHead(rule).None? && Fits(r.value, rule, |market.close|)
  {
    var head := RuleHead(rule);
    if head.Some? then Raised(head.value)
    else if rule.component.SignalComponent? then
      var long := SideSignal(market, sides, rule.component.signal, Long);
      if long.Raised? then Raised(long.failure) else
      var short := SideSignal(market, sides, rule.component.signal, Short);
      if short.Raised? then Raised(short.failure) else
      Value(SignalValue(BySide(long.value.flags, short.value.flags)))
    else
      var made := DistanceRule(market, rule.component.distance);
      if made.Raised? then Raised(made.failure)
      else if FractionProblem(rule).Some? then Raised(FractionProblem(rule).value)
      else Value(DistanceValue(made.value.distance, made.value.ratio))
  }

  predicate Fits(v: RuleValue, rule: Rule, size: nat) {
    && (v.SignalValue? <==> rule.component.SignalComponent?)
    && (v.SignalValue? ==> |v.signal.long| == |v.signal.short| == size)
    && (v.DistanceValue? ==> |v.distance| == |v.ratio| == size && FractionProblem(rule).None?)
  }

  /** The contributions in declared order, up to the first failure. */
  function Contributions(market: Market, sides: set<Side>, rules: seq<Placed>): (r: Outcome<seq<RuleValue>>)
    requires forall f :: |market.column(f)| == |market.close|
    ensures r.Value? ==> Matching(rules, r.value, |market.close|)
  {
    if |rules| == 0 then Value([]) else
    var k := |rules| - 1;
    var earlier := Contributions(market, sides, rules[..k]);
    if earlier.Raised? then earlier else
    var last := Contribution(market, sides, rules[k].rule);
    if last.Raised? then Raised(last.failure) else Value(earlier.value + [last.value])
  }

  predicate Matching(rules: seq<Placed>, vs: seq<RuleValue>, size: nat) {
    |vs| == |rules| && forall k | 0 <= k < |rules| :: RuleHead(rules[k].rule).None? && Fits(vs[k], rules[k].rule, size)
  }

  // -- the dictionaries --------------------------------------------------------------------

  datatype Evidence = Evidence(
    id: string, componentId: string, kind: ExitKind, group: Group, side: Option<Side>,
    signal: Option<seq<bool>>, ratio: Option<Series>)

  datatype TakeRule = TakeRule(id: string, componentId: string, group: Group, fraction: real, distance: Series)

  /** Everything the rules fill in; a repeated id overwrites its dictionary entries. */
  datatype Tables = Tables(
    signal: map<string, BySide<seq<bool>>>, distance: map<string, Series>, ratio: map<string, Series>,
    evidence: seq<Evidence>, takes: seq<TakeRule>)

  const NO_TABLES := Tables(map[], map[], map[], [], [])

  function SignalEvidence(sides: set<Side>, p: Placed, v: RuleValue, side: Side): seq<Evidence>
    requires v.SignalValue?
  {
    if side in sides
    then [Evidence(p.rule.id, p.rule.componentId, p.rule.Kind(), p.group, Some(side), Some(v.signal.At(side)), None)]
    else []
  }

  function RuleEvidence(sides: set<Side>, p: Placed, v: RuleValue): seq<Evidence> {
    if v.SignalValue? then SignalEvidence(sides, p, v, Long) + SignalEvidence(sides, p, v, Short)
    else [Evidence(p.rule.id, p.rule.componentId, p.rule.Kind(), p.group, None, None, Some(v.ratio))]
  }

  function RuleTakes(p: Placed, v: RuleValue): seq<TakeRule> {
    if v.DistanceValue? && p.rule.component.PartialComponent? && p.rule.component.fraction.Some?
    then [TakeRule(p.rule.id, p.rule.componentId, p.group, p.rule.component.fraction.value, v.distance)] else []
  }

  function Enter(sides: set<Side>, t: Tables, p: Placed, v: RuleValue): Tables {
    Tables(
      if v.SignalValue? then t.signal[p.rule.id := v.signal] else t.signal,
      if v.DistanceValue? then t.distance[p.rule.id := v.distance] else t.distance,
      if v.DistanceValue? then t.ratio[p.rule.id := v.ratio] else t.ratio,
      t.evidence + RuleEvidence(sides, p, v),
      t.takes + RuleTakes(p, v))
  }

  function Filled(sides: set<Side>, rules: seq<Placed>, vs: seq<RuleValue>): Tables
    requires |rules| == |vs|
  {
    if |rules| == 0 then NO_TABLES else
    var k := |rules| - 1;
    Enter(sides, Filled(sides, rules[..k], vs[..k]), rules[k], vs[k])
  }

  /** The ids of one kind's rules in one group, in declared order. */
  function GroupIds(rules: seq<Placed>, group: Group, kind: ExitKind): seq<string> {
    if |rules| == 0 then [] else
    var k := |rules| - 1;
    GroupIds(rules[..k], group, kind)
    + if rules[k].group == group && rules[k].rule.Kind() == kind then [rules[k].rule.id] else []
  }

  /** What a profile's aggregate of one kind reads: the always-on rules, then its own. */
  function Selected(rules: seq<Placed>, profile: Profile, kind: ExitKind): seq<string> {
    GroupIds(rules, AlwaysOn, kind) + GroupIds(rules, Only(profile), kind)
  }

  lemma {:induction false} GroupIdsExact(rules: seq<Placed>, group: Group, kind: ExitKind, id: string)
    ensures id in GroupIds(rules, group, kind)
            <==> exists k :: 0 <= k < |rules| && rules[k] == Placed(group, rules[k].rule) && rules[k].rule.Kind() == kind && rules[k].rule.id == id
  {
    if |rules| > 0 {
      var n := |rules| - 1;
      GroupIdsExact(rules[..n], group, kind, id);
      if id in GroupIds(rules[..n], group, kind) {
        var k :| 0 <= k < n && rules[..n][k] == Placed(group, rules[..n][k].rule) && rules[..n][k].rule.Kind() == kind && rules[..n][k].rule.id == id;
        assert rules[k] == rules[..n][k];
      }
      if k :| 0 <= k < |rules| && rules[k] == Placed(group, rules[k].rule) && rules[k].rule.Kind() == kind && rules[k].rule.id == id {
        if k < n {
          assert rules[..n][k] == rules[k];
        }
      }
    }
  }

  /** A rule that the aggregates of `kind` read while `profile` is in force. */
  ghost predicate Reads(p: Placed, profile: Profile, kind: ExitKind) {
    InForce(p.group, profile) && p.rule.Kind() == kind
  }

  lemma SelectedExact(rules: seq<Placed>, profile: Profile, kind: ExitKind, id: string)
    ensures id in Selected(rules, profile, kind)
            <==> exists k :: 0 <= k < |rules| && Reads(rules[k], profile, kind) && rules[k].rule.id == id
  {
    GroupIdsExact(rules, AlwaysOn, kind, id);
    GroupIdsExact(rules, Only(profile), kind, id);
    if k :| 0 <= k < |rules| && Reads(rules[k], profile, kind) && rules[k].rule.id == id {
      assert rules[k] == Placed(rules[k].group, rules[k].rule);
    }
  }

  /** Every id a selection names has its dictionary entry, of the frame's length. */
  ghost predicate Complete(t: Tables, rules: seq<Placed>, size: nat) {
    && (forall id | id in t.signal :: |t.signal[id].long| == |t.signal[id].short| == size)
    && t.distance.Keys == t.ratio.Keys
    && (forall id | id in t.ratio :: |t.ratio[id]| == |t.distance[id]| == size)
    && forall k | 0 <= k < |rules| :: rules[k].rule.id in if rules[k].rule.Kind() == Signal then t.signal.Keys else t.ratio.Keys
  }

  lemma {:induction false} FilledComplete(sides: set<Side>, rules: seq<Placed>, vs: seq<RuleValue>, size: nat)
    requires Matching(rules, vs, size)
    ensures Complete(Filled(sides, rules, vs), rules, size)
  {
    if |rules| > 0 {
      var k := |rules| - 1;
      var earlier := Filled(sides, rules[..k], vs[..k]);
      assert Matching(rules[..k], vs[..k], size);
      FilledComplete(sides, rules[..k], vs[..k], size);
      forall j | 0 <= j < k
        ensures rules[j].rule.id in if rules[j].rule.Kind() == Signal then earlier.signal.Keys else earlier.ratio.Keys
      {
        assert rules[..k][j] == rules[j];
      }
    }
  }

  lemma SelectedFound(t: Tables, rules: seq<Placed>, size: nat, profile: Profile, kind: ExitKind)
    requires Complete(t, rules, size)
    ensures forall id | id in Selected(rules, profile, kind) :: id in if kind == Signal then t.signal.Keys else t.ratio.Keys
  {
    forall id | id in Selected(rules, profile, kind)
      ensures id in if kind == Signal then t.signal.Keys else t.ratio.Keys
    {
      SelectedExact(rules, profile, kind, id);
    }
  }

  // -- aggregates --------------------------------------------------------------------------

  function Gather<T>(m: map<string, T>, ids: seq<string>): (r: seq<T>)
    requires forall id | id in ids :: id in m
    ensures |r| == |ids| && forall k | 0 <= k < |r| :: r[k] == m[ids[k]]
  {
    seq(|ids|, k requires 0 <= k < |ids| => m[ids[k]])
  }

  predicate AllSized<T>(columns: seq<seq<T>>, size: nat) {
    forall k | 0 <= k < |columns| :: |columns[k]| == size
  }

  /** The disjunction of the signals, bar by bar. */
  function AnyOf(signals: seq<seq<bool>>, size: nat): (r: seq<bool>)
    requires AllSized(signals, size)
    ensures |r| == size
    ensures forall i | 0 <= i < size :: r[i] <==> exists k :: 0 <= k < |signals| && signals[k][i]
  {
    seq(size, i requires 0 <= i < size => exists k :: 0 <= k < |signals| && signals[k][i])
  }

  function Lower(a: Option<real>, b: Option<real>): Option<real> {
    if a.None? || (b.Some? && b.value < a.value) then b else a
  }

  /** The least present value on bar `i`. */
  function MinAt(ratios: seq<Series>, i: nat): (m: Option<real>)
    requires forall k | 0 <= k < |ratios| :: i < |ratios[k]|
    ensures IsLeast(set k | 0 <= k < |ratios| :: ratios[k][i], m)
  {
    if |ratios| == 0 then None else
    var k := |ratios| - 1;
    assert forall j | 0 <= j < k :: ratios[..k][j] == ratios[j];
    Lower(MinAt(ratios[..k], i), ratios[k][i])
  }

  function MinOf(ratios: seq<Series>, size: nat): (r: Series)
    requires AllSized(ratios, size)
    ensures |r| == size && forall i | 0 <= i < size :: r[i] == MinAt(ratios, i)
  {
    seq(size, i requires 0 <= i < size => MinAt(ratios, i))
  }

  datatype ProfileSeries = ProfileSeries(
    signal: BySide<seq<bool>>, stopRatio: Series, takeRatio: Series, stopDistance: Series, takeDistance: Series)

  function SideSignals(t: Tables, ids: seq<string>, side: Side): (r: seq<seq<bool>>)
    requires forall id | id in ids :: id in t.signal
    ensures |r| == |ids| && forall k | 0 <= k < |r| :: r[k] == t.signal[ids[k]].At(side)
  {
    seq(|ids|, k requires 0 <= k < |ids| => t.signal[ids[k]].At(side))
  }

  function ProfileOf(t: Tables, rules: seq<Placed>, size: nat, profile: Profile): ProfileSeries
    requires Complete(t, rules, size)
  {
    SelectedFound(t, rules, size, profile, Signal);
    SelectedFound(t, rules, size, profile, StopLoss);
    SelectedFound(t, rules, size, profile, TakeProfit);
    var signals := Selected(rules, profile, Signal);
    var stops, takes := Selected(rules, profile, StopLoss), Selected(rules, profile, TakeProfit);
    ProfileSeries(
      BySide(AnyOf(SideSignals(t, signals, Long), size), AnyOf(SideSignals(t, signals, Short), size)),
      MinOf(Gather(t.ratio, stops), size), MinOf(Gather(t.ratio, takes), size),
      MinOf(Gather(t.distance, stops), size), MinOf(Gather(t.distance, takes), size))
  }

  /** Protection is ready where every configured kind and every partial take in force has its ratio. */
  function ReadyOf(stop: Series, take: Series, stopConfigured: bool, takeConfigured: bool, takes: seq<Series>, size: nat):
    (r: seq<bool>)
    requires |stop| == |take| == size && AllSized(takes, size)
    ensures |r| == size
    ensures forall i | 0 <= i < size ::
              r[i] <==> && (stopConfigured ==> stop[i].Some?) && (takeConfigured ==> take[i].Some?)
                        && forall k | 0 <= k < |takes| :: takes[k][i].Some?
  {
    seq(size, i requires 0 <= i < size =>
      && (stopConfigured ==> stop[i].Some?) && (takeConfigured ==> take[i].Some?)
      && forall k | 0 <= k < |takes| :: takes[k][i].Some?)
  }

  function ReadyFrom(t: Tables, rules: seq<Placed>, size: nat, profile: Profile, s: ProfileSeries): (r: seq<bool>)
    requires Complete(t, rules, size) && SizedProfile(s, size)
    ensures |r| == size
  {
    SelectedFound(t, rules, size, profile, PartialTake);
    ReadyOf(s.stopRatio, s.takeRatio,
            Selected(rules, profile, StopLoss) != [], Selected(rules, profile, TakeProfit) != [],
            Gather(t.ratio, Selected(rules, profile, PartialTake)), size)
  }

  function ProfileReady(t: Tables, rules: seq<Placed>, size: nat, profile: Profile): (r: seq<bool>)
    requires Complete(t, rules, size)
    ensures |r| == size
  {
    ReadyFrom(t, rules, size, profile, ProfileOf(t, rules, size, profile))
  }

  /** One value per profile. */
  datatype ByProfile<T> = ByProfile(aligned: T, countertrend: T, neutral: T) {
    function At(profile: Profile): T {
      match profile
      case Aligned => aligned
      case Countertrend => countertrend
      case Neutral => neutral
    }
  }

  /** Bar by bar, the series of the bar's profile. */
  function Select<T>(profiles: seq<Profile>, values: ByProfile<seq<T>>, size: nat): (r: seq<T>)
    requires |profiles| == size
    requires |values.aligned| == |values.countertrend| == |values.neutral| == size
    ensures |r| == size && forall i | 0 <= i < size :: r[i] == values.At(profiles[i])[i]
  {
    seq(size, i requires 0 <= i < size => values.At(profiles[i])[i])
  }

  datatype Evaluation = Evaluation(
    profile: BySide<seq<Profile>>,
    signal: BySide<seq<bool>>,
    stopRatio: BySide<Series>, takeRatio: BySide<Series>,
    stopDistance: BySide<Series>, takeDistance: BySide<Series>,
    ready: BySide<seq<bool>>,
    byProfile: ByProfile<ProfileSeries>,
    evidence: seq<Evidence>, takes: seq<TakeRule>)

  function SignalsOf(s: ByProfile<ProfileSeries>, side: Side): ByProfile<seq<bool>> {
    ByProfile(s.aligned.signal.At(side), s.countertrend.signal.At(side), s.neutral.signal.At(side))
  }

  function StopRatios(s: ByProfile<ProfileSeries>): ByProfile<Series> {
    ByProfile(s.aligned.stopRatio, s.countertrend.stopRatio, s.neutral.stopRatio)
  }

  function TakeRatios(s: ByProfile<ProfileSeries>): ByProfile<Series> {
    ByProfile(s.aligned.takeRatio, s.countertrend.takeRatio, s.neutral.takeRatio)
  }

  function StopDistances(s: ByProfile<ProfileSeries>): ByProfile<Series> {
    ByProfile(s.aligned.stopDistance, s.countertrend.stopDistance, s.neutral.stopDistance)
  }

  function TakeDistances(s: ByProfile<ProfileSeries>): ByProfile<Series> {
    ByProfile(s.aligned.takeDistance, s.countertrend.takeDistance, s.neutral.takeDistance)
  }

  ghost predicate SizedProfiles(s: ByProfile<ProfileSeries>, size: nat) {
    forall p: Profile :: SizedProfile(s.At(p), size)
  }

  predicate SizedProfile(s: ProfileSeries, size: nat) {
    && |s.signal.long| == |s.signal.short| == size
    && |s.stopRatio| == |s.takeRatio| == |s.stopDistance| == |s.takeDistance| == size
  }

  function AllProfiles(t: Tables, rules: seq<Placed>, size: nat): (s: ByProfile<ProfileSeries>)
    requires Complete(t, rules, size)
    ensures SizedProfiles(s, size)
  {
    ByProfile(ProfileOf(t, rules, size, Aligned), ProfileOf(t, rules, size, Countertrend), ProfileOf(t, rules, size, Neutral))
  }

  function AllReady(t: Tables, rules: seq<Placed>, size: nat): ByProfile<seq<bool>>
    requires Complete(t, rules, size)
  {
    ByProfile(ProfileReady(t, rules, size, Aligned), ProfileReady(t, rules, size, Countertrend), ProfileReady(t, rules, size, Neutral))
  }

  function Profiles(market: Market, policy: Policy): BySide<seq<Profile>> {
    BySide(market.profile(policy.profile.long), market.profile(policy.profile.short))
  }

  function Both<T>(profiles: BySide<seq<Profile>>, values: ByProfile<seq<T>>, size: nat): (r: BySide<seq<T>>)
    requires |profiles.long| == |profiles.short| == size
    requires |values.aligned| == |values.countertrend| == |values.neutral| == size
    ensures forall side: Side :: r.At(side) == Select(profiles.At(side), values, size)
  {
    BySide(Select(profiles.long, values, size), Select(profiles.short, values, size))
  }

  function Assembled(profiles: BySide<seq<Profile>>, t: Tables, rules: seq<Placed>, size: nat): Evaluation
    requires Complete(t, rules, size) && |profiles.long| == |profiles.short| == size
  {
    var s := AllProfiles(t, rules, size);
    assert SizedProfile(s.At(Aligned), size) && SizedProfile(s.At(Countertrend), size) && SizedProfile(s.At(Neutral), size);
    Evaluation(
      profiles,
      BySide(Select(profiles.long, SignalsOf(s, Long), size), Select(profiles.short, SignalsOf(s, Short), size)),
      Both(profiles, StopRatios(s), size), Both(profiles, TakeRatios(s), size),
      Both(profiles, StopDistances(s), size), Both(profiles, TakeDistances(s), size),
      Both(profiles, AllReady(t, rules, size), size),
      s, t.evidence, t.takes)
  }

  /** The whole policy computed directly, without any shared context. */
  ghost function PlainPolicy(market: Market, policy: Policy): Outcome<Evaluation>
    requires Framed(market)
  {
    var made := Contributions(market, policy.sides, policy.rules);
    if made.Raised? then Raised(made.failure) else
    FilledComplete(policy.sides, policy.rules, made.value, |market.close|);
    Value(Assembled(Profiles(market, policy), Filled(policy.sides, policy.rules, made.value), policy.rules, |market.close|))
  }
}
