/** Which rule an executable leg is attributed to: the projection recovers the rule behind every aggregate
    ratio and behind every fired signal, and never meets one of its internal inconsistencies. */
module ExitAttribution {
  import opened NodeProgram
  import opened EpisodeTables
  import opened ExitNodes
  import opened ExitPolicy

  datatype Attribution = Attribution(ruleId: string, componentId: string, kind: ExitKind)

  datatype Leg = Leg(ratio: real, attribution: Attribution)

  datatype TakeLeg = TakeLeg(ratio: real, fraction: real, attribution: Attribution)

  datatype Opportunity = Opportunity(
    bar: nat, side: Side, profile: Profile, stop: Option<Leg>, take: Option<Leg>, takes: seq<TakeLeg>)

  datatype SignalEvent = SignalEvent(bar: nat, candidates: seq<Attribution>)

  /** An inconsistency the projection refuses to go on with. */
  function Inconsistent(message: string): Failure {
    Failure("AssertionError", message, [message], None)
  }

  const UNATTRIBUTED := Inconsistent("resolved protection ratio has no matching rule_evidence entry")
  const NULL_TAKE := Inconsistent("ready entry opportunity has a null partial take ratio")
  const NO_CANDIDATE := Inconsistent("signal fired with no matching rule_evidence candidate")
  const SIMULTANEOUS := Inconsistent("simultaneous executable long and short entry opportunity")

  // -- picking a rule ----------------------------------------------------------------------

  function Magnitude(x: real): real {
    if x < 0.0 then -x else x
  }

  predicate CloseEnough(candidate: real, aggregate: real) {
    Magnitude(candidate - aggregate) <= 0.000000001 * if Magnitude(aggregate) > 1.0 then Magnitude(aggregate) else 1.0
  }

  /** How far a ratio may be from an aggregate and still be taken for it: a billionth, or a billionth of the
      aggregate where that is beyond one either way. */
  function Band(aggregate: real): real {
    if aggregate > 1.0 then aggregate / 1000000000.0
    else if aggregate < -1.0 then 0.0 - aggregate / 1000000000.0
    else 0.000000001
  }

  ghost predicate InBand(x: real, aggregate: real) {
    aggregate - Band(aggregate) <= x <= aggregate + Band(aggregate)
  }

  lemma CloseMeans(x: real, aggregate: real)
    ensures CloseEnough(x, aggregate) <==> InBand(x, aggregate)
  {
  }

  lemma ItselfInBand(aggregate: real)
    ensures InBand(aggregate, aggregate)
  {
  }

  function AttributionOf(e: Evidence): Attribution {
    Attribution(e.id, e.componentId, e.kind)
  }

  predicate Sized(evidence: seq<Evidence>, size: nat) {
    forall k | 0 <= k < |evidence| ::
      && (evidence[k].ratio.Some? ==> |evidence[k].ratio.value| == size)
      && (evidence[k].signal.Some? ==> |evidence[k].signal.value| == size)
  }

  predicate Matches(e: Evidence, kind: ExitKind, profile: Profile, i: nat, aggregate: real) {
    && e.kind == kind && InForce(e.group, profile)
    && e.ratio.Some? && i < |e.ratio.value| && e.ratio.value[i].Some?
    && CloseEnough(e.ratio.value[i].value, aggregate)
  }

  function FirstMatch(evidence: seq<Evidence>, kind: ExitKind, profile: Profile, i: nat, aggregate: real): Option<Attribution> {
    if |evidence| == 0 then None
    else if Matches(evidence[0], kind, profile, i, aggregate) then Some(AttributionOf(evidence[0]))
    else FirstMatch(evidence[1..], kind, profile, i, aggregate)
  }

  /** An entry of the kind, always in force or in force in the profile, with a ratio in the aggregate's band. */
  ghost predicate Attributable(e: Evidence, kind: ExitKind, profile: Profile, i: nat, aggregate: real) {
    && e.kind == kind && (e.group.AlwaysOn? || e.group == Only(profile))
    && e.ratio.Some? && i < |e.ratio.value| && e.ratio.value[i].Some? && InBand(e.ratio.value[i].value, aggregate)
  }

  ghost predicate FirstAttributable(
    evidence: seq<Evidence>, kind: ExitKind, profile: Profile, i: nat, aggregate: real, k: int)
  {
    && 0 <= k < |evidence| && Attributable(evidence[k], kind, profile, i, aggregate)
    && forall j | 0 <= j < k :: !Attributable(evidence[j], kind, profile, i, aggregate)
  }

  lemma MatchesIs(e: Evidence, kind: ExitKind, profile: Profile, i: nat, aggregate: real)
    ensures Matches(e, kind, profile, i, aggregate) <==> Attributable(e, kind, profile, i, aggregate)
  {
    hide CloseEnough, InBand;
    if e.ratio.Some? && i < |e.ratio.value| && e.ratio.value[i].Some? {
      CloseMeans(e.ratio.value[i].value, aggregate);
    }
  }

  /** The match is the first attributable entry; there is none only if no entry is attributable. */
  lemma {:induction false} MatchMeans(evidence: seq<Evidence>, kind: ExitKind, profile: Profile, i: nat, aggregate: real)
    ensures match FirstMatch(evidence, kind, profile, i, aggregate)
            case Some(a) => exists k :: FirstAttributable(evidence, kind, profile, i, aggregate, k)
                                        && a == Attribution(evidence[k].id, evidence[k].componentId, evidence[k].kind)
            case None => forall k | 0 <= k < |evidence| :: !Attributable(evidence[k], kind, profile, i, aggregate)
  {
    hide Matches, Attributable;
    if |evidence| > 0 {
      var e, rest := evidence[0], evidence[1..];
      MatchesIs(e, kind, profile, i, aggregate);
      MatchMeans(rest, kind, profile, i, aggregate);
      assert forall j | 0 < j < |evidence| :: evidence[j] == rest[j - 1];
      if Matches(e, kind, profile, i, aggregate) {
        assert FirstAttributable(evidence, kind, profile, i, aggregate, 0);
      } else if FirstMatch(rest, kind, profile, i, aggregate).Some? {
        var k :| FirstAttributable(rest, kind, profile, i, aggregate, k)
                 && FirstMatch(rest, kind, profile, i, aggregate).value
                    == Attribution(rest[k].id, rest[k].componentId, rest[k].kind);
        assert FirstAttributable(evidence, kind, profile, i, aggregate, k + 1);
      }
    }
  }

  method PickLegAttribution(evidence: seq<Evidence>, kind: ExitKind, profile: Profile, i: nat, aggregate: real)
    returns (r: Option<Attribution>)
    requires exists size :: i < size && Sized(evidence, size)
    ensures r == FirstMatch(evidence, kind, profile, i, aggregate)
    ensures match r
            case Some(a) => exists k :: FirstAttributable(evidence, kind, profile, i, aggregate, k)
                                        && a == Attribution(evidence[k].id, evidence[k].componentId, evidence[k].kind)
            case None => forall k | 0 <= k < |evidence| :: !Attributable(evidence[k], kind, profile, i, aggregate)
  {
    MatchMeans(evidence, kind, profile, i, aggregate);
    var k := 0;
    while k < |evidence|
      invariant 0 <= k <= |evidence|
      invariant FirstMatch(evidence, kind, profile, i, aggregate) == FirstMatch(evidence[k..], kind, profile, i, aggregate)
    {
      var rule := evidence[k];
      assert evidence[k..][1..] == evidence[k + 1..];
      if rule.kind == kind && InForce(rule.group, profile) && rule.ratio.Some? {
        var value := rule.ratio.value[i];
        if value.Some? && CloseEnough(value.value, aggregate) {
          return Some(AttributionOf(rule));
        }
      }
      k := k + 1;
    }
    return None;
  }

  function LegFor(evidence: seq<Evidence>, kind: ExitKind, profile: Profile, i: nat, ratio: Option<real>): Outcome<Option<Leg>> {
    if ratio.None? then Value(None) else
    match FirstMatch(evidence, kind, profile, i, ratio.value)
    case None => Raised(UNATTRIBUTED)
    case Some(attribution) => Value(Some(Leg(ratio.value, attribution)))
  }

  // -- partial takes -----------------------------------------------------------------------

  /** The last partial take recorded under an id. */
  function RatiosById(evidence: seq<Evidence>): map<string, Series> {
    if |evidence| == 0 then map[] else
    var e := evidence[|evidence| - 1];
    var earlier := RatiosById(evidence[..|evidence| - 1]);
    if e.kind == PartialTake && e.ratio.Some? then earlier[e.id := e.ratio.value] else earlier
  }

  function RatioOn(ratios: map<string, Series>, id: string, i: nat): Option<real> {
    if id in ratios && i < |ratios[id]| then ratios[id][i] else None
  }

  function TakeLegOf(take: TakeRule, ratio: real): TakeLeg {
    TakeLeg(ratio, take.fraction, Attribution(take.id, take.componentId, PartialTake))
  }

  /** The legs in force in declared order, up to a missing ratio. */
  function TakesInForce(takes: seq<TakeRule>, ratios: map<string, Series>, profile: Profile, i: nat): Outcome<seq<TakeLeg>> {
    if |takes| == 0 then Value([]) else
    var k := |takes| - 1;
    var earlier := TakesInForce(takes[..k], ratios, profile, i);
    if earlier.Raised? || !InForce(takes[k].group, profile) then earlier else
    var ratio := RatioOn(ratios, takes[k].id, i);
    if ratio.None? then Raised(NULL_TAKE) else Value(earlier.value + [TakeLegOf(takes[k], ratio.value)])
  }

  /** A leg goes behind all legs that are not above it. */
  function InsertLeg(legs: seq<TakeLeg>, leg: TakeLeg): (r: seq<TakeLeg>)
    ensures multiset(r) == multiset(legs) + multiset{leg}
  {
    if |legs| == 0 then [leg] else
    var k := |legs| - 1;
    assert legs == legs[..k] + [legs[k]];
    if legs[k].ratio <= leg.ratio then legs + [leg] else InsertLeg(legs[..k], leg) + [legs[k]]
  }

  function SortLegs(legs: seq<TakeLeg>): (r: seq<TakeLeg>)
    ensures multiset(r) == multiset(legs)
  {
    if |legs| == 0 then [] else
    var k := |legs| - 1;
    assert legs == legs[..k] + [legs[k]];
    InsertLeg(SortLegs(legs[..k]), legs[k])
  }

  ghost predicate Ascending(legs: seq<TakeLeg>) {
    forall j, k | 0 <= j < k < |legs| :: legs[j].ratio <= legs[k].ratio
  }

  /** The legs at one level, in order. */
  ghost function AtLevel(legs: seq<TakeLeg>, ratio: real): seq<TakeLeg> {
    if |legs| == 0 then [] else
    var k := |legs| - 1;
    AtLevel(legs[..k], ratio) + if legs[k].ratio == ratio then [legs[k]] else []
  }

  lemma AtLevelLast(legs: seq<TakeLeg>, leg: TakeLeg, ratio: real)
    ensures AtLevel(legs + [leg], ratio) == AtLevel(legs, ratio) + if leg.ratio == ratio then [leg] else []
  {
    assert (legs + [leg])[..|legs|] == legs;
  }

  lemma {:induction false} InsertAscends(legs: seq<TakeLeg>, leg: TakeLeg)
    requires Ascending(legs)
    ensures Ascending(InsertLeg(legs, leg))
  {
    if |legs| > 0 && legs[|legs| - 1].ratio > leg.ratio {
      var k := |legs| - 1;
      var inner := InsertLeg(legs[..k], leg);
      InsertAscends(legs[..k], leg);
      forall j | 0 <= j < |inner| ensures inner[j].ratio <= legs[k].ratio {
        assert inner[j] in multiset(legs[..k]) + multiset{leg};
      }
    }
  }

  lemma {:induction false} InsertKeepsLevels(legs: seq<TakeLeg>, leg: TakeLeg, ratio: real)
    requires Ascending(legs)
    ensures AtLevel(InsertLeg(legs, leg), ratio) == AtLevel(legs + [leg], ratio)
  {
    hide AtLevel, Ascending;
    assert |legs| == 0 ==> legs + [leg] == [leg];
    if |legs| > 0 && legs[|legs| - 1].ratio > leg.ratio {
      var k := |legs| - 1;
      assert Ascending(legs[..k]) by { AscendingPrefix(legs, k); }
      InsertKeepsLevels(legs[..k], leg, ratio);
      AtLevelLast(InsertLeg(legs[..k], leg), legs[k], ratio);
      AtLevelLast(legs[..k], leg, ratio);
      AtLevelLast(legs[..k], legs[k], ratio);
      AtLevelLast(legs, leg, ratio);
      assert legs[..k] + [legs[k]] == legs;
      var below := AtLevel(legs[..k], ratio);
      assert below + [] == below;
    }
  }

  lemma AscendingPrefix(legs: seq<TakeLeg>, k: nat)
    requires Ascending(legs) && k <= |legs|
    ensures Ascending(legs[..k])
  {
  }

  /** Sorting is ascending and stable: legs at one level keep their declared order, and none is lost. */
  lemma {:induction false} SortIsStable(legs: seq<TakeLeg>, ratio: real)
    ensures Ascending(SortLegs(legs)) && AtLevel(SortLegs(legs), ratio) == AtLevel(legs, ratio)
  {
    hide InsertLeg;
    if |legs| > 0 {
      var k := |legs| - 1;
      var sorted := SortLegs(legs[..k]);
      SortIsStable(legs[..k], ratio);
      InsertAscends(sorted, legs[k]);
      InsertKeepsLevels(sorted, legs[k], ratio);
      AtLevelLast(sorted, legs[k], ratio);
    }
  }

  function TakeLegs(takes: seq<TakeRule>, evidence: seq<Evidence>, profile: Profile, i: nat): Outcome<seq<TakeLeg>> {
    match TakesInForce(takes, RatiosById(evidence), profile, i)
    case Raised(failure) => Raised(failure)
    case Value(legs) => Value(SortLegs(legs))
  }

  method PartialTakes(takes: seq<TakeRule>, evidence: seq<Evidence>, profile: Profile, i: nat)
    returns (r: Outcome<seq<TakeLeg>>)
    ensures r == TakeLegs(takes, evidence, profile, i)
  {
    if |takes| == 0 {
      return Value([]);
    }
    var ratios: map<string, Series> := map[];
    var k := 0;
    while k < |evidence|
      invariant 0 <= k <= |evidence| && ratios == RatiosById(evidence[..k])
    {
      var rule := evidence[k];
      assert evidence[..k + 1][..k] == evidence[..k];
      if rule.kind == PartialTake && rule.ratio.Some? {
        ratios := ratios[rule.id := rule.ratio.value];
      }
      k := k + 1;
    }
    assert evidence[..k] == evidence;
    var legs := [];
    k := 0;
    while k < |takes|
      invariant 0 <= k <= |takes| && TakesInForce(takes[..k], ratios, profile, i) == Value(legs)
    {
      assert takes[..k + 1][..k] == takes[..k];
      if InForce(takes[k].group, profile) {
        var ratio := RatioOn(ratios, takes[k].id, i);
        if ratio.None? {
          NullTakeStays(takes, ratios, profile, i, k);
          return Raised(NULL_TAKE);
        }
        legs := legs + [TakeLegOf(takes[k], ratio.value)];
      }
      k := k + 1;
    }
    assert takes[..k] == takes;
    return Value(SortLegs(legs));
  }

  lemma {:induction false} NullTakeStays(takes: seq<TakeRule>, ratios: map<string, Series>, profile: Profile, i: nat, k: nat)
    requires k < |takes| && TakesInForce(takes[..k + 1], ratios, profile, i) == Raised(NULL_TAKE)
    ensures TakesInForce(takes, ratios, profile, i) == Raised(NULL_TAKE)
  {
    if k + 1 == |takes| {
      assert takes[..k + 1] == takes;
    } else {
      var n := |takes| - 1;
      assert takes[..n][..k + 1] == takes[..k + 1];
      NullTakeStays(takes[..n], ratios, profile, i, k);
    }
  }

  // -- entry opportunities -----------------------------------------------------------------

  ghost predicate Consistent(e: Evaluation, entries: BySide<seq<bool>>, size: nat) {
    && Sized(e.evidence, size)
    && forall side: Side ::
         && |entries.At(side)| == |e.profile.At(side)| == |e.ready.At(side)| == size
         && |e.stopRatio.At(side)| == |e.takeRatio.At(side)| == size
  }

  predicate Executable(e: Evaluation, entries: BySide<seq<bool>>, side: Side, i: nat)
    requires i < |entries.At(side)| && i < |e.ready.At(side)|
  {
    entries.At(side)[i] && e.ready.At(side)[i]
  }

  function OpportunityAt(e: Evaluation, side: Side, i: nat): Outcome<Opportunity>
    requires i < |e.profile.At(side)| && i < |e.stopRatio.At(side)| && i < |e.takeRatio.At(side)|
  {
    var profile := e.profile.At(side)[i];
    var stop := LegFor(e.evidence, StopLoss, profile, i, e.stopRatio.At(side)[i]);
    if stop.Raised? then Raised(stop.failure) else
    var take := LegFor(e.evidence, TakeProfit, profile, i, e.takeRatio.At(side)[i]);
    if take.Raised? then Raised(take.failure) else
    var takes := TakeLegs(e.takes, e.evidence, profile, i);
    if takes.Raised? then Raised(takes.failure) else
    Value(Opportunity(i, side, profile, stop.value, take.value, takes.value))
  }

  /** The opportunities of one side on the first `n` bars. */
  ghost function SideOpportunities(e: Evaluation, entries: BySide<seq<bool>>, side: Side, size: nat, n: nat):
    Outcome<seq<Opportunity>>
    requires Consistent(e, entries, size) && n <= size
  {
    if n == 0 then Value([]) else
    var earlier := SideOpportunities(e, entries, side, size, n - 1);
    if earlier.Raised? || !Executable(e, entries, side, n - 1) then earlier else
    match OpportunityAt(e, side, n - 1)
    case Raised(failure) => Raised(failure)
    case Value(opportunity) => Value(earlier.value + [opportunity])
  }

  ghost predicate Clash(e: Evaluation, entries: BySide<seq<bool>>, size: nat, i: nat)
    requires Consistent(e, entries, size)
  {
    i < size && Executable(e, entries, Long, i) && Executable(e, entries, Short, i)
  }

  ghost function Opportunities(e: Evaluation, entries: BySide<seq<bool>>, size: nat): Outcome<seq<Opportunity>>
    requires Consistent(e, entries, size)
  {
    if exists i: nat :: Clash(e, entries, size, i) then Raised(SIMULTANEOUS) else
    var long := SideOpportunities(e, entries, Long, size, size);
    if long.Raised? then long else
    var short := SideOpportunities(e, entries, Short, size, size);
    if short.Raised? then short else Value(long.value + short.value)
  }

  method EntryOpportunities(e: Evaluation, entries: BySide<seq<bool>>, size: nat) returns (r: Outcome<seq<Opportunity>>)
    requires Consistent(e, entries, size)
    ensures r == Opportunities(e, entries, size)
  {
    var i := 0;
    assert Consistent(e, entries, size) && |entries.At(Long)| == |entries.At(Short)| == size;
    assert |e.ready.At(Long)| == |e.ready.At(Short)| == size;
    while i < size
      invariant 0 <= i <= size && forall k: nat | k < i :: !Clash(e, entries, size, k)
    {
      if Executable(e, entries, Long, i) && Executable(e, entries, Short, i) {
        assert Clash(e, entries, size, i);
        return Raised(SIMULTANEOUS);
      }
      i := i + 1;
    }
    var long := BuildOpportunities(e, entries, Long, size);
    if long.Raised? {
      return long;
    }
    var short := BuildOpportunities(e, entries, Short, size);
    if short.Raised? {
      return short;
    }
    return Value(long.value + short.value);
  }

  method BuildOpportunities(e: Evaluation, entries: BySide<seq<bool>>, side: Side, size: nat)
    returns (r: Outcome<seq<Opportunity>>)
    requires Consistent(e, entries, size)
    ensures r == SideOpportunities(e, entries, side, size, size)
  {
    hide LegFor, TakeLegs;
    var opportunities := [];
    var i := 0;
    while i < size
      invariant 0 <= i <= size && SideOpportunities(e, entries, side, size, i) == Value(opportunities)
    {
      if Executable(e, entries, side, i) {
        var profile := e.profile.At(side)[i];
        var stop := LegOrRefusal(e.evidence, StopLoss, profile, i, e.stopRatio.At(side)[i], size);
        if stop.Raised? {
          RefusalStays(e, entries, side, size, i, size);
          return Raised(stop.failure);
        }
        var take := LegOrRefusal(e.evidence, TakeProfit, profile, i, e.takeRatio.At(side)[i], size);
        if take.Raised? {
          RefusalStays(e, entries, side, size, i, size);
          return Raised(take.failure);
        }
        var takes := PartialTakes(e.takes, e.evidence, profile, i);
        if takes.Raised? {
          RefusalStays(e, entries, side, size, i, size);
          return Raised(takes.failure);
        }
        opportunities := opportunities + [Opportunity(i, side, profile, stop.value, take.value, takes.value)];
      }
      i := i + 1;
    }
    return Value(opportunities);
  }

  method LegOrRefusal(evidence: seq<Evidence>, kind: ExitKind, profile: Profile, i: nat, ratio: Option<real>, size: nat)
    returns (r: Outcome<Option<Leg>>)
    requires i < size && Sized(evidence, size)
    ensures r == LegFor(evidence, kind, profile, i, ratio)
  {
    if ratio.None? {
      return Value(None);
    }
    var attribution := PickLegAttribution(evidence, kind, profile, i, ratio.value);
    if attribution.None? {
      return Raised(UNATTRIBUTED);
    }
    return Value(Some(Leg(ratio.value, attribution.value)));
  }

  lemma {:induction false} RefusalStays(e: Evaluation, entries: BySide<seq<bool>>, side: Side, size: nat, i: nat, n: nat)
    requires Consistent(e, entries, size) && i < n <= size
    requires SideOpportunities(e, entries, side, size, i + 1).Raised?
    ensures SideOpportunities(e, entries, side, size, n) == SideOpportunities(e, entries, side, size, i + 1)
  {
    if i + 1 < n {
      RefusalStays(e, entries, side, size, i, n - 1);
    }
  }

  // -- signal exits ------------------------------------------------------------------------

  predicate Fires(e: Evidence, side: Side, profile: Profile, i: nat) {
    && e.kind == Signal && e.side == Some(side) && InForce(e.group, profile)
    && e.signal.Some? && i < |e.signal.value| && e.signal.value[i]
  }

  /** The rules that fire on bar `i`, in declared order. */
  function Firing(evidence: seq<Evidence>, side: Side, profile: Profile, i: nat): seq<Attribution> {
    if |evidence| == 0 then [] else
    var k := |evidence| - 1;
    Firing(evidence[..k], side, profile, i)
    + if Fires(evidence[k], side, profile, i) then [AttributionOf(evidence[k])] else []
  }

  function EventsUntil(evidence: seq<Evidence>, side: Side, profile: Profile, series: seq<bool>, n: nat):
    Outcome<seq<SignalEvent>>
    requires n <= |series|
  {
    if n == 0 then Value([]) else
    var earlier := EventsUntil(evidence, side, profile, series, n - 1);
    if earlier.Raised? || !series[n - 1] then earlier
    else if Firing(evidence, side, profile, n - 1) == [] then Raised(NO_CANDIDATE)
    else Value(earlier.value + [SignalEvent(n - 1, Firing(evidence, side, profile, n - 1))])
  }

  method ProfileEvents(evidence: seq<Evidence>, side: Side, profile: Profile, series: seq<bool>)
    returns (r: Outcome<seq<SignalEvent>>)
    requires Sized(evidence, |series|)
    ensures r == EventsUntil(evidence, side, profile, series, |series|)
  {
    var events := [];
    var i := 0;
    while i < |series|
      invariant 0 <= i <= |series| && EventsUntil(evidence, side, profile, series, i) == Value(events)
    {
      if series[i] {
        var candidates := [];
        var k := 0;
        while k < |evidence|
          invariant 0 <= k <= |evidence| && candidates == Firing(evidence[..k], side, profile, i)
        {
          var rule := evidence[k];
          assert evidence[..k + 1][..k] == evidence[..k];
          if rule.kind == Signal && rule.side == Some(side) && InForce(rule.group, profile) && rule.signal.Some? {
            if rule.signal.value[i] {
              candidates := candidates + [AttributionOf(rule)];
            }
          }
          k := k + 1;
        }
        assert evidence[..k] == evidence;
        if candidates == [] {
          EventRefusalStays(evidence, side, profile, series, i, |series|);
          return Raised(NO_CANDIDATE);
        }
        events := events + [SignalEvent(i, candidates)];
      }
      i := i + 1;
    }
    return Value(events);
  }

  lemma {:induction false} EventRefusalStays(
    evidence: seq<Evidence>, side: Side, profile: Profile, series: seq<bool>, i: nat, n: nat)
    requires i < n <= |series| && EventsUntil(evidence, side, profile, series, i + 1) == Raised(NO_CANDIDATE)
    ensures EventsUntil(evidence, side, profile, series, n) == Raised(NO_CANDIDATE)
  {
    if i + 1 < n {
      EventRefusalStays(evidence, side, profile, series, i, n - 1);
    }
  }
}
