/** Attribution is total and correct: over an evaluated policy with unique rule ids, every leg goes to the
    first declared rule behind its ratio, every ready bar has all its partial takes, and signal events are the
    bars on which a rule fires, with those rules. */
module ExitTheorems {
  import opened NodeProgram
  import opened EpisodeTables
  import opened ExitNodes
  import opened ExitPolicy
  import opened ExitAttribution

  ghost predicate DistinctIds(rules: seq<Placed>) {
    forall j, k | 0 <= j < k < |rules| :: rules[j].rule.id != rules[k].rule.id
  }

  /** `vs` are the contributions of the rules and `e` is what the policy evaluates to. */
  ghost predicate Evaluated(market: Market, policy: Policy, vs: seq<RuleValue>, e: Evaluation) {
    && Framed(market)
    && Contributions(market, policy.sides, policy.rules) == Value(vs)
    && PlainPolicy(market, policy) == Value(e)
  }

  // -- looking rules up --------------------------------------------------------------------

  ghost predicate Found(t: Tables, p: Placed, v: RuleValue) {
    && (v.SignalValue? ==> p.rule.id in t.signal && t.signal[p.rule.id] == v.signal)
    && (v.DistanceValue? ==>
          && p.rule.id in t.ratio && t.ratio[p.rule.id] == v.ratio
          && p.rule.id in t.distance && t.distance[p.rule.id] == v.distance)
  }

  /** With unique ids every rule finds its own contribution in the dictionaries. */
  lemma {:induction false} FilledLookup(sides: set<Side>, rules: seq<Placed>, vs: seq<RuleValue>, size: nat, k: nat)
    requires DistinctIds(rules) && Matching(rules, vs, size) && k < |rules|
    ensures Found(Filled(sides, rules, vs), rules[k], vs[k])
  {
    var n := |rules| - 1;
    if k < n {
      FilledLookup(sides, rules[..n], vs[..n], size, k);
      assert rules[..n][k] == rules[k] && vs[..n][k] == vs[k];
      assert rules[k].rule.id != rules[n].rule.id;
    }
  }

  lemma KindOfValue(rules: seq<Placed>, vs: seq<RuleValue>, size: nat, k: nat)
    requires Matching(rules, vs, size) && k < |rules|
    ensures vs[k].SignalValue? <==> rules[k].rule.Kind() == Signal
  {
  }

  /** The ratios on bar `i` of the rules of one kind in force. */
  ghost function RatiosInForce(rules: seq<Placed>, vs: seq<RuleValue>, size: nat, profile: Profile, kind: ExitKind, i: nat):
    set<Option<real>>
    requires Matching(rules, vs, size) && i < size && kind != Signal
  {
    set k | 0 <= k < |rules| && Reads(rules[k], profile, kind) && vs[k].DistanceValue? :: vs[k].ratio[i]
  }

  /** An aggregate ratio is the least of the ratios in force, missing ones skipped. */
  lemma AggregateIsLeast(
    sides: set<Side>, rules: seq<Placed>, vs: seq<RuleValue>, size: nat, profile: Profile, kind: ExitKind, i: nat)
    requires DistinctIds(rules) && Matching(rules, vs, size) && i < size && kind != Signal
    requires Complete(Filled(sides, rules, vs), rules, size)
    ensures var t, ids := Filled(sides, rules, vs), Selected(rules, profile, kind);
            && (forall id | id in ids :: id in t.ratio)
            && AllSized(Gather(t.ratio, ids), size)
            && IsLeast(RatiosInForce(rules, vs, size, profile, kind, i), MinAt(Gather(t.ratio, ids), i))
  {
    hide Filled, Selected, RatiosInForce, Complete, IsLeast;
    var t, ids := Filled(sides, rules, vs), Selected(rules, profile, kind);
    SelectedFound(t, rules, size, profile, kind);
    ColumnsSized(t, rules, size, ids);
    var columns := Gather(t.ratio, ids);
    var held := set k | 0 <= k < |columns| :: columns[k][i];
    forall x | x in held ensures x in RatiosInForce(rules, vs, size, profile, kind, i) {
      var k :| 0 <= k < |columns| && columns[k][i] == x;
      ColumnInForce(sides, rules, vs, size, profile, kind, i, ids[k]);
    }
    forall x | x in RatiosInForce(rules, vs, size, profile, kind, i) ensures x in held {
      var id := InForceColumn(sides, rules, vs, size, profile, kind, i, x);
      var k :| 0 <= k < |ids| && ids[k] == id;
      assert columns[k][i] == x;
    }
    SameLeast(held, RatiosInForce(rules, vs, size, profile, kind, i), MinAt(columns, i));
  }

  lemma ColumnsSized(t: Tables, rules: seq<Placed>, size: nat, ids: seq<string>)
    requires Complete(t, rules, size) && forall id | id in ids :: id in t.ratio
    ensures AllSized(Gather(t.ratio, ids), size)
  {
  }

  lemma ColumnInForce(
    sides: set<Side>, rules: seq<Placed>, vs: seq<RuleValue>, size: nat, profile: Profile, kind: ExitKind, i: nat, id: string)
    requires DistinctIds(rules) && Matching(rules, vs, size) && i < size && kind != Signal
    requires id in Selected(rules, profile, kind)
    ensures var t := Filled(sides, rules, vs);
            id in t.ratio && |t.ratio[id]| == size && t.ratio[id][i] in RatiosInForce(rules, vs, size, profile, kind, i)
  {
    hide Filled, Selected;
    SelectedExact(rules, profile, kind, id);
    var j :| 0 <= j < |rules| && Reads(rules[j], profile, kind) && rules[j].rule.id == id;
    KindOfValue(rules, vs, size, j);
    FilledLookup(sides, rules, vs, size, j);
  }

  lemma InForceColumn(
    sides: set<Side>, rules: seq<Placed>, vs: seq<RuleValue>, size: nat, profile: Profile, kind: ExitKind, i: nat, x: Option<real>)
    returns (id: string)
    requires DistinctIds(rules) && Matching(rules, vs, size) && i < size && kind != Signal
    requires x in RatiosInForce(rules, vs, size, profile, kind, i)
    ensures var t := Filled(sides, rules, vs);
            id in Selected(rules, profile, kind) && id in t.ratio && |t.ratio[id]| == size && t.ratio[id][i] == x
  {
    hide Filled, Selected;
    var j :| 0 <= j < |rules| && Reads(rules[j], profile, kind) && vs[j].DistanceValue? && vs[j].ratio[i] == x;
    id := rules[j].rule.id;
    FilledLookup(sides, rules, vs, size, j);
    SelectedExact(rules, profile, kind, id);
  }

  lemma SameLeast(a: set<Option<real>>, b: set<Option<real>>, m: Option<real>)
    requires IsLeast(a, m) && a <= b && b <= a
    ensures IsLeast(b, m)
  {
  }

  // -- the first rule in declared order ----------------------------------------------------

  ghost predicate RuleMatches(p: Placed, v: RuleValue, kind: ExitKind, profile: Profile, i: nat, aggregate: real) {
    && (p.group.AlwaysOn? || p.group == Only(profile)) && p.rule.Kind() == kind
    && v.DistanceValue? && i < |v.ratio| && v.ratio[i].Some? && InBand(v.ratio[i].value, aggregate)
  }

  /** The first declared rule in force whose ratio is close enough to the aggregate. */
  ghost predicate IsFirstRule(
    rules: seq<Placed>, vs: seq<RuleValue>, kind: ExitKind, profile: Profile, i: nat, aggregate: real, k: int)
  {
    && |rules| == |vs| && 0 <= k < |rules| && RuleMatches(rules[k], vs[k], kind, profile, i, aggregate)
    && forall j | 0 <= j < k :: !RuleMatches(rules[j], vs[j], kind, profile, i, aggregate)
  }

  function RuleAttribution(p: Placed): Attribution {
    Attribution(p.rule.id, p.rule.componentId, p.rule.Kind())
  }

  lemma {:induction false} FirstMatchSplits(
    a: seq<Evidence>, b: seq<Evidence>, kind: ExitKind, profile: Profile, i: nat, aggregate: real)
    ensures FirstMatch(a + b, kind, profile, i, aggregate)
            == if FirstMatch(a, kind, profile, i, aggregate).Some? then FirstMatch(a, kind, profile, i, aggregate)
               else FirstMatch(b, kind, profile, i, aggregate)
  {
    if |a| == 0 {
      assert a + b == b;
    } else {
      assert (a + b)[1..] == a[1..] + b;
      FirstMatchSplits(a[1..], b, kind, profile, i, aggregate);
    }
  }

  lemma RuleFirstMatch(
    sides: set<Side>, p: Placed, v: RuleValue, size: nat, kind: ExitKind, profile: Profile, i: nat, aggregate: real)
    requires kind != Signal && RuleHead(p.rule).None? && Fits(v, p.rule, size)
    ensures FirstMatch(RuleEvidence(sides, p, v), kind, profile, i, aggregate)
            == if RuleMatches(p, v, kind, profile, i, aggregate) then Some(RuleAttribution(p)) else None
  {
    hide CloseEnough, InBand;
    var evidence := RuleEvidence(sides, p, v);
    if v.SignalValue? {
      NothingMatches(evidence, kind, profile, i, aggregate);
    } else {
      assert evidence[1..] == [];
      if i < |v.ratio| && v.ratio[i].Some? {
        CloseMeans(v.ratio[i].value, aggregate);
      }
    }
  }

  lemma {:induction false} NothingMatches(evidence: seq<Evidence>, kind: ExitKind, profile: Profile, i: nat, aggregate: real)
    requires forall e | e in evidence :: e.kind != kind
    ensures FirstMatch(evidence, kind, profile, i, aggregate) == None
  {
    if |evidence| > 0 {
      NothingMatches(evidence[1..], kind, profile, i, aggregate);
    }
  }

  /** The evidence is searched in the rules' declared order. */
  lemma {:induction false} PickIsFirstRule(
    sides: set<Side>, rules: seq<Placed>, vs: seq<RuleValue>, size: nat, kind: ExitKind, profile: Profile, i: nat,
    aggregate: real)
    requires Matching(rules, vs, size) && kind != Signal
    ensures match FirstMatch(Filled(sides, rules, vs).evidence, kind, profile, i, aggregate)
            case Some(a) => exists k :: IsFirstRule(rules, vs, kind, profile, i, aggregate, k) && a == RuleAttribution(rules[k])
            case None => forall k | 0 <= k < |rules| :: !RuleMatches(rules[k], vs[k], kind, profile, i, aggregate)
  {
    hide RuleEvidence, RuleMatches, RuleHead, Fits, Matches;
    if |rules| > 0 {
      var n := |rules| - 1;
      var earlier := Filled(sides, rules[..n], vs[..n]);
      assert Matching(rules[..n], vs[..n], size);
      PickIsFirstRule(sides, rules[..n], vs[..n], size, kind, profile, i, aggregate);
      assert Filled(sides, rules, vs).evidence == earlier.evidence + RuleEvidence(sides, rules[n], vs[n]);
      FirstMatchSplits(earlier.evidence, RuleEvidence(sides, rules[n], vs[n]), kind, profile, i, aggregate);
      RuleFirstMatch(sides, rules[n], vs[n], size, kind, profile, i, aggregate);
      var a := FirstMatch(earlier.evidence, kind, profile, i, aggregate);
      if a.Some? {
        var k :| IsFirstRule(rules[..n], vs[..n], kind, profile, i, aggregate, k) && a.value == RuleAttribution(rules[..n][k]);
        FirstRuleStays(rules, vs, kind, profile, i, aggregate, k);
      } else {
        forall j | 0 <= j < n ensures !RuleMatches(rules[j], vs[j], kind, profile, i, aggregate) {
          assert rules[..n][j] == rules[j] && vs[..n][j] == vs[j];
        }
        if RuleMatches(rules[n], vs[n], kind, profile, i, aggregate) {
          assert IsFirstRule(rules, vs, kind, profile, i, aggregate, n);
        }
      }
    }
  }

  lemma FirstRuleStays(
    rules: seq<Placed>, vs: seq<RuleValue>, kind: ExitKind, profile: Profile, i: nat, aggregate: real, k: int)
    requires |rules| == |vs| > 0 && IsFirstRule(rules[..|rules| - 1], vs[..|rules| - 1], kind, profile, i, aggregate, k)
    ensures IsFirstRule(rules, vs, kind, profile, i, aggregate, k) && rules[k] == rules[..|rules| - 1][k]
  {
    hide RuleMatches;
    var n := |rules| - 1;
    assert forall j | 0 <= j < n :: rules[..n][j] == rules[j] && vs[..n][j] == vs[j];
  }

  /** Every aggregate ratio that is present has its rule: the leg is never left unattributed. */
  lemma LegTotal(
    sides: set<Side>, rules: seq<Placed>, vs: seq<RuleValue>, size: nat, kind: ExitKind, profile: Profile, i: nat,
    ratio: Option<real>)
    requires Matching(rules, vs, size) && i < size && kind != Signal
    requires IsLeast(RatiosInForce(rules, vs, size, profile, kind, i), ratio)
    ensures var leg := LegFor(Filled(sides, rules, vs).evidence, kind, profile, i, ratio);
            && leg.Value?
            && (ratio.None? ==> leg.value == None)
            && (ratio.Some? ==> exists k :: IsFirstRule(rules, vs, kind, profile, i, ratio.value, k)
                                            && leg.value == Some(Leg(ratio.value, RuleAttribution(rules[k]))))
  {
    if ratio.Some? {
      var k :| 0 <= k < |rules| && Reads(rules[k], profile, kind) && vs[k].DistanceValue? && vs[k].ratio[i] == ratio;
      assert RuleMatches(rules[k], vs[k], kind, profile, i, ratio.value);
      PickIsFirstRule(sides, rules, vs, size, kind, profile, i, ratio.value);
    }
  }

  /** Where the ratios in force are either the aggregate or out of its band, the attributed rule has exactly the
      aggregate's ratio: the leg is put down to a rule that caused it. */
  lemma AttributedExactly(
    rules: seq<Placed>, vs: seq<RuleValue>, kind: ExitKind, profile: Profile, i: nat, aggregate: real, k: int)
    requires IsFirstRule(rules, vs, kind, profile, i, aggregate, k)
    requires forall j | 0 <= j < |rules| && Reads(rules[j], profile, kind) && vs[j].DistanceValue? && i < |vs[j].ratio|
                        && vs[j].ratio[i].Some? ::
               vs[j].ratio[i].value == aggregate || !InBand(vs[j].ratio[i].value, aggregate)
    ensures vs[k].ratio[i] == Some(aggregate)
    ensures forall j | 0 <= j < k && Reads(rules[j], profile, kind) && vs[j].DistanceValue? && i < |vs[j].ratio| ::
              vs[j].ratio[i] != Some(aggregate)
  {
    hide InBand;
    assert Reads(rules[k], profile, kind);
    ItselfInBand(aggregate);
    forall j | 0 <= j < k && Reads(rules[j], profile, kind) && vs[j].DistanceValue? && i < |vs[j].ratio|
      ensures vs[j].ratio[i] != Some(aggregate)
    {
      assert !RuleMatches(rules[j], vs[j], kind, profile, i, aggregate);
    }
  }

  // -- partial takes -----------------------------------------------------------------------

  /** The legs of the partial takes in force, in declared order. */
  ghost function DeclaredLegs(rules: seq<Placed>, vs: seq<RuleValue>, profile: Profile, i: nat): seq<TakeLeg>
    requires |rules| == |vs|
  {
    if |rules| == 0 then [] else
    var k := |rules| - 1;
    DeclaredLegs(rules[..k], vs[..k], profile, i)
    + if Reads(rules[k], profile, PartialTake) && TakePresent(rules[k], vs[k], i)
      then [TakeLeg(vs[k].ratio[i].value, rules[k].rule.component.fraction.value, RuleAttribution(rules[k]))] else []
  }

  ghost predicate TakePresent(p: Placed, v: RuleValue, i: nat) {
    && v.DistanceValue? && i < |v.ratio| && v.ratio[i].Some?
    && p.rule.component.PartialComponent? && p.rule.component.fraction.Some?
  }

  ghost predicate TakesPresent(rules: seq<Placed>, vs: seq<RuleValue>, profile: Profile, i: nat) {
    |rules| == |vs| && forall k | 0 <= k < |rules| && Reads(rules[k], profile, PartialTake) :: TakePresent(rules[k], vs[k], i)
  }

  lemma {:induction false} RatiosByIdSplit(a: seq<Evidence>, b: seq<Evidence>)
    ensures RatiosById(a + b) == RatiosById(a) + RatiosById(b)
  {
    if |b| == 0 {
      assert a + b == a;
    } else {
      var n := |b| - 1;
      assert (a + b)[..|a| + n] == a + b[..n];
      RatiosByIdSplit(a, b[..n]);
    }
  }

  lemma RuleRatiosById(sides: set<Side>, p: Placed, v: RuleValue, size: nat)
    requires RuleHead(p.rule).None? && Fits(v, p.rule, size)
    ensures RatiosById(RuleEvidence(sides, p, v)) == if p.rule.Kind() == PartialTake then map[p.rule.id := v.ratio] else map[]
  {
    var evidence := RuleEvidence(sides, p, v);
    if v.SignalValue? {
      NoRatiosById(evidence);
    } else {
      assert evidence[..0] == [];
      assert RatiosById([]) == map[];
    }
  }

  lemma {:induction false} NoRatiosById(evidence: seq<Evidence>)
    requires forall e | e in evidence :: e.kind != PartialTake
    ensures RatiosById(evidence) == map[]
  {
    if |evidence| > 0 {
      NoRatiosById(evidence[..|evidence| - 1]);
    }
  }

  /** With unique ids the recorded ratios are the rules' own. */
  lemma {:induction false} TakeRatioFound(sides: set<Side>, rules: seq<Placed>, vs: seq<RuleValue>, size: nat, k: nat)
    requires DistinctIds(rules) && Matching(rules, vs, size) && k < |rules| && rules[k].rule.Kind() == PartialTake
    ensures var ratios := RatiosById(Filled(sides, rules, vs).evidence);
            rules[k].rule.id in ratios && vs[k].DistanceValue? && ratios[rules[k].rule.id] == vs[k].ratio
  {
    hide RuleEvidence, RatiosById, Filled, Fits;
    var n := |rules| - 1;
    LastEvidence(sides, rules, vs);
    RatiosByIdSplit(Filled(sides, rules[..n], vs[..n]).evidence, RuleEvidence(sides, rules[n], vs[n]));
    RuleRatiosById(sides, rules[n], vs[n], size);
    if k < n {
      assert rules[..n][k] == rules[k] && vs[..n][k] == vs[k];
      TakeRatioFound(sides, rules[..n], vs[..n], size, k);
      assert rules[k].rule.id != rules[n].rule.id;
    } else {
      KindOfValue(rules, vs, size, n);
    }
  }

  lemma LastEvidence(sides: set<Side>, rules: seq<Placed>, vs: seq<RuleValue>)
    requires |rules| == |vs| > 0
    ensures var n := |rules| - 1;
            Filled(sides, rules, vs).evidence
            == Filled(sides, rules[..n], vs[..n]).evidence + RuleEvidence(sides, rules[n], vs[n])
  {
  }

  lemma {:induction false} TakesSplit(a: seq<TakeRule>, b: seq<TakeRule>, ratios: map<string, Series>, profile: Profile, i: nat)
    requires |b| <= 1
    ensures TakesInForce(a + b, ratios, profile, i)
            == if |b| == 0 || !InForce(b[0].group, profile) || TakesInForce(a, ratios, profile, i).Raised?
               then TakesInForce(a, ratios, profile, i)
               else if RatioOn(ratios, b[0].id, i).None? then Raised(NULL_TAKE)
               else Value(TakesInForce(a, ratios, profile, i).value + [TakeLegOf(b[0], RatioOn(ratios, b[0].id, i).value)])
  {
    if |b| == 0 {
      assert a + b == a;
    } else {
      assert (a + b)[..|a|] == a;
    }
  }

  /** Each rule's recorded ratio under its id. */
  ghost predicate Recorded(rules: seq<Placed>, vs: seq<RuleValue>, ratios: map<string, Series>) {
    && |rules| == |vs|
    && forall k | 0 <= k < |rules| && rules[k].rule.Kind() == PartialTake ::
         rules[k].rule.id in ratios && vs[k].DistanceValue? && ratios[rules[k].rule.id] == vs[k].ratio
  }

  lemma {:induction false} LegsDeclared(
    sides: set<Side>, rules: seq<Placed>, vs: seq<RuleValue>, size: nat, ratios: map<string, Series>, profile: Profile, i: nat)
    requires Matching(rules, vs, size) && Recorded(rules, vs, ratios) && TakesPresent(rules, vs, profile, i)
    ensures TakesInForce(Filled(sides, rules, vs).takes, ratios, profile, i) == Value(DeclaredLegs(rules, vs, profile, i))
  {
    hide RuleEvidence, TakesInForce, Recorded, TakesPresent, TakePresent, Matching, Reads, TakeLegOf;
    if |rules| == 0 {
      assert TakesInForce([], ratios, profile, i) == Value([]) by { NoTakes(ratios, profile, i); }
    } else {
      var n := |rules| - 1;
      MatchingEarlier(rules, vs, size);
      var earlier := Filled(sides, rules[..n], vs[..n]);
      RecordedEarlier(rules, vs, ratios);
      PresentEarlier(rules, vs, profile, i);
      LegsDeclared(sides, rules[..n], vs[..n], size, ratios, profile, i);
      TakesSplit(earlier.takes, RuleTakes(rules[n], vs[n]), ratios, profile, i);
      LastRecorded(rules, vs, size, ratios, profile, i);
      OneLeg(rules[n], vs[n], size, ratios, profile, i);
      var legs := DeclaredLegs(rules[..n], vs[..n], profile, i);
      assert legs + [] == legs;
    }
  }

  lemma NoTakes(ratios: map<string, Series>, profile: Profile, i: nat)
    ensures TakesInForce([], ratios, profile, i) == Value([])
  {
  }

  lemma MatchingEarlier(rules: seq<Placed>, vs: seq<RuleValue>, size: nat)
    requires |rules| > 0 && Matching(rules, vs, size)
    ensures |vs| == |rules| && Matching(rules[..|rules| - 1], vs[..|rules| - 1], size)
  {
  }

  lemma LastRecorded(
    rules: seq<Placed>, vs: seq<RuleValue>, size: nat, ratios: map<string, Series>, profile: Profile, i: nat)
    requires |rules| > 0 && Matching(rules, vs, size) && Recorded(rules, vs, ratios) && TakesPresent(rules, vs, profile, i)
    ensures var p, v := rules[|rules| - 1], vs[|rules| - 1];
            && RuleHead(p.rule).None? && Fits(v, p.rule, size)
            && (p.rule.Kind() == PartialTake ==> p.rule.id in ratios && v.DistanceValue? && ratios[p.rule.id] == v.ratio)
            && (Reads(p, profile, PartialTake) ==> TakePresent(p, v, i))
  {
  }

  lemma RecordedEarlier(rules: seq<Placed>, vs: seq<RuleValue>, ratios: map<string, Series>)
    requires |rules| > 0 && Recorded(rules, vs, ratios)
    ensures Recorded(rules[..|rules| - 1], vs[..|rules| - 1], ratios)
  {
  }

  lemma PresentEarlier(rules: seq<Placed>, vs: seq<RuleValue>, profile: Profile, i: nat)
    requires |rules| > 0 && TakesPresent(rules, vs, profile, i)
    ensures TakesPresent(rules[..|rules| - 1], vs[..|rules| - 1], profile, i)
  {
    var n := |rules| - 1;
    forall k | 0 <= k < n && Reads(rules[..n][k], profile, PartialTake) ensures TakePresent(rules[..n][k], vs[..n][k], i) {
      assert rules[..n][k] == rules[k] && vs[..n][k] == vs[k];
    }
  }

  lemma OneLeg(p: Placed, v: RuleValue, size: nat, ratios: map<string, Series>, profile: Profile, i: nat)
    requires RuleHead(p.rule).None? && Fits(v, p.rule, size)
    requires p.rule.Kind() == PartialTake ==> p.rule.id in ratios && v.DistanceValue? && ratios[p.rule.id] == v.ratio
    requires Reads(p, profile, PartialTake) ==> TakePresent(p, v, i)
    ensures var takes := RuleTakes(p, v);
            if Reads(p, profile, PartialTake)
            then && |takes| == 1 && InForce(takes[0].group, profile) && RatioOn(ratios, takes[0].id, i).Some?
                 && TakeLegOf(takes[0], RatioOn(ratios, takes[0].id, i).value)
                    == TakeLeg(v.ratio[i].value, p.rule.component.fraction.value, RuleAttribution(p))
            else takes == [] || (|takes| == 1 && !InForce(takes[0].group, profile))
  {
  }

  /** Where every take in force has its ratio, all legs are there, sorted by level and in declared order within
      one. */
  lemma TakesTotal(sides: set<Side>, rules: seq<Placed>, vs: seq<RuleValue>, size: nat, profile: Profile, i: nat)
    requires DistinctIds(rules) && Matching(rules, vs, size) && TakesPresent(rules, vs, profile, i)
    ensures var t := Filled(sides, rules, vs);
            TakeLegs(t.takes, t.evidence, profile, i) == Value(SortLegs(DeclaredLegs(rules, vs, profile, i)))
  {
    var ratios := RatiosById(Filled(sides, rules, vs).evidence);
    forall k | 0 <= k < |rules| && rules[k].rule.Kind() == PartialTake
      ensures rules[k].rule.id in ratios && vs[k].DistanceValue? && ratios[rules[k].rule.id] == vs[k].ratio
    {
      TakeRatioFound(sides, rules, vs, size, k);
    }
    LegsDeclared(sides, rules, vs, size, ratios, profile, i);
  }

  // -- ready bars --------------------------------------------------------------------------

  ghost predicate Configured(rules: seq<Placed>, profile: Profile, kind: ExitKind) {
    exists k :: 0 <= k < |rules| && Reads(rules[k], profile, kind)
  }

  lemma SelectedConfigured(rules: seq<Placed>, profile: Profile, kind: ExitKind)
    ensures Selected(rules, profile, kind) != [] <==> Configured(rules, profile, kind)
  {
    var ids := Selected(rules, profile, kind);
    if ids != [] {
      SelectedExact(rules, profile, kind, ids[0]);
    }
    if k :| 0 <= k < |rules| && Reads(rules[k], profile, kind) {
      SelectedExact(rules, profile, kind, rules[k].rule.id);
    }
  }

  /** What a policy says on one bar under one profile. */
  ghost predicate BarExact(
    rules: seq<Placed>, vs: seq<RuleValue>, size: nat, profile: Profile, i: nat,
    stop: Option<real>, take: Option<real>, ready: bool)
    requires Matching(rules, vs, size) && i < size
  {
    && IsLeast(RatiosInForce(rules, vs, size, profile, StopLoss, i), stop)
    && IsLeast(RatiosInForce(rules, vs, size, profile, TakeProfit, i), take)
    && (ready <==>
          && (Configured(rules, profile, StopLoss) ==> stop.Some?)
          && (Configured(rules, profile, TakeProfit) ==> take.Some?)
          && RatiosPresent(rules, vs, size, profile, i))
  }

  ghost predicate RatiosPresent(rules: seq<Placed>, vs: seq<RuleValue>, size: nat, profile: Profile, i: nat)
    requires Matching(rules, vs, size) && i < size
  {
    forall k | 0 <= k < |rules| && Reads(rules[k], profile, PartialTake) :: vs[k].DistanceValue? && vs[k].ratio[i].Some?
  }

  lemma ProfileExact(sides: set<Side>, rules: seq<Placed>, vs: seq<RuleValue>, size: nat, profile: Profile, i: nat)
    requires DistinctIds(rules) && Matching(rules, vs, size) && i < size
    requires Complete(Filled(sides, rules, vs), rules, size)
    ensures var t := Filled(sides, rules, vs);
            var s, ready := ProfileOf(t, rules, size, profile), ProfileReady(t, rules, size, profile);
            BarExact(rules, vs, size, profile, i, s.stopRatio[i], s.takeRatio[i], ready[i])
  {
    hide Filled, Selected, RatiosInForce, IsLeast, SideSignals, AnyOf, Complete;
    var t := Filled(sides, rules, vs);
    AggregateIsLeast(sides, rules, vs, size, profile, StopLoss, i);
    AggregateIsLeast(sides, rules, vs, size, profile, TakeProfit, i);
    SelectedConfigured(rules, profile, StopLoss);
    SelectedConfigured(rules, profile, TakeProfit);
    SelectedFound(t, rules, size, profile, PartialTake);
    TakesRead(sides, rules, vs, size, profile, i);
    var s, ready := ProfileOf(t, rules, size, profile), ProfileReady(t, rules, size, profile);
    assert s.stopRatio[i] == MinAt(Gather(t.ratio, Selected(rules, profile, StopLoss)), i);
    assert s.takeRatio[i] == MinAt(Gather(t.ratio, Selected(rules, profile, TakeProfit)), i);
  }

  lemma TakesRead(sides: set<Side>, rules: seq<Placed>, vs: seq<RuleValue>, size: nat, profile: Profile, i: nat)
    requires DistinctIds(rules) && Matching(rules, vs, size) && i < size
    requires Complete(Filled(sides, rules, vs), rules, size)
    ensures var t, ids := Filled(sides, rules, vs), Selected(rules, profile, PartialTake);
            && (forall id | id in ids :: id in t.ratio)
            && AllSized(Gather<Series>(t.ratio, ids), size)
            && ((forall k | 0 <= k < |ids| :: Gather<Series>(t.ratio, ids)[k][i].Some?) <==> RatiosPresent(rules, vs, size, profile, i))
  {
    hide Filled, Selected;
    var t, ids := Filled(sides, rules, vs), Selected(rules, profile, PartialTake);
    SelectedFound(t, rules, size, profile, PartialTake);
    var columns: seq<Series> := Gather<Series>(t.ratio, ids);
    if RatiosPresent(rules, vs, size, profile, i) {
      forall k | 0 <= k < |ids| ensures columns[k][i].Some? {
        SelectedExact(rules, profile, PartialTake, ids[k]);
        var j :| 0 <= j < |rules| && Reads(rules[j], profile, PartialTake) && rules[j].rule.id == ids[k];
        FilledLookup(sides, rules, vs, size, j);
      }
    }
    if forall k | 0 <= k < |ids| :: columns[k][i].Some? {
      forall j | 0 <= j < |rules| && Reads(rules[j], profile, PartialTake) ensures vs[j].DistanceValue? && vs[j].ratio[i].Some? {
        KindOfValue(rules, vs, size, j);
        FilledLookup(sides, rules, vs, size, j);
        SelectedExact(rules, profile, PartialTake, rules[j].rule.id);
        var k :| 0 <= k < |ids| && ids[k] == rules[j].rule.id;
        assert columns[k] == vs[j].ratio;
      }
    }
  }
}
