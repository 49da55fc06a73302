/** Ids that keep the writes of a policy apart: without a colon, and distinct within their section. */
module ProjectionIds {
  import opened NodeProgram
  import opened EpisodeTables
  import opened ManagedPolicy
  import opened CompositeFold
  import opened ManagedReplay
  import opened ManagedProjection
  import opened ProjectionWrites

  // -- owners ----------------------------------------------------------------------------

  predicate Clean(text: string) {
    ':' !in text
  }

  predicate CleanOwner(o: Owner) {
    Clean(o.section) && Clean(o.id)
  }

  lemma ColonAfter(a: string, key: string)
    requires Clean(a) && a + ":" <= key
    ensures |a| < |key| && key[|a|] == ':' && key[..|a|] == a
    ensures forall i | 0 <= i < |a| :: key[i] != ':'
  {
    assert key[|a|] == (a + ":")[|a|];
    assert forall i | 0 <= i < |a| :: key[i] == (a + ":")[i] == a[i];
  }

  lemma FirstColon(a: string, b: string, key: string)
    requires Clean(a) && Clean(b) && a + ":" <= key && b + ":" <= key
    ensures a == b
  {
    ColonAfter(a, key);
    ColonAfter(b, key);
  }

  /** No id has two owners. */
  lemma OwnersApart(o: Owner, p: Owner, key: string)
    requires CleanOwner(o) && CleanOwner(p) && Prefix(o) <= key && Prefix(p) <= key
    ensures o == p
  {
    assert o.section + ":" <= Prefix(o) && p.section + ":" <= Prefix(p);
    FirstColon(o.section, p.section, key);
    var rest := key[|o.section| + 1..];
    assert o.id + ":" == Prefix(o)[|o.section| + 1..] && p.id + ":" == Prefix(p)[|p.section| + 1..];
    FirstColon(o.id, p.id, rest);
  }

  /** Every write belongs to one of the owners. */
  ghost predicate OwnedBy<T>(owners: set<Owner>, ws: seq<Write<T>>) {
    && (forall o | o in owners :: CleanOwner(o))
    && forall w | w in ws :: exists o :: o in owners && Prefix(o) <= w.key
  }

  /** Writes of different owners never meet. */
  lemma AgreeBoth<T(!new)>(a: set<Owner>, v: seq<Write<T>>, b: set<Owner>, w: seq<Write<T>>)
    requires OwnedBy(a, v) && OwnedBy(b, w) && a !! b && Agree(v) && Agree(w)
    ensures OwnedBy(a + b, v + w) && Agree(v + w)
  {
    forall x, y | x in v && y in w ensures x.key != y.key {
      var o :| o in a && Prefix(o) <= x.key;
      var p :| p in b && Prefix(p) <= y.key;
      if x.key == y.key {
        OwnersApart(o, p, x.key);
      }
    }
    forall x | x in v + w ensures exists o :: o in a + b && Prefix(o) <= x.key {
      if x in v {
        var o :| o in a && Prefix(o) <= x.key;
        assert o in a + b;
      } else {
        var o :| o in b && Prefix(o) <= x.key;
        assert o in a + b;
      }
    }
  }

  lemma NothingOwned<T(!new)>(ws: seq<Write<T>>)
    requires |ws| == 0
    ensures OwnedBy({}, ws) && Agree(ws)
  {
  }

  // -- ids inside a composite rule ---------------------------------------------------------

  lemma Sandwich(before: string, a: string, b: string, after: string)
    requires before + a + after == before + b + after
    ensures a == b
  {
    var x, y := before + a + after, before + b + after;
    assert |a| == |b|;
    assert a == x[|before|..|before| + |a|] && b == y[|before|..|before| + |b|];
  }

  lemma SameChild(o: Owner, a: string, b: string)
    ensures ConditionKey(o, a) == ConditionKey(o, b) ==> a == b
    ensures DistanceKey(o, a) == DistanceKey(o, b) ==> a == b
    ensures SeriesKey(o, a) == SeriesKey(o, b) ==> a == b
    ensures PathKey(o, a) == PathKey(o, b) ==> a == b
  {
    var before := Prefix(o) + "child:";
    if ConditionKey(o, a) == ConditionKey(o, b) {
      Sandwich(before, a, b, ":condition");
    }
    if DistanceKey(o, a) == DistanceKey(o, b) {
      Sandwich(before, a, b, ":distance");
    }
    if SeriesKey(o, a) == SeriesKey(o, b) {
      Sandwich(before, a, b, ":series");
    }
    if PathKey(o, a) == PathKey(o, b) {
      Sandwich(Prefix(o) + "path:", a, b, ":condition");
    }
  }

  lemma KindsDiffer(o: Owner, a: string, b: string)
    ensures PathKey(o, a) != ConditionKey(o, b) && DistanceKey(o, a) != SeriesKey(o, b)
  {
    assert PathKey(o, a)[|Prefix(o)|] == 'p' && ConditionKey(o, b)[|Prefix(o)|] == 'c';
    var x, y := DistanceKey(o, a), SeriesKey(o, b);
    assert x[|x| - 1] == 'e' && y[|y| - 1] == 's';
  }

  lemma KeysOwned(o: Owner, ref: string)
    ensures Prefix(o) <= ConditionKey(o, ref) && Prefix(o) <= DistanceKey(o, ref)
    ensures Prefix(o) <= SeriesKey(o, ref) && Prefix(o) <= PathKey(o, ref)
  {
  }

  ghost predicate DistinctPaths(paths: seq<Path>) {
    forall i, j | 0 <= i < j < |paths| :: paths[i].id != paths[j].id
  }

  /** A write of a composite rule: of a market child, or of the market part of one of its paths. */
  ghost predicate ConditionOf(
    frame: Frame, o: Owner, children: seq<Child>, paths: seq<Path>, w: Write<ConditionSeries>)
  {
    (exists ref :: OfMarket(frame, o, children, ref, w)) || exists k | 0 <= k < |paths| :: OfPath(frame, o, children, paths[k], w)
  }

  ghost predicate OfMarket(frame: Frame, o: Owner, children: seq<Child>, ref: string, w: Write<ConditionSeries>) {
    w.key == ConditionKey(o, ref) && MarketRef(children, ref) && w.series == MarketSeries(frame, Find(children, ref).value)
  }

  ghost predicate OfPath(frame: Frame, o: Owner, children: seq<Child>, path: Path, w: Write<ConditionSeries>) {
    w.key == PathKey(o, path.id) && w.series == PathSeries(frame, children, path)
  }

  /** A write of a composite rule: of a trade child, or of the operand of an entry change. */
  ghost predicate DistanceOf(frame: Frame, o: Owner, children: seq<Child>, w: Write<Series>) {
    exists ref :: OfTrade(frame, o, children, ref, w) || OfChange(frame, o, children, ref, w)
  }

  ghost predicate OfTrade(frame: Frame, o: Owner, children: seq<Child>, ref: string, w: Write<Series>) {
    w.key == DistanceKey(o, ref) && TradeRef(children, ref)
    && w.series == ThresholdSeries(frame, Find(children, ref).value.atom)
  }

  ghost predicate OfChange(frame: Frame, o: Owner, children: seq<Child>, ref: string, w: Write<Series>) {
    w.key == SeriesKey(o, ref) && ChangeRef(children, ref)
    && w.series == SeriesOf(frame, Some(Find(children, ref).value.feature))
  }

  lemma {:induction false} RefsOwn(frame: Frame, o: Owner, children: seq<Child>, refs: seq<string>)
    ensures forall w | w in RefsConditions(frame, o, children, refs) :: exists ref :: OfMarket(frame, o, children, ref, w)
    ensures forall w | w in RefsDistances(frame, o, children, refs) :: DistanceOf(frame, o, children, w)
  {
    hide ConditionKey, DistanceKey, SeriesKey, Find, MarketSeries, ThresholdSeries, SeriesOf;
    if |refs| > 0 {
      var last := refs[|refs| - 1];
      RefsOwn(frame, o, children, refs[..|refs| - 1]);
      forall w | w in RefConditions(frame, o, children, last) ensures OfMarket(frame, o, children, last, w) {
      }
      forall w | w in RefDistances(frame, o, children, last) ensures DistanceOf(frame, o, children, w) {
        assert OfTrade(frame, o, children, last, w) || OfChange(frame, o, children, last, w);
      }
    }
  }

  lemma PathOwns(frame: Frame, o: Owner, children: seq<Child>, paths: seq<Path>, k: nat)
    requires k < |paths|
    ensures forall w | w in PathConditions(frame, o, children, paths[k]) :: ConditionOf(frame, o, children, paths, w)
    ensures forall w | w in PathDistances(frame, o, children, paths[k]) :: DistanceOf(frame, o, children, w)
  {
    hide PathKey, PathSeries, RefsConditions, RefsDistances, OfMarket, DistanceOf, HasMarketPart, Mixed;
    var path := paths[k];
    RefsOwn(frame, o, children, Counted(frame, children, path));
    RefsOwn(frame, o, children, TradeRefs(children, path.require));
    RefsOwn(frame, o, children, ChangeRefs(children, path.require));
    forall w | w in PathConditions(frame, o, children, path) ensures ConditionOf(frame, o, children, paths, w) {
      if w !in RefsConditions(frame, o, children, Counted(frame, children, path)) {
        assert OfPath(frame, o, children, paths[k], w);
      }
    }
  }

  lemma {:induction false} PathsOwn(frame: Frame, o: Owner, children: seq<Child>, paths: seq<Path>, n: nat)
    requires n <= |paths|
    ensures forall w | w in PathsConditions(frame, o, children, paths[..n]) :: ConditionOf(frame, o, children, paths, w)
    ensures forall w | w in PathsDistances(frame, o, children, paths[..n]) :: DistanceOf(frame, o, children, w)
  {
    hide ConditionOf, DistanceOf, PathConditions, PathDistances;
    if n > 0 {
      PathsOwn(frame, o, children, paths, n - 1);
      PathOwns(frame, o, children, paths, n - 1);
      assert paths[..n][..n - 1] == paths[..n - 1];
    }
  }

  lemma ConditionsAgree(
    frame: Frame, o: Owner, children: seq<Child>, paths: seq<Path>, v: Write<ConditionSeries>, w: Write<ConditionSeries>)
    requires DistinctPaths(paths) && v.key == w.key
    requires ConditionOf(frame, o, children, paths, v) && ConditionOf(frame, o, children, paths, w)
    ensures v.series == w.series && Prefix(o) <= v.key
  {
    hide ConditionKey, PathKey, Find, MarketSeries, PathSeries, Prefix;
    if a :| OfMarket(frame, o, children, a, v) {
      KeysOwned(o, a);
      if b :| OfMarket(frame, o, children, b, w) {
        SameChild(o, a, b);
      } else {
        var k :| 0 <= k < |paths| && OfPath(frame, o, children, paths[k], w);
        KindsDiffer(o, paths[k].id, a);
      }
    } else {
      var j :| 0 <= j < |paths| && OfPath(frame, o, children, paths[j], v);
      KeysOwned(o, paths[j].id);
      if b :| OfMarket(frame, o, children, b, w) {
        KindsDiffer(o, paths[j].id, b);
      } else {
        var k :| 0 <= k < |paths| && OfPath(frame, o, children, paths[k], w);
        SameChild(o, paths[j].id, paths[k].id);
      }
    }
  }

  lemma DistancesAgree(frame: Frame, o: Owner, children: seq<Child>, v: Write<Series>, w: Write<Series>)
    requires v.key == w.key && DistanceOf(frame, o, children, v) && DistanceOf(frame, o, children, w)
    ensures v.series == w.series && Prefix(o) <= v.key
  {
    hide DistanceKey, SeriesKey, Find, ThresholdSeries, SeriesOf, Prefix;
    var a :| OfTrade(frame, o, children, a, v) || OfChange(frame, o, children, a, v);
    var b :| OfTrade(frame, o, children, b, w) || OfChange(frame, o, children, b, w);
    KeysOwned(o, a);
    SameChild(o, a, b);
    KindsDiffer(o, a, b);
    KindsDiffer(o, b, a);
  }

  // -- the rules of a policy ------------------------------------------------------------------

  ghost predicate DistinguishablePhases(rules: seq<PhaseRule>) {
    && (forall k | 0 <= k < |rules| :: Clean(rules[k].id))
    && (forall i, j | 0 <= i < j < |rules| :: rules[i].id != rules[j].id)
    && (forall k | 0 <= k < |rules| && rules[k].condition.Composite? :: DistinctPaths(rules[k].condition.paths))
  }

  ghost predicate DistinguishableStops(rules: seq<StopRule>) {
    && (forall k | 0 <= k < |rules| :: Clean(rules[k].id))
    && (forall i, j | 0 <= i < j < |rules| :: rules[i].id != rules[j].id)
  }

  ghost predicate DistinguishableExits(rules: seq<RuntimeRule>) {
    && (forall k | 0 <= k < |rules| :: Clean(rules[k].id))
    && (forall i, j | 0 <= i < j < |rules| :: rules[i].id != rules[j].id)
  }

  ghost predicate Distinguishable(policy: Policy) {
    DistinguishablePhases(policy.phases) && DistinguishableStops(policy.stops) && DistinguishableExits(policy.runtimes)
  }

  lemma SectionsDiffer()
    ensures "phase" != "stop" && "phase" != "runtime" && "stop" != "runtime"
    ensures Clean("phase") && Clean("stop") && Clean("runtime")
  {
    assert |"phase"| == 5 && |"stop"| == 4 && |"runtime"| == 7;
  }

  lemma PhaseApart(frame: Frame, rule: PhaseRule)
    requires Clean(rule.id) && (rule.condition.Composite? ==> DistinctPaths(rule.condition.paths))
    ensures OwnedBy({PhaseOwner(rule)}, PhaseConditions(frame, rule)) && Agree(PhaseConditions(frame, rule))
    ensures OwnedBy({PhaseOwner(rule)}, PhaseDistances(frame, rule)) && Agree(PhaseDistances(frame, rule))
  {
    hide ConditionOf, DistanceOf, PathsConditions, PathsDistances, MarketSeries, ThresholdSeries, DistinctPaths;
    var o := PhaseOwner(rule);
    SectionsDiffer();
    assert o in {o} && Prefix(o) <= Prefix(o) + "condition" && Prefix(o) <= Prefix(o) + "distance";
    if rule.condition.Composite? {
      CompositeApart(frame, o, rule.condition.children, rule.condition.paths);
    }
  }

  lemma CompositeApart(frame: Frame, o: Owner, children: seq<Child>, paths: seq<Path>)
    requires CleanOwner(o) && DistinctPaths(paths)
    ensures OwnedBy({o}, PathsConditions(frame, o, children, paths)) && Agree(PathsConditions(frame, o, children, paths))
    ensures OwnedBy({o}, PathsDistances(frame, o, children, paths)) && Agree(PathsDistances(frame, o, children, paths))
  {
    hide ConditionOf, DistanceOf, PathsConditions, PathsDistances, Prefix, DistinctPaths;
    var cs, ds := PathsConditions(frame, o, children, paths), PathsDistances(frame, o, children, paths);
    PathsOwn(frame, o, children, paths, |paths|);
    assert paths[..|paths|] == paths && o in {o};
    forall v, w | v in cs && w in cs && v.key == w.key ensures v.series == w.series && Prefix(o) <= v.key {
      ConditionsAgree(frame, o, children, paths, v, w);
    }
    forall v, w | v in ds && w in ds && v.key == w.key ensures v.series == w.series && Prefix(o) <= v.key {
      DistancesAgree(frame, o, children, v, w);
    }
  }

  lemma StopApart(frame: Frame, rule: StopRule)
    requires Clean(rule.id)
    ensures OwnedBy({StopOwner(rule)}, StopDistances(frame, rule)) && Agree(StopDistances(frame, rule))
  {
    hide StopDistance, Constant;
    var o := StopOwner(rule);
    SectionsDiffer();
    assert o in {o} && Prefix(o) <= Prefix(o) + "distance" && Prefix(o) <= Prefix(o) + "trigger";
    assert |Prefix(o) + "distance"| != |Prefix(o) + "trigger"|;
  }

  lemma ExitApart(frame: Frame, rule: RuntimeRule)
    requires Clean(rule.id)
    ensures OwnedBy({ExitOwner(rule)}, [ExitCondition(frame, rule)]) && Agree([ExitCondition(frame, rule)])
  {
    var o := ExitOwner(rule);
    SectionsDiffer();
    assert o in {o} && Prefix(o) <= Prefix(o) + "condition";
  }

  ghost function Named(section: string, ids: seq<string>): set<Owner> {
    set k | 0 <= k < |ids| :: Owner(section, ids[k])
  }

  ghost function PhaseIds(rules: seq<PhaseRule>): seq<string> {
    seq(|rules|, k requires 0 <= k < |rules| => rules[k].id)
  }

  ghost function StopIds(rules: seq<StopRule>): seq<string> {
    seq(|rules|, k requires 0 <= k < |rules| => rules[k].id)
  }

  ghost function ExitIds(rules: seq<RuntimeRule>): seq<string> {
    seq(|rules|, k requires 0 <= k < |rules| => rules[k].id)
  }

  /** A last id that is new adds one owner. */
  lemma NamedMore(section: string, ids: seq<string>, id: string)
    requires forall k | 0 <= k < |ids| :: ids[k] != id
    ensures Named(section, ids + [id]) == Named(section, ids) + {Owner(section, id)}
    ensures Named(section, ids) !! {Owner(section, id)}
  {
    assert (ids + [id])[|ids|] == id;
    forall k | 0 <= k < |ids| ensures Owner(section, ids[k]) in Named(section, ids + [id]) {
      assert (ids + [id])[k] == ids[k];
    }
  }

  lemma {:induction false} PhasesApart(frame: Frame, rules: seq<PhaseRule>)
    requires DistinguishablePhases(rules)
    ensures var owners := Named("phase", PhaseIds(rules));
            && OwnedBy(owners, PhasesConditions(frame, rules)) && Agree(PhasesConditions(frame, rules))
            && OwnedBy(owners, PhasesDistances(frame, rules)) && Agree(PhasesDistances(frame, rules))
  {
    hide OwnedBy, Agree, PhaseConditions, PhaseDistances, Named, Clean, DistinctPaths;
    if |rules| == 0 {
      NothingOwned(PhasesConditions(frame, rules));
      NothingOwned(PhasesDistances(frame, rules));
      NamedNone("phase", PhaseIds(rules));
    } else {
      var most, last := rules[..|rules| - 1], rules[|rules| - 1];
      PhasesApart(frame, most);
      PhaseApart(frame, last);
      NamedMore("phase", PhaseIds(most), last.id);
      assert PhaseIds(rules) == PhaseIds(most) + [last.id];
      var a, b := Named("phase", PhaseIds(most)), {PhaseOwner(last)};
      AgreeBoth(a, PhasesConditions(frame, most), b, PhaseConditions(frame, last));
      AgreeBoth(a, PhasesDistances(frame, most), b, PhaseDistances(frame, last));
    }
  }

  lemma NamedNone(section: string, ids: seq<string>)
    requires |ids| == 0
    ensures Named(section, ids) == {}
  {
  }

  lemma {:induction false} StopsApart(frame: Frame, rules: seq<StopRule>)
    requires DistinguishableStops(rules)
    ensures OwnedBy(Named("stop", StopIds(rules)), StopsDistances(frame, rules)) && Agree(StopsDistances(frame, rules))
  {
    hide OwnedBy, Agree, StopDistances, Named, Clean;
    if |rules| == 0 {
      NothingOwned(StopsDistances(frame, rules));
      NamedNone("stop", StopIds(rules));
    } else {
      var most, last := rules[..|rules| - 1], rules[|rules| - 1];
      StopsApart(frame, most);
      StopApart(frame, last);
      NamedMore("stop", StopIds(most), last.id);
      assert StopIds(rules) == StopIds(most) + [last.id];
      AgreeBoth(Named("stop", StopIds(most)), StopsDistances(frame, most), {StopOwner(last)}, StopDistances(frame, last));
    }
  }

  lemma {:induction false} ExitsApart(frame: Frame, rules: seq<RuntimeRule>)
    requires DistinguishableExits(rules)
    ensures OwnedBy(Named("runtime", ExitIds(rules)), ExitsConditions(frame, rules)) && Agree(ExitsConditions(frame, rules))
  {
    hide OwnedBy, Agree, ExitCondition, Named, Clean;
    if |rules| == 0 {
      NothingOwned(ExitsConditions(frame, rules));
      NamedNone("runtime", ExitIds(rules));
    } else {
      var most, last := rules[..|rules| - 1], rules[|rules| - 1];
      ExitsApart(frame, most);
      ExitApart(frame, last);
      NamedMore("runtime", ExitIds(most), last.id);
      assert ExitIds(rules) == ExitIds(most) + [last.id];
      AgreeBoth(Named("runtime", ExitIds(most)), ExitsConditions(frame, most), {ExitOwner(last)}, [ExitCondition(frame, last)]);
    }
  }

  lemma SectionsApart(a: string, x: seq<string>, b: string, y: seq<string>)
    requires a != b
    ensures Named(a, x) !! Named(b, y)
  {
  }

  /** Rule ids without a colon, distinct within their section, never meet at all; so the projection of such
      a policy is a rendering of it. */
  lemma DistinguishableIsConsistent(frame: Frame, policy: Policy)
    requires Distinguishable(policy)
    ensures Consistent(frame, policy)
  {
    hide OwnedBy, Agree, DistinguishablePhases, DistinguishableStops, DistinguishableExits, Named;
    PhasesApart(frame, policy.phases);
    StopsApart(frame, policy.stops);
    ExitsApart(frame, policy.runtimes);
    SectionsDiffer();
    var phases := Named("phase", PhaseIds(policy.phases));
    var stops, exits := Named("stop", StopIds(policy.stops)), Named("runtime", ExitIds(policy.runtimes));
    SectionsApart("phase", PhaseIds(policy.phases), "stop", StopIds(policy.stops));
    SectionsApart("phase", PhaseIds(policy.phases), "runtime", ExitIds(policy.runtimes));
    AgreeBoth(phases, PhasesConditions(frame, policy.phases), exits, ExitsConditions(frame, policy.runtimes));
    AgreeBoth(phases, PhasesDistances(frame, policy.phases), stops, StopsDistances(frame, policy.stops));
  }
}
