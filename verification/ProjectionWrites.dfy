/** What the builder of the managed projection writes: the ids of a policy, the series put under each of
    them in order, and the rules that refer to them. */
module ProjectionWrites {
  import opened NodeProgram
  import opened EpisodeTables
  import opened ManagedPolicy
  import opened CompositeFold
  import opened ManagedReplay
  import opened ManagedProjection

  // -- writes ----------------------------------------------------------------------------

  /** One write to a dictionary. The series of a child is written only if its id is still free, every other
      write overwrites. */
  datatype Write<T> = Write(key: string, series: T, firstWins: bool)

  function Apply<T>(entries: map<string, T>, w: Write<T>): map<string, T> {
    if w.firstWins && w.key in entries then entries else entries[w.key := w.series]
  }

  function Applied<T>(entries: map<string, T>, ws: seq<Write<T>>): map<string, T> {
    if |ws| == 0 then entries else Apply(Applied(entries, ws[..|ws| - 1]), ws[|ws| - 1])
  }

  lemma AppliedOne<T>(entries: map<string, T>, w: Write<T>)
    ensures Applied(entries, [w]) == Apply(entries, w)
  {
    assert [w][..0] == [] && Applied(entries, [w][..0]) == entries;
  }

  lemma {:induction false} AppliedTwice<T>(entries: map<string, T>, a: seq<Write<T>>, b: seq<Write<T>>)
    ensures Applied(Applied(entries, a), b) == Applied(entries, a + b)
  {
    if |b| == 0 {
      assert a + b == a;
    } else {
      var most := b[..|b| - 1];
      AppliedTwice(entries, a, most);
      assert (a + b)[..|a + b| - 1] == a + most;
    }
  }

  /** The write is still there: its id leads to its series. */
  ghost predicate Holds<T>(entries: map<string, T>, w: Write<T>) {
    w.key in entries && entries[w.key] == w.series
  }

  ghost predicate Held<T>(entries: map<string, T>, ws: seq<Write<T>>) {
    forall w | w in ws :: Holds(entries, w)
  }

  lemma HeldBoth<T>(entries: map<string, T>, a: seq<Write<T>>, b: seq<Write<T>>)
    ensures Held(entries, a + b) <==> Held(entries, a) && Held(entries, b)
  {
    if Held(entries, a + b) {
      assert forall w | w in a :: w in a + b;
      assert forall w | w in b :: w in a + b;
    }
  }

  lemma HeldOne<T>(entries: map<string, T>, w: Write<T>)
    ensures Held(entries, [w]) <==> Holds(entries, w)
  {
    assert w in [w];
  }

  /** Any two writes under one id put the same series there. */
  ghost predicate Agree<T(!new)>(ws: seq<Write<T>>) {
    forall v, w | v in ws && w in ws && v.key == w.key :: v.series == w.series
  }

  /** Every id written has an entry, and every entry is one of the series written under its id. */
  lemma {:induction false} AppliedFrom<T>(ws: seq<Write<T>>)
    ensures forall w | w in ws :: w.key in Applied(map[], ws)
    ensures forall key | key in Applied(map[], ws) ::
              exists w :: w in ws && w.key == key && w.series == Applied(map[], ws)[key]
  {
    if |ws| > 0 {
      var most, last := ws[..|ws| - 1], ws[|ws| - 1];
      AppliedFrom(most);
      assert ws == most + [last];
      var before, after := Applied(map[], most), Applied(map[], ws);
      assert after == Apply(before, last);
      forall key | key in after ensures exists w :: w in ws && w.key == key && w.series == after[key] {
        if key in before && after[key] == before[key] {
          var w :| w in most && w.key == key && w.series == before[key];
          assert w in ws;
        } else {
          assert last in ws && last.key == key && last.series == after[key];
        }
      }
    }
  }

  /** All writes survive if and only if those under one id agree, whichever of them wins. */
  lemma HeldExactly<T(!new)>(ws: seq<Write<T>>)
    ensures Held(Applied(map[], ws), ws) <==> Agree(ws)
  {
    AppliedFrom(ws);
    var entries := Applied(map[], ws);
    if Held(entries, ws) {
      forall v, w | v in ws && w in ws && v.key == w.key ensures v.series == w.series {
        assert Holds(entries, v) && Holds(entries, w);
      }
    }
    if Agree(ws) {
      forall w | w in ws ensures Holds(entries, w) {
        var v :| v in ws && v.key == w.key && v.series == entries[w.key];
      }
    }
  }

  // -- ids -------------------------------------------------------------------------------

  /** Every id a rule writes starts with the section and the rule's own id. */
  datatype Owner = Owner(section: string, id: string)

  function Prefix(o: Owner): string {
    o.section + ":" + o.id + ":"
  }

  function ChildKey(o: Owner, ref: string, ending: string): string {
    Prefix(o) + "child:" + ref + ending
  }

  function ConditionKey(o: Owner, ref: string): string {
    ChildKey(o, ref, ":condition")
  }

  function DistanceKey(o: Owner, ref: string): string {
    ChildKey(o, ref, ":distance")
  }

  function SeriesKey(o: Owner, ref: string): string {
    ChildKey(o, ref, ":series")
  }

  function PathKey(o: Owner, id: string): string {
    Prefix(o) + "path:" + id + ":condition"
  }

  function PhaseOwner(rule: PhaseRule): Owner {
    Owner("phase", rule.id)
  }

  function StopOwner(rule: StopRule): Owner {
    Owner("stop", rule.id)
  }

  function ExitOwner(rule: RuntimeRule): Owner {
    Owner("runtime", rule.id)
  }

  // -- the children of a composite rule ----------------------------------------------------

  predicate TradeRef(children: seq<Child>, ref: string) {
    var content := Find(children, ref);
    content.Some? && content.value.AtomChild? && TradeAtom(content.value.atom)
  }

  function ThresholdFor(o: Owner, children: seq<Child>, ref: string): Threshold {
    Threshold(DistanceKey(o, ref),
              if TradeRef(children, ref) then MetricOf(Find(children, ref).value.atom) else BarsSinceEntry)
  }

  function ChangeFor(o: Owner, children: seq<Child>, ref: string): EntryChange {
    if ChangeRef(children, ref)
    then EntryChange(SeriesKey(o, ref), Find(children, ref).value.op, Find(children, ref).value.amount)
    else EntryChange(SeriesKey(o, ref), AtLeastOp, 0.0)
  }

  function TermFor(o: Owner, children: seq<Child>, ref: string): Term {
    if MarketRef(children, ref) then MarketTerm(ConditionKey(o, ref))
    else if ChangeRef(children, ref) then ChangeTerm(ChangeFor(o, children, ref))
    else TradeTerm(ThresholdFor(o, children, ref))
  }

  function ThresholdsFor(o: Owner, children: seq<Child>, refs: seq<string>): seq<Threshold> {
    seq(|refs|, k requires 0 <= k < |refs| => ThresholdFor(o, children, refs[k]))
  }

  function ChangesFor(o: Owner, children: seq<Child>, refs: seq<string>): seq<EntryChange> {
    seq(|refs|, k requires 0 <= k < |refs| => ChangeFor(o, children, refs[k]))
  }

  function TermsFor(o: Owner, children: seq<Child>, refs: seq<string>): seq<Term> {
    seq(|refs|, k requires 0 <= k < |refs| => TermFor(o, children, refs[k]))
  }

  function RefConditions(frame: Frame, o: Owner, children: seq<Child>, ref: string): seq<Write<ConditionSeries>> {
    if MarketRef(children, ref)
    then [Write(ConditionKey(o, ref), MarketSeries(frame, Find(children, ref).value), true)]
    else []
  }

  function RefDistances(frame: Frame, o: Owner, children: seq<Child>, ref: string): seq<Write<Series>> {
    if ChangeRef(children, ref)
    then [Write(SeriesKey(o, ref), SeriesOf(frame, Some(Find(children, ref).value.feature)), true)]
    else if TradeRef(children, ref)
    then [Write(DistanceKey(o, ref), ThresholdSeries(frame, Find(children, ref).value.atom), true)]
    else []
  }

  function RefsConditions(frame: Frame, o: Owner, children: seq<Child>, refs: seq<string>): seq<Write<ConditionSeries>> {
    if |refs| == 0 then [] else
    RefsConditions(frame, o, children, refs[..|refs| - 1]) + RefConditions(frame, o, children, refs[|refs| - 1])
  }

  function RefsDistances(frame: Frame, o: Owner, children: seq<Child>, refs: seq<string>): seq<Write<Series>> {
    if |refs| == 0 then [] else
    RefsDistances(frame, o, children, refs[..|refs| - 1]) + RefDistances(frame, o, children, refs[|refs| - 1])
  }

  // -- one path, and all of them -------------------------------------------------------------

  /** The counted children are not all of the market: the vote stays with the consumer. */
  predicate Mixed(frame: Frame, children: seq<Child>, path: Path) {
    path.atLeast.Some? && !Votes(MasksOf(frame, Long, children), path)
  }

  function PathFor(frame: Frame, o: Owner, children: seq<Child>, path: Path): TransitionPath {
    TransitionPath(
      path.id,
      if HasMarketPart(frame, children, path) then Some(PathKey(o, path.id)) else None,
      ThresholdsFor(o, children, TradeRefs(children, path.require)),
      ChangesFor(o, children, ChangeRefs(children, path.require)),
      if Mixed(frame, children, path)
      then Some(TermsAtLeast(path.atLeast.value.k, TermsFor(o, children, path.atLeast.value.of)))
      else None)
  }

  /** The children a mixed vote counts. */
  function Counted(frame: Frame, children: seq<Child>, path: Path): seq<string> {
    if Mixed(frame, children, path) then path.atLeast.value.of else []
  }

  function PathConditions(frame: Frame, o: Owner, children: seq<Child>, path: Path): seq<Write<ConditionSeries>> {
    (if HasMarketPart(frame, children, path)
     then [Write(PathKey(o, path.id), PathSeries(frame, children, path), false)]
     else [])
    + RefsConditions(frame, o, children, Counted(frame, children, path))
  }

  /** The counted children first, then the required thresholds, then the required changes. */
  function PathDistances(frame: Frame, o: Owner, children: seq<Child>, path: Path): seq<Write<Series>> {
    RefsDistances(frame, o, children, Counted(frame, children, path))
    + (RefsDistances(frame, o, children, TradeRefs(children, path.require))
       + RefsDistances(frame, o, children, ChangeRefs(children, path.require)))
  }

  function PathsFor(frame: Frame, o: Owner, children: seq<Child>, paths: seq<Path>): seq<TransitionPath> {
    seq(|paths|, k requires 0 <= k < |paths| => PathFor(frame, o, children, paths[k]))
  }

  function PathsConditions(frame: Frame, o: Owner, children: seq<Child>, paths: seq<Path>): seq<Write<ConditionSeries>> {
    if |paths| == 0 then [] else
    PathsConditions(frame, o, children, paths[..|paths| - 1]) + PathConditions(frame, o, children, paths[|paths| - 1])
  }

  function PathsDistances(frame: Frame, o: Owner, children: seq<Child>, paths: seq<Path>): seq<Write<Series>> {
    if |paths| == 0 then [] else
    PathsDistances(frame, o, children, paths[..|paths| - 1]) + PathDistances(frame, o, children, paths[|paths| - 1])
  }

  // -- one rule --------------------------------------------------------------------------------

  function PhaseRuleFor(frame: Frame, rule: PhaseRule): ManagedRule {
    var o := PhaseOwner(rule);
    PhaseTransition(rule.id, rule.toPhase,
      match rule.condition
      case Atomic(atom) =>
        if TradeAtom(atom) then ByThreshold(Threshold(Prefix(o) + "distance", MetricOf(atom)))
        else ByCondition(Prefix(o) + "condition")
      case Composite(children, paths) => ByPaths(PathsFor(frame, o, children, paths)))
  }

  function PhaseConditions(frame: Frame, rule: PhaseRule): seq<Write<ConditionSeries>> {
    var o := PhaseOwner(rule);
    match rule.condition
    case Atomic(atom) =>
      if TradeAtom(atom) then [] else [Write(Prefix(o) + "condition", MarketSeries(frame, AtomChild(atom)), false)]
    case Composite(children, paths) => PathsConditions(frame, o, children, paths)
  }

  function PhaseDistances(frame: Frame, rule: PhaseRule): seq<Write<Series>> {
    var o := PhaseOwner(rule);
    match rule.condition
    case Atomic(atom) =>
      if TradeAtom(atom) then [Write(Prefix(o) + "distance", ThresholdSeries(frame, atom), false)] else []
    case Composite(children, paths) => PathsDistances(frame, o, children, paths)
  }

  function StopRuleFor(rule: StopRule): ManagedRule {
    var o := StopOwner(rule);
    StopMove(rule.id, rule.activation, Prefix(o) + "distance",
             if rule.action.InitialRLock? then LockFormula(Prefix(o) + "trigger")
             else if rule.action.InitialRTrailing? then TrailingFormula(Prefix(o) + "trigger")
             else FromEntry)
  }

  function StopDistances(frame: Frame, rule: StopRule): seq<Write<Series>> {
    var o := StopOwner(rule);
    var distance := [Write(Prefix(o) + "distance", StopDistance(frame, rule.action), false)];
    if rule.action.InitialRLock? || rule.action.InitialRTrailing?
    then [Write(Prefix(o) + "trigger", Constant(|frame.bars|, rule.action.trigger), false)] + distance
    else distance
  }

  function TakeRuleFor(rule: TakeRule): ManagedRule {
    TakeMove(rule.id, rule.activation, ProfileOf(rule.action))
  }

  function ExitRuleFor(rule: RuntimeRule): ManagedRule {
    RuntimeExit(rule.id, rule.activation, Prefix(ExitOwner(rule)) + "condition", rule.confirmBars,
                ClassOf(rule.exitKind))
  }

  function ExitCondition(frame: Frame, rule: RuntimeRule): Write<ConditionSeries> {
    Write(Prefix(ExitOwner(rule)) + "condition", ExitSeries(frame, rule.action), false)
  }

  // -- the whole policy --------------------------------------------------------------------------

  function PhasesConditions(frame: Frame, rules: seq<PhaseRule>): seq<Write<ConditionSeries>> {
    if |rules| == 0 then [] else
    PhasesConditions(frame, rules[..|rules| - 1]) + PhaseConditions(frame, rules[|rules| - 1])
  }

  function PhasesDistances(frame: Frame, rules: seq<PhaseRule>): seq<Write<Series>> {
    if |rules| == 0 then [] else
    PhasesDistances(frame, rules[..|rules| - 1]) + PhaseDistances(frame, rules[|rules| - 1])
  }

  function StopsDistances(frame: Frame, rules: seq<StopRule>): seq<Write<Series>> {
    if |rules| == 0 then [] else
    StopsDistances(frame, rules[..|rules| - 1]) + StopDistances(frame, rules[|rules| - 1])
  }

  function ExitsConditions(frame: Frame, rules: seq<RuntimeRule>): seq<Write<ConditionSeries>> {
    if |rules| == 0 then [] else
    ExitsConditions(frame, rules[..|rules| - 1]) + [ExitCondition(frame, rules[|rules| - 1])]
  }

  function ConditionWrites(frame: Frame, policy: Policy): seq<Write<ConditionSeries>> {
    PhasesConditions(frame, policy.phases) + ExitsConditions(frame, policy.runtimes)
  }

  function DistanceWrites(frame: Frame, policy: Policy): seq<Write<Series>> {
    PhasesDistances(frame, policy.phases) + StopsDistances(frame, policy.stops)
  }

  function PhaseRulesFor(frame: Frame, rules: seq<PhaseRule>): seq<ManagedRule> {
    seq(|rules|, k requires 0 <= k < |rules| => PhaseRuleFor(frame, rules[k]))
  }

  function StopRulesFor(rules: seq<StopRule>): seq<ManagedRule> {
    seq(|rules|, k requires 0 <= k < |rules| => StopRuleFor(rules[k]))
  }

  function TakeRulesFor(rules: seq<TakeRule>): seq<ManagedRule> {
    seq(|rules|, k requires 0 <= k < |rules| => TakeRuleFor(rules[k]))
  }

  function ExitRulesFor(rules: seq<RuntimeRule>): seq<ManagedRule> {
    seq(|rules|, k requires 0 <= k < |rules| => ExitRuleFor(rules[k]))
  }

  function RulesFor(frame: Frame, policy: Policy): seq<ManagedRule> {
    PhaseRulesFor(frame, policy.phases) + StopRulesFor(policy.stops)
    + TakeRulesFor(policy.takes) + ExitRulesFor(policy.runtimes)
  }

  /** What the builder makes of a policy. */
  function Built(frame: Frame, policy: Policy): Projection {
    Projection(Applied(map[], ConditionWrites(frame, policy)), Applied(map[], DistanceWrites(frame, policy)),
               RulesFor(frame, policy))
  }

  /** Wherever two writes of the policy meet under one id, they put the same series there. */
  ghost predicate Consistent(frame: Frame, policy: Policy) {
    Agree(ConditionWrites(frame, policy)) && Agree(DistanceWrites(frame, policy))
  }

  // -- a rule is rendered exactly while its writes are there ---------------------------------------

  ghost predicate Known(children: seq<Child>, refs: seq<string>) {
    forall ref | ref in refs :: Find(children, ref).Some?
  }

  lemma {:induction false} RefersFinds(children: seq<Child>, ref: string)
    requires Refers(children, ref)
    ensures Find(children, ref).Some?
  {
    if children[0].id != ref {
      var i :| 0 <= i < |children| && children[i].id == ref;
      assert children[1..][i - 1].id == ref;
      RefersFinds(children[1..], ref);
    }
  }

  lemma AllKnown(children: seq<Child>, refs: seq<string>)
    requires forall ref | ref in refs :: Refers(children, ref)
    ensures Known(children, refs)
  {
    forall ref | ref in refs ensures Find(children, ref).Some? {
      RefersFinds(children, ref);
    }
  }

  lemma RefHeld(
    frame: Frame, conditions: Conditions, distances: Distances, o: Owner, children: seq<Child>, ref: string)
    requires Find(children, ref).Some?
    ensures TermRendered(frame, conditions, distances, children, ref, TermFor(o, children, ref))
       <==> Held(conditions, RefConditions(frame, o, children, ref))
            && Held(distances, RefDistances(frame, o, children, ref))
    ensures TradeRef(children, ref) ==>
              (ThresholdRendered(frame, distances, children, ref, ThresholdFor(o, children, ref))
               <==> Held(distances, RefDistances(frame, o, children, ref)))
    ensures ChangeRef(children, ref) ==>
              (ChangeRendered(frame, distances, children, ref, ChangeFor(o, children, ref))
               <==> Held(distances, RefDistances(frame, o, children, ref)))
  {
    hide ConditionKey, DistanceKey, SeriesKey, MarketSeries, ThresholdSeries, SeriesOf, Find;
    var content := Find(children, ref).value;
    if IsMarket(content) {
      HeldOne(conditions, Write(ConditionKey(o, ref), MarketSeries(frame, content), true));
    } else if content.ChangeChild? {
      HeldOne(distances, Write(SeriesKey(o, ref), SeriesOf(frame, Some(content.feature)), true));
    } else {
      HeldOne(distances, Write(DistanceKey(o, ref), ThresholdSeries(frame, content.atom), true));
    }
  }

  lemma {:induction false} TermsHeld(
    frame: Frame, conditions: Conditions, distances: Distances, o: Owner, children: seq<Child>, refs: seq<string>)
    requires Known(children, refs)
    ensures TermsRendered(frame, conditions, distances, children, refs, TermsFor(o, children, refs))
       <==> Held(conditions, RefsConditions(frame, o, children, refs))
            && Held(distances, RefsDistances(frame, o, children, refs))
  {
    hide TermRendered, Held, RefConditions, RefDistances, TermFor, Find;
    if |refs| == 0 {
      NothingToHold(conditions);
      NothingToHold(distances);
    } else {
      var last := |refs| - 1;
      var most := refs[..last];
      assert refs == most + [refs[last]];
      TermsHeld(frame, conditions, distances, o, children, most);
      RefHeld(frame, conditions, distances, o, children, refs[last]);
      HeldBoth(conditions, RefsConditions(frame, o, children, most), RefConditions(frame, o, children, refs[last]));
      HeldBoth(distances, RefsDistances(frame, o, children, most), RefDistances(frame, o, children, refs[last]));
      var terms, fewer := TermsFor(o, children, refs), TermsFor(o, children, most);
      assert forall k | 0 <= k < last :: refs[k] == most[k] && terms[k] == fewer[k];
    }
  }

  lemma NothingToHold<T>(entries: map<string, T>)
    ensures var none: seq<Write<T>> := []; Held(entries, none)
  {
  }

  lemma {:induction false} ThresholdsHeld(
    frame: Frame, distances: Distances, o: Owner, children: seq<Child>, refs: seq<string>)
    requires forall ref | ref in refs :: TradeRef(children, ref)
    ensures ThresholdsRendered(frame, distances, children, refs, ThresholdsFor(o, children, refs))
       <==> Held(distances, RefsDistances(frame, o, children, refs))
  {
    hide ThresholdRendered, Held, RefDistances, ThresholdFor, Find;
    if |refs| == 0 {
      NothingToHold(distances);
    } else {
      var last := |refs| - 1;
      var most := refs[..last];
      assert refs == most + [refs[last]];
      assert refs[last] in refs && TradeRef(children, refs[last]);
      ThresholdsHeld(frame, distances, o, children, most);
      RefHeld(frame, map[], distances, o, children, refs[last]);
      HeldBoth(distances, RefsDistances(frame, o, children, most), RefDistances(frame, o, children, refs[last]));
      var ts, fewer := ThresholdsFor(o, children, refs), ThresholdsFor(o, children, most);
      assert forall k | 0 <= k < last :: refs[k] == most[k] && ts[k] == fewer[k];
    }
  }

  lemma {:induction false} ChangesHeld(
    frame: Frame, distances: Distances, o: Owner, children: seq<Child>, refs: seq<string>)
    requires forall ref | ref in refs :: ChangeRef(children, ref)
    ensures ChangesRendered(frame, distances, children, refs, ChangesFor(o, children, refs))
       <==> Held(distances, RefsDistances(frame, o, children, refs))
  {
    hide ChangeRendered, Held, RefDistances, ChangeFor, Find;
    if |refs| == 0 {
      NothingToHold(distances);
    } else {
      var last := |refs| - 1;
      var most := refs[..last];
      assert refs == most + [refs[last]];
      assert refs[last] in refs && ChangeRef(children, refs[last]);
      ChangesHeld(frame, distances, o, children, most);
      RefHeld(frame, map[], distances, o, children, refs[last]);
      HeldBoth(distances, RefsDistances(frame, o, children, most), RefDistances(frame, o, children, refs[last]));
      var cs, fewer := ChangesFor(o, children, refs), ChangesFor(o, children, most);
      assert forall k | 0 <= k < last :: refs[k] == most[k] && cs[k] == fewer[k];
    }
  }

  lemma {:induction false} TradeRefsTrade(children: seq<Child>, refs: seq<string>)
    requires Known(children, refs)
    ensures forall ref | ref in TradeRefs(children, refs) :: TradeRef(children, ref)
    ensures forall ref | ref in ChangeRefs(children, refs) :: ChangeRef(children, ref)
  {
    if |refs| > 0 {
      var most, last := refs[..|refs| - 1], refs[|refs| - 1];
      assert refs == most + [last];
      assert last in refs;
      TradeRefsTrade(children, most);
    }
  }

  lemma PathHeld(
    frame: Frame, conditions: Conditions, distances: Distances, o: Owner, children: seq<Child>, path: Path)
    requires PathParsed(children, path)
    ensures PathRendered(frame, conditions, distances, children, path, PathFor(frame, o, children, path))
       <==> Held(conditions, PathConditions(frame, o, children, path))
            && Held(distances, PathDistances(frame, o, children, path))
  {
    hide HasMarketPart, Mixed, PathSeries, TradeRefs, ChangeRefs, ThresholdsFor, ChangesFor, TermsFor, Held;
    hide RefsConditions, RefsDistances, ThresholdsRendered, ChangesRendered, TermsRendered, PathKey;
    var trade, change := TradeRefs(children, path.require), ChangeRefs(children, path.require);
    var counted := Counted(frame, children, path);
    AllKnown(children, path.require);
    TradeRefsTrade(children, path.require);
    ThresholdsHeld(frame, distances, o, children, trade);
    ChangesHeld(frame, distances, o, children, change);
    CountedHeld(frame, conditions, distances, o, children, path);
    var market: seq<Write<ConditionSeries>> :=
      if HasMarketPart(frame, children, path)
      then [Write(PathKey(o, path.id), PathSeries(frame, children, path), false)] else [];
    HeldBoth(conditions, market, RefsConditions(frame, o, children, counted));
    if HasMarketPart(frame, children, path) {
      HeldOne(conditions, Write(PathKey(o, path.id), PathSeries(frame, children, path), false));
    } else {
      NothingToHold(conditions);
    }
    var required := RefsDistances(frame, o, children, trade) + RefsDistances(frame, o, children, change);
    HeldBoth(distances, RefsDistances(frame, o, children, trade), RefsDistances(frame, o, children, change));
    HeldBoth(distances, RefsDistances(frame, o, children, counted), required);
    MixedMeans(frame, children, path);
  }

  lemma MixedMeans(frame: Frame, children: seq<Child>, path: Path)
    ensures Mixed(frame, children, path) <==> path.atLeast.Some? && !Votes(MasksOf(frame, Long, children), path)
  {
  }

  lemma CountedHeld(
    frame: Frame, conditions: Conditions, distances: Distances, o: Owner, children: seq<Child>, path: Path)
    requires PathParsed(children, path)
    ensures var counted := Counted(frame, children, path);
            TermsRendered(frame, conditions, distances, children, counted, TermsFor(o, children, counted))
            <==> Held(conditions, RefsConditions(frame, o, children, counted))
                 && Held(distances, RefsDistances(frame, o, children, counted))
    ensures !Mixed(frame, children, path) ==>
              Held(conditions, RefsConditions(frame, o, children, Counted(frame, children, path)))
              && Held(distances, RefsDistances(frame, o, children, Counted(frame, children, path)))
  {
    var counted := Counted(frame, children, path);
    AllKnown(children, counted);
    TermsHeld(frame, conditions, distances, o, children, counted);
  }

  lemma {:induction false} PathsHeld(
    frame: Frame, conditions: Conditions, distances: Distances, o: Owner, children: seq<Child>, paths: seq<Path>)
    requires forall k | 0 <= k < |paths| :: PathParsed(children, paths[k])
    ensures (forall k | 0 <= k < |paths| ::
               PathRendered(frame, conditions, distances, children, paths[k], PathFor(frame, o, children, paths[k])))
       <==> Held(conditions, PathsConditions(frame, o, children, paths))
            && Held(distances, PathsDistances(frame, o, children, paths))
  {
    hide PathRendered, PathFor, PathConditions, PathDistances, Held, PathParsed;
    if |paths| == 0 {
      NothingToHold(conditions);
      NothingToHold(distances);
    } else {
      var last := |paths| - 1;
      var most := paths[..last];
      PathsHeld(frame, conditions, distances, o, children, most);
      PathHeld(frame, conditions, distances, o, children, paths[last]);
      HeldBoth(conditions, PathsConditions(frame, o, children, most), PathConditions(frame, o, children, paths[last]));
      HeldBoth(distances, PathsDistances(frame, o, children, most), PathDistances(frame, o, children, paths[last]));
      assert forall k | 0 <= k < last :: paths[k] == most[k];
    }
  }

  lemma PhaseHeld(frame: Frame, conditions: Conditions, distances: Distances, rule: PhaseRule)
    requires ConditionParsed(frame, rule.condition)
    ensures PhaseRendered(frame, conditions, distances, rule, PhaseRuleFor(frame, rule))
       <==> Held(conditions, PhaseConditions(frame, rule)) && Held(distances, PhaseDistances(frame, rule))
  {
    hide PathRendered, PathFor, MarketSeries, ThresholdSeries, Held, PathsConditions, PathsDistances, PathParsed, Prefix;
    var o := PhaseOwner(rule);
    NothingToHold(conditions);
    NothingToHold(distances);
    match rule.condition
    case Atomic(atom) =>
      if TradeAtom(atom) {
        HeldOne(distances, Write(Prefix(o) + "distance", ThresholdSeries(frame, atom), false));
      } else {
        HeldOne(conditions, Write(Prefix(o) + "condition", MarketSeries(frame, AtomChild(atom)), false));
      }
    case Composite(children, paths) =>
      PathsHeld(frame, conditions, distances, o, children, paths);
  }

  lemma StopHeld(frame: Frame, distances: Distances, rule: StopRule)
    ensures StopRendered(frame, distances, rule, StopRuleFor(rule)) <==> Held(distances, StopDistances(frame, rule))
  {
    hide StopDistance, Constant, Prefix, Held;
    var o := StopOwner(rule);
    var distance := Write(Prefix(o) + "distance", StopDistance(frame, rule.action), false);
    HeldOne(distances, distance);
    if rule.action.InitialRLock? || rule.action.InitialRTrailing? {
      var trigger := Write(Prefix(o) + "trigger", Constant(|frame.bars|, rule.action.trigger), false);
      HeldOne(distances, trigger);
      HeldBoth(distances, [trigger], [distance]);
    }
  }

  lemma ExitHeld(frame: Frame, conditions: Conditions, rule: RuntimeRule)
    ensures ExitRendered(frame, conditions, rule, ExitRuleFor(rule)) <==> Holds(conditions, ExitCondition(frame, rule))
  {
  }

  // -- a policy is rendered exactly while all its writes agree --------------------------------------

  lemma {:induction false} PhasesHeld(frame: Frame, conditions: Conditions, distances: Distances, rules: seq<PhaseRule>)
    requires forall k | 0 <= k < |rules| :: ConditionParsed(frame, rules[k].condition)
    ensures (forall k | 0 <= k < |rules| ::
               PhaseRendered(frame, conditions, distances, rules[k], PhaseRuleFor(frame, rules[k])))
       <==> Held(conditions, PhasesConditions(frame, rules)) && Held(distances, PhasesDistances(frame, rules))
  {
    hide PhaseRendered, PhaseRuleFor, PhaseConditions, PhaseDistances, Held, ConditionParsed;
    if |rules| == 0 {
      NothingToHold(conditions);
      NothingToHold(distances);
    } else {
      var last := |rules| - 1;
      var most := rules[..last];
      PhasesHeld(frame, conditions, distances, most);
      PhaseHeld(frame, conditions, distances, rules[last]);
      HeldBoth(conditions, PhasesConditions(frame, most), PhaseConditions(frame, rules[last]));
      HeldBoth(distances, PhasesDistances(frame, most), PhaseDistances(frame, rules[last]));
      assert forall k | 0 <= k < last :: rules[k] == most[k];
    }
  }

  lemma {:induction false} StopsHeld(frame: Frame, distances: Distances, rules: seq<StopRule>)
    ensures (forall k | 0 <= k < |rules| :: StopRendered(frame, distances, rules[k], StopRuleFor(rules[k])))
       <==> Held(distances, StopsDistances(frame, rules))
  {
    hide StopRendered, StopRuleFor, StopDistances, Held;
    if |rules| == 0 {
      NothingToHold(distances);
    } else {
      var last := |rules| - 1;
      var most := rules[..last];
      StopsHeld(frame, distances, most);
      StopHeld(frame, distances, rules[last]);
      HeldBoth(distances, StopsDistances(frame, most), StopDistances(frame, rules[last]));
      assert forall k | 0 <= k < last :: rules[k] == most[k];
    }
  }

  lemma {:induction false} ExitsHeld(frame: Frame, conditions: Conditions, rules: seq<RuntimeRule>)
    ensures (forall k | 0 <= k < |rules| :: ExitRendered(frame, conditions, rules[k], ExitRuleFor(rules[k])))
       <==> Held(conditions, ExitsConditions(frame, rules))
  {
    hide ExitRendered, ExitRuleFor, ExitCondition, Held, Holds;
    if |rules| == 0 {
      NothingToHold(conditions);
    } else {
      var last := |rules| - 1;
      var most := rules[..last];
      ExitsHeld(frame, conditions, most);
      ExitHeld(frame, conditions, rules[last]);
      HeldOne(conditions, ExitCondition(frame, rules[last]));
      HeldBoth(conditions, ExitsConditions(frame, most), [ExitCondition(frame, rules[last])]);
      assert forall k | 0 <= k < last :: rules[k] == most[k];
    }
  }

  /** The rules of a policy over any dictionaries are rendered exactly while every write of the policy is
      still there. */
  lemma PolicyHeld(frame: Frame, policy: Policy, conditions: Conditions, distances: Distances)
    requires PolicyParsed(frame, policy)
    ensures Rendered(frame, policy, Projection(conditions, distances, RulesFor(frame, policy)))
       <==> Held(conditions, ConditionWrites(frame, policy)) && Held(distances, DistanceWrites(frame, policy))
  {
    hide Rendered, PhaseRendered, StopRendered, ExitRendered, Held, ConditionParsed, RulesFor;
    hide PhaseRuleFor, StopRuleFor, ExitRuleFor;
    RenderedMeans(frame, policy, conditions, distances);
    PhasesHeld(frame, conditions, distances, policy.phases);
    StopsHeld(frame, distances, policy.stops);
    ExitsHeld(frame, conditions, policy.runtimes);
    HeldBoth(conditions, PhasesConditions(frame, policy.phases), ExitsConditions(frame, policy.runtimes));
    HeldBoth(distances, PhasesDistances(frame, policy.phases), StopsDistances(frame, policy.stops));
  }

  lemma RenderedMeans(frame: Frame, policy: Policy, conditions: Conditions, distances: Distances)
    ensures Rendered(frame, policy, Projection(conditions, distances, RulesFor(frame, policy))) <==>
              && (forall k | 0 <= k < |policy.phases| ::
                    PhaseRendered(frame, conditions, distances, policy.phases[k], PhaseRuleFor(frame, policy.phases[k])))
              && (forall k | 0 <= k < |policy.stops| ::
                    StopRendered(frame, distances, policy.stops[k], StopRuleFor(policy.stops[k])))
              && (forall k | 0 <= k < |policy.runtimes| ::
                    ExitRendered(frame, conditions, policy.runtimes[k], ExitRuleFor(policy.runtimes[k])))
  {
    hide PhaseRendered, StopRendered, TakeRendered, ExitRendered, RulesFor, PhaseRuleFor, StopRuleFor, ExitRuleFor;
    TakesRendered(policy.takes);
    RulesStand(frame, policy);
  }

  /** Which rule stands where. */
  lemma RulesStand(frame: Frame, policy: Policy)
    ensures var a, b, c, d := |policy.phases|, |policy.stops|, |policy.takes|, |policy.runtimes|;
            var rules := RulesFor(frame, policy);
            && |rules| == a + b + c + d
            && (forall k | 0 <= k < a :: rules[k] == PhaseRuleFor(frame, policy.phases[k]))
            && (forall k | 0 <= k < b :: rules[a + k] == StopRuleFor(policy.stops[k]))
            && (forall k | 0 <= k < c :: rules[a + b + k] == TakeRuleFor(policy.takes[k]))
            && (forall k | 0 <= k < d :: rules[a + b + c + k] == ExitRuleFor(policy.runtimes[k]))
  {
    hide PhaseRuleFor, StopRuleFor, TakeRuleFor, ExitRuleFor;
  }

  lemma TakesRendered(rules: seq<TakeRule>)
    ensures forall k | 0 <= k < |rules| :: TakeRendered(rules[k], TakeRuleFor(rules[k]))
  {
  }

  /** When the projection of a policy is a rendering of it, for every policy the parser admits and whatever
      its ids are: if and only if the writes that meet under one id agree. */
  lemma RenderedExactly(frame: Frame, policy: Policy)
    requires PolicyParsed(frame, policy)
    ensures Rendered(frame, policy, Built(frame, policy)) <==> Consistent(frame, policy)
  {
    hide Rendered, Held, Agree, ConditionWrites, DistanceWrites, RulesFor, PolicyParsed;
    PolicyHeld(frame, policy, Built(frame, policy).conditions, Built(frame, policy).distances);
    HeldExactly(ConditionWrites(frame, policy));
    HeldExactly(DistanceWrites(frame, policy));
  }
}
