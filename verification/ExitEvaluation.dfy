/** Evaluating the exit policy through the shared context: the plain evaluation, whatever the memo holds, with
    exactly the predicted consumptions and no identity computed twice. */
module ExitEvaluation {
  import opened NodeProgram
  import opened EpisodeTables
  import opened EvaluationContext
  import opened MemoTheorems
  import opened ExitNodes
  import opened ExitPolicy
  import opened ExitTheorems
  import opened ExitIdentity
  import opened ExitTwin

  // -- one node through the context --------------------------------------------------------

  ghost function Denoted(market: Market): ExitNode -> Outcome<ExitDatum>
    requires Framed(market)
  {
    n => Meaning(market, n)
  }

  /** The memo holds what its identities denote; and where the plan covers what is still needed, nothing has
      been computed twice. */
  ghost predicate Serving(
    settings: Settings, s: Snapshot<ExitNode, ExitDatum>, market: Market, covered: bool, need: multiset<ExitNode>)
  {
    && Framed(market) && MemoSound(settings, s, Denoted(market))
    && (covered ==>
          && settings.memoEnabled
          && Healthy(settings, s, Denoted(market), need) && OnceEach(s, {}))
  }

  /** The active root and what all other roots still expect. */
  ghost function Elsewhere(s: Snapshot<ExitNode, ExitDatum>): (Option<int>, Option<seq<multiset<ExitNode>>>) {
    (s.active,
     if s.active.Some? && InPlan(s, s.active.value) then Some(s.pending.value[s.active.value := multiset{}]) else s.pending)
  }

  lemma KeptElsewhere(before: Snapshot<ExitNode, ExitDatum>, after: Snapshot<ExitNode, ExitDatum>)
    requires OthersKept(before, after)
    ensures Elsewhere(before) == Elsewhere(after)
  {
    if before.active.Some? && InPlan(before, before.active.value) {
      var root := before.active.value;
      assert before.pending.value[root := multiset{}] == after.pending.value[root := multiset{}];
    } else if before.pending.Some? {
      assert before.pending.value == after.pending.value;
    }
  }

  ghost function Asked(id: Option<ExitNode>): multiset<ExitNode> {
    if id.Some? then multiset{id.value} else multiset{}
  }

  lemma MeaningFails(market: Market, n: ExitNode)
    requires Framed(market)
    ensures Meaning(market, n).Raised? ==> Meaning(market, n).failure == NOT_POSITIVE
  {
  }

  /** A covered consumption leaves the rest covered, and nothing computed twice. */
  lemma CoveredOne(
    settings: Settings, s: Snapshot<ExitNode, ExitDatum>, market: Market, id: ExitNode,
    computed: Outcome<ExitDatum>, need: multiset<ExitNode>)
    requires Serving(settings, s, market, true, multiset{id} + need) && Meaning(market, id) == computed
    ensures var after := Memoized(settings, s, id, Done(computed), 0).state;
            Healthy(settings, after, Denoted(market), need) && OnceEach(after, {})
  {
    hide Healthy, OnceEach, Memoized, MemoSound, Meaning;
    var denotes := Denoted(market);
    var p: Program<ExitNode, ExitDatum> := Call(Some(id), Done(computed), r => Done(r));
    assert p.next(computed) == Done(computed);
    assert denotes(id) == computed;
    assert Bounded(p, 1) && Sound(p, 1, denotes, {});
    assert Consumed(p, 1) == multiset{id};
    NodeHealthy(settings, s, p, 1, denotes, {}, need);
    MeaningFails(market, id);
    CapturableExactly(settings, NOT_POSITIVE);
    var nothing := Consumed<ExitNode, ExitDatum>(Done(computed), 0);
    assert multiset{id} + nothing + need == multiset{id} + need;
    assert nothing + need == need;
    NodeOnce(settings, s, id, Done(computed), 0, denotes, {}, need);
  }

  lemma ServingOne(
    settings: Settings, s: Snapshot<ExitNode, ExitDatum>, market: Market, covered: bool, id: ExitNode,
    computed: Outcome<ExitDatum>, need: multiset<ExitNode>)
    requires Serving(settings, s, market, covered, multiset{id} + need) && Meaning(market, id) == computed
    ensures var node := Memoized(settings, s, id, Done(computed), 0);
            && node.result == computed && node.calls == multiset{id}
            && Serving(settings, node.state, market, covered, need) && Elsewhere(node.state) == Elsewhere(s)
  {
    hide Healthy, OnceEach, MemoSound, Meaning, Elsewhere;
    NodeKeepsOthers(settings, s, id, Done(computed), 0);
    KeptElsewhere(s, Memoized(settings, s, id, Done(computed), 0).state);
    TransparentNode(settings, s, id, Done(computed), 0, Denoted(market), {});
    if covered {
      CoveredOne(settings, s, market, id, computed, need);
    }
  }

  lemma ServingLess(
    settings: Settings, s: Snapshot<ExitNode, ExitDatum>, market: Market, covered: bool,
    more: multiset<ExitNode>, need: multiset<ExitNode>)
    requires Serving(settings, s, market, covered, more) && need <= more
    ensures Serving(settings, s, market, covered, need)
  {
  }

  /** A computation under its identity, if it has one: its own outcome either way. */
  method Through(
    context: Context<ExitNode, ExitDatum>, id: Option<ExitNode>, computed: Outcome<ExitDatum>,
    ghost market: Market, ghost covered: bool, ghost need: multiset<ExitNode>)
    returns (r: Outcome<ExitDatum>, ghost calls: multiset<ExitNode>)
    requires Serving(context.settings, context.State(), market, covered, Asked(id) + need)
    requires id.Some? ==> Meaning(market, id.value) == computed
    modifies context
    ensures r == computed && calls == Asked(id)
    ensures Serving(context.settings, context.State(), market, covered, need)
    ensures Elsewhere(context.State()) == old(Elsewhere(context.State()))
  {
    hide Serving, Elsewhere, Meaning, Memoized;
    if id.None? {
      assert Asked(id) + need == need;
      return computed, multiset{};
    }
    ServingOne(context.settings, context.State(), market, covered, id.value, computed, need);
    r, calls := context.MemoizedNode(id.value, Done(computed), 0);
  }

  // -- the rules ---------------------------------------------------------------------------

  ghost function AskedRule(node: Option<RuleNode>): multiset<ExitNode> {
    if node.Some? then RuleCall(node.value) else multiset{}
  }

  ghost function AskedPair(nodes: Option<BySide<ExitNode>>): multiset<ExitNode> {
    if nodes.Some? then Pair(nodes.value) else multiset{}
  }

  function SideOf(nodes: Option<BySide<ExitNode>>, side: Side): Option<ExitNode> {
    if nodes.Some? then Some(nodes.value.At(side)) else None
  }

  lemma PairSides(nodes: Option<BySide<ExitNode>>, need: multiset<ExitNode>)
    ensures AskedPair(nodes) + need == Asked(SideOf(nodes, Long)) + (Asked(SideOf(nodes, Short)) + need)
    ensures AskedPair(nodes) == Asked(SideOf(nodes, Long)) + Asked(SideOf(nodes, Short))
  {
  }

  ghost predicate SideResolved(sides: set<Side>, spec: SignalSpec, nodes: Option<BySide<ExitNode>>, side: Side) {
    nodes.Some? ==> SideNode(sides, spec, side) == Value(nodes.value.At(side))
  }

  method EvaluateSignal(
    context: Context<ExitNode, ExitDatum>, market: Market, sides: set<Side>, spec: SignalSpec,
    nodes: Option<BySide<ExitNode>>, ghost covered: bool, ghost need: multiset<ExitNode>)
    returns (r: Outcome<BySide<seq<bool>>>, ghost calls: multiset<ExitNode>)
    requires Framed(market) && SideResolved(sides, spec, nodes, Long) && SideResolved(sides, spec, nodes, Short)
    requires Serving(context.settings, context.State(), market, covered, AskedPair(nodes) + need)
    modifies context
    ensures var long, short := SideSignal(market, sides, spec, Long), SideSignal(market, sides, spec, Short);
            r == if long.Raised? then Raised(long.failure)
                 else if short.Raised? then Raised(short.failure) else Value(BySide(long.value.flags, short.value.flags))
    ensures calls <= AskedPair(nodes) && (r.Value? ==> calls == AskedPair(nodes))
    ensures Serving(context.settings, context.State(), market, covered, need)
    ensures Elsewhere(context.State()) == old(Elsewhere(context.State()))
  {
    hide Serving, Elsewhere, Meaning, SideNode, SideSignal, AskedPair;
    var longId, shortId := SideOf(nodes, Long), SideOf(nodes, Short);
    SideTwin(market, sides, spec, Long);
    SideTwin(market, sides, spec, Short);
    PairSides(nodes, need);
    var long;
    long, calls := Through(context, longId, SideSignal(market, sides, spec, Long), market, covered, Asked(shortId) + need);
    if long.Raised? {
      ServingLess(context.settings, context.State(), market, covered, Asked(shortId) + need, need);
      return Raised(long.failure), calls;
    }
    var short;
    ghost var more;
    short, more := Through(context, shortId, SideSignal(market, sides, spec, Short), market, covered, need);
    calls := calls + more;
    if short.Raised? {
      return Raised(short.failure), calls;
    }
    return Value(BySide(long.value.flags, short.value.flags)), calls;
  }

  function PairOf(node: Option<RuleNode>): Option<BySide<ExitNode>> {
    if node.Some? && node.value.SignalNodes? then Some(node.value.sides) else None
  }

  function OneOf(node: Option<RuleNode>): Option<ExitNode> {
    if node.Some? && node.value.DistanceNodes? then Some(node.value.node) else None
  }

  method EvaluateRule(
    context: Context<ExitNode, ExitDatum>, market: Market, sides: set<Side>, rule: Rule, node: Option<RuleNode>,
    ghost covered: bool, ghost need: multiset<ExitNode>)
    returns (r: Outcome<RuleValue>, ghost calls: multiset<ExitNode>)
    requires Framed(market) && (node.Some? ==> NodeFor(sides, rule) == Value(node.value))
    requires Serving(context.settings, context.State(), market, covered, AskedRule(node) + need)
    modifies context
    ensures r == Contribution(market, sides, rule)
    ensures calls <= AskedRule(node) && (r.Value? ==> calls == AskedRule(node))
    ensures Serving(context.settings, context.State(), market, covered, need)
    ensures Elsewhere(context.State()) == old(Elsewhere(context.State()))
  {
    hide Serving, Elsewhere, Meaning, SideNode, SideSignal, DistanceNode, DistanceRule, Pair;
    var head := RuleHead(rule);
    if head.Some? {
      ServingLess(context.settings, context.State(), market, covered, AskedRule(node) + need, need);
      return Raised(head.value), multiset{};
    }
    if rule.component.SignalComponent? {
      assert AskedRule(node) == AskedPair(PairOf(node));
      var made;
      made, calls := EvaluateSignal(context, market, sides, rule.component.signal, PairOf(node), covered, need);
      return if made.Raised? then Raised(made.failure) else Value(SignalValue(made.value)), calls;
    }
    assert AskedRule(node) == Asked(OneOf(node));
    DistanceTwin(market, rule.component.distance);
    var made;
    made, calls := Through(context, OneOf(node), DistanceRule(market, rule.component.distance), market, covered, need);
    if made.Raised? {
      return Raised(made.failure), calls;
    }
    if FractionProblem(rule).Some? {
      return Raised(FractionProblem(rule).value), calls;
    }
    return Value(DistanceValue(made.value.distance, made.value.ratio)), calls;
  }

  ghost function TablesOf(market: Market, policy: Policy): Outcome<Tables>
    requires Framed(market)
  {
    var made := Contributions(market, policy.sides, policy.rules);
    if made.Raised? then Raised(made.failure) else Value(Filled(policy.sides, policy.rules, made.value))
  }

  /** The identities of the rules, resolved for exactly these rules under unique ids. */
  ghost predicate TwinOf(ids: RuleIds, policy: Policy, ns: seq<RuleNode>) {
    && DistinctIds(policy.rules) && RuleNodes(policy.sides, policy.rules) == Value(ns)
    && ids == FilledNodes(policy.rules, ns)
  }

  ghost function AskedRules(ids: Option<RuleIds>, ns: seq<RuleNode>): multiset<ExitNode> {
    if ids.Some? then RuleCalls(ns) else multiset{}
  }

  lemma RuleNodeFound(ids: RuleIds, policy: Policy, ns: seq<RuleNode>, k: nat)
    requires TwinOf(ids, policy, ns) && k < |policy.rules|
    ensures |ns| == |policy.rules| && NodeFor(policy.sides, policy.rules[k].rule) == Value(ns[k])
    ensures var id := policy.rules[k].rule.id;
            match ns[k]
            case SignalNodes(sides) => id in ids.signals.at && ids.signals.at[id] == sides
            case DistanceNodes(node) => id in ids.distances.at && ids.distances.at[id] == node
  {
    FilledNodesFound(policy.rules, ns, k);
  }

  /** What the rules from `k` on still ask for. */
  ghost function Remaining(ids: Option<RuleIds>, ns: seq<RuleNode>, k: nat): multiset<ExitNode> {
    if ids.None? || k > |ns| then multiset{} else RuleCalls(ns) - RuleCalls(ns[..k])
  }

  lemma {:induction false} CallsGrow(ns: seq<RuleNode>, k: nat)
    requires k <= |ns|
    ensures RuleCalls(ns[..k]) <= RuleCalls(ns)
  {
    if k == |ns| {
      assert ns[..k] == ns;
    } else {
      var n := |ns| - 1;
      assert ns[..n][..k] == ns[..k];
      CallsGrow(ns[..n], k);
    }
  }

  lemma RemainingStep(ids: Option<RuleIds>, ns: seq<RuleNode>, k: nat)
    requires ids.Some? && k < |ns|
    ensures Remaining(ids, ns, k) == RuleCall(ns[k]) + Remaining(ids, ns, k + 1)
    ensures RuleCalls(ns[..k + 1]) == RuleCalls(ns[..k]) + RuleCall(ns[k])
    ensures RuleCalls(ns[..k + 1]) <= RuleCalls(ns)
  {
    hide RuleCall;
    CallsGrow(ns, k + 1);
    assert ns[..k + 1][..k] == ns[..k];
    var all, done, one := RuleCalls(ns), RuleCalls(ns[..k]), RuleCall(ns[k]);
    Remainder(all, done, one);
  }

  lemma Remainder(all: multiset<ExitNode>, done: multiset<ExitNode>, one: multiset<ExitNode>)
    requires done + one <= all
    ensures all - done == one + (all - (done + one))
  {
  }

  function NodeOf(ids: Option<RuleIds>, rule: Rule): Option<RuleNode> {
    if ids.None? then None
    else if rule.component.SignalComponent? then
      if rule.id in ids.value.signals.at then Some(SignalNodes(ids.value.signals.at[rule.id])) else None
    else if rule.id in ids.value.distances.at then Some(DistanceNodes(ids.value.distances.at[rule.id])) else None
  }

  method EvaluateRules(
    context: Context<ExitNode, ExitDatum>, market: Market, policy: Policy, ids: Option<RuleIds>,
    ghost ns: seq<RuleNode>, ghost covered: bool, ghost need: multiset<ExitNode>)
    returns (r: Outcome<Tables>, ghost calls: multiset<ExitNode>)
    requires Framed(market) && (ids.Some? ==> TwinOf(ids.value, policy, ns))
    requires Serving(context.settings, context.State(), market, covered, AskedRules(ids, ns) + need)
    modifies context
    ensures r == TablesOf(market, policy)
    ensures calls <= AskedRules(ids, ns) && (r.Value? ==> calls == AskedRules(ids, ns))
    ensures Serving(context.settings, context.State(), market, covered, need)
    ensures Elsewhere(context.State()) == old(Elsewhere(context.State()))
  {
    hide Serving, Elsewhere, Contribution, NodeFor, RuleCalls, TwinOf, Framed, Enter, Remaining, AskedRule, AskedRules, NodeOf,
      FilledNodes, NodesFit, Matching;
    var rules := policy.rules;
    var t := NO_TABLES;
    ghost var vs: seq<RuleValue> := [];
    var k := 0;
    calls := multiset{};
    FramedColumns(market);
    NothingAsked(ids, policy, ns, need);
    while k < |rules|
      invariant 0 <= k <= |rules|
      invariant Contributions(market, policy.sides, rules[..k]) == Value(vs) && |vs| == k
      invariant t == Filled(policy.sides, rules[..k], vs)
      invariant calls == Made(ids, ns, k) && calls <= AskedRules(ids, ns)
      invariant Serving(context.settings, context.State(), market, covered, Remaining(ids, ns, k) + need)
      invariant Elsewhere(context.State()) == old(Elsewhere(context.State()))
    {
      var p := rules[k];
      var node := NodeOf(ids, p.rule);
      AskNext(ids, policy, ns, k, need);
      var made;
      ghost var more;
      made, more := EvaluateRule(context, market, policy.sides, p.rule, node, covered, Remaining(ids, ns, k + 1) + need);
      calls := calls + more;
      assert rules[..k + 1][..k] == rules[..k];
      if made.Raised? {
        FailedStays(market, policy.sides, rules, k);
        ServingLess(context.settings, context.State(), market, covered, Remaining(ids, ns, k + 1) + need, need);
        return Raised(made.failure), calls;
      }
      t := Enter(policy.sides, t, p, made.value);
      vs := vs + [made.value];
      assert vs[..k] == vs[..|vs| - 1];
      k := k + 1;
    }
    assert rules[..k] == rules;
    NothingLeft(ids, policy, ns, need);
    return Value(t), calls;
  }

  /** What the first `k` rules have asked for. */
  ghost function Made(ids: Option<RuleIds>, ns: seq<RuleNode>, k: nat): multiset<ExitNode> {
    if ids.Some? && k <= |ns| then RuleCalls(ns[..k]) else multiset{}
  }

  lemma AskNext(ids: Option<RuleIds>, policy: Policy, ns: seq<RuleNode>, k: nat, need: multiset<ExitNode>)
    requires k < |policy.rules| && (ids.Some? ==> TwinOf(ids.value, policy, ns))
    ensures var rule, node := policy.rules[k].rule, NodeOf(ids, policy.rules[k].rule);
            && (node.Some? ==> NodeFor(policy.sides, rule) == Value(node.value))
            && Remaining(ids, ns, k) + need == AskedRule(node) + (Remaining(ids, ns, k + 1) + need)
            && Made(ids, ns, k + 1) == Made(ids, ns, k) + AskedRule(node)
            && Made(ids, ns, k + 1) <= AskedRules(ids, ns)
  {
    hide NodeFor, RuleCalls, RuleCall, FilledNodes;
    if ids.Some? {
      RuleNodeFound(ids.value, policy, ns, k);
      NodeKind(policy.sides, policy.rules[k].rule, ns[k]);
      RemainingStep(ids, ns, k);
    }
  }

  lemma FramedColumns(market: Market)
    requires Framed(market)
    ensures forall f :: |market.column(f)| == |market.close|
  {
  }

  lemma NothingAsked(ids: Option<RuleIds>, policy: Policy, ns: seq<RuleNode>, need: multiset<ExitNode>)
    requires ids.Some? ==> TwinOf(ids.value, policy, ns)
    ensures Made(ids, ns, 0) == multiset{} && AskedRules(ids, ns) + need == Remaining(ids, ns, 0) + need
  {
  }

  lemma NothingLeft(ids: Option<RuleIds>, policy: Policy, ns: seq<RuleNode>, need: multiset<ExitNode>)
    requires ids.Some? ==> TwinOf(ids.value, policy, ns)
    ensures Made(ids, ns, |policy.rules|) == AskedRules(ids, ns) && Remaining(ids, ns, |policy.rules|) + need == need
  {
    assert ids.Some? ==> ns[..|policy.rules|] == ns;
  }

  lemma NodeKind(sides: set<Side>, rule: Rule, n: RuleNode)
    requires NodeFor(sides, rule) == Value(n)
    ensures n.SignalNodes? <==> rule.component.SignalComponent?
  {
  }

  lemma {:induction false} FailedStays(market: Market, sides: set<Side>, rules: seq<Placed>, k: nat)
    requires forall f :: |market.column(f)| == |market.close|
    requires k < |rules| && Contributions(market, sides, rules[..k + 1]).Raised?
    ensures Contributions(market, sides, rules) == Contributions(market, sides, rules[..k + 1])
  {
    if k + 1 == |rules| {
      assert rules[..k + 1] == rules;
    } else {
      var n := |rules| - 1;
      assert rules[..n][..k + 1] == rules[..k + 1];
      FailedStays(market, sides, rules[..n], k);
    }
  }
}
