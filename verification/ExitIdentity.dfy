/** The identity twin of the exit policy: every node's identity, the consumptions they predict, and why each
    identity denotes what the policy computes under it. */
module ExitIdentity {
  import opened NodeProgram
  import opened EpisodeTables
  import opened ExitNodes
  import opened ExitPolicy
  import opened ExitTheorems

  /** A dictionary in insertion order: a key keeps the place of its first insertion. */
  datatype Dict<V> = Dict(keys: seq<string>, at: map<string, V>)

  function Put<V>(d: Dict<V>, key: string, value: V): Dict<V> {
    Dict(if key in d.at then d.keys else d.keys + [key], d.at[key := value])
  }

  ghost predicate Keyed<V>(d: Dict<V>) {
    forall k | 0 <= k < |d.keys| :: d.keys[k] in d.at
  }

  function Values<V>(d: Dict<V>): (vs: seq<V>)
    requires Keyed(d)
    ensures |vs| == |d.keys| && forall k | 0 <= k < |vs| :: vs[k] == d.at[d.keys[k]]
  {
    seq(|d.keys|, k requires 0 <= k < |d.keys| => d.at[d.keys[k]])
  }

  // -- identities of rules -----------------------------------------------------------------

  datatype RuleNode = SignalNodes(sides: BySide<ExitNode>) | DistanceNodes(node: ExitNode)

  function SideNode(sides: set<Side>, spec: SignalSpec, side: Side): Outcome<ExitNode> {
    if side in sides then SignalNode(spec, side) else Value(ConstantFalse)
  }

  function NodeFor(sides: set<Side>, rule: Rule): (r: Outcome<RuleNode>)
    ensures r.Value? ==> RuleHead(rule).None? && (r.value.SignalNodes? <==> rule.Kind() == Signal)
  {
    var head := RuleHead(rule);
    if head.Some? then Raised(head.value)
    else if rule.component.SignalComponent? then
      var long := SideNode(sides, rule.component.signal, Long);
      if long.Raised? then Raised(long.failure) else
      var short := SideNode(sides, rule.component.signal, Short);
      if short.Raised? then Raised(short.failure) else Value(SignalNodes(BySide(long.value, short.value)))
    else
      var node := DistanceNode(rule.component.distance);
      if node.Raised? then Raised(node.failure) else Value(DistanceNodes(node.value))
  }

  function RuleNodes(sides: set<Side>, rules: seq<Placed>): (r: Outcome<seq<RuleNode>>)
    ensures r.Value? ==> NodesFit(sides, rules, r.value)
  {
    if |rules| == 0 then Value([]) else
    var k := |rules| - 1;
    var earlier := RuleNodes(sides, rules[..k]);
    if earlier.Raised? then earlier else
    var last := NodeFor(sides, rules[k].rule);
    if last.Raised? then Raised(last.failure) else Value(earlier.value + [last.value])
  }

  predicate NodesFit(sides: set<Side>, rules: seq<Placed>, ns: seq<RuleNode>) {
    |ns| == |rules| && forall k | 0 <= k < |rules| :: NodeFor(sides, rules[k].rule) == Value(ns[k])
  }

  datatype RuleIds = RuleIds(signals: Dict<BySide<ExitNode>>, distances: Dict<ExitNode>)

  const NO_IDS := RuleIds(Dict([], map[]), Dict([], map[]))

  function EnterNode(ids: RuleIds, p: Placed, n: RuleNode): RuleIds {
    match n
    case SignalNodes(sides) => ids.(signals := Put(ids.signals, p.rule.id, sides))
    case DistanceNodes(node) => ids.(distances := Put(ids.distances, p.rule.id, node))
  }

  function FilledNodes(rules: seq<Placed>, ns: seq<RuleNode>): (ids: RuleIds)
    requires |rules| == |ns|
    ensures Keyed(ids.signals) && Keyed(ids.distances)
  {
    if |rules| == 0 then NO_IDS else
    var k := |rules| - 1;
    EnterNode(FilledNodes(rules[..k], ns[..k]), rules[k], ns[k])
  }

  // -- identities of aggregates ------------------------------------------------------------

  datatype ProfileNodes = ProfileNodes(
    signal: BySide<ExitNode>, stopRatio: ExitNode, takeRatio: ExitNode, stopDistance: ExitNode, takeDistance: ExitNode,
    ready: ExitNode)

  function SignalSet(ids: RuleIds, names: seq<string>, side: Side): set<ExitNode> {
    set id | id in names && id in ids.signals.at :: ids.signals.at[id].At(side)
  }

  function DistanceSet(ids: RuleIds, names: seq<string>): set<ExitNode> {
    set id | id in names && id in ids.distances.at :: ids.distances.at[id]
  }

  function ProfileNodesOf(ids: RuleIds, rules: seq<Placed>, profile: Profile): ProfileNodes {
    var signals := Selected(rules, profile, Signal);
    var stops, takes := Selected(rules, profile, StopLoss), Selected(rules, profile, TakeProfit);
    var stopRatio, takeRatio := MinRatio(DistanceSet(ids, stops)), MinRatio(DistanceSet(ids, takes));
    ProfileNodes(
      BySide(AnySignal(SignalSet(ids, signals, Long)), AnySignal(SignalSet(ids, signals, Short))),
      stopRatio, takeRatio,
      MinDistance(DistanceSet(ids, stops)), MinDistance(DistanceSet(ids, takes)),
      Ready(stops != [], takes != [], stopRatio, takeRatio, DistanceSet(ids, Selected(rules, profile, PartialTake))))
  }

  datatype Selects = Selects(
    signal: BySide<ExitNode>, stopRatio: BySide<ExitNode>, takeRatio: BySide<ExitNode>,
    stopDistance: BySide<ExitNode>, takeDistance: BySide<ExitNode>, ready: BySide<ExitNode>)

  datatype Identity = Identity(rules: RuleIds, byProfile: ByProfile<ProfileNodes>, select: Selects)

  function SelectsOf(p: BySide<FeatureNode>, b: ByProfile<ProfileNodes>): Selects {
    var a, c, n := b.aligned, b.countertrend, b.neutral;
    Selects(
      BySide(SelectFlag(p.long, a.signal.long, c.signal.long, n.signal.long),
             SelectFlag(p.short, a.signal.short, c.signal.short, n.signal.short)),
      BySide(SelectFloat(p.long, a.stopRatio, c.stopRatio, n.stopRatio),
             SelectFloat(p.short, a.stopRatio, c.stopRatio, n.stopRatio)),
      BySide(SelectFloat(p.long, a.takeRatio, c.takeRatio, n.takeRatio),
             SelectFloat(p.short, a.takeRatio, c.takeRatio, n.takeRatio)),
      BySide(SelectFloat(p.long, a.stopDistance, c.stopDistance, n.stopDistance),
             SelectFloat(p.short, a.stopDistance, c.stopDistance, n.stopDistance)),
      BySide(SelectFloat(p.long, a.takeDistance, c.takeDistance, n.takeDistance),
             SelectFloat(p.short, a.takeDistance, c.takeDistance, n.takeDistance)),
      BySide(SelectFlag(p.long, a.ready, c.ready, n.ready),
             SelectFlag(p.short, a.ready, c.ready, n.ready)))
  }

  function IdentityOf(policy: Policy, ids: RuleIds): Identity {
    var b := ByProfile(ProfileNodesOf(ids, policy.rules, Aligned), ProfileNodesOf(ids, policy.rules, Countertrend),
                       ProfileNodesOf(ids, policy.rules, Neutral));
    Identity(ids, b, SelectsOf(policy.profile, b))
  }

  function Resolved(policy: Policy): Outcome<Identity> {
    var nodes := RuleNodes(policy.sides, policy.rules);
    if nodes.Raised? then Raised(nodes.failure)
    else Value(IdentityOf(policy, FilledNodes(policy.rules, nodes.value)))
  }

  method ResolveExitPolicy(policy: Policy) returns (r: Outcome<Identity>)
    ensures r == Resolved(policy)
  {
    hide NodeFor;
    var rules := policy.rules;
    var ids := NO_IDS;
    ghost var ns: seq<RuleNode> := [];
    var k := 0;
    while k < |rules|
      invariant 0 <= k <= |rules|
      invariant RuleNodes(policy.sides, rules[..k]) == Value(ns) && |ns| == k && ids == FilledNodes(rules[..k], ns)
    {
      var made := NodeFor(policy.sides, rules[k].rule);
      assert rules[..k + 1][..k] == rules[..k];
      if made.Raised? {
        UnresolvedStays(policy.sides, rules, k);
        return Raised(made.failure);
      }
      ids := EnterNode(ids, rules[k], made.value);
      ns := ns + [made.value];
      assert ns[..k] == ns[..|ns| - 1];
      k := k + 1;
    }
    assert rules[..k] == rules;
    return Value(IdentityOf(policy, ids));
  }

  lemma {:induction false} UnresolvedStays(sides: set<Side>, rules: seq<Placed>, k: nat)
    requires k < |rules| && RuleNodes(sides, rules[..k + 1]).Raised?
    ensures RuleNodes(sides, rules) == RuleNodes(sides, rules[..k + 1])
  {
    if k + 1 == |rules| {
      assert rules[..k + 1] == rules;
    } else {
      var n := |rules| - 1;
      assert rules[..n][..k + 1] == rules[..k + 1];
      UnresolvedStays(sides, rules[..n], k);
    }
  }

  // -- the prediction ----------------------------------------------------------------------

  function Pair(nodes: BySide<ExitNode>): multiset<ExitNode> {
    multiset{nodes.long, nodes.short}
  }

  function Pairs(nodes: seq<BySide<ExitNode>>): multiset<ExitNode> {
    if |nodes| == 0 then multiset{} else Pairs(nodes[..|nodes| - 1]) + Pair(nodes[|nodes| - 1])
  }

  /** The six aggregates of a profile, in the order they are consumed. */
  function ProfileList(p: ProfileNodes): (s: seq<ExitNode>)
    ensures |s| == 6
  {
    [p.signal.long, p.signal.short, p.stopRatio, p.takeRatio, p.stopDistance, p.takeDistance]
  }

  function SelectList(s: Selects): (r: seq<ExitNode>)
    ensures |r| == 10
  {
    [s.signal.long, s.signal.short, s.stopRatio.long, s.stopRatio.short, s.takeRatio.long, s.takeRatio.short,
     s.stopDistance.long, s.stopDistance.short, s.takeDistance.long, s.takeDistance.short]
  }

  function ReadyList(ids: Identity): (s: seq<ExitNode>)
    ensures |s| == 5
  {
    var b := ids.byProfile;
    [b.aligned.ready, b.countertrend.ready, b.neutral.ready, ids.select.ready.long, ids.select.ready.short]
  }

  /** What is consumed once the rules are: aggregates, selections, readiness. */
  function PolicyCalls(ids: Identity): multiset<ExitNode> {
    var b := ids.byProfile;
    multiset(ProfileList(b.aligned)) + multiset(ProfileList(b.countertrend)) + multiset(ProfileList(b.neutral))
    + multiset(SelectList(ids.select)) + multiset(ReadyList(ids))
  }

  function PredictedCalls(ids: Identity): multiset<ExitNode>
    requires Keyed(ids.rules.signals) && Keyed(ids.rules.distances)
  {
    Pairs(Values(ids.rules.signals)) + multiset(Values(ids.rules.distances)) + PolicyCalls(ids)
  }

  lemma PairList(consumed: seq<ExitNode>, nodes: BySide<ExitNode>)
    ensures multiset(consumed + [nodes.long, nodes.short]) == multiset(consumed) + Pair(nodes)
  {
    assert multiset([nodes.long, nodes.short]) == Pair(nodes);
  }

  method AppendPairs(consumed: seq<ExitNode>, pairs: seq<BySide<ExitNode>>) returns (more: seq<ExitNode>)
    ensures multiset(more) == multiset(consumed) + Pairs(pairs)
  {
    hide Pair;
    more := consumed;
    for k := 0 to |pairs|
      invariant multiset(more) == multiset(consumed) + Pairs(pairs[..k])
    {
      assert pairs[..k + 1][..k] == pairs[..k];
      PairList(more, pairs[k]);
      more := more + [pairs[k].long, pairs[k].short];
    }
    assert pairs[..|pairs|] == pairs;
  }

  /** Each signal rule once per side, each distance rule once, per profile its six aggregates, the ten
      selections, then readiness per profile and per side. */
  method ExitPolicyConsumptions(ids: Identity) returns (consumed: seq<ExitNode>)
    requires Keyed(ids.rules.signals) && Keyed(ids.rules.distances)
    ensures multiset(consumed) == PredictedCalls(ids)
  {
    hide Pair, Pairs, ProfileList, SelectList, ReadyList;
    consumed := AppendPairs([], Values(ids.rules.signals));
    consumed := consumed + Values(ids.rules.distances);
    var order := [ids.byProfile.aligned, ids.byProfile.countertrend, ids.byProfile.neutral];
    ghost var rules := multiset(consumed);
    for k := 0 to 3
      invariant multiset(consumed) == rules
                + (if k > 0 then multiset(ProfileList(order[0])) else multiset{})
                + (if k > 1 then multiset(ProfileList(order[1])) else multiset{})
                + (if k > 2 then multiset(ProfileList(order[2])) else multiset{})
    {
      consumed := consumed + ProfileList(order[k]);
    }
    consumed := consumed + SelectList(ids.select);
    consumed := consumed + ReadyList(ids);
  }

  lemma LastPair(nodes: seq<BySide<ExitNode>>, last: BySide<ExitNode>)
    ensures Pairs(nodes + [last]) == Pairs(nodes) + Pair(last)
  {
    assert (nodes + [last])[..|nodes|] == nodes;
  }

  /** What evaluating the rules in declared order consumes. */
  function RuleCall(n: RuleNode): multiset<ExitNode> {
    match n
    case SignalNodes(sides) => Pair(sides)
    case DistanceNodes(node) => multiset{node}
  }

  function RuleCalls(ns: seq<RuleNode>): multiset<ExitNode> {
    if |ns| == 0 then multiset{} else RuleCalls(ns[..|ns| - 1]) + RuleCall(ns[|ns| - 1])
  }

  /** With unique ids the dictionaries hold every rule's nodes, once. */
  lemma {:induction false} FilledNodesFound(rules: seq<Placed>, ns: seq<RuleNode>, k: nat)
    requires DistinctIds(rules) && |rules| == |ns| && k < |rules|
    ensures var ids := FilledNodes(rules, ns);
            match ns[k]
            case SignalNodes(sides) => rules[k].rule.id in ids.signals.at && ids.signals.at[rules[k].rule.id] == sides
            case DistanceNodes(node) => rules[k].rule.id in ids.distances.at && ids.distances.at[rules[k].rule.id] == node
  {
    var n := |rules| - 1;
    if k < n {
      FilledNodesFound(rules[..n], ns[..n], k);
      assert rules[..n][k] == rules[k] && ns[..n][k] == ns[k];
      assert rules[k].rule.id != rules[n].rule.id;
    }
  }

  lemma {:induction false} FilledKeys(rules: seq<Placed>, ns: seq<RuleNode>, id: string)
    requires |rules| == |ns|
    ensures var ids := FilledNodes(rules, ns);
            id in ids.signals.at || id in ids.distances.at <==> exists k :: 0 <= k < |rules| && rules[k].rule.id == id
  {
    if |rules| > 0 {
      var n := |rules| - 1;
      FilledKeys(rules[..n], ns[..n], id);
      if k :| 0 <= k < n && rules[..n][k].rule.id == id {
        assert rules[k].rule.id == id;
      }
      if k :| 0 <= k < n && rules[k].rule.id == id {
        assert rules[..n][k].rule.id == id;
      }
    }
  }

  lemma PutValues<V>(d: Dict<V>, key: string, value: V)
    requires Keyed(d) && key !in d.at
    ensures Keyed(Put(d, key, value)) && Values(Put(d, key, value)) == Values(d) + [value]
  {
  }

  lemma OnePair(d: Dict<BySide<ExitNode>>, key: string, nodes: BySide<ExitNode>)
    requires Keyed(d) && key !in d.at
    ensures Keyed(Put(d, key, nodes)) && Pairs(Values(Put(d, key, nodes))) == Pairs(Values(d)) + Pair(nodes)
  {
    PutValues(d, key, nodes);
    LastPair(Values(d), nodes);
  }

  lemma OneNode(d: Dict<ExitNode>, key: string, node: ExitNode)
    requires Keyed(d) && key !in d.at
    ensures Keyed(Put(d, key, node)) && multiset(Values(Put(d, key, node))) == multiset(Values(d)) + multiset{node}
  {
    PutValues(d, key, node);
  }

  /** The dictionaries predict exactly what the rules consume. */
  lemma {:induction false} PredictionIsRules(rules: seq<Placed>, ns: seq<RuleNode>)
    requires DistinctIds(rules) && |rules| == |ns|
    ensures var ids := FilledNodes(rules, ns);
            Pairs(Values(ids.signals)) + multiset(Values(ids.distances)) == RuleCalls(ns)
  {
    hide Pairs, Pair, Values, Put, Keyed, DistinctIds;
    if |rules| == 0 {
      NothingPredicted();
    } else {
      var n := |rules| - 1;
      var earlier := FilledNodes(rules[..n], ns[..n]);
      DistinctEarlier(rules);
      PredictionIsRules(rules[..n], ns[..n]);
      FilledKeys(rules[..n], ns[..n], rules[n].rule.id);
      match ns[n]
      case SignalNodes(sides) => OnePair(earlier.signals, rules[n].rule.id, sides);
      case DistanceNodes(node) => OneNode(earlier.distances, rules[n].rule.id, node);
    }
  }

  lemma NothingPredicted()
    ensures Keyed(NO_IDS.signals) && Keyed(NO_IDS.distances)
    ensures Pairs(Values(NO_IDS.signals)) == multiset{} && multiset(Values(NO_IDS.distances)) == multiset{}
  {
  }

  lemma DistinctEarlier(rules: seq<Placed>)
    requires DistinctIds(rules) && |rules| > 0
    ensures DistinctIds(rules[..|rules| - 1])
    ensures var n := |rules| - 1; forall k | 0 <= k < n :: rules[..n][k].rule.id != rules[n].rule.id
  {
  }
}
