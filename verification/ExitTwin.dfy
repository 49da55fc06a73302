/** Identity soundness of the exit policy: under every resolved identity the policy computes what that identity
    denotes, whatever the labels, groups, order and repetitions of the rules behind it. */
module ExitTwin {
  import opened NodeProgram
  import opened EpisodeTables
  import opened ExitNodes
  import opened ExitPolicy
  import opened ExitIdentity

  // -- rules -------------------------------------------------------------------------------

  lemma SideTwin(market: Market, sides: set<Side>, spec: SignalSpec, side: Side)
    requires Framed(market)
    ensures match SideNode(sides, spec, side)
            case Value(n) => Meaning(market, n) == SideSignal(market, sides, spec, side)
            case Raised(failure) => SideSignal(market, sides, spec, side) == Raised(failure)
  {
    if side in sides {
      SignalTwin(market, spec, side);
    } else {
      assert Meaning(market, ConstantFalse).value.flags == seq(|market.close|, i => false);
    }
  }

  /** Bar by bar, what a rule contributes is what its nodes denote. */
  ghost predicate RuleTwin(market: Market, n: RuleNode, v: RuleValue) {
    && Framed(market) && (n.SignalNodes? <==> v.SignalValue?)
    && (n.SignalNodes? ==> forall side: Side :: SignalColumn(market, n.sides.At(side), v.signal.At(side)))
    && (n.DistanceNodes? ==> DistanceColumns(market, n.node, v.distance, v.ratio))
  }

  ghost predicate SignalColumn(market: Market, n: ExitNode, flags: seq<bool>)
    requires Framed(market)
  {
    |flags| == |market.close| && forall i | 0 <= i < |flags| :: flags[i] <==> SignalAt(market, n, i)
  }

  ghost predicate DistanceColumns(market: Market, n: ExitNode, distance: Series, ratio: Series)
    requires Framed(market)
  {
    && PositiveClose(market) && |distance| == |ratio| == |market.close|
    && forall i | 0 <= i < |ratio| :: distance[i] == DistanceAt(market, n, i) && ratio[i] == RatioAt(market, n, i)
  }

  lemma LeafColumn(market: Market, sides: set<Side>, spec: SignalSpec, side: Side)
    requires Framed(market) && SideNode(sides, spec, side).Value? && SideSignal(market, sides, spec, side).Value?
    ensures SignalColumn(market, SideNode(sides, spec, side).value, SideSignal(market, sides, spec, side).value.flags)
  {
    SideTwin(market, sides, spec, side);
    var n := SideNode(sides, spec, side).value;
    var flags := Meaning(market, n).value.flags;
    assert forall i | 0 <= i < |flags| :: flags[i] == FlagAt(market, n, i);
  }

  lemma ContributionTwin(market: Market, sides: set<Side>, rule: Rule)
    requires Framed(market) && NodeFor(sides, rule).Value? && Contribution(market, sides, rule).Value?
    ensures RuleTwin(market, NodeFor(sides, rule).value, Contribution(market, sides, rule).value)
  {
    hide SideNode, SideSignal, SignalAt, SignalRule, SignalNode;
    if rule.component.SignalComponent? {
      LeafColumn(market, sides, rule.component.signal, Long);
      LeafColumn(market, sides, rule.component.signal, Short);
      var n, v := NodeFor(sides, rule).value, Contribution(market, sides, rule).value;
      forall side: Side ensures SignalColumn(market, n.sides.At(side), v.signal.At(side)) {
        if side == Long {} else { assert side == Short; }
      }
    } else {
      DistanceTwin(market, rule.component.distance);
    }
  }

  // -- dictionaries ------------------------------------------------------------------------

  ghost predicate TablesTwin(market: Market, ids: RuleIds, t: Tables) {
    && Framed(market)
    && ids.signals.at.Keys == t.signal.Keys && ids.distances.at.Keys == t.ratio.Keys == t.distance.Keys
    && (forall id | id in t.signal :: RuleTwin(market, SignalNodes(ids.signals.at[id]), SignalValue(t.signal[id])))
    && (forall id | id in t.ratio ::
          RuleTwin(market, DistanceNodes(ids.distances.at[id]), DistanceValue(t.distance[id], t.ratio[id])))
  }

  lemma {:induction false} FilledTwin(market: Market, sides: set<Side>, rules: seq<Placed>)
    requires Framed(market) && RuleNodes(sides, rules).Value? && Contributions(market, sides, rules).Value?
    ensures TablesTwin(market, FilledNodes(rules, RuleNodes(sides, rules).value),
                       Filled(sides, rules, Contributions(market, sides, rules).value))
  {
    hide NodeFor, Contribution, RuleTwin, RuleEvidence, RuleTakes;
    if |rules| > 0 {
      var k := |rules| - 1;
      FilledTwin(market, sides, rules[..k]);
      ContributionTwin(market, sides, rules[k].rule);
      var ns, vs := RuleNodes(sides, rules).value, Contributions(market, sides, rules).value;
      assert ns[..k] == RuleNodes(sides, rules[..k]).value && vs[..k] == Contributions(market, sides, rules[..k]).value;
      var ids, t := FilledNodes(rules[..k], ns[..k]), Filled(sides, rules[..k], vs[..k]);
      EnterTwin(market, sides, ids, t, rules[k], ns[k], vs[k]);
    }
  }

  lemma EnterTwin(market: Market, sides: set<Side>, ids: RuleIds, t: Tables, p: Placed, n: RuleNode, v: RuleValue)
    requires TablesTwin(market, ids, t) && RuleTwin(market, n, v)
    ensures TablesTwin(market, EnterNode(ids, p, n), Enter(sides, t, p, v))
  {
    hide RuleEvidence, RuleTakes, Framed, SignalColumn, DistanceColumns;
    assert n.SignalNodes? <==> v.SignalValue?;
    hide RuleTwin;
    if n.SignalNodes? {
      assert RuleTwin(market, SignalNodes(n.sides), SignalValue(v.signal));
    } else {
      assert RuleTwin(market, DistanceNodes(n.node), DistanceValue(v.distance, v.ratio));
    }
  }

  // -- aggregates --------------------------------------------------------------------------

  lemma AnyTwin(market: Market, ids: RuleIds, t: Tables, names: seq<string>, side: Side)
    requires TablesTwin(market, ids, t) && forall id | id in names :: id in t.signal
    ensures var size := |market.close|;
            && AllSized(SideSignals(t, names, side), size)
            && Meaning(market, AnySignal(SignalSet(ids, names, side)))
               == Value(Flags(AnyOf(SideSignals(t, names, side), size)))
  {
    hide SignalAt;
    var size, columns, nodes := |market.close|, SideSignals(t, names, side), SignalSet(ids, names, side);
    forall k | 0 <= k < |columns| ensures SignalColumn(market, ids.signals.at[names[k]].At(side), columns[k]) {
      assert names[k] in t.signal;
      assert RuleTwin(market, SignalNodes(ids.signals.at[names[k]]), SignalValue(t.signal[names[k]]));
    }
    forall i | 0 <= i < size
      ensures FlagAt(market, AnySignal(nodes), i) <==> exists k :: 0 <= k < |columns| && columns[k][i]
    {
      if n :| n in nodes && SignalAt(market, n, i) {
        var id :| id in names && id in ids.signals.at && ids.signals.at[id].At(side) == n;
        var k :| 0 <= k < |names| && names[k] == id;
        assert columns[k][i];
      }
      if k :| 0 <= k < |columns| && columns[k][i] {
        assert ids.signals.at[names[k]].At(side) in nodes;
      }
    }
    assert Meaning(market, AnySignal(nodes)).value.flags == AnyOf(columns, size);
  }

  ghost predicate DistanceTables(market: Market, ids: RuleIds, t: Tables, names: seq<string>) {
    TablesTwin(market, ids, t) && forall id | id in names :: id in t.ratio && id in t.distance
  }

  lemma NameColumns(market: Market, ids: RuleIds, t: Tables, names: seq<string>, k: nat)
    requires DistanceTables(market, ids, t, names) && k < |names|
    ensures names[k] in ids.distances.at
    ensures DistanceColumns(market, ids.distances.at[names[k]], t.distance[names[k]], t.ratio[names[k]])
    ensures ids.distances.at[names[k]] in DistanceSet(ids, names)
  {
    assert names[k] in t.ratio;
    assert RuleTwin(market, DistanceNodes(ids.distances.at[names[k]]), DistanceValue(t.distance[names[k]], t.ratio[names[k]]));
  }

  lemma NodeName(ids: RuleIds, names: seq<string>, n: ExitNode) returns (k: nat)
    requires n in DistanceSet(ids, names)
    ensures k < |names| && names[k] in ids.distances.at && ids.distances.at[names[k]] == n
  {
    var id :| id in names && id in ids.distances.at && ids.distances.at[id] == n;
    k :| 0 <= k < |names| && names[k] == id;
  }

  lemma NamesFound(market: Market, ids: RuleIds, t: Tables, names: seq<string>)
    requires DistanceTables(market, ids, t, names)
    ensures Framed(market) && forall id | id in names :: id in t.ratio && id in t.distance && id in ids.distances.at
  {
  }

  /** The least ratio or the least distance of the named rules is what its node denotes. */
  lemma LeastTwin(market: Market, ids: RuleIds, t: Tables, names: seq<string>, ratio: bool)
    requires DistanceTables(market, ids, t, names)
    ensures Framed(market) && forall id | id in names :: id in t.ratio && id in t.distance
    ensures var columns: seq<Series> := Gather(if ratio then t.ratio else t.distance, names);
            && AllSized(columns, |market.close|)
            && Meaning(market, LeastNode(ids, names, ratio)) == Value(Floats(MinOf(columns, |market.close|)))
  {
    hide MeasureAt, IsLeast, TablesTwin, DistanceSet, DistanceTables, FloatAt;
    NamesFound(market, ids, t, names);
    var size, nodes := |market.close|, DistanceSet(ids, names);
    var columns: seq<Series> := Gather(if ratio then t.ratio else t.distance, names);
    forall k | 0 <= k < |columns| ensures MeasureColumn(market, ids.distances.at[names[k]], columns[k], ratio) {
      NameColumns(market, ids, t, names, k);
      ColumnOfMeasure(market, ids.distances.at[names[k]], t.distance[names[k]], t.ratio[names[k]], ratio);
    }
    forall i | 0 <= i < size ensures FloatMeaning(market, LeastNode(ids, names, ratio)).value.floats[i] == MinAt(columns, i) {
      if PositiveClose(market) {
        var made, meant := set k | 0 <= k < |columns| :: columns[k][i], set r | r in nodes :: MeasureAt(market, r, i, ratio);
        forall x | x in made ensures x in meant {
          var k :| 0 <= k < |columns| && columns[k][i] == x;
          NameColumns(market, ids, t, names, k);
        }
        forall x | x in meant ensures x in made {
          var r :| r in nodes && MeasureAt(market, r, i, ratio) == x;
          var k := NodeName(ids, names, r);
          assert columns[k][i] == x;
        }
        SameSetLeast(made, meant, MinAt(columns, i));
        LeastNodeAt(market, ids, names, ratio, i);
      } else {
        NothingConfigured(market, ids, t, names);
      }
    }
    assert FloatMeaning(market, LeastNode(ids, names, ratio)).value.floats == MinOf(columns, size);
  }

  function LeastNode(ids: RuleIds, names: seq<string>, ratio: bool): ExitNode {
    if ratio then MinRatio(DistanceSet(ids, names)) else MinDistance(DistanceSet(ids, names))
  }

  ghost function MeasureAt(market: Market, n: ExitNode, i: nat, ratio: bool): Option<real>
    requires Within(market, i)
  {
    if ratio then RatioAt(market, n, i) else DistanceAt(market, n, i)
  }

  ghost predicate MeasureColumn(market: Market, n: ExitNode, column: Series, ratio: bool)
    requires Framed(market)
  {
    && PositiveClose(market) && |column| == |market.close|
    && forall i | 0 <= i < |column| :: column[i] == MeasureAt(market, n, i, ratio)
  }

  lemma ColumnOfMeasure(market: Market, n: ExitNode, distance: Series, r: Series, ratio: bool)
    requires Framed(market) && DistanceColumns(market, n, distance, r)
    ensures MeasureColumn(market, n, if ratio then r else distance, ratio)
  {
  }

  lemma LeastNodeAt(market: Market, ids: RuleIds, names: seq<string>, ratio: bool, i: nat)
    requires Within(market, i)
    ensures FloatAt(market, LeastNode(ids, names, ratio), i)
            == Least(set r | r in DistanceSet(ids, names) :: MeasureAt(market, r, i, ratio))
  {
    var nodes := DistanceSet(ids, names);
    if ratio {
      assert (set r | r in nodes :: MeasureAt(market, r, i, ratio)) == set r | r in nodes :: RatioAt(market, r, i);
    } else {
      assert (set r | r in nodes :: MeasureAt(market, r, i, ratio)) == set r | r in nodes :: DistanceAt(market, r, i);
    }
  }

  lemma SameSetLeast(made: set<Option<real>>, meant: set<Option<real>>, m: Option<real>)
    requires IsLeast(made, m) && made <= meant && meant <= made
    ensures Least(meant) == m
  {
    assert made == meant;
    LeastUnique(meant, Least(meant), m);
  }

  /** Readiness is what its node denotes. */
  lemma ReadyTwin(
    market: Market, ids: RuleIds, t: Tables, stops: seq<string>, takes: seq<string>, partials: seq<string>)
    requires DistanceTables(market, ids, t, stops) && DistanceTables(market, ids, t, takes)
    requires DistanceTables(market, ids, t, partials)
    ensures (forall id | id in stops :: id in t.ratio) && (forall id | id in takes :: id in t.ratio)
            && (forall id | id in partials :: id in t.ratio)
    ensures var size := |market.close|;
            && AllSized(Gather(t.ratio, stops), size) && AllSized(Gather(t.ratio, takes), size)
            && AllSized(Gather(t.ratio, partials), size)
            && Meaning(market, Ready(stops != [], takes != [], MinRatio(DistanceSet(ids, stops)),
                                     MinRatio(DistanceSet(ids, takes)), DistanceSet(ids, partials)))
               == Value(Flags(ReadyOf(MinOf(Gather(t.ratio, stops), size), MinOf(Gather(t.ratio, takes), size),
                                      stops != [], takes != [], Gather(t.ratio, partials), size)))
  {
    hide RatioAt, IsLeast, TablesTwin, DistanceSet, DistanceTables, MinAt, MinOf;
    var size := |market.close|;
    LeastTwin(market, ids, t, stops, true);
    LeastTwin(market, ids, t, takes, true);
    LeastTwin(market, ids, t, partials, true);
    var stop, take := MinOf(Gather(t.ratio, stops), size), MinOf(Gather(t.ratio, takes), size);
    var columns: seq<Series> := Gather(t.ratio, partials);
    var node := Ready(stops != [], takes != [], MinRatio(DistanceSet(ids, stops)), MinRatio(DistanceSet(ids, takes)),
                      DistanceSet(ids, partials));
    var made := ReadyOf(stop, take, stops != [], takes != [], columns, size);
    forall i | 0 <= i < size ensures made[i] <==> FlagAt(market, node, i) {
      if PositiveClose(market) {
        assert FloatMeaning(market, node.stop).value.floats[i] == stop[i];
        assert FloatMeaning(market, node.take).value.floats[i] == take[i];
        PartialsPresent(market, ids, t, partials, i);
      } else {
        NothingConfigured(market, ids, t, stops);
        NothingConfigured(market, ids, t, takes);
        NothingConfigured(market, ids, t, partials);
      }
    }
    assert Meaning(market, node).value.flags == made;
  }

  lemma NothingConfigured(market: Market, ids: RuleIds, t: Tables, names: seq<string>)
    requires DistanceTables(market, ids, t, names) && !PositiveClose(market)
    ensures names == []
  {
    if |names| > 0 {
      NameColumns(market, ids, t, names, 0);
      assert false;
    }
  }

  lemma PartialsPresent(market: Market, ids: RuleIds, t: Tables, names: seq<string>, i: nat)
    requires DistanceTables(market, ids, t, names) && Within(market, i)
    ensures forall id | id in names :: id in t.ratio
    ensures AllSized(Gather(t.ratio, names), |market.close|)
    ensures (forall k | 0 <= k < |names| :: Gather<Series>(t.ratio, names)[k][i].Some?)
            <==> forall r | r in DistanceSet(ids, names) :: RatioAt(market, r, i).Some?
  {
    hide RatioAt, TablesTwin, DistanceSet, DistanceTables;
    NamesFound(market, ids, t, names);
    LeastTwin(market, ids, t, names, true);
    var columns: seq<Series> := Gather(t.ratio, names);
    forall k | 0 <= k < |names|
      ensures ids.distances.at[names[k]] in DistanceSet(ids, names)
      ensures columns[k][i] == RatioAt(market, ids.distances.at[names[k]], i)
    {
      NameColumns(market, ids, t, names, k);
    }
    if forall k | 0 <= k < |names| :: columns[k][i].Some? {
      forall r | r in DistanceSet(ids, names) ensures RatioAt(market, r, i).Some? {
        var k := NodeName(ids, names, r);
      }
    }
  }

  // -- selections --------------------------------------------------------------------------

  lemma SelectFlagTwin(market: Market, p: FeatureNode, nodes: ByProfile<ExitNode>, values: ByProfile<seq<bool>>)
    requires Framed(market)
    requires forall q: Profile :: |values.At(q)| == |market.close| && Meaning(market, nodes.At(q)) == Value(Flags(values.At(q)))
    ensures |values.At(Aligned)| == |values.At(Countertrend)| == |values.At(Neutral)| == |market.close|
    ensures Meaning(market, SelectFlag(p, nodes.aligned, nodes.countertrend, nodes.neutral))
            == Value(Flags(Select(market.profile(p), values, |market.close|)))
  {
    var size, node := |market.close|, SelectFlag(p, nodes.aligned, nodes.countertrend, nodes.neutral);
    assert |values.At(Aligned)| == |values.At(Countertrend)| == |values.At(Neutral)| == size;
    forall i | 0 <= i < size ensures FlagAt(market, node, i) == values.At(market.profile(p)[i])[i] {
      var q := market.profile(p)[i];
      FlagColumn(market, nodes.At(q), values.At(q), i);
    }
    assert Meaning(market, node).value.flags == Select(market.profile(p), values, size);
  }

  lemma FlagColumn(market: Market, n: ExitNode, flags: seq<bool>, i: nat)
    requires Framed(market) && i < |market.close| && Meaning(market, n) == Value(Flags(flags))
    ensures |flags| == |market.close| && flags[i] == FlagAt(market, n, i)
  {
  }

  lemma SelectFloatTwin(market: Market, p: FeatureNode, nodes: ByProfile<ExitNode>, values: ByProfile<Series>)
    requires Framed(market)
    requires forall q: Profile :: |values.At(q)| == |market.close| && Meaning(market, nodes.At(q)) == Value(Floats(values.At(q)))
    ensures |values.At(Aligned)| == |values.At(Countertrend)| == |values.At(Neutral)| == |market.close|
    ensures Meaning(market, SelectFloat(p, nodes.aligned, nodes.countertrend, nodes.neutral))
            == Value(Floats(Select(market.profile(p), values, |market.close|)))
  {
    var size, node := |market.close|, SelectFloat(p, nodes.aligned, nodes.countertrend, nodes.neutral);
    assert |values.At(Aligned)| == |values.At(Countertrend)| == |values.At(Neutral)| == size;
    forall i | 0 <= i < size
      ensures (if PositiveClose(market) then FloatAt(market, node, i) else None) == values.At(market.profile(p)[i])[i]
    {
      var q := market.profile(p)[i];
      FloatColumn(market, nodes.At(q), values.At(q), i);
    }
    assert Meaning(market, node).value.floats == Select(market.profile(p), values, size);
  }

  lemma FloatColumn(market: Market, n: ExitNode, floats: Series, i: nat)
    requires Framed(market) && i < |market.close| && Meaning(market, n) == Value(Floats(floats))
    ensures |floats| == |market.close|
    ensures floats[i] == if PositiveClose(market) then FloatAt(market, n, i) else None
  {
  }
}
