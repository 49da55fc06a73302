/** What operands and predicates measure: on every bar, by equations between the readings of an operand and of
    the operands it is made of. */
module OperandMeaning {
  import opened NodeProgram
  import opened NodeIdentity
  import opened EpisodeTables
  import opened Operands
  import opened OperandEvaluation
  import opened Predicates

  // -- readings ------------------------------------------------------------------------------

  /** What a value reads as on bar `i`: a constant everywhere the same, a column its own entry, and a mask
      nothing. */
  function Reading(d: Datum, i: nat): Option<real> {
    match d
    case Scalar(x) => Some(x)
    case Array(values) => if i < |values| then values[i] else None
    case Mask(_) => None
  }

  /** An operand that has a value: a column over the whole frame. */
  ghost predicate IsColumn(world: World, r: Outcome<Datum>) {
    r.Value? && r.value.Array? && |r.value.values| == world.size
  }

  /** The first of two operands that fails decides. */
  ghost predicate FailsAs(r: Outcome<Datum>, left: Outcome<Datum>, right: Outcome<Datum>) {
    if left.Raised? then r == left else right.Raised? ==> r == right
  }

  ghost predicate FailsLike(r: Outcome<Datum>, inner: Outcome<Datum>) {
    inner.Raised? ==> r == inner
  }

  lemma Broadcasts(size: nat, d: Datum, i: nat)
    requires i < size
    ensures At(Broadcast(size, d), i) == Reading(d, i)
  {
  }

  // -- leaves --------------------------------------------------------------------------------

  /** A constant is its number, a price its market column, and a planned feature its own column; an episode
      or a feature that was never evaluated is refused. */
  lemma LeavesRead(world: World, env: Env, side: Side, number: Float, field: string, f: Feature, ref: EpisodeRef)
    ensures number.Finite? ==>
              var r := Values(world, env, Const(number), side);
              r.Value? && r.value.Scalar?
              && r.value.x == if number.negative then 0.0 - number.magnitude else number.magnitude
    ensures Values(world, env, Price(field), side) == Value(Array(world.price(field)))
    ensures var r := Values(world, env, FeatureValue(f), side);
            if f.columnLabel in env.series then r == Value(Array(env.series[f.columnLabel])) else r.Raised?
    ensures var r := Values(world, env, EpisodeValue(ref), side);
            if (ref.ref, side) in env.episodes
            then r == Value(Array(world.episodeField(env.episodes[(ref.ref, side)], ref.entity, ref.index, ref.field)))
            else r.Raised?
  {
    ValuesCompose(world, env, NoIdentities, Const(number), side, []);
    ValuesCompose(world, env, NoIdentities, Price(field), side, []);
    ValuesCompose(world, env, NoIdentities, FeatureValue(f), side, []);
    ValuesCompose(world, env, NoIdentities, EpisodeValue(ref), side, []);
  }

  // -- two operands --------------------------------------------------------------------------

  /** The values of two children, up to the first failure. */
  lemma TwoChildren(world: World, env: Env, cs: seq<Child>, side: Side)
    requires |cs| == 2
    ensures var l, r := Values(world, env, cs[0].operand, side), Values(world, env, cs[1].operand, side);
            ChildValues(world, env, cs, side) ==
              if l.Raised? then Raised(l.failure) else if r.Raised? then Raised(r.failure) else Value([l.value, r.value])
  {
    hide Values;
    var l, r := Values(world, env, cs[0].operand, side), Values(world, env, cs[1].operand, side);
    OneChild(world, env, cs[1..], side);
    if r.Value? {
      assert ChildValues(world, env, cs[1..], side) == Value([r.value]);
      assert l.Value? ==> [l.value] + [r.value] == [l.value, r.value];
    }
  }

  lemma OneChild(world: World, env: Env, cs: seq<Child>, side: Side)
    requires |cs| == 1
    ensures var v := Values(world, env, cs[0].operand, side);
            ChildValues(world, env, cs, side) == if v.Raised? then Raised(v.failure) else Value([v.value])
  {
    hide Values;
    var none: seq<Datum> := [];
    assert ChildValues(world, env, cs[1..], side) == Value(none);
    var v := Values(world, env, cs[0].operand, side);
    if v.Value? {
      assert [v.value] + none == [v.value];
    }
  }

  lemma TwoInputs(world: World, env: Env, op: Operand, left: Operand, right: Operand, side: Side)
    requires Children(op) == [Child(AtLeft, left), Child(AtRight, right)] && !op.OverLeg? && !op.AtPoint?
    ensures var l, r := Values(world, env, left, side), Values(world, env, right, side);
            && FailsAs(Values(world, env, op, side), l, r)
            && (l.Value? && r.Value? ==> Values(world, env, op, side) == Combined(world, env, op, side, [l.value, r.value]))
  {
    hide Values, Combined;
    ValuesCompose(world, env, NoIdentities, op, side, []);
    TwoChildren(world, env, Children(op), side);
  }

  /** A ratio times its right side is its left side. It is there exactly where both sides are and the right
      one, or its magnitude, is above the floor and not zero. */
  lemma RatioMeans(world: World, env: Env, left: Operand, right: Operand, floor: Float, mode: string, side: Side, i: nat)
    requires i < world.size && floor.Finite?
    ensures var l, r := Values(world, env, left, side), Values(world, env, right, side);
            var q := Values(world, env, Ratio(left, right, floor, mode), side);
            && FailsAs(q, l, r)
            && (l.Value? && r.Value? ==>
                  && IsColumn(world, q)
                  && var a, b, x := Reading(l.value, i), Reading(r.value, i), q.value.values[i];
                     && (x.Some? <==>
                           && a.Some? && b.Some? && b.value != 0.0
                           && (b.value > Real(floor) || (mode == "absolute" && 0.0 - b.value > Real(floor))))
                     && (x.Some? ==> x.value * b.value == a.value))
  {
    hide Values;
    TwoInputs(world, env, Ratio(left, right, floor, mode), left, right, side);
    var l, r := Values(world, env, left, side), Values(world, env, right, side);
    if l.Value? && r.Value? {
      Broadcasts(world.size, l.value, i);
      Broadcasts(world.size, r.value, i);
      var q := Values(world, env, Ratio(left, right, floor, mode), side);
      assert q.value.values[i]
          == Quotient(Real(floor), mode == "absolute", Reading(l.value, i), Reading(r.value, i));
    }
  }

  /** A difference plus its right side is its left side. */
  lemma DifferenceMeans(world: World, env: Env, left: Operand, right: Operand, side: Side, i: nat)
    requires i < world.size
    ensures var l, r := Values(world, env, left, side), Values(world, env, right, side);
            var d := Values(world, env, Difference(left, right), side);
            && FailsAs(d, l, r)
            && (l.Value? && r.Value? ==>
                  && IsColumn(world, d)
                  && var a, b, x := Reading(l.value, i), Reading(r.value, i), d.value.values[i];
                     (x.Some? <==> a.Some? && b.Some?) && (x.Some? ==> x.value + b.value == a.value))
  {
    hide Values;
    TwoInputs(world, env, Difference(left, right), left, right, side);
    var l, r := Values(world, env, left, side), Values(world, env, right, side);
    if l.Value? && r.Value? {
      Broadcasts(world.size, l.value, i);
      Broadcasts(world.size, r.value, i);
      var d := Values(world, env, Difference(left, right), side);
      assert d.value.values[i] == Minus(Reading(l.value, i), Reading(r.value, i));
    }
  }

  // -- one operand ---------------------------------------------------------------------------

  lemma OneInput(world: World, env: Env, op: Operand, step: PathStep, inner: Operand, side: Side)
    requires Children(op) == [Child(step, inner)] && !op.OverLeg? && !Blocked(world, env, op, side)
    ensures var v := Values(world, env, inner, side);
            && FailsLike(Values(world, env, op, side), v)
            && (v.Value? ==> Values(world, env, op, side) == Combined(world, env, op, side, [v.value]))
  {
    hide Values, Combined, Blocked;
    ValuesCompose(world, env, NoIdentities, op, side, []);
    OneChild(world, env, Children(op), side);
  }

  /** An absolute value is nonnegative, and the value or its opposite. */
  lemma AbsoluteMeans(world: World, env: Env, inner: Operand, side: Side, i: nat)
    requires i < world.size
    ensures var v, m := Values(world, env, inner, side), Values(world, env, Absolute(inner), side);
            && FailsLike(m, v)
            && (v.Value? ==>
                  && IsColumn(world, m)
                  && var a, x := Reading(v.value, i), m.value.values[i];
                     && (x.Some? <==> a.Some?)
                     && (x.Some? ==> x.value >= 0.0 && (x.value == a.value || x.value + a.value == 0.0)))
  {
    hide Values;
    OneInput(world, env, Absolute(inner), AtAbs, inner, side);
    var v := Values(world, env, inner, side);
    if v.Value? {
      Broadcasts(world.size, v.value, i);
      var m := Values(world, env, Absolute(inner), side);
      assert m.value.values[i] == Magnitude(Reading(v.value, i));
    }
  }

  /** A scaled value is so many times the value. */
  lemma ScaleMeans(world: World, env: Env, inner: Operand, factor: Float, side: Side, i: nat)
    requires i < world.size && factor.Finite?
    ensures var v, m := Values(world, env, inner, side), Values(world, env, Scale(inner, factor), side);
            && FailsLike(m, v)
            && (v.Value? ==>
                  && IsColumn(world, m)
                  && var a, x := Reading(v.value, i), m.value.values[i];
                     && (x.Some? <==> a.Some?)
                     && (x.Some? ==>
                           if factor.negative then x.value + factor.magnitude * a.value == 0.0
                           else x.value == factor.magnitude * a.value))
  {
    hide Values;
    OneInput(world, env, Scale(inner, factor), AtOperand, inner, side);
    var v := Values(world, env, inner, side);
    if v.Value? {
      Broadcasts(world.size, v.value, i);
      var m := Values(world, env, Scale(inner, factor), side);
      assert m.value.values[i] == Times(Real(factor), Reading(v.value, i));
    }
  }

  /** A signed value is the value on the long side; on the short side the center is halfway between them. */
  lemma SignedMeans(world: World, env: Env, inner: Operand, center: Float, side: Side, i: nat)
    requires i < world.size && center.Finite?
    ensures var v, m := Values(world, env, inner, side), Values(world, env, Signed(inner, center), side);
            && FailsLike(m, v)
            && (v.Value? ==>
                  && IsColumn(world, m)
                  && var a, x := Reading(v.value, i), m.value.values[i];
                     && (x.Some? <==> a.Some?)
                     && (x.Some? ==> if side == Long then x == a else x.value + a.value == 2.0 * Real(center)))
  {
    hide Values;
    OneInput(world, env, Signed(inner, center), AtOperand, inner, side);
    var v := Values(world, env, inner, side);
    if v.Value? {
      Broadcasts(world.size, v.value, i);
      var m := Values(world, env, Signed(inner, center), side);
      assert m.value.values[i] == Mirrored(side, Real(center), Reading(v.value, i));
    }
  }

  // -- operands over episodes ----------------------------------------------------------------

  /** An interval change measures its inner column, over a fixed interval as it is and over an episode's interval
      with the table of the side's own episode; a constant and an episode that was never evaluated are refused. */
  lemma IntervalMeans(world: World, env: Env, inner: Operand, interval: Interval, operation: string, side: Side)
    ensures var v, m := Values(world, env, inner, side), Values(world, env, IntervalChange(inner, interval, operation), side);
            && FailsLike(m, v)
            && (m.Value? <==>
                  v.Value? && v.value.Array? && (interval.EpisodeInterval? ==> (interval.ref, side) in env.episodes))
            && (m.Value? && interval.FixedInterval? ==>
                  m.value == Array(world.intervalChange(interval, None, operation, v.value.values)))
            && (m.Value? && interval.EpisodeInterval? ==>
                  m.value == Array(world.intervalChange(
                    interval, Some(env.episodes[(interval.ref, side)]), operation, v.value.values)))
  {
    hide Values;
    OneInput(world, env, IntervalChange(inner, interval, operation), AtOf, inner, side);
  }

  /** The column of a value over `size` bars. */
  ghost predicate ReadsAs(d: Datum, size: nat, xs: Series) {
    match d
    case Array(values) => xs == values
    case _ => |xs| == size && forall i | 0 <= i < size :: xs[i] == Reading(d, i)
  }

  lemma BroadcastReads(d: Datum, size: nat, xs: Series)
    ensures ReadsAs(d, size, xs) <==> Broadcast(size, d) == xs
  {
  }

  /** A value at a point is that of its inner column in the side's own episode; without that episode it is refused
      before anything is read. */
  lemma AtPointMeans(world: World, env: Env, episode: string, point: string, inner: Operand, side: Side, xs: Series)
    ensures var v, m := Values(world, env, inner, side), Values(world, env, AtPoint(episode, point, inner), side);
            && (m.Value? <==> v.Value? && (episode, side) in env.episodes)
            && (m.Value? && ReadsAs(v.value, world.size, xs) ==>
                  m.value == Array(world.atPoint(env.episodes[(episode, side)], point, xs)))
  {
    hide Values, Broadcast;
    var op := AtPoint(episode, point, inner);
    if (episode, side) in env.episodes {
      OneInput(world, env, op, AtOperand, inner, side);
      var v := Values(world, env, inner, side);
      if v.Value? {
        BroadcastReads(v.value, world.size, xs);
      }
    } else {
      ValuesCompose(world, env, NoIdentities, op, side, []);
    }
  }

  /** The features a shape over a leg is handed: all that are declared, and of a by-side pair the side's own. */
  ghost predicate Handed(shape: Shape, features: seq<Feature>, side: Side, columns: seq<Feature>) {
    if shape.Segment? && shape.form.BySideForm? && |features| == 2
    then |columns| == 1 && (side == Long ==> columns[0] == features[0]) && (side == Short ==> columns[0] == features[1])
    else columns == features
  }

  lemma {:induction false} FeatureValues(world: World, env: Env, columns: seq<Feature>, side: Side)
    ensures var vs := ChildValues(world, env, FeatureChildren(columns), side);
            && (vs.Value? <==> forall k | 0 <= k < |columns| :: columns[k].columnLabel in env.series)
            && (vs.Value? ==>
                  && |vs.value| == |columns|
                  && forall k | 0 <= k < |columns| :: vs.value[k] == Array(env.series[columns[k].columnLabel]))
  {
    hide Values;
    if |columns| > 0 {
      LeavesRead(world, env, side, Finite(false, 0.0), "", columns[0], EpisodeRef("", "", None, ""));
      FeatureValues(world, env, columns[1..], side);
    }
  }

  /** An operand over a leg is the market's measure of the side's own episode, with the planned series and the
      period of every feature it is handed. It has a value exactly where the episode was evaluated, every feature
      it is handed is planned, no declared feature of a segment is off the base timeframe, and the timeframe of any
      other shape fits. */
  lemma OverLegMeans(
    world: World, env: Env, episode: string, shape: Shape, features: seq<Feature>, side: Side, columns: seq<Feature>,
    inputs: seq<Column>)
    requires Handed(shape, features, side, columns) && |inputs| == |columns|
    requires forall k | 0 <= k < |columns| && columns[k].columnLabel in env.series ::
               inputs[k].values == env.series[columns[k].columnLabel] && inputs[k].period == columns[k].period
    ensures var m := Values(world, env, OverLeg(episode, shape, features), side);
            && (m.Value? <==>
                  && (episode, side) in env.episodes
                  && (forall k | 0 <= k < |columns| :: columns[k].columnLabel in env.series)
                  && (shape.Segment? ==> forall k | 0 <= k < |features| :: features[k].onBase)
                  && (!shape.Segment? ==> !world.badTimeframe(shape)))
            && (m.Value? ==> m.value == Array(world.overLeg(shape, env.episodes[(episode, side)], inputs, side)))
  {
    hide Values, ChildValues, LegColumns, FeatureChildren;
    var op := OverLeg(episode, shape, features);
    ValuesCompose(world, env, NoIdentities, op, side, []);
    FeatureValues(world, env, columns, side);
    NoChildren(world, env, side);
    assert Reads(shape, features, side) == columns;
    var vs := ChildValues(world, env, FeatureChildren(columns), side);
    if vs.Value? {
      ColumnsHanded(world.size, columns, vs.value, inputs);
    }
  }

  lemma ColumnsHanded(size: nat, columns: seq<Feature>, vs: seq<Datum>, inputs: seq<Column>)
    requires |vs| == |columns| == |inputs|
    requires forall k | 0 <= k < |columns| ::
               vs[k] == Array(inputs[k].values) && inputs[k].period == columns[k].period
    ensures LegColumns(size, columns, vs) == inputs
  {
  }

  lemma NoChildren(world: World, env: Env, side: Side)
    ensures ChildValues(world, env, [], side).Value?
  {
  }

  /** The real number of a finite parameter. */
  lemma RealMeans(f: Float)
    requires f.Finite?
    ensures f.negative ==> Real(f) + f.magnitude == 0.0
    ensures !f.negative ==> Real(f) == f.magnitude
  {
  }

  // -- guarded operands ------------------------------------------------------------------------

  /** A finite value within the bounds that are set. */
  ghost predicate Within(bound: Bound, x: Option<real>) {
    && x.Some?
    && (bound.min.Some? ==> Real(bound.min.value) < x.value || (bound.bounds != "exclusive" && x.value == Real(bound.min.value)))
    && (bound.max.Some? ==> x.value < Real(bound.max.value) || (bound.bounds != "exclusive" && x.value == Real(bound.max.value)))
  }

  /** Every requirement has a value. */
  ghost predicate AllRequired(world: World, env: Env, require: seq<Requirement>, side: Side) {
    forall k | 0 <= k < |require| :: Values(world, env, require[k].operand, side).Value?
  }

  lemma {:induction false} ChildrenAt(world: World, env: Env, cs: seq<Child>, side: Side)
    ensures var r := ChildValues(world, env, cs, side);
            && (r.Value? <==> forall k | 0 <= k < |cs| :: Values(world, env, cs[k].operand, side).Value?)
            && (r.Value? ==> |r.value| == |cs| && forall k | 0 <= k < |cs| ::
                  Values(world, env, cs[k].operand, side) == Value(r.value[k]))
            && (r.Raised? ==> exists k :: FirstFailure(world, env, cs, side, k, r.failure))
  {
    hide Values;
    if |cs| > 0 {
      ChildrenAt(world, env, cs[1..], side);
      var first, rest := Values(world, env, cs[0].operand, side), ChildValues(world, env, cs[1..], side);
      if first.Raised? {
        assert FirstFailure(world, env, cs, side, 0, first.failure);
      } else if rest.Raised? {
        var k :| FirstFailure(world, env, cs[1..], side, k, rest.failure);
        assert FirstFailure(world, env, cs, side, k + 1, rest.failure);
      } else {
        assert forall k | 0 < k < |cs| :: cs[k] == cs[1..][k - 1];
      }
    }
  }

  /** The operands before the `k`-th one have values, and it fails. */
  ghost predicate FirstFailure(world: World, env: Env, cs: seq<Child>, side: Side, k: int, failure: Failure) {
    && 0 <= k < |cs| && Values(world, env, cs[k].operand, side) == Raised(failure)
    && forall j | 0 <= j < k :: Values(world, env, cs[j].operand, side).Value?
  }

  /** A guarded operand has its inner value exactly where every requirement is within its bounds, and none
      elsewhere; requirements are evaluated first, so the first of them that fails decides. */
  lemma OnlyIfMeans(world: World, env: Env, inner: Operand, require: seq<Requirement>, side: Side, i: nat)
    requires i < world.size
    ensures var v, m := Values(world, env, inner, side), Values(world, env, OnlyIf(inner, require), side);
            && (AllRequired(world, env, require, side) ==> FailsLike(m, v))
            && (m.Raised? ==> v.Raised? || !AllRequired(world, env, require, side))
            && (AllRequired(world, env, require, side) && v.Value? ==>
                  && IsColumn(world, m)
                  && var a, x := Reading(v.value, i), m.value.values[i];
                     && (x.Some? <==>
                           a.Some? && forall k | 0 <= k < |require| ::
                             Within(require[k].bound, Reading(Values(world, env, require[k].operand, side).value, i)))
                     && (x.Some? ==> x == a))
            && (!AllRequired(world, env, require, side) ==> m.Raised?)
  {
    hide Values, Blocked;
    var op := OnlyIf(inner, require);
    var cs := Children(op);
    assert !Blocked(world, env, op, side) by { NotBlocked(world, env, inner, require, side); }
    ValuesCompose(world, env, NoIdentities, op, side, []);
    ChildrenAt(world, env, cs, side);
    assert |cs| == |require| + 1 && cs[|require|] == Child(AtOperand, inner);
    assert forall k | 0 <= k < |require| :: cs[k].operand == require[k].operand;
    var vs := ChildValues(world, env, cs, side);
    var v := Values(world, env, inner, side);
    if AllRequired(world, env, require, side) && v.Value? {
      GuardedColumn(world, env, inner, require, side, i, vs.value);
    } else if AllRequired(world, env, require, side) {
      var k :| FirstFailure(world, env, cs, side, k, vs.failure);
      assert k == |require|;
    } else {
      var k :| 0 <= k < |require| && !Values(world, env, require[k].operand, side).Value?;
      assert !Values(world, env, cs[k].operand, side).Value?;
    }
  }

  lemma NotBlocked(world: World, env: Env, inner: Operand, require: seq<Requirement>, side: Side)
    ensures !Blocked(world, env, OnlyIf(inner, require), side)
  {
  }

  lemma GuardedColumn(
    world: World, env: Env, inner: Operand, require: seq<Requirement>, side: Side, i: nat, vs: seq<Datum>)
    requires i < world.size && |vs| == |require| + 1
    ensures var m := Combined(world, env, OnlyIf(inner, require), side, vs);
            && IsColumn(world, m)
            && var a, x := Reading(vs[|require|], i), m.value.values[i];
               && (x.Some? <==> a.Some? && forall k | 0 <= k < |require| :: Within(require[k].bound, Reading(vs[k], i)))
               && (x.Some? ==> x == a)
  {
    var bounds, xs := BoundsOf(require), Columns(world.size, vs);
    forall k | 0 <= k < |vs| ensures At(xs[k], i) == Reading(vs[k], i) {
      Broadcasts(world.size, vs[k], i);
    }
    forall k | 0 <= k < |require|
      ensures Inside(bounds[k], At(xs[..|bounds|][k], i)) == Within(require[k].bound, Reading(vs[k], i))
    {
    }
    var x := Combined(world, env, OnlyIf(inner, require), side, vs).value.values[i];
    assert x == if AllInside(bounds, xs[..|bounds|], i) then At(xs[|bounds|], i) else None;
  }

  // -- predicates ------------------------------------------------------------------------------

  /** The mask of a predicate over the whole frame. */
  ghost predicate IsMask(world: World, r: Outcome<Datum>) {
    r.Value? && r.value.Mask? && |r.value.bits| == world.size
  }

  /** A comparison that names its relation. */
  ghost predicate Related(op: string, a: real, b: real) {
    && (op == ">" ==> a > b) && (op == ">=" ==> a >= b) && (op == "<" ==> a < b) && (op == "<=" ==> a <= b)
  }

  ghost predicate Relation(op: string) {
    op in {">", ">=", "<", "<="}
  }

  /** The condition in force on a side: its own one for short where there is one. */
  ghost predicate InForce(p: Predicate, side: Side, c: Condition) {
    p.Plain? && if side == Short && p.short.Some? then c == p.short.value else c == p.long
  }

  lemma TwoOperands(world: World, env: Env, p: Predicate, side: Side, left: Operand, op: string, right: Operand)
    requires InForce(p, side, Compare(left, op, right))
    ensures var l, r, m := Values(world, env, left, side), Values(world, env, right, side), MaskOf(world, env, p, side);
            && FailsAs(m, l, r)
            && (l.Value? && r.Value? ==> m == ConditionValue(world, Compare(left, op, right), [l.value, r.value]))
  {
    hide Values, ConditionValue;
    MaskComposes(world, env, NoIdentity, p, side);
    OperandChildrenAt([left, right]);
    TwoChildren(world, env, OperandChildren([left, right]), side);
  }

  lemma OneOperand(world: World, env: Env, p: Predicate, side: Side, c: Condition, operand: Operand)
    requires InForce(p, side, c) && ConditionOperands(c) == [operand]
    ensures var v, m := Values(world, env, operand, side), MaskOf(world, env, p, side);
            FailsLike(m, v) && (v.Value? ==> m == ConditionValue(world, c, [v.value]))
  {
    hide Values, ConditionValue;
    MaskComposes(world, env, NoIdentity, p, side);
    OperandChildrenAt([operand]);
    OneChild(world, env, OperandChildren([operand]), side);
  }

  /** A comparison holds on the bars on which both sides are there and stand in its relation. */
  lemma ComparesMeans(
    world: World, env: Env, p: Predicate, side: Side, left: Operand, op: string, right: Operand, i: nat)
    requires i < world.size && Relation(op) && InForce(p, side, Compare(left, op, right))
    ensures var l, r, m := Values(world, env, left, side), Values(world, env, right, side), MaskOf(world, env, p, side);
            && FailsAs(m, l, r)
            && (l.Value? && r.Value? ==>
                  && IsMask(world, m)
                  && var a, b := Reading(l.value, i), Reading(r.value, i);
                     m.value.bits[i] <==> a.Some? && b.Some? && Related(op, a.value, b.value))
  {
    hide Values;
    TwoOperands(world, env, p, side, left, op, right);
    var l, r := Values(world, env, left, side), Values(world, env, right, side);
    if l.Value? && r.Value? {
      Broadcasts(world.size, l.value, i);
      Broadcasts(world.size, r.value, i);
      var m := MaskOf(world, env, p, side);
      assert m.value.bits[i] == Compares(op, Reading(l.value, i), Reading(r.value, i));
      ComparesIs(op, Reading(l.value, i), Reading(r.value, i));
    }
  }

  /** A range holds where the value is within its bounds, and on a missing value only if it lets it pass. */
  lemma RangeMeans(
    world: World, env: Env, p: Predicate, side: Side, operand: Operand, bound: Bound, empty: string, i: nat)
    requires i < world.size && InForce(p, side, Range(operand, bound, empty))
    ensures var v, m := Values(world, env, operand, side), MaskOf(world, env, p, side);
            && FailsLike(m, v)
            && (v.Value? ==>
                  && IsMask(world, m)
                  && var a := Reading(v.value, i);
                     m.value.bits[i] <==> Within(bound, a) || (a.None? && empty == "pass"))
  {
    hide Values;
    OneOperand(world, env, p, side, Range(operand, bound, empty), operand);
    var v := Values(world, env, operand, side);
    if v.Value? {
      Broadcasts(world.size, v.value, i);
      var m := MaskOf(world, env, p, side);
      assert m.value.bits[i] == InRange(bound, empty, Reading(v.value, i));
    }
  }

  /** A change compares the value on the bar with the one so many bars of the feature's own timeframe
      earlier; it is false where either is missing, and refused for a timeframe the base does not divide. */
  lemma ChangeMeans(
    world: World, env: Env, p: Predicate, side: Side, f: Feature, lookback: nat, op: string, amount: Float, i: nat)
    requires i < world.size && Relation(op) && InForce(p, side, Change(f, lookback, op, amount))
    ensures var m := MaskOf(world, env, p, side);
            if f.columnLabel !in env.series || f.barRows.None? then m.Raised? else
              && IsMask(world, m)
              && var xs, shift := env.series[f.columnLabel], lookback * f.barRows.value;
                 m.value.bits[i] <==>
                   && i >= shift && i < |xs| && xs[i].Some? && xs[i - shift].Some?
                   && Related(op, xs[i].value, xs[i - shift].value + Real(amount))
  {
    hide Values, Related, Relation, Real, ConditionValue, MaskOf;
    OneOperand(world, env, p, side, Change(f, lookback, op, amount), FeatureValue(f));
    LeavesRead(world, env, side, amount, "", f, EpisodeRef("", "", None, ""));
    if f.barRows.None? {
      NoRows(world, f, lookback, op, amount);
    } else if f.columnLabel in env.series {
      var xs, shift := env.series[f.columnLabel], lookback * f.barRows.value;
      ChangedBits(world, f, lookback, op, amount, xs, i, shift);
    }
  }

  lemma ComparesIs(op: string, a: Option<real>, b: Option<real>)
    requires Relation(op)
    ensures Compares(op, a, b) <==> a.Some? && b.Some? && Related(op, a.value, b.value)
  {
  }

  lemma RelatedShift(op: string, a: real, b: real, amount: real)
    requires Relation(op)
    ensures Related(op, a - b, amount) <==> Related(op, a, b + amount)
  {
  }

  lemma ChangeAt(size: nat, shift: nat, op: string, amount: real, xs: Series, i: nat)
    requires i < size
    ensures |ChangeMask(size, shift, op, amount, xs)| == size
    ensures ChangeMask(size, shift, op, amount, xs)[i] == Compares(op, Minus(At(xs, i), At(xs, i - shift)), Some(amount))
  {
    hide Compares, Minus, At;
  }

  lemma ChangedBit(size: nat, shift: nat, op: string, amount: real, xs: Series, i: nat)
    requires i < size && Relation(op)
    ensures |ChangeMask(size, shift, op, amount, xs)| == size
    ensures ChangeMask(size, shift, op, amount, xs)[i] <==>
              && i >= shift && i < |xs| && xs[i].Some? && xs[i - shift].Some?
              && Related(op, xs[i].value, xs[i - shift].value + amount)
  {
    hide Related, Compares, Relation, ChangeMask;
    ChangeAt(size, shift, op, amount, xs, i);
    var current, earlier := At(xs, i), At(xs, i - shift);
    ComparesIs(op, Minus(current, earlier), Some(amount));
    if current.Some? && earlier.Some? {
      RelatedShift(op, current.value, earlier.value, amount);
    }
  }

  lemma NoRows(world: World, f: Feature, lookback: nat, op: string, amount: Float)
    requires f.barRows.None?
    ensures forall d :: ConditionValue(world, Change(f, lookback, op, amount), [d]).Raised?
  {
  }

  lemma ChangedBits(
    world: World, f: Feature, lookback: nat, op: string, amount: Float, xs: Series, i: nat, shift: nat)
    requires i < world.size && Relation(op) && f.barRows.Some? && shift == lookback * f.barRows.value
    ensures var m := ConditionValue(world, Change(f, lookback, op, amount), [Array(xs)]);
            && IsMask(world, m)
            && (m.value.bits[i] <==>
                  && i >= shift && i < |xs| && xs[i].Some? && xs[i - shift].Some?
                  && Related(op, xs[i].value, xs[i - shift].value + Real(amount)))
  {
    hide ChangeMask, Related, Relation, Real;
    ChangedBit(world.size, shift, op, Real(amount), xs, i);
  }

  /** A regime is a raw state seen from the side: up is aligned for long and countertrend for short, down the
      other way round. */
  lemma StateMeans(world: World, env: Env, contextRef: string, regimes: seq<string>, side: Side, i: nat)
    requires i < world.size
    ensures var m := MaskOf(world, env, State(contextRef, regimes), side);
            if contextRef !in env.contexts then m.Raised? else
              && IsMask(world, m)
              && var htf := env.contexts[contextRef];
                 var ours, theirs := if side == Long then htf.up else htf.down, if side == Long then htf.down else htf.up;
                 m.value.bits[i] <==>
                   || ("aligned" in regimes && i < |ours| && ours[i])
                   || ("countertrend" in regimes && i < |theirs| && theirs[i])
                   || ("neutral" in regimes && i < |htf.neutral| && htf.neutral[i])
  {
    MaskComposes(world, env, NoIdentity, State(contextRef, regimes), side);
    if contextRef in env.contexts {
      var bits := StateMask(world.size, env.contexts[contextRef], regimes, side);
      assert bits[i] == (
        || (ResolveRegime(Up, side) in regimes && Bit(env.contexts[contextRef].up, i))
        || (ResolveRegime(Down, side) in regimes && Bit(env.contexts[contextRef].down, i))
        || (ResolveRegime(Neutral, side) in regimes && Bit(env.contexts[contextRef].neutral, i)));
    }
  }

  /** How many bars in a row up to bar `i` have been true. */
  function Streak(bits: seq<bool>, i: nat): nat
    requires i < |bits|
  {
    if !bits[i] then 0 else if i == 0 then 1 else 1 + Streak(bits, i - 1)
  }

  lemma {:induction false} StreakMeans(bits: seq<bool>, i: nat, n: nat)
    requires i < |bits|
    ensures Streak(bits, i) >= n <==> n <= i + 1 && forall k | 0 <= k <= i && i - n < k :: bits[k]
  {
    if bits[i] && i > 0 && n > 0 {
      StreakMeans(bits, i - 1, n - 1);
    }
  }

  lemma WindowIs(mode: string, bars: nat, bits: seq<bool>, i: nat)
    requires i < |bits|
    ensures mode == "held_for" ==> (WindowHolds(mode, bars, bits, i) <==> Streak(bits, i) >= bars)
    ensures mode != "held_for" ==> (WindowHolds(mode, bars, bits, i) <==> exists k: nat :: k <= i < k + bars && bits[k])
  {
    StreakMeans(bits, i, bars);
  }

  /** `held_for` asks for a streak of so many true bars that lasts until the bar; `within` for one true bar no
      more than so many bars back, the bar itself included. */
  lemma TemporalMeans(world: World, env: Env, mode: string, bars: nat, of: Predicate, side: Side, i: nat)
    requires i < world.size && IsMask(world, MaskOf(world, env, of, side))
    ensures var inner, m := MaskOf(world, env, of, side), MaskOf(world, env, Temporal(mode, bars, of), side);
            && IsMask(world, m)
            && (mode == "held_for" ==> (m.value.bits[i] <==> Streak(inner.value.bits, i) >= bars))
            && (mode != "held_for" ==>
                  (m.value.bits[i] <==> exists k: nat :: k <= i < k + bars && inner.value.bits[k]))
  {
    hide MaskOf, WindowHolds;
    MaskComposes(world, env, NoIdentity, Temporal(mode, bars, of), side);
    var bits := MaskOf(world, env, of, side).value.bits;
    assert MaskOf(world, env, Temporal(mode, bars, of), side).value.bits[i] == WindowHolds(mode, bars, bits, i);
    WindowIs(mode, bars, bits, i);
  }

  lemma TemporalFails(world: World, env: Env, mode: string, bars: nat, of: Predicate, side: Side)
    ensures FailsLike(MaskOf(world, env, Temporal(mode, bars, of), side), MaskOf(world, env, of, side))
  {
    MaskComposes(world, env, NoIdentity, Temporal(mode, bars, of), side);
  }
}
