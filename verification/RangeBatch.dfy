/** A range batch: every variant is one root of a shared context, a single-spec request is the only
    root of its own. */
module RangeBatch {
  import opened NodeProgram
  import opened EvaluationContext
  import opened MemoTheorems

  /** A variant's evaluation and the consumptions predicted for it, right or wrong. `bound` is the
      witness that the evaluation ends. */
  datatype Variant<Id, !V> =
    Variant(variantId: string, program: Program<Id, V>, bound: nat, prediction: multiset<Id>)

  datatype VariantOutcome<+V> =
    | Completed(variantId: string, result: V)
    | EngineError(variantId: string, code: string, message: string, details: map<string, string>)

  /** What the stream delivers, and the failure that ended it early, if any. */
  datatype Stream<+V> = Stream(outcomes: seq<VariantOutcome<V>>, propagated: Option<Failure>)

  /** One more variant of the stream: an engine error is reported for its variant and the stream
      goes on, any other failure ends it. */
  function Deliver<V>(stream: Stream<V>, variantId: string, outcome: Outcome<V>): Stream<V> {
    if stream.propagated.Some? then stream else
    match outcome
    case Value(result) => stream.(outcomes := stream.outcomes + [Completed(variantId, result)])
    case Raised(failure) =>
      if failure.CaughtByEngineBoundary() then
        var payload := failure.payload.value;
        stream.(outcomes := stream.outcomes
                            + [EngineError(variantId, payload.code, payload.message, payload.details)])
      else
        stream.(propagated := Some(failure))
  }

  /** What a variant with direct outcome `d` is reported as: its result, or the code, message and details of the
      engine error it raised. A failure of any other kind is never reported. */
  ghost predicate Reports<V>(variantId: string, d: Outcome<V>, o: VariantOutcome<V>) {
    match o
    case Completed(id, result) => id == variantId && d == Value(result)
    case EngineError(id, code, message, details) =>
      && id == variantId && d.Raised? && d.failure.payload.Some?
      && d.failure.payload.value.code == code && d.failure.payload.value.message == message
      && d.failure.payload.value.details == details
  }

  /** The stream of variants with these ids and direct outcomes: each is reported in its turn up to the first
      failure that is no engine error, which ends the stream. */
  ghost predicate Streams<V>(ids: seq<string>, ds: seq<Outcome<V>>, stream: Stream<V>) {
    var reported := |stream.outcomes|;
    && |ids| == |ds| && reported <= |ds|
    && (forall k | 0 <= k < reported :: Reports(ids[k], ds[k], stream.outcomes[k]))
    && (if reported == |ds| then stream.propagated.None?
        else ds[reported].Raised? && ds[reported].failure.payload.None?
             && stream.propagated == Some(ds[reported].failure))
  }

  lemma StreamGrows<V>(ids: seq<string>, ds: seq<Outcome<V>>, stream: Stream<V>, id: string, d: Outcome<V>)
    requires Streams(ids, ds, stream)
    ensures Streams(ids + [id], ds + [d], Deliver(stream, id, d))
  {
    var more, reported := ds + [d], |stream.outcomes|;
    assert forall k | 0 <= k < |ds| :: more[k] == ds[k] && (ids + [id])[k] == ids[k];
    var next := Deliver(stream, id, d);
    assert reported < |next.outcomes| ==> Reports(id, d, next.outcomes[reported]);
  }

  lemma NothingStreams<V>(ids: seq<string>, ds: seq<Outcome<V>>)
    requires |ids| == |ds| == 0
    ensures var nothing: Stream<V> := Stream([], None); Streams(ids, ds, nothing)
  {
  }

  /** The variant on its own: one root, planned and run in a context of one. */
  ghost function Alone<Id, V(!new)>(settings: Settings, variant: Variant<Id, V>): Outcome<V>
    requires Bounded(variant.program, variant.bound)
  {
    var planned := Plan(Fresh<Id, V>(), [variant.prediction]);
    RunRoot(settings, planned, 0, variant.program, variant.bound).result
  }

  /** The stream the variants give when each is evaluated alone. */
  ghost function Singles<Id, V(!new)>(settings: Settings, variants: seq<Variant<Id, V>>): Stream<V>
    requires forall v | v in variants :: Bounded(v.program, v.bound)
  {
    if |variants| == 0 then Stream([], None) else
    var last := variants[|variants| - 1];
    Deliver(Singles(settings, variants[..|variants| - 1]), last.variantId, Alone(settings, last))
  }

  function Ids<Id, V>(variants: seq<Variant<Id, V>>): seq<string> {
    seq(|variants|, k requires 0 <= k < |variants| => variants[k].variantId)
  }

  /** What each variant's own evaluation gives without any memo. */
  ghost function Directs<Id, V(!new)>(variants: seq<Variant<Id, V>>): seq<Outcome<V>>
    requires forall v | v in variants :: Bounded(v.program, v.bound)
  {
    seq(|variants|, k requires 0 <= k < |variants| =>
      assert variants[k] in variants; Direct(variants[k].program, variants[k].bound))
  }

  ghost predicate AllSound<Id, V(!new)>(variants: seq<Variant<Id, V>>, denotes: Id -> Outcome<V>) {
    forall v | v in variants :: Bounded(v.program, v.bound) && Sound(v.program, v.bound, denotes, {})
  }

  /** Every prediction covers what its variant consumes, and every failure met can be recorded. */
  ghost predicate AllCovered<Id, V(!new)>(
    settings: Settings, variants: seq<Variant<Id, V>>, denotes: Id -> Outcome<V>)
    requires AllSound(variants, denotes)
  {
    forall v | v in variants ::
      && Consumed(v.program, v.bound) <= v.prediction
      && Rememberable(settings, denotes, Consumed(v.program, v.bound))
  }

  function Predictions<Id, V>(variants: seq<Variant<Id, V>>): (roots: seq<multiset<Id>>)
    ensures |roots| == |variants| && forall i | 0 <= i < |roots| :: roots[i] == variants[i].prediction
  {
    seq(|variants|, i requires 0 <= i < |variants| => variants[i].prediction)
  }

  /** The roots below `done` have ended, the others still expect their whole prediction. */
  ghost predicate Between<Id, V>(s: Snapshot<Id, V>, variants: seq<Variant<Id, V>>, done: nat) {
    && s.active.None? && s.pending.Some? && |s.pending.value| == |variants|
    && forall i | 0 <= i < |variants| ::
         s.pending.value[i] == if i < done then multiset{} else variants[i].prediction
  }

  /** The batch equals its singles: over one shared context, each streamed outcome is the one its
      variant gives alone, whatever the other variants consume, predict or fail with, and reports that
      variant's direct outcome up to the first failure that is no engine error. The counts stay
      conserved, every call is a hit or a compute, a stream that runs to its end retains nothing, and
      with covering predictions no identity is computed twice over the whole batch. */
  method StreamVariants<Id(==,!new), V(!new)>(
    context: Context<Id, V>, variants: seq<Variant<Id, V>>, ghost denotes: Id -> Outcome<V>)
    returns (stream: Stream<V>, ghost calls: multiset<Id>)
    requires context.State() == Fresh()
    requires AllSound(variants, denotes)
    modifies context
    ensures stream == Singles(context.settings, variants)
    ensures Streams(Ids(variants), Directs(variants), stream)
    ensures Conserved(context.State())
    ensures Accounted(NoStats(), context.stats, calls)
    ensures stream.propagated.None? ==> context.refcounts == map[] && context.memo == map[]
    ensures context.settings.memoEnabled && AllCovered(context.settings, variants, denotes) ==>
              context.stats.unforeseen == 0 && forall i :: context.stats.computeCalls[i] <= 1
  {
    ghost var settings := context.settings;
    StreamStarts(settings, variants, denotes);
    SinglesStream(settings, variants, denotes);
    var planned := context.PlanRoots(Predictions(variants));
    stream, calls := Stream([], None), multiset{};
    var index := 0;
    while index < |variants|
      invariant 0 <= index <= |variants| && stream.propagated.None?
      invariant Delivered(settings, context.State(), variants, index, denotes, stream, calls)
      invariant Between(context.State(), variants, index)
    {
      var variant := variants[index];
      StreamContinues(settings, context.State(), variants, index, denotes, stream, calls);
      var result;
      ghost var made;
      result, made := context.EvaluateRoot(index, variant.program, variant.bound);
      calls := calls + made;
      stream := Deliver(stream, variant.variantId, result.value);
      index := index + 1;
      if stream.propagated.Some? {
        PropagatedStays(settings, variants, index);
        return;
      }
    }
    assert variants[..index] == variants;
    AllEnded(context.State(), variants);
  }

  /** After `index` roots: what was delivered, and every promise on the state and on `calls`. */
  ghost predicate Delivered<Id(!new), V(!new)>(
    settings: Settings, s: Snapshot<Id, V>, variants: seq<Variant<Id, V>>, index: nat,
    denotes: Id -> Outcome<V>, stream: Stream<V>, calls: multiset<Id>)
    requires AllSound(variants, denotes) && index <= |variants|
  {
    && Conserved(s) && MemoSound(settings, s, denotes)
    && stream == Singles(settings, variants[..index])
    && Accounted(NoStats(), s.stats, calls)
    && (settings.memoEnabled && AllCovered(settings, variants, denotes) ==>
          s.stats.unforeseen == 0 && OnceEach(s, {}))
  }

  lemma StreamStarts<Id(!new), V(!new)>(
    settings: Settings, variants: seq<Variant<Id, V>>, denotes: Id -> Outcome<V>)
    requires AllSound(variants, denotes)
    ensures var planned := Plan(Fresh<Id, V>(), Predictions(variants));
            && Between(planned, variants, 0)
            && Delivered(settings, planned, variants, 0, denotes, Stream([], None), multiset{})
  {
    FreshConserves<Id, V>();
    PlanConserves(Fresh<Id, V>(), Predictions(variants));
  }

  lemma StreamContinues<Id(!new), V(!new)>(
    settings: Settings, s: Snapshot<Id, V>, variants: seq<Variant<Id, V>>, index: nat,
    denotes: Id -> Outcome<V>, stream: Stream<V>, calls: multiset<Id>)
    requires index < |variants| && AllSound(variants, denotes) && Between(s, variants, index)
    requires Delivered(settings, s, variants, index, denotes, stream, calls)
    ensures var variant := variants[index];
            var ran := RunRoot(settings, s, index, variant.program, variant.bound);
            && Between(ran.state, variants, index + 1)
            && Delivered(settings, ran.state, variants, index + 1, denotes,
                         Deliver(stream, variant.variantId, ran.result), calls + ran.calls)
  {
    assert variants[..index + 1][..index] == variants[..index];
    AloneIsDirect(settings, variants[index], denotes);
    RootKeepsPromises(settings, s, variants, index, denotes);
    if settings.memoEnabled && AllCovered(settings, variants, denotes) {
      RootComputesOnce(settings, s, variants, index, denotes);
    }
  }

  lemma FreshConserves<Id(!new), V>()
    ensures Conserved(Fresh<Id, V>()) && MayPlan(Fresh<Id, V>())
  {
  }

  /** The stream of the singles reports the direct outcomes. */
  lemma {:induction false} SinglesStream<Id(!new), V(!new)>(
    settings: Settings, variants: seq<Variant<Id, V>>, denotes: Id -> Outcome<V>)
    requires AllSound(variants, denotes)
    ensures Streams(Ids(variants), Directs(variants), Singles(settings, variants))
  {
    hide Alone, Streams, Sound, Direct, Deliver;
    if |variants| == 0 {
      NothingStreams<V>(Ids(variants), Directs(variants));
    } else {
      var most, last := variants[..|variants| - 1], variants[|variants| - 1];
      SinglesStream(settings, most, denotes);
      AloneIsDirect(settings, last, denotes);
      StreamGrows(Ids(most), Directs(most), Singles(settings, most), last.variantId, Alone(settings, last));
      assert Ids(variants) == Ids(most) + [last.variantId];
      assert Directs(variants) == Directs(most) + [Direct(last.program, last.bound)];
    }
  }

  /** Alone, a sound variant yields its direct outcome. */
  lemma AloneIsDirect<Id, V(!new)>(settings: Settings, variant: Variant<Id, V>, denotes: Id -> Outcome<V>)
    requires Bounded(variant.program, variant.bound)
    requires Sound(variant.program, variant.bound, denotes, {})
    ensures Alone(settings, variant) == Direct(variant.program, variant.bound)
  {
    var active := Plan(Fresh<Id, V>(), [variant.prediction]).(active := Some(0));
    Transparent(settings, active, variant.program, variant.bound, denotes, {});
  }

  lemma RootKeepsPromises<Id(!new), V(!new)>(
    settings: Settings, s: Snapshot<Id, V>, variants: seq<Variant<Id, V>>, index: nat,
    denotes: Id -> Outcome<V>)
    requires index < |variants| && AllSound(variants, denotes) && Between(s, variants, index)
    requires Conserved(s) && MemoSound(settings, s, denotes)
    ensures var variant := variants[index];
            var ran := RunRoot(settings, s, index, variant.program, variant.bound);
            && ran.result == Direct(variant.program, variant.bound)
            && Between(ran.state, variants, index + 1)
            && Conserved(ran.state) && MemoSound(settings, ran.state, denotes)
            && Accounted(s.stats, ran.state.stats, ran.calls)
  {
    var variant := variants[index];
    var active := s.(active := Some(index));
    assert Expected(active) == Expected(s);
    Transparent(settings, active, variant.program, variant.bound, denotes, {});
    ExecConserves(settings, active, variant.program, variant.bound, denotes, {});
    ExecKeepsOthers(settings, active, variant.program, variant.bound);
    CallsAccounted(settings, active, variant.program, variant.bound);
    var ran := Exec(settings, active, variant.program, variant.bound).state;
    EndConserves(ran, index);
    assert EndRoot(ran, index).memo.Keys <= ran.memo.Keys;
  }

  lemma RootComputesOnce<Id(!new), V(!new)>(
    settings: Settings, s: Snapshot<Id, V>, variants: seq<Variant<Id, V>>, index: nat,
    denotes: Id -> Outcome<V>)
    requires index < |variants| && AllSound(variants, denotes) && Between(s, variants, index)
    requires Conserved(s) && MemoSound(settings, s, denotes)
    requires settings.memoEnabled && AllCovered(settings, variants, denotes) && OnceEach(s, {})
    ensures var variant := variants[index];
            var ended := RunRoot(settings, s, index, variant.program, variant.bound).state;
            OnceEach(ended, {}) && ended.stats.unforeseen == s.stats.unforeseen
  {
    hide EndRoot, Exec, MemoSound, Conserved, OnceEach, Predicted, Consumed;
    var variant := variants[index];
    var active := s.(active := Some(index));
    var needed := Consumed(variant.program, variant.bound);
    assert needed + multiset{} == needed;
    ActivePromises(settings, s, variants, index, denotes);
    PredictionCovers(settings, active, variant.program, variant.bound, denotes, {}, multiset{});
    ComputedOnce(settings, active, variant.program, variant.bound, denotes, {}, multiset{});
    EndKeepsOnce(Exec(settings, active, variant.program, variant.bound).state, index);
  }

  /** Activating a root breaks no promise, and its prediction covers what it is about to consume. */
  lemma ActivePromises<Id(!new), V(!new)>(
    settings: Settings, s: Snapshot<Id, V>, variants: seq<Variant<Id, V>>, index: nat,
    denotes: Id -> Outcome<V>)
    requires index < |variants| && AllSound(variants, denotes) && Between(s, variants, index)
    requires Conserved(s) && MemoSound(settings, s, denotes) && OnceEach(s, {})
    requires AllCovered(settings, variants, denotes)
    ensures var active := s.(active := Some(index));
            && Conserved(active) && MemoSound(settings, active, denotes) && OnceEach(active, {})
            && Predicted(active, Consumed(variants[index].program, variants[index].bound))
  {
    hide Consumed;
    assert variants[index] in variants;
    assert Expected(s.(active := Some(index))) == Expected(s);
  }

  lemma EndKeepsOnce<Id(!new), V>(s: Snapshot<Id, V>, root: int)
    requires OnceEach(s, {})
    ensures OnceEach(EndRoot(s, root), {}) && EndRoot(s, root).stats.unforeseen == s.stats.unforeseen
  {
  }

  lemma {:induction false} PropagatedStays<Id, V(!new)>(settings: Settings, variants: seq<Variant<Id, V>>, index: nat)
    requires index <= |variants| && forall v | v in variants :: Bounded(v.program, v.bound)
    requires Singles(settings, variants[..index]).propagated.Some?
    ensures Singles(settings, variants) == Singles(settings, variants[..index])
  {
    if index == |variants| {
      assert variants[..index] == variants;
    } else {
      var most := variants[..|variants| - 1];
      assert most[..index] == variants[..index];
      PropagatedStays(settings, most, index);
    }
  }

  lemma AllEnded<Id(!new), V>(s: Snapshot<Id, V>, variants: seq<Variant<Id, V>>)
    requires Between(s, variants, |variants|) && Conserved(s)
    ensures s.refs == map[] && s.memo == map[]
  {
    TotalOfNothing(s.pending.value);
    NothingRetained(s);
  }

  lemma {:induction false} TotalOfNothing<Id>(roots: seq<multiset<Id>>)
    requires forall i | 0 <= i < |roots| :: roots[i] == multiset{}
    ensures Total(roots) == multiset{}
  {
    if |roots| > 0 {
      TotalOfNothing(roots[..|roots| - 1]);
    }
  }
}
