/** What the evaluation context promises, for every program of nested consumptions, every state it
    starts from and every plan, right or wrong. */
module MemoTheorems {
  import opened NodeProgram
  import opened EvaluationContext

  // -- transparency ------------------------------------------------------------

  /** Every remembered outcome is what its identity denotes. */
  ghost predicate MemoSound<Id, V(!new)>(settings: Settings, s: Snapshot<Id, V>, denotes: Id -> Outcome<V>) {
    forall i | i in s.memo :: EntryOutcome(settings, s.memo[i]) == denotes(i)
  }

  /** Memo transparency: from any state whose memo is sound, whatever was planned and whatever the
      reference counts say, a program yields the value or raises the failure of its direct run. */
  lemma {:induction false} Transparent<Id, V(!new)>(
    settings: Settings, s: Snapshot<Id, V>, p: Program<Id, V>, n: nat,
    denotes: Id -> Outcome<V>, busy: set<Id>)
    requires Bounded(p, n) && Sound(p, n, denotes, busy) && MemoSound(settings, s, denotes)
    ensures Exec(settings, s, p, n).result == Direct(p, n)
    ensures MemoSound(settings, Exec(settings, s, p, n).state, denotes)
    decreases n, 1
  {
    match p
    case Done(_) =>
    case Call(identity, compute, next) =>
      var node := ComputeThrough(settings, s, identity, compute, n - 1);
      if identity.None? {
        Transparent(settings, s, compute, n - 1, denotes, busy);
      } else {
        TransparentNode(settings, s, identity.value, compute, n - 1, denotes, Computing(busy, identity));
      }
      Transparent(settings, node.state, next(node.result), n - 1, denotes, busy);
  }

  lemma {:induction false} TransparentNode<Id, V(!new)>(
    settings: Settings, s: Snapshot<Id, V>, identity: Id, compute: Program<Id, V>, n: nat,
    denotes: Id -> Outcome<V>, busy: set<Id>)
    requires Bounded(compute, n) && Sound(compute, n, denotes, busy) && MemoSound(settings, s, denotes)
    requires denotes(identity) == Direct(compute, n)
    ensures Memoized(settings, s, identity, compute, n).result == Direct(compute, n)
    ensures MemoSound(settings, Memoized(settings, s, identity, compute, n).state, denotes)
    decreases n, 2
  {
    var (consumed, remaining) := Consume(s, identity);
    if identity !in s.memo {
      Transparent(settings, Computed(consumed, identity), compute, n, denotes, busy);
    }
  }

  // -- accounting --------------------------------------------------------------

  /** Hits plus computes equal the calls made, identity by identity. */
  ghost predicate Accounted<Id>(before: Stats<Id>, after: Stats<Id>, calls: multiset<Id>) {
    && after.hitCalls + after.computeCalls == before.hitCalls + before.computeCalls + calls
    && after.hits - before.hits == |after.hitCalls| - |before.hitCalls|
  }

  lemma {:induction false} CallsAccounted<Id, V(!new)>(settings: Settings, s: Snapshot<Id, V>, p: Program<Id, V>, n: nat)
    requires Bounded(p, n)
    ensures var done := Exec(settings, s, p, n); Accounted(s.stats, done.state.stats, done.calls)
    decreases n, 1
  {
    match p
    case Done(_) =>
    case Call(identity, compute, next) =>
      var node := ComputeThrough(settings, s, identity, compute, n - 1);
      if identity.None? {
        CallsAccounted(settings, s, compute, n - 1);
      } else {
        NodeAccounted(settings, s, identity.value, compute, n - 1);
      }
      CallsAccounted(settings, node.state, next(node.result), n - 1);
  }

  lemma {:induction false} NodeAccounted<Id, V(!new)>(
    settings: Settings, s: Snapshot<Id, V>, identity: Id, compute: Program<Id, V>, n: nat)
    requires Bounded(compute, n)
    ensures var done := Memoized(settings, s, identity, compute, n); Accounted(s.stats, done.state.stats, done.calls)
    decreases n, 2
  {
    var (consumed, remaining) := Consume(s, identity);
    if identity !in s.memo {
      CallsAccounted(settings, Computed(consumed, identity), compute, n);
    }
  }

  // -- the memo turned off -------------------------------------------------------

  /** From `s` to `done` nothing was remembered and nothing answered from memory: every call computed. */
  ghost predicate AllComputed<Id, V>(s: Snapshot<Id, V>, done: Step<Id, V>) {
    && done.state.memo == map[] && done.state.stats.hits == s.stats.hits
    && done.state.stats.hitCalls == s.stats.hitCalls
    && done.state.stats.computeCalls == s.stats.computeCalls + done.calls
  }

  /** With the memo off every call of an identity computes. */
  lemma {:induction false} NothingRemembered<Id, V(!new)>(settings: Settings, s: Snapshot<Id, V>, p: Program<Id, V>, n: nat)
    requires Bounded(p, n) && !settings.memoEnabled && s.memo == map[]
    ensures AllComputed(s, Exec(settings, s, p, n))
    decreases n, 1
  {
    match p
    case Done(_) =>
    case Call(identity, compute, next) =>
      var node := ComputeThrough(settings, s, identity, compute, n - 1);
      if identity.None? {
        NothingRemembered(settings, s, compute, n - 1);
      } else {
        NodeComputed(settings, s, identity.value, compute, n - 1);
      }
      NothingRemembered(settings, node.state, next(node.result), n - 1);
  }

  lemma {:induction false} NodeComputed<Id, V(!new)>(
    settings: Settings, s: Snapshot<Id, V>, identity: Id, compute: Program<Id, V>, n: nat)
    requires Bounded(compute, n) && !settings.memoEnabled && s.memo == map[]
    ensures AllComputed(s, Memoized(settings, s, identity, compute, n))
    decreases n, 2
  {
    var (consumed, remaining) := Consume(s, identity);
    NothingRemembered(settings, Computed(consumed, identity), compute, n);
  }

  // -- reference counts --------------------------------------------------------

  ghost function Expected<Id, V>(s: Snapshot<Id, V>): multiset<Id> {
    if s.pending.None? then multiset{} else Total(s.pending.value)
  }

  /** Conservation: each count is the sum of the pending counts of all roots, and only identities
      that are still expected are remembered. */
  ghost predicate Conserved<Id(!new), V>(s: Snapshot<Id, V>) {
    && (forall i :: Ref(s.refs, i) == Expected(s)[i])
    && (forall i | i in s.refs :: s.refs[i] > 0)
    && s.memo.Keys <= s.refs.Keys
  }

  lemma {:induction false} TotalUpdate<Id(!new)>(roots: seq<multiset<Id>>, k: nat, counts: multiset<Id>)
    requires k < |roots|
    ensures forall i :: Total(roots[k := counts])[i] + roots[k][i] == Total(roots)[i] + counts[i]
    ensures roots[k] <= Total(roots)
    decreases |roots|
  {
    var last := |roots| - 1;
    if k == last {
      assert roots[k := counts][..last] == roots[..last];
    } else {
      assert roots[k := counts][..last] == roots[..last][k := counts];
      TotalUpdate(roots[..last], k, counts);
    }
  }

  lemma PlanConserves<Id(!new), V>(s: Snapshot<Id, V>, roots: seq<multiset<Id>>)
    requires Conserved(s) && MayPlan(s)
    ensures Conserved(Plan(s, roots))
  {
  }

  lemma ConsumeConserves<Id(!new), V>(s: Snapshot<Id, V>, identity: Id)
    requires Conserved(s)
    ensures var (consumed, remaining) := Consume(s, identity);
            && remaining == Ref(consumed.refs, identity)
            && consumed.memo == s.memo
            && (forall i :: Ref(consumed.refs, i) == Expected(consumed)[i])
            && (forall i | i in consumed.refs :: consumed.refs[i] > 0)
            && (forall i | i != identity :: Ref(consumed.refs, i) == Ref(s.refs, i))
  {
    if Foreseen(s, identity) {
      var root := s.active.value;
      var counts := s.pending.value[root];
      TotalUpdate(s.pending.value, root, counts[identity := counts[identity] - 1]);
    }
  }

  lemma EndConserves<Id(!new), V>(s: Snapshot<Id, V>, root: int)
    requires Conserved(s)
    ensures Conserved(EndRoot(s, root))
  {
    if InPlan(s, root) {
      TotalUpdate(s.pending.value, root, multiset{});
      var ended := EndRoot(s, root);
      forall i ensures Ref(ended.refs, i) == Expected(ended)[i] {
        assert s.pending.value[root][i] <= Expected(s)[i] == Ref(s.refs, i);
      }
    }
  }

  /** Only the identities that are called lose reference counts or memo entries. */
  ghost predicate Untouched<Id(!new), V>(before: Snapshot<Id, V>, after: Snapshot<Id, V>, calls: multiset<Id>) {
    forall i | i !in calls ::
      && Ref(after.refs, i) == Ref(before.refs, i)
      && (i in after.memo <==> i in before.memo)
  }

  /** Running any sound program keeps the counts conserved; nodes under computation stay as they
      are until they are done. */
  lemma {:induction false} ExecConserves<Id(!new), V(!new)>(
    settings: Settings, s: Snapshot<Id, V>, p: Program<Id, V>, n: nat,
    denotes: Id -> Outcome<V>, busy: set<Id>)
    requires Bounded(p, n) && Sound(p, n, denotes, busy) && MemoSound(settings, s, denotes)
    requires Conserved(s)
    ensures var done := Exec(settings, s, p, n);
            && Conserved(done.state) && Untouched(s, done.state, done.calls)
            && (forall i | i in busy :: i !in done.calls)
            && done.state.active == s.active
    decreases n, 1
  {
    match p
    case Done(_) =>
    case Call(identity, compute, next) =>
      var node := ComputeThrough(settings, s, identity, compute, n - 1);
      if identity.None? {
        Transparent(settings, s, compute, n - 1, denotes, busy);
        ExecConserves(settings, s, compute, n - 1, denotes, busy);
      } else {
        TransparentNode(settings, s, identity.value, compute, n - 1, denotes, Computing(busy, identity));
        NodeConserves(settings, s, identity.value, compute, n - 1, denotes, busy);
      }
      ExecConserves(settings, node.state, next(node.result), n - 1, denotes, busy);
  }

  lemma {:induction false} NodeConserves<Id(!new), V(!new)>(
    settings: Settings, s: Snapshot<Id, V>, identity: Id, compute: Program<Id, V>, n: nat,
    denotes: Id -> Outcome<V>, busy: set<Id>)
    requires Bounded(compute, n) && Sound(compute, n, denotes, busy + {identity}) && identity !in busy
    requires MemoSound(settings, s, denotes) && Conserved(s)
    ensures var done := Memoized(settings, s, identity, compute, n);
            && Conserved(done.state) && Untouched(s, done.state, done.calls)
            && (forall i | i in busy :: i !in done.calls)
            && done.state.active == s.active
    decreases n, 2
  {
    ConsumeConserves(s, identity);
    var (consumed, remaining) := Consume(s, identity);
    if identity !in s.memo {
      ExecConserves(settings, Computed(consumed, identity), compute, n, denotes, busy + {identity});
    }
  }

  /** A root's run leaves every other root's pending counts alone. */
  ghost predicate OthersKept<Id, V>(before: Snapshot<Id, V>, after: Snapshot<Id, V>) {
    && after.active == before.active
    && (before.pending.Some? <==> after.pending.Some?)
    && (before.pending.Some? ==>
          && |after.pending.value| == |before.pending.value|
          && forall i | 0 <= i < |before.pending.value| && before.active != Some(i) ::
               after.pending.value[i] == before.pending.value[i])
  }

  lemma {:induction false} ExecKeepsOthers<Id, V(!new)>(settings: Settings, s: Snapshot<Id, V>, p: Program<Id, V>, n: nat)
    requires Bounded(p, n)
    ensures OthersKept(s, Exec(settings, s, p, n).state)
    decreases n, 1
  {
    match p
    case Done(_) =>
    case Call(identity, compute, next) =>
      var node := ComputeThrough(settings, s, identity, compute, n - 1);
      if identity.None? {
        ExecKeepsOthers(settings, s, compute, n - 1);
      } else {
        NodeKeepsOthers(settings, s, identity.value, compute, n - 1);
      }
      ExecKeepsOthers(settings, node.state, next(node.result), n - 1);
  }

  lemma {:induction false} NodeKeepsOthers<Id, V(!new)>(
    settings: Settings, s: Snapshot<Id, V>, identity: Id, compute: Program<Id, V>, n: nat)
    requires Bounded(compute, n)
    ensures OthersKept(s, Memoized(settings, s, identity, compute, n).state)
    decreases n, 2
  {
    var (consumed, remaining) := Consume(s, identity);
    assert OthersKept(s, consumed);
    if identity !in s.memo {
      ExecKeepsOthers(settings, Computed(consumed, identity), compute, n);
    }
  }

  /** No leak: once every planned consumption is made or released, nothing is retained. */
  lemma NothingRetained<Id(!new), V>(s: Snapshot<Id, V>)
    requires Conserved(s) && Expected(s) == multiset{}
    ensures s.refs == map[] && s.memo == map[]
  {
    forall i ensures i !in s.refs {
      assert Ref(s.refs, i) == 0;
    }
  }

  // -- prediction --------------------------------------------------------------

  /** The active root still expects at least `needed`. */
  ghost predicate Predicted<Id, V>(s: Snapshot<Id, V>, needed: multiset<Id>) {
    && s.active.Some? && InPlan(s, s.active.value)
    && needed <= s.pending.value[s.active.value]
  }

  lemma ConsumedSplit<Id, V(!new)>(p: Program<Id, V>, n: nat, rest: multiset<Id>)
    requires Bounded(p, n) && p.Call?
    ensures var later := Consumed(p.next(Direct(p.compute, n - 1)), n - 1) + rest;
            Consumed(p, n) + rest ==
            if p.identity.Some? then multiset{p.identity.value} + Consumed(p.compute, n - 1) + later
            else Consumed(p.compute, n - 1) + later
  {
  }

  /** A root whose plan covers the direct run's consumptions makes no unforeseen one, and leaves
      what the plan holds beyond them. */
  lemma {:induction false} PredictionCovers<Id(!new), V(!new)>(
    settings: Settings, s: Snapshot<Id, V>, p: Program<Id, V>, n: nat,
    denotes: Id -> Outcome<V>, busy: set<Id>, rest: multiset<Id>)
    requires Bounded(p, n) && Sound(p, n, denotes, busy) && MemoSound(settings, s, denotes)
    requires Predicted(s, Consumed(p, n) + rest)
    ensures var done := Exec(settings, s, p, n).state;
            && Predicted(done, rest) && done.active == s.active
            && done.stats.unforeseen == s.stats.unforeseen
    decreases n, 1
  {
    match p
    case Done(_) =>
    case Call(identity, compute, next) =>
      var node := ComputeThrough(settings, s, identity, compute, n - 1);
      var later := Consumed(next(Direct(compute, n - 1)), n - 1) + rest;
      if identity.None? {
        ConsumedSplit(p, n, rest);
        Transparent(settings, s, compute, n - 1, denotes, busy);
        PredictionCovers(settings, s, compute, n - 1, denotes, busy, later);
      } else {
        ConsumedSplit(p, n, rest);
        TransparentNode(settings, s, identity.value, compute, n - 1, denotes, Computing(busy, identity));
        NodePredicted(settings, s, identity.value, compute, n - 1, denotes, Computing(busy, identity), later);
      }
      PredictionCovers(settings, node.state, next(node.result), n - 1, denotes, busy, rest);
  }

  lemma {:induction false} NodePredicted<Id(!new), V(!new)>(
    settings: Settings, s: Snapshot<Id, V>, identity: Id, compute: Program<Id, V>, n: nat,
    denotes: Id -> Outcome<V>, busy: set<Id>, rest: multiset<Id>)
    requires Bounded(compute, n) && Sound(compute, n, denotes, busy) && MemoSound(settings, s, denotes)
    requires Predicted(s, multiset{identity} + Consumed(compute, n) + rest)
    ensures var done := Memoized(settings, s, identity, compute, n).state;
            && Predicted(done, rest) && done.active == s.active
            && done.stats.unforeseen == s.stats.unforeseen
    decreases n, 2
  {
    var (consumed, remaining) := Consume(s, identity);
    ForeseenLeaves(s, identity, Consumed(compute, n) + rest);
    if identity !in s.memo {
      PredictionCovers(settings, Computed(consumed, identity), compute, n, denotes, busy, rest);
    }
  }

  lemma ForeseenLeaves<Id, V>(s: Snapshot<Id, V>, identity: Id, rest: multiset<Id>)
    requires Predicted(s, multiset{identity} + rest)
    ensures Foreseen(s, identity)
    ensures var consumed := Consume(s, identity).0;
            && Predicted(consumed, rest) && consumed.active == s.active
            && consumed.stats == s.stats
  {
    var counts := s.pending.value[s.active.value];
    assert (multiset{identity} + rest)[identity] >= 1;
    forall i ensures rest[i] <= counts[identity := counts[identity] - 1][i] {
      assert (multiset{identity} + rest)[i] <= counts[i];
    }
  }

  // -- compute at most once ----------------------------------------------------

  /** Every node the direct run consumes can be remembered, failures included. */
  ghost predicate Rememberable<Id, V(!new)>(settings: Settings, denotes: Id -> Outcome<V>, used: multiset<Id>) {
    forall i | i in used :: denotes(i).Raised? ==> Capturable(settings, denotes(i).failure)
  }

  /** No identity was computed twice, and one that was computed and is still expected is remembered
      unless it is being computed right now. */
  ghost predicate OnceEach<Id(!new), V>(s: Snapshot<Id, V>, busy: set<Id>) {
    forall i ::
      && s.stats.computeCalls[i] <= 1
      && (s.stats.computeCalls[i] == 1 && i !in busy && Ref(s.refs, i) > 0 ==> i in s.memo)
  }

  /** A state in which every promise of this module holds for the consumptions still `needed`. */
  ghost predicate Healthy<Id(!new), V(!new)>(
    settings: Settings, s: Snapshot<Id, V>, denotes: Id -> Outcome<V>, needed: multiset<Id>)
  {
    MemoSound(settings, s, denotes) && Conserved(s) && Predicted(s, needed)
  }

  /** After one node of a healthy run the rest of the run is healthy, with the direct outcome. */
  lemma NodeHealthy<Id(!new), V(!new)>(
    settings: Settings, s: Snapshot<Id, V>, p: Program<Id, V>, n: nat,
    denotes: Id -> Outcome<V>, busy: set<Id>, rest: multiset<Id>)
    requires Bounded(p, n) && p.Call? && Sound(p, n, denotes, busy)
    requires Healthy(settings, s, denotes, Consumed(p, n) + rest)
    ensures var node := ComputeThrough(settings, s, p.identity, p.compute, n - 1);
            && node.result == Direct(p.compute, n - 1)
            && Healthy(settings, node.state, denotes, Consumed(p.next(node.result), n - 1) + rest)
  {
    var later := Consumed(p.next(Direct(p.compute, n - 1)), n - 1) + rest;
    ConsumedSplit(p, n, rest);
    if p.identity.None? {
      Transparent(settings, s, p.compute, n - 1, denotes, busy);
      ExecConserves(settings, s, p.compute, n - 1, denotes, busy);
      PredictionCovers(settings, s, p.compute, n - 1, denotes, busy, later);
    } else {
      var identity := p.identity.value;
      TransparentNode(settings, s, identity, p.compute, n - 1, denotes, Computing(busy, p.identity));
      NodeConserves(settings, s, identity, p.compute, n - 1, denotes, busy);
      NodePredicted(settings, s, identity, p.compute, n - 1, denotes, Computing(busy, p.identity), later);
    }
  }

  /** Compute at most once: with the memo on, a covering plan and failures that can be recorded, no
      identity is computed twice, however often and however deep it is consumed. */
  lemma {:induction false} ComputedOnce<Id(!new), V(!new)>(
    settings: Settings, s: Snapshot<Id, V>, p: Program<Id, V>, n: nat,
    denotes: Id -> Outcome<V>, busy: set<Id>, rest: multiset<Id>)
    requires Bounded(p, n) && Sound(p, n, denotes, busy)
    requires settings.memoEnabled && Rememberable(settings, denotes, Consumed(p, n))
    requires Healthy(settings, s, denotes, Consumed(p, n) + rest) && OnceEach(s, busy)
    ensures OnceEach(Exec(settings, s, p, n).state, busy)
    decreases n, 1
  {
    match p
    case Done(_) =>
    case Call(identity, compute, next) =>
      hide Memoized, Consume, Healthy, OnceEach, Rememberable;
      var node := ComputeThrough(settings, s, identity, compute, n - 1);
      NextOnce(settings, s, p, n, denotes, busy, rest);
      NodeHealthy(settings, s, p, n, denotes, busy, rest);
      LaterRememberable(settings, denotes, p, n);
      ComputedOnce(settings, node.state, next(node.result), n - 1, denotes, busy, rest);
  }

  lemma LaterRememberable<Id(!new), V(!new)>(settings: Settings, denotes: Id -> Outcome<V>, p: Program<Id, V>, n: nat)
    requires Bounded(p, n) && p.Call? && Rememberable(settings, denotes, Consumed(p, n))
    ensures Rememberable(settings, denotes, Consumed(p.compute, n - 1))
    ensures Rememberable(settings, denotes, Consumed(p.next(Direct(p.compute, n - 1)), n - 1))
    ensures p.identity.Some? && denotes(p.identity.value).Raised? ==>
              Capturable(settings, denotes(p.identity.value).failure)
  {
    assert p.identity.Some? ==> p.identity.value in Consumed(p, n);
  }

  /** The next node of the run. */
  lemma {:induction false} NextOnce<Id(!new), V(!new)>(
    settings: Settings, s: Snapshot<Id, V>, p: Program<Id, V>, n: nat,
    denotes: Id -> Outcome<V>, busy: set<Id>, rest: multiset<Id>)
    requires Bounded(p, n) && p.Call? && Sound(p, n, denotes, busy)
    requires settings.memoEnabled && Rememberable(settings, denotes, Consumed(p, n))
    requires Healthy(settings, s, denotes, Consumed(p, n) + rest) && OnceEach(s, busy)
    ensures OnceEach(ComputeThrough(settings, s, p.identity, p.compute, n - 1).state, busy)
    decreases n, 0
  {
    hide Memoized, Consume, Healthy, OnceEach, Rememberable;
    var later := Consumed(p.next(Direct(p.compute, n - 1)), n - 1) + rest;
    ConsumedSplit(p, n, rest);
    LaterRememberable(settings, denotes, p, n);
    if p.identity.None? {
      ComputedOnce(settings, s, p.compute, n - 1, denotes, busy, later);
    } else {
      NodeOnce(settings, s, p.identity.value, p.compute, n - 1, denotes, busy, later);
    }
  }

  lemma {:induction false} NodeOnce<Id(!new), V(!new)>(
    settings: Settings, s: Snapshot<Id, V>, identity: Id, compute: Program<Id, V>, n: nat,
    denotes: Id -> Outcome<V>, busy: set<Id>, rest: multiset<Id>)
    requires Bounded(compute, n) && Sound(compute, n, denotes, busy + {identity}) && identity !in busy
    requires denotes(identity) == Direct(compute, n)
    requires denotes(identity).Raised? ==> Capturable(settings, denotes(identity).failure)
    requires settings.memoEnabled && Rememberable(settings, denotes, Consumed(compute, n))
    requires Healthy(settings, s, denotes, multiset{identity} + Consumed(compute, n) + rest)
    requires OnceEach(s, busy)
    ensures OnceEach(Memoized(settings, s, identity, compute, n).state, busy)
    decreases n, 2
  {
    hide Healthy, MemoSound, Conserved, Predicted, OnceEach, Rememberable;
    var (consumed, remaining) := Consume(s, identity);
    assert multiset{identity} + Consumed(compute, n) + rest == multiset{identity} + (Consumed(compute, n) + rest);
    ConsumeHealthy(settings, s, identity, denotes, Consumed(compute, n) + rest);
    if identity in s.memo {
      HitOnce(s, consumed, identity, remaining, busy);
    } else {
      var started := Computed(consumed, identity);
      MissHealthy(settings, s, consumed, identity, denotes, Consumed(compute, n) + rest, busy);
      ExecConserves(settings, started, compute, n, denotes, busy + {identity});
      Transparent(settings, started, compute, n, denotes, busy + {identity});
      ComputedOnce(settings, started, compute, n, denotes, busy + {identity}, rest);
      StoredOnce(settings, Exec(settings, started, compute, n).state, identity, denotes(identity), remaining, busy);
    }
  }

  lemma HitOnce<Id(!new), V>(s: Snapshot<Id, V>, consumed: Snapshot<Id, V>, identity: Id, remaining: int, busy: set<Id>)
    requires OnceEach(s, busy) && identity in s.memo
    requires consumed.memo == s.memo && consumed.stats == s.stats && remaining == Ref(consumed.refs, identity)
    requires forall i | i != identity :: Ref(consumed.refs, i) == Ref(s.refs, i)
    ensures OnceEach(Hit(consumed, identity, remaining), busy)
  {
  }

  lemma MissHealthy<Id(!new), V(!new)>(
    settings: Settings, s: Snapshot<Id, V>, consumed: Snapshot<Id, V>, identity: Id, denotes: Id -> Outcome<V>,
    needed: multiset<Id>, busy: set<Id>)
    requires MemoSound(settings, consumed, denotes) && Predicted(consumed, needed) && Conserved(consumed)
    requires consumed.memo == s.memo && consumed.stats == s.stats
    requires forall i | i != identity :: Ref(consumed.refs, i) == Ref(s.refs, i)
    requires OnceEach(s, busy) && Ref(s.refs, identity) > 0 && identity !in busy && identity !in s.memo
    ensures var started := Computed(consumed, identity);
            && MemoSound(settings, started, denotes) && Conserved(started)
            && Healthy(settings, started, denotes, needed) && OnceEach(started, busy + {identity})
  {
    MissIsFirst(s, identity, busy);
    assert Expected(Computed(consumed, identity)) == Expected(consumed);
  }

  lemma ConsumeHealthy<Id(!new), V(!new)>(
    settings: Settings, s: Snapshot<Id, V>, identity: Id, denotes: Id -> Outcome<V>, rest: multiset<Id>)
    requires Healthy(settings, s, denotes, multiset{identity} + rest)
    ensures var (consumed, remaining) := Consume(s, identity);
            && MemoSound(settings, consumed, denotes) && Predicted(consumed, rest)
            && consumed.memo == s.memo && consumed.stats == s.stats
            && remaining == Ref(consumed.refs, identity)
            && (identity !in s.memo ==> Conserved(consumed))
            && (forall i | i != identity :: Ref(consumed.refs, i) == Ref(s.refs, i))
    ensures Ref(s.refs, identity) > 0
  {
    ForeseenLeaves(s, identity, rest);
    ConsumeConserves(s, identity);
    TotalUpdate(s.pending.value, s.active.value, multiset{});
    assert s.pending.value[s.active.value][identity] <= Expected(s)[identity];
  }

  lemma MissIsFirst<Id(!new), V>(s: Snapshot<Id, V>, identity: Id, busy: set<Id>)
    requires OnceEach(s, busy) && Ref(s.refs, identity) > 0
    requires identity !in busy && identity !in s.memo
    ensures s.stats.computeCalls[identity] == 0
  {
  }

  lemma StoredOnce<Id(!new), V>(
    settings: Settings, s: Snapshot<Id, V>, identity: Id, r: Outcome<V>, remaining: int, busy: set<Id>)
    requires OnceEach(s, busy + {identity}) && Ref(s.refs, identity) == remaining
    requires r.Raised? ==> Capturable(settings, r.failure)
    ensures OnceEach(if remaining > 0 then Store(settings, s, identity, r) else s, busy)
  {
  }
}
