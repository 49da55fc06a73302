/** The batch-scoped evaluation context: a reference-counted, self-evicting memo of node outcomes.

    `Snapshot` is the context's whole state as a value and the functions over it say what each
    operation does to it; the class below carries the same state in mutable fields, and every
    method is proved to make exactly the step of its function. */
module EvaluationContext {
  import opened NodeProgram

  // -- failure records ---------------------------------------------------------

  datatype FailureRecord =
    FailureRecord(category: string, args: seq<string>, payload: Option<Payload>)

  /** `memoEnabled` is the memo toggle. `construct` is calling an exception class: `None` when the class
      refuses the arguments. */
  datatype Settings = Settings(memoEnabled: bool, construct: (string, seq<string>) -> Option<Failure>)

  function RecordOf(failure: Failure): FailureRecord {
    FailureRecord(failure.category, failure.args, failure.payload)
  }

  /** A new failure from its record. An engine error is not constructed again: its payload is set directly,
      and its text is the payload's message. Any other category is called with the recorded arguments. */
  function Replayed(settings: Settings, record: FailureRecord): Option<Failure> {
    if record.payload.Some?
    then Some(Failure(record.category, record.payload.value.message, record.args, record.payload))
    else settings.construct(record.category, record.args)
  }

  /** A failure is recorded if and only if replaying its record is observably the same failure. */
  function Capture(settings: Settings, failure: Failure): (record: Option<FailureRecord>)
    ensures record.Some? <==> Replayed(settings, RecordOf(failure)) == Some(failure)
    ensures record.Some? ==> Replayed(settings, record.value) == Some(failure)
  {
    var record := RecordOf(failure);
    if Replayed(settings, record) == Some(failure) then Some(record) else None
  }

  predicate Capturable(settings: Settings, failure: Failure) {
    Capture(settings, failure).Some?
  }

  /** Which failures can be remembered: engine errors that read as their message, whatever signature their
      class has, and other failures whose class gives them back from their arguments. */
  lemma CapturableExactly(settings: Settings, failure: Failure)
    ensures Capturable(settings, failure) <==>
              if failure.payload.Some? then failure.text == failure.payload.value.message
              else settings.construct(failure.category, failure.args) == Some(failure)
  {
  }

  /** What a replay raises when a class refuses the recorded arguments. */
  const ReplayRefused := Failure("TypeError", "", [], None)

  datatype Entry<+V> = StoredValue(value: V) | StoredFailure(record: FailureRecord)

  function EntryOutcome<V>(settings: Settings, entry: Entry<V>): Outcome<V> {
    match entry
    case StoredValue(value) => Value(value)
    case StoredFailure(record) =>
      match Replayed(settings, record)
      case Some(failure) => Raised(failure)
      case None => Raised(ReplayRefused)
  }

  // -- the state ---------------------------------------------------------------

  datatype Stats<!Id(==)> = Stats(
    computeCalls: multiset<Id>,
    hitCalls: multiset<Id>,
    hits: nat,
    failureReplays: nat,
    evictions: nat,
    unforeseen: nat,
    peakEntries: nat)

  datatype Snapshot<!Id(==), V> = Snapshot(
    memo: map<Id, Entry<V>>,
    refs: map<Id, int>,
    pending: Option<seq<multiset<Id>>>,
    active: Option<int>,
    stats: Stats<Id>)

  function NoStats<Id(==)>(): Stats<Id> {
    Stats(multiset{}, multiset{}, 0, 0, 0, 0, 0)
  }

  function Fresh<Id(==), V>(): Snapshot<Id, V> {
    Snapshot(map[], map[], None, None, NoStats())
  }

  function Ref<Id(==)>(refs: map<Id, int>, identity: Id): int {
    if identity in refs then refs[identity] else 0
  }

  /** The reference count of `identity` becomes `count`; a count of zero leaves no entry. */
  function SetRef<Id(==)>(refs: map<Id, int>, identity: Id, count: int): map<Id, int> {
    if count > 0 then refs[identity := count] else refs - {identity}
  }

  function Max(a: int, b: int): int {
    if a >= b then a else b
  }

  // -- planning and releasing roots --------------------------------------------

  /** All planned or pending consumptions of all roots together. */
  ghost function Total<Id>(roots: seq<multiset<Id>>): multiset<Id> {
    if |roots| == 0 then multiset{} else Total(roots[..|roots| - 1]) + roots[|roots| - 1]
  }

  ghost function AddCounts<Id>(refs: map<Id, int>, counts: multiset<Id>): map<Id, int> {
    map identity | identity in refs.Keys + (set i | i in counts) ::
      Ref(refs, identity) + counts[identity]
  }

  ghost predicate MayPlan<Id, V>(s: Snapshot<Id, V>) {
    s.pending.None? && s.active.None?
  }

  ghost function Plan<Id, V>(s: Snapshot<Id, V>, roots: seq<multiset<Id>>): Snapshot<Id, V>
    requires MayPlan(s)
  {
    s.(refs := AddCounts(s.refs, Total(roots)), pending := Some(roots))
  }

  /** The identities that a release of `counts` leaves without any expected consumer. */
  ghost predicate Drained<Id>(refs: map<Id, int>, counts: multiset<Id>, identity: Id) {
    identity in counts && Ref(refs, identity) - counts[identity] <= 0
  }

  /** Release `counts` at once: each count goes down by its share, and an identity nobody expects
      any more loses its memo entry. The order of the single releases is invisible here. */
  ghost function Release<Id, V>(s: Snapshot<Id, V>, counts: multiset<Id>): Snapshot<Id, V> {
    var refs := map identity | identity in s.refs && !Drained(s.refs, counts, identity) ::
      s.refs[identity] - counts[identity];
    var memo := map identity | identity in s.memo && !Drained(s.refs, counts, identity) ::
      s.memo[identity];
    var evicted := set identity | identity in s.memo && Drained(s.refs, counts, identity);
    s.(refs := refs, memo := memo,
       stats := s.stats.(evictions := s.stats.evictions + |evicted|))
  }

  ghost predicate InPlan<Id, V>(s: Snapshot<Id, V>, root: int) {
    s.pending.Some? && 0 <= root < |s.pending.value|
  }

  /** The end of a root: what it was expected to consume but did not is released. */
  ghost function EndRoot<Id, V>(s: Snapshot<Id, V>, root: int): Snapshot<Id, V> {
    var closed := s.(active := None);
    if InPlan(closed, root) then
      var released := Release(closed, closed.pending.value[root]);
      released.(pending := Some(closed.pending.value[root := multiset{}]))
    else
      closed
  }

  // -- consuming a node --------------------------------------------------------

  ghost predicate Foreseen<Id, V>(s: Snapshot<Id, V>, identity: Id) {
    && s.active.Some? && InPlan(s, s.active.value)
    && s.pending.value[s.active.value][identity] > 0
  }

  /** Account one consumption: the new state, and how many are still expected in the batch. */
  ghost function Consume<Id, V>(s: Snapshot<Id, V>, identity: Id): (Snapshot<Id, V>, int) {
    if Foreseen(s, identity) then
      var root := s.active.value;
      var counts := s.pending.value[root];
      var remaining := Ref(s.refs, identity) - 1;
      (s.(pending := Some(s.pending.value[root := counts[identity := counts[identity] - 1]]),
          refs := SetRef(s.refs, identity, remaining)),
       Max(remaining, 0))
    else
      (s.(stats := s.stats.(unforeseen := s.stats.unforeseen + 1)), Ref(s.refs, identity))
  }

  ghost function Hit<Id, V>(s: Snapshot<Id, V>, identity: Id, remaining: int): Snapshot<Id, V>
    requires identity in s.memo
  {
    var evict := remaining == 0;
    var failed := s.memo[identity].StoredFailure?;
    s.(memo := if evict then s.memo - {identity} else s.memo,
       stats := s.stats.(
         evictions := s.stats.evictions + (if evict then 1 else 0),
         hits := s.stats.hits + 1,
         hitCalls := s.stats.hitCalls + multiset{identity},
         failureReplays := s.stats.failureReplays + (if failed then 1 else 0)))
  }

  ghost function Store<Id, V>(settings: Settings, s: Snapshot<Id, V>, identity: Id, r: Outcome<V>):
    Snapshot<Id, V>
  {
    var entry :=
      match r
      case Value(value) => Some(StoredValue(value))
      case Raised(failure) =>
        match Capture(settings, failure)
        case Some(record) => Some(StoredFailure(record))
        case None => None;
    if entry.None? then s else
      var memo := s.memo[identity := entry.value];
      s.(memo := memo, stats := s.stats.(peakEntries := Max(s.stats.peakEntries, |memo|)))
  }

  ghost function Computed<Id, V>(s: Snapshot<Id, V>, identity: Id): Snapshot<Id, V> {
    s.(stats := s.stats.(computeCalls := s.stats.computeCalls + multiset{identity}))
  }

  /** What one evaluation step leaves behind: the outcome, the state and the calls it made. */
  datatype Step<!Id(==), V> = Step(result: Outcome<V>, state: Snapshot<Id, V>, calls: multiset<Id>)

  /** Run a program through the context. */
  ghost function Exec<Id, V(!new)>(settings: Settings, s: Snapshot<Id, V>, p: Program<Id, V>, n: nat):
    Step<Id, V>
    requires Bounded(p, n)
    decreases n, 1
  {
    match p
    case Done(result) => Step(result, s, multiset{})
    case Call(identity, compute, next) =>
      var node := ComputeThrough(settings, s, identity, compute, n - 1);
      var rest := Exec(settings, node.state, next(node.result), n - 1);
      Step(rest.result, rest.state, node.calls + rest.calls)
  }

  /** The node at this consumption point, through the memo when its identity is resolved. */
  ghost function ComputeThrough<Id, V(!new)>(
    settings: Settings, s: Snapshot<Id, V>, identity: Option<Id>, compute: Program<Id, V>, n: nat):
    Step<Id, V>
    requires Bounded(compute, n)
    decreases n, 3
  {
    if identity.None? then Exec(settings, s, compute, n)
    else Memoized(settings, s, identity.value, compute, n)
  }

  /** A hit answers from the memo; a miss computes, and keeps the outcome only when the memo is on
      and a later consumption was still expected when the node was reached. */
  ghost function Memoized<Id, V(!new)>(
    settings: Settings, s: Snapshot<Id, V>, identity: Id, compute: Program<Id, V>, n: nat):
    Step<Id, V>
    requires Bounded(compute, n)
    decreases n, 2
  {
    var (consumed, remaining) := Consume(s, identity);
    if identity in s.memo then
      Step(EntryOutcome(settings, s.memo[identity]), Hit(consumed, identity, remaining), multiset{identity})
    else
      var ran := Exec(settings, Computed(consumed, identity), compute, n);
      Step(ran.result,
           if settings.memoEnabled && remaining > 0
           then Store(settings, ran.state, identity, ran.result) else ran.state,
           multiset{identity} + ran.calls)
  }

  /** One root: activated, run, and closed whether it succeeds or fails. */
  ghost function RunRoot<Id, V(!new)>(settings: Settings, s: Snapshot<Id, V>, root: int, p: Program<Id, V>, n: nat):
    Step<Id, V>
    requires s.active.None? && Bounded(p, n)
  {
    var ran := Exec(settings, s.(active := Some(root)), p, n);
    Step(ran.result, EndRoot(ran.state, root), ran.calls)
  }

  // -- the mutable context -----------------------------------------------------

  class Context<Id(==), V(!new)> {
    const settings: Settings
    var memo: map<Id, Entry<V>>
    var refcounts: map<Id, int>
    var pending: Option<seq<multiset<Id>>>
    var activeRoot: Option<int>
    var stats: Stats<Id>

    ghost function State(): Snapshot<Id, V>
      reads this
    {
      Snapshot(memo, refcounts, pending, activeRoot, stats)
    }

    constructor (settings: Settings)
      ensures this.settings == settings && State() == Fresh()
      ensures stats == Stats(multiset{}, multiset{}, 0, 0, 0, 0, 0)
    {
      this.settings := settings;
      memo, refcounts, pending, activeRoot, stats := map[], map[], None, None, NoStats();
    }

    /** Record every root's expected consumptions, once, before the first root runs. */
    method PlanRoots(roots: seq<multiset<Id>>) returns (ok: bool)
      modifies this
      ensures ok == old(MayPlan(State()))
      ensures State() == if ok then Plan(old(State()), roots) else old(State())
    {
      ok := pending.None? && activeRoot.None?;
      if !ok { return; }
      ghost var before := refcounts;
      assert AddCounts(before, Total(roots[..0])) == before;
      for i := 0 to |roots|
        invariant refcounts == AddCounts(before, Total(roots[..i]))
        invariant memo == old(memo) && pending == old(pending) && activeRoot == old(activeRoot) && stats == old(stats)
      {
        AddRoot(roots[i]);
        AddCountsTwice(before, Total(roots[..i]), roots[i]);
        assert roots[..i + 1][..i] == roots[..i];
      }
      assert roots[..|roots|] == roots;
      pending := Some(roots);
    }

    method AddRoot(counts: multiset<Id>)
      modifies this`refcounts
      ensures refcounts == AddCounts(old(refcounts), counts)
    {
      var left := counts;
      ghost var before := refcounts;
      assert AddCounts(before, counts - left) == before;
      while left != multiset{}
        invariant left <= counts
        invariant forall identity :: left[identity] == 0 || left[identity] == counts[identity]
        invariant refcounts == AddCounts(before, counts - left)
        decreases |left|
      {
        var identity :| identity in left;
        AddOneCount(before, counts, left, identity);
        refcounts := refcounts[identity := Ref(refcounts, identity) + left[identity]];
        left := left[identity := 0];
      }
      assert counts - left == counts;
    }

    /** Release `count` expected consumptions of one identity. */
    method ReleaseOne(identity: Id, count: nat)
      requires count > 0
      modifies this
      ensures State() == Release(old(State()), multiset{}[identity := count])
    {
      ghost var one := multiset{}[identity := count];
      ghost var target := Release(State(), one);
      var remaining := Ref(refcounts, identity) - count;
      if remaining > 0 {
        refcounts := refcounts[identity := remaining];
        NothingDrained(old(State()), one);
      } else {
        refcounts := refcounts - {identity};
        OneDrained(old(State()), identity, count);
        if identity in memo {
          memo := memo - {identity};
          stats := stats.(evictions := stats.evictions + 1);
        }
      }
      assert refcounts == target.refs;
      assert memo == target.memo;
    }

    /** The end of a root's scope: release everything it was expected to consume but did not. */
    method CloseRoot(root: int)
      modifies this
      ensures State() == EndRoot(old(State()), root)
    {
      activeRoot := None;
      ghost var closed := State();
      if pending.None? || !(0 <= root < |pending.value|) { return; }
      var counts := pending.value[root];
      var left := counts;
      assert counts - left == multiset{};
      NothingDrained(closed, multiset{});
      while left != multiset{}
        invariant left <= counts
        invariant forall identity :: left[identity] == 0 || left[identity] == counts[identity]
        invariant State() == Release(closed, counts - left)
        decreases |left|
      {
        var identity :| identity in left;
        ReleaseOne(identity, left[identity]);
        ReleaseTwice(closed, counts - left, multiset{}[identity := left[identity]]);
        assert counts - left[identity := 0] == (counts - left) + multiset{}[identity := left[identity]];
        left := left[identity := 0];
      }
      assert counts - left == counts;
      pending := Some(pending.value[root := multiset{}]);
    }

    /** Account one consumption by the active root; how many more the batch still expects. */
    method ConsumeOne(identity: Id) returns (remaining: int)
      modifies this
      ensures (State(), remaining) == Consume(old(State()), identity)
    {
      if && activeRoot.Some? && pending.Some? && 0 <= activeRoot.value < |pending.value|
         && pending.value[activeRoot.value][identity] > 0
      {
        var root := activeRoot.value;
        var counts := pending.value[root];
        pending := Some(pending.value[root := counts[identity := counts[identity] - 1]]);
        remaining := Ref(refcounts, identity) - 1;
        refcounts := SetRef(refcounts, identity, remaining);
        return Max(remaining, 0);
      }
      stats := stats.(unforeseen := stats.unforeseen + 1);
      return Ref(refcounts, identity);
    }

    /** The outcome of the node `identity`: remembered, or computed now and perhaps remembered. */
    method MemoizedNode(identity: Id, compute: Program<Id, V>, ghost n: nat)
      returns (result: Outcome<V>, ghost calls: multiset<Id>)
      requires Bounded(compute, n)
      modifies this
      ensures Step(result, State(), calls) == Memoized(settings, old(State()), identity, compute, n)
      decreases n, 2
    {
      var entry := if identity in memo then Some(memo[identity]) else None;
      var remaining := ConsumeOne(identity);
      if entry.Some? {
        if remaining == 0 {
          memo := memo - {identity};
          stats := stats.(evictions := stats.evictions + 1);
        }
        stats := stats.(hits := stats.hits + 1, hitCalls := stats.hitCalls + multiset{identity});
        if entry.value.StoredFailure? {
          stats := stats.(failureReplays := stats.failureReplays + 1);
        }
        return EntryOutcome(settings, entry.value), multiset{identity};
      }
      var retain := settings.memoEnabled && remaining > 0;
      stats := stats.(computeCalls := stats.computeCalls + multiset{identity});
      ghost var inner;
      result, inner := Run(compute, n);
      calls := multiset{identity} + inner;
      if retain {
        StoreOutcome(identity, result);
      }
    }

    method StoreOutcome(identity: Id, result: Outcome<V>)
      modifies this
      ensures State() == Store(settings, old(State()), identity, result)
    {
      var entry;
      match result {
        case Value(value) =>
          entry := StoredValue(value);
        case Raised(failure) =>
          var record := Capture(settings, failure);
          if record.None? { return; }
          entry := StoredFailure(record.value);
      }
      memo := memo[identity := entry];
      if |memo| > stats.peakEntries {
        stats := stats.(peakEntries := |memo|);
      }
    }

    /** Run a computation that may consume nodes on its way. */
    method Run(p: Program<Id, V>, ghost n: nat) returns (result: Outcome<V>, ghost calls: multiset<Id>)
      requires Bounded(p, n)
      modifies this
      ensures Step(result, State(), calls) == Exec(settings, old(State()), p, n)
      decreases n, 1
    {
      match p
      case Done(outcome) =>
        return outcome, multiset{};
      case Call(identity, compute, next) =>
        var node;
        ghost var first, rest;
        if identity.None? {
          node, first := Run(compute, n - 1);
        } else {
          node, first := MemoizedNode(identity.value, compute, n - 1);
        }
        result, rest := Run(next(node), n - 1);
        calls := first + rest;
    }

    /** One root's evaluation inside its own scope; roots cannot nest. */
    method EvaluateRoot(root: int, p: Program<Id, V>, ghost n: nat)
      returns (result: Option<Outcome<V>>, ghost calls: multiset<Id>)
      requires Bounded(p, n)
      modifies this
      ensures old(activeRoot).Some? ==> result == None && State() == old(State())
      ensures old(activeRoot).None? ==>
        result.Some? && Step(result.value, State(), calls) == RunRoot(settings, old(State()), root, p, n)
    {
      if activeRoot.Some? {
        return None, multiset{};
      }
      activeRoot := Some(root);
      var outcome;
      outcome, calls := Run(p, n);
      CloseRoot(root);
      result := Some(outcome);
    }
  }

  lemma AddCountsTwice<Id>(refs: map<Id, int>, a: multiset<Id>, b: multiset<Id>)
    ensures AddCounts(AddCounts(refs, a), b) == AddCounts(refs, a + b)
  {
    var once, both := AddCounts(AddCounts(refs, a), b), AddCounts(refs, a + b);
    assert once.Keys == both.Keys;
    assert forall identity | identity in both :: once[identity] == both[identity];
  }

  lemma AddOneCount<Id>(refs: map<Id, int>, counts: multiset<Id>, left: multiset<Id>, identity: Id)
    requires left <= counts && identity in left && left[identity] == counts[identity]
    ensures var added := AddCounts(refs, counts - left);
            AddCounts(refs, counts - left[identity := 0])
            == added[identity := Ref(added, identity) + left[identity]]
  {
    var before, after := AddCounts(refs, counts - left), AddCounts(refs, counts - left[identity := 0]);
    var stepped := before[identity := Ref(before, identity) + left[identity]];
    var done, done' := counts - left, counts - left[identity := 0];
    assert forall i :: done'[i] == if i == identity then counts[i] else done[i];
    assert after.Keys == stepped.Keys;
    assert forall i | i in after :: after[i] == stepped[i];
  }

  lemma NothingDrained<Id, V>(s: Snapshot<Id, V>, counts: multiset<Id>)
    requires forall i | i in counts :: Ref(s.refs, i) - counts[i] > 0
    ensures Release(s, counts).memo == s.memo && Release(s, counts).stats == s.stats
    ensures counts == multiset{} ==> Release(s, counts) == s
  {
    assert (set i | i in s.memo && Drained(s.refs, counts, i)) == {};
    assert Release(s, counts).memo == s.memo;
    if counts == multiset{} {
      assert Release(s, counts).refs == s.refs;
    }
  }

  lemma OneDrained<Id, V>(s: Snapshot<Id, V>, identity: Id, count: nat)
    requires count > 0 && Ref(s.refs, identity) - count <= 0
    ensures var evicted := set i | i in s.memo && Drained(s.refs, multiset{}[identity := count], i);
            |evicted| == if identity in s.memo then 1 else 0
  {
    var evicted := set i | i in s.memo && Drained(s.refs, multiset{}[identity := count], i);
    assert evicted == if identity in s.memo then {identity} else {};
  }

  /** Releasing two disjoint shares one after the other is releasing them together. */
  lemma ReleaseTwice<Id, V>(s: Snapshot<Id, V>, a: multiset<Id>, b: multiset<Id>)
    requires forall i :: a[i] == 0 || b[i] == 0
    ensures Release(Release(s, a), b) == Release(s, a + b)
  {
    var once := Release(s, a);
    forall i
      ensures Drained(s.refs, a + b, i) <==> Drained(s.refs, a, i) || Drained(once.refs, b, i)
    {
      DrainedOnce(s, a, b, i);
    }
    DrainedTwice(s, a, b, once);
    EvictedTwice(s, a, b, once);
  }

  lemma DrainedOnce<Id, V>(s: Snapshot<Id, V>, a: multiset<Id>, b: multiset<Id>, i: Id)
    requires a[i] == 0 || b[i] == 0
    ensures Drained(s.refs, a + b, i) <==> Drained(s.refs, a, i) || Drained(Release(s, a).refs, b, i)
  {
    assert (a + b)[i] == a[i] + b[i];
  }

  lemma EvictedTwice<Id, V>(s: Snapshot<Id, V>, a: multiset<Id>, b: multiset<Id>, once: Snapshot<Id, V>)
    requires once.memo == (map i | i in s.memo && !Drained(s.refs, a, i) :: s.memo[i])
    requires forall i :: Drained(s.refs, a + b, i) <==> Drained(s.refs, a, i) || Drained(once.refs, b, i)
    ensures |set i | i in s.memo && Drained(s.refs, a + b, i)|
         == |set i | i in s.memo && Drained(s.refs, a, i)| + |set i | i in once.memo && Drained(once.refs, b, i)|
  {
    var ea := set i | i in s.memo && Drained(s.refs, a, i);
    var eb := set i | i in once.memo && Drained(once.refs, b, i);
    assert (set i | i in s.memo && Drained(s.refs, a + b, i)) == ea + eb && ea !! eb;
  }

  lemma DrainedTwice<Id, V>(s: Snapshot<Id, V>, a: multiset<Id>, b: multiset<Id>, once: Snapshot<Id, V>)
    requires forall i :: a[i] == 0 || b[i] == 0
    requires once == Release(s, a)
    requires forall i :: Drained(s.refs, a + b, i) <==> Drained(s.refs, a, i) || Drained(once.refs, b, i)
    ensures Release(once, b).refs == Release(s, a + b).refs
    ensures Release(once, b).memo == Release(s, a + b).memo
  {
    var twice, both := Release(once, b), Release(s, a + b);
    assert twice.refs.Keys == both.refs.Keys;
    assert forall i | i in both.refs :: twice.refs[i] == both.refs[i];
    assert twice.memo.Keys == both.memo.Keys;
    assert forall i | i in both.memo :: twice.memo[i] == both.memo[i];
  }
}
