/** Node computations as programs over an evaluation context.

    A node's `compute` is an arbitrary deterministic computation that may, on the way, consume
    other nodes through the context and react to what each of them gave back: a value or a
    failure. `Program` is that interaction, and `Direct` is what it yields when every consumption
    simply runs its own compute: the evaluator without any memo. */
module NodeProgram {
  datatype Option<+T> = None | Some(value: T)

  /** The part of an engine error that the batch serializes. */
  datatype Payload = Payload(code: string, message: string, details: map<string, string>, status: int)

  /** Everything a failure makes observable: category, text, constructor arguments and, for an
      engine error only, its payload. */
  datatype Failure = Failure(category: string, text: string, args: seq<string>, payload: Option<Payload>) {
    /** Engine errors stop at the batch's catch boundary; every other failure propagates. */
    predicate CaughtByEngineBoundary() {
      payload.Some?
    }
  }

  datatype Outcome<+V> = Value(value: V) | Raised(failure: Failure)

  /** `Call` consumes one node: `compute` is the closure passed at this consumption point, `next`
      the rest of the program once its outcome is known. A node whose identity could not be
      resolved carries no identity and is never memoized. */
  datatype Program<Id, !V> =
    | Done(result: Outcome<V>)
    | Call(identity: Option<Id>, compute: Program<Id, V>, next: Outcome<V> -> Program<Id, V>)

  /** `p` makes at most `n` nested or sequential consumptions, whatever the outcomes are. The
      bound is only a witness that the program ends. */
  ghost predicate Bounded<Id, V(!new)>(p: Program<Id, V>, n: nat)
    decreases n
  {
    match p
    case Done(_) => true
    case Call(_, compute, next) =>
      n > 0 && Bounded(compute, n - 1) && forall x :: Bounded(next(x), n - 1)
  }

  /** The outcome with no memo at all. */
  ghost function Direct<Id, V(!new)>(p: Program<Id, V>, n: nat): Outcome<V>
    requires Bounded(p, n)
    decreases n
  {
    match p
    case Done(result) => result
    case Call(_, compute, next) => Direct(next(Direct(compute, n - 1)), n - 1)
  }

  /** Every identity the direct run consumes, with multiplicity. */
  ghost function Consumed<Id, V(!new)>(p: Program<Id, V>, n: nat): multiset<Id>
    requires Bounded(p, n)
    decreases n
  {
    match p
    case Done(_) => multiset{}
    case Call(identity, compute, next) =>
      (if identity.Some? then multiset{identity.value} else multiset{})
      + Consumed(compute, n - 1)
      + Consumed(next(Direct(compute, n - 1)), n - 1)
  }

  /** Along the direct run, equal identities denote equal outcomes (`denotes`), and no node
      consumes itself while it is being computed (`busy`). */
  ghost predicate Sound<Id, V(!new)>(p: Program<Id, V>, n: nat, denotes: Id -> Outcome<V>, busy: set<Id>)
    requires Bounded(p, n)
    decreases n
  {
    match p
    case Done(_) => true
    case Call(identity, compute, next) =>
      && (identity.Some? ==>
            identity.value !in busy && denotes(identity.value) == Direct(compute, n - 1))
      && Sound(compute, n - 1, denotes, Computing(busy, identity))
      && Sound(next(Direct(compute, n - 1)), n - 1, denotes, busy)
  }

  ghost function Computing<Id>(busy: set<Id>, identity: Option<Id>): set<Id> {
    if identity.Some? then busy + {identity.value} else busy
  }

  /** The bound is a witness only: two valid bounds give the same outcome and consumptions. */
  lemma {:induction false} BoundIrrelevant<Id, V(!new)>(p: Program<Id, V>, m: nat, n: nat)
    requires Bounded(p, m) && Bounded(p, n)
    ensures Direct(p, m) == Direct(p, n) && Consumed(p, m) == Consumed(p, n)
    decreases m
  {
    match p
    case Done(_) =>
    case Call(_, compute, next) =>
      BoundIrrelevant(compute, m - 1, n - 1);
      BoundIrrelevant(next(Direct(compute, m - 1)), m - 1, n - 1);
  }

  lemma {:induction false} BoundedMore<Id, V(!new)>(p: Program<Id, V>, m: nat, n: nat)
    requires Bounded(p, m) && m <= n
    ensures Bounded(p, n)
    decreases m
  {
    match p
    case Done(_) =>
    case Call(_, compute, next) =>
      BoundedMore(compute, m - 1, n - 1);
      forall x ensures Bounded(next(x), n - 1) {
        BoundedMore(next(x), m - 1, n - 1);
      }
  }
}
