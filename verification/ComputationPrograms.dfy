/** Computations as programs over the shared context: every input is consumed through the context under
    its identity (`compute_through`), in order, up to the first failure. */
module ComputationPrograms {
  import opened NodeProgram
  import opened NodeIdentity
  import opened Operands
  import opened OperandEvaluation

  type Code = Program<NodeSpec, Datum>

  function Body(c: Computation): Code
    decreases c.inputs, 1
  {
    InputsThen(c.inputs, [], c.combine)
  }

  function InputsThen(cs: seq<Computation>, done: seq<Datum>, combine: seq<Datum> -> Outcome<Datum>): Code
    decreases cs, 0
  {
    if |cs| == 0 then Done(combine(done)) else
    Call(cs[0].identity, Body(cs[0]), r => Continue(r, cs[1..], done, combine))
  }

  function Continue(
    r: Outcome<Datum>, cs: seq<Computation>, done: seq<Datum>, combine: seq<Datum> -> Outcome<Datum>): Code
    decreases cs, 1
  {
    match r
    case Raised(failure) => Done(Raised(failure))
    case Value(v) => InputsThen(cs, done + [v], combine)
  }

  /** A bound on the consumptions one inside the other and one after the other. */
  function Steps(cs: seq<Computation>): nat {
    if |cs| == 0 then 0 else
    var inside, after := Steps(cs[0].inputs), Steps(cs[1..]);
    1 + if inside < after then after else inside
  }

  /** What is left to combine once the remaining inputs are known. */
  function Finish(inputs: Outcome<seq<Datum>>, done: seq<Datum>, combine: seq<Datum> -> Outcome<Datum>): Outcome<Datum> {
    match inputs
    case Raised(failure) => Raised(failure)
    case Value(vs) => combine(done + vs)
  }

  function Own(identity: Option<NodeSpec>): multiset<NodeSpec> {
    if identity.Some? then multiset{identity.value} else multiset{}
  }

  /** The identities the inputs consume on a run that misses every lookup: a failure ends it. */
  function Used(cs: seq<Computation>): multiset<NodeSpec> {
    if |cs| == 0 then multiset{} else
    Own(cs[0].identity) + Used(cs[0].inputs) + (if Eval(cs[0]).Value? then Used(cs[1..]) else multiset{})
  }

  /** Every identity denotes the outcome of its computation and is smaller than the one it serves. */
  ghost predicate Grounded(cs: seq<Computation>, denotes: NodeSpec -> Outcome<Datum>, top: Option<NodeSpec>) {
    |cs| > 0 ==>
      && (cs[0].identity.Some? ==>
            && denotes(cs[0].identity.value) == Eval(cs[0])
            && (top.Some? ==> cs[0].identity.value < top.value))
      && Grounded(cs[0].inputs, denotes, if cs[0].identity.Some? then cs[0].identity else top)
      && Grounded(cs[1..], denotes, top)
  }

  /** The nodes under computation are all above what is consumed next. */
  ghost predicate Above(top: Option<NodeSpec>, busy: set<NodeSpec>) {
    forall n | n in busy :: top.Some? && (top.value == n || top.value < n)
  }

  lemma {:induction false} CodeBounded(cs: seq<Computation>, done: seq<Datum>, combine: seq<Datum> -> Outcome<Datum>)
    ensures Bounded(InputsThen(cs, done, combine), Steps(cs))
    decreases cs
  {
    if |cs| > 0 {
      var first, n := cs[0], Steps(cs) - 1;
      CodeBounded(first.inputs, [], first.combine);
      BoundedMore(Body(first), Steps(first.inputs), n);
      forall r ensures Bounded(Continue(r, cs[1..], done, combine), n) {
        if r.Value? {
          CodeBounded(cs[1..], done + [r.value], combine);
          BoundedMore(InputsThen(cs[1..], done + [r.value], combine), Steps(cs[1..]), n);
        }
      }
    }
  }

  lemma FirstStep(cs: seq<Computation>, done: seq<Datum>, combine: seq<Datum> -> Outcome<Datum>, n: nat)
    requires |cs| > 0 && n == Steps(cs) - 1
    ensures var code := InputsThen(cs, done, combine);
            && Bounded(code, n + 1) && Bounded(Body(cs[0]), n)
            && var r := Direct(Body(cs[0]), n);
            && Bounded(Continue(r, cs[1..], done, combine), n)
            && Direct(code, n + 1) == Direct(Continue(r, cs[1..], done, combine), n)
            && Consumed(code, n + 1)
               == Own(cs[0].identity) + Consumed(Body(cs[0]), n) + Consumed(Continue(r, cs[1..], done, combine), n)
  {
    CodeBounded(cs, done, combine);
    var code := InputsThen(cs, done, combine);
    var r := Direct(Body(cs[0]), n);
    assert Bounded(code.next(r), n) && code.next(r) == Continue(r, cs[1..], done, combine);
  }

  /** Without any memo the program gives what the computation evaluates to, and consumes what it uses. */
  lemma {:induction false} CodeMeaning(cs: seq<Computation>, done: seq<Datum>, combine: seq<Datum> -> Outcome<Datum>)
    requires Bounded(InputsThen(cs, done, combine), Steps(cs))
    ensures Direct(InputsThen(cs, done, combine), Steps(cs)) == Finish(EvalAll(cs), done, combine)
    ensures Consumed(InputsThen(cs, done, combine), Steps(cs)) == Used(cs)
    decreases cs, 0
  {
    if |cs| == 0 {
      assert done + [] == done;
    } else {
      var n := Steps(cs) - 1;
      FirstStep(cs, done, combine, n);
      BodyMeaning(cs[0], n);
      RestMeaning(Eval(cs[0]), cs[1..], done, combine, n);
      FinishMore(Eval(cs[0]), EvalAll(cs[1..]), done, combine);
    }
  }

  lemma {:induction false} BodyMeaning(c: Computation, n: nat)
    requires Bounded(Body(c), n)
    ensures Direct(Body(c), n) == Eval(c) && Consumed(Body(c), n) == Used(c.inputs)
    decreases c.inputs, 1
  {
    CodeBounded(c.inputs, [], c.combine);
    CodeMeaning(c.inputs, [], c.combine);
    BoundIrrelevant(Body(c), n, Steps(c.inputs));
    FirstOutcome(c);
  }

  lemma {:induction false} RestMeaning(
    r: Outcome<Datum>, rest: seq<Computation>, done: seq<Datum>, combine: seq<Datum> -> Outcome<Datum>, n: nat)
    requires Bounded(Continue(r, rest, done, combine), n)
    ensures r.Raised? ==> Direct(Continue(r, rest, done, combine), n) == Raised(r.failure)
    ensures r.Value? ==> Direct(Continue(r, rest, done, combine), n) == Finish(EvalAll(rest), done + [r.value], combine)
    ensures Consumed(Continue(r, rest, done, combine), n) == if r.Value? then Used(rest) else multiset{}
    decreases rest, 1
  {
    if r.Value? {
      CodeBounded(rest, done + [r.value], combine);
      CodeMeaning(rest, done + [r.value], combine);
      BoundIrrelevant(InputsThen(rest, done + [r.value], combine), n, Steps(rest));
    }
  }

  lemma FirstOutcome(c: Computation)
    ensures Finish(EvalAll(c.inputs), [], c.combine) == Eval(c)
  {
    var inputs := EvalAll(c.inputs);
    assert inputs.Value? ==> [] + inputs.value == inputs.value;
  }

  lemma FinishMore(
    r: Outcome<Datum>, inputs: Outcome<seq<Datum>>, done: seq<Datum>, combine: seq<Datum> -> Outcome<Datum>)
    ensures r.Value? && inputs.Value? ==>
              Finish(inputs, done + [r.value], combine) == combine(done + ([r.value] + inputs.value))
  {
    if r.Value? && inputs.Value? {
      assert (done + [r.value]) + inputs.value == done + ([r.value] + inputs.value);
    }
  }

  /** Grounded computations are sound programs: equal identities denote equal outcomes, and no node
      consumes itself while it is being computed. */
  lemma {:induction false} CodeSound(
    cs: seq<Computation>, done: seq<Datum>, combine: seq<Datum> -> Outcome<Datum>,
    denotes: NodeSpec -> Outcome<Datum>, top: Option<NodeSpec>, busy: set<NodeSpec>)
    requires Bounded(InputsThen(cs, done, combine), Steps(cs)) && Grounded(cs, denotes, top) && Above(top, busy)
    ensures Sound(InputsThen(cs, done, combine), Steps(cs), denotes, busy)
    decreases cs, 0
  {
    if |cs| > 0 {
      var n := Steps(cs) - 1;
      FirstStep(cs, done, combine, n);
      BodyMeaning(cs[0], n);
      BodySound(cs[0], n, denotes, top, busy);
      RestSound(Eval(cs[0]), cs[1..], done, combine, n, denotes, top, busy);
      SoundStep(cs, done, combine, n, denotes, top, busy);
    }
  }

  lemma {:induction false} BodySound(
    c: Computation, n: nat, denotes: NodeSpec -> Outcome<Datum>, top: Option<NodeSpec>, busy: set<NodeSpec>)
    requires Bounded(Body(c), n) && Above(top, busy)
    requires c.identity.Some? && top.Some? ==> c.identity.value < top.value
    requires Grounded(c.inputs, denotes, if c.identity.Some? then c.identity else top)
    ensures Sound(Body(c), n, denotes, Computing(busy, c.identity))
    decreases c.inputs, 1
  {
    var inner := if c.identity.Some? then c.identity else top;
    CodeBounded(c.inputs, [], c.combine);
    assert Above(inner, Computing(busy, c.identity));
    CodeSound(c.inputs, [], c.combine, denotes, inner, Computing(busy, c.identity));
    SoundBoundIrrelevant(Body(c), n, Steps(c.inputs), denotes, Computing(busy, c.identity));
  }

  lemma {:induction false} RestSound(
    r: Outcome<Datum>, rest: seq<Computation>, done: seq<Datum>, combine: seq<Datum> -> Outcome<Datum>, n: nat,
    denotes: NodeSpec -> Outcome<Datum>, top: Option<NodeSpec>, busy: set<NodeSpec>)
    requires Bounded(Continue(r, rest, done, combine), n) && Grounded(rest, denotes, top) && Above(top, busy)
    ensures Sound(Continue(r, rest, done, combine), n, denotes, busy)
    decreases rest, 1
  {
    if r.Value? {
      CodeBounded(rest, done + [r.value], combine);
      CodeSound(rest, done + [r.value], combine, denotes, top, busy);
      SoundBoundIrrelevant(InputsThen(rest, done + [r.value], combine), n, Steps(rest), denotes, busy);
    }
  }

  lemma SoundStep(
    cs: seq<Computation>, done: seq<Datum>, combine: seq<Datum> -> Outcome<Datum>, n: nat,
    denotes: NodeSpec -> Outcome<Datum>, top: Option<NodeSpec>, busy: set<NodeSpec>)
    requires |cs| > 0 && n == Steps(cs) - 1 && Bounded(InputsThen(cs, done, combine), n + 1)
    requires Grounded(cs, denotes, top) && Above(top, busy)
    requires Bounded(Body(cs[0]), n) && Direct(Body(cs[0]), n) == Eval(cs[0])
    requires Sound(Body(cs[0]), n, denotes, Computing(busy, cs[0].identity))
    requires Bounded(Continue(Eval(cs[0]), cs[1..], done, combine), n)
    requires Sound(Continue(Eval(cs[0]), cs[1..], done, combine), n, denotes, busy)
    ensures Sound(InputsThen(cs, done, combine), n + 1, denotes, busy)
  {
    var code := InputsThen(cs, done, combine);
    assert code.next(Eval(cs[0])) == Continue(Eval(cs[0]), cs[1..], done, combine);
  }

  lemma {:induction false} SoundBoundIrrelevant(
    p: Code, m: nat, n: nat, denotes: NodeSpec -> Outcome<Datum>, busy: set<NodeSpec>)
    requires Bounded(p, m) && Bounded(p, n) && Sound(p, n, denotes, busy)
    ensures Sound(p, m, denotes, busy)
    decreases m
  {
    match p
    case Done(_) =>
    case Call(identity, compute, next) =>
      BoundIrrelevant(compute, m - 1, n - 1);
      SoundBoundIrrelevant(compute, m - 1, n - 1, denotes, Computing(busy, identity));
      SoundBoundIrrelevant(next(Direct(compute, m - 1)), m - 1, n - 1, denotes, busy);
  }
}
