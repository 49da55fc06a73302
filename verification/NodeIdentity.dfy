/** Semantic node identity: canonical parameters and `NodeSpec`. */
module NodeIdentity {
  import opened NodeProgram

  /** A double by its bit pattern, every NaN being the same value. */
  datatype Float = NaN | Infinite(negative: bool) | Finite(negative: bool, magnitude: real)

  /** One normalized parameter. `SetOf` is a frozenset in some iteration order. */
  datatype Param =
    | NoneParam
    | BoolParam(b: bool)
    | IntParam(i: int)
    | FloatParam(f: Float)
    | StrParam(s: string)
    | TupleParam(items: seq<Param>)
    | SetOf(members: seq<Param>)

  datatype Canonical =
    | CNone
    | CBool(b: bool)
    | CInt(i: int)
    | CFloat(f: Float)
    | CStr(s: string)
    | CTuple(items: seq<Canonical>)
    | CSet(members: seq<Canonical>)

  /** The order of the printed forms by which set members are sorted. */
  type PrintOrder = (Canonical, Canonical) -> bool

  /** Distinct canonical values print differently, and printed forms are totally ordered. */
  ghost predicate TotalOrder(before: PrintOrder) {
    && (forall a, b :: before(a, b) || before(b, a))
    && (forall a, b :: before(a, b) && before(b, a) ==> a == b)
    && (forall a, b, c :: before(a, b) && before(b, c) ==> before(a, c))
  }

  function Insert(before: PrintOrder, x: Canonical, sorted: seq<Canonical>): (r: seq<Canonical>)
    ensures multiset(r) == multiset{x} + multiset(sorted)
  {
    if |sorted| == 0 then [x]
    else if before(x, sorted[0]) then
      assert [x] + sorted == [x] + sorted;
      [x] + sorted
    else
      assert sorted == [sorted[0]] + sorted[1..];
      [sorted[0]] + Insert(before, x, sorted[1..])
  }

  function Sort(before: PrintOrder, s: seq<Canonical>): (r: seq<Canonical>)
    ensures multiset(r) == multiset(s)
  {
    if |s| == 0 then [] else
      assert s == [s[0]] + s[1..];
      Insert(before, s[0], Sort(before, s[1..]))
  }

  /** The type-tagged, bit-exact form of a parameter; set members are sorted by their print. */
  function Canon(before: PrintOrder, p: Param): Canonical {
    match p
    case NoneParam => CNone
    case BoolParam(b) => CBool(b)
    case IntParam(i) => CInt(i)
    case FloatParam(f) => CFloat(f)
    case StrParam(s) => CStr(s)
    case TupleParam(items) => CTuple(CanonAll(before, items))
    case SetOf(members) => CSet(Sort(before, CanonAll(before, members)))
  }

  function CanonAll(before: PrintOrder, ps: seq<Param>): (r: seq<Canonical>)
    ensures |r| == |ps| && forall i | 0 <= i < |ps| :: r[i] == Canon(before, ps[i])
  {
    if |ps| == 0 then [] else [Canon(before, ps[0])] + CanonAll(before, ps[1..])
  }

  /** Typed equality of parameters: like kinds, equal contents, sets up to order. Unlike Python's
      `==` it separates `True`, `1` and `1.0`, and the two zeros. */
  ghost predicate Same(p: Param, q: Param)
    decreases p, 1
  {
    match p
    case TupleParam(items) =>
      q.TupleParam? && |items| == |q.items| && forall i | 0 <= i < |items| :: Same(items[i], q.items[i])
    case SetOf(members) => q.SetOf? && SameMembers(members, q.members)
    case _ => p == q
  }

  ghost predicate SameMembers(ps: seq<Param>, qs: seq<Param>)
    decreases ps, 3
  {
    && |ps| == |qs|
    && (forall i | 0 <= i < |ps| :: HasTwin(ps[i], qs))
    && (forall j | 0 <= j < |qs| :: IsTwin(ps, qs[j]))
  }

  ghost predicate IsTwin(ps: seq<Param>, q: Param)
    decreases ps, 0
  {
    exists i | 0 <= i < |ps| :: Same(ps[i], q)
  }

  ghost predicate HasTwin(p: Param, qs: seq<Param>)
    decreases p, 2
  {
    exists j | 0 <= j < |qs| :: Same(p, qs[j])
  }

  /** A set holds no member twice. */
  ghost predicate WellFormed(p: Param) {
    match p
    case TupleParam(items) => forall i | 0 <= i < |items| :: WellFormed(items[i])
    case SetOf(members) =>
      && (forall i | 0 <= i < |members| :: WellFormed(members[i]))
      && (forall i, j | 0 <= i < j < |members| :: !Same(members[i], members[j]))
    case _ => true
  }

  /** Parameters have the same canonical form exactly when they are the same typed value. */
  lemma {:induction false} CanonInjective(before: PrintOrder, p: Param, q: Param)
    requires TotalOrder(before) && WellFormed(p) && WellFormed(q)
    ensures Canon(before, p) == Canon(before, q) <==> Same(p, q)
    decreases p
  {
    match p
    case TupleParam(items) =>
      if q.TupleParam? && |q.items| == |items| {
        forall i | 0 <= i < |items|
          ensures Canon(before, items[i]) == Canon(before, q.items[i]) <==> Same(items[i], q.items[i])
        {
          CanonInjective(before, items[i], q.items[i]);
        }
        TupleCanonInjective(before, items, q.items);
      }
    case SetOf(members) =>
      if q.SetOf? {
        forall i, j | 0 <= i < |members| && 0 <= j < |q.members|
          ensures Canon(before, members[i]) == Canon(before, q.members[j]) <==> Same(members[i], q.members[j])
        {
          CanonInjective(before, members[i], q.members[j]);
        }
        forall i, j | 0 <= i < j < |members|
          ensures Canon(before, members[i]) != Canon(before, members[j])
        {
          CanonInjective(before, members[i], members[j]);
        }
        SetCanonInjective(before, members, q.members);
      }
    case _ =>
  }

  lemma TupleCanonInjective(before: PrintOrder, ps: seq<Param>, qs: seq<Param>)
    requires |ps| == |qs|
    requires forall i | 0 <= i < |ps| :: Canon(before, ps[i]) == Canon(before, qs[i]) <==> Same(ps[i], qs[i])
    ensures CanonAll(before, ps) == CanonAll(before, qs) <==> forall i | 0 <= i < |ps| :: Same(ps[i], qs[i])
  {
    var a, b := CanonAll(before, ps), CanonAll(before, qs);
    if a == b {
      forall i | 0 <= i < |ps| ensures Same(ps[i], qs[i]) {
        assert a[i] == b[i];
      }
    }
  }

  /** Each member of `ps` has a canonical twin among the members of `qs`. */
  ghost predicate Covered(before: PrintOrder, ps: seq<Param>, qs: seq<Param>) {
    forall i | 0 <= i < |ps| :: Canon(before, ps[i]) in CanonAll(before, qs)
  }

  lemma MatchedIsCovered(before: PrintOrder, ps: seq<Param>, qs: seq<Param>)
    requires forall i, j | 0 <= i < |ps| && 0 <= j < |qs| ::
               Canon(before, ps[i]) == Canon(before, qs[j]) <==> Same(ps[i], qs[j])
    ensures Covered(before, ps, qs) <==> forall i | 0 <= i < |ps| :: HasTwin(ps[i], qs)
    ensures Covered(before, qs, ps) <==>
            forall j | 0 <= j < |qs| :: IsTwin(ps, qs[j])
  {
    forall i | 0 <= i < |ps|
      ensures Canon(before, ps[i]) in CanonAll(before, qs) <==> HasTwin(ps[i], qs)
    {
      TwinIsMember(before, ps[i], qs);
    }
    forall j | 0 <= j < |qs|
      ensures Canon(before, qs[j]) in CanonAll(before, ps) <==> IsTwin(ps, qs[j])
    {
      IsTwinOfMember(before, ps, qs[j]);
    }
  }

  lemma IsTwinOfMember(before: PrintOrder, ps: seq<Param>, q: Param)
    requires forall i | 0 <= i < |ps| :: Canon(before, ps[i]) == Canon(before, q) <==> Same(ps[i], q)
    ensures Canon(before, q) in CanonAll(before, ps) <==> IsTwin(ps, q)
  {
    if Canon(before, q) in CanonAll(before, ps) {
      var i :| 0 <= i < |ps| && CanonAll(before, ps)[i] == Canon(before, q);
      assert Same(ps[i], q);
    }
  }

  lemma TwinIsMember(before: PrintOrder, p: Param, qs: seq<Param>)
    requires forall j | 0 <= j < |qs| :: Canon(before, p) == Canon(before, qs[j]) <==> Same(p, qs[j])
    ensures Canon(before, p) in CanonAll(before, qs) <==> HasTwin(p, qs)
  {
    if Canon(before, p) in CanonAll(before, qs) {
      var j :| 0 <= j < |qs| && CanonAll(before, qs)[j] == Canon(before, p);
      assert Same(p, qs[j]);
    }
  }

  /** The set case: sorted canonical members agree exactly when the members match both ways. */
  lemma SetCanonInjective(before: PrintOrder, ps: seq<Param>, qs: seq<Param>)
    requires TotalOrder(before)
    requires forall i, j | 0 <= i < |ps| && 0 <= j < |qs| ::
               Canon(before, ps[i]) == Canon(before, qs[j]) <==> Same(ps[i], qs[j])
    requires forall i, j | 0 <= i < j < |ps| :: Canon(before, ps[i]) != Canon(before, ps[j])
    ensures Sort(before, CanonAll(before, ps)) == Sort(before, CanonAll(before, qs))
            <==> SameMembers(ps, qs)
  {
    MatchedIsCovered(before, ps, qs);
    SortedMembersAgree(before, ps, qs);
  }

  lemma SortedMembersAgree(before: PrintOrder, ps: seq<Param>, qs: seq<Param>)
    requires TotalOrder(before)
    requires forall i, j | 0 <= i < j < |ps| :: Canon(before, ps[i]) != Canon(before, ps[j])
    ensures Sort(before, CanonAll(before, ps)) == Sort(before, CanonAll(before, qs))
            <==> |ps| == |qs| && Covered(before, ps, qs) && Covered(before, qs, ps)
  {
    hide Sort;
    var a, b := CanonAll(before, ps), CanonAll(before, qs);
    SortsAgree(before, a, b);
  }

  /** Distinct values sort alike with whatever list holds the same values and no more. */
  lemma SortsAgree(before: PrintOrder, a: seq<Canonical>, b: seq<Canonical>)
    requires TotalOrder(before)
    requires forall i, j | 0 <= i < j < |a| :: a[i] != a[j]
    ensures Sort(before, a) == Sort(before, b)
            <==> |a| == |b| && (forall x | x in a :: x in b) && (forall x | x in b :: x in a)
  {
    hide Sort;
    if Sort(before, a) == Sort(before, b) {
      SortKeepsMembers(before, a);
      SortKeepsMembers(before, b);
    }
    if |a| == |b| && forall x | x in a :: x in b {
      DistinctFits(a, b);
      SortPermutation(before, a, b);
    }
  }

  lemma SortKeepsMembers(before: PrintOrder, a: seq<Canonical>)
    ensures |Sort(before, a)| == |a| && forall x :: x in Sort(before, a) <==> x in a
  {
    var sorted := Sort(before, a);
    assert multiset(sorted) == multiset(a);
    assert |sorted| == |multiset(sorted)| == |a|;
    assert forall x :: x in sorted <==> x in multiset(sorted);
    assert forall x :: x in a <==> x in multiset(a);
  }

  lemma {:induction false} CountOnce(a: seq<Canonical>, x: Canonical)
    requires forall i, j | 0 <= i < j < |a| :: a[i] != a[j]
    ensures multiset(a)[x] <= 1
  {
    if |a| > 0 {
      assert a == [a[0]] + a[1..];
      CountOnce(a[1..], x);
      if x == a[0] {
        assert x !in a[1..];
      }
    }
  }

  /** Distinct values that all occur in a list of the same length make up that list. */
  lemma DistinctFits(a: seq<Canonical>, b: seq<Canonical>)
    requires |a| == |b|
    requires forall i, j | 0 <= i < j < |a| :: a[i] != a[j]
    requires forall x | x in a :: x in b
    ensures multiset(a) == multiset(b)
  {
    forall x ensures multiset(a)[x] <= multiset(b)[x] {
      CountOnce(a, x);
      if x in multiset(a) {
        assert x in a;
        assert x in multiset(b);
      }
    }
    assert multiset(a) <= multiset(b);
    assert |multiset(b) - multiset(a)| == |multiset(b)| - |multiset(a)| == 0;
    assert multiset(b) == multiset(a) + (multiset(b) - multiset(a));
  }

  ghost predicate Sorted(before: PrintOrder, s: seq<Canonical>) {
    forall i, j | 0 <= i < j < |s| :: before(s[i], s[j])
  }

  lemma {:induction false} InsertSorts(before: PrintOrder, x: Canonical, s: seq<Canonical>)
    requires TotalOrder(before) && Sorted(before, s)
    ensures Sorted(before, Insert(before, x, s))
  {
    if |s| > 0 && !before(x, s[0]) {
      InsertSorts(before, x, s[1..]);
      var rest := Insert(before, x, s[1..]);
      forall k | 0 <= k < |rest| ensures before(s[0], rest[k]) {
        assert rest[k] in multiset(rest);
        assert rest[k] == x || rest[k] in s[1..];
      }
    }
  }

  lemma {:induction false} SortSorts(before: PrintOrder, s: seq<Canonical>)
    requires TotalOrder(before)
    ensures Sorted(before, Sort(before, s))
  {
    if |s| > 0 {
      SortSorts(before, s[1..]);
      InsertSorts(before, s[0], Sort(before, s[1..]));
    }
  }

  /** Sorting forgets the iteration order: equal contents sort to the same list. */
  lemma SortPermutation(before: PrintOrder, a: seq<Canonical>, b: seq<Canonical>)
    requires TotalOrder(before) && multiset(a) == multiset(b)
    ensures Sort(before, a) == Sort(before, b)
  {
    SortSorts(before, a);
    SortSorts(before, b);
    SortedUnique(before, Sort(before, a), Sort(before, b));
  }

  lemma SameHead(before: PrintOrder, a: seq<Canonical>, b: seq<Canonical>)
    requires TotalOrder(before) && Sorted(before, a) && Sorted(before, b)
    requires multiset(a) == multiset(b) && |a| > 0
    ensures |b| > 0 && a[0] == b[0]
  {
    assert |b| == |multiset(b)| == |multiset(a)| == |a|;
    assert a[0] in multiset(b) && b[0] in multiset(a);
    var j :| 0 <= j < |b| && b[j] == a[0];
    var i :| 0 <= i < |a| && a[i] == b[0];
    assert before(b[0], a[0]) by { assert before(b[0], b[0]); }
    assert before(a[0], b[0]) by { assert before(a[0], a[0]); }
  }

  lemma {:induction false} SortedUnique(before: PrintOrder, a: seq<Canonical>, b: seq<Canonical>)
    requires TotalOrder(before) && Sorted(before, a) && Sorted(before, b)
    requires multiset(a) == multiset(b)
    ensures a == b
  {
    if |a| == 0 {
      assert |multiset(b)| == 0;
    } else {
      SameHead(before, a, b);
      assert a == [a[0]] + a[1..] && b == [b[0]] + b[1..];
      assert multiset(a[1..]) == multiset(a) - multiset{a[0]} == multiset(b[1..]);
      SortedUnique(before, a[1..], b[1..]);
    }
  }
}
