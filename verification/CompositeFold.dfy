/** The fold of a composite phase condition: every child that depends on the market and the side alone
    is evaluated once over the whole frame, and folded path by path into one mask. */
module CompositeFold {
  import opened NodeProgram
  import opened EpisodeTables
  import opened ManagedPolicy

  type Masks = map<string, seq<bool>>

  datatype FoldedPath = FoldedPath(
    id: string, market: Option<seq<bool>>, tradeRequire: seq<string>, atLeast: Option<AtLeast>)

  datatype Folded = Folded(children: seq<Child>, paths: seq<FoldedPath>, masks: Masks)

  predicate IsMarket(content: Content) {
    content.PredicateChild? || (content.AtomChild? && content.atom.AdxDi?)
  }

  /** The value of a market child: no quantity of the trade beyond its side enters. */
  predicate MarketTrue(frame: Frame, side: Side, index: int, content: Content)
    requires IsMarket(content)
  {
    match content
    case PredicateChild(_, _) =>
      var mask := MaskFor(content, side);
      0 <= index < |mask| && mask[index]
    case AtomChild(atom) =>
      AdxMet(side, ValueAt(frame, atom.adx, index), ValueAt(frame, atom.plus, index), ValueAt(frame, atom.minus, index),
             atom.strength, atom.requireAlignment)
  }

  /** The masks hold every market child and nothing else. */
  ghost predicate MasksRight(frame: Frame, side: Side, children: seq<Child>, masks: Masks) {
    forall id ::
      && (id in masks <==> Find(children, id).Some? && IsMarket(Find(children, id).value))
      && (id in masks ==>
            && |masks[id]| == |frame.bars|
            && forall i | 0 <= i < |frame.bars| :: masks[id][i] == MarketTrue(frame, side, i, Find(children, id).value))
  }

  function Untraded(masks: Masks, refs: seq<string>): seq<string> {
    if |refs| == 0 then [] else
    var most := Untraded(masks, refs[..|refs| - 1]);
    if refs[|refs| - 1] in masks then most else most + [refs[|refs| - 1]]
  }

  predicate AllMarket(masks: Masks, refs: seq<string>) {
    forall ref | ref in refs :: ref in masks
  }

  predicate SomeMarket(masks: Masks, refs: seq<string>) {
    exists ref | ref in refs :: ref in masks
  }

  function CountMasks(masks: Masks, refs: seq<string>, i: int): nat {
    if |refs| == 0 then 0 else
    var last := refs[|refs| - 1];
    CountMasks(masks, refs[..|refs| - 1], i)
    + if last in masks && 0 <= i < |masks[last]| && masks[last][i] then 1 else 0
  }

  /** Whether the counted children all belong to the market. */
  predicate Votes(masks: Masks, path: Path) {
    path.atLeast.Some? && AllMarket(masks, path.atLeast.value.of)
  }

  /** The market part of a path on one bar. */
  predicate MarketPart(masks: Masks, path: Path, i: int) {
    && (forall ref | ref in path.require && ref in masks :: 0 <= i < |masks[ref]| && masks[ref][i])
    && (Votes(masks, path) ==> CountMasks(masks, path.atLeast.value.of, i) >= path.atLeast.value.k)
  }

  ghost predicate PathFolded(n: nat, masks: Masks, path: Path, folded: FoldedPath) {
    && folded.id == path.id
    && folded.tradeRequire == Untraded(masks, path.require)
    && folded.atLeast == (if Votes(masks, path) then None else path.atLeast)
    && (folded.market.Some? <==> SomeMarket(masks, path.require) || Votes(masks, path))
    && (folded.market.Some? ==>
          |folded.market.value| == n && forall i | 0 <= i < n :: folded.market.value[i] == MarketPart(masks, path, i))
  }

  ghost predicate FoldRight(frame: Frame, side: Side, children: seq<Child>, paths: seq<Path>, folded: Folded) {
    && folded.children == children && MasksRight(frame, side, children, folded.masks)
    && |folded.paths| == |paths|
    && forall k | 0 <= k < |paths| :: PathFolded(|frame.bars|, folded.masks, paths[k], folded.paths[k])
  }

  // -- the fold ------------------------------------------------------------------------

  /** Both sides of the trend-strength atom over the whole frame. */
  method AdxDiSeries(frame: Frame, atom: Atom) returns (long: seq<bool>, short: seq<bool>)
    requires Aligned(frame) && atom.AdxDi?
    ensures |long| == |short| == |frame.bars|
    ensures forall i | 0 <= i < |frame.bars| ::
              && long[i] == MarketTrue(frame, Long, i, AtomChild(atom))
              && short[i] == MarketTrue(frame, Short, i, AtomChild(atom))
  {
    var adx, plus, minus := SeriesOf(frame, atom.adx), SeriesOf(frame, atom.plus), SeriesOf(frame, atom.minus);
    long, short := [], [];
    var i := 0;
    while i < |frame.bars|
      invariant 0 <= i <= |frame.bars| && |long| == |short| == i
      invariant forall k | 0 <= k < i ::
                  && long[k] == MarketTrue(frame, Long, k, AtomChild(atom))
                  && short[k] == MarketTrue(frame, Short, k, AtomChild(atom))
    {
      SeriesAgree(frame, atom.adx, i);
      SeriesAgree(frame, atom.plus, i);
      SeriesAgree(frame, atom.minus, i);
      if adx[i].None? || plus[i].None? || minus[i].None? {
        long, short := long + [false], short + [false];
      } else {
        var ok := adx[i].value >= atom.strength;
        long := long + [ok && (!atom.requireAlignment || plus[i].value > minus[i].value)];
        short := short + [ok && (!atom.requireAlignment || minus[i].value > plus[i].value)];
      }
      i := i + 1;
    }
  }

  method MarketMasks(frame: Frame, children: seq<Child>, side: Side) returns (masks: Masks)
    requires Aligned(frame) && DistinctIds(children)
    requires forall i | 0 <= i < |children| && children[i].content.PredicateChild? ::
               |children[i].content.long| == |frame.bars| == |children[i].content.short|
    ensures MasksRight(frame, side, children, masks)
  {
    masks := map[];
    var k := |children|;
    while k > 0
      invariant 0 <= k <= |children|
      invariant MasksRight(frame, side, children[k..], masks)
    {
      k := k - 1;
      var child := children[k];
      assert children[k..][1..] == children[k + 1..];
      FreshChild(children, k);
      if child.content.PredicateChild? {
        masks := masks[child.id := MaskFor(child.content, side)];
      } else if IsMarket(child.content) {
        var long, short := AdxDiSeries(frame, child.content.atom);
        masks := masks[child.id := if side == Long then long else short];
      }
    }
    assert children[0..] == children;
  }

  lemma {:induction false} FindAfter(children: seq<Child>, id: string)
    requires forall i | 0 <= i < |children| :: children[i].id != id
    ensures Find(children, id).None?
  {
    if |children| > 0 {
      FindAfter(children[1..], id);
    }
  }

  lemma FreshChild(children: seq<Child>, k: nat)
    requires DistinctIds(children) && k < |children|
    ensures Find(children[k + 1..], children[k].id).None?
    ensures Find(children[k..], children[k].id) == Some(children[k].content)
  {
    FindAfter(children[k + 1..], children[k].id);
  }

  /** One path: the required market children and an all-market vote in one mask, the rest kept. */
  method FoldPath(n: nat, masks: Masks, path: Path) returns (folded: FoldedPath)
    requires forall id | id in masks :: |masks[id]| == n
    ensures PathFolded(n, masks, path, folded)
  {
    var market, tradeRequire := None, [];
    var k := 0;
    while k < |path.require|
      invariant 0 <= k <= |path.require|
      invariant tradeRequire == Untraded(masks, path.require[..k])
      invariant market.Some? <==> SomeMarket(masks, path.require[..k])
      invariant market.Some? ==> RequiredFolded(n, masks, path.require[..k], market.value)
    {
      var ref := path.require[k];
      assert path.require[..k + 1][..k] == path.require[..k] && path.require[..k + 1] == path.require[..k] + [ref];
      if ref in masks {
        market := Some(if market.None? then masks[ref] else Both(market.value, masks[ref]));
      } else {
        tradeRequire := tradeRequire + [ref];
      }
      k := k + 1;
    }
    assert path.require[..k] == path.require;
    if Votes(masks, path) {
      var vote := Vote(n, masks, path.atLeast.value);
      folded := FoldedPath(path.id, Some(if market.None? then vote else Both(market.value, vote)), tradeRequire, None);
    } else {
      folded := FoldedPath(path.id, market, tradeRequire, path.atLeast);
    }
  }

  function Both(a: seq<bool>, b: seq<bool>): (r: seq<bool>)
    requires |a| == |b|
    ensures |r| == |a| && forall i | 0 <= i < |a| :: r[i] == (a[i] && b[i])
  {
    seq(|a|, i requires 0 <= i < |a| => a[i] && b[i])
  }

  ghost predicate RequiredFolded(n: nat, masks: Masks, refs: seq<string>, mask: seq<bool>) {
    && |mask| == n
    && forall i | 0 <= i < n ::
         mask[i] == forall ref | ref in refs && ref in masks :: 0 <= i < |masks[ref]| && masks[ref][i]
  }

  /** The bars on which at least `k` of the masks are true, by running counts. */
  method Vote(n: nat, masks: Masks, atLeast: AtLeast) returns (vote: seq<bool>)
    requires (forall id | id in masks :: |masks[id]| == n) && AllMarket(masks, atLeast.of)
    ensures |vote| == n && forall i | 0 <= i < n :: vote[i] == (CountMasks(masks, atLeast.of, i) >= atLeast.k)
  {
    var counts: seq<int> := seq(n, _ => 0);
    var k := 0;
    while k < |atLeast.of|
      invariant 0 <= k <= |atLeast.of| && |counts| == n
      invariant forall i | 0 <= i < n :: counts[i] == CountMasks(masks, atLeast.of[..k], i)
    {
      var mask := masks[atLeast.of[k]];
      assert atLeast.of[..k + 1][..k] == atLeast.of[..k];
      counts := seq(n, i requires 0 <= i < n => counts[i] + if mask[i] then 1 else 0);
      k := k + 1;
    }
    assert atLeast.of[..k] == atLeast.of;
    vote := seq(n, i requires 0 <= i < n => counts[i] >= atLeast.k);
  }

  method FoldPhasePaths(frame: Frame, children: seq<Child>, paths: seq<Path>, side: Side) returns (folded: Folded)
    requires Aligned(frame) && CompositeParsed(frame, children, paths)
    ensures FoldRight(frame, side, children, paths, folded)
  {
    var masks := MarketMasks(frame, children, side);
    var out := [];
    var k := 0;
    while k < |paths|
      invariant 0 <= k <= |paths| && |out| == k
      invariant forall j | 0 <= j < k :: PathFolded(|frame.bars|, masks, paths[j], out[j])
    {
      var path := FoldPath(|frame.bars|, masks, paths[k]);
      out := out + [path];
      k := k + 1;
    }
    folded := Folded(children, out, masks);
  }

  // -- what the fold means ---------------------------------------------------------------

  lemma MaskIsTruth(frame: Frame, trade: Trade, m: Metrics, index: nat, folded: Folded, ref: string)
    requires trade.entryPrice > 0.0 && index < |frame.bars|
    requires MasksRight(frame, trade.side, folded.children, folded.masks) && ref in folded.masks
    ensures |folded.masks[ref]| == |frame.bars|
    ensures folded.masks[ref][index] == RefTrue(frame, trade, m, index, folded.children, ref)
  {
  }

  lemma {:induction false} CountIsTruth(frame: Frame, trade: Trade, m: Metrics, index: nat, folded: Folded, refs: seq<string>)
    requires trade.entryPrice > 0.0 && index < |frame.bars|
    requires MasksRight(frame, trade.side, folded.children, folded.masks) && AllMarket(folded.masks, refs)
    ensures CountMasks(folded.masks, refs, index) == CountTrue(frame, trade, m, index, folded.children, refs)
  {
    if |refs| > 0 {
      CountIsTruth(frame, trade, m, index, folded, refs[..|refs| - 1]);
      MaskIsTruth(frame, trade, m, index, folded, refs[|refs| - 1]);
    }
  }

  lemma {:induction false} UntradedAre(masks: Masks, refs: seq<string>)
    ensures forall ref :: ref in Untraded(masks, refs) <==> ref in refs && ref !in masks
  {
    if |refs| > 0 {
      var most := refs[..|refs| - 1];
      UntradedAre(masks, most);
      assert refs == most + [refs[|refs| - 1]];
    }
  }

  /** A folded path on one bar, with the value of every reference at hand. */
  ghost predicate FoldedTrue(
    frame: Frame, trade: Trade, m: Metrics, index: nat, children: seq<Child>, folded: FoldedPath)
    requires trade.entryPrice > 0.0
  {
    && (folded.market.Some? ==> index < |folded.market.value| && folded.market.value[index])
    && (forall ref | ref in folded.tradeRequire :: RefTrue(frame, trade, m, index, children, ref))
    && (folded.atLeast.Some? ==>
          CountTrue(frame, trade, m, index, children, folded.atLeast.value.of) >= folded.atLeast.value.k)
  }

  /** Folding keeps the meaning of a path, however market and trade children are mixed in it. */
  lemma FoldedPathMeans(
    frame: Frame, trade: Trade, m: Metrics, index: nat, folded: Folded, path: Path, out: FoldedPath)
    requires trade.entryPrice > 0.0 && index < |frame.bars|
    requires MasksRight(frame, trade.side, folded.children, folded.masks)
    requires PathFolded(|frame.bars|, folded.masks, path, out)
    ensures FoldedTrue(frame, trade, m, index, folded.children, out)
       <==> PathTrue(frame, trade, m, index, folded.children, path)
  {
    UntradedAre(folded.masks, path.require);
    forall ref | ref in path.require && ref in folded.masks
      ensures |folded.masks[ref]| == |frame.bars|
      ensures folded.masks[ref][index] == RefTrue(frame, trade, m, index, folded.children, ref)
    {
      MaskIsTruth(frame, trade, m, index, folded, ref);
    }
    if Votes(folded.masks, path) {
      CountIsTruth(frame, trade, m, index, folded, path.atLeast.value.of);
    }
  }

  // -- the composite on a bar ------------------------------------------------------------

  /** The value of one child on a bar: its mask when it has one, otherwise its own formula. */
  method ChildValue(frame: Frame, trade: Trade, m: Metrics, index: nat, folded: Folded, ref: string)
    returns (value: bool)
    requires trade.entryPrice > 0.0 && index < |frame.bars|
    requires MasksRight(frame, trade.side, folded.children, folded.masks)
    ensures value == RefTrue(frame, trade, m, index, folded.children, ref)
  {
    if ref in folded.masks {
      MaskIsTruth(frame, trade, m, index, folded, ref);
      return folded.masks[ref][index];
    }
    var content := Find(folded.children, ref);
    value := content.Some? && ChildTrue(frame, trade, m, index, content.value);
  }

  method FoldedPathMet(frame: Frame, trade: Trade, m: Metrics, index: nat, folded: Folded, path: FoldedPath)
    returns (met: bool)
    requires trade.entryPrice > 0.0 && index < |frame.bars|
    requires MasksRight(frame, trade.side, folded.children, folded.masks)
    requires path.market.Some? ==> |path.market.value| == |frame.bars|
    ensures met == FoldedTrue(frame, trade, m, index, folded.children, path)
  {
    if path.market.Some? && !path.market.value[index] {
      return false;
    }
    var k := 0;
    while k < |path.tradeRequire|
      invariant 0 <= k <= |path.tradeRequire|
      invariant forall j | 0 <= j < k :: RefTrue(frame, trade, m, index, folded.children, path.tradeRequire[j])
    {
      var value := ChildValue(frame, trade, m, index, folded, path.tradeRequire[k]);
      if !value {
        return false;
      }
      k := k + 1;
    }
    if path.atLeast.None? {
      return true;
    }
    var of, count := path.atLeast.value.of, 0;
    k := 0;
    while k < |of|
      invariant 0 <= k <= |of| && count == CountTrue(frame, trade, m, index, folded.children, of[..k])
    {
      var value := ChildValue(frame, trade, m, index, folded, of[k]);
      assert of[..k + 1][..k] == of[..k];
      count := count + if value then 1 else 0;
      k := k + 1;
    }
    assert of[..k] == of;
    met := count >= path.atLeast.value.k;
  }

  /** The composite on a bar, from its fold: the first path in declared order that is true in the plain
      sense, or none. */
  method CompositeMet(
    frame: Frame, trade: Trade, m: Metrics, index: nat, folded: Folded, ghost children: seq<Child>, ghost paths: seq<Path>)
    returns (path: Option<string>)
    requires trade.entryPrice > 0.0 && index < |frame.bars|
    requires FoldRight(frame, trade.side, children, paths, folded)
    ensures path == FirstPath(frame, trade, m, index, children, paths)
  {
    var k := 0;
    while k < |folded.paths|
      invariant 0 <= k <= |paths|
      invariant FirstPath(frame, trade, m, index, children, paths)
             == FirstPath(frame, trade, m, index, children, paths[k..])
    {
      assert PathFolded(|frame.bars|, folded.masks, paths[k], folded.paths[k]);
      FoldedPathMeans(frame, trade, m, index, folded, paths[k], folded.paths[k]);
      assert paths[k..][1..] == paths[k + 1..];
      var met := FoldedPathMet(frame, trade, m, index, folded, folded.paths[k]);
      if met {
        return Some(folded.paths[k].id);
      }
      k := k + 1;
    }
    path := None;
  }
}
