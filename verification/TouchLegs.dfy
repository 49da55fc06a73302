/** The wave of the current touch and the legs it bounds, read from an episode's tables bar by bar. */
module TouchLegs {
  import opened NodeProgram
  import opened EpisodeTables
  import opened WindowMath

  function Clip(x: int, low: int, high: int): int {
    if x < low then low else if x > high then high else x
  }

  /** The touch-table row of the touch current on bar `t`, if an episode is live and was touched. */
  function RowAt(ep: SideEpisode, t: nat): Option<int>
    requires t < |ep.touchNumber| && t < |ep.episodeId| && |ep.firstRow| > 0
  {
    match ep.touchNumber[t]
    case None => None
    case Some(number) =>
      if number == 0 then None
      else Some(ep.firstRow[Clip(ep.episodeId[t], 0, |ep.firstRow| - 1)] + number - 1)
  }

  /** A bar index a table may hold. */
  predicate PastBar(bar: Option<int>) {
    bar.Some? ==> bar.value >= 0
  }

  /** Per-bar state over `n` bars, whose rows lie inside the touch table; the row before a second or later
      touch is one of the same episode. */
  ghost predicate Tables(ep: SideEpisode, n: nat) {
    && |ep.touchNumber| == n && |ep.episodeId| == n && |ep.firstRow| > 0
    && (forall t | 0 <= t < n ::
          var row := RowAt(ep, t);
          row.Some? ==> 0 <= row.value < |ep.touches| && (ep.touchNumber[t].value >= 2 ==> row.value >= 1))
    && (forall r | 0 <= r < |ep.touches| ::
          PastBar(ep.touches[r].originBar) && PastBar(ep.touches[r].peakBar) && PastBar(ep.touches[r].touchBar))
  }

  datatype Wave = Wave(origin: nat, peak: nat, row: nat)

  /** The wave of the current touch: origin before peak, both known by the evaluated bar. */
  function WaveAt(ep: SideEpisode, n: nat, t: nat): (w: Option<Wave>)
    requires Tables(ep, n) && t < n
    ensures w.Some? ==> w.value.origin <= w.value.peak <= t && w.value.row < |ep.touches|
  {
    var row := RowAt(ep, t);
    if row.None? then None else
    var touch := ep.touches[row.value];
    if touch.originBar.None? || touch.peakBar.None? then None
    else if touch.originBar.value <= touch.peakBar.value <= t
    then Some(Wave(touch.originBar.value, touch.peakBar.value, row.value))
    else None
  }

  datatype Leg = Impulse | Pullback

  /** The bars of a leg, both ends inclusive: the impulse up to the peak, or the pullback after it. */
  function LegAt(ep: SideEpisode, n: nat, t: nat, leg: Leg): (q: Option<Query>)
    requires Tables(ep, n) && t < n
    ensures q.Some? ==> q.value.low <= q.value.high <= t
  {
    var wave := WaveAt(ep, n, t);
    if wave.None? then None
    else if leg.Impulse? then Some(Query(wave.value.origin, wave.value.peak))
    else if wave.value.peak + 1 <= t then Some(Query(wave.value.peak + 1, t))
    else None
  }
}
