/** One side's EMA stack episode projection, as the operands over its legs read it. */
module EpisodeTables {
  import opened NodeProgram

  datatype Side = Long | Short

  /** A per-bar column on the base timeline; `None` is a missing (non-finite) value. */
  type Series = seq<Option<real>>

  /** A row of the touch table: the wave of one touch. Bars are base-bar indices. */
  datatype TouchRow = TouchRow(
    originBar: Option<int>,
    peakBar: Option<int>,
    touchBar: Option<int>,
    originPrice: Option<real>,
    peakPrice: Option<real>)

  /** `touchNumber` and `episodeId` are per-bar state, missing while no episode is live;
      `firstRow[e]` is the touch-table row of the first touch of episode `e`. */
  datatype SideEpisode = SideEpisode(
    side: Side,
    touchNumber: seq<Option<nat>>,
    episodeId: seq<nat>,
    touches: seq<TouchRow>,
    firstRow: seq<int>)
}
