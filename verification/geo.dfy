/** The public point of a listing: `generalizeLocation` rounds the coordinates of a
    FOUND listing, and of any listing placed approximately or in transit, to a grid
    whose step depends on the placement mode. */
module Geo {
  import Flows
  import opened Drafts

  /** How precise the published point is. */
  datatype Precision = AsIs | Area | District | TransitArea

  datatype Generalized = Generalized(public: Point, precision: Precision, original: Point)

  /** `Math.round(value / step) * step`: the grid point nearest to the value, ties
      going up. */
  function RoundCoordinate(value: real, step: real): (r: real)
    requires step > 0.0
    ensures value - step / 2.0 < r <= value + step / 2.0
  {
    var k := (value / step + 0.5).Floor;
    RoundingError(value, step, k);
    k as real * step
  }

  lemma RoundingError(value: real, step: real, k: int)
    requires step > 0.0 && k == (value / step + 0.5).Floor
    ensures value - step / 2.0 < k as real * step <= value + step / 2.0
  {
    var x := value / step;
    assert x * step == value;
    var d := k as real - x;
    assert -0.5 < d <= 0.5;
    assert d * step <= 0.5 * step;
    assert -0.5 * step < d * step;
    assert k as real * step == value + d * step;
  }

  /** Does the listing's point have to be blurred? Always for a find, and for a
      loss placed only approximately or in transit. */
  predicate NeedsGeneralization(flow: Flows.Flow, mode: LocationMode) {
    flow == Flows.Found || mode != LocationMode.Exact
  }

  /** The grid step and the precision label of a blurred point. */
  function Grid(flow: Flows.Flow, mode: LocationMode): (g: (real, Precision))
    ensures g.0 > 0.0 && g.1 != AsIs
  {
    if mode == LocationMode.Approx then (0.02, District)
    else if mode == LocationMode.Transit then (0.05, TransitArea)
    else if flow == Flows.Lost then (0.005, Area)
    else (0.01, Area)
  }

  /** `generalizeLocation(flow, point, mode)`: the original point, and a public
      point that is the original itself when no blurring is needed and otherwise
      each coordinate rounded to the grid. */
  function GeneralizeLocation(flow: Flows.Flow, point: Point, mode: LocationMode): (r: Generalized)
    ensures r.original == point
    ensures r.precision == AsIs <==> !NeedsGeneralization(flow, mode)
    ensures r.precision == AsIs ==> r.public == point
    ensures r.precision != AsIs ==>
      var step := Grid(flow, mode).0;
      r.precision == Grid(flow, mode).1
      && point.latitude - step / 2.0 < r.public.latitude <= point.latitude + step / 2.0
      && point.longitude - step / 2.0 < r.public.longitude <= point.longitude + step / 2.0
  {
    if NeedsGeneralization(flow, mode) then
      var (step, precision) := Grid(flow, mode);
      Generalized(Point(RoundCoordinate(point.latitude, step), RoundCoordinate(point.longitude, step)),
                  precision, point)
    else
      Generalized(point, AsIs, point)
  }

  /** The published point of a find is never the exact one, and the 0.005 grid
      that `Grid` keeps for an exactly placed loss is never reached: such a loss
      is published as it is, and one placed otherwise takes the approximate or
      the transit grid. */
  lemma FinestGridIsUnused(flow: Flows.Flow, point: Point, mode: LocationMode)
    ensures flow == Flows.Found ==> GeneralizeLocation(flow, point, mode).precision != AsIs
    ensures GeneralizeLocation(flow, point, mode).precision == Area ==> flow == Flows.Found
    ensures flow == Flows.Lost && mode == LocationMode.Exact ==> GeneralizeLocation(flow, point, mode).public == point
  {
  }
}
