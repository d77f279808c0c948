/** Horizons as produced by the point-cloud extraction: one point cloud per
    connected surface, with its depths already in the cube's line coordinates. */
module Horizons {

  /** One point of a horizon: an inline, a crossline and a depth. */
  datatype Point = Point(iline: int, xline: int, depth: int)

  /** A horizon is the point cloud of one surface. */
  datatype Horizon = Horizon(points: seq<Point>)

  /** The horizon's `len`: the number of points in its cloud. */
  function Size(h: Horizon): nat {
    |h.points|
  }
}
