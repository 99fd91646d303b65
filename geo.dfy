/** The external geodesic library and Python's `round`, as parameters. */
module Geo {
  /** `geodesic((lat1, lon1), (lat2, lon2)).km`: ellipsoidal floating-point
      numerics in an external library, left uninterpreted. */
  type Geodesic = (real, real, real, real) -> real

  /** `round(x, 2)`, left uninterpreted. */
  type Round2 = real -> real
}
