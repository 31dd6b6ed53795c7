/**
  The ring of sample points both variants place around the user's location:
  16 points at evenly spaced bearings, each at the chosen radius. The
  latitude/longitude of a point is floating-point trigonometry, so a point's
  position is kept as the opaque description `Offset` of how it was placed.
 */
module Ring {
  import opened Widget

  /** How many points the ring has (`numPoints` / the loop bound 16). */
  const RingSize: nat := 16

  /** The bearing of the i-th ring point in degrees, `(i * 360) / 16`. */
  function Bearing(i: nat): (deg: real)
    requires i < RingSize
    ensures 0.0 <= deg < 360.0
    ensures deg * (RingSize as real) == (i * 360) as real
  {
    (i * 360) as real / RingSize as real
  }

  /** Consecutive bearings are 22.5 degrees apart, so no two ring points share a bearing. */
  lemma BearingsEvenlySpaced(i: nat, j: nat)
    requires i < j < RingSize
    ensures Bearing(j) - Bearing(i) == (j - i) as real * 22.5
    ensures Bearing(i) < Bearing(j)
  {
  }

  /**
    Stand-in for the coordinate `radiusKm` kilometres from `center` along
    `bearing` degrees (equirectangular approximation, not modelled).
   */
  datatype Offset = Offset(center: Coord, radiusKm: int, bearing: real)

  /** Where the i-th ring point around `center` lies. */
  function RingPosition(center: Coord, radiusKm: int, i: nat): Offset
    requires i < RingSize
  {
    Offset(center, radiusKm, Bearing(i))
  }

  /**
    Distinct indices give distinct ring positions. At radius 0 every point
    would sit on the centre, so the claim is made for positive radii only.
   */
  lemma RingPositionsDistinct(center: Coord, radiusKm: int, i: nat, j: nat)
    requires 1 <= radiusKm && i < RingSize && j < RingSize && i != j
    ensures RingPosition(center, radiusKm, i) != RingPosition(center, radiusKm, j)
  {
    if i < j {
      BearingsEvenlySpaced(i, j);
    } else {
      BearingsEvenlySpaced(j, i);
    }
  }

  /** No two points of a ring with a positive radius share a position. */
  lemma RingPositionsAllDistinct(center: Coord, radiusKm: int)
    requires 1 <= radiusKm
    ensures forall i: nat, j: nat :: i < j < RingSize ==>
      RingPosition(center, radiusKm, i) != RingPosition(center, radiusKm, j)
  {
    forall i: nat, j: nat | i < j < RingSize
      ensures RingPosition(center, radiusKm, i) != RingPosition(center, radiusKm, j)
    {
      RingPositionsDistinct(center, radiusKm, i, j);
    }
  }
}
