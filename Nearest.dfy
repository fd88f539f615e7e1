/** The contract of the ball-tree nearest-neighbour query (Euclidean metric on degree coordinates). */
module Nearest {
  import opened Layers

  /** A (longitude, latitude) pair in decimal degrees. */
  datatype Point = Point(lon: real, lat: real)

  /** Squared Euclidean distance in degree space: the order the index metric induces, without the square root. */
  function SqDist(p: Point, q: Point): real {
    (p.lon - q.lon) * (p.lon - q.lon) + (p.lat - q.lat) * (p.lat - q.lat)
  }

  /** Position `k` holds a reference point that no other reference point beats for `q`. */
  predicate IsNearest(pts: seq<Point>, q: Point, k: int) {
    0 <= k < |pts| && forall j :: 0 <= j < |pts| ==> SqDist(q, pts[k]) <= SqDist(q, pts[j])
  }

  /**
   * One answer of a `k = 1` query: an argmin of the distance. The index may break ties in any
   * order; this definition takes the lowest position, and every contract below only uses IsNearest.
   */
  function ArgNearest(pts: seq<Point>, q: Point): (k: nat)
    requires |pts| > 0
    ensures IsNearest(pts, q, k)
    decreases |pts|
  {
    if |pts| == 1 then 0
    else
      var k := ArgNearest(pts[..|pts| - 1], q);
      if SqDist(q, pts[|pts| - 1]) < SqDist(q, pts[k]) then |pts| - 1 else k
  }

  /** The points the tree is built over: `[Long_<category>, Lat_<category>]` of every asset. */
  function Points(layer: seq<AssetRow>): (pts: seq<Point>)
    ensures |pts| == |layer|
    ensures forall i :: 0 <= i < |layer| ==> pts[i] == Point(layer[i].lon, layer[i].lat)
  {
    seq(|layer|, i requires 0 <= i < |layer| => Point(layer[i].lon, layer[i].lat))
  }

  /** The columns one category adds to a household: `id_<c>`, `Lat_<c>`, `Long_<c>`, `dist_<c>`. */
  datatype Link = Link(id: int, lat: real, lon: real, dist: real)

  /** Where a link points to. */
  function LinkPoint(l: Link): Point {
    Point(l.lon, l.lat)
  }

  /** The link to asset `a` from household location `p`, with the distance from the geodesic formula. */
  function LinkTo(a: AssetRow, p: Point, haversine: (real, real, real, real) -> real): Link {
    Link(a.id, a.lat, a.lon, haversine(p.lon, p.lat, a.lon, a.lat))
  }

  /** `l` is the link to some nearest asset of the layer, with its distance recomputed by `haversine`. */
  ghost predicate IsNearestLink(layer: seq<AssetRow>, p: Point, haversine: (real, real, real, real) -> real, l: Link) {
    exists k :: IsNearest(Points(layer), p, k) && l == LinkTo(layer[k], p, haversine)
  }

  /**
   * With positional ids the id attached to a household is the index the query returned: it lies in
   * [0, |layer|) and no asset of the layer is closer than the one it names.
   */
  lemma NearestLinkPositional(layer: seq<AssetRow>, p: Point, haversine: (real, real, real, real) -> real, l: Link)
    requires Positional(layer)
    requires IsNearestLink(layer, p, haversine, l)
    ensures 0 <= l.id < |layer| && IsNearest(Points(layer), p, l.id)
    ensures l.lat == layer[l.id].lat && l.lon == layer[l.id].lon
    ensures l.dist == haversine(p.lon, p.lat, layer[l.id].lon, layer[l.id].lat)
  {
  }

  /** All nearest assets are equally far: the squared distance of a nearest link does not depend on the tie-break. */
  lemma NearestDistanceUnique(layer: seq<AssetRow>, p: Point, haversine: (real, real, real, real) -> real, l: Link, k: nat)
    requires IsNearestLink(layer, p, haversine, l)
    requires IsNearest(Points(layer), p, k)
    ensures SqDist(p, LinkPoint(l)) == SqDist(p, Points(layer)[k])
  {
  }
}
