/** The household table that the accessibility step threads through the asset categories. */
module HouseholdTable {
  import opened Wrappers
  import opened Layers
  import opened Nearest
  import opened Sorting

  /** One household of the input CSV: `hid, htype_class, Long, Lat, electric_class, water_class, toilet_class`. */
  datatype Household = Household(hid: int, htype: int, long: real, lat: real, electric: int, water: int, toilet: int)

  /** An embankment polygon with its `Polder no.`; its shape is only ever looked at by the membership relation. */
  datatype Polygon = Polygon(polderNo: int, ring: seq<Point>)

  /** The library calls the core relies on, as parameters. */
  datatype GeoOps = GeoOps(
    toWgs84: Point -> Point,                      // `to_crs('EPSG:4326')` of a point
    inside: (Point, Polygon) -> bool,             // point-in-polygon test of `gpd.overlay`
    sqrt: real -> real,                           // turns the squared index distance into the tree's `distance`
    haversine: (real, real, real, real) -> real)  // `haversine(lon1, lat1, lon2, lat2)` in kilometres

  /**
   * One row of the household frame: the input columns, `longitude`/`latitude` (`pos`), `polder`,
   * `Polder no.`, the scratch `distance` column (absent until the first query) and one Link per
   * category already processed.
   */
  datatype Row = Row(hh: Household, pos: Point, polder: int, polderNo: int, distance: Option<real>, links: map<Category, Link>)

  /**
   * Building the geo frame: the point of `(Long, Lat)` reprojected to WGS84 becomes `longitude`/`latitude`.
   * Polder columns hold 0 until the polder merge sets them.
   */
  function Project(data: seq<Household>, toWgs84: Point -> Point): (gdf: seq<Row>)
    ensures |gdf| == |data|
    ensures forall i :: 0 <= i < |gdf| ==>
              gdf[i].hh == data[i] && gdf[i].pos == toWgs84(Point(data[i].long, data[i].lat))
              && gdf[i].distance == None && gdf[i].links == map[]
  {
    seq(|data|, i requires 0 <= i < |data| =>
      Row(data[i], toWgs84(Point(data[i].long, data[i].lat)), 0, 0, None, map[]))
  }

  /** The `hid` column of the geo frame. */
  function Hids(rows: seq<Row>): (hs: seq<int>)
    ensures |hs| == |rows| && forall i :: 0 <= i < |rows| ==> hs[i] == rows[i].hh.hid
  {
    seq(|rows|, i requires 0 <= i < |rows| => rows[i].hh.hid)
  }
}
