/** Asset layers: the infrastructure categories and the positional ids given to their features. */
module Layers {
  import opened Sorting

  /** The asset categories that are linked to households, in the order the accessibility step runs. */
  datatype Category =
    | Hospital | Health | Education | Shelter | Embankment | Growth | Substation | RailStation | RoadNode

  /** One point feature of an asset layer after reprojection to WGS84: `geometry.x`, `geometry.y`, other columns. */
  datatype Feature = Feature(x: real, y: real, attrs: seq<string>)

  /** One row of a loaded asset layer: `id_<category>`, `Lat`, `Long` and the pass-through columns. */
  datatype AssetRow = AssetRow(id: int, lat: real, lon: real, attrs: seq<string>)

  /** The ids of a layer are its positions. */
  predicate Positional(layer: seq<AssetRow>) {
    forall i :: 0 <= i < |layer| ==> layer[i].id == i
  }

  /** The `id_<category>` column of a layer. */
  function Ids(layer: seq<AssetRow>): (ids: seq<int>)
    ensures |ids| == |layer| && forall i :: 0 <= i < |layer| ==> ids[i] == layer[i].id
  {
    seq(|layer|, i requires 0 <= i < |layer| => layer[i].id)
  }

  /**
   * Loading a layer: `Lat` and `Long` are copied from the point geometry and
   * `reset_index(drop = True).reset_index()` turns the row positions into the ids.
   */
  function LoadLayer(features: seq<Feature>): (layer: seq<AssetRow>)
    ensures |layer| == |features|
    ensures Positional(layer) && Distinct(Ids(layer)) && StrictlyIncreasing(Ids(layer))
    ensures forall i :: 0 <= i < |layer| ==>
              layer[i].lat == features[i].y && layer[i].lon == features[i].x && layer[i].attrs == features[i].attrs
  {
    seq(|features|, i requires 0 <= i < |features| => AssetRow(i, features[i].y, features[i].x, features[i].attrs))
  }
}
