/**
 * The accessibility engine: for every household, the nearest asset of each category (ball-tree
 * query plus inner merge on the returned index) and the geodesic distance to it.
 */
module Accessibility {
  import opened Wrappers
  import opened Frames
  import opened Layers
  import opened Nearest
  import opened HouseholdTable
  import opened Polder
  import opened Sorting

  /** The errors the index raises: a tree over no points, or a query with no points. */
  datatype AccessError = EmptyReference | EmptyQuery

  /** The categories processed by the accessibility step, in the order of the script (the commented-out ones are not part of it). */
  const Order: seq<Category> :=
    [Hospital, Health, Education, Shelter, Embankment, Growth, Substation, RailStation, RoadNode]

  /** A household row after the query: the `distance` column written, plus `id_nearest`. */
  datatype Queried = Queried(row: Row, idNearest: int)

  /** An asset row after `reset_index().rename(columns = {'index': 'id_nearest'})`. */
  datatype Indexed = Indexed(idNearest: int, asset: AssetRow)

  function QueriedKey(q: Queried): int {
    q.idNearest
  }

  function IndexedKey(x: Indexed): int {
    x.idNearest
  }

  /** The query answer for one household. */
  function QueryOne(row: Row, pts: seq<Point>, sqrt: real -> real): (q: Queried)
    requires |pts| > 0
    ensures IsNearest(pts, row.pos, q.idNearest)
    ensures q.row == row.(distance := Some(sqrt(SqDist(row.pos, pts[q.idNearest]))))
  {
    var k := ArgNearest(pts, row.pos);
    Queried(row.(distance := Some(sqrt(SqDist(row.pos, pts[k])))), k)
  }

  /**
   * `tree.query(households, k = 1)` over the reference points: every household receives the index
   * of a nearest reference point and `distance` becomes the index metric to it.
   */
  function Query(rows: seq<Row>, pts: seq<Point>, sqrt: real -> real): (qs: seq<Queried>)
    requires |pts| > 0
    ensures |qs| == |rows|
    ensures forall i :: 0 <= i < |rows| ==>
              IsNearest(pts, rows[i].pos, qs[i].idNearest)
              && qs[i].row == rows[i].(distance := Some(sqrt(SqDist(rows[i].pos, pts[qs[i].idNearest]))))
  {
    seq(|rows|, i requires 0 <= i < |rows| => QueryOne(rows[i], pts, sqrt))
  }

  /** The asset frame with its positions as `id_nearest`. */
  function Reindexed(layer: seq<AssetRow>): (ix: seq<Indexed>)
    ensures |ix| == |layer|
    ensures forall i :: 0 <= i < |layer| ==> ix[i] == Indexed(i, layer[i])
  {
    seq(|layer|, i requires 0 <= i < |layer| => Indexed(i, layer[i]))
  }

  /**
   * `nearest_neighbour`: the tree over the layer's points fails on an empty layer or an empty
   * household frame; otherwise the inner merge on `id_nearest` keeps one row per household, that
   * row unchanged except for `distance`, and attaches the asset at the returned position, which is
   * a nearest one.
   */
  function NearestNeighbour(rows: seq<Row>, layer: seq<AssetRow>, sqrt: real -> real): (r: Result<seq<(Queried, Indexed)>, AccessError>)
    ensures r.Err? <==> |layer| == 0 || |rows| == 0
    ensures r.Ok? ==> |r.value| == |rows|
    ensures r.Ok? ==> forall i :: 0 <= i < |rows| ==>
              IsNearest(Points(layer), rows[i].pos, r.value[i].0.idNearest)
              && r.value[i].0.row == rows[i].(distance := Some(sqrt(SqDist(rows[i].pos, Points(layer)[r.value[i].0.idNearest]))))
              && r.value[i].1 == Indexed(r.value[i].0.idNearest, layer[r.value[i].0.idNearest])
  {
    if |layer| == 0 then Err(EmptyReference)
    else if |rows| == 0 then Err(EmptyQuery)
    else
      var qs := Query(rows, Points(layer), sqrt);
      var ix := Reindexed(layer);
      JoinPositional(qs, ix, QueriedKey, IndexedKey);
      Ok(InnerJoin(qs, ix, QueriedKey, IndexedKey))
  }

  /**
   * `.drop(columns = ['id_nearest'])` and `dist_<c>` computed row by row from the household's
   * `longitude`/`latitude` and the attached `Long_<c>`/`Lat_<c>`.
   */
  function Attach(c: Category, joined: seq<(Queried, Indexed)>, haversine: (real, real, real, real) -> real): (rows: seq<Row>)
    ensures |rows| == |joined|
    ensures forall i :: 0 <= i < |joined| ==>
              && Extends(joined[i].0.row, rows[i], {c})
              && rows[i].distance == joined[i].0.row.distance
              && rows[i].links[c] == LinkTo(joined[i].1.asset, joined[i].0.row.pos, haversine)
  {
    seq(|joined|, i requires 0 <= i < |joined| =>
      var q := joined[i].0.row;
      q.(links := q.links[c := LinkTo(joined[i].1.asset, q.pos, haversine)]))
  }

  /**
   * One category step on one row: only `distance` is overwritten and the columns of `c` are added,
   * linking a nearest asset; every other column is kept.
   */
  ghost predicate StepRow(before: Row, after: Row, c: Category, layer: seq<AssetRow>, geo: GeoOps) {
    exists k :: IsNearest(Points(layer), before.pos, k)
      && after == before.(distance := Some(geo.sqrt(SqDist(before.pos, Points(layer)[k]))),
                          links := before.links[c := LinkTo(layer[k], before.pos, geo.haversine)])
  }

  lemma AttachSteps(rows: seq<Row>, c: Category, layer: seq<AssetRow>, geo: GeoOps, joined: seq<(Queried, Indexed)>)
    requires |layer| > 0 && NearestNeighbour(rows, layer, geo.sqrt) == Ok(joined)
    ensures forall i :: 0 <= i < |rows| ==> StepRow(rows[i], Attach(c, joined, geo.haversine)[i], c, layer, geo)
  {
    var out := Attach(c, joined, geo.haversine);
    forall i | 0 <= i < |rows|
      ensures StepRow(rows[i], out[i], c, layer, geo)
    {
      var k := joined[i].0.idNearest;
      assert IsNearest(Points(layer), rows[i].pos, k);
    }
  }

  /** Lines 67-68 (and their eight siblings): one category joined onto the household frame. */
  function CategoryStep(rows: seq<Row>, c: Category, layer: seq<AssetRow>, geo: GeoOps): (r: Result<seq<Row>, AccessError>)
    ensures r.Err? <==> |layer| == 0 || |rows| == 0
    ensures r.Ok? ==> |r.value| == |rows| && forall i :: 0 <= i < |rows| ==> StepRow(rows[i], r.value[i], c, layer, geo)
  {
    match NearestNeighbour(rows, layer, geo.sqrt)
    case Err(e) => Err(e)
    case Ok(joined) =>
      AttachSteps(rows, c, layer, geo, joined);
      Ok(Attach(c, joined, geo.haversine))
  }

  /**
   * The row `row` is the household row `base` after the categories `done` were processed, `last`
   * being the latest: the household and polder columns are those of `base`, the categories in
   * `done` are added, each linked to a nearest asset of its layer with the geodesic distance, no
   * other column changes, and the scratch `distance` is the index metric to the asset of `last`.
   */
  ghost predicate Accessed(base: Row, row: Row, done: set<Category>, last: Category, layers: map<Category, seq<AssetRow>>, geo: GeoOps) {
    && row.hh == base.hh && row.pos == base.pos && row.polder == base.polder && row.polderNo == base.polderNo
    && row.links.Keys == base.links.Keys + done
    && (forall c :: c in done ==> c in layers && IsNearestLink(layers[c], base.pos, geo.haversine, row.links[c]))
    && (forall c :: c in base.links && c !in done ==> row.links[c] == base.links[c])
    && (last in done ==> row.distance == Some(geo.sqrt(SqDist(base.pos, LinkPoint(row.links[last])))))
  }

  /** Every row of `rows` is the row of `base` at the same position after the categories `done`. */
  ghost predicate AllAccessed(base: seq<Row>, rows: seq<Row>, done: set<Category>, last: Category,
                              layers: map<Category, seq<AssetRow>>, geo: GeoOps) {
    && |rows| == |base|
    && forall i {:trigger Accessed(base[i], rows[i], done, last, layers, geo)} ::
         0 <= i < |base| ==> Accessed(base[i], rows[i], done, last, layers, geo)
  }

  /** One category step keeps a row accessed, with that category added and written last. */
  lemma AdvanceRow(base: Row, before: Row, after: Row, done: set<Category>, last: Category,
                   c: Category, layers: map<Category, seq<AssetRow>>, geo: GeoOps)
    requires c in layers && c !in done
    requires Accessed(base, before, done, last, layers, geo)
    requires StepRow(before, after, c, layers[c], geo)
    ensures Accessed(base, after, done + {c}, c, layers, geo)
  {
    var k :| IsNearest(Points(layers[c]), before.pos, k)
      && after == before.(distance := Some(geo.sqrt(SqDist(before.pos, Points(layers[c])[k]))),
                          links := before.links[c := LinkTo(layers[c][k], before.pos, geo.haversine)]);
    assert IsNearestLink(layers[c], base.pos, geo.haversine, after.links[c]);
    assert LinkPoint(after.links[c]) == Points(layers[c])[k];
  }

  lemma AdvanceAll(base: seq<Row>, before: seq<Row>, after: seq<Row>, done: set<Category>, last: Category,
                   c: Category, layers: map<Category, seq<AssetRow>>, geo: GeoOps)
    requires c in layers && c !in done
    requires AllAccessed(base, before, done, last, layers, geo)
    requires CategoryStep(before, c, layers[c], geo) == Ok(after)
    ensures AllAccessed(base, after, done + {c}, c, layers, geo)
  {
    forall i | 0 <= i < |base|
      ensures Accessed(base[i], after[i], done + {c}, c, layers, geo)
    {
      AdvanceRow(base[i], before[i], after[i], done, last, c, layers, geo);
    }
  }

  /**
   * `after` is `before` with the categories `added` linked: the household and polder columns and
   * every other link already on `before` are kept as they were.
   */
  ghost predicate Extends(before: Row, after: Row, added: set<Category>) {
    && after.hh == before.hh && after.pos == before.pos && after.polder == before.polder && after.polderNo == before.polderNo
    && after.links.Keys == before.links.Keys + added
    && forall c :: c in before.links && c !in added ==> after.links[c] == before.links[c]
  }

  /** Every row of `after` extends the row of `before` at the same position. */
  ghost predicate AllExtend(before: seq<Row>, after: seq<Row>, added: set<Category>) {
    && |after| == |before|
    && forall j {:trigger Extends(before[j], after[j], added)} :: 0 <= j < |before| ==> Extends(before[j], after[j], added)
  }

  /** A category step only adds that category's link (and overwrites `distance`). */
  lemma StepsExtend(before: seq<Row>, after: seq<Row>, c: Category, layer: seq<AssetRow>, geo: GeoOps)
    requires CategoryStep(before, c, layer, geo) == Ok(after)
    ensures AllExtend(before, after, {c})
  {
    forall j | 0 <= j < |before|
      ensures Extends(before[j], after[j], {c})
    {
      assert StepRow(before[j], after[j], c, layer, geo);
    }
  }

  /** Two extensions in a row are one extension by both sets of categories. */
  lemma ExtendTrans(a: seq<Row>, b: seq<Row>, d: seq<Row>, first: set<Category>, second: set<Category>, both: set<Category>)
    requires AllExtend(a, b, first) && AllExtend(b, d, second) && both == first + second
    ensures AllExtend(a, d, both)
  {
    forall j | 0 <= j < |a|
      ensures Extends(a[j], d[j], both)
    {
      assert Extends(a[j], b[j], first);
      assert Extends(b[j], d[j], second);
    }
  }

  /** The categories among the first `i` of `cats`. */
  function Done(cats: seq<Category>, i: nat): set<Category>
    requires i <= |cats|
  {
    if i == 0 then {} else Done(cats, i - 1) + {cats[i - 1]}
  }

  /** The script processes each category once. */
  lemma OrderDistinct()
    ensures Distinct(Order)
  {
  }

  /** In a run without repetitions, the category of step `k` is not among those before step `i <= k`. */
  lemma {:induction false} NotDone(cats: seq<Category>, i: nat, k: nat)
    requires i <= k < |cats| && Distinct(cats)
    ensures cats[k] !in Done(cats, i)
  {
    if i > 0 {
      NotDone(cats, i - 1, k);
    }
  }

  /** Before any category, a row is accessed by itself. */
  lemma NoneAccessed(base: seq<Row>, last: Category, layers: map<Category, seq<AssetRow>>, geo: GeoOps)
    ensures AllAccessed(base, base, {}, last, layers, geo)
  {
    forall i | 0 <= i < |base|
      ensures Accessed(base[i], base[i], {}, last, layers, geo)
    {
      assert base[i].links.Keys == base[i].links.Keys + {};
    }
  }

  /**
   * Lines 67-68 and their eight siblings: `gdf = nearest_neighbour(gdf, <layer of c>, ...)` and
   * the `dist_<c>` column for the category `cats[i]`, after the categories before it.
   */
  method JoinCategory(ghost base: seq<Row>, gdf: seq<Row>, cats: seq<Category>, i: nat, ghost last: Category,
                      layers: map<Category, seq<AssetRow>>, geo: GeoOps)
    returns (r: Result<seq<Row>, AccessError>)
    requires i < |cats| && (forall c :: c in cats ==> c in layers) && Distinct(cats)
    requires AllAccessed(base, gdf, Done(cats, i), last, layers, geo)
    ensures r.Ok? <==> |gdf| > 0 && |layers[cats[i]]| > 0
    ensures r.Ok? ==> |r.value| == |gdf|
    ensures r.Ok? ==> AllAccessed(base, r.value, Done(cats, i + 1), cats[i], layers, geo)
    ensures r.Ok? ==> AllExtend(gdf, r.value, {cats[i]})
  {
    r := CategoryStep(gdf, cats[i], layers[cats[i]], geo);
    if r.Ok? {
      StepsExtend(gdf, r.value, cats[i], layers[cats[i]], geo);
      NotDone(cats, i, i);
      AdvanceAll(base, gdf, r.value, Done(cats, i), last, cats[i], layers, geo);
    }
  }

  /** Lines 66-80: hospitals, health facilities, education and shelters, from the polder stage's frame. */
  method RunServices(base: seq<Row>, layers: map<Category, seq<AssetRow>>, geo: GeoOps)
    returns (r: Result<seq<Row>, AccessError>)
    requires forall c :: c in Order ==> c in layers
    ensures r.Ok? <==> (|base| > 0 && |layers[Order[0]]| > 0 && |layers[Order[1]]| > 0
                        && |layers[Order[2]]| > 0 && |layers[Order[3]]| > 0)
    ensures r.Ok? ==> |r.value| == |base| && AllAccessed(base, r.value, Done(Order, 4), Order[3], layers, geo)
  {
    NoneAccessed(base, RoadNode, layers, geo);
    OrderDistinct();
    var gdf := base;
    gdf :- JoinCategory(base, gdf, Order, 0, RoadNode, layers, geo);
    gdf :- JoinCategory(base, gdf, Order, 1, Order[0], layers, geo);
    gdf :- JoinCategory(base, gdf, Order, 2, Order[1], layers, geo);
    gdf :- JoinCategory(base, gdf, Order, 3, Order[2], layers, geo);
    r := Ok(gdf);
  }

  /** Lines 90-92 and 103-105: embankment points and growth centres. */
  method RunEmbankmentGrowth(ghost base: seq<Row>, gdf: seq<Row>, layers: map<Category, seq<AssetRow>>, geo: GeoOps)
    returns (r: Result<seq<Row>, AccessError>)
    requires forall c :: c in Order ==> c in layers
    requires AllAccessed(base, gdf, Done(Order, 4), Order[3], layers, geo)
    ensures r.Ok? <==> |gdf| > 0 && |layers[Order[4]]| > 0 && |layers[Order[5]]| > 0
    ensures r.Ok? ==> |r.value| == |gdf| && AllAccessed(base, r.value, Done(Order, 6), Order[5], layers, geo)
    ensures r.Ok? ==> AllExtend(gdf, r.value, {Order[4], Order[5]})
  {
    OrderDistinct();
    var g1 :- JoinCategory(base, gdf, Order, 4, Order[3], layers, geo);
    var g2 :- JoinCategory(base, g1, Order, 5, Order[4], layers, geo);
    ExtendTrans(gdf, g1, g2, {Order[4]}, {Order[5]}, {Order[4], Order[5]});
    r := Ok(g2);
  }

  /** Lines 111-121: substations, railway stations and road nodes. */
  method RunNetworks(ghost base: seq<Row>, gdf: seq<Row>, layers: map<Category, seq<AssetRow>>, geo: GeoOps)
    returns (r: Result<seq<Row>, AccessError>)
    requires forall c :: c in Order ==> c in layers
    requires AllAccessed(base, gdf, Done(Order, 6), Order[5], layers, geo)
    ensures r.Ok? <==> |gdf| > 0 && |layers[Order[6]]| > 0 && |layers[Order[7]]| > 0 && |layers[Order[8]]| > 0
    ensures r.Ok? ==> |r.value| == |gdf| && AllAccessed(base, r.value, Done(Order, 9), Order[8], layers, geo)
    ensures r.Ok? ==> AllExtend(gdf, r.value, {Order[6], Order[7], Order[8]})
  {
    OrderDistinct();
    var g1 :- JoinCategory(base, gdf, Order, 6, Order[5], layers, geo);
    var g2 :- JoinCategory(base, g1, Order, 7, Order[6], layers, geo);
    var g3 :- JoinCategory(base, g2, Order, 8, Order[7], layers, geo);
    ExtendTrans(gdf, g1, g2, {Order[6]}, {Order[7]}, {Order[6], Order[7]});
    ExtendTrans(gdf, g2, g3, {Order[6], Order[7]}, {Order[8]}, {Order[6], Order[7], Order[8]});
    r := Ok(g3);
  }

  /**
   * `run_accessibility`: the polder stage, then the categories in the source's order, each step
   * reassigning the household frame. It fails exactly when there is no household or some layer is
   * empty; otherwise every row of the polder stage survives once, with all nine categories linked
   * to a nearest asset and nothing else changed.
   */
  method RunAccessibility(data: seq<Household>, polygons: seq<Polygon>, layers: map<Category, seq<AssetRow>>, geo: GeoOps)
    returns (r: Result<seq<Row>, AccessError>)
    requires forall c :: c in Order ==> c in layers
    ensures r.Ok? <==> |data| > 0 && forall c :: c in Order ==> |layers[c]| > 0
    ensures r.Ok? ==> AllAccessed(PolderStage(data, polygons, geo), r.value, Done(Order, |Order|), RoadNode, layers, geo)
  {
    var base := PolderStage(data, polygons, geo);
    var gdf :- RunServices(base, layers, geo);
    gdf :- RunEmbankmentGrowth(base, gdf, layers, geo);
    r := RunNetworks(base, gdf, layers, geo);
  }
}
