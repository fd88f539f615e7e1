/**
 * The polder flag: households are intersected with the embankment polygons, the hits are
 * outer-merged back onto the households on `hid`, and missing values become 0.
 */
module Polder {
  import opened Wrappers
  import opened Nearest
  import opened HouseholdTable
  import opened Sorting

  /** One row of `gdf_within_polder[['hid', 'polder', 'Polder no.']]`. */
  datatype Hit = Hit(hid: int, polder: int, polderNo: int)

  /** The number of polygons that contain `p`. */
  function CountInside(p: Point, polygons: seq<Polygon>, inside: (Point, Polygon) -> bool): nat {
    if polygons == [] then 0
    else (if inside(p, polygons[|polygons| - 1]) then 1 else 0) + CountInside(p, polygons[..|polygons| - 1], inside)
  }

  /** The polder numbers of the polygons that contain `p`, in polygon order, one per containing polygon. */
  function Containing(p: Point, polygons: seq<Polygon>, inside: (Point, Polygon) -> bool): (ns: seq<int>)
    ensures |ns| <= |polygons|
    ensures |ns| == CountInside(p, polygons, inside)
    ensures ns == [] <==> forall j :: 0 <= j < |polygons| ==> !inside(p, polygons[j])
    ensures forall n :: n in ns <==> exists j :: 0 <= j < |polygons| && inside(p, polygons[j]) && polygons[j].polderNo == n
  {
    if polygons == [] then []
    else
      var rest := Containing(p, polygons[1..], inside);
      assert forall j :: 1 <= j < |polygons| ==> polygons[j] == polygons[1..][j - 1];
      CountInsideFirst(p, polygons, inside);
      (if inside(p, polygons[0]) then [polygons[0].polderNo] else []) + rest
  }

  /** Counting from the first polygon gives the same number. */
  lemma {:induction false} CountInsideFirst(p: Point, polygons: seq<Polygon>, inside: (Point, Polygon) -> bool)
    requires polygons != []
    ensures CountInside(p, polygons, inside) == (if inside(p, polygons[0]) then 1 else 0) + CountInside(p, polygons[1..], inside)
  {
    if |polygons| > 1 {
      assert polygons[1..][..|polygons[1..]| - 1] == polygons[..|polygons| - 1][1..];
      assert polygons[..|polygons| - 1][0] == polygons[0];
      assert polygons[1..][|polygons[1..]| - 1] == polygons[|polygons| - 1];
      CountInsideFirst(p, polygons[..|polygons| - 1], inside);
    }
  }

  /** The intersection rows of one household: one per containing polygon, with `polder` set to 1. */
  function HitsFor(r: Row, polygons: seq<Polygon>, inside: (Point, Polygon) -> bool): seq<Hit> {
    var ns := Containing(r.pos, polygons, inside);
    seq(|ns|, j requires 0 <= j < |ns| => Hit(r.hh.hid, 1, ns[j]))
  }

  /** `gpd.overlay(gdf, embankment, how = 'intersection')` followed by `['polder'] = 1`, household by household. */
  function Intersections(gdf: seq<Row>, polygons: seq<Polygon>, inside: (Point, Polygon) -> bool): (hs: seq<Hit>)
    ensures forall h :: h in hs ==>
              && h.polder == 1
              && exists i :: 0 <= i < |gdf| && gdf[i].hh.hid == h.hid && h.polderNo in Containing(gdf[i].pos, polygons, inside)
  {
    if gdf == [] then []
    else
      var first := HitsFor(gdf[0], polygons, inside);
      var rest := Intersections(gdf[1..], polygons, inside);
      assert forall h :: h in first ==> h.hid == gdf[0].hh.hid && h.polder == 1 && h.polderNo in Containing(gdf[0].pos, polygons, inside);
      assert forall i :: 0 <= i < |gdf[1..]| ==> gdf[1..][i] == gdf[i + 1];
      first + rest
  }

  /** The hits that carry `hid` h, in order. */
  function WithHid(hits: seq<Hit>, h: int): seq<Hit> {
    if hits == [] then []
    else (if hits[0].hid == h then [hits[0]] else []) + WithHid(hits[1..], h)
  }

  /** The merged rows of one left row: one per matching hit, or one row whose missing polder columns became 0. */
  function MatchRows(l: Row, ms: seq<Hit>): seq<Row> {
    if ms == [] then [l.(polder := 0, polderNo := 0)]
    else seq(|ms|, j requires 0 <= j < |ms| => l.(polder := ms[j].polder, polderNo := ms[j].polderNo))
  }

  /** The part of the outer merge that comes from the left (household) rows. */
  function LeftPart(left: seq<Row>, hits: seq<Hit>): seq<Row> {
    if left == [] then []
    else MatchRows(left[0], WithHid(hits, left[0].hh.hid)) + LeftPart(left[1..], hits)
  }

  predicate HasHid(rows: seq<Row>, h: int) {
    exists i :: 0 <= i < |rows| && rows[i].hh.hid == h
  }

  /** A hit without a household: every household column is missing and becomes 0. */
  function ZeroRow(hit: Hit): Row {
    Row(Household(hit.hid, 0, 0.0, 0.0, 0, 0, 0), Point(0.0, 0.0), hit.polder, hit.polderNo, None, map[])
  }

  /** The part of the outer merge that comes from hits whose `hid` is in no household row. */
  function RightOnly(left: seq<Row>, hits: seq<Hit>): seq<Row> {
    if hits == [] then []
    else (if HasHid(left, hits[0].hid) then [] else [ZeroRow(hits[0])]) + RightOnly(left, hits[1..])
  }

  /** `gdf.merge(hits, on = 'hid', how = 'outer').replace(np.nan, 0)`. */
  function PolderMerge(left: seq<Row>, hits: seq<Hit>): (m: seq<Row>)
    ensures |m| >= |left|
    ensures (forall k :: 0 <= k < |hits| ==> HasHid(left, hits[k].hid)) ==> m == LeftPart(left, hits)
  {
    LeftPartLength(left, hits);
    if forall k :: 0 <= k < |hits| ==> HasHid(left, hits[k].hid) then
      RightOnlyEmpty(left, hits);
      LeftPart(left, hits) + RightOnly(left, hits)
    else
      LeftPart(left, hits) + RightOnly(left, hits)
  }

  /**
   * Lines 56-64: project, intersect with the polygons, merge the polder columns back. The stage has
   * at least one row per household and is empty exactly when there is none; when the `hid`s are
   * distinct it is the reference definition AllPolderRows of the projected frame.
   */
  function PolderStage(data: seq<Household>, polygons: seq<Polygon>, geo: GeoOps): (rows: seq<Row>)
    ensures |rows| >= |data|
    ensures |rows| == 0 <==> |data| == 0
    ensures Distinct(Hids(Project(data, geo.toWgs84))) ==>
              rows == AllPolderRows(Project(data, geo.toWgs84), polygons, geo.inside)
  {
    var gdf := Project(data, geo.toWgs84);
    var rows := PolderMerge(gdf, Intersections(gdf, polygons, geo.inside));
    if Distinct(Hids(gdf)) then
      PolderMergeIsPerHousehold(gdf, polygons, geo.inside);
      rows
    else
      rows
  }

  /**
   * Reference definition of the polder rows of one household: outside every polygon it gets
   * polder = 0 and Polder no. = 0; inside k >= 1 polygons it appears k times, each with
   * polder = 1, the j-th row carrying the number of the j-th containing polygon in polygon order.
   */
  function PolderRows(r: Row, polygons: seq<Polygon>, inside: (Point, Polygon) -> bool): (rows: seq<Row>)
    ensures (forall j :: 0 <= j < |polygons| ==> !inside(r.pos, polygons[j])) ==> rows == [r.(polder := 0, polderNo := 0)]
    ensures (exists j :: 0 <= j < |polygons| && inside(r.pos, polygons[j])) ==>
              && |rows| == |Containing(r.pos, polygons, inside)|
              && forall row :: row in rows ==>
                   && row == r.(polder := 1, polderNo := row.polderNo)
                   && exists j :: 0 <= j < |polygons| && inside(r.pos, polygons[j]) && polygons[j].polderNo == row.polderNo
    ensures (exists j :: 0 <= j < |polygons| && inside(r.pos, polygons[j])) ==>
              forall j :: 0 <= j < |rows| ==> rows[j] == r.(polder := 1, polderNo := Containing(r.pos, polygons, inside)[j])
  {
    var ns := Containing(r.pos, polygons, inside);
    if ns == [] then [r.(polder := 0, polderNo := 0)]
    else
      var rows := seq(|ns|, j requires 0 <= j < |ns| => r.(polder := 1, polderNo := ns[j]));
      assert forall j :: 0 <= j < |ns| ==> ns[j] in ns && rows[j].polderNo == ns[j];
      rows
  }

  function AllPolderRows(gdf: seq<Row>, polygons: seq<Polygon>, inside: (Point, Polygon) -> bool): seq<Row> {
    if gdf == [] then [] else PolderRows(gdf[0], polygons, inside) + AllPolderRows(gdf[1..], polygons, inside)
  }

  // ---------------------------------------------------------------- lemmas

  lemma {:induction false} RightOnlyEmpty(left: seq<Row>, hits: seq<Hit>)
    requires forall k :: 0 <= k < |hits| ==> HasHid(left, hits[k].hid)
    ensures RightOnly(left, hits) == []
  {
    if hits != [] {
      RightOnlyEmpty(left, hits[1..]);
    }
  }

  lemma {:induction false} WithHidConcat(a: seq<Hit>, b: seq<Hit>, h: int)
    ensures WithHid(a + b, h) == WithHid(a, h) + WithHid(b, h)
  {
    if a == [] {
      assert a + b == b;
    } else {
      var hd := if a[0].hid == h then [a[0]] else [];
      assert (a + b)[0] == a[0];
      assert (a + b)[1..] == a[1..] + b;
      assert WithHid(a + b, h) == hd + WithHid(a[1..] + b, h);
      WithHidConcat(a[1..], b, h);
      assert hd + (WithHid(a[1..], h) + WithHid(b, h)) == (hd + WithHid(a[1..], h)) + WithHid(b, h);
    }
  }

  lemma {:induction false} WithHidAll(hs: seq<Hit>, h: int)
    requires forall k :: 0 <= k < |hs| ==> hs[k].hid == h
    ensures WithHid(hs, h) == hs
  {
    if hs != [] {
      WithHidAll(hs[1..], h);
    }
  }

  lemma {:induction false} WithHidNone(hs: seq<Hit>, h: int)
    requires forall k :: 0 <= k < |hs| ==> hs[k].hid != h
    ensures WithHid(hs, h) == []
  {
    if hs != [] {
      WithHidNone(hs[1..], h);
    }
  }

  /** A `hid` that no household of the frame carries is in no intersection row. */
  lemma {:induction false} WithHidAbsent(gdf: seq<Row>, polygons: seq<Polygon>, inside: (Point, Polygon) -> bool, h: int)
    requires forall i :: 0 <= i < |gdf| ==> gdf[i].hh.hid != h
    ensures WithHid(Intersections(gdf, polygons, inside), h) == []
  {
    if gdf != [] {
      WithHidConcat(HitsFor(gdf[0], polygons, inside), Intersections(gdf[1..], polygons, inside), h);
      WithHidNone(HitsFor(gdf[0], polygons, inside), h);
      WithHidAbsent(gdf[1..], polygons, inside, h);
    }
  }

  /** With unique `hid`s, the intersection rows a household is matched with are exactly its own. */
  lemma {:induction false} WithHidIntersections(gdf: seq<Row>, polygons: seq<Polygon>, inside: (Point, Polygon) -> bool, i: nat)
    requires Distinct(Hids(gdf)) && i < |gdf|
    ensures WithHid(Intersections(gdf, polygons, inside), gdf[i].hh.hid) == HitsFor(gdf[i], polygons, inside)
  {
    var h := gdf[i].hh.hid;
    WithHidConcat(HitsFor(gdf[0], polygons, inside), Intersections(gdf[1..], polygons, inside), h);
    if i == 0 {
      WithHidAll(HitsFor(gdf[0], polygons, inside), h);
      WithHidAbsent(gdf[1..], polygons, inside, h);
    } else {
      WithHidNone(HitsFor(gdf[0], polygons, inside), h);
      assert gdf[1..][i - 1] == gdf[i];
      WithHidIntersections(gdf[1..], polygons, inside, i - 1);
    }
  }

  lemma {:induction false} LeftPartReference(left: seq<Row>, hits: seq<Hit>, polygons: seq<Polygon>, inside: (Point, Polygon) -> bool)
    requires forall i :: 0 <= i < |left| ==> WithHid(hits, left[i].hh.hid) == HitsFor(left[i], polygons, inside)
    ensures LeftPart(left, hits) == AllPolderRows(left, polygons, inside)
  {
    if left != [] {
      var r := left[0];
      var ms := HitsFor(r, polygons, inside);
      assert MatchRows(r, ms) == PolderRows(r, polygons, inside);
      assert forall i :: 1 <= i < |left| ==> left[1..][i - 1] == left[i];
      LeftPartReference(left[1..], hits, polygons, inside);
    }
  }

  /**
   * The outer merge of the intersection rows back onto households with unique `hid`s adds no row of
   * its own and gives every household exactly the rows of the reference definition PolderRows.
   */
  lemma PolderMergeIsPerHousehold(gdf: seq<Row>, polygons: seq<Polygon>, inside: (Point, Polygon) -> bool)
    requires Distinct(Hids(gdf))
    ensures PolderMerge(gdf, Intersections(gdf, polygons, inside)) == AllPolderRows(gdf, polygons, inside)
  {
    var hits := Intersections(gdf, polygons, inside);
    forall k | 0 <= k < |hits| ensures HasHid(gdf, hits[k].hid) {
      assert hits[k] in hits;
    }
    RightOnlyEmpty(gdf, hits);
    forall i | 0 <= i < |gdf|
      ensures WithHid(hits, gdf[i].hh.hid) == HitsFor(gdf[i], polygons, inside)
    {
      WithHidIntersections(gdf, polygons, inside, i);
    }
    LeftPartReference(gdf, hits, polygons, inside);
  }

  /**
   * Row count of the polder stage: never fewer rows than households, and exactly one row per
   * household when no household lies in two polygons (there is no de-duplication).
   */
  lemma {:induction false} PolderRowCount(gdf: seq<Row>, polygons: seq<Polygon>, inside: (Point, Polygon) -> bool)
    ensures |AllPolderRows(gdf, polygons, inside)| >= |gdf|
    ensures (forall i :: 0 <= i < |gdf| ==> |Containing(gdf[i].pos, polygons, inside)| <= 1) ==>
              |AllPolderRows(gdf, polygons, inside)| == |gdf|
  {
    if gdf != [] {
      assert forall i :: 1 <= i < |gdf| ==> gdf[1..][i - 1] == gdf[i];
      PolderRowCount(gdf[1..], polygons, inside);
    }
  }

  lemma {:induction false} LeftPartLength(left: seq<Row>, hits: seq<Hit>)
    ensures |LeftPart(left, hits)| >= |left|
  {
    if left != [] {
      LeftPartLength(left[1..], hits);
    }
  }
}
