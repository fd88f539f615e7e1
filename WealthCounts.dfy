/**
 * `infra_id_add`: households linked to an asset category, counted per asset and wealth group,
 * the five groups spread over the columns Q1..Q5 and summed per asset.
 */
module WealthCounts {
  import opened Wrappers
  import opened Sorting

  datatype Origin = Rural | Urban

  /** One linked household as the count sees it: its `wealth_group` and the id of its nearest asset. */
  datatype Tag = Tag(group: int, asset: int)

  /**
   * One row of `rural_infra` / `urban_infra` after the rename: `wealth[q]` is the column
   * `<origin>_wealthQ<q+1>` (missing when the asset has no household of that group), and
   * `households` is `<origin>_households`.
   */
  datatype SideRow = SideRow(wealth: seq<Option<nat>>, households: nat)

  /** `columns = wealth_<origin>_columns` on a frame whose number of columns is not five. */
  datatype CountError = ColumnCountMismatch(origin: Origin, groups: nat)

  function Groups(ts: seq<Tag>): (gs: seq<int>)
    ensures |gs| == |ts| && forall i :: 0 <= i < |ts| ==> gs[i] == ts[i].group
  {
    seq(|ts|, i requires 0 <= i < |ts| => ts[i].group)
  }

  /** The distinct wealth groups of the frame. */
  function GroupSet(ts: seq<Tag>): set<int> {
    set t | t in ts :: t.group
  }

  /** The ids of the assets with at least one linked household. */
  function AssetIds(ts: seq<Tag>): set<int> {
    set t | t in ts :: t.asset
  }

  /** The columns of the unstacked frame: the distinct wealth groups, ascending. */
  function SortedGroups(ts: seq<Tag>): (gs: seq<int>)
    ensures StrictlyIncreasing(gs)
    ensures forall g :: g in gs <==> g in GroupSet(ts)
    ensures |gs| == |GroupSet(ts)|
  {
    var gs := SortedDistinct(Groups(ts));
    assert forall g :: g in Groups(ts) <==> g in GroupSet(ts) by {
      forall g | g in Groups(ts) ensures g in GroupSet(ts) {
        var i :| 0 <= i < |ts| && Groups(ts)[i] == g;
        assert ts[i] in ts;
      }
      forall g | g in GroupSet(ts) ensures g in Groups(ts) {
        var t :| t in ts && t.group == g;
        var i :| 0 <= i < |ts| && ts[i] == t;
        assert Groups(ts)[i] == g;
      }
    }
    DistinctCard(gs);
    assert (set v | v in gs) == GroupSet(ts);
    gs
  }

  /** The number of households linked to asset `a`. */
  function CountAsset(ts: seq<Tag>, a: int): nat {
    if ts == [] then 0 else (if ts[0].asset == a then 1 else 0) + CountAsset(ts[1..], a)
  }

  /** `groupby(['wealth_group', id]).count()`: the number of households of group `g` linked to `a`. */
  function CountCell(ts: seq<Tag>, a: int, g: int): nat {
    if ts == [] then 0 else (if ts[0] == Tag(g, a) then 1 else 0) + CountCell(ts[1..], a, g)
  }

  /** A cell of the unstacked frame: the count, or missing when no household has that group and asset. */
  function Cell(ts: seq<Tag>, a: int, g: int): Option<nat> {
    if CountCell(ts, a, g) == 0 then None else Some(CountCell(ts, a, g))
  }

  /** `sum(axis = 1)`: the sum of the cells present in a row. */
  function RowSum(q: seq<Option<nat>>): nat {
    if q == [] then 0 else (match q[0] case None => 0 case Some(n) => n) + RowSum(q[1..])
  }

  /**
   * The group whose counts land in column Q<l+1>: the rural columns are named Q1..Q5 and the
   * urban ones Q5..Q1, both by position over the ascending groups.
   */
  function Label(origin: Origin, gs: seq<int>, l: nat): int
    requires |gs| == 5 && l < 5
  {
    match origin
    case Rural => gs[l]
    case Urban => gs[4 - l]
  }

  function SideRowOf(ts: seq<Tag>, a: int, gs: seq<int>, origin: Origin): SideRow
    requires |gs| == 5
  {
    var q := seq(5, l requires 0 <= l < 5 => Cell(ts, a, Label(origin, gs, l)));
    SideRow(q, RowSum(q))
  }

  /** Lines 15-18 (rural) and 21-24 (urban): count, unstack, rename and row-sum. */
  function SideTable(ts: seq<Tag>, origin: Origin): (r: Result<map<int, SideRow>, CountError>)
    ensures r.Err? <==> |GroupSet(ts)| != 5
    ensures r.Err? ==> r.error == ColumnCountMismatch(origin, |GroupSet(ts)|)
    ensures r.Ok? ==> r.value.Keys == AssetIds(ts)
  {
    var gs := SortedGroups(ts);
    if |gs| != 5 then Err(ColumnCountMismatch(origin, |gs|))
    else Ok(map a | a in AssetIds(ts) :: SideRowOf(ts, a, gs, origin))
  }

  /** `infra_id_add`: the rural table first, then the urban one. */
  function InfraIdAdd(rural: seq<Tag>, urban: seq<Tag>): (r: Result<(map<int, SideRow>, map<int, SideRow>), CountError>)
    ensures r.Err? <==> |GroupSet(rural)| != 5 || |GroupSet(urban)| != 5
    ensures r.Err? ==> r.error == if |GroupSet(rural)| != 5 then ColumnCountMismatch(Rural, |GroupSet(rural)|)
                                  else ColumnCountMismatch(Urban, |GroupSet(urban)|)
    ensures r.Ok? ==> Ok(r.value.0) == SideTable(rural, Rural) && Ok(r.value.1) == SideTable(urban, Urban)
  {
    var rt :- SideTable(rural, Rural);
    var ut :- SideTable(urban, Urban);
    Ok((rt, ut))
  }

  // ---- counting lemmas

  /** The sum of `CountCell` over the groups `gs`. */
  function SumCells(gs: seq<int>, ts: seq<Tag>, a: int): nat {
    if gs == [] then 0 else CountCell(ts, a, gs[0]) + SumCells(gs[1..], ts, a)
  }

  /** The sum of `CountAsset` over the ids `ks`. */
  function SumAssets(ks: seq<int>, ts: seq<Tag>): nat {
    if ks == [] then 0 else CountAsset(ts, ks[0]) + SumAssets(ks[1..], ts)
  }

  /** The number of occurrences of `x` in `s`. */
  function Occ(s: seq<int>, x: int): nat {
    if s == [] then 0 else (if s[0] == x then 1 else 0) + Occ(s[1..], x)
  }

  lemma {:induction false} OccDistinct(s: seq<int>, x: int)
    requires Distinct(s)
    ensures Occ(s, x) == if x in s then 1 else 0
  {
    if s != [] {
      assert Distinct(s[1..]) by {
        forall i, j | 0 <= i < j < |s[1..]| ensures s[1..][i] != s[1..][j] {
          assert s[1..][i] == s[i + 1] && s[1..][j] == s[j + 1];
        }
      }
      OccDistinct(s[1..], x);
      assert x in s <==> x == s[0] || x in s[1..];
    }
  }

  lemma {:induction false} SumCellsStep(gs: seq<int>, ts: seq<Tag>, a: int)
    requires ts != []
    ensures SumCells(gs, ts, a) == (if ts[0].asset == a then Occ(gs, ts[0].group) else 0) + SumCells(gs, ts[1..], a)
  {
    if gs != [] {
      SumCellsStep(gs[1..], ts, a);
    }
  }

  lemma {:induction false} SumAssetsStep(ks: seq<int>, ts: seq<Tag>)
    requires ts != []
    ensures SumAssets(ks, ts) == Occ(ks, ts[0].asset) + SumAssets(ks, ts[1..])
  {
    if ks != [] {
      SumAssetsStep(ks[1..], ts);
    }
  }

  /**
   * The row sum of line 17 counts every household of the asset once: summed over distinct groups
   * that include every group of the frame, the cells of `a` add up to the households linked to `a`.
   */
  lemma {:induction false} CellsSum(gs: seq<int>, ts: seq<Tag>, a: int)
    requires Distinct(gs) && forall t :: t in ts ==> t.group in gs
    ensures SumCells(gs, ts, a) == CountAsset(ts, a)
  {
    if ts == [] {
      SumCellsEmpty(gs, a);
    } else {
      SumCellsStep(gs, ts, a);
      OccDistinct(gs, ts[0].group);
      assert ts[0] in ts;
      CellsSum(gs, ts[1..], a);
    }
  }

  lemma {:induction false} SumCellsEmpty(gs: seq<int>, a: int)
    ensures SumCells(gs, [], a) == 0
  {
    if gs != [] {
      SumCellsEmpty(gs[1..], a);
    }
  }

  lemma {:induction false} SumAssetsEmpty(ks: seq<int>)
    ensures SumAssets(ks, []) == 0
  {
    if ks != [] {
      SumAssetsEmpty(ks[1..]);
    }
  }

  /** Summed over distinct ids that include every linked asset, the per-asset counts add up to the frame's length. */
  lemma {:induction false} AssetSum(ks: seq<int>, ts: seq<Tag>)
    requires Distinct(ks) && forall t :: t in ts ==> t.asset in ks
    ensures SumAssets(ks, ts) == |ts|
  {
    if ts == [] {
      SumAssetsEmpty(ks);
    } else {
      SumAssetsStep(ks, ts);
      OccDistinct(ks, ts[0].asset);
      assert ts[0] in ts;
      AssetSum(ks, ts[1..]);
    }
  }

  /** A linked asset has at least one household. */
  lemma {:induction false} CountAssetPositive(ts: seq<Tag>, a: int)
    requires a in AssetIds(ts)
    ensures CountAsset(ts, a) >= 1
  {
    if ts[0].asset != a {
      var t :| t in ts && t.asset == a;
      assert t in ts[1..];
      assert a in AssetIds(ts[1..]);
      CountAssetPositive(ts[1..], a);
    }
  }

  /** An asset without linked households has count 0, */
  lemma {:induction false} CountAssetZero(ts: seq<Tag>, a: int)
    requires a !in AssetIds(ts)
    ensures CountAsset(ts, a) == 0
  {
    if ts != [] {
      assert ts[0] in ts;
      assert AssetIds(ts[1..]) <= AssetIds(ts);
      CountAssetZero(ts[1..], a);
    }
  }

  /** and so has each of its cells. */
  lemma {:induction false} CountCellZero(ts: seq<Tag>, a: int, g: int)
    requires a !in AssetIds(ts)
    ensures CountCell(ts, a, g) == 0
  {
    if ts != [] {
      assert ts[0] in ts;
      assert AssetIds(ts[1..]) <= AssetIds(ts);
      CountCellZero(ts[1..], a, g);
    }
  }

  lemma RowSumFive(q: seq<Option<nat>>, c: seq<nat>)
    requires |q| == 5 && |c| == 5
    requires forall l :: 0 <= l < 5 ==> q[l] == if c[l] == 0 then None else Some(c[l])
    ensures RowSum(q) == c[0] + c[1] + c[2] + c[3] + c[4]
  {
    assert q[5..] == [];
    assert RowSum(q[4..]) == c[4] by { assert q[4..][1..] == q[5..]; }
    assert RowSum(q[3..]) == c[3] + c[4] by { assert q[3..][1..] == q[4..]; }
    assert RowSum(q[2..]) == c[2] + c[3] + c[4] by { assert q[2..][1..] == q[3..]; }
    assert RowSum(q[1..]) == c[1] + c[2] + c[3] + c[4] by { assert q[1..][1..] == q[2..]; }
  }

  lemma SumCellsFive(gs: seq<int>, ts: seq<Tag>, a: int)
    requires |gs| == 5
    ensures SumCells(gs, ts, a) == CountCell(ts, a, gs[0]) + CountCell(ts, a, gs[1]) + CountCell(ts, a, gs[2])
                                   + CountCell(ts, a, gs[3]) + CountCell(ts, a, gs[4])
  {
    assert gs[5..] == [];
    assert SumCells(gs[4..], ts, a) == CountCell(ts, a, gs[4]) by { assert gs[4..][1..] == gs[5..]; }
    assert SumCells(gs[3..], ts, a) == CountCell(ts, a, gs[3]) + SumCells(gs[4..], ts, a) by { assert gs[3..][1..] == gs[4..]; }
    assert SumCells(gs[2..], ts, a) == CountCell(ts, a, gs[2]) + SumCells(gs[3..], ts, a) by { assert gs[2..][1..] == gs[3..]; }
    assert SumCells(gs[1..], ts, a) == CountCell(ts, a, gs[1]) + SumCells(gs[2..], ts, a) by { assert gs[1..][1..] == gs[2..]; }
  }

  /**
   * What lines 15-18 and 21-24 compute. The column rename fails exactly when the frame does not
   * have five distinct wealth groups (the empty frame included). Otherwise the rows are exactly the
   * linked assets; the cell of column Q<l+1> holds the number of households of the asset in the
   * (l+1)-th smallest group (rural) or the (5-l)-th smallest (urban), missing when there is none;
   * and `<origin>_households` is the number of households linked to the asset.
   */
  lemma SideTableSpec(ts: seq<Tag>, origin: Origin)
    ensures SideTable(ts, origin).Err? <==> |GroupSet(ts)| != 5
    ensures SideTable(ts, origin).Err? ==> SideTable(ts, origin).error == ColumnCountMismatch(origin, |GroupSet(ts)|)
    ensures SideTable(ts, origin).Ok? ==>
      var t := SideTable(ts, origin).value;
      var gs := SortedGroups(ts);
      && t.Keys == AssetIds(ts)
      && forall a :: a in t ==>
           && |t[a].wealth| == 5
           && (forall l :: 0 <= l < 5 ==>
                 t[a].wealth[l] == (if CountCell(ts, a, Label(origin, gs, l)) == 0 then None
                                    else Some(CountCell(ts, a, Label(origin, gs, l)))))
           && t[a].households == CountAsset(ts, a) >= 1
  {
    var gs := SortedGroups(ts);
    if |gs| == 5 {
      var t := SideTable(ts, origin).value;
      IncreasingDistinct(gs);
      forall a | a in t
        ensures t[a].households == CountAsset(ts, a) >= 1
      {
        var c := seq(5, l requires 0 <= l < 5 => CountCell(ts, a, Label(origin, gs, l)));
        RowSumFive(t[a].wealth, c);
        SumCellsFive(gs, ts, a);
        CellsSum(gs, ts, a);
        CountAssetPositive(ts, a);
      }
    }
  }
}
