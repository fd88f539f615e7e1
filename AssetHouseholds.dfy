/**
 * The per-category blocks of the household aggregation: the households of both origins linked to
 * their nearest assets, counted per asset, merged into one table with a total, and attached to the
 * asset layer.
 */
module AssetHouseholds {
  import opened Wrappers
  import opened Frames
  import opened Layers
  import opened WealthCounts
  import opened Sorting

  /** One household of `<origin>_PCA_households.csv`: `hid`, `wealth_group`, `electric_class`. */
  datatype PcaRow = PcaRow(hid: int, wealthGroup: int, electric: int)

  /** One household of the accessibility output: `hid` and the id of its nearest asset per category. */
  datatype LinkRow = LinkRow(hid: int, ids: map<Category, int>)

  function PcaKey(p: PcaRow): int {
    p.hid
  }

  function LinkKey(l: LinkRow): int {
    l.hid
  }

  /** Lines 161-162: the wealth data merged with the accessibility data on `hid`. */
  function MergeOnHid(pca: seq<PcaRow>, links: seq<LinkRow>): (m: seq<(PcaRow, LinkRow)>)
    ensures forall p, l :: (p, l) in m <==> p in pca && l in links && p.hid == l.hid
  {
    var m := InnerJoin(pca, links, PcaKey, LinkKey);
    assert forall p, l :: p in pca && l in links && p.hid == l.hid ==> (p, l) in m by {
      forall p, l | p in pca && l in links && p.hid == l.hid ensures (p, l) in m {
        InnerJoinComplete(pca, links, PcaKey, LinkKey, p, l);
      }
    }
    m
  }

  /**
   * Lines 161-162 when the linkage data has one row per `hid` and a row for every household of the
   * wealth data: the merge keeps each household once, in the order of the wealth data, paired with
   * its own linkage row.
   */
  lemma MergeOnHidPerHousehold(pca: seq<PcaRow>, links: seq<LinkRow>)
    requires Distinct(Keys(links, LinkKey))
    requires forall p :: p in pca ==> exists l :: l in links && l.hid == p.hid
    ensures |MergeOnHid(pca, links)| == |pca|
    ensures forall i :: 0 <= i < |pca| ==>
              && MergeOnHid(pca, links)[i].0 == pca[i]
              && MergeOnHid(pca, links)[i].1 in links
              && MergeOnHid(pca, links)[i].1.hid == pca[i].hid
  {
    var ks := Keys(links, LinkKey);
    forall i | 0 <= i < |pca| ensures PcaKey(pca[i]) in ks {
      assert pca[i] in pca;
      var l :| l in links && l.hid == pca[i].hid;
      var k :| 0 <= k < |links| && links[k] == l;
      assert ks[k] == l.hid;
    }
    JoinUniqueRight(pca, links, PcaKey, LinkKey);
  }

  /** The households counted for category `c`: for substations only those with `electric_class == 1`. */
  function Served(rows: seq<(PcaRow, LinkRow)>, c: Category): (s: seq<(PcaRow, LinkRow)>)
    ensures |s| <= |rows|
    ensures forall x :: x in s <==> x in rows && (c == Substation ==> x.0.electric == 1)
  {
    if rows == [] then []
    else
      var rest := Served(rows[1..], c);
      assert forall x :: x in rows <==> x == rows[0] || x in rows[1..];
      (if c != Substation || rows[0].0.electric == 1 then [rows[0]] else []) + rest
  }

  /** Outside the substation block every merged household is counted, in order. */
  lemma {:induction false} ServedAll(rows: seq<(PcaRow, LinkRow)>, c: Category)
    requires c != Substation
    ensures Served(rows, c) == rows
  {
    if rows != [] {
      ServedAll(rows[1..], c);
      assert rows == [rows[0]] + rows[1..];
    }
  }

  /** The electric filter keeps each counted household as often as it is merged, and drops the others. */
  lemma {:induction false} ServedCount(rows: seq<(PcaRow, LinkRow)>, c: Category)
    ensures forall x :: multiset(Served(rows, c))[x] == if c != Substation || x.0.electric == 1 then multiset(rows)[x] else 0
  {
    if rows != [] {
      ServedCount(rows[1..], c);
      assert rows == [rows[0]] + rows[1..];
    }
  }

  /** The `wealth_group` and `id_<c>` columns the count groups by. */
  function TagsOf(rows: seq<(PcaRow, LinkRow)>, c: Category): (ts: seq<Tag>)
    requires forall x :: x in rows ==> c in x.1.ids
    ensures |ts| == |rows|
    ensures forall i :: 0 <= i < |rows| ==> ts[i] == Tag(rows[i].0.wealthGroup, rows[i].1.ids[c])
  {
    seq(|rows|, i requires 0 <= i < |rows| => Tag(rows[i].0.wealthGroup, rows[i].1.ids[c]))
  }

  /** A row of `<c>_hh` after the outer merge and the fill: both origins' wealth columns and households. */
  datatype Merged = Merged(ruralQ: seq<nat>, ruralHouseholds: nat, urbanQ: seq<nat>, urbanHouseholds: nat)

  /** A row of `<c>_hh` with the `households` column. */
  datatype Counts = Counts(merged: Merged, households: nat)

  /** A row of the written asset layer: the asset's own columns and its household counts. */
  datatype Output = Output(asset: AssetRow, counts: Counts)

  /** `replace(np.nan, 0)` on the wealth columns of a row. */
  function Fill(q: seq<Option<nat>>): (f: seq<nat>)
    ensures |f| == |q|
    ensures forall i :: 0 <= i < |q| ==> f[i] == if q[i].Some? then q[i].value else 0
  {
    seq(|q|, i requires 0 <= i < |q| => match q[i] case None => 0 case Some(n) => n)
  }

  const Zeros: seq<nat> := [0, 0, 0, 0, 0]

  /**
   * Line 184: `merge(..., on = [id], how = 'outer').replace(np.nan, 0)`. The ids are those of
   * either side, and the columns of a side that has no row for an id become 0.
   */
  function OuterMergeFill(rt: map<int, SideRow>, ut: map<int, SideRow>): (m: map<int, Merged>)
    ensures m.Keys == rt.Keys + ut.Keys
  {
    map a | a in rt.Keys + ut.Keys :: MergedRow(rt, ut, a)
  }

  /** The merged and filled row of id `a`: a side without a row for `a` contributes zeros. */
  function MergedRow(rt: map<int, SideRow>, ut: map<int, SideRow>, a: int): (m: Merged)
    ensures a in rt ==> m.ruralQ == Fill(rt[a].wealth) && m.ruralHouseholds == rt[a].households
    ensures a !in rt ==> m.ruralQ == Zeros && m.ruralHouseholds == 0
    ensures a in ut ==> m.urbanQ == Fill(ut[a].wealth) && m.urbanHouseholds == ut[a].households
    ensures a !in ut ==> m.urbanQ == Zeros && m.urbanHouseholds == 0
  {
    Merged(if a in rt then Fill(rt[a].wealth) else Zeros, if a in rt then rt[a].households else 0,
           if a in ut then Fill(ut[a].wealth) else Zeros, if a in ut then ut[a].households else 0)
  }

  /** Line 185: `households = rural_households + urban_households`. */
  function AddHouseholds(m: map<int, Merged>): (t: map<int, Counts>)
    ensures t.Keys == m.Keys
    ensures forall a :: a in t ==> t[a].merged == m[a] && t[a].households == m[a].ruralHouseholds + m[a].urbanHouseholds
  {
    map a | a in m :: WithTotal(m[a])
  }

  function WithTotal(m: Merged): Counts {
    Counts(m, m.ruralHouseholds + m.urbanHouseholds)
  }

  /**
   * The assets whose id is in `ids`, in layer order. KeptCount, KeptAscending and KeptDistinct
   * below state the multiplicities, the order and the distinctness of ids.
   */
  function Kept(assets: seq<AssetRow>, ids: set<int>): (k: seq<AssetRow>)
    ensures |k| <= |assets|
    ensures forall a :: a in k <==> a in assets && a.id in ids
    ensures forall i :: 0 <= i < |k| ==> k[i].id in ids
  {
    if assets == [] then []
    else
      var rest := Kept(assets[1..], ids);
      assert forall a :: a in assets <==> a == assets[0] || a in assets[1..];
      (if assets[0].id in ids then [assets[0]] else []) + rest
  }

  /** Each kept asset occurs as often as in the layer. */
  lemma {:induction false} KeptCount(assets: seq<AssetRow>, ids: set<int>)
    ensures forall a :: multiset(Kept(assets, ids))[a] == if a.id in ids then multiset(assets)[a] else 0
  {
    if assets != [] {
      KeptCount(assets[1..], ids);
      assert assets == [assets[0]] + assets[1..];
    }
  }

  /** The kept assets are in layer order: ascending ids (such as positional ones) stay ascending. */
  lemma {:induction false} KeptAscending(assets: seq<AssetRow>, ids: set<int>)
    requires StrictlyIncreasing(Ids(assets))
    ensures StrictlyIncreasing(Ids(Kept(assets, ids)))
  {
    if assets != [] {
      KeptAscending(assets[1..], ids);
      assert forall a :: a in Kept(assets[1..], ids) ==> a in assets[1..];
      assert forall a :: a in assets[1..] ==> assets[0].id < a.id;
    }
  }

  /** The final merge writes each asset of a layer with distinct ids once. */
  lemma {:induction false} KeptDistinct(assets: seq<AssetRow>, ids: set<int>)
    requires Distinct(Ids(assets))
    ensures Distinct(Ids(Kept(assets, ids)))
  {
    if assets != [] {
      KeptDistinct(assets[1..], ids);
      assert forall a :: a in Kept(assets[1..], ids) ==> a in assets[1..];
      assert forall a :: a in assets[1..] ==> assets[0].id != a.id;
    }
  }

  /**
   * Line 187: `<layer>.merge(<c>_hh, on = [id])`, the default inner merge. The output keeps the
   * assets whose id has a row in the table, in layer order, each with that row.
   */
  function AssetJoin(assets: seq<AssetRow>, t: map<int, Counts>): (out: seq<Output>)
    ensures |out| == |Kept(assets, t.Keys)|
    ensures forall i :: 0 <= i < |out| ==> out[i] == Output(Kept(assets, t.Keys)[i], t[Kept(assets, t.Keys)[i].id])
  {
    if assets == [] then []
    else
      var rest := AssetJoin(assets[1..], t);
      var k := Kept(assets, t.Keys);
      var krest := Kept(assets[1..], t.Keys);
      if assets[0].id in t then
        var out := [Output(assets[0], t[assets[0].id])] + rest;
        assert k == [assets[0]] + krest;
        assert forall i :: 1 <= i < |out| ==> out[i] == rest[i - 1] && k[i] == krest[i - 1];
        out
      else
        assert k == krest;
        rest
  }

  /** The sum of the `households` column of an output layer. */
  function TotalHouseholds(out: seq<Output>): nat {
    if out == [] then 0 else out[0].counts.households + TotalHouseholds(out[1..])
  }

  /** The sum of the `households` column of the table over the listed ids. */
  function TableTotal(ks: seq<int>, t: map<int, Counts>): nat {
    if ks == [] then 0 else (if ks[0] in t then t[ks[0]].households else 0) + TableTotal(ks[1..], t)
  }

  /** The ids of a layer, in order. */
  /** The filled wealth columns of asset `a`: column Q<l+1> holds the count of the group `Label(origin, gs, l)`. */
  function CountsOf(ts: seq<Tag>, a: int, origin: Origin): seq<nat>
    requires |GroupSet(ts)| == 5
  {
    seq(5, l requires 0 <= l < 5 => CountCell(ts, a, Label(origin, SortedGroups(ts), l)))
  }

  /** The row asset `a` should have: the counts of its households of either origin and their sum. */
  function Expected(rural: seq<Tag>, urban: seq<Tag>, a: int): Counts
    requires |GroupSet(rural)| == 5 && |GroupSet(urban)| == 5
  {
    Counts(Merged(CountsOf(rural, a, Rural), CountAsset(rural, a), CountsOf(urban, a, Urban), CountAsset(urban, a)),
           CountAsset(rural, a) + CountAsset(urban, a))
  }

  /** `t` has a row for exactly the linked assets, each filled with the counts of its households. */
  predicate Describes(ts: seq<Tag>, origin: Origin, t: map<int, SideRow>) {
    && |GroupSet(ts)| == 5
    && t.Keys == AssetIds(ts)
    && forall a :: a in t ==> Fill(t[a].wealth) == CountsOf(ts, a, origin) && t[a].households == CountAsset(ts, a)
  }

  /** A side table, once the fill has run, describes its tags. */
  lemma SideDescribed(ts: seq<Tag>, origin: Origin, t: map<int, SideRow>)
    requires SideTable(ts, origin) == Ok(t)
    ensures Describes(ts, origin, t)
  {
    SideTableSpec(ts, origin);
    forall a | a in t ensures Fill(t[a].wealth) == CountsOf(ts, a, origin) {
    }
  }

  /** An asset without households of an origin has zero counts of that origin. */
  lemma AbsentCounts(ts: seq<Tag>, origin: Origin, a: int)
    requires |GroupSet(ts)| == 5 && a !in AssetIds(ts)
    ensures CountsOf(ts, a, origin) == Zeros && CountAsset(ts, a) == 0
  {
    CountAssetZero(ts, a);
    forall l | 0 <= l < 5 ensures CountsOf(ts, a, origin)[l] == 0 {
      CountCellZero(ts, a, Label(origin, SortedGroups(ts), l));
    }
  }

  /** One side's part of the merged row of id `a`: the counts of its households there, or zeros. */
  lemma SideOfRow(ts: seq<Tag>, origin: Origin, t: map<int, SideRow>, a: int)
    requires Describes(ts, origin, t)
    ensures (if a in t then Fill(t[a].wealth) else Zeros) == CountsOf(ts, a, origin)
    ensures (if a in t then t[a].households else 0) == CountAsset(ts, a)
  {
    if a !in t {
      AbsentCounts(ts, origin, a);
    }
  }

  /** The row of one id after the outer merge, the fill and the total. */
  lemma FilledRow(rural: seq<Tag>, urban: seq<Tag>, rt: map<int, SideRow>, ut: map<int, SideRow>, a: int)
    requires Describes(rural, Rural, rt) && Describes(urban, Urban, ut)
    ensures WithTotal(MergedRow(rt, ut, a)) == Expected(rural, urban, a)
  {
    SideOfRow(rural, Rural, rt, a);
    SideOfRow(urban, Urban, ut, a);
  }

  /** The filled table of two described sides. */
  lemma DescribedTable(rural: seq<Tag>, urban: seq<Tag>, rt: map<int, SideRow>, ut: map<int, SideRow>)
    requires Describes(rural, Rural, rt) && Describes(urban, Urban, ut)
    ensures AddHouseholds(OuterMergeFill(rt, ut)).Keys == AssetIds(rural) + AssetIds(urban)
    ensures forall a :: a in AddHouseholds(OuterMergeFill(rt, ut)) ==>
              AddHouseholds(OuterMergeFill(rt, ut))[a] == Expected(rural, urban, a)
  {
    var t := AddHouseholds(OuterMergeFill(rt, ut));
    forall a | a in t ensures t[a] == Expected(rural, urban, a) {
      assert t[a] == WithTotal(MergedRow(rt, ut, a));
      FilledRow(rural, urban, rt, ut, a);
    }
  }

  /**
   * Lines 183-185: after the outer merge, the fill and the total, the ids are those linked on
   * either side, and every column of an id is the count of its households, a missing side counting 0.
   */
  lemma FilledTable(rural: seq<Tag>, urban: seq<Tag>, rt: map<int, SideRow>, ut: map<int, SideRow>)
    requires InfraIdAdd(rural, urban) == Ok((rt, ut))
    ensures |GroupSet(rural)| == 5 && |GroupSet(urban)| == 5
    ensures AddHouseholds(OuterMergeFill(rt, ut)).Keys == AssetIds(rural) + AssetIds(urban)
    ensures forall a :: a in AddHouseholds(OuterMergeFill(rt, ut)) ==>
              AddHouseholds(OuterMergeFill(rt, ut))[a] == Expected(rural, urban, a)
  {
    SideDescribed(rural, Rural, rt);
    SideDescribed(urban, Urban, ut);
    DescribedTable(rural, urban, rt, ut);
  }

  /**
   * Conservation, lines 183-185: summed over any repetition-free list of ids that holds every
   * linked asset, `households` adds up to the number of rural plus urban households counted.
   */
  lemma {:induction false} TableConservation(rural: seq<Tag>, urban: seq<Tag>, rt: map<int, SideRow>, ut: map<int, SideRow>, ks: seq<int>)
    requires InfraIdAdd(rural, urban) == Ok((rt, ut))
    requires Distinct(ks) && forall x :: x in rural + urban ==> x.asset in ks
    ensures TableTotal(ks, AddHouseholds(OuterMergeFill(rt, ut))) == |rural| + |urban|
  {
    FilledTable(rural, urban, rt, ut);
    TableSums(ks, AddHouseholds(OuterMergeFill(rt, ut)), rural, urban);
    forall x | x in rural ensures x.asset in ks {
      assert x in rural + urban;
    }
    forall x | x in urban ensures x.asset in ks {
      assert x in rural + urban;
    }
    AssetSum(ks, rural);
    AssetSum(ks, urban);
  }

  /** When every row of the table holds the two counts' sum, so does the total over any ids. */
  lemma {:induction false} TableSums(ks: seq<int>, t: map<int, Counts>, rural: seq<Tag>, urban: seq<Tag>)
    requires t.Keys == AssetIds(rural) + AssetIds(urban)
    requires forall a :: a in t ==> t[a].households == CountAsset(rural, a) + CountAsset(urban, a)
    ensures TableTotal(ks, t) == SumAssets(ks, rural) + SumAssets(ks, urban)
  {
    if ks != [] {
      TableSums(ks[1..], t, rural, urban);
      if ks[0] !in t {
        CountAssetZero(rural, ks[0]);
        CountAssetZero(urban, ks[0]);
      }
    }
  }

  /** The output's `households` total is the table's total over the layer's ids. */
  lemma {:induction false} JoinTotal(assets: seq<AssetRow>, t: map<int, Counts>)
    ensures TotalHouseholds(AssetJoin(assets, t)) == TableTotal(Ids(assets), t)
  {
    if assets != [] {
      JoinTotal(assets[1..], t);
      var out := AssetJoin(assets, t);
      var rest := AssetJoin(assets[1..], t);
      assert Ids(assets)[0] == assets[0].id && Ids(assets)[1..] == Ids(assets[1..]);
      if assets[0].id in t {
        assert out == [Output(assets[0], t[assets[0].id])] + rest;
        assert out[1..] == rest;
      } else {
        assert out == rest;
      }
    }
  }

  /**
   * Lines 183-187 on the counted tags: the asset layer joined with the filled table keeps, in
   * layer order, the assets with a linked household, each with the counts it should have; and with
   * distinct layer ids covering every linked asset, `households` adds up to the tags counted.
   */
  lemma JoinedTable(rt: seq<Tag>, ut: seq<Tag>, sides: (map<int, SideRow>, map<int, SideRow>), assets: seq<AssetRow>)
    requires InfraIdAdd(rt, ut) == Ok(sides)
    ensures |GroupSet(rt)| == 5 && |GroupSet(ut)| == 5
    ensures var out := AssetJoin(assets, AddHouseholds(OuterMergeFill(sides.0, sides.1)));
      var kept := Kept(assets, AssetIds(rt) + AssetIds(ut));
      && |out| == |kept|
      && (forall i :: 0 <= i < |kept| ==> out[i] == Output(kept[i], Expected(rt, ut, kept[i].id)))
      && (Distinct(Ids(assets)) && (forall x: Tag :: x in rt + ut ==> x.asset in Ids(assets)) ==>
            TotalHouseholds(out) == |rt| + |ut|)
  {
    var table := AddHouseholds(OuterMergeFill(sides.0, sides.1));
    var kept := Kept(assets, AssetIds(rt) + AssetIds(ut));
    FilledTable(rt, ut, sides.0, sides.1);
    forall i | 0 <= i < |kept| ensures table[kept[i].id] == Expected(rt, ut, kept[i].id) {
      assert kept[i] in kept;
    }
    JoinTotal(assets, table);
    if Distinct(Ids(assets)) && (forall x: Tag :: x in rt + ut ==> x.asset in Ids(assets)) {
      TableConservation(rt, ut, sides.0, sides.1, Ids(assets));
    }
  }

  /**
   * One category block, lines 183-187 (and their seven siblings), on the merged household
   * frames of lines 161-162: count both origins, merge, fill, total and attach to the layer.
   * It fails exactly when an origin does not have five wealth groups among its counted households
   * (rural checked first); otherwise the output holds, in layer order, exactly the assets with a
   * counted household, each with the counts of its households per origin and wealth column; and
   * when the ids of the layer are distinct and the households' ids are among them, the
   * `households` column adds up to the number of households counted.
   */
  method HouseholdsPerAsset(rural: seq<(PcaRow, LinkRow)>, urban: seq<(PcaRow, LinkRow)>, c: Category, assets: seq<AssetRow>)
    returns (r: Result<seq<Output>, CountError>)
    requires forall x :: x in rural ==> c in x.1.ids
    requires forall x :: x in urban ==> c in x.1.ids
    ensures var rt := TagsOf(Served(rural, c), c);
      var ut := TagsOf(Served(urban, c), c);
      && (r.Err? <==> |GroupSet(rt)| != 5 || |GroupSet(ut)| != 5)
      && (r.Err? ==> r.error == if |GroupSet(rt)| != 5 then ColumnCountMismatch(Rural, |GroupSet(rt)|)
                                else ColumnCountMismatch(Urban, |GroupSet(ut)|))
      && (r.Ok? ==>
            var kept := Kept(assets, AssetIds(rt) + AssetIds(ut));
            && |r.value| == |kept|
            && forall i :: 0 <= i < |kept| ==> r.value[i] == Output(kept[i], Expected(rt, ut, kept[i].id)))
      && (r.Ok? && Distinct(Ids(assets)) && (forall x: Tag :: x in rt + ut ==> x.asset in Ids(assets)) ==>
            TotalHouseholds(r.value) == |Served(rural, c)| + |Served(urban, c)|)
      && (r.Ok? && c != Substation && Distinct(Ids(assets)) && (forall x: Tag :: x in rt + ut ==> x.asset in Ids(assets)) ==>
            TotalHouseholds(r.value) == |rural| + |urban|)
  {
    var rt := TagsOf(Served(rural, c), c);
    var ut := TagsOf(Served(urban, c), c);
    var sides :- InfraIdAdd(rt, ut);
    var table := AddHouseholds(OuterMergeFill(sides.0, sides.1));
    JoinedTable(rt, ut, sides, assets);
    if c != Substation {
      ServedAll(rural, c);
      ServedAll(urban, c);
    }
    r := Ok(AssetJoin(assets, table));
  }
}
