# Household–infrastructure linkage for coastal Bangladesh, in Dafny

This project models the two table computations of the bangladesh-adaptation scripts that link
surveyed households to infrastructure assets, and proves properties of them.

**Nearest-asset linkage** (`scripts/infrastructure-services-nn.py`):

- Every asset layer gets positional ids by `reset_index`.
- `run_accessibility` projects the households and flags those inside embankment polygons. This is
  the polder stage: an intersection followed by an outer merge on `hid` that fills missing values
  with 0.
- It then threads the household frame through nine asset categories in a fixed order.
- Each step is `nearest_neighbour`: a `k = 1` ball-tree query in degree space, plus an inner merge
  on the returned position. It adds `id_<c>`, `Lat_<c>`, `Long_<c>` and a geodesic `dist_<c>`.

**Household-per-asset aggregation** (`scripts/hh-numbers-to-infrastructure.py`):

- The wealth data of each origin (rural, urban) is inner-merged with its linkage data on `hid`.
- For each category, `infra_id_add` counts the households of every (asset, wealth group) pair. It
  unstacks the five groups into columns: `Q1..Q5` for rural households, and the reverse `Q5..Q1`
  for urban ones. It then row-sums them into `<origin>_households`.
- The two origin tables are outer-merged on the asset id and NaN becomes 0. A `households` total is
  added, and the asset layer is inner-merged with the result.
- For substations only households with `electric_class == 1` are counted.

Module layout:

| file | module | content |
|---|---|---|
| `Wrappers.dfy` | `Wrappers` | `Option`, and `Result` with `:-` |
| `Frames.dfy` | `Frames` | pandas' inner merge, generic in its key functions |
| `Layers.dfy` | `Layers` | categories, asset rows, positional ids |
| `Nearest.dfy` | `Nearest` | the index metric, argmin, links |
| `HouseholdTable.dfy` | `HouseholdTable` | households, the geo frame, the library calls |
| `Polder.dfy` | `Polder` | the polder stage |
| `Accessibility.dfy` | `Accessibility` | `nearest_neighbour` and `run_accessibility` |
| `Sorting.dfy` | `Sorting` | the ascending order of unstacked column keys |
| `WealthCounts.dfy` | `WealthCounts` | `infra_id_add` |
| `AssetHouseholds.dfy` | `AssetHouseholds` | merge on `hid`, the per-category blocks, conservation |

Library calls the code relies on are parameters of the model, collected in a
`HouseholdTable.GeoOps` value:

- `to_crs` of a point;
- the point-in-polygon test inside `gpd.overlay`;
- the square root that turns the squared index distance into the tree's `distance`;
- the `haversine` function.

No property depends on what these functions compute. The nearest-asset contract uses the squared
Euclidean distance in degree space, which is the order the ball tree's default metric induces.

The final asset merge (`scripts/hh-numbers-to-infrastructure.py:187`, and the same at 195, 203,
211, 219, 232, 240 and 248) is pandas' default inner merge. Assets without a linked household
therefore do not appear in the output; they are not zero-filled. `AssetHouseholds.Kept` states
which assets remain.

## Model

| member | source | states |
|---|---|---|
| Layers.LoadLayer | scripts/infrastructure-services-nn.py:136-139 | the loaded layer has one row per feature, in order. The row at position i has id i, so ids are positional, distinct and ascending, and `Lat`/`Long` are the feature's y/x |
| Nearest.ArgNearest | scripts/infrastructure-services-nn.py:37-42 | a `k = 1` query over a non-empty point set returns a position in range whose squared degree distance to the query is ≤ that of every other point |
| Nearest.NearestLinkPositional | scripts/infrastructure-services-nn.py:43-45 | with positional ids, the `id_<c>` attached to a household is a position in range and a nearest asset. `Lat_<c>`/`Long_<c>` are that asset's coordinates, and `dist_<c>` is recomputed from the two coordinate pairs, not taken from the tree |
| Nearest.NearestDistanceUnique | scripts/infrastructure-services-nn.py:37-42 | whichever nearest asset a tie-break picks, its squared index distance (degree space) to the household is the same |
| Frames.InnerJoin | scripts/infrastructure-services-nn.py:45 | every merged row pairs a left row with a right row of equal key |
| Frames.InnerJoinComplete | scripts/hh-numbers-to-infrastructure.py:161-162 | every pair of a left row and a right row with equal keys is in the inner merge |
| Frames.JoinUniqueRight | scripts/hh-numbers-to-infrastructure.py:161-162 | when no right key repeats and every left key has a partner, the inner merge keeps one row per left row, in left order, each paired with the right row of its key |
| Frames.JoinPositional | scripts/infrastructure-services-nn.py:43-45 | when the right keys are the positions 0..n-1 and every left key is one of them, the inner merge keeps the left row count and attaches the right row at the key's position |
| Accessibility.Reindexed | scripts/infrastructure-services-nn.py:43 | `reset_index` gives the asset frame one row per asset, in order, the row at position i carrying `id_nearest = i` and that asset |
| Accessibility.QueryOne | scripts/infrastructure-services-nn.py:39-42 | one household's query answer is a nearest position. Only the `distance` column changes, and it becomes the index metric to that point |
| Accessibility.Query | scripts/infrastructure-services-nn.py:39-42 | the query answers every household row in order, each with a nearest position, and changes nothing but `distance` |
| Accessibility.NearestNeighbour | scripts/infrastructure-services-nn.py:30-46 | it fails exactly when the layer or the household frame is empty. Otherwise it keeps the household row count and order, changes only `distance`, and attaches a nearest asset to each row, found by its position |
| Accessibility.Attach | scripts/infrastructure-services-nn.py:67-68 | one output row per merged row: the household, position and polder columns and `distance` are kept, every earlier link is kept, and the category's link is added, pointing at the merged asset with `dist_<c>` by `haversine` from the household's coordinates |
| Accessibility.AttachSteps | scripts/infrastructure-services-nn.py:67-68 | after `drop(columns = ['id_nearest'])` and the distance column, each row is its input row with `distance` overwritten and the link to a nearest asset of the category added |
| Accessibility.CategoryStep | scripts/infrastructure-services-nn.py:67-68 | one category step fails exactly on an empty layer or frame. Otherwise it keeps the row count and performs the row step above on every row |
| Accessibility.JoinCategory | scripts/infrastructure-services-nn.py:67-121 | the next category of a repetition-free order, applied to a frame on which the earlier ones are done, gives a frame on which they and it are done. Relative to its input frame, each row keeps its household and polder columns and every link it already had, and gains exactly the link of that category |
| Accessibility.RunServices | scripts/infrastructure-services-nn.py:66-80 | hospitals, health, education and shelters succeed exactly when the frame and those four layers are non-empty. Then each row is its polder-stage row with those four links added |
| Accessibility.RunEmbankmentGrowth | scripts/infrastructure-services-nn.py:90-105 | embankment points and growth centres extend the frame with their two links, under the same failure condition. Relative to the input frame, the household and polder columns and every existing link are unchanged and exactly those two links are added |
| Accessibility.RunNetworks | scripts/infrastructure-services-nn.py:111-121 | substations, railway stations and road nodes extend the frame with their three links, under the same failure condition. Relative to the input frame, the household and polder columns and every existing link are unchanged and exactly those three links are added |
| Accessibility.StepsExtend | scripts/infrastructure-services-nn.py:67-68 | a category step keeps each row's household and polder columns and links, and adds exactly the category's link |
| Accessibility.ExtendTrans | scripts/infrastructure-services-nn.py:66-121 | two successive extensions of the frame are one extension by the union of the categories added |
| Accessibility.RunAccessibility | scripts/infrastructure-services-nn.py:48-123 | it fails exactly when there is no household or some layer is empty. Otherwise every polder-stage row survives once, in order, with all nine links to nearest assets. The household and polder columns are those of the polder-stage row, and `distance` belongs to the road-node step |
| HouseholdTable.Project | scripts/infrastructure-services-nn.py:56-59 | the geo frame has one row per household, keeps the household's columns, and places it at the reprojected `(Long, Lat)` |
| Polder.Containing | scripts/infrastructure-services-nn.py:62 | the polder numbers found are exactly those of the polygons containing the point, one per containing polygon (as many as `CountInside` counts). The list is empty exactly when no polygon contains it |
| Polder.PolderRows | scripts/infrastructure-services-nn.py:62-64 | a household in no polygon gets one row with `polder = 0` and `Polder no. = 0`. A household in some polygon gets one row per containing polygon, the j-th row carrying `polder = 1` and the number of the j-th containing polygon, and the same other columns |
| Polder.Intersections | scripts/infrastructure-services-nn.py:62-63 | every intersection row has `polder = 1` and pairs the `hid` of a household of the frame with the number of a polygon containing that household |
| Polder.PolderMerge | scripts/infrastructure-services-nn.py:64 | the outer merge never has fewer rows than the household frame, and when every intersection row names a household of the frame it adds no right-only row |
| Polder.PolderMergeIsPerHousehold | scripts/infrastructure-services-nn.py:64 | for households with distinct `hid`s, the outer merge of the intersection rows adds no row of its own. It equals the per-household rows above, in household order |
| Polder.PolderRowCount | scripts/infrastructure-services-nn.py:62-64 | the polder stage never has fewer rows than households, and it has exactly one per household when none lies in two polygons |
| Polder.PolderStage | scripts/infrastructure-services-nn.py:56-64 | the polder stage has at least one row per household and is empty exactly when there are no households. With distinct `hid`s it is the per-household rows of the projected frame, in household order |
| Sorting.SortedDistinct | scripts/hh-numbers-to-infrastructure.py:15 | the unstacked column keys are the distinct group values, strictly ascending |
| WealthCounts.SortedGroups | scripts/hh-numbers-to-infrastructure.py:15 | the wealth-group columns are the distinct `wealth_group` values, ascending. There are as many of them as distinct values |
| WealthCounts.SideTable | scripts/hh-numbers-to-infrastructure.py:15-18 | one origin's table fails exactly when there are not five groups, with that origin and the group count as error. Otherwise it has a row for exactly the linked asset ids |
| WealthCounts.SideTableSpec | scripts/hh-numbers-to-infrastructure.py:14-24 | renaming fails exactly when there are not five groups. Otherwise there is one row per linked asset id. The cell in column l counts the asset's households of the (l+1)-th group (rural) or of the (5-l)-th group (urban), and is missing when that count is 0. `<origin>_households` is the asset's household count, at least 1 |
| WealthCounts.InfraIdAdd | scripts/hh-numbers-to-infrastructure.py:13-26 | `infra_id_add` fails exactly when an origin lacks five groups, reporting the rural table first. Otherwise it returns both origins' tables |
| WealthCounts.CellsSum | scripts/hh-numbers-to-infrastructure.py:17 | summed over the distinct groups, an asset's cell counts are its household count |
| WealthCounts.AssetSum | scripts/hh-numbers-to-infrastructure.py:15 | summed over distinct asset ids covering every household, the per-asset counts add up to the number of households |
| WealthCounts.CountAssetZero | scripts/hh-numbers-to-infrastructure.py:15-18 | an asset no household links to has count 0 |
| WealthCounts.CountCellZero | scripts/hh-numbers-to-infrastructure.py:15-18 | an asset no household links to has count 0 in every wealth group |
| AssetHouseholds.MergeOnHid | scripts/hh-numbers-to-infrastructure.py:161-162 | the merged wealth and linkage frame holds exactly the pairs of a wealth row and a linkage row with the same `hid` |
| AssetHouseholds.MergeOnHidPerHousehold | scripts/hh-numbers-to-infrastructure.py:161-162 | with one linkage row per `hid` and a linkage row for every household, the merged frame has exactly one row per household of the wealth data, in its order, paired with that household's linkage row. The conservation results over merged rows then count each household once |
| AssetHouseholds.Served | scripts/hh-numbers-to-infrastructure.py:228 | the households counted for a category are the merged rows, keeping for substations only those with `electric_class == 1`, and never more rows than merged |
| AssetHouseholds.ServedAll | scripts/hh-numbers-to-infrastructure.py:183 | outside the substation block the counted rows are all merged rows, in order |
| AssetHouseholds.ServedCount | scripts/hh-numbers-to-infrastructure.py:228 | each merged row is counted as often as it occurs when it passes the category's filter, and not at all otherwise |
| AssetHouseholds.TagsOf | scripts/hh-numbers-to-infrastructure.py:15 | one grouping tag per counted household, in order, holding its `wealth_group` and its `id_<c>` |
| AssetHouseholds.Fill | scripts/hh-numbers-to-infrastructure.py:184 | `replace(np.nan, 0)` keeps the row length, keeps every present count and writes 0 for every missing one |
| AssetHouseholds.MergedRow | scripts/hh-numbers-to-infrastructure.py:184 | a merged row holds the filled wealth cells and the household count of each origin that has a row for the id, and zeros for an origin that has none |
| AssetHouseholds.OuterMergeFill | scripts/hh-numbers-to-infrastructure.py:184 | the outer merge has a row for exactly the ids of either origin's table |
| AssetHouseholds.AddHouseholds | scripts/hh-numbers-to-infrastructure.py:185 | adding `households` keeps every id and its merged columns, and sets `households` to the rural plus the urban household count |
| AssetHouseholds.SideDescribed | scripts/hh-numbers-to-infrastructure.py:184 | after the fill, an origin's table has a row for exactly its linked assets, with the wealth cells and total of the asset's households |
| AssetHouseholds.AbsentCounts | scripts/hh-numbers-to-infrastructure.py:184 | an asset with no household of an origin has zero counts of that origin, as the fill writes |
| AssetHouseholds.FilledTable | scripts/hh-numbers-to-infrastructure.py:183-185 | after the outer merge, the fill and the total, the ids are the union of both origins' linked assets. Every column of an id is its households' count, a missing side counting 0, and `households` is the sum of both origins |
| AssetHouseholds.TableConservation | scripts/hh-numbers-to-infrastructure.py:183-185 | summed over any repetition-free id list covering the linked assets, `households` adds up to the number of rural plus urban households counted |
| AssetHouseholds.Kept | scripts/hh-numbers-to-infrastructure.py:187 | the assets kept by the final merge are exactly those of the layer whose id has a row in the household table, never more than the layer holds |
| AssetHouseholds.KeptCount | scripts/hh-numbers-to-infrastructure.py:187 | each kept asset occurs as often as in the layer, and an asset whose id has no table row not at all |
| AssetHouseholds.KeptAscending | scripts/hh-numbers-to-infrastructure.py:187 | the merge keeps layer order: when the layer's ids ascend, as positional ids do, so do the kept assets' ids |
| AssetHouseholds.KeptDistinct | scripts/hh-numbers-to-infrastructure.py:187 | with distinct layer ids, each asset is written once |
| AssetHouseholds.AssetJoin | scripts/hh-numbers-to-infrastructure.py:187 | the inner merge onto the layer gives, in layer order, one output row per kept asset, with the asset's columns and its table row |
| AssetHouseholds.JoinTotal | scripts/hh-numbers-to-infrastructure.py:187 | the output's `households` total is the table's total over the layer's ids |
| AssetHouseholds.JoinedTable | scripts/hh-numbers-to-infrastructure.py:183-187 | for the counted households, the output keeps exactly the assets with a linked household, each with its counts. With distinct layer ids covering the linked assets, its `households` column sums to the number of households counted |
| AssetHouseholds.HouseholdsPerAsset | scripts/hh-numbers-to-infrastructure.py:183-187 | one category block fails exactly when an origin has not five wealth groups, and reports rural first. Otherwise it writes, in layer order, exactly the assets with a counted household, each with its per-origin and per-group counts and their total. With distinct layer ids covering the linked assets, the `households` column sums to the number of merged households counted: all of them outside the substation block, those with `electric_class == 1` in it |

## Left out

- `haversine` is a parameter (`GeoOps.haversine`) because it is transcendental floating-point arithmetic. Its value is never reasoned about.
- Reprojection (`points_from_xy`, `to_crs`) and the point-in-polygon test of `gpd.overlay` are parameters, because they are geometry library calls. Polygon shapes are carried but never inspected.
- The tree's `distance` column is `sqrt` of the squared degree distance, and `sqrt` is a parameter, because reals have no square root in the model. The argmin is stated on the squared distance, which orders points the same way.
- The ball tree's tie-breaking is not modelled, because library internals decide it. Every contract states "some nearest asset", and `Nearest.ArgNearest` picks the lowest position only to have a definition.
- Floating point is modelled as exact reals.
- `wealth_group` is modelled as an integer, sorted the way pandas sorts the column. A float or string `wealth_group` with the same order behaves the same.
- All file reading and writing is left out because it is I/O: shapefiles, CSV, the GeoPackage `to_file` output, the module-level loading of layers and households, and the `print` calls. The district loops that `concat` the per-district linkage files are left out for the same reason, and the model takes the concatenated frames as inputs.
- dask's lazy evaluation and `.compute()` are left out, because they do not change the values computed.
- The commented-out categories (roads, rural roads, cities, coast, electricity grid) are left out because they are dead code.
- `scripts/merge_road_damages.py` is left out because it is file handling around a one-line filter and a concat.
- The row order of pandas' outer merge in the polder stage depends on the pandas version (newer versions sort by key). The model keeps household order and puts intersection rows without a household last. Its contents are per household either way.
- `Frames.InnerJoin` lists the merged rows in left-row order, as pandas documents for an inner merge. The merge on `id_nearest` at `scripts/infrastructure-services-nn.py:45` can repeat left keys (two households with the same nearest asset); pandas before 2.2 groups such rows by `id_nearest` instead, and the model does not capture that order.
- In the aggregation, the merged table is a map, so the row order of the outer merge is not modelled. Only the final inner merge's order, which follows the layer, is stated.
- `nearest_neighbour` writes `distance` and `id_nearest` into the caller's frame in place (line 39) before the merge. The model returns a new frame instead: `run_accessibility` reassigns the frame at once, so the aliasing is not observable there. The scratch `id_nearest` on the caller's frame is the one thing not represented.
- The nine category steps of `run_accessibility` are grouped into three methods, split where the commented-out road blocks (lines 82-88) and the commented-out electricity-grid block (lines 107-109) interrupt the sequence; the order and every step are as in the script.
- One method parameterised by the category stands for the eight copied blocks at lines 183-248. The blocks differ only in the category, and in the electric filter of the substation block.
- Households whose linkage file lacks a category's id column do not occur in the model: the method requires every merged household to carry an id for the category, as the fixed column list read at lines 144 and 154 guarantees.
- The spread of NaN into columns other than the wealth counts is not modelled: the model's wealth cells are `Option`s and the filled cells are naturals.
