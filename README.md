# flood-tool: the k-d tree and the proximity analysis, in Dafny

This project models the algorithmic core of flood-tool:

- the two-dimensional k-d tree of `flood_tool/algorithms/kdtree.py`: building by alternating
  axis and median split, the pruned radius query, and the count query;
- `perform_analysis` of `flood_tool/analysis.py`. It validates its parameters and projects
  buildings and water nodes around the buildings' mean position. A building is vulnerable
  when a water node lies within the threshold distance. A vulnerable building is a hotspot
  when at least `hotspot_min_neighbors` vulnerable buildings, itself included, lie within the
  hotspot radius. The hotspots are ranked densest first.

Files, one module each:

- `wrappers.dfy`: `Option` and `Result`.
- `sorting.dfy`: the stable sort by a real-valued key. Python's `list.sort` is stable, and a
  stable sort has exactly one possible output, so this definition gives the same result.
- `kdtree.dfy`: points, the tree datatype, `Build` and `Query` as recursive functions, the
  linear scan `WithinRadius` they are proved against, and the `KDTree` class. The class
  constructor sorts the caller's array in place by x, as `_build_tree` does to the caller's
  list at the top level.
- `analysis.dfy`: the specification function `Analyze` and the imperative `PerformAnalysis`.
  `PerformAnalysis` has its three loops and its two `KDTree` objects, and is proved equal to
  `Analyze`. The lemmas state what the analysis promises.
- `scenarios.dfy`: the situations in `tests/test_kdtree.py` and `tests/test_analysis.py`,
  stated as lemmas, plus one method that builds and queries a `KDTree` object.

Modelling choices:

- Coordinates are `real`. The default distance test `sqrt(dx² + dy²) <= r` is written exactly
  as `0 <= r && dx² + dy² <= r²`.
- The pluggable `distance_func` is an `Option` of a function. Soundness of the query holds for
  every metric. Completeness needs the metric to be at least the gap on each axis
  (`Admissible`); the source does not check this.
- `project_to_meters` is a function parameter (`Projector`). The reference point is the exact
  mean of the buildings' latitudes and longitudes.
- A point is `Point(x, y, payload)`, where `payload` is the optional third tuple component. A
  building or water record is `Feature(id, lat, lon)`.
- Python's `assert` statements become `Failure` results, checked in the source's order.

Behaviour of the code worth knowing:

- Points equal to a node's coordinate can land in either subtree, so the ordering invariant
  is `<=` on both sides.
- The split is by position in the sorted list, so the children always get `n / 2` and
  `n - n / 2 - 1` points, whatever the coordinates, duplicates included (`BuildBalanced`).
- The hotspot loop visits the vulnerable buildings in ascending x. Building their tree sorts
  the projection list in place, and the loop then walks that list. So ties in density come
  out in ascending x (`DiscoveryOrder`, `HotspotTies`). Which records are found does not
  depend on that order (`HotspotsPermutation`).

## Model

| member | source | states |
|---|---|---|
| Sorting.SortByKey | flood_tool/algorithms/kdtree.py:32 | the sort's result is a permutation of its input (same multiset, same length) ordered by the key |
| Sorting.InsertSorted | flood_tool/algorithms/kdtree.py:32 | inserting into a sorted list keeps it sorted (the sort's step) |
| Sorting.InsertWithKey | flood_tool/algorithms/kdtree.py:32 | insertion adds the element to the elements sharing its key and leaves the others' subsequences unchanged |
| Sorting.SortByKeyStable | flood_tool/analysis.py:85 | stability: for every key value, the elements with that key keep their relative order |
| KdTree.SortBy | flood_tool/algorithms/kdtree.py:32 | sorting on an axis permutes the points and orders them by that coordinate |
| KdTree.Build | flood_tool/algorithms/kdtree.py:23-44 | the in-order flattening of the built tree is exactly the multiset of input points, duplicates included |
| KdTree.BuildOrdered | flood_tool/algorithms/kdtree.py:27-42 | at every node, left-subtree points are `<=` and right-subtree points are `>=` the node on its axis |
| KdTree.BuildChildren | flood_tool/algorithms/kdtree.py:28-42 | a non-empty build is a node on axis `depth % 2` whose children are built from two strictly shorter lists, every point of the first at or below the node's point on that axis and every point of the second at or above it |
| KdTree.BuildAxes | flood_tool/algorithms/kdtree.py:27-28 | a node at depth d splits on axis `d % 2` |
| KdTree.BuildStoresPayload | flood_tool/algorithms/kdtree.py:35-39 | every node's `data` is its point's third component, `None` for a pair |
| KdTree.BuildBalanced | flood_tool/algorithms/kdtree.py:33-42 | children hold `n / 2` and `n - n / 2 - 1` points, at every node, for any coordinates |
| KdTree.BalancedHeight | flood_tool/algorithms/kdtree.py:33-42 | a balanced tree is empty iff its height is 0, and one of height h holds at least 2^(h-1) points |
| KdTree.BuildRoot | flood_tool/algorithms/kdtree.py:17-21 | a tree is empty iff built from an empty list; a non-empty one's root point is one of the inputs |
| KdTree.BuildValid | flood_tool/algorithms/kdtree.py:23-44 | a built tree holds all properties above at once |
| KdTree.Query | flood_tool/algorithms/kdtree.py:60-91 | `_query_recursive` as a recursive function; no contract of its own: its properties are stated by `QuerySound`, `QueryExact`, `QueryNodeExact`, `BuildQueryExact` and `NegativeRadius` |
| KdTree.WithinRadiusConcat | flood_tool/algorithms/kdtree.py:64-73 | the linear scan of a concatenation is the concatenation of the scans |
| KdTree.WithinRadiusMember | flood_tool/algorithms/kdtree.py:71-73 | a point is in the scan's result iff it is an input point within the radius |
| KdTree.WithinRadiusPermutation | flood_tool/algorithms/kdtree.py:32 | reordering the indexed points does not change the scan's result as a multiset, nor its length |
| KdTree.WithinRadiusNone | flood_tool/algorithms/kdtree.py:71-73 | when no input point is in range the scan is empty |
| KdTree.WithinRadiusLength | flood_tool/algorithms/kdtree.py:71-73 | the scan finds no more points than it is given |
| KdTree.WithinRadiusAll | flood_tool/algorithms/kdtree.py:71-73 | when every input point is in range the scan returns all of them |
| KdTree.InRange | flood_tool/algorithms/kdtree.py:54-72 | no contract of its own: the default Euclidean `distance_func` as the squared comparison `0 <= r` and `dx*dx + dy*dy <= r*r`, or the caller's metric compared with `<=`; its properties are stated by `WithinRadiusMember`, `FarOutOfRange` and `NearWaterIff` |
| KdTree.FarOutOfRange | flood_tool/algorithms/kdtree.py:76-89 | for the default or an admissible metric, a point farther than r from the centre along the splitting axis is out of range |
| KdTree.PrunedSideEmpty | flood_tool/algorithms/kdtree.py:80-89 | on an ordered tree, for the default or an admissible metric, when `abs(diff) > radius` the skipped subtree holds no point in range |
| KdTree.QuerySound | flood_tool/algorithms/kdtree.py:60-91 | for any metric, the query reports only indexed points in range, never more often than indexed |
| KdTree.QueryExact | flood_tool/algorithms/kdtree.py:60-91 | on an ordered tree, with an admissible metric, the query returns exactly the points in range (as a multiset) |
| KdTree.QueryNodeExact | flood_tool/algorithms/kdtree.py:64-91 | a node's result is exact when its children's are and the pruned side is empty |
| KdTree.BuildQueryExact | flood_tool/algorithms/kdtree.py:46-91 | for the default or an admissible metric, querying a tree built from a list equals the linear filter of that list, in multiset and length |
| KdTree.NegativeRadius | flood_tool/algorithms/kdtree.py:71-89 | for the default or an admissible metric, a negative radius puts nothing in range and the query returns `[]` |
| KdTree.SortInPlace | flood_tool/algorithms/kdtree.py:32 | the array afterwards holds its old contents sorted by the axis |
| KdTree.KDTree.constructor | flood_tool/algorithms/kdtree.py:12-21 | the root is the tree built from the list; the list ends up sorted by x as a permutation of itself; an empty list gives an empty root |
| KdTree.KDTree.QueryRadius | flood_tool/algorithms/kdtree.py:46-58 | `[]` on an empty tree; only indexed points in range for any metric; exactly those points for an admissible one |
| KdTree.KDTree.PointsWithinRadiusCount | flood_tool/algorithms/kdtree.py:93-95 | the count is the length of the query result: 0 on an empty tree, and the number of indexed points in range for an admissible metric |
| KdTree.NewTree | flood_tool/analysis.py:39 | passing a list to `KDTree` gives a valid tree over that list and leaves the list sorted by x |
| Analysis.Reference | flood_tool/analysis.py:26-27 | the reference point times the number of buildings is the sum of their latitudes and of their longitudes: it is their mean |
| Analysis.Project | flood_tool/analysis.py:35-36 | the `(x, y, record)` tuple of one record; no contract of its own: `ProjectAll`, `ProjectedMember` and `WaterLink` state its use |
| Analysis.ProjectAll | flood_tool/analysis.py:33-36 | each record is projected position by position, in input order, with the record as payload |
| Analysis.Rank | flood_tool/analysis.py:85 | the ranked hotspots are a permutation of the found ones with density non-increasing |
| Analysis.Analyze | flood_tool/analysis.py:16-24 | each failed parameter check gives its own error, checked in order and whatever the buildings; valid parameters succeed; no buildings give `([], [])` |
| Analysis.PerformAnalysis | flood_tool/analysis.py:5-87 | the imperative analysis returns exactly `Analyze` |
| Analysis.ProjectWater | flood_tool/analysis.py:33-36 | the water-point list is the projection of every water node |
| Analysis.AssessVulnerability | flood_tool/analysis.py:48-56 | the loop keeps exactly the buildings whose count on the water tree is positive, with their projections |
| Analysis.CollectHotspots | flood_tool/analysis.py:69-82 | the loop emits the dense buildings in the order of the reordered projection list, each with its tree count as density |
| Analysis.Vulnerable | flood_tool/analysis.py:48-56 | the vulnerability filter; no contract of its own: `VulnerableMember`, `VulnerableCount`, `VulnerableSubsequence`, `VulnerableAll` and `AnalyzeVulnerable` state its properties |
| Analysis.Discover | flood_tool/analysis.py:69-82 | the hotspot loop over a given visiting order; no contract of its own: `DiscoverMember`, `DiscoverBounds`, `DiscoverAll`, `DiscoverConcat`, `DiscoverPermutation` and `DiscoverProjected` state its properties |
| Analysis.Found | flood_tool/analysis.py:65-82 | no contract of its own: the vulnerable projections sorted in place by x when their tree is built, then the hotspot loop over that order; `DiscoveryOrder` and `HotspotTies` state the ordering, `DiscoverPermutation` that the records do not depend on it |
| Analysis.NearWaterIff | flood_tool/analysis.py:52-54 | a positive water count means some water point lies within the threshold, and conversely |
| Analysis.VulnerableMember | flood_tool/analysis.py:48-56 | a building is vulnerable iff it is an input building near water |
| Analysis.VulnerableCount | flood_tool/analysis.py:48-56 | a building near water is kept as many times as it occurs in the input; any other building never |
| Analysis.VulnerableSubsequence | flood_tool/analysis.py:48-56 | the vulnerable list is an order-preserving subsequence of the buildings |
| Analysis.VulnerableAll | flood_tool/analysis.py:54-55 | when every building is near water, every building is vulnerable, in order |
| Analysis.NoWaterNoneVulnerable | flood_tool/analysis.py:33-56 | with no water points no building is vulnerable |
| Analysis.DensitySelf | flood_tool/analysis.py:71-73 | a vulnerable building counts itself: its density is at least 1 and at most the number of vulnerable buildings |
| Analysis.DiscoverMember | flood_tool/analysis.py:69-82 | a record is emitted iff it belongs to a visited building whose density reaches `min_neighbors`, with that building's lat, lon, id and density |
| Analysis.DiscoverBounds | flood_tool/analysis.py:76-82 | no more records than visited buildings, each with density at least `min_neighbors` |
| Analysis.DiscoverAll | flood_tool/analysis.py:76-82 | if every visited building is dense enough, one record per building |
| Analysis.HotspotsMember | flood_tool/analysis.py:65-85 | the hotspots are exactly the records of the vulnerable buildings whose density reaches `min_neighbors` |
| Analysis.HotspotForInjective | flood_tool/analysis.py:77-82 | two buildings get the same hotspot record iff they are the same building, since the record carries its id, lat and lon |
| Analysis.DenseCount | flood_tool/analysis.py:69-82 | the in-input-order list of dense records holds each dense building's record as often as the building occurs, and no other building's |
| Analysis.DiscoverProjected | flood_tool/analysis.py:69-82 | the loop run over the projections in input order produces exactly the dense records in input order |
| Analysis.DiscoverConcat | flood_tool/analysis.py:69-82 | the loop over a concatenation produces the concatenation of the loops' records |
| Analysis.DiscoverPermutation | flood_tool/analysis.py:65-82 | visiting a permutation of the points produces the same records, as a multiset |
| Analysis.HotspotsPermutation | flood_tool/analysis.py:65-85 | the hotspots are a permutation of the dense records of the vulnerable buildings in input order |
| Analysis.HotspotsCount | flood_tool/analysis.py:65-85 | each dense vulnerable building has exactly as many hotspot records as it has occurrences; a building that is not dense has none |
| Analysis.HotspotsBounds | flood_tool/analysis.py:76-85 | there are at most as many hotspots as vulnerable buildings, each dense enough, ordered by non-increasing density |
| Analysis.HotspotsSpec | flood_tool/analysis.py:65-85 | for a positive radius and `minN >= 1`: the bounds and ordering, density at least 1 for every vulnerable building, exact hotspot membership, and the hotspots are a permutation of the dense records in input order |
| Analysis.Hotspots | flood_tool/analysis.py:65-85 | no contract of its own: the found records ranked by density; its properties are stated by `HotspotsMember`, `HotspotsCount`, `HotspotsBounds`, `HotspotsPermutation`, `HotspotTies` and `HotspotsSpec` |
| Analysis.DiscoveryOrder | flood_tool/analysis.py:65-69 | the hotspot loop visits a permutation of the projections sorted by ascending x, each carrying its record |
| Analysis.HotspotTies | flood_tool/analysis.py:85 | among equal densities the ranked list keeps the loop's discovery order |
| Analysis.AnalyzeVulnerable | flood_tool/analysis.py:43-56 | the vulnerable output is an order-preserving subsequence of the buildings holding exactly those with a water node within the threshold, each as often as it occurs |
| Analysis.AnalyzeNoWater | flood_tool/analysis.py:33-63 | with valid parameters and no water nodes both outputs are empty |
| Analysis.AnalyzeHotspots | flood_tool/analysis.py:62-87 | the bounds, density at least 1 for every vulnerable building, exact hotspot membership, one record per occurrence of a dense vulnerable building (a permutation of the dense records in input order) and the ordering |
| Scenarios.BuildThree | tests/test_kdtree.py:5-9 | the tree over three points has a root, and its point is one of them |
| Scenarios.GridQuery | tests/test_kdtree.py:11-24 | on the 3 x 2 grid, radius 1.1 around the origin finds exactly (0,0), (1,0), (0,1) |
| Scenarios.FarPoint | tests/test_kdtree.py:26-30 | a query that reaches no point returns `[]` |
| Scenarios.TaggedQuery | tests/test_kdtree.py:32-43 | the query returns the stored tuple with its data "A" |
| Scenarios.CountNearby | tests/test_kdtree.py:45-49 | the count near (1, 1) within 0.5 is 2, through the `KDTree` object |
| Scenarios.ClusterProjection | flood_tool/utils.py:32-40 | the flat-earth projection of a cluster building around the cluster's mean |
| Scenarios.FlatEarth | flood_tool/utils.py:32-40 | no contract of its own: `project_to_meters`, 111320 metres per degree of latitude and the same scaled by the cosine of the reference latitude for longitude, with the cosine a parameter; used by `ClusterProjection`, `NearAndFar` and `Cluster` |
| Scenarios.NearAndFar | tests/test_analysis.py:4-19 | only the building about 11 m from the water is vulnerable, and it is no hotspot |
| Scenarios.Cluster | tests/test_analysis.py:21-40 | five buildings within metres of each other are all vulnerable and all hotspots, each of density 5 |
| Scenarios.ClusterHotspot | flood_tool/analysis.py:73-82 | a hotspot discovered among points that each have exactly five neighbours has density 5 |
| Scenarios.NoWaterAtAll | tests/test_analysis.py:42-48 | no water gives empty outputs |

## Left out

- Floating point: coordinates and distances are exact reals, so rounding in `sqrt`, in the
  projection and in the mean is not modelled.
- `haversine`, `euklidian_dist` and the trigonometry of `project_to_meters`
  (flood_tool/utils.py) are not modelled. The analysis takes the projection as a parameter.
  The scenarios use the flat-earth formula with the cosine as a parameter and require only
  `cos(0) = 1` of it.
- The console output of `perform_analysis` (its `print` calls) is not modelled.
- Python `assert` statements vanish under `python -O`. The model always checks them.
- `assert isinstance(points, list)` in `KDTree.__init__` is a type check; the model's input
  is always a list.
- KdTree.KDTree.constructor: the default `points=None`, which gives a tree with an empty root
  (flood_tool/algorithms/kdtree.py:12,17-18), is not a separate constructor. Passing an empty
  array gives the same empty tree.
- Only the first three tuple components are modelled. A point with more components keeps only
  its third as payload.
- Feature records hold only `id`, `lat` and `lon`. A water node has an `id` that is never read.
  A building without an `id` would raise `KeyError` when it becomes a hotspot, and the model
  has no such error.
- `Node` is a datatype value rather than an object whose `left` and `right` fields are
  assigned after creation. The tree is never changed after construction, so nothing is lost.
- `_query_recursive` builds its result with `append`/`extend` on a local list. It is modelled
  as a recursive function that returns the concatenation.
- `hotspots.sort(...)` is an in-place sort of a local list. It is modelled as reassigning the
  sequence to its stable sort. The caller's array sort in `KDTree` is a write-back of the
  stable sort, not Timsort's steps.
- KdTree.QueryExact: completeness with a custom `distance_func` is proved only for admissible
  metrics. The source places no condition on the metric, and with other metrics the pruning
  can miss points.
- flood_tool/data_loader.py, flood_tool/api.py, flood_tool/cli.py,
  flood_tool/visualization.py, simulate_git_history.py and scripts/generate_openapi.py are
  not part of this model: they do network I/O, HTTP serving, argument parsing, rendering and
  git scripting.
