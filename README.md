# k-means clustering of cluster_data.py, modelled in Dafny

`cluster_data.py` sorts labelled points (baseball players, placed by their batting
stats) into k clusters with a plain k-means loop. `make_clusters(points, k)` seeds
one cluster per point of `points[0:k]` and then runs exactly four rounds. In each
round it:

- assigns every point to the cluster with the nearest centroid;
- moves every centroid to the mean of its members;
- prints the clusters;
- empties the member lists.

This project models that engine and proves what it computes.

- `geometry.dfy` (module `Geometry`): the coordinate helpers `coords_add`,
  `coords_distance`, `coords_div` and `coords_zero`, over sequences of reals.
  `coords_distance` is also modelled as the accumulating loop it is (`Measure`).
- `clustering.dfy` (module `Clustering`): the meaning of a run as values.
  - `Point` is a point; `Nearest` is the cluster `assign` picks.
  - `Partition` gives the member lists after an assignment pass; `Mean` is what
    `calculate_centroid` returns.
  - `Round` is one pass of the loop; `Run` is the whole of `make_clusters`.
  - A run's outcome is a `Trace`: one `Snapshot` for each round that reached
    `print_clusters` (the centroids and the member lists), then the fault that
    stopped it, if any.
  - The lemmas about these definitions state what a run guarantees.
- `engine.dfy` (module `Engine`): the `Clusters` object as a class.
  - Two index-aligned arrays hold the centroids and the member lists. The
    methods update them in place as `assign`, `clear_assignments` and
    `update_centroids` do; `calculate_centroid` only returns a value.
  - `MakeClusters` is the loop of `make_clusters`, proved equal to `Run`.
- `players.dfy` (module `Players`): `Player.pretty_name`.
- `optional.dfy`: the `Option` type.

Where the code faults, the model reports the fault as a value instead.

- `assign` with no cluster appends to `None`. The model returns `false`, and the
  run's fault is `NoCluster`.
- `calculate_centroid` on an empty member list indexes `points[0]`. The model
  returns `None`.
- `update_centroids` stops at the first empty list, after it has moved the
  centroids before that list. The model does the same, and the run's fault is
  `EmptyCluster`.
- `pretty_name` of an empty head indexes `name[-1]`. The model returns `None`.

The code departs from textbook k-means in these ways, and the model follows the
code:

- There is no convergence test. The loop always runs four rounds (`ROUND_COUNT`).
  What convergence would give is stated separately: once a round reproduces its
  centroids, every later round repeats it (`FixedPointRepeats`).
- There is no insufficient-points error. `points[0:k]` follows Python's slice
  rules: k > |points| seeds |points| clusters, and a negative k counts from the
  end (`SeedCount`).
- There is no dimension-mismatch error. The coordinate helpers pair coordinates
  with `zip`, so the shorter operand decides the length (`Add`, `SquaredDistance`).
- An empty cluster is not handled by a policy. It faults. Two seed points with the
  same coordinates always produce one, so the run faults before printing anything
  (`DuplicateSeedsFault`).

## Model

| member | source | states |
|---|---|---|
| Geometry.Add | cluster_data.py:11-13 | the sum has as many coordinates as the shorter operand (zip truncates) |
| Geometry.AddElementwise | cluster_data.py:11-13 | coordinate i of the sum is the sum of the operands' coordinates i |
| Geometry.Zero | cluster_data.py:26-28 | the origin has as many coordinates as its argument; AddZeroIdentity gives its meaning |
| Geometry.AddZeroIdentity | cluster_data.py:26-28 | adding the origin of c on either side gives c back, so it is the neutral start of a sum |
| Geometry.SquaredDistance | cluster_data.py:15-20 | the (squared) distance is never negative |
| Geometry.Measure | cluster_data.py:15-20 | the accumulating loop over the zipped coordinates returns the sum of squared differences |
| Geometry.DistanceToSelf | cluster_data.py:15-20 | a point is at distance zero from itself |
| Geometry.DistanceSymmetric | cluster_data.py:15-20 | the distance does not depend on the order of its arguments, so measuring from the centroid (Cluster.distance) or from the point is the same |
| Geometry.Div | cluster_data.py:22-24 | the quotient has as many coordinates as the tuple divided |
| Geometry.DivElementwise | cluster_data.py:22-24 | coordinate i of the quotient is coordinate i divided by n |
| Clustering.SeedCount | cluster_data.py:153 | points[0:k] has min(k, n) points for k >= 0, and for negative k it drops min(-k, n) points from the end |
| Clustering.CoordsOf | cluster_data.py:153 | mapping the points to their coordinates keeps one tuple per point |
| Clustering.Seeds | cluster_data.py:153 | the seed centroids, one per point of points[0:k]; SeedsArePrefix gives their values |
| Clustering.SeedsArePrefix | cluster_data.py:153 | there are SeedCount seeds, and seed i is the coordinates of point i |
| Clustering.NearestUnique | cluster_data.py:71-81 | at most one cluster is no farther than every cluster and strictly nearer than every earlier one |
| Clustering.NearestIn | cluster_data.py:75-79 | the in-order scan over the first n centroids with strict <, which picks one of them; NearestInIsNearest gives its meaning |
| Clustering.NearestInIsNearest | cluster_data.py:75-79 | the scan's pick among the first n centroids is no farther than any of them and strictly nearer than every one before it |
| Clustering.Nearest | cluster_data.py:71-81 | the chosen cluster is one of the clusters |
| Clustering.NearestCharacterized | cluster_data.py:71-81 | b is the chosen cluster iff it is no farther than every cluster and strictly nearer than every cluster before it (ties go to the lower index, as the strict < does) |
| Clustering.LaterDuplicateNeverNearest | cluster_data.py:75-79 | of two clusters with equal centroids the later one is never chosen |
| Clustering.Partition | cluster_data.py:157-158 | an assignment pass yields one list per cluster |
| Clustering.PartitionSelects | cluster_data.py:157-158 | list j holds exactly the points whose nearest cluster is j, in input order |
| Clustering.PartitionMembers | cluster_data.py:157-158 | a point is in list j iff it is an input point whose nearest cluster is j |
| Clustering.PartitionCovers | cluster_data.py:157-158 | after an assignment pass every input point is in the lists exactly once (as a multiset the union of the lists is the input) |
| Clustering.SingleClusterTakesAll | cluster_data.py:157-158 | with one cluster the pass puts all the points in it, in order |
| Clustering.DuplicateCentroidStarves | cluster_data.py:157-158 | the later of two equal centroids gets an empty list |
| Clustering.Total | cluster_data.py:84-86 | the running sum of calculate_centroid, folded left to right; TotalByCoordinate gives its meaning |
| Clustering.TotalByCoordinate | cluster_data.py:84-86 | for points of one dimension the running sum has that dimension and coordinate i is the start plus the sum of coordinate i |
| Clustering.Mean | cluster_data.py:83-87 | what calculate_centroid returns for a non-empty list; MeanIsAverage gives its meaning |
| Clustering.MeanIsAverage | cluster_data.py:83-87 | for a non-empty list of one dimension d the centroid has d coordinates and coordinate i is the average of coordinate i |
| Clustering.FirstEmpty | cluster_data.py:93-95 | the index at which update_centroids stops: every list before it is non-empty and the list there (if any) is empty |
| Clustering.Means | cluster_data.py:93-95 | recomputation yields one centroid per list |
| Clustering.MeansAt | cluster_data.py:93-95 | centroid j is the mean of list j |
| Clustering.Round | cluster_data.py:157-166 | one pass of the loop body from given centroids; RoundNoCluster, RoundEmptyCluster and RoundOk give its meaning |
| Clustering.Rounds | cluster_data.py:156-168 | n passes of the loop body, each from the previous one's centroids, stopped by the first fault; RoundsShape and RoundsConsistent give its meaning |
| Clustering.Run | cluster_data.py:150-168 | make_clusters: four passes from the seeds points[0:k]; RunSpec gives its meaning |
| Clustering.RoundNoCluster | cluster_data.py:156-162 | a round faults for want of a cluster iff there are points and no centroid |
| Clustering.RoundEmptyCluster | cluster_data.py:156-162 | a round with clusters faults on an empty list iff its assignment pass leaves some list empty |
| Clustering.RoundOk | cluster_data.py:156-162 | a round that completes has the lists of an assignment pass around its starting centroids, none empty, and each new centroid the mean of its list |
| Clustering.RoundSteps | cluster_data.py:156-168 | every completed round completes from its starting centroids and keeps the number of clusters; a round faults for want of a cluster iff it has none and there are points |
| Clustering.RoundsShape | cluster_data.py:156-168 | n rounds show at most n snapshots, exactly n without a fault, and fault for want of a cluster iff n > 0, there is no cluster and there are points |
| Clustering.RoundsConsistent | cluster_data.py:156-168 | each shown round partitions the points around the previous round's centroids and moves each centroid to the mean of its list |
| Clustering.ChainCovers | cluster_data.py:156-168 | in every shown round the number of clusters is the number of seeds and every point is in exactly one list |
| Clustering.RunSpec | cluster_data.py:150-168 | make_clusters faults for want of a cluster iff points[0:k] is empty while there are points; when it does not fault it shows four rounds; every shown round has SeedCount clusters, is an assignment pass around the previous centroids covering every point once, and sets each centroid to the mean of its list |
| Clustering.DuplicateSeedsFault | cluster_data.py:150-162 | when two of the seed points (any i < j within points[0:k]) have the same coordinates the first round leaves a list empty and the run faults before printing |
| Clustering.FixedPointRepeats | cluster_data.py:155-164 | once a round gives back its starting centroids every later round shows the same snapshot; when such a fixed point is reached within the four rounds, the missing convergence test changes only how many rounds are printed |
| Clustering.SingleClusterRound | cluster_data.py:156-162 | with one cluster a round puts every point in it and moves the centroid to their mean, whatever the seed |
| Clustering.SingleClusterRounds | cluster_data.py:156-168 | with one cluster every round shows the same snapshot: the mean of all points holding all points |
| Clustering.ThreePointsOneCluster | cluster_data.py:150-168 | for (0,0), (2,0), (4,0) and k = 1 every round shows centroid (2,0) holding all three points |
| Engine.Clusters.constructor | cluster_data.py:62-69 | one cluster per seed, in order, with the seed as centroid and an empty member list |
| Engine.Clusters.Assign | cluster_data.py:71-81 | with clusters, p is appended to the list of its nearest cluster and no other list changes; with none, nothing changes and the call fails |
| Engine.Clusters.CalculateCentroid | cluster_data.py:83-87 | fails exactly for an empty list; otherwise returns the mean of the list |
| Engine.Clusters.ClearAssignments | cluster_data.py:89-91 | every member list is empty afterwards |
| Engine.Clusters.UpdateCentroids | cluster_data.py:93-95 | succeeds iff no list is empty; each centroid before the first empty list becomes the mean of its list and the rest keep their value |
| Engine.AssignAll | cluster_data.py:157-158 | assigning every point to lists that start empty yields the assignment pass around the current centroids, and fails iff there are points and no cluster |
| Engine.PlayRound | cluster_data.py:157-168 | one pass of the loop body has the outcome of a round from the current centroids, and after a completed round the clusters hold its centroids and empty lists |
| Engine.PlayRounds | cluster_data.py:156-168 | the loop's trace is four rounds iterated from the current centroids, stopped by the first fault |
| Engine.MakeClusters | cluster_data.py:150-168 | the trace of make_clusters is Run(points, k) |
| Players.NameHead | cluster_data.py:124 | the part before the first backslash: a prefix of the name without backslash, followed by a backslash when it is not the whole name |
| Players.PrettyName | cluster_data.py:123-127 | faults iff the name is empty or starts with a backslash; otherwise a prefix of the name without backslash, at most one character shorter than the part before the first backslash |
| Players.PrettyNameOfDecorated | cluster_data.py:123-127 | a name proper followed by at most one marker and a backslash-led suffix gives back the name proper; a lone marker gives the empty name without fault |

## Left out

- Reading the CSV file, building players from rows, `_point_for_player` and
  `_main` are I/O and setup around the engine. They are not part of this model.
- `print_clusters` is not modelled as printing. The state it would print after
  each round is recorded as a `Snapshot`. Its formatting of `centroid[0]` and
  `centroid[1]` (and the fault on centroids with fewer than two coordinates) is
  not modelled.
- The `Player` stat accessors (`home_runs`, `name`, `plate_appearances`,
  `position`, `stats`, `stolen_bases`, `__str__`) read fields of a row. They are
  not modelled.
- Floating point: coordinates are exact reals. Rounding, overflow, NaN and
  integer-versus-float division are not modelled.
- Geometry.SquaredDistance: the square root of `coords_distance` is dropped.
  In exact arithmetic, comparing squared distances picks the same cluster, since
  the root is monotone.
  The actual Euclidean distance is not stated.
- Engine.Clusters.Assign: the `sys.float_info.max` starting bound is modelled as
  "no cluster seen yet". With floats, a point at distance of at least that bound
  from every centroid would stay unassigned and fault; that case is not modelled.
- Geometry.Div: requires a non-zero divisor for a non-empty tuple. Python would
  raise a division error there, but in this code `calculate_centroid` never
  divides by zero.
- Cluster objects are not separate objects. Cluster j is slot j of the centroid
  array, because the code never shares or compares them.
- The `clusters` and `points` properties are the `Centroids()` and `Members()`
  views of the class.
- `make_clusters` takes any sliceable sequence and returns `None`. The model
  takes a sequence and returns the trace of what each round printed, plus the
  fault, if any.
- A point's label is an opaque type parameter, never inspected. Duplicate points
  are kept as separate members, counted with multiplicity.
