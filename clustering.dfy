/**
 * The meaning of one k-means run of cluster_data.py, stated as values: which
 * cluster a point is assigned to, the member lists an assignment pass builds,
 * the mean that replaces a centroid, and the fixed number of rounds that
 * make_clusters performs. The imperative engine in module Engine is proved
 * against these definitions.
 */
module Clustering {
  import opened Optional
  import opened Geometry

  /** Point: immutable coordinates plus an opaque label the engine never inspects. */
  datatype Point<L> = Point(coords: Coords, tag: L)

  /** The two ways a run of the source faults. */
  datatype Fault =
    | NoCluster      // assign with zero clusters: best_points stays None
    | EmptyCluster   // calculate_centroid on an empty member list: points[0] fails

  datatype Result<T> = Ok(value: T) | Err(fault: Fault)

  /** The state print_clusters shows after a round: the centroids and the index-aligned member lists. */
  datatype Snapshot<L> = Snapshot(centroids: seq<Coords>, members: seq<seq<Point<L>>>)

  /** Everything a run shows: one snapshot per completed round, then the fault that stopped it, if any. */
  datatype Trace<L> = Trace(snapshots: seq<Snapshot<L>>, fault: Option<Fault>)

  /** make_clusters runs a fixed number of rounds; it never tests for convergence. */
  const ROUND_COUNT: nat := 4

  // ---------------------------------------------------------------------------
  // Seeding: points[0:k]

  /** The length of points[0:k] for a list of n points, with Python's slice rules (a negative k counts from the end). */
  function SeedCount(n: nat, k: int): (m: nat)
    ensures m <= n
    ensures 0 <= k ==> m == Min(k, n)
    ensures k < 0 ==> m + Min(-k, n) == n
  {
    if 0 <= k then Min(k, n) else if n + k > 0 then n + k else 0
  }

  /** map(lambda p: p.coords, pts): the coordinates of every point, in order. */
  function CoordsOf<L>(pts: seq<Point<L>>): (cs: seq<Coords>)
    ensures |cs| == |pts|
  {
    if pts == [] then [] else CoordsOf(pts[..|pts| - 1]) + [pts[|pts| - 1].coords]
  }

  /** The seed centroids: the coordinates of points[0:k], in order. */
  function Seeds<L>(points: seq<Point<L>>, k: int): (seeds: seq<Coords>)
    ensures |seeds| == SeedCount(|points|, k)
  {
    CoordsOf(points[..SeedCount(|points|, k)])
  }

  /** make_clusters seeds min(k, |points|) clusters for k >= 0, |points| + k for negative k, and seed i is the coordinates of point i. */
  lemma SeedsArePrefix<L>(points: seq<Point<L>>, k: int)
    ensures |Seeds(points, k)| == SeedCount(|points|, k)
    ensures forall i :: 0 <= i < |Seeds(points, k)| ==> Seeds(points, k)[i] == points[i].coords
  {
    CoordsOfElementwise(points[..SeedCount(|points|, k)]);
  }

  lemma {:induction false} CoordsOfElementwise<L>(pts: seq<Point<L>>)
    ensures forall i :: 0 <= i < |pts| ==> CoordsOf(pts)[i] == pts[i].coords
  {
    if pts != [] {
      CoordsOfElementwise(pts[..|pts| - 1]);
    }
  }

  // ---------------------------------------------------------------------------
  // Nearest centroid

  /**
   * b is the cluster that assign picks among the first n centroids for coordinates x:
   * no centroid is closer, and every centroid before b is strictly farther.
   * Distances are measured as Cluster.distance does, from the centroid to x.
   */
  ghost predicate NearestAmong(centroids: seq<Coords>, x: Coords, n: nat, b: nat)
    requires n <= |centroids|
  {
    && b < n
    && (forall i :: 0 <= i < n ==> SquaredDistance(centroids[b], x) <= SquaredDistance(centroids[i], x))
    && (forall i :: 0 <= i < b ==> SquaredDistance(centroids[b], x) < SquaredDistance(centroids[i], x))
  }

  /** There is at most one such cluster. */
  lemma NearestUnique(centroids: seq<Coords>, x: Coords, n: nat, b0: nat, b1: nat)
    requires n <= |centroids|
    requires NearestAmong(centroids, x, n, b0) && NearestAmong(centroids, x, n, b1)
    ensures b0 == b1
  {
    assert SquaredDistance(centroids[b0], x) <= SquaredDistance(centroids[b1], x);
    assert SquaredDistance(centroids[b1], x) <= SquaredDistance(centroids[b0], x);
  }

  /**
   * The cluster picked among the first n centroids: the pick among the first n - 1,
   * unless centroid n - 1 is strictly closer.
   */
  function NearestIn(centroids: seq<Coords>, x: Coords, n: nat): (b: nat)
    requires 0 < n <= |centroids|
    ensures b < n
  {
    if n == 1 then 0
    else
      var b := NearestIn(centroids, x, n - 1);
      if SquaredDistance(centroids[n - 1], x) < SquaredDistance(centroids[b], x) then n - 1 else b
  }

  lemma {:induction false} NearestInIsNearest(centroids: seq<Coords>, x: Coords, n: nat)
    requires 0 < n <= |centroids|
    ensures NearestAmong(centroids, x, n, NearestIn(centroids, x, n))
  {
    if n > 1 {
      NearestInIsNearest(centroids, x, n - 1);
    }
  }

  /** The cluster that assign gives coordinates x: the lowest index at minimal distance. */
  function Nearest(centroids: seq<Coords>, x: Coords): (b: nat)
    requires |centroids| > 0
    ensures b < |centroids|
  {
    NearestIn(centroids, x, |centroids|)
  }

  /** b is nearest to x, in the sense assign uses, exactly when b is the cluster Nearest picks. */
  lemma NearestCharacterized(centroids: seq<Coords>, x: Coords, b: nat)
    requires |centroids| > 0
    ensures NearestAmong(centroids, x, |centroids|, b) <==> b == Nearest(centroids, x)
  {
    NearestInIsNearest(centroids, x, |centroids|);
    if NearestAmong(centroids, x, |centroids|, b) {
      NearestUnique(centroids, x, |centroids|, b, Nearest(centroids, x));
    }
  }

  // ---------------------------------------------------------------------------
  // Assignment pass

  /** The member lists after assigning every point of pts, in input order, to lists that started empty. */
  ghost function Partition<L>(centroids: seq<Coords>, pts: seq<Point<L>>): (lists: seq<seq<Point<L>>>)
    requires |centroids| > 0 || pts == []
    ensures |lists| == |centroids|
    decreases |pts|
  {
    if pts == [] then seq(|centroids|, _ => [])
    else
      var lists := Partition(centroids, pts[..|pts| - 1]);
      var p := pts[|pts| - 1];
      var j := Nearest(centroids, p.coords);
      lists[j := lists[j] + [p]]
  }

  /** The points of pts, in order, whose nearest centroid is j. */
  ghost function Select<L>(centroids: seq<Coords>, pts: seq<Point<L>>, j: nat): seq<Point<L>>
    requires |centroids| > 0
  {
    if pts == [] then []
    else (if Nearest(centroids, pts[0].coords) == j then [pts[0]] else []) + Select(centroids, pts[1..], j)
  }

  lemma {:induction false} SelectAppend<L>(centroids: seq<Coords>, pts: seq<Point<L>>, p: Point<L>, j: nat)
    requires |centroids| > 0
    ensures Select(centroids, pts + [p], j)
         == Select(centroids, pts, j) + (if Nearest(centroids, p.coords) == j then [p] else [])
  {
    if pts != [] {
      assert (pts + [p])[1..] == pts[1..] + [p];
      SelectAppend(centroids, pts[1..], p, j);
    }
  }

  /** q is selected for cluster j exactly when q is one of the points and j is its nearest cluster. */
  lemma {:induction false} SelectMembers<L>(centroids: seq<Coords>, pts: seq<Point<L>>, j: nat, q: Point<L>)
    requires |centroids| > 0
    ensures q in Select(centroids, pts, j) <==> q in pts && Nearest(centroids, q.coords) == j
  {
    if pts != [] {
      SelectMembers(centroids, pts[1..], j, q);
      assert pts == [pts[0]] + pts[1..];
    }
  }

  /** Each list of an assignment pass holds exactly the points whose nearest cluster it is, in input order. */
  lemma {:induction false} PartitionSelects<L>(centroids: seq<Coords>, pts: seq<Point<L>>)
    requires |centroids| > 0
    ensures forall j :: 0 <= j < |centroids| ==> Partition(centroids, pts)[j] == Select(centroids, pts, j)
    decreases |pts|
  {
    if pts != [] {
      var init, p := pts[..|pts| - 1], pts[|pts| - 1];
      PartitionSelects(centroids, init);
      assert pts == init + [p];
      forall j | 0 <= j < |centroids|
        ensures Partition(centroids, pts)[j] == Select(centroids, pts, j)
      {
        SelectAppend(centroids, init, p, j);
      }
    }
  }

  /** A point is in list j after an assignment pass iff it is an input point whose nearest cluster is j. */
  lemma PartitionMembers<L>(centroids: seq<Coords>, pts: seq<Point<L>>)
    requires |centroids| > 0
    ensures forall j, q :: 0 <= j < |centroids| ==>
              (q in Partition(centroids, pts)[j] <==> q in pts && Nearest(centroids, q.coords) == j)
  {
    PartitionSelects(centroids, pts);
    forall j, q | 0 <= j < |centroids|
      ensures q in Partition(centroids, pts)[j] <==> q in pts && Nearest(centroids, q.coords) == j
    {
      SelectMembers(centroids, pts, j, q);
    }
  }

  /** All the members of all the lists, counted with multiplicity. */
  ghost function Union<L>(lists: seq<seq<Point<L>>>): multiset<Point<L>>
  {
    if lists == [] then multiset{} else Union(lists[..|lists| - 1]) + multiset(lists[|lists| - 1])
  }

  lemma {:induction false} UnionOfEmptyLists<L>(lists: seq<seq<Point<L>>>)
    requires forall j :: 0 <= j < |lists| ==> lists[j] == []
    ensures Union(lists) == multiset{}
  {
    if lists != [] {
      UnionOfEmptyLists(lists[..|lists| - 1]);
    }
  }

  /** Appending p to one list adds exactly one copy of p to the union. */
  lemma {:induction false} UnionAppendAt<L>(lists: seq<seq<Point<L>>>, j: nat, p: Point<L>)
    requires j < |lists|
    ensures Union(lists[j := lists[j] + [p]]) == Union(lists) + multiset{p}
  {
    var n := |lists|;
    var updated := lists[j := lists[j] + [p]];
    if j == n - 1 {
      assert updated[..n - 1] == lists[..n - 1];
    } else {
      assert updated[..n - 1] == lists[..n - 1][j := lists[j] + [p]];
      UnionAppendAt(lists[..n - 1], j, p);
    }
  }

  /** The last point of a pass is appended to the list of its nearest cluster. */
  lemma PartitionLast<L>(centroids: seq<Coords>, pts: seq<Point<L>>)
    requires |centroids| > 0 && pts != []
    ensures var p := pts[|pts| - 1];
            var lists := Partition(centroids, pts[..|pts| - 1]);
            var j := Nearest(centroids, p.coords);
            Partition(centroids, pts) == lists[j := lists[j] + [p]]
  {
  }

  /** After an assignment pass every input point is in the lists exactly once: no omission, no duplicate. */
  lemma {:induction false} PartitionCovers<L>(centroids: seq<Coords>, pts: seq<Point<L>>)
    requires |centroids| > 0 || pts == []
    ensures Union(Partition(centroids, pts)) == multiset(pts)
    decreases |pts|
  {
    if pts == [] {
      UnionOfEmptyLists(Partition(centroids, pts));
    } else {
      var init, p := pts[..|pts| - 1], pts[|pts| - 1];
      var lists := Partition(centroids, init);
      var j := Nearest(centroids, p.coords);
      PartitionLast(centroids, pts);
      PartitionCovers(centroids, init);
      UnionAppendAt(lists, j, p);
      assert pts == init + [p];
      calc {
        Union(Partition(centroids, pts));
        Union(lists[j := lists[j] + [p]]);
        Union(lists) + multiset{p};
        multiset(init) + multiset{p};
        multiset(pts);
      }
    }
  }

  /** With a single cluster, an assignment pass puts every point in it, in input order. */
  lemma {:induction false} SingleClusterTakesAll<L>(c: Coords, pts: seq<Point<L>>)
    ensures Partition([c], pts) == [pts]
    decreases |pts|
  {
    if pts != [] {
      SingleClusterTakesAll(c, pts[..|pts| - 1]);
      assert pts == pts[..|pts| - 1] + [pts[|pts| - 1]];
    }
  }

  // ---------------------------------------------------------------------------
  // Centroid recomputation

  /** The running sum calculate_centroid keeps: init plus the coordinates of every point, left to right. */
  function Total<L>(init: Coords, pts: seq<Point<L>>): Coords
  {
    if pts == [] then init else Add(Total(init, pts[..|pts| - 1]), pts[|pts| - 1].coords)
  }

  /** What calculate_centroid returns for a non-empty list: the sum from the origin, divided by the count. */
  function Mean<L>(pts: seq<Point<L>>): Coords
    requires pts != []
  {
    Div(Total(Zero(pts[0].coords), pts), |pts| as real)
  }

  /** All points of pts have d coordinates. */
  ghost predicate HasDimension<L>(pts: seq<Point<L>>, d: nat)
  {
    forall q :: q in pts ==> |q.coords| == d
  }

  /** The sum of coordinate i over pts. */
  ghost function CoordinateSum<L>(pts: seq<Point<L>>, i: nat): real
    requires forall q :: q in pts ==> i < |q.coords|
  {
    if pts == [] then 0.0 else CoordinateSum(pts[..|pts| - 1], i) + pts[|pts| - 1].coords[i]
  }

  lemma {:induction false} TotalByCoordinate<L>(init: Coords, pts: seq<Point<L>>, d: nat)
    requires |init| == d && HasDimension(pts, d)
    ensures |Total(init, pts)| == d
    ensures forall i :: 0 <= i < d ==> Total(init, pts)[i] == init[i] + CoordinateSum(pts, i)
  {
    if pts != [] {
      TotalByCoordinate(init, pts[..|pts| - 1], d);
      AddElementwise(Total(init, pts[..|pts| - 1]), pts[|pts| - 1].coords);
    }
  }

  /** For points of one dimension d, the mean has d coordinates and coordinate i is the average of coordinate i. */
  lemma MeanIsAverage<L>(pts: seq<Point<L>>, d: nat)
    requires pts != [] && HasDimension(pts, d)
    ensures |Mean(pts)| == d
    ensures forall i :: 0 <= i < d ==> Mean(pts)[i] == CoordinateSum(pts, i) / (|pts| as real)
  {
    var origin := Zero(pts[0].coords);
    var total := Total(origin, pts);
    assert |origin| == d by {
      assert pts[0] in pts;
    }
    TotalByCoordinate(origin, pts, d);
    DivElementwise(total, |pts| as real);
    forall i | 0 <= i < d
      ensures Mean(pts)[i] == CoordinateSum(pts, i) / (|pts| as real)
    {
      assert total[i] == CoordinateSum(pts, i);
    }
  }

  /** The index of the first empty list, or |lists| when none is empty. */
  function FirstEmpty<L>(lists: seq<seq<Point<L>>>): (f: nat)
    ensures f <= |lists|
    ensures forall j :: 0 <= j < f ==> lists[j] != []
    ensures f < |lists| ==> lists[f] == []
  {
    if lists == [] || lists[0] == [] then 0 else 1 + FirstEmpty(lists[1..])
  }

  // ---------------------------------------------------------------------------
  // Rounds

  /**
   * One round of make_clusters from the given centroids: assign every point, then
   * replace each centroid by the mean of its list. It faults when there is a point
   * but no cluster, and when some list is empty.
   */
  ghost function Round<L>(points: seq<Point<L>>, centroids: seq<Coords>): Result<Snapshot<L>>
  {
    if |centroids| == 0 && points != [] then Err(NoCluster)
    else
      var lists := Partition(centroids, points);
      if FirstEmpty(lists) < |lists| then Err(EmptyCluster)
      else Ok(Snapshot(Means(lists), lists))
  }

  /** The mean of every list, in order; update_centroids computes these one cluster at a time. */
  function Means<L>(lists: seq<seq<Point<L>>>): (centroids: seq<Coords>)
    requires forall j :: 0 <= j < |lists| ==> lists[j] != []
    ensures |centroids| == |lists|
  {
    if lists == [] then [] else [Mean(lists[0])] + Means(lists[1..])
  }

  /** Centroid j is the mean of list j. */
  lemma {:induction false} MeansAt<L>(lists: seq<seq<Point<L>>>)
    requires forall j :: 0 <= j < |lists| ==> lists[j] != []
    ensures forall j :: 0 <= j < |lists| ==> Means(lists)[j] == Mean(lists[j])
  {
    if lists != [] {
      MeansAt(lists[1..]);
    }
  }

  /**
   * n steps of round from the given centroids, each step starting from the centroids
   * the previous one computed; the first fault stops the iteration.
   */
  ghost function Iterate<L>(round: seq<Coords> -> Result<Snapshot<L>>, centroids: seq<Coords>, n: nat): Trace<L>
    decreases n
  {
    if n == 0 then Trace([], None)
    else
      match round(centroids)
      case Err(f) => Trace([], Some(f))
      case Ok(s) => Prefixed([s], Iterate(round, s.centroids, n - 1))
  }

  function Prefixed<L>(earlier: seq<Snapshot<L>>, t: Trace<L>): Trace<L>
  {
    Trace(earlier + t.snapshots, t.fault)
  }

  /** The round of make_clusters' loop over points, as a function of the centroids it starts from. */
  ghost function RoundOf<L>(points: seq<Point<L>>): seq<Coords> -> Result<Snapshot<L>>
  {
    c => Round(points, c)
  }

  /** n rounds of make_clusters' loop from the given centroids. */
  ghost function Rounds<L>(points: seq<Point<L>>, centroids: seq<Coords>, n: nat): Trace<L>
  {
    Iterate(RoundOf(points), centroids, n)
  }

  /** make_clusters(points, k): ROUND_COUNT rounds from the seeds points[0:k]. */
  ghost function Run<L>(points: seq<Point<L>>, k: int): Trace<L>
  {
    Rounds(points, Seeds(points, k), ROUND_COUNT)
  }

  /** The members of s are what an assignment pass around the centroids prev produces. */
  ghost predicate AssignedAround<L>(points: seq<Point<L>>, prev: seq<Coords>, s: Snapshot<L>)
  {
    (|prev| > 0 || points == []) && s.members == Partition(prev, points)
  }

  /** s is a completed round over k clusters: k non-empty lists, and every centroid the mean of its own list. */
  ghost predicate Recomputed<L>(k: nat, s: Snapshot<L>)
  {
    && |s.centroids| == k
    && |s.members| == k
    && forall j :: 0 <= j < k ==> s.members[j] != [] && s.centroids[j] == Mean(s.members[j])
  }

  /** A round faults for want of a cluster exactly when there are points but no centroids. */
  lemma RoundNoCluster<L>(points: seq<Point<L>>, centroids: seq<Coords>)
    ensures Round(points, centroids) == Err(NoCluster) <==> |centroids| == 0 && points != []
  {
  }

  /** A round with clusters faults on an empty list exactly when its assignment pass leaves some list empty. */
  lemma RoundEmptyCluster<L>(points: seq<Point<L>>, centroids: seq<Coords>)
    requires |centroids| > 0 || points == []
    ensures Round(points, centroids) == Err(EmptyCluster)
        <==> exists j :: 0 <= j < |centroids| && Partition(centroids, points)[j] == []
  {
    var lists := Partition(centroids, points);
    var f := FirstEmpty(lists);
    assert |lists| == |centroids|;
    if f < |lists| {
      assert Round(points, centroids) == Err(EmptyCluster);
      assert 0 <= f < |centroids| && Partition(centroids, points)[f] == [];
      assert exists j :: 0 <= j < |centroids| && Partition(centroids, points)[j] == [];
    } else {
      assert Round(points, centroids).Ok?;
      assert !exists j :: 0 <= j < |centroids| && Partition(centroids, points)[j] == [];
    }
  }

  /** A round that does not fault assigns around the given centroids and sets each centroid to the mean of its own list. */
  lemma RoundOk<L>(points: seq<Point<L>>, centroids: seq<Coords>)
    requires Round(points, centroids).Ok?
    ensures AssignedAround(points, centroids, Round(points, centroids).value)
    ensures Recomputed(|centroids|, Round(points, centroids).value)
  {
    MeansAt(Partition(centroids, points));
  }

  /** Every step that succeeds is related to the centroids it started from by good. */
  ghost predicate StepsSatisfy<L>(round: seq<Coords> -> Result<Snapshot<L>>, good: (seq<Coords>, Snapshot<L>) -> bool)
  {
    forall c :: round(c).Ok? ==> good(c, round(c).value)
  }

  /** A step that succeeds keeps the number of clusters. */
  ghost predicate StepsKeepCount<L>(round: seq<Coords> -> Result<Snapshot<L>>)
  {
    forall c :: round(c).Ok? ==> |round(c).value.centroids| == |c|
  }

  /** A step faults for want of a cluster exactly when it has no centroid and blocked holds. */
  ghost predicate StepsNeedCluster<L>(round: seq<Coords> -> Result<Snapshot<L>>, blocked: bool)
  {
    forall c :: round(c) == Err(NoCluster) <==> |c| == 0 && blocked
  }

  lemma {:induction false} IterateShape<L>(round: seq<Coords> -> Result<Snapshot<L>>, blocked: bool, centroids: seq<Coords>, n: nat)
    requires StepsKeepCount(round) && StepsNeedCluster(round, blocked)
    ensures |Iterate(round, centroids, n).snapshots| <= n
    ensures Iterate(round, centroids, n).fault == None ==> |Iterate(round, centroids, n).snapshots| == n
    ensures Iterate(round, centroids, n).fault == Some(NoCluster) <==> 0 < n && |centroids| == 0 && blocked
    decreases n
  {
    if n > 0 && round(centroids).Ok? {
      IterateShape(round, blocked, round(centroids).value.centroids, n - 1);
    }
  }

  /** Every snapshot of snaps is related by good to the centroids of the snapshot before it (prev for the first). */
  ghost predicate Linked<L>(good: (seq<Coords>, Snapshot<L>) -> bool, prev: seq<Coords>, snaps: seq<Snapshot<L>>)
    decreases |snaps|
  {
    snaps != [] ==> good(prev, snaps[0]) && Linked(good, snaps[0].centroids, snaps[1..])
  }

  lemma {:induction false} IterateLinked<L>(round: seq<Coords> -> Result<Snapshot<L>>, good: (seq<Coords>, Snapshot<L>) -> bool, centroids: seq<Coords>, n: nat)
    requires StepsSatisfy(round, good)
    ensures Linked(good, centroids, Iterate(round, centroids, n).snapshots)
    decreases n
  {
    if n > 0 && round(centroids).Ok? {
      var s := round(centroids).value;
      IterateLinked(round, good, s.centroids, n - 1);
      var rest := Iterate(round, s.centroids, n - 1).snapshots;
      assert ([s] + rest)[1..] == rest;
    }
  }

  /**
   * s completes a round from the centroids prev: its lists are an assignment pass of
   * points around prev, none is empty, and each of its centroids is the mean of its own list.
   */
  ghost predicate Completes<L>(points: seq<Point<L>>, prev: seq<Coords>, s: Snapshot<L>)
  {
    Recomputed(|prev|, s) && AssignedAround(points, prev, s)
  }

  /** Every round of a run completes from the centroids of the round before it. */
  ghost predicate Chain<L>(points: seq<Point<L>>, prev: seq<Coords>, snaps: seq<Snapshot<L>>)
  {
    Linked((c, s) => Completes(points, c, s), prev, snaps)
  }

  /** The rounds of make_clusters' loop complete from the centroids they start from, keep the number of clusters, and fault for want of a cluster only when there are points. */
  lemma RoundSteps<L>(points: seq<Point<L>>)
    ensures StepsSatisfy(RoundOf(points), (c, s) => Completes(points, c, s))
    ensures StepsKeepCount(RoundOf(points))
    ensures StepsNeedCluster(RoundOf(points), points != [])
  {
    forall c | Round(points, c).Ok?
      ensures Completes(points, c, Round(points, c).value)
    {
      RoundOk(points, c);
    }
  }

  /** A run of n rounds shows at most n snapshots, exactly n when it does not fault, and faults for want of a cluster only in its first round. */
  lemma RoundsShape<L>(points: seq<Point<L>>, centroids: seq<Coords>, n: nat)
    ensures |Rounds(points, centroids, n).snapshots| <= n
    ensures Rounds(points, centroids, n).fault == None ==> |Rounds(points, centroids, n).snapshots| == n
    ensures Rounds(points, centroids, n).fault == Some(NoCluster) <==> 0 < n && |centroids| == 0 && points != []
  {
    RoundSteps(points);
    IterateShape(RoundOf(points), points != [], centroids, n);
  }

  /** Every round of a run partitions the points around the previous round's centroids and moves each centroid to the mean of its list. */
  lemma RoundsConsistent<L>(points: seq<Point<L>>, centroids: seq<Coords>, n: nat)
    ensures Chain(points, centroids, Rounds(points, centroids, n).snapshots)
  {
    RoundSteps(points);
    IterateLinked(RoundOf(points), (c, s) => Completes(points, c, s), centroids, n);
  }

  /** The first snapshot of a chain completes from prev, and the rest is a chain from its centroids. */
  lemma ChainHead<L>(points: seq<Point<L>>, prev: seq<Coords>, snaps: seq<Snapshot<L>>)
    requires Chain(points, prev, snaps) && snaps != []
    ensures Completes(points, prev, snaps[0])
    ensures Chain(points, snaps[0].centroids, snaps[1..])
  {
  }

  /** A snapshot that completes a round from prev has |prev| clusters and holds every point once. */
  lemma CompletesCovers<L>(points: seq<Point<L>>, prev: seq<Coords>, s: Snapshot<L>)
    requires Completes(points, prev, s)
    ensures |s.centroids| == |s.members| == |prev|
    ensures Union(s.members) == multiset(points)
  {
    PartitionCovers(prev, points);
  }

  /**
   * In every snapshot of a chain there are as many clusters as prev has, and each point
   * is in exactly one list: the union of the lists is the input, with multiplicity.
   */
  lemma {:induction false} ChainCovers<L>(points: seq<Point<L>>, prev: seq<Coords>, snaps: seq<Snapshot<L>>)
    requires Chain(points, prev, snaps)
    ensures forall r :: 0 <= r < |snaps| ==> |snaps[r].centroids| == |snaps[r].members| == |prev|
    ensures forall r :: 0 <= r < |snaps| ==> Union(snaps[r].members) == multiset(points)
    decreases |snaps|
  {
    if snaps != [] {
      var first, rest := snaps[0], snaps[1..];
      ChainHead(points, prev, snaps);
      CompletesCovers(points, prev, first);
      ChainCovers(points, first.centroids, rest);
      assert |first.centroids| == |prev|;
      forall r | 0 <= r < |snaps|
        ensures |snaps[r].centroids| == |snaps[r].members| == |prev|
        ensures Union(snaps[r].members) == multiset(points)
      {
        if r > 0 {
          assert snaps[r] == rest[r - 1];
        }
      }
    }
  }

  /**
   * make_clusters(points, k) seeds min(k, |points|) clusters for k >= 0 and faults for
   * want of a cluster exactly when k selects no point while there are points to assign.
   * Without a fault it completes ROUND_COUNT rounds, each of which partitions the points
   * around the previous centroids (every point in exactly one list) and sets each centroid
   * to the mean of its own list.
   */
  lemma RunSpec<L>(points: seq<Point<L>>, k: int)
    ensures Run(points, k).fault == Some(NoCluster)
        <==> points != [] && (k == 0 || (k < 0 && |points| <= -k))
    ensures Run(points, k).fault == None ==> |Run(points, k).snapshots| == ROUND_COUNT
    ensures Chain(points, Seeds(points, k), Run(points, k).snapshots)
    ensures forall r :: 0 <= r < |Run(points, k).snapshots| ==> |Run(points, k).snapshots[r].centroids| == SeedCount(|points|, k)
    ensures forall r :: 0 <= r < |Run(points, k).snapshots| ==> Union(Run(points, k).snapshots[r].members) == multiset(points)
  {
    RoundsShape(points, Seeds(points, k), ROUND_COUNT);
    RoundsConsistent(points, Seeds(points, k), ROUND_COUNT);
    ChainCovers(points, Seeds(points, k), Run(points, k).snapshots);
  }

  /** Of two clusters with the same centroid, the later one is never the nearest: ties go to the lower index. */
  lemma LaterDuplicateNeverNearest(centroids: seq<Coords>, x: Coords, i: nat, j: nat)
    requires i < j < |centroids| && centroids[i] == centroids[j]
    ensures Nearest(centroids, x) != j
  {
    NearestInIsNearest(centroids, x, |centroids|);
  }

  /** ... so an assignment pass leaves the later one's list empty. */
  lemma DuplicateCentroidStarves<L>(centroids: seq<Coords>, points: seq<Point<L>>, i: nat, j: nat)
    requires i < j < |centroids| && centroids[i] == centroids[j]
    ensures Partition(centroids, points)[j] == []
  {
    PartitionMembers(centroids, points);
    var list := Partition(centroids, points)[j];
    forall q
      ensures q !in list
    {
      LaterDuplicateNeverNearest(centroids, q.coords, i, j);
    }
  }

  /**
   * When two of the points that seed the clusters have the same coordinates, two seeds
   * coincide: the first round leaves a list empty and the run faults before showing anything.
   */
  lemma DuplicateSeedsFault<L>(points: seq<Point<L>>, k: int, i: nat, j: nat)
    requires i < j < SeedCount(|points|, k) && points[i].coords == points[j].coords
    ensures Run(points, k) == Trace([], Some(EmptyCluster))
  {
    var seeds := Seeds(points, k);
    SeedsArePrefix(points, k);
    DuplicateCentroidStarves(seeds, points, i, j);
    RoundEmptyCluster(points, seeds);
  }

  /**
   * Convergence, which make_clusters does not test for: once a round gives back the
   * centroids it started from, every later round shows the same snapshot.
   */
  lemma {:induction false} FixedPointRepeats<L>(points: seq<Point<L>>, centroids: seq<Coords>, n: nat)
    requires Round(points, centroids).Ok? && Round(points, centroids).value.centroids == centroids
    ensures Rounds(points, centroids, n) == Trace(seq(n, _ => Round(points, centroids).value), None)
    decreases n
  {
    if n > 0 {
      var s := Round(points, centroids).value;
      FixedPointRepeats(points, centroids, n - 1);
      assert [s] + seq(n - 1, _ => s) == seq(n, _ => s);
    }
  }

  /** With one cluster a round puts every point in it and moves the centroid to their mean, whatever the seed. */
  lemma SingleClusterRound<L>(points: seq<Point<L>>, c: Coords)
    requires points != []
    ensures Round(points, [c]) == Ok(Snapshot([Mean(points)], [points]))
  {
    SingleClusterTakesAll(c, points);
    assert FirstEmpty([points]) == 1;
    assert Means([points]) == [Mean(points)];
  }

  /** ... so every round of a run with one cluster shows the same snapshot. */
  lemma SingleClusterRounds<L>(points: seq<Point<L>>, c: Coords, n: nat)
    requires points != []
    ensures Rounds(points, [c], n) == Trace(seq(n, _ => Snapshot([Mean(points)], [points])), None)
  {
    if n > 0 {
      var s := Snapshot([Mean(points)], [points]);
      SingleClusterRound(points, c);
      SingleClusterRound(points, Mean(points));
      FixedPointRepeats(points, [Mean(points)], n - 1);
      assert [s] + seq(n - 1, _ => s) == seq(n, _ => s);
    }
  }

  /** Three collinear points, one cluster: every round shows the centroid (2, 0) holding all three points. */
  lemma ThreePointsOneCluster()
    ensures var pts := [Point([0.0, 0.0], 1), Point([2.0, 0.0], 2), Point([4.0, 0.0], 3)];
            Run(pts, 1) == Trace(seq(ROUND_COUNT, _ => Snapshot([[2.0, 0.0]], [pts])), None)
  {
    var pts := [Point([0.0, 0.0], 1), Point([2.0, 0.0], 2), Point([4.0, 0.0], 3)];
    SeedsArePrefix(pts, 1);
    assert Seeds(pts, 1) == [[0.0, 0.0]];
    MeanIsAverage(pts, 2);
    var one, two := [pts[0]], [pts[0], pts[1]];
    assert pts[..|pts| - 1] == two && two[..|two| - 1] == one && one[..|one| - 1] == [];
    assert CoordinateSum(one[..0], 0) == 0.0 && CoordinateSum(one[..0], 1) == 0.0;
    assert CoordinateSum(one, 0) == 0.0;
    assert CoordinateSum(one, 1) == 0.0;
    assert CoordinateSum(two, 0) == 2.0;
    assert CoordinateSum(two, 1) == 0.0;
    assert Mean(pts) == [2.0, 0.0];
    SingleClusterRounds(pts, [0.0, 0.0], ROUND_COUNT);
  }
}
