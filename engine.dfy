/**
 * The imperative part of cluster_data.py: the Clusters object, whose member lists
 * and centroids are updated in place, and make_clusters, which drives it. Every
 * method is proved against the value-level definitions of module Clustering.
 */
module Engine {
  import opened Optional
  import opened Geometry
  import opened Clustering

  /**
   * Clusters: cluster j is slot j of both arrays. Slot j of centroids is the centroid
   * of the source's Cluster object j; slot j of members is its member list.
   */
  class Clusters<L> {
    const centroids: array<Coords>
    const members: array<seq<Point<L>>>

    /** The two tuples are index-aligned. */
    predicate Valid()
    {
      centroids.Length == members.Length
    }

    /** The centroids, in cluster order. */
    function Centroids(): seq<Coords>
      reads centroids
    {
      centroids[..]
    }

    /** The member lists, in cluster order. */
    function Members(): seq<seq<Point<L>>>
      reads members
    {
      members[..]
    }

    /** Clusters(centroids): one cluster per seed, in order, each with an empty member list. */
    constructor (seeds: seq<Coords>)
      ensures Valid()
      ensures Centroids() == seeds
      ensures forall j :: 0 <= j < members.Length ==> members[j] == []
      ensures fresh(centroids) && fresh(members)
    {
      var cs := new Coords[|seeds|];
      var ms := new seq<Point<L>>[|seeds|];
      for i := 0 to |seeds|
        invariant cs[..i] == seeds[..i]
        invariant forall j :: 0 <= j < i ==> ms[j] == []
      {
        cs[i] := seeds[i];
        ms[i] := [];
      }
      centroids := cs;
      members := ms;
    }

    /**
     * assign(point): appends p to the list of its nearest cluster. With no cluster the
     * source faults (it appends to None); the model reports false and changes nothing.
     */
    method Assign(p: Point<L>) returns (ok: bool)
      requires Valid()
      modifies members
      ensures ok <==> members.Length > 0
      ensures ok ==> Members() == old(Members())[Nearest(Centroids(), p.coords) := old(Members())[Nearest(Centroids(), p.coords)] + [p]]
      ensures !ok ==> Members() == old(Members())
    {
      var best: Option<nat> := None;
      var bestDistance := 0.0;
      for i := 0 to members.Length
        invariant unchanged(members)
        invariant best.None? <==> i == 0
        invariant best.Some? ==> NearestAmong(Centroids(), p.coords, i, best.value)
        invariant best.Some? ==> bestDistance == SquaredDistance(centroids[best.value], p.coords)
      {
        var distance := Measure(centroids[i], p.coords);
        if best.None? || distance < bestDistance {
          best := Some(i);
          bestDistance := distance;
        }
      }
      match best
      case None =>
        ok := false;
      case Some(j) =>
        NearestCharacterized(Centroids(), p.coords, j);
        members[j] := members[j] + [p];
        ok := true;
    }

    /**
     * calculate_centroid(points): the sum of the coordinates from the origin, divided by
     * the count. The source faults on an empty list (points[0]); the model returns None.
     */
    method CalculateCentroid(pts: seq<Point<L>>) returns (r: Option<Coords>)
      ensures r.None? <==> pts == []
      ensures r.Some? ==> r.value == Mean(pts)
    {
      if pts == [] {
        return None;
      }
      var sums := Zero(pts[0].coords);
      for i := 0 to |pts|
        invariant sums == Total(Zero(pts[0].coords), pts[..i])
      {
        assert pts[..i + 1][..i] == pts[..i];
        sums := Add(sums, pts[i].coords);
      }
      assert pts[..|pts|] == pts;
      return Some(Div(sums, |pts| as real));
    }

    /** clear_assignments(): empties every member list in place and keeps the centroids. */
    method ClearAssignments()
      modifies members
      ensures forall j :: 0 <= j < members.Length ==> members[j] == []
    {
      for i := 0 to members.Length
        invariant forall j :: 0 <= j < i ==> members[j] == []
      {
        members[i] := [];
      }
    }

    /**
     * update_centroids(): moves each centroid, in order, to the mean of its list. It
     * stops at the first empty list, where the source faults: the clusters before it
     * are already updated, the others keep their centroids.
     */
    method UpdateCentroids() returns (ok: bool)
      requires Valid()
      modifies centroids
      ensures ok <==> FirstEmpty(Members()) == members.Length
      ensures forall j :: 0 <= j < centroids.Length ==>
                centroids[j] == if j < FirstEmpty(Members()) then Mean(members[j]) else old(centroids[j])
    {
      var j := 0;
      while j < centroids.Length
        invariant 0 <= j <= centroids.Length
        invariant forall i :: 0 <= i < j ==> members[i] != [] && centroids[i] == Mean(members[i])
        invariant forall i :: j <= i < centroids.Length ==> centroids[i] == old(centroids[i])
      {
        var c := CalculateCentroid(members[j]);
        match c
        case None =>
          assert FirstEmpty(Members()) == j;
          return false;
        case Some(m) =>
          centroids[j] := m;
        j := j + 1;
      }
      assert FirstEmpty(Members()) == members.Length;
      return true;
    }
  }

  /**
   * The inner loop of make_clusters: assigns every point, in input order, to lists that
   * start empty. It stops at the first point when there is no cluster.
   */
  method AssignAll<L>(clusters: Clusters<L>, points: seq<Point<L>>) returns (ok: bool)
    requires clusters.Valid()
    requires forall j :: 0 <= j < clusters.members.Length ==> clusters.members[j] == []
    modifies clusters.members
    ensures ok <==> clusters.members.Length > 0 || points == []
    ensures ok ==> clusters.Members() == Partition(clusters.Centroids(), points)
  {
    assert clusters.Members() == Partition(clusters.Centroids(), points[..0]);
    for i := 0 to |points|
      invariant clusters.members.Length > 0 || i == 0
      invariant clusters.Members() == Partition(clusters.Centroids(), points[..i])
    {
      ok := clusters.Assign(points[i]);
      if !ok {
        return;
      }
      assert points[..i + 1][..i] == points[..i];
    }
    assert points[..|points|] == points;
    ok := true;
  }

  /**
   * The body of make_clusters' loop: assign every point, update the centroids, record
   * the state print_clusters shows, and clear the assignments. The outcome is one round
   * from the centroids the clusters had; after a completed round the clusters hold its
   * centroids and empty lists.
   */
  method PlayRound<L>(clusters: Clusters<L>, points: seq<Point<L>>) returns (r: Result<Snapshot<L>>)
    requires clusters.Valid()
    requires forall j :: 0 <= j < clusters.members.Length ==> clusters.members[j] == []
    modifies clusters.centroids, clusters.members
    ensures r == Round(points, old(clusters.Centroids()))
    ensures r.Ok? ==> clusters.Centroids() == r.value.centroids
    ensures r.Ok? ==> forall j :: 0 <= j < clusters.members.Length ==> clusters.members[j] == []
  {
    ghost var cents := clusters.Centroids();
    var ok := AssignAll(clusters, points);
    if !ok {
      return Err(NoCluster);
    }
    ok := clusters.UpdateCentroids();
    if !ok {
      return Err(EmptyCluster);
    }
    var snapshot := Snapshot(clusters.Centroids(), clusters.Members());
    RoundOk(points, cents);
    ghost var s := Round(points, cents).value;
    assert s.centroids == snapshot.centroids by {
      forall j | 0 <= j < |cents|
        ensures s.centroids[j] == snapshot.centroids[j]
      {
      }
    }
    clusters.ClearAssignments();
    return Ok(snapshot);
  }

  /** How a trace that has shown snapshots so far goes on after one more step from centroids. */
  lemma IterateAdvances<L>(round: seq<Coords> -> Result<Snapshot<L>>, whole: Trace<L>, snapshots: seq<Snapshot<L>>, centroids: seq<Coords>, n: nat)
    requires n > 0 && whole == Prefixed(snapshots, Iterate(round, centroids, n))
    ensures round(centroids).Err? ==> whole == Trace(snapshots, Some(round(centroids).fault))
    ensures round(centroids).Ok? ==>
              whole == Prefixed(snapshots + [round(centroids).value], Iterate(round, round(centroids).value.centroids, n - 1))
  {
    if round(centroids).Ok? {
      var s := round(centroids).value;
      var rest := Iterate(round, s.centroids, n - 1);
      assert (snapshots + [s]) + rest.snapshots == snapshots + ([s] + rest.snapshots);
    }
  }

  lemma NothingShownYet<L>(t: Trace<L>)
    ensures Prefixed([], t) == t
  {
    assert [] + t.snapshots == t.snapshots;
  }

  /**
   * The loop of make_clusters: ROUND_COUNT rounds of assign, update_centroids and
   * clear_assignments on clusters whose lists start empty, recording the state after
   * each update (what print_clusters shows). A fault ends the run. The round function
   * is passed as round, which agrees with Round wherever Round is used.
   */
  method PlayRounds<L>(clusters: Clusters<L>, points: seq<Point<L>>, ghost round: seq<Coords> -> Result<Snapshot<L>>)
      returns (trace: Trace<L>)
    requires clusters.Valid()
    requires forall j :: 0 <= j < clusters.members.Length ==> clusters.members[j] == []
    requires forall c {:trigger Round(points, c)} :: round(c) == Round(points, c)
    modifies clusters.centroids, clusters.members
    ensures trace == Iterate(round, old(clusters.Centroids()), ROUND_COUNT)
  {
    ghost var current := clusters.Centroids();
    ghost var whole := Iterate(round, current, ROUND_COUNT);
    var snapshots: seq<Snapshot<L>> := [];
    NothingShownYet(whole);
    for i := 0 to ROUND_COUNT
      invariant clusters.Valid() && clusters.Centroids() == current
      invariant forall j :: 0 <= j < clusters.members.Length ==> clusters.members[j] == []
      invariant whole == Prefixed(snapshots, Iterate(round, current, ROUND_COUNT - i))
    {
      var r := PlayRound(clusters, points);
      IterateAdvances(round, whole, snapshots, current, ROUND_COUNT - i);
      match r
      case Err(f) =>
        return Trace(snapshots, Some(f));
      case Ok(snapshot) =>
        snapshots := snapshots + [snapshot];
        current := snapshot.centroids;
    }
    assert snapshots + [] == snapshots;
    return Trace(snapshots, None);
  }

  /** make_clusters(points, k): a Clusters object seeded with points[0:k], then the rounds. */
  method MakeClusters<L>(points: seq<Point<L>>, k: int) returns (trace: Trace<L>)
    ensures trace == Run(points, k)
  {
    var clusters := new Clusters<L>(Seeds(points, k));
    trace := PlayRounds(clusters, points, RoundOf(points));
  }
}
