/** What k-means minimises (`ivf/kmeans.go`, `pq/kmeans.go`): the sum over the points of the
    squared distance to the assigned centroid. */
module KMeansCost {
  import opened Vectors

  type Assignment = seq<nat>

  ghost predicate Clustered(points: seq<Vec>, assign: Assignment, centroids: seq<Vec>, dim: nat) {
    && Dims(points, dim) && Dims(centroids, dim)
    && |assign| == |points|
    && forall i :: 0 <= i < |assign| ==> assign[i] < |centroids|
  }

  /** The cost of the first `n` points. */
  ghost function CostUpTo(points: seq<Vec>, assign: Assignment, centroids: seq<Vec>, dim: nat, n: nat): real
    requires Clustered(points, assign, centroids, dim) && n <= |points|
  {
    if n == 0 then 0.0
    else CostUpTo(points, assign, centroids, dim, n - 1) + SqL2(centroids[assign[n - 1]], points[n - 1])
  }

  ghost function Cost(points: seq<Vec>, assign: Assignment, centroids: seq<Vec>, dim: nat): real
    requires Clustered(points, assign, centroids, dim)
  {
    CostUpTo(points, assign, centroids, dim, |points|)
  }

  // ---------------------------------------------------------------------------
  // The assignment step

  ghost function NearestFor(points: seq<Vec>, centroids: seq<Vec>, dim: nat, i: nat): (c: nat)
    requires Dims(points, dim) && Dims(centroids, dim) && centroids != [] && i < |points|
    ensures c < |centroids|
  {
    ArgMin(centroids, points[i])
  }

  /** Every point to its nearest centroid. */
  ghost function NearestAll(points: seq<Vec>, centroids: seq<Vec>, dim: nat): (assign: Assignment)
    requires Dims(points, dim) && Dims(centroids, dim) && centroids != []
    ensures Clustered(points, assign, centroids, dim)
  {
    seq(|points|, i requires 0 <= i < |points| => NearestFor(points, centroids, dim, i))
  }

  lemma {:induction false} NearestIsCheapest(points: seq<Vec>, assign: Assignment, centroids: seq<Vec>, dim: nat, n: nat)
    requires Clustered(points, assign, centroids, dim) && centroids != [] && n <= |points|
    ensures CostUpTo(points, NearestAll(points, centroids, dim), centroids, dim, n) <= CostUpTo(points, assign, centroids, dim, n)
  {
    hide SqL2, ArgMin;
    if n > 0 {
      NearestIsCheapest(points, assign, centroids, dim, n - 1);
      ArgMinIsLeast(centroids, points[n - 1]);
    }
  }

  // ---------------------------------------------------------------------------
  // The cost, cluster by cluster and coordinate by coordinate

  ghost function ClusterCost(points: seq<Vec>, assign: Assignment, c: nat, z: Vec, n: nat): real
    requires Dims(points, |z|) && |assign| == |points| && n <= |points|
  {
    if n == 0 then 0.0
    else
      ClusterCost(points, assign, c, z, n - 1) + if assign[n - 1] == c then SqL2(z, points[n - 1]) else 0.0
  }

  ghost function ClustersCost(points: seq<Vec>, assign: Assignment, centroids: seq<Vec>, dim: nat, n: nat, k: nat): real
    requires Clustered(points, assign, centroids, dim) && n <= |points| && k <= |centroids|
  {
    if k == 0 then 0.0
    else ClustersCost(points, assign, centroids, dim, n, k - 1) + ClusterCost(points, assign, k - 1, centroids[k - 1], n)
  }

  lemma {:induction false} ClustersCostStep(points: seq<Vec>, assign: Assignment, centroids: seq<Vec>, dim: nat, n: nat, k: nat)
    requires Clustered(points, assign, centroids, dim) && 0 < n <= |points| && k <= |centroids|
    ensures ClustersCost(points, assign, centroids, dim, n, k) == ClustersCost(points, assign, centroids, dim, n - 1, k)
      + if assign[n - 1] < k then SqL2(centroids[assign[n - 1]], points[n - 1]) else 0.0
    decreases k
  {
    hide SqL2;
    if k > 0 {
      ClustersCostStep(points, assign, centroids, dim, n, k - 1);
    }
  }

  lemma {:induction false} NoPointsNoCost(points: seq<Vec>, assign: Assignment, centroids: seq<Vec>, dim: nat, k: nat)
    requires Clustered(points, assign, centroids, dim) && k <= |centroids|
    ensures ClustersCost(points, assign, centroids, dim, 0, k) == 0.0
  {
    if k > 0 {
      NoPointsNoCost(points, assign, centroids, dim, k - 1);
    }
  }

  lemma {:induction false} CostByCluster(points: seq<Vec>, assign: Assignment, centroids: seq<Vec>, dim: nat, n: nat)
    requires Clustered(points, assign, centroids, dim) && n <= |points|
    ensures CostUpTo(points, assign, centroids, dim, n) == ClustersCost(points, assign, centroids, dim, n, |centroids|)
  {
    hide SqL2, ClustersCost;
    if n > 0 {
      CostByCluster(points, assign, centroids, dim, n - 1);
      ClustersCostStep(points, assign, centroids, dim, n, |centroids|);
    } else {
      NoPointsNoCost(points, assign, centroids, dim, |centroids|);
    }
  }

  ghost function CoordCost(points: seq<Vec>, assign: Assignment, c: nat, z: real, j: nat, dim: nat, n: nat): real
    requires Dims(points, dim) && |assign| == |points| && n <= |points| && j < dim
  {
    if n == 0 then 0.0
    else
      CoordCost(points, assign, c, z, j, dim, n - 1) + if assign[n - 1] == c then Square(z - points[n - 1][j]) else 0.0
  }

  ghost function CoordsCost(points: seq<Vec>, assign: Assignment, c: nat, z: Vec, n: nat, d: nat): real
    requires Dims(points, |z|) && |assign| == |points| && n <= |points| && d <= |z|
  {
    if d == 0 then 0.0
    else CoordsCost(points, assign, c, z, n, d - 1) + CoordCost(points, assign, c, z[d - 1], d - 1, |z|, n)
  }

  lemma NoDistance()
    ensures SqL2([], []) == 0.0
  {
  }

  lemma SqL2Step(a: Vec, b: Vec, d: nat)
    requires |a| == |b| && d < |a|
    ensures SqL2(a[..d + 1], b[..d + 1]) == SqL2(a[..d], b[..d]) + Square(a[d] - b[d])
  {
    assert a[..d + 1][..d] == a[..d] && b[..d + 1][..d] == b[..d];
  }

  lemma {:induction false} CoordsCostStep(points: seq<Vec>, assign: Assignment, c: nat, z: Vec, n: nat, d: nat)
    requires Dims(points, |z|) && |assign| == |points| && 0 < n <= |points| && d <= |z|
    ensures CoordsCost(points, assign, c, z, n, d) == CoordsCost(points, assign, c, z, n - 1, d)
      + if assign[n - 1] == c then SqL2(z[..d], points[n - 1][..d]) else 0.0
    decreases d
  {
    hide SqL2, Square;
    if d > 0 {
      CoordsCostStep(points, assign, c, z, n, d - 1);
      SqL2Step(z, points[n - 1], d - 1);
    } else {
      NoDistance();
      assert z[..0] == [] && points[n - 1][..0] == [];
    }
  }

  lemma {:induction false} NoPointsNoCoords(points: seq<Vec>, assign: Assignment, c: nat, z: Vec, d: nat)
    requires Dims(points, |z|) && |assign| == |points| && d <= |z|
    ensures CoordsCost(points, assign, c, z, 0, d) == 0.0
  {
    if d > 0 {
      NoPointsNoCoords(points, assign, c, z, d - 1);
    }
  }

  lemma {:induction false} ClusterByCoord(points: seq<Vec>, assign: Assignment, c: nat, z: Vec, n: nat)
    requires Dims(points, |z|) && |assign| == |points| && n <= |points|
    ensures ClusterCost(points, assign, c, z, n) == CoordsCost(points, assign, c, z, n, |z|)
  {
    hide SqL2, CoordsCost;
    if n > 0 {
      ClusterByCoord(points, assign, c, z, n - 1);
      CoordsCostStep(points, assign, c, z, n, |z|);
      assert z[..|z|] == z && points[n - 1][..|z|] == points[n - 1];
    } else {
      NoPointsNoCoords(points, assign, c, z, |z|);
    }
  }

  // ---------------------------------------------------------------------------
  // The mean

  ghost function Count(assign: Assignment, c: nat, n: nat): nat
    requires n <= |assign|
  {
    if n == 0 then 0 else Count(assign, c, n - 1) + if assign[n - 1] == c then 1 else 0
  }

  ghost function Sum(points: seq<Vec>, assign: Assignment, c: nat, j: nat, dim: nat, n: nat): real
    requires Dims(points, dim) && |assign| == |points| && n <= |points| && j < dim
  {
    if n == 0 then 0.0
    else Sum(points, assign, c, j, dim, n - 1) + if assign[n - 1] == c then points[n - 1][j] else 0.0
  }

  lemma ShiftedSquare(z: real, m: real, x: real)
    ensures Square(z - x) == Square(m - x) + Square(z) - Square(m) - 2.0 * (z - m) * x
  {
    assert Square(z - x) == z * z - 2.0 * z * x + x * x;
    assert Square(m - x) == m * m - 2.0 * m * x + x * x;
    assert 2.0 * (z - m) * x == 2.0 * z * x - 2.0 * m * x;
  }

  /** What moving from `m` to `z` costs a cluster of `n` values with sum `s`. */
  ghost function Move(n: real, s: real, m: real, z: real): real {
    n * (Square(z) - Square(m)) - 2.0 * (z - m) * s
  }

  lemma MoveStep(n: real, s: real, m: real, z: real, x: real)
    ensures Move(n + 1.0, s + x, m, z) == Move(n, s, m, z) + Square(z - x) - Square(m - x)
  {
    hide Square;
    ShiftedSquare(z, m, x);
    var y, w := Square(z) - Square(m), z - m;
    assert (n + 1.0) * y == n * y + y;
    assert 2.0 * w * (s + x) == 2.0 * w * s + 2.0 * w * x;
  }

  lemma NoMove(m: real, z: real)
    ensures Move(0.0, 0.0, m, z) == 0.0
  {
    hide Square;
    assert 0.0 * (Square(z) - Square(m)) == 0.0;
  }

  /** Moving from `m` to `z` changes the cost by what count and sum say. */
  lemma {:induction false} CostMoved(points: seq<Vec>, assign: Assignment, c: nat, z: real, m: real, j: nat, dim: nat, n: nat)
    requires Dims(points, dim) && |assign| == |points| && n <= |points| && j < dim
    ensures CoordCost(points, assign, c, z, j, dim, n) == CoordCost(points, assign, c, m, j, dim, n)
      + Move(Count(assign, c, n) as real, Sum(points, assign, c, j, dim, n), m, z)
  {
    hide Square, Move;
    if n > 0 {
      CostMoved(points, assign, c, z, m, j, dim, n - 1);
      var q, s := Count(assign, c, n - 1), Sum(points, assign, c, j, dim, n - 1);
      if assign[n - 1] == c {
        MoveStep(q as real, s, m, z, points[n - 1][j]);
        assert Count(assign, c, n) as real == q as real + 1.0;
      }
    } else {
      NoMove(m, z);
    }
  }

  lemma MeanGains(n: real, s: real, m: real, z: real)
    requires n > 0.0 && n * m == s
    ensures Move(n, s, m, z) >= 0.0
  {
    assert Square(z - m) == z * z - 2.0 * z * m + m * m;
    assert n * Square(z - m) == n * (z * z) - 2.0 * z * (n * m) + n * (m * m);
    assert 2.0 * (z - m) * s == 2.0 * z * s - 2.0 * m * s;
    assert m * s == n * (m * m);
    SquareNonNegative(z - m);
  }

  ghost predicate IsMean(points: seq<Vec>, assign: Assignment, c: nat, m: Vec)
    requires Dims(points, |m|) && |assign| == |points|
  {
    forall j :: 0 <= j < |m| ==>
      Count(assign, c, |points|) as real * m[j] == Sum(points, assign, c, j, |m|, |points|)
  }

  /** No vector serves a cluster better than its mean. */
  lemma MeanIsBest(points: seq<Vec>, assign: Assignment, c: nat, m: Vec, z: Vec)
    requires Dims(points, |m|) && |z| == |m| && |assign| == |points|
    requires Count(assign, c, |points|) > 0 && IsMean(points, assign, c, m)
    ensures ClusterCost(points, assign, c, m, |points|) <= ClusterCost(points, assign, c, z, |points|)
  {
    hide ClusterCost, CoordsCost, Count, IsMean;
    ClusterByCoord(points, assign, c, m, |points|);
    ClusterByCoord(points, assign, c, z, |points|);
    MeanIsBestUpTo(points, assign, c, m, z, |m|);
  }

  lemma {:induction false} MeanIsBestUpTo(points: seq<Vec>, assign: Assignment, c: nat, m: Vec, z: Vec, d: nat)
    requires Dims(points, |m|) && |z| == |m| && |assign| == |points| && d <= |m|
    requires Count(assign, c, |points|) > 0 && IsMean(points, assign, c, m)
    ensures CoordsCost(points, assign, c, m, |points|, d) <= CoordsCost(points, assign, c, z, |points|, d)
  {
    hide CoordCost, Count, Sum, Square, Move;
    if d > 0 {
      MeanIsBestUpTo(points, assign, c, m, z, d - 1);
      var j, n := d - 1, |points|;
      CostMoved(points, assign, c, z[j], m[j], j, |m|, n);
      MeanGains(Count(assign, c, n) as real, Sum(points, assign, c, j, |m|, n), m[j], z[j]);
    }
  }

  lemma {:induction false} EmptyCostsNothing(points: seq<Vec>, assign: Assignment, c: nat, z: Vec, n: nat)
    requires Dims(points, |z|) && |assign| == |points| && n <= |points| && Count(assign, c, n) == 0
    ensures ClusterCost(points, assign, c, z, n) == 0.0
  {
    hide SqL2;
    if n > 0 {
      EmptyCostsNothing(points, assign, c, z, n - 1);
    }
  }

  // ---------------------------------------------------------------------------
  // The update step

  /** Each centroid is the mean of its cluster, or one of the points when the cluster is
      empty. */
  ghost predicate Updated(points: seq<Vec>, assign: Assignment, centroids: seq<Vec>, dim: nat)
    requires Clustered(points, assign, centroids, dim)
  {
    forall c :: 0 <= c < |centroids| ==>
      if Count(assign, c, |points|) == 0 then centroids[c] in points else IsMean(points, assign, c, centroids[c])
  }

  /** Moving every centroid never raises the cost, wherever an empty cell is reseeded. */
  lemma UpdateIsCheaper(points: seq<Vec>, assign: Assignment, before: seq<Vec>, after: seq<Vec>, dim: nat)
    requires Clustered(points, assign, before, dim) && Clustered(points, assign, after, dim) && |before| == |after|
    requires Updated(points, assign, after, dim)
    ensures Cost(points, assign, after, dim) <= Cost(points, assign, before, dim)
  {
    hide CostUpTo, ClustersCost;
    CostByCluster(points, assign, before, dim, |points|);
    CostByCluster(points, assign, after, dim, |points|);
    UpdateIsCheaperUpTo(points, assign, before, after, dim, |after|);
  }

  lemma {:induction false} UpdateIsCheaperUpTo(points: seq<Vec>, assign: Assignment, before: seq<Vec>, after: seq<Vec>, dim: nat, k: nat)
    requires Clustered(points, assign, before, dim) && Clustered(points, assign, after, dim) && |before| == |after|
    requires Updated(points, assign, after, dim) && k <= |after|
    ensures ClustersCost(points, assign, after, dim, |points|, k) <= ClustersCost(points, assign, before, dim, |points|, k)
  {
    hide ClusterCost, Count, IsMean;
    if k > 0 {
      UpdateIsCheaperUpTo(points, assign, before, after, dim, k - 1);
      var c := k - 1;
      if Count(assign, c, |points|) == 0 {
        EmptyCostsNothing(points, assign, c, before[c], |points|);
        EmptyCostsNothing(points, assign, c, after[c], |points|);
      } else {
        MeanIsBest(points, assign, c, after[c], before[c]);
      }
    }
  }

  /** The quality of a set of centroids: every point to its nearest. */
  ghost function Distortion(points: seq<Vec>, centroids: seq<Vec>, dim: nat): real
    requires Dims(points, dim) && Dims(centroids, dim) && centroids != []
  {
    Cost(points, NearestAll(points, centroids, dim), centroids, dim)
  }

  /** One Lloyd iteration from any assignment. */
  lemma LloydNeverWorse(points: seq<Vec>, assign: Assignment, before: seq<Vec>, after: seq<Vec>, dim: nat)
    requires Clustered(points, assign, before, dim) && Dims(after, dim) && |before| == |after| > 0
    requires Updated(points, NearestAll(points, before, dim), after, dim)
    ensures Cost(points, NearestAll(points, before, dim), after, dim) <= Cost(points, assign, before, dim)
    ensures Distortion(points, after, dim) <= Distortion(points, before, dim)
  {
    hide CostUpTo, NearestAll, Updated;
    var nearest := NearestAll(points, before, dim);
    NearestIsCheapest(points, assign, before, dim, |points|);
    UpdateIsCheaper(points, nearest, before, after, dim);
    NearestIsCheapest(points, nearest, after, dim, |points|);
  }
}
