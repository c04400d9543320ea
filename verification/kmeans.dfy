/** Lloyd's algorithm with k-means++ seeding (`ivf/kmeans.go`, `pq/kmeans.go`). */
module KMeans {
  import opened Vectors
  import opened KMeansCost

  // ---------------------------------------------------------------------------
  // Seeding

  /** The squared distance from a point to its nearest seed. */
  ghost function Weight(points: seq<Vec>, seeds: seq<Vec>, dim: nat, i: nat): real
    requires Dims(points, dim) && Dims(seeds, dim) && seeds != [] && i < |points|
  {
    SqL2(seeds[NearestFor(points, seeds, dim, i)], points[i])
  }

  ghost function TotalWeight(points: seq<Vec>, seeds: seq<Vec>, dim: nat, n: nat): real
    requires Dims(points, dim) && Dims(seeds, dim) && seeds != [] && n <= |points|
  {
    if n == 0 then 0.0 else TotalWeight(points, seeds, dim, n - 1) + Weight(points, seeds, dim, n - 1)
  }

  lemma WeightStep(points: seq<Vec>, seeds: seq<Vec>, next: Vec, dim: nat, i: nat)
    requires Dims(points, dim) && Dims(seeds, dim) && seeds != [] && |next| == dim && i < |points|
    ensures Dims(seeds + [next], dim) && |points[i]| == dim
    ensures Weight(points, seeds + [next], dim, i)
         == if SqL2(points[i], next) < Weight(points, seeds, dim, i) then SqL2(points[i], next) else Weight(points, seeds, dim, i)
  {
    hide SqL2;
    assert (seeds + [next])[..|seeds|] == seeds;
    SqL2Symmetric(points[i], next);
  }

  lemma WeightNonNegative(points: seq<Vec>, seeds: seq<Vec>, dim: nat, i: nat)
    requires Dims(points, dim) && Dims(seeds, dim) && seeds != [] && i < |points|
    ensures Weight(points, seeds, dim, i) >= 0.0
  {
    hide SqL2, ArgMin;
    SqL2NonNegative(seeds[NearestFor(points, seeds, dim, i)], points[i]);
  }

  lemma {:induction false} TotalGrows(points: seq<Vec>, seeds: seq<Vec>, dim: nat, m: nat, n: nat)
    requires Dims(points, dim) && Dims(seeds, dim) && seeds != [] && m <= n <= |points|
    ensures TotalWeight(points, seeds, dim, m) <= TotalWeight(points, seeds, dim, n)
    decreases n
  {
    hide Weight;
    if m < n {
      TotalGrows(points, seeds, dim, m, n - 1);
      WeightNonNegative(points, seeds, dim, n - 1);
    }
  }

  lemma ZeroTotal(points: seq<Vec>, seeds: seq<Vec>, dim: nat, i: nat)
    requires Dims(points, dim) && Dims(seeds, dim) && seeds != [] && i < |points|
    requires TotalWeight(points, seeds, dim, |points|) == 0.0
    ensures Weight(points, seeds, dim, i) == 0.0
  {
    hide Weight;
    TotalGrows(points, seeds, dim, 0, i);
    WeightNonNegative(points, seeds, dim, i);
    TotalGrows(points, seeds, dim, i + 1, |points|);
  }

  /** Point `i` is where the running total first reaches `target`. */
  ghost predicate FirstReach(points: seq<Vec>, seeds: seq<Vec>, dim: nat, i: nat, target: real)
    requires Dims(points, dim) && Dims(seeds, dim) && seeds != [] && i < |points|
  {
    && target <= TotalWeight(points, seeds, dim, i + 1)
    && forall j :: 0 < j <= i ==> TotalWeight(points, seeds, dim, j) < target
  }

  ghost predicate Reachable(points: seq<Vec>, seeds: seq<Vec>, dim: nat, i: nat)
    requires Dims(points, dim) && Dims(seeds, dim) && seeds != [] && i < |points|
  {
    exists target :: 0.0 <= target < TotalWeight(points, seeds, dim, |points|) && FirstReach(points, seeds, dim, i, target)
  }

  /** Which points can be drawn while any point is away from every seed: those that are
      away themselves, and the very first point, which a draw of exactly 0 picks whatever
      its weight. */
  lemma ReachableIff(points: seq<Vec>, seeds: seq<Vec>, dim: nat, i: nat)
    requires Dims(points, dim) && Dims(seeds, dim) && seeds != [] && i < |points|
    requires TotalWeight(points, seeds, dim, |points|) > 0.0
    ensures Reachable(points, seeds, dim, i) <==> i == 0 || Weight(points, seeds, dim, i) > 0.0
  {
    hide Weight;
    WeightNonNegative(points, seeds, dim, i);
    TotalGrows(points, seeds, dim, i + 1, |points|);
    if i == 0 {
      assert FirstReach(points, seeds, dim, 0, 0.0);
    } else if Weight(points, seeds, dim, i) > 0.0 {
      var target := TotalWeight(points, seeds, dim, i) + Weight(points, seeds, dim, i) / 2.0;
      TotalGrows(points, seeds, dim, 0, i);
      forall j | 0 < j <= i
        ensures TotalWeight(points, seeds, dim, j) < target
      {
        TotalGrows(points, seeds, dim, j, i);
      }
      assert FirstReach(points, seeds, dim, i, target);
    }
  }

  lemma WeightMeans(points: seq<Vec>, seeds: seq<Vec>, dim: nat, i: nat)
    requires Dims(points, dim) && Dims(seeds, dim) && seeds != [] && i < |points|
    ensures Weight(points, seeds, dim, i) > 0.0 <==> points[i] !in seeds
    ensures forall s :: 0 <= s < |seeds| ==> Weight(points, seeds, dim, i) <= SqL2(seeds[s], points[i])
  {
    hide SqL2, ArgMin;
    var best := NearestFor(points, seeds, dim, i);
    ArgMinIsLeast(seeds, points[i]);
    WeightNonNegative(points, seeds, dim, i);
    SqL2Zero(seeds[best], points[i]);
    if s :| 0 <= s < |seeds| && seeds[s] == points[i] {
      SqL2Zero(seeds[s], points[i]);
    }
  }

  lemma {:induction false} SomeWeight(points: seq<Vec>, seeds: seq<Vec>, dim: nat, n: nat)
    requires Dims(points, dim) && Dims(seeds, dim) && seeds != [] && n <= |points|
    ensures TotalWeight(points, seeds, dim, n) > 0.0 <==> exists p :: 0 <= p < n && points[p] !in seeds
  {
    hide Weight;
    if n > 0 {
      SomeWeight(points, seeds, dim, n - 1);
      WeightMeans(points, seeds, dim, n - 1);
      WeightNonNegative(points, seeds, dim, n - 1);
      TotalGrows(points, seeds, dim, 0, n - 1);
    }
  }

  /** As long as some point is no seed yet, the next seed is one of those, or the very first
      point. */
  lemma DrawnIff(points: seq<Vec>, seeds: seq<Vec>, dim: nat, i: nat)
    requires Dims(points, dim) && Dims(seeds, dim) && seeds != [] && i < |points|
    requires exists p :: 0 <= p < |points| && points[p] !in seeds
    ensures Reachable(points, seeds, dim, i) <==> i == 0 || points[i] !in seeds
  {
    hide Weight, Reachable, TotalWeight;
    SomeWeight(points, seeds, dim, |points|);
    WeightMeans(points, seeds, dim, i);
    ReachableIff(points, seeds, dim, i);
  }

  /** The very first point is drawn again although it is a seed already and another point is
      away from every seed. */
  lemma FirstDrawnAgain()
    ensures var points, seeds: seq<Vec> := [[0.0], [1.0]], [[0.0]];
      && Weight(points, seeds, 1, 0) == 0.0 && Weight(points, seeds, 1, 1) == 1.0
      && TotalWeight(points, seeds, 1, 2) == 1.0
      && Reachable(points, seeds, 1, 0) && Seeded(points, seeds + [points[0]], 1)
  {
    var points, seeds: seq<Vec> := [[0.0], [1.0]], [[0.0]];
    assert [0.0][..0] == [] && [1.0][..0] == [];
    assert SqL2([0.0], [0.0]) == 0.0 && SqL2([0.0], [1.0]) == 1.0;
    assert TotalWeight(points, seeds, 1, 0) == 0.0;
    assert TotalWeight(points, seeds, 1, 1) == 0.0;
    hide SqL2, Weight;
    ReachableIff(points, seeds, 1, 0);
    assert Drawn(points, seeds, 1, points[0]);
    SeededStep(points, seeds, points[0], 1);
  }

  /** How a later seed is chosen, given the earlier ones. */
  ghost predicate Drawn(points: seq<Vec>, seeds: seq<Vec>, dim: nat, next: Vec)
    requires Dims(points, dim) && Dims(seeds, dim) && seeds != []
  {
    exists i :: 0 <= i < |points| && points[i] == next
      && (TotalWeight(points, seeds, dim, |points|) == 0.0 || Reachable(points, seeds, dim, i))
  }

  ghost predicate Seeded(points: seq<Vec>, seeds: seq<Vec>, dim: nat)
    requires Dims(points, dim) && Dims(seeds, dim)
  {
    && (seeds != [] ==> seeds[0] in points)
    && forall t :: 1 <= t < |seeds| ==> Drawn(points, seeds[..t], dim, seeds[t])
  }

  /** The weighted pick: a random target below the total, and the first point to reach it. */
  method Pick(points: seq<Vec>, ghost seeds: seq<Vec>, dim: nat, d2: array<real>, sum: real) returns (idx: nat)
    requires Dims(points, dim) && Dims(seeds, dim) && seeds != [] && d2.Length == |points| > 0
    requires forall i :: 0 <= i < |points| ==> d2[i] == Weight(points, seeds, dim, i)
    requires sum == TotalWeight(points, seeds, dim, |points|) > 0.0
    ensures idx < |points| && Reachable(points, seeds, dim, idx)
  {
    hide Weight;
    var random: real :| 0.0 <= random < 1.0;
    var target := Scale(random, sum);
    idx := |points| - 1;
    var acc, i := 0.0, 0;
    while i < |points|
      invariant 0 <= i <= |points| && acc == TotalWeight(points, seeds, dim, i) && idx == |points| - 1
      invariant i > 0 ==> acc < target
      invariant forall j :: 0 < j <= i ==> TotalWeight(points, seeds, dim, j) < target
    {
      acc := acc + d2[i];
      if acc >= target {
        idx := i;
        assert FirstReach(points, seeds, dim, idx, target);
        break;
      }
      i := i + 1;
    }
    assert FirstReach(points, seeds, dim, idx, target);
  }

  function Scale(r: real, sum: real): (target: real)
    requires 0.0 <= r < 1.0 && sum > 0.0
    ensures 0.0 <= target < sum
  {
    assert (1.0 - r) * sum > 0.0;
    r * sum
  }

  /** The distances are kept up to date against the newest seed only. */
  method Refresh(points: seq<Vec>, ghost seeds: seq<Vec>, next: Vec, dim: nat, d2: array<real>) returns (sum: real)
    requires Dims(points, dim) && Dims(seeds, dim) && seeds != [] && |next| == dim && d2.Length == |points|
    requires forall i :: 0 <= i < |points| ==> d2[i] == Weight(points, seeds, dim, i)
    modifies d2
    ensures Dims(seeds + [next], dim)
    ensures forall i :: 0 <= i < |points| ==> d2[i] == Weight(points, seeds + [next], dim, i)
    ensures sum == TotalWeight(points, seeds + [next], dim, |points|)
  {
    hide Weight, SqL2;
    sum := 0.0;
    ghost var more := seeds + [next];
    for i := 0 to |points|
      invariant Dims(more, dim) && sum == TotalWeight(points, more, dim, i)
      invariant forall j :: 0 <= j < i ==> d2[j] == Weight(points, more, dim, j)
      invariant forall j :: i <= j < |points| ==> d2[j] == Weight(points, seeds, dim, j)
    {
      WeightStep(points, seeds, next, dim, i);
      var dd := SquaredDistance(points[i], next);
      if dd < d2[i] {
        d2[i] := dd;
      }
      sum := sum + d2[i];
    }
  }

  lemma PaddingKeeps(points: seq<Vec>, seeds: seq<Vec>, next: Vec, dim: nat)
    requires Dims(points, dim) && Dims(seeds, dim) && seeds != [] && |next| == dim
    requires TotalWeight(points, seeds, dim, |points|) == 0.0
    ensures Dims(seeds + [next], dim)
    ensures forall i :: 0 <= i < |points| ==> Weight(points, seeds + [next], dim, i) == Weight(points, seeds, dim, i)
    ensures TotalWeight(points, seeds + [next], dim, |points|) == 0.0
  {
    hide Weight, SqL2;
    assert Dims(seeds + [next], dim);
    forall i | 0 <= i < |points|
      ensures Weight(points, seeds + [next], dim, i) == Weight(points, seeds, dim, i) == 0.0
    {
      ZeroTotal(points, seeds, dim, i);
      WeightStep(points, seeds, next, dim, i);
      SqL2NonNegative(points[i], next);
    }
    AllZero(points, seeds + [next], dim, |points|);
  }

  lemma {:induction false} AllZero(points: seq<Vec>, seeds: seq<Vec>, dim: nat, n: nat)
    requires Dims(points, dim) && Dims(seeds, dim) && seeds != [] && n <= |points|
    requires forall i :: 0 <= i < |points| ==> Weight(points, seeds, dim, i) == 0.0
    ensures TotalWeight(points, seeds, dim, n) == 0.0
  {
    hide Weight;
    if n > 0 {
      AllZero(points, seeds, dim, n - 1);
    }
  }

  lemma SeededStep(points: seq<Vec>, seeds: seq<Vec>, next: Vec, dim: nat)
    requires Dims(points, dim) && Dims(seeds, dim) && seeds != [] && |next| == dim
    requires Seeded(points, seeds, dim) && Drawn(points, seeds, dim, next)
    ensures Dims(seeds + [next], dim) && Seeded(points, seeds + [next], dim)
  {
    hide Drawn;
    var more := seeds + [next];
    forall t | 1 <= t < |more|
      ensures Drawn(points, more[..t], dim, more[t])
    {
      if t == |seeds| {
        assert more[..t] == seeds;
      } else {
        assert more[..t] == seeds[..t];
        assert Drawn(points, seeds[..t], dim, seeds[t]);
      }
    }
  }

  method FirstDistances(points: seq<Vec>, first: Vec, dim: nat) returns (d2: array<real>, sum: real)
    requires Dims(points, dim) && |first| == dim
    ensures fresh(d2) && d2.Length == |points|
    ensures forall i :: 0 <= i < |points| ==> d2[i] == Weight(points, [first], dim, i)
    ensures sum == TotalWeight(points, [first], dim, |points|)
  {
    hide SqL2;
    d2 := new real[|points|];
    sum := 0.0;
    for i := 0 to |points|
      invariant sum == TotalWeight(points, [first], dim, i)
      invariant forall j :: 0 <= j < i ==> d2[j] == Weight(points, [first], dim, j)
    {
      SqL2Symmetric(points[i], first);
      var d := SquaredDistance(points[i], first);
      d2[i] := d;
      sum := sum + d2[i];
    }
  }

  /** `kmeansppInit` */
  method Seed(points: seq<Vec>, k: nat, dim: nat) returns (seeds: seq<Vec>)
    requires Dims(points, dim) && 1 <= k <= |points|
    ensures |seeds| == k && Dims(seeds, dim) && Seeded(points, seeds, dim)
  {
    hide Weight, Reachable, TotalWeight, Drawn;
    var r: nat :| r < |points|;
    var first := points[r];
    seeds := [first];
    var d2, sum := FirstDistances(points, first, dim);
    while |seeds| < k
      invariant fresh(d2) && d2.Length == |points|
      invariant 1 <= |seeds| <= k && Dims(seeds, dim) && Seeded(points, seeds, dim)
      invariant forall i :: 0 <= i < |points| ==> d2[i] == Weight(points, seeds, dim, i)
      invariant sum == TotalWeight(points, seeds, dim, |points|)
    {
      NonNegativeTotal(points, seeds, dim);
      if sum == 0.0 {
        var any: nat :| any < |points|;
        AnyPoint(points, seeds, dim, any);
        PaddingKeeps(points, seeds, points[any], dim);
        SeededStep(points, seeds, points[any], dim);
        seeds := seeds + [points[any]];
      } else {
        var idx := Pick(points, seeds, dim, d2, sum);
        AnyPoint(points, seeds, dim, idx);
        SeededStep(points, seeds, points[idx], dim);
        sum := Refresh(points, seeds, points[idx], dim, d2);
        seeds := seeds + [points[idx]];
      }
    }
  }

  lemma NonNegativeTotal(points: seq<Vec>, seeds: seq<Vec>, dim: nat)
    requires Dims(points, dim) && Dims(seeds, dim) && seeds != []
    ensures TotalWeight(points, seeds, dim, |points|) >= 0.0
  {
    hide Weight;
    TotalGrows(points, seeds, dim, 0, |points|);
  }

  lemma AnyPoint(points: seq<Vec>, seeds: seq<Vec>, dim: nat, i: nat)
    requires Dims(points, dim) && Dims(seeds, dim) && seeds != [] && i < |points|
    requires TotalWeight(points, seeds, dim, |points|) == 0.0 || Reachable(points, seeds, dim, i)
    ensures Drawn(points, seeds, dim, points[i]) && |points[i]| == dim
  {
    hide TotalWeight, Reachable;
  }

  // ---------------------------------------------------------------------------
  // Lloyd's iteration

  method Assign(points: seq<Vec>, centroids: seq<Vec>, dim: nat, assign: array<nat>) returns (changed: bool)
    requires Dims(points, dim) && Dims(centroids, dim) && centroids != [] && assign.Length == |points|
    modifies assign
    ensures assign[..] == NearestAll(points, centroids, dim)
    ensures changed <==> assign[..] != old(assign[..])
  {
    hide ArgMin;
    changed := false;
    ghost var before := assign[..];
    for i := 0 to |points|
      invariant forall j :: 0 <= j < i ==> assign[j] == NearestFor(points, centroids, dim, j)
      invariant forall j :: i <= j < |points| ==> assign[j] == before[j]
      invariant changed <==> assign[..i] != before[..i]
    {
      var b := Nearest(centroids, points[i]);
      if assign[i] != b {
        assign[i], changed := b, true;
      }
      assert assign[..i + 1] == assign[..i] + [assign[i]] && before[..i + 1] == before[..i] + [before[i]];
    }
    assert assign[..|points|] == assign[..] && before[..|points|] == before;
  }

  ghost predicate Accumulated(points: seq<Vec>, assign: Assignment, dim: nat, k: nat, n: nat, sums: array2<real>, counts: array<nat>)
    requires Dims(points, dim) && |assign| == |points| && n <= |points|
    reads sums, counts
  {
    && counts.Length == k && sums.Length0 == k && sums.Length1 == dim
    && (forall c :: 0 <= c < k ==> counts[c] == Count(assign, c, n))
    && forall c, j :: 0 <= c < k && 0 <= j < dim ==> sums[c, j] == Sum(points, assign, c, j, dim, n)
  }

  lemma NothingAccumulated(points: seq<Vec>, assign: Assignment, dim: nat, k: nat, sums: array2<real>, counts: array<nat>)
    requires Dims(points, dim) && |assign| == |points|
    requires counts.Length == k && sums.Length0 == k && sums.Length1 == dim
    requires forall c :: 0 <= c < k ==> counts[c] == 0
    requires forall c, j :: 0 <= c < k && 0 <= j < dim ==> sums[c, j] == 0.0
    ensures Accumulated(points, assign, dim, k, 0, sums, counts)
  {
  }

  method Accumulate(points: seq<Vec>, assign: array<nat>, dim: nat, k: nat) returns (sums: array2<real>, counts: array<nat>)
    requires Dims(points, dim) && assign.Length == |points|
    requires forall i :: 0 <= i < |points| ==> assign[i] < k
    ensures fresh(sums) && fresh(counts) && Accumulated(points, assign[..], dim, k, |points|, sums, counts)
  {
    hide Accumulated;
    sums := new real[k, dim]((_, _) => 0.0);
    counts := new nat[k](_ => 0);
    ghost var groups := assign[..];
    NothingAccumulated(points, groups, dim, k, sums, counts);
    for i := 0 to |points|
      invariant fresh(sums) && fresh(counts) && assign[..] == groups
      invariant Accumulated(points, groups, dim, k, i, sums, counts)
    {
      AddPoint(points, groups, dim, k, i, assign[i], sums, counts);
    }
  }

  method AddPoint(points: seq<Vec>, ghost groups: Assignment, dim: nat, k: nat, i: nat, c: nat, sums: array2<real>, counts: array<nat>)
    requires Dims(points, dim) && |groups| == |points| && i < |points| && groups[i] == c < k
    requires Accumulated(points, groups, dim, k, i, sums, counts)
    modifies sums, counts
    ensures Accumulated(points, groups, dim, k, i + 1, sums, counts)
  {
    var p := points[i];
    assert forall x :: 0 <= x < k ==> Count(groups, x, i + 1) == Count(groups, x, i) + if x == c then 1 else 0;
    counts[c] := counts[c] + 1;
    hide Count;
    for j := 0 to dim
      invariant forall x :: 0 <= x < k ==> counts[x] == Count(groups, x, i + 1)
      invariant forall x, y :: 0 <= x < k && 0 <= y < dim ==> 
        sums[x, y] == (if x == c && y < j then Sum(points, groups, x, y, dim, i + 1) else Sum(points, groups, x, y, dim, i))
    {
      sums[c, j] := sums[c, j] + p[j];
    }
    assert forall x, y :: 0 <= x < k && 0 <= y < dim ==> sums[x, y] == Sum(points, groups, x, y, dim, i + 1);
  }

  lemma ScaledSum(n: real, inv: real, s: real)
    requires n > 0.0 && inv == 1.0 / n
    ensures n * (s * inv) == s
  {
    assert n * inv == 1.0;
    assert n * (s * inv) == s * (n * inv);
  }

  /** The mean of one non-empty cell. */
  method Mean(points: seq<Vec>, ghost groups: Assignment, dim: nat, k: nat, c: nat, sums: array2<real>, counts: array<nat>) returns (m: Vec)
    requires Dims(points, dim) && |groups| == |points| && c < k
    requires Accumulated(points, groups, dim, k, |points|, sums, counts) && counts[c] > 0
    ensures |m| == dim && IsMean(points, groups, c, m)
  {
    hide Count, Sum;
    var inv := 1.0 / counts[c] as real;
    m := [];
    for j := 0 to dim
      invariant |m| == j && forall y :: 0 <= y < j ==> m[y] == sums[c, y] * inv
    {
      m := m + [sums[c, j] * inv];
    }
    forall j | 0 <= j < dim
      ensures Count(groups, c, |points|) as real * m[j] == Sum(points, groups, c, j, dim, |points|)
    {
      ScaledSum(counts[c] as real, inv, sums[c, j]);
    }
  }

  ghost predicate UpdatedOne(points: seq<Vec>, groups: Assignment, dim: nat, c: nat, m: Vec)
    requires Dims(points, dim) && |groups| == |points| && |m| == dim
  {
    if Count(groups, c, |points|) == 0 then m in points else IsMean(points, groups, c, m)
  }

  lemma UpdatedIf(points: seq<Vec>, groups: Assignment, dim: nat, c: nat, m: Vec)
    requires Dims(points, dim) && |groups| == |points| && |m| == dim
    requires if Count(groups, c, |points|) == 0 then m in points else IsMean(points, groups, c, m)
    ensures UpdatedOne(points, groups, dim, c, m)
  {
  }

  lemma AllUpdated(points: seq<Vec>, groups: Assignment, centroids: seq<Vec>, dim: nat)
    requires Clustered(points, groups, centroids, dim)
    requires forall c :: 0 <= c < |centroids| ==> UpdatedOne(points, groups, dim, c, centroids[c])
    ensures Updated(points, groups, centroids, dim)
  {
    hide Count, IsMean;
  }

  /** Every centroid becomes the mean of its cell, or a random point when it has none. */
  method Recentre(points: seq<Vec>, ghost groups: Assignment, dim: nat, centroids: array<Vec>, sums: array2<real>, counts: array<nat>)
    requires Dims(points, dim) && |groups| == |points| > 0 && Dims(centroids[..], dim)
    requires Accumulated(points, groups, dim, centroids.Length, |points|, sums, counts)
    modifies centroids
    ensures Dims(centroids[..], dim)
    ensures forall c :: 0 <= c < centroids.Length ==> |centroids[c]| == dim && UpdatedOne(points, groups, dim, c, centroids[c])
  {
    hide UpdatedOne, Count, IsMean;
    for c := 0 to centroids.Length
      invariant Accumulated(points, groups, dim, centroids.Length, |points|, sums, counts)
      invariant forall x :: 0 <= x < centroids.Length ==> |centroids[x]| == dim
      invariant forall x :: 0 <= x < c ==> UpdatedOne(points, groups, dim, x, centroids[x])
    {
      if counts[c] == 0 {
        var r: nat :| r < |points|;
        centroids[c] := points[r];
      } else {
        centroids[c] := Mean(points, groups, dim, centroids.Length, c, sums, counts);
      }
      UpdatedIf(points, groups, dim, c, centroids[c]);
    }
  }

  /** One iteration: the cost never rises, from whatever assignment it starts. */
  method Iterate(points: seq<Vec>, dim: nat, centroids: array<Vec>, assign: array<nat>) returns (changed: bool)
    requires centroids.Length > 0 && |points| > 0 && Clustered(points, assign[..], centroids[..], dim)
    modifies centroids, assign
    ensures Clustered(points, assign[..], centroids[..], dim)
    ensures assign[..] == NearestAll(points, old(centroids[..]), dim) && Updated(points, assign[..], centroids[..], dim)
    ensures changed <==> assign[..] != old(assign[..])
    ensures Cost(points, assign[..], centroids[..], dim) <= Cost(points, old(assign[..]), old(centroids[..]), dim)
    ensures Distortion(points, centroids[..], dim) <= Distortion(points, old(centroids[..]), dim)
  {
    hide Accumulated, UpdatedOne, Cost, NearestAll, Distortion;
    ghost var before, start := centroids[..], assign[..];
    changed := Assign(points, centroids[..], dim, assign);
    ghost var groups := assign[..];
    assert forall i :: 0 <= i < |points| ==> groups[i] < |before|;
    var sums, counts := Accumulate(points, assign, dim, centroids.Length);
    Recentre(points, groups, dim, centroids, sums, counts);
    ghost var after := centroids[..];
    AllUpdated(points, groups, after, dim);
    LloydNeverWorse(points, start, before, after, dim);
  }

  lemma NothingSeeded(points: seq<Vec>, dim: nat)
    requires Dims(points, dim)
    ensures Seeded(points, [], dim)
  {
  }

  /** One iteration: every centroid becomes the mean of the points that are nearest to it,
      or one of the points when there are none. */
  ghost predicate Moved(points: seq<Vec>, before: seq<Vec>, after: seq<Vec>, dim: nat)
    requires Dims(points, dim)
  {
    && Dims(before, dim) && Dims(after, dim) && before != [] && |after| == |before|
    && Updated(points, NearestAll(points, before, dim), after, dim)
  }

  ghost predicate SameGroups(points: seq<Vec>, a: seq<Vec>, b: seq<Vec>, dim: nat)
    requires Dims(points, dim)
  {
    Dims(a, dim) && Dims(b, dim) && a != [] && b != [] && NearestAll(points, a, dim) == NearestAll(points, b, dim)
  }

  /** The centroids before and after each iteration: as many iterations as allowed, or until
      the assignment of the points is the same for the second time. */
  ghost predicate Lloyd(points: seq<Vec>, dim: nat, maxIter: nat, trace: seq<seq<Vec>>)
    requires Dims(points, dim)
  {
    var n := |trace| - 1;
    && 0 <= n <= maxIter
    && (forall t :: 0 <= t < n ==> Moved(points, trace[t], trace[t + 1], dim))
    && (forall t :: 1 <= t < n - 1 ==> !SameGroups(points, trace[t - 1], trace[t], dim))
    && (n < maxIter ==> n >= 2 && SameGroups(points, trace[n - 2], trace[n - 1], dim))
  }

  /** Learned from the points: k-means++ seeds, moved by Lloyd's iteration to centroids that
      are no worse. */
  ghost predicate LearnedFrom(points: seq<Vec>, k: nat, maxIter: nat, dim: nat, seeds: seq<Vec>, trace: seq<seq<Vec>>, book: seq<Vec>)
    requires Dims(points, dim)
  {
    && points != [] && |seeds| == |book| == (if k > |points| then |points| else k) && seeds != []
    && Dims(seeds, dim) && Dims(book, dim) && Seeded(points, seeds, dim)
    && Lloyd(points, dim, maxIter, trace) && trace[0] == seeds && trace[|trace| - 1] == book
    && Distortion(points, book, dim) <= Distortion(points, seeds, dim)
  }

  ghost predicate Learned(points: seq<Vec>, k: nat, maxIter: nat, dim: nat, book: seq<Vec>) {
    Dims(points, dim) && exists seeds, trace :: LearnedFrom(points, k, maxIter, dim, seeds, trace, book)
  }

  /** What the loop of `Cluster` has done so far. */
  ghost predicate Underway(points: seq<Vec>, dim: nat, trace: seq<seq<Vec>>, assign: Assignment)
    requires Dims(points, dim)
  {
    var n := |trace| - 1;
    && 0 <= n
    && (forall t :: 0 <= t < n ==> Moved(points, trace[t], trace[t + 1], dim))
    && (forall t :: 1 <= t < n ==> !SameGroups(points, trace[t - 1], trace[t], dim))
    && (n > 0 ==> Dims(trace[n - 1], dim) && trace[n - 1] != [] && assign == NearestAll(points, trace[n - 1], dim))
  }

  lemma StillUnderway(points: seq<Vec>, dim: nat, trace: seq<seq<Vec>>, assign: Assignment, next: seq<Vec>, assign': Assignment)
    requires Dims(points, dim) && Underway(points, dim, trace, assign)
    requires Moved(points, trace[|trace| - 1], next, dim) && assign' == NearestAll(points, trace[|trace| - 1], dim)
    requires |trace| > 1 ==> assign' != assign
    ensures Underway(points, dim, trace + [next], assign')
  {
    hide NearestAll, Updated;
    var more, n := trace + [next], |trace|;
    assert forall t :: 0 <= t < n ==> more[t] == trace[t];
  }

  lemma Settled(points: seq<Vec>, dim: nat, trace: seq<seq<Vec>>, assign: Assignment, next: seq<Vec>, maxIter: nat)
    requires Dims(points, dim) && Underway(points, dim, trace, assign) && 1 < |trace| <= maxIter
    requires Moved(points, trace[|trace| - 1], next, dim) && assign == NearestAll(points, trace[|trace| - 1], dim)
    ensures Lloyd(points, dim, maxIter, trace + [next])
  {
    hide NearestAll, Updated;
    var more, n := trace + [next], |trace|;
    assert forall t :: 0 <= t < n ==> more[t] == trace[t];
    assert Moved(points, trace[n - 2], trace[n - 2 + 1], dim);
  }

  lemma AllRounds(points: seq<Vec>, dim: nat, trace: seq<seq<Vec>>, assign: Assignment)
    requires Dims(points, dim) && Underway(points, dim, trace, assign)
    ensures Lloyd(points, dim, |trace| - 1, trace)
  {
    hide Moved, SameGroups;
  }

  /** `coarseKMeans` and `kmeans`: at most `k` centroids, learned by k-means++ and Lloyd. */
  method Cluster(points: seq<Vec>, k: nat, maxIter: nat, ghost dim: nat) returns (result: seq<Vec>, ghost seeds: seq<Vec>)
    requires Dims(points, dim) && k >= 1
    ensures points == [] ==> result == []
    ensures |result| == |seeds| == (if k > |points| then |points| else k)
    ensures Dims(result, dim) && Dims(seeds, dim) && Seeded(points, seeds, dim)
    ensures points != [] ==> Distortion(points, result, dim) <= Distortion(points, seeds, dim)
    ensures points != [] ==> Learned(points, k, maxIter, dim, result)
  {
    hide Seeded, Distortion, Cost, Updated, NearestAll, Underway, Lloyd, SameGroups;
    if |points| == 0 {
      NothingSeeded(points, dim);
      return [], [];
    }
    var d := |points[0]|;
    var cells := if k > |points| then |points| else k;
    var start := Seed(points, cells, d);
    seeds := start;
    var centroids := new Vec[cells](i requires 0 <= i < cells => start[i]);
    assert centroids[..] == start;
    var assign := new nat[|points|](_ => 0);
    var iter := 0;
    ghost var trace := [seeds];
    assert Underway(points, dim, trace, assign[..]) by { NotMovedYet(points, dim, seeds, assign[..]); }
    while iter < maxIter
      invariant fresh(centroids) && fresh(assign) && centroids.Length == cells
      invariant Clustered(points, assign[..], centroids[..], dim)
      invariant Distortion(points, centroids[..], dim) <= Distortion(points, seeds, dim)
      invariant iter <= maxIter && |trace| == iter + 1 && trace[0] == seeds && trace[iter] == centroids[..]
      invariant Underway(points, dim, trace, assign[..])
    {
      ghost var groups := assign[..];
      var changed := Iterate(points, d, centroids, assign);
      assert Moved(points, trace[iter], centroids[..], dim);
      if !changed && iter > 0 {
        Settled(points, dim, trace, groups, centroids[..], maxIter);
        trace := trace + [centroids[..]];
        result := centroids[..];
        assert LearnedFrom(points, k, maxIter, dim, seeds, trace, result);
        return;
      }
      StillUnderway(points, dim, trace, groups, centroids[..], assign[..]);
      trace := trace + [centroids[..]];
      iter := iter + 1;
    }
    AllRounds(points, dim, trace, assign[..]);
    result := centroids[..];
    assert LearnedFrom(points, k, maxIter, dim, seeds, trace, result);
  }

  lemma NotMovedYet(points: seq<Vec>, dim: nat, seeds: seq<Vec>, assign: Assignment)
    requires Dims(points, dim)
    ensures Underway(points, dim, [seeds], assign)
  {
  }
}
