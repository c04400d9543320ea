/** Training an index (`Train` in `ivf/index.go`, `trainResidual` in `ivf/engine.go`). */
module IndexTraining {
  import opened Vectors
  import opened ProductQuantizer
  import opened IndexLayout
  import opened VectorIndex
  import Codebooks
  import KMeans

  /** `TrainOpts`; 0 means all vectors, or the same number of iterations. */
  datatype TrainOpts = TrainOpts(coarseIter: nat, coarseSample: nat, pqSample: nat)

  datatype Outcome = Ready(ix: Index) | EmptyLearnSet | BadGeometry

  /** How many vectors a sample of at most `m` out of `n` has. */
  function SampleSize(n: nat, m: nat): nat {
    if m > 0 && m < n then m else n
  }

  /** `subsample`: a reservoir of `m` of the points, or all of them. */
  method Subsample(points: seq<Vec>, m: nat) returns (reservoir: seq<Vec>)
    requires m > 0
    ensures |reservoir| == (if m < |points| then m else |points|) && multiset(reservoir) <= multiset(points)
  {
    var n := |points|;
    if m >= n {
      return points;
    }
    reservoir := points[..m];
    assert points == points[..m] + points[m..];
    for i := m to n
      invariant |reservoir| == m && multiset(reservoir) <= multiset(points[..i])
    {
      assert points[..i + 1] == points[..i] + [points[i]];
      var j: nat :| j <= i;
      if j < m {
        reservoir := reservoir[j := points[i]];
      }
    }
    assert points[..n] == points;
  }

  lemma SampleDims(sample: seq<Vec>, points: seq<Vec>, dim: nat)
    requires Dims(points, dim) && multiset(sample) <= multiset(points)
    ensures Dims(sample, dim)
  {
    forall i | 0 <= i < |sample|
      ensures |sample[i]| == dim
    {
      assert sample[i] in multiset(sample);
      assert sample[i] in points;
    }
  }

  /** What is left of a vector when a centroid that no other is closer than is taken away,
      coordinate by coordinate. */
  ghost predicate IsResidual(coarse: seq<Vec>, v: Vec, r: Vec)
    requires Dims(coarse, |v|)
  {
    exists c :: 0 <= c < |coarse| && IsClosest(coarse, v, c) && IsDifference(r, v, coarse[c])
  }

  ghost predicate IsClosest(coarse: seq<Vec>, v: Vec, c: nat)
    requires Dims(coarse, |v|) && c < |coarse|
  {
    forall d :: 0 <= d < |coarse| ==> SqL2(coarse[c], v) <= SqL2(coarse[d], v)
  }

  ghost predicate IsDifference(r: Vec, a: Vec, b: Vec) {
    |r| == |a| == |b| && forall j :: 0 <= j < |a| ==> r[j] == a[j] - b[j]
  }

  lemma SubIsResidual(coarse: seq<Vec>, v: Vec)
    requires Dims(coarse, |v|) && coarse != []
    ensures IsResidual(coarse, v, Sub(v, coarse[ArgMin(coarse, v)]))
  {
    hide SqL2, ArgMin;
    ArgMinIsLeast(coarse, v);
    assert IsDifference(Sub(v, coarse[ArgMin(coarse, v)]), v, coarse[ArgMin(coarse, v)]);
  }

  ghost predicate AreResiduals(learn: seq<Vec>, dim: nat, coarse: seq<Vec>, residuals: seq<Vec>)
    requires Dims(learn, dim) && Dims(coarse, dim)
  {
    |residuals| == |learn| && forall i :: 0 <= i < |learn| ==> IsResidual(coarse, learn[i], residuals[i])
  }

  method Residuals(learn: seq<Vec>, dim: nat, coarse: seq<Vec>) returns (residuals: seq<Vec>)
    requires Dims(learn, dim) && Dims(coarse, dim) && coarse != []
    ensures AreResiduals(learn, dim, coarse, residuals) && Dims(residuals, dim)
  {
    hide IsResidual, ArgMin;
    residuals := [];
    for i := 0 to |learn|
      invariant |residuals| == i && Dims(residuals, dim)
      invariant forall j :: 0 <= j < i ==> IsResidual(coarse, learn[j], residuals[j])
    {
      var c := Nearest(coarse, learn[i]);
      SubIsResidual(coarse, learn[i]);
      residuals := residuals + [Sub(learn[i], coarse[c])];
    }
  }

  /** A sample of `points`: at most `m` of them, or all when `m` is 0. */
  ghost predicate IsSample(sample: seq<Vec>, points: seq<Vec>, m: nat) {
    |sample| == (if 0 < m < |points| then m else |points|) && multiset(sample) <= multiset(points)
  }

  /** The cells are learned from a sample of the vectors, and each codebook from its slice of
      a sample of the residuals. */
  ghost predicate LearnedBy(learn: seq<Vec>, nlist: nat, m: nat, k: nat, dsub: nat, iter: nat, opts: TrainOpts,
                            coarse: seq<Vec>, q: PQ, coarseLearn: seq<Vec>, residuals: seq<Vec>, pqLearn: seq<Vec>) {
    && Dims(learn, m * dsub) && Dims(coarse, m * dsub)
    && IsSample(coarseLearn, learn, opts.coarseSample)
    && KMeans.Learned(coarseLearn, nlist, if opts.coarseIter > 0 then opts.coarseIter else iter, m * dsub, coarse)
    && AreResiduals(learn, m * dsub, coarse, residuals) && IsSample(pqLearn, residuals, opts.pqSample)
    && q.m == m == |q.codebooks| && q.k == k && q.dsub == dsub
    && forall i :: 0 <= i < m ==> Codebooks.LearnedFromSlices(pqLearn, i, k, iter, dsub, q.codebooks[i])
  }

  /** `trainResidual`. What comes out is fit for an index exactly when there are at least `k`
      residuals to learn from; any number of vectors is enough for the cells. */
  method TrainResidual(learn: seq<Vec>, nlist: nat, m: nat, k: nat, dsub: nat, iter: nat, opts: TrainOpts)
      returns (coarse: seq<Vec>, q: PQ, ghost coarseLearn: seq<Vec>, ghost residuals: seq<Vec>, ghost pqLearn: seq<Vec>)
    requires learn != [] && Dims(learn, m * dsub) && nlist >= 1 && m >= 1 && 1 <= k <= 256
    ensures LearnedBy(learn, nlist, m, k, dsub, iter, opts, coarse, q, coarseLearn, residuals, pqLearn)
    ensures var n := SampleSize(|learn|, opts.coarseSample); |coarse| == if nlist > n then n else nlist
    ensures Geometry(coarse, q) <==> SampleSize(|learn|, opts.pqSample) >= k
  {
    hide Trained, Geometry, Dim, KMeans.Learned, IsResidual, Codebooks.LearnedFromSlices;
    coarse, coarseLearn := TrainCells(learn, m * dsub, nlist, if opts.coarseIter > 0 then opts.coarseIter else iter, opts.coarseSample);
    var all := Residuals(learn, m * dsub, coarse);
    var forCodes := all;
    if opts.pqSample > 0 {
      forCodes := Subsample(all, opts.pqSample);
      SampleDims(forCodes, all, m * dsub);
    }
    residuals, pqLearn := all, forCodes;
    q := TrainCodes(m, k, dsub, forCodes, iter);
    SameDim(q, m, dsub);
    GeometryIf(coarse, q);
  }

  method TrainCells(learn: seq<Vec>, dim: nat, nlist: nat, iter: nat, size: nat) returns (coarse: seq<Vec>, ghost sample: seq<Vec>)
    requires learn != [] && Dims(learn, dim) && nlist >= 1
    ensures IsSample(sample, learn, size) && Dims(coarse, dim)
    ensures KMeans.Learned(sample, nlist, iter, dim, coarse)
    ensures |coarse| == if nlist > |sample| then |sample| else nlist
  {
    hide KMeans.Learned;
    var forCells := learn;
    if size > 0 {
      forCells := Subsample(learn, size);
      SampleDims(forCells, learn, dim);
    }
    sample := forCells;
    ghost var seeds;
    coarse, seeds := KMeans.Cluster(forCells, nlist, iter, dim);
  }

  /** `pq.New` and `Train`, on a sample whose dimension fits. */
  method TrainCodes(m: nat, k: nat, dsub: nat, sample: seq<Vec>, iter: nat) returns (q: PQ)
    requires sample != [] && Dims(sample, m * dsub) && m >= 1 && 1 <= k <= 256
    ensures q.m == m == |q.codebooks| && q.k == k && q.dsub == dsub
    ensures forall i :: 0 <= i < m ==> Codebooks.LearnedFromSlices(sample, i, k, iter, dsub, q.codebooks[i])
    ensures Trained(q) <==> |sample| >= k
  {
    hide Trained, Codebooks.LearnedFromSlices;
    var r := Codebooks.Train(m, k, dsub, sample, iter);
    q := r.value;
  }

  lemma SameDim(q: PQ, m: nat, dsub: nat)
    requires q.m == m && q.dsub == dsub
    ensures Dim(q) == m * dsub
  {
  }

  lemma GeometryIf(coarse: seq<Vec>, q: PQ)
    requires coarse != [] && Dims(coarse, Dim(q))
    ensures Geometry(coarse, q) <==> Trained(q)
  {
    hide Dims, Trained;
  }

  /** `Train` on a new index: an empty learn set or a bad geometry is refused, and otherwise
      the index is empty and fit for use exactly when the quantizer had its `k` residuals. */
  method TrainIndex(hashOf: Vec -> nat, learn: seq<Vec>, d: nat, nlist: nat, m: nat, k: nat, iter: nat, opts: TrainOpts)
      returns (r: Outcome)
    requires Dims(learn, d) && nlist >= 1
    ensures r == EmptyLearnSet <==> learn == []
    ensures r == BadGeometry <==> learn != [] && (m == 0 || d % m != 0 || k < 1 || k > 256)
    ensures r.Ready? ==> fresh(r.ix) && r.ix.entries == [] && r.ix.hashOf == hashOf
    ensures r.Ready? ==> var n := SampleSize(|learn|, opts.coarseSample); |r.ix.coarse| == if nlist > n then n else nlist
    ensures r.Ready? ==> exists coarseLearn, residuals, pqLearn ::
      LearnedBy(learn, nlist, m, k, d / m, iter, opts, r.ix.coarse, r.ix.pq, coarseLearn, residuals, pqLearn)
    ensures r.Ready? ==> (r.ix.Valid() <==> SampleSize(|learn|, opts.pqSample) >= k)
  {
    hide Geometry, Dims, LearnedBy;
    if |learn| == 0 {
      return EmptyLearnSet;
    }
    if m == 0 || d % m != 0 || k == 0 || k > 256 {
      return BadGeometry;
    }
    ghost var coarseLearn, residuals, pqLearn;
    var coarse, q;
    coarse, q, coarseLearn, residuals, pqLearn := TrainResidual(learn, nlist, m, k, d / m, iter, opts);
    var ix := new Index.Load(hashOf, Layout(coarse, q, []), seq(|coarse|, _ => []));
    r := Ready(ix);
  }
}
