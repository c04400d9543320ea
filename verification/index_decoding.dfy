/** The vectors that the index's codes stand for (`ivf/index.go`, `pq/pq.go`). */
module IndexDecoding {
  import opened Vectors
  import opened TopK
  import opened ProductQuantizer
  import opened IndexLayout
  import opened IndexSearch

  /** The vector that a stored handle stands for: its cell's centroid plus what its code
      reconstructs. */
  ghost function Decoded(coarse: seq<Vec>, pq: PQ, h: Handle): (r: Vec)
    requires Geometry(coarse, pq) && Encoded(coarse, pq, h)
    ensures |r| == Dim(pq)
  {
    Plus(coarse[h.cell], Reconstruct(pq, h.code))
  }

  /** Coordinate `j` of piece `i` of a decoded vector: the centroid's coordinate plus that of
      the codebook entry that the code names for the piece. */
  lemma DecodedAt(coarse: seq<Vec>, pq: PQ, h: Handle, i: nat, j: nat)
    requires Geometry(coarse, pq) && Encoded(coarse, pq, h) && i < pq.m && j < pq.dsub
    ensures Book(pq.codebooks[i], pq.k, pq.dsub) && i * pq.dsub + j < Dim(pq)
    ensures Decoded(coarse, pq, h)[i * pq.dsub + j]
         == coarse[h.cell][i * pq.dsub + j] + pq.codebooks[i][h.code[i]][j]
  {
    hide Reconstructed;
    OffsetFits(i, pq.m, pq.dsub);
    ReconstructedAt(pq, h.code, pq.m, i, j);
  }

  lemma {:induction false} ReconstructedAt(q: PQ, code: Code, n: nat, i: nat, j: nat)
    requires Trained(q) && ValidCode(q, code) && i < n <= q.m && j < q.dsub
    ensures Book(q.codebooks[i], q.k, q.dsub) && i * q.dsub + j < n * q.dsub
    ensures Reconstructed(q, code, n)[i * q.dsub + j] == q.codebooks[i][code[i]][j]
    decreases n
  {
    OffsetFits(i, n, q.dsub);
    NextOffset(n - 1, q.dsub);
    assert Book(q.codebooks[n - 1], q.k, q.dsub);
    if i < n - 1 {
      ReconstructedAt(q, code, n - 1, i, j);
      OffsetFits(i, n - 1, q.dsub);
    }
  }

  /** The estimated distance is the distance from the query to the decoded vector. */
  lemma EstimateIsDistance(ix: Layout, query: Vec, p: nat)
    requires Fits(ix, query) && p < |ix.entries|
    ensures Encoded(ix.coarse, ix.pq, ix.entries[p])
    ensures Estimate(ix, query, p) == SqL2(query, Decoded(ix.coarse, ix.pq, ix.entries[p]))
  {
    hide SqL2, Reconstructed, Sub, Plus;
    var h := ix.entries[p];
    assert Encoded(ix.coarse, ix.pq, h);
    SubShifts(query, ix.coarse[h.cell], Reconstruct(ix.pq, h.code));
  }

  // ---------------------------------------------------------------------------
  // What is stored for a vector

  /** The cell of the closest centroid, the first of equally close ones, and a code whose
      decoded vector no other code's of this cell is closer than. */
  ghost predicate BestHandle(coarse: seq<Vec>, pq: PQ, v: Vec, h: Handle)
    requires Geometry(coarse, pq) && |v| == Dim(pq)
  {
    && Encoded(coarse, pq, h)
    && (forall c :: 0 <= c < |coarse| ==> SqL2(coarse[h.cell], v) <= SqL2(coarse[c], v))
    && (forall c :: 0 <= c < h.cell ==> SqL2(coarse[h.cell], v) < SqL2(coarse[c], v))
    && forall code :: ValidCode(pq, code) ==>
         SqL2(v, Decoded(coarse, pq, h)) <= SqL2(v, Decoded(coarse, pq, Handle(h.hash, h.cell, code)))
  }

  lemma HandleIsBest(coarse: seq<Vec>, pq: PQ, v: Vec, h: Handle)
    requires Geometry(coarse, pq) && |v| == Dim(pq)
    requires h.cell == ArgMin(coarse, v) && h.code == Encoding(pq, Sub(v, coarse[h.cell]))
    ensures BestHandle(coarse, pq, v, h)
  {
    hide SqL2, Reconstructed, Sub, Plus, ArgMin, Encoding, Trained, ValidCode;
    ArgMinIsLeast(coarse, v);
    var centroid := coarse[h.cell];
    EncodingValid(pq, Sub(v, centroid));
    SubShifts(v, centroid, Reconstruct(pq, h.code));
    forall code | ValidCode(pq, code)
      ensures SqL2(v, Decoded(coarse, pq, h)) <= SqL2(v, Decoded(coarse, pq, Handle(h.hash, h.cell, code)))
    {
      EncodingIsBest(pq, Sub(v, centroid), code);
      SubShifts(v, centroid, Reconstruct(pq, code));
    }
  }

  // ---------------------------------------------------------------------------
  // What a search answers

  /** A stored entry of a visited cell, at the distance to what it stands for. */
  ghost predicate TrueHit(ix: Layout, query: Vec, nprobe: nat, x: Hit)
    requires Fits(ix, query)
  {
    && Encoded(ix.coarse, ix.pq, x.item)
    && x.dist == SqL2(query, Decoded(ix.coarse, ix.pq, x.item))
    && exists p :: 0 <= p < |ix.entries| && ix.entries[p] == x.item && Visited(ix, query, nprobe, p)
  }

  lemma VisitedIsTrue(ix: Layout, query: Vec, nprobe: nat, p: nat)
    requires Fits(ix, query) && p < |ix.entries| && Visited(ix, query, nprobe, p)
    ensures TrueHit(ix, query, nprobe, Scored(ix.entries[p], Estimate(ix, query, p)))
  {
    hide SqL2, Decoded, Visited, Fits, Estimate;
    EstimateIsDistance(ix, query, p);
  }

  lemma BestAreTrue(ix: Layout, query: Vec, nprobe: nat, k: nat, ranked: seq<Scored<nat>>, out: seq<Hit>)
    requires Fits(ix, query) && Best(Candidates(ix, query, nprobe), k, ranked)
    requires ValidPositions(ix.entries, ranked) && out == Hits(ix.entries, ranked)
    ensures forall j :: 0 <= j < |out| ==> TrueHit(ix, query, nprobe, out[j])
  {
    hide SqL2, CandidatesUpTo, HasRank, Ascending, DistinctItems, Visited, Fits, Estimate, TrueHit;
    CandidateMembers(ix, query, nprobe, |ix.entries|);
    forall j | 0 <= j < |out|
      ensures TrueHit(ix, query, nprobe, out[j])
    {
      var x := ranked[j];
      assert x in Candidates(ix, query, nprobe);
      VisitedIsTrue(ix, query, nprobe, x.item);
    }
  }
}
