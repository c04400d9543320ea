/** What the index's tables and answers say about the stored vectors (`ivf/index.go`,
    `ivf/identity.go`). */
module IndexMeaning {
  import opened Vectors
  import opened TopK
  import opened ProductQuantizer
  import opened IndexLayout
  import opened IndexSearch
  import opened IndexDecoding
  import opened VectorIndex

  // ---------------------------------------------------------------------------
  // Codes

  ghost function Differing(a: Code, b: Code): set<nat>
    requires |a| == |b|
  {
    set i: nat | i < |a| && a[i] != b[i]
  }

  lemma {:induction false} HammingCounts(a: Code, b: Code)
    requires |a| == |b|
    ensures Hamming(a, b) == |Differing(a, b)|
  {
    if a == [] {
      assert Differing(a, b) == {};
    } else {
      var n := |a| - 1;
      HammingCounts(a[..n], b[..n]);
      assert Differing(a, b) == Differing(a[..n], b[..n]) + if a[n] != b[n] then {n} else {};
    }
  }

  /** `byCode` holds, under each cell and code that is stored, the last position stored
      there. */
  lemma {:induction false} ByCodeIsLast(entries: seq<Handle>)
    ensures forall k :: k in ByCode(entries) ==>
      ByCode(entries)[k] < |entries| && (entries[ByCode(entries)[k]].cell, entries[ByCode(entries)[k]].code) == k
    ensures forall p :: 0 <= p < |entries| ==>
      (entries[p].cell, entries[p].code) in ByCode(entries) && ByCode(entries)[(entries[p].cell, entries[p].code)] >= p
  {
    if entries != [] {
      var n := |entries| - 1;
      ByCodeIsLast(entries[..n]);
      assert forall p :: 0 <= p < n ==> entries[..n][p] == entries[p];
    }
  }

  // ---------------------------------------------------------------------------
  // Recall

  /** A near entry shares the cell of the vector, and its code differs in at most `tol`
      pieces from a code that decodes as close to the vector as any of the cell. */
  lemma NearMeans(ix: Layout, v: Vec, tol: int, p: nat) returns (h: Handle)
    requires Fits(ix, v) && p < |ix.entries| && Near(ix, v, tol, p)
    ensures BestHandle(ix.coarse, ix.pq, v, h) && ix.entries[p].cell == h.cell
    ensures |h.code| == |ix.entries[p].code| && |Differing(h.code, ix.entries[p].code)| <= tol
  {
    hide BestHandle, ArgMin, Encoding;
    assert Encoded(ix.coarse, ix.pq, ix.entries[p]);
    var c := ArgMin(ix.coarse, v);
    h := Handle(0, c, Encoding(ix.pq, Sub(v, ix.coarse[c])));
    HandleIsBest(ix.coarse, ix.pq, v, h);
    HammingCounts(h.code, ix.entries[p].code);
  }

  /** The closest of the near entries by the distance to what they stand for, the first
      stored of equally close ones. */
  lemma ClosestMeans(ix: Layout, v: Vec, tol: int, p: nat, r: nat)
    requires Fits(ix, v) && p < |ix.entries| && r < |ix.entries| && Closest(ix, v, tol, p) && Near(ix, v, tol, r)
    ensures Encoded(ix.coarse, ix.pq, ix.entries[p]) && Encoded(ix.coarse, ix.pq, ix.entries[r])
    ensures var dp, dr := SqL2(v, Decoded(ix.coarse, ix.pq, ix.entries[p])), SqL2(v, Decoded(ix.coarse, ix.pq, ix.entries[r]));
      dp < dr || (dp == dr && p <= r)
  {
    hide Fits, Near, Estimate, SqL2, Decoded;
    EstimateIsDistance(ix, v, p);
    EstimateIsDistance(ix, v, r);
  }

  // ---------------------------------------------------------------------------
  // Tiered search

  ghost predicate IsResident(entries: seq<Handle>, query: Vec, tier: Tier, n: nat, x: Hit)
    requires TierFits(entries, tier, query) && n <= |entries|
  {
    exists p :: 0 <= p < n && entries[p] == x.item && x.item.hash in tier && x.dist == SqL2(query, tier[x.item.hash])
  }

  ghost predicate IsOther(entries: seq<Handle>, s: seq<Scored<nat>>, tier: Tier, x: Hit)
    requires ValidPositions(entries, s)
  {
    exists i :: 0 <= i < |s| && entries[s[i].item] == x.item && x.item.hash !in tier && x.dist == s[i].dist
  }

  lemma {:induction false} ExactHitsMeans(entries: seq<Handle>, query: Vec, tier: Tier, n: nat)
    requires TierFits(entries, tier, query) && n <= |entries|
    ensures forall x :: x in ExactHits(entries, query, tier, tier.Keys, n) <==> IsResident(entries, query, tier, n, x)
  {
    hide SqL2;
    if n > 0 {
      ExactHitsMeans(entries, query, tier, n - 1);
      forall x
        ensures IsResident(entries, query, tier, n, x) <==>
          (IsResident(entries, query, tier, n - 1, x)
           || (entries[n - 1] == x.item && x.item.hash in tier && x.dist == SqL2(query, tier[x.item.hash])))
      {
      }
    }
  }

  lemma {:induction false} NonResidentMeans(entries: seq<Handle>, s: seq<Scored<nat>>, tier: Tier)
    requires ValidPositions(entries, s)
    ensures forall x :: x in NonResident(entries, s, tier) <==> IsOther(entries, s, tier, x)
  {
    if s != [] {
      var n := |s| - 1;
      var front := s[..n];
      NonResidentMeans(entries, front, tier);
      forall x
        ensures IsOther(entries, s, tier, x) <==>
          (IsOther(entries, front, tier, x)
           || (entries[s[n].item] == x.item && x.item.hash !in tier && x.dist == s[n].dist))
      {
        if IsOther(entries, front, tier, x) {
          var i :| 0 <= i < n && entries[front[i].item] == x.item && x.item.hash !in tier && x.dist == front[i].dist;
          assert s[i] == front[i];
        }
        if i :| 0 <= i < n && entries[s[i].item] == x.item && x.item.hash !in tier && x.dist == s[i].dist {
          assert front[i] == s[i];
        }
      }
    }
  }

  /** A tiered search chooses from exactly the indexed residents of the tier, each at its
      exact distance, and the scanned entries that are not resident, each at the distance to
      what it stands for. */
  lemma PoolMeans(ix: Layout, query: Vec, nprobe: nat, tier: Tier, x: Hit)
    requires Fits(ix, query) && TierFits(ix.entries, tier, query)
    ensures ValidPositions(ix.entries, Candidates(ix, query, nprobe))
    ensures x in Pool(ix.entries, query, Candidates(ix, query, nprobe), tier) <==>
      if x.item.hash in tier then x.item in ix.entries && x.dist == SqL2(query, tier[x.item.hash])
      else TrueHit(ix, query, nprobe, x)
  {
    hide SqL2, Fits, CandidatesUpTo, NonResident, ExactHits, Visited, Estimate, Decoded, TierFits;
    var all := Candidates(ix, query, nprobe);
    CandidatesFit(ix, query, nprobe);
    CandidateMembers(ix, query, nprobe, |ix.entries|);
    ExactHitsMeans(ix.entries, query, tier, |ix.entries|);
    NonResidentMeans(ix.entries, all, tier);
    if x.item.hash !in tier {
      OtherIsTrue(ix, query, nprobe, tier, x);
    }
  }

  lemma OtherIsTrue(ix: Layout, query: Vec, nprobe: nat, tier: Tier, x: Hit)
    requires Fits(ix, query) && ValidPositions(ix.entries, Candidates(ix, query, nprobe)) && x.item.hash !in tier
    ensures IsOther(ix.entries, Candidates(ix, query, nprobe), tier, x) <==> TrueHit(ix, query, nprobe, x)
  {
    hide SqL2, Fits, CandidatesUpTo, Visited, Estimate, Decoded;
    var all := Candidates(ix, query, nprobe);
    CandidateMembers(ix, query, nprobe, |ix.entries|);
    if IsOther(ix.entries, all, tier, x) {
      var i :| 0 <= i < |all| && ix.entries[all[i].item] == x.item && x.dist == all[i].dist;
      assert all[i] in all;
      VisitedIsTrue(ix, query, nprobe, all[i].item);
    }
    if TrueHit(ix, query, nprobe, x) {
      var p :| 0 <= p < |ix.entries| && ix.entries[p] == x.item && Visited(ix, query, nprobe, p);
      EstimateIsDistance(ix, query, p);
      assert Scored(p as nat, Estimate(ix, query, p)) in all;
      var i :| 0 <= i < |all| && all[i] == Scored(p as nat, Estimate(ix, query, p));
      assert ix.entries[all[i].item] == x.item;
    }
  }
}
