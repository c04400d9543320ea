/** The content-addressed index (`ivf/index.go`, `ivf/persist.go`). */
module VectorIndex {
  import opened Vectors
  import opened TopK
  import opened ProductQuantizer
  import opened IndexLayout
  import opened IndexSearch
  import opened IndexDecoding

  datatype Status = Inserted | ExactDuplicate

  /** `prior` is the stored vector's hash for a duplicate and 0 otherwise. */
  datatype AddResult = AddResult(handle: Handle, status: Status, prior: nat)

  // ---------------------------------------------------------------------------
  // What adding a batch means

  /** The entries after offering `hs` one by one, each kept unless its hash is there. */
  function Kept(entries: seq<Handle>, hs: seq<Handle>): seq<Handle> {
    if hs == [] then entries
    else
      var before := Kept(entries, hs[..|hs| - 1]);
      var h := hs[|hs| - 1];
      if h.hash in ByHash(before) then before else before + [h]
  }

  ghost predicate HasHash(entries: seq<Handle>, h: nat) {
    exists p :: 0 <= p < |entries| && entries[p].hash == h
  }

  lemma {:induction false} ByHashKeys(entries: seq<Handle>, h: nat)
    ensures h in ByHash(entries) <==> HasHash(entries, h)
  {
    if entries != [] {
      var n := |entries| - 1;
      ByHashKeys(entries[..n], h);
      if HasHash(entries[..n], h) {
        var p :| 0 <= p < n && entries[..n][p].hash == h;
        assert entries[p].hash == h;
      }
      if HasHash(entries, h) {
        var p :| 0 <= p < |entries| && entries[p].hash == h;
        assert p < n ==> entries[..n][p].hash == h;
      }
    }
  }

  /** Nothing stored moves, every hash offered is stored, nothing else is, and no hash is
      stored twice. */
  lemma {:induction false} KeptMeans(entries: seq<Handle>, hs: seq<Handle>)
    requires UniqueHashes(entries)
    ensures entries <= Kept(entries, hs) && UniqueHashes(Kept(entries, hs))
    ensures forall h :: HasHash(Kept(entries, hs), h) <==> HasHash(entries, h) || HasHash(hs, h)
    ensures forall p :: |entries| <= p < |Kept(entries, hs)| ==> Kept(entries, hs)[p] in hs
  {
    hide ByHash;
    if hs != [] {
      var n := |hs| - 1;
      var front, x := hs[..n], hs[n];
      assert hs == front + [x];
      KeptMeans(entries, front);
      var before := Kept(entries, front);
      ByHashKeys(before, x.hash);
      HasHashConcat(front, x);
      HasHashConcat(before, x);
      if !HasHash(before, x.hash) {
        StaysUnique(before, x);
      }
    } else {
      assert forall h :: !HasHash(hs, h);
    }
  }

  lemma HasHashConcat(s: seq<Handle>, x: Handle)
    ensures forall h :: HasHash(s + [x], h) <==> HasHash(s, h) || x.hash == h
  {
    var t := s + [x];
    forall h | HasHash(s, h) || x.hash == h
      ensures HasHash(t, h)
    {
      if x.hash == h {
        assert t[|s|].hash == h;
      } else {
        var p :| 0 <= p < |s| && s[p].hash == h;
        assert t[p].hash == h;
      }
    }
  }

  lemma StaysUnique(entries: seq<Handle>, x: Handle)
    requires UniqueHashes(entries) && !HasHash(entries, x.hash)
    ensures UniqueHashes(entries + [x])
  {
  }

  /** Offering what is already there stores nothing, so adding a batch twice is adding it
      once. */
  lemma {:induction false} AddingTwice(entries: seq<Handle>, hs: seq<Handle>)
    requires forall i :: 0 <= i < |hs| ==> HasHash(entries, hs[i].hash)
    ensures Kept(entries, hs) == entries
  {
    hide ByHash, HasHash;
    if hs != [] {
      var n := |hs| - 1;
      AddingTwice(entries, hs[..n]);
      ByHashKeys(entries, hs[n].hash);
    }
  }

  lemma AddTwice(entries: seq<Handle>, hs: seq<Handle>)
    requires UniqueHashes(entries)
    ensures Kept(Kept(entries, hs), hs) == Kept(entries, hs)
  {
    hide Kept, UniqueHashes;
    KeptMeans(entries, hs);
    forall i | 0 <= i < |hs|
      ensures HasHash(Kept(entries, hs), hs[i].hash)
    {
      assert HasHash(hs, hs[i].hash);
    }
    AddingTwice(Kept(entries, hs), hs);
  }

  ghost predicate AllEncoded(coarse: seq<Vec>, pq: PQ, hs: seq<Handle>) {
    forall i :: 0 <= i < |hs| ==> Encoded(coarse, pq, hs[i])
  }

  /** What offering the i-th handle reports: a duplicate names the handle already stored
      under its hash. */
  ghost predicate Outcome(entries: seq<Handle>, hs: seq<Handle>, i: nat, r: AddResult)
    requires i < |hs|
  {
    var before, h := Kept(entries, hs[..i]), hs[i];
    if HasHash(before, h.hash) then
      r.status == ExactDuplicate && r.handle in before && r.handle.hash == h.hash == r.prior
    else
      r == AddResult(h, Inserted, 0)
  }

  ghost predicate Partitioned(coarse: seq<Vec>, entries: seq<Handle>, lists: seq<seq<nat>>) {
    && |lists| == |coarse|
    && forall c :: 0 <= c < |lists| ==> lists[c] == CellPositions(entries, c, |entries|)
  }

  // ---------------------------------------------------------------------------
  // The index

  class Index {
    const hashOf: Vec -> nat
    const coarse: seq<Vec>
    const pq: PQ
    var entries: seq<Handle>
    var lists: seq<seq<nat>>
    var byHash: map<nat, nat>
    var byCode: map<(nat, Code), nat>

    function View(): Layout
      reads this
    {
      Layout(coarse, pq, entries)
    }

    /** The lists partition the positions by cell and both maps are the entries' own. */
    ghost predicate Derived()
      reads this
    {
      && Partitioned(coarse, entries, lists)
      && byHash == ByHash(entries)
      && byCode == ByCode(entries)
    }

    ghost predicate Valid()
      reads this
    {
      WellFormed(View()) && Derived()
    }

    /** A trained, empty index. */
    constructor (hashOf: Vec -> nat, coarse: seq<Vec>, pq: PQ)
      requires Geometry(coarse, pq)
      ensures Valid() && View() == Layout(coarse, pq, []) && this.hashOf == hashOf
    {
      this.hashOf, this.coarse, this.pq := hashOf, coarse, pq;
      entries, byHash, byCode := [], map[], map[];
      lists := seq(|coarse|, _ => []);
    }

    /** `Load`: the maps are rebuilt from the saved entries, and come out as they were. */
    constructor Load(hashOf: Vec -> nat, saved: Layout, lists: seq<seq<nat>>)
      ensures View() == saved && this.hashOf == hashOf && this.lists == lists
      ensures byHash == ByHash(saved.entries) && byCode == ByCode(saved.entries)
      ensures WellFormed(saved) && Partitioned(saved.coarse, saved.entries, lists) ==> Valid()
    {
      this.hashOf, this.coarse, this.pq := hashOf, saved.coarse, saved.pq;
      this.entries, this.lists := saved.entries, lists;
      byHash, byCode := map[], map[];
      new;
      var es := saved.entries;
      assert es[..0] == [];
      for pos := 0 to |es|
        invariant View() == saved && this.lists == lists
        invariant byHash == ByHash(es[..pos]) && byCode == ByCode(es[..pos])
      {
        assert es[..pos + 1][..pos] == es[..pos];
        byHash := byHash[es[pos].hash := pos];
        byCode := byCode[(es[pos].cell, es[pos].code) := pos];
      }
      assert es[..|es|] == es;
    }

    /** The handle a vector gets: nearest cell, and the code of the residual. */
    ghost function HandleFor(v: Vec): (h: Handle)
      requires Geometry(coarse, pq) && |v| == Dim(pq)
      ensures Encoded(coarse, pq, h)
    {
      EncodingValid(pq, Sub(v, coarse[ArgMin(coarse, v)]));
      Handle(hashOf(v), ArgMin(coarse, v), Encoding(pq, Sub(v, coarse[ArgMin(coarse, v)])))
    }

    ghost function HandlesFor(vecs: seq<Vec>): (hs: seq<Handle>)
      requires Geometry(coarse, pq) && Dims(vecs, Dim(pq))
      ensures |hs| == |vecs| && AllEncoded(coarse, pq, hs)
    {
      seq(|vecs|, i requires 0 <= i < |vecs| => HandleFor(vecs[i]))
    }

    method EncodeAll(vecs: seq<Vec>) returns (hs: seq<Handle>)
      requires Geometry(coarse, pq) && Dims(vecs, Dim(pq))
      ensures hs == HandlesFor(vecs)
    {
      hide ArgMin, Encoding, Trained, ValidCode;
      hs := [];
      for i := 0 to |vecs|
        invariant |hs| == i && forall j :: 0 <= j < i ==> hs[j] == HandleFor(vecs[j])
      {
        var c := Nearest(coarse, vecs[i]);
        var code := Encode(pq, Sub(vecs[i], coarse[c]));
        hs := hs + [Handle(hashOf(vecs[i]), c, code)];
      }
    }

    /** `Add`: each vector is stored unless its hash is there, and each result says which;
        a duplicate's result names the vector that is stored. */
    method Add(vecs: seq<Vec>) returns (out: seq<AddResult>)
      requires Valid() && Dims(vecs, Dim(pq))
      modifies this
      ensures Valid() && entries == Kept(old(entries), HandlesFor(vecs))
      ensures |out| == |vecs|
      ensures forall i :: 0 <= i < |vecs| ==> Outcome(old(entries), HandlesFor(vecs), i, out[i])
      ensures old(entries) <= entries
      ensures forall p :: |old(entries)| <= p < |entries| ==> StoredFor(vecs, entries[p])
    {
      hide Geometry, Dims, UniqueHashes, Encoded, CellPositions, ByHash, ByCode, HandleFor, HandlesFor, HasHash;
      ghost var entries0 := entries;
      var hs := EncodeAll(vecs);
      out := [];
      for i := 0 to |hs|
        invariant Valid() && entries == Kept(entries0, hs[..i]) && |out| == i
        invariant forall j :: 0 <= j < i ==> Outcome(entries0, hs, j, out[j])
      {
        assert hs[..i + 1][..i] == hs[..i];
        ByHashKeys(entries, hs[i].hash);
        assert UniqueHashes(entries);
        ByHashInverts(entries);
        if hs[i].hash in byHash {
          var pos := byHash[hs[i].hash];
          out := out + [AddResult(entries[pos], ExactDuplicate, hs[i].hash)];
        } else {
          out := out + [AddResult(hs[i], Inserted, 0)];
          Store(hs[i]);
        }
      }
      assert hs[..|hs|] == hs;
      assert UniqueHashes(entries0);
      KeptMeans(entries0, hs);
      AllStoredFor(vecs, entries0, entries);
    }

    /** Stored for one of the vectors: under its hash, in the cell of the closest centroid,
        and under a code that no other code of this cell decodes closer to the vector than. */
    ghost predicate StoredFor(vecs: seq<Vec>, h: Handle)
      requires Geometry(coarse, pq) && Dims(vecs, Dim(pq))
    {
      exists i :: 0 <= i < |vecs| && h.hash == hashOf(vecs[i]) && BestHandle(coarse, pq, vecs[i], h)
    }

    lemma AllStoredFor(vecs: seq<Vec>, before: seq<Handle>, after: seq<Handle>)
      requires Geometry(coarse, pq) && Dims(vecs, Dim(pq))
      requires forall p :: |before| <= p < |after| ==> after[p] in HandlesFor(vecs)
      ensures forall p :: |before| <= p < |after| ==> StoredFor(vecs, after[p])
    {
      hide BestHandle, Trained, ArgMin, Encoding, ValidCode;
      forall p | |before| <= p < |after|
        ensures StoredFor(vecs, after[p])
      {
        var i :| 0 <= i < |vecs| && HandlesFor(vecs)[i] == after[p];
        HandleIsBest(coarse, pq, vecs[i], after[p]);
      }
    }

    method Store(h: Handle)
      requires Valid() && Encoded(coarse, pq, h) && !HasHash(entries, h.hash)
      modifies this
      ensures Valid() && entries == old(entries) + [h]
    {
      hide ByHash, ByCode;
      ghost var es := entries;
      var pos := |entries|;
      StaysUnique(es, h);
      forall c | 0 <= c < |lists|
        ensures CellPositions(es + [h], c, pos + 1) == lists[c] + if h.cell == c then [pos] else []
      {
        ListsOfPrefix(es, h, c, pos);
      }
      assert (es + [h])[..pos] == es;
      ByHashLast(es, h);
      entries := entries + [h];
      lists := lists[h.cell := lists[h.cell] + [pos]];
      byHash := byHash[h.hash := pos];
      byCode := byCode[(h.cell, h.code) := pos];
    }

    /** `Search`: the best `topK` of what the probed cells hold, by estimate. */
    method Search(query: Vec, nprobe: nat, topK: nat)
        returns (out: seq<Hit>, ghost ranked: seq<Scored<nat>>, ghost dropped: seq<Scored<nat>>)
      requires Valid() && Fits(View(), query)
      requires topK >= 1 || Candidates(View(), query, nprobe) == []
      ensures Best(Candidates(View(), query, nprobe), topK, ranked)
      ensures Selection(ranked, dropped, Candidates(View(), query, nprobe), topK)
      ensures ValidPositions(entries, ranked) && out == Hits(entries, ranked)
      ensures var all := Candidates(View(), query, nprobe);
        && |out| == (if |all| < topK then |all| else topK)
        && forall j :: 0 <= j < |out| ==> HasRank(all, j, out[j].dist)
      ensures forall j :: 0 <= j < |out| ==> TrueHit(View(), query, nprobe, out[j])
    {
      hide TrueHit, Estimate, Scan, CellStream, CandidatesUpTo, Probed, InOrder, Selection, Ascending, Best, HasRank, WellFormed, ByHash, ByCode;
      var ix, ls := View(), lists;
      FitsMeans(ix, query);
      var cells := ProbeCells(coarse, query, nprobe);
      ScanIsCandidates(ix, query, nprobe, cells);
      ghost var stream := Scan(ix, query, cells);
      var heap := new MaxHeap();
      ghost var lost := [];
      ScanNothing(ix, query, topK);
      assert cells[..0] == [];
      for i := 0 to |cells|
        invariant fresh(heap) && heap.Valid() && Selection(heap.h, lost, Scan(ix, query, cells[..i]), topK)
      {
        CellInRange(coarse, query, cells, i);
        lost := ScanCell(ix, ls, query, topK, cells, i, heap, lost);
      }
      assert cells[..|cells|] == cells;
      SelectionOf(heap.h, lost, stream, Candidates(ix, query, nprobe), topK);
      var sorted := heap.DrainAscending();
      ranked, dropped := sorted, lost;
      BestOf(ix, query, nprobe, topK, heap.h, lost, sorted);
      BestRanks(Candidates(ix, query, nprobe), topK, sorted);
      out := [];
      for i := 0 to |sorted|
        invariant |out| == i && forall j :: 0 <= j < i ==> out[j] == Scored(entries[sorted[j].item], sorted[j].dist)
      {
        out := out + [Scored(entries[sorted[i].item], sorted[i].dist)];
      }
      BestAreTrue(ix, query, nprobe, topK, ranked, out);
    }

    /** `SearchTiered`: indexed residents of the tier are hits at their exact distance,
        wherever their cell is; everything else is judged by estimate. */
    method SearchTiered(query: Vec, nprobe: nat, topK: nat, tier: Tier) returns (out: seq<Hit>)
      requires Valid() && Fits(View(), query) && TierFits(entries, tier, query)
      requires topK >= 1 || tier != map[] || Candidates(View(), query, nprobe) == []
      ensures ValidPositions(entries, Candidates(View(), query, nprobe))
      ensures var pool := Pool(entries, query, Candidates(View(), query, nprobe), tier);
        && |out| == (if |pool| < topK then |pool| else topK)
        && forall j :: 0 <= j < |out| ==> out[j] in pool && HasRank(pool, j, out[j].dist)
      ensures DistinctItems(out)
      ensures tier != map[] ==> Ascending(out, HashOf)
      ensures tier == map[] ==> exists ranked ::
        Best(Candidates(View(), query, nprobe), topK, ranked) && ValidPositions(entries, ranked) && out == Hits(entries, ranked)
    {
      hide Estimate, CandidatesUpTo, Selection, Ascending, Best, WellFormed, ByHash, ByCode, NonResident, ExactHits, HasRank, UniqueHashes, DistinctItems;
      CandidatesFit(View(), query, nprobe);
      ghost var all := Candidates(View(), query, nprobe);
      if |tier| == 0 {
        ghost var ranked, dropped;
        out, ranked, dropped := Search(query, nprobe, topK);
        PlainPool(entries, query, all, tier, topK, ranked, out);
        FitsMeans(View(), query);
        PlainDistinct(entries, all, topK, ranked);
        return;
      }
      var adc, ranked, dropped := Search(query, nprobe, topK + |tier|);
      var es := entries;
      FitsMeans(View(), query);
      var merged := DropResidents(es, adc, tier, ranked);
      merged := AddResidents(es, query, tier, merged);
      var sorted := Sort(merged, HashOf);
      TieredRanks(es, query, all, tier, topK, ranked, dropped, sorted);
      out := Take(sorted, topK);
      TakeAscending(sorted, topK);
      TieredDistinct(es, query, all, tier, topK, ranked, dropped, sorted);
    }

    method AddResidents(es: seq<Handle>, query: Vec, tier: Tier, hits: seq<Hit>) returns (merged: seq<Hit>)
      requires es == entries && UniqueHashes(es) && byHash == ByHash(es) && TierFits(es, tier, query)
      ensures multiset(merged) == multiset(hits) + multiset(ExactHits(es, query, tier, tier.Keys, |es|))
    {
      hide SqL2, ByHash, ExactHits, UniqueHashes;
      merged := hits;
      var left := tier.Keys;
      ByHashInverts(es);
      NoResidents(es, query, tier, |es|);
      assert tier.Keys - left == {};
      while left != {}
        invariant left <= tier.Keys
        invariant multiset(merged) == multiset(hits) + multiset(ExactHits(es, query, tier, tier.Keys - left, |es|))
      {
        var hash :| hash in left;
        ghost var seen := tier.Keys - left;
        left := left - {hash};
        assert tier.Keys - left == seen + {hash};
        if hash in byHash {
          var pos := byHash[hash];
          ExactWithNew(es, query, tier, seen, pos, |es|);
          var d := SquaredDistance(query, tier[hash]);
          merged := merged + [Scored(es[pos], d)];
        } else {
          ExactWithoutNew(es, query, tier, seen, hash, |es|);
        }
      }
      assert tier.Keys - left == tier.Keys;
    }

    /** `SearchRerank`: the best `max(rerankK, topK)` estimates, of which the first `rerankK`
        are re-scored from the originals at hand and sorted again, and the rest keep plain
        Search's order. A depth of at least `topK` makes the answer a linear scan of the
        re-scored estimates; without originals every rank keeps plain Search's distance; and
        with all originals, all cells and full depth it is the exact linear scan. */
    method SearchRerank(query: Vec, nprobe: nat, topK: nat, rerankK: int, fetch: nat -> Option<Vec>)
        returns (out: seq<Hit>, ghost ranked: seq<Scored<nat>>, ghost head: seq<Hit>)
      requires Valid() && Fits(View(), query) && FetchFits(entries, fetch, query)
      requires topK >= 1 || rerankK >= 1 || Candidates(View(), query, nprobe) == []
      ensures Best(Candidates(View(), query, nprobe), if rerankK < topK then topK else rerankK, ranked)
      ensures ValidPositions(entries, ranked) && HitsFit(fetch, query, Hits(entries, ranked))
      ensures rerankK <= 0 ==> out == Hits(entries, ranked)
      ensures rerankK > 0 ==>
        Reranked(fetch, query, Hits(entries, ranked), if rerankK > |ranked| then |ranked| else rerankK, topK, head, out)
      ensures rerankK > 0 && rerankK >= topK ==>
        BruteForce(RescoredAll(fetch, query, Hits(entries, ranked)), topK, out)
      ensures 0 < rerankK < topK ==> |out| == |ranked| && forall j :: rerankK <= j < |out| ==> out[j] == Hits(entries, ranked)[j]
      ensures var all := Candidates(View(), query, nprobe); |out| == if |all| < topK then |all| else topK
      ensures rerankK <= 0 || NoneFetched(entries, fetch) ==>
        forall j :: 0 <= j < |out| ==> HasRank(Candidates(View(), query, nprobe), j, out[j].dist)
      ensures nprobe >= |coarse| && rerankK >= |entries| && rerankK > 0 && AllFetched(entries, fetch) ==>
        BruteForce(ExactAll(entries, fetch, query), topK, out)
    {
      hide Estimate, CandidatesUpTo, Selection, Ascending, Best, WellFormed, ByHash, ByCode, HasRank, Reranked, BruteForce,
        ExactAll, NoneFetched, AllFetched, RescoredAll, HitsFit;
      ghost var all := Candidates(View(), query, nprobe);
      if rerankK <= 0 {
        ghost var dropped;
        out, ranked, dropped := Search(query, nprobe, topK);
        head := [];
        BestRanks(all, topK, ranked);
        HitsFitAll(entries, fetch, query, ranked);
        return;
      }
      var depth: nat := if rerankK < topK then topK else rerankK;
      ghost var dropped;
      var adc;
      adc, ranked, dropped := Search(query, nprobe, depth);
      BestRanks(all, depth, ranked);
      var cut: nat := if rerankK > |adc| then |adc| else rerankK;
      HitsFitAll(entries, fetch, query, ranked);
      var rescored := Rescore(query, fetch, adc, cut);
      rescored := Sort(rescored, HashOf);
      head := rescored;
      out := Take(rescored + adc[cut..], topK);
      RerankedIf(fetch, query, adc, cut, topK, head);
      RerankSize(fetch, query, adc, cut, topK, head, out);
      if rerankK >= topK {
        WholeRerank(fetch, query, adc, cut, topK, head, out);
      } else {
        RerankTail(fetch, query, adc, cut, topK, head, out);
      }
      if NoneFetched(entries, fetch) {
        NoneFetchedHits(entries, fetch, ranked);
        RerankWithoutOriginals(fetch, query, adc, cut, topK, head, out);
      }
      if nprobe >= |coarse| && rerankK >= |entries| && AllFetched(entries, fetch) {
        AllAreCandidates(View(), query, nprobe, |entries|);
        ExhaustiveRerank(View(), query, nprobe, topK, depth, fetch, ranked, dropped, cut, head, out);
      }
    }

    /** `Recall`: among the entries of the vector's own cell whose code differs in at most
        `tol` pieces, the closest by estimate, the first stored of equally close ones. */
    method Recall(v: Vec, tol: int) returns (found: Option<Handle>)
      requires Valid() && Fits(View(), v)
      ensures found == None <==> forall p :: 0 <= p < |entries| ==> !Near(View(), v, tol, p)
      ensures found.Some? ==> exists p :: 0 <= p < |entries| && found.value == entries[p] && Closest(View(), v, tol, p)
    {
      hide Estimate, WellFormed, Trained, ValidCode, CodeDistance, Rows, Sub, CellPositions, ByHash, ByCode, ArgMin,
        Encoding, Near, Leader, Closest;
      var ix, ls := View(), lists;
      FitsMeans(ix, v);
      var c := Nearest(coarse, v);
      var residual := Sub(v, coarse[c]);
      var code := Encode(pq, residual);
      var table := DistanceTable(pq, residual);
      var list := ls[c];
      ListsPartition(entries, c, |entries|);
      var bestPos, bestDist := -1, 0.0;
      NoLeader(ix, v, tol);
      assert list[..0] == [];
      for i := 0 to |list|
        invariant fresh(table) && table[..] == Rows(pq, residual, pq.m)
        invariant Leader(ix, v, tol, list[..i], bestPos, bestDist)
      {
        var pos := list[i];
        assert pos in list && list[..i + 1] == list[..i] + [pos];
        NearInCell(ix, v, tol, c, pos);
        var differs := HammingBytes(code, entries[pos].code);
        if differs > tol {
          LeaderStays(ix, v, tol, list[..i], pos, bestPos, bestDist);
          continue;
        }
        var d := Adc(pq, residual, table, entries[pos].code);
        AscendingAt(list, i);
        if bestPos == -1 || d < bestDist {
          LeaderChanges(ix, v, tol, list[..i], pos, bestPos, bestDist);
          bestPos, bestDist := pos, d;
        } else {
          LeaderStays(ix, v, tol, list[..i], pos, bestPos, bestDist);
        }
      }
      assert list[..|list|] == list;
      LeaderWins(ix, v, tol, list, bestPos, bestDist);
      if bestPos == -1 {
        found := None;
      } else {
        found := Some(entries[bestPos]);
        assert Closest(View(), v, tol, bestPos);
      }
    }
  }

  // ---------------------------------------------------------------------------
  // Recall

  /** In how many places two codes differ. */
  function Hamming(a: Code, b: Code): nat
    requires |a| == |b|
  {
    if a == [] then 0
    else
      var n := |a| - 1;
      Hamming(a[..n], b[..n]) + if a[n] != b[n] then 1 else 0
  }

  /** `hammingBytes` */
  method HammingBytes(a: Code, b: Code) returns (n: nat)
    requires |a| == |b|
    ensures n == Hamming(a, b)
  {
    n := 0;
    assert a[..0] == [] && b[..0] == [];
    for i := 0 to |a|
      invariant n == Hamming(a[..i], b[..i])
    {
      assert a[..i + 1][..i] == a[..i] && b[..i + 1][..i] == b[..i];
      if a[i] != b[i] {
        n := n + 1;
      }
    }
    assert a[..|a|] == a && b[..|b|] == b;
  }

  /** Stored in the vector's own cell under a code within `tol` of the vector's. */
  ghost predicate Near(ix: Layout, v: Vec, tol: int, p: nat)
    requires Fits(ix, v) && p < |ix.entries|
  {
    assert Encoded(ix.coarse, ix.pq, ix.entries[p]);
    var c := ArgMin(ix.coarse, v);
    ix.entries[p].cell == c && Hamming(Encoding(ix.pq, Sub(v, ix.coarse[c])), ix.entries[p].code) <= tol
  }

  /** Near, and no other near entry is closer, nor as close and stored earlier. */
  ghost predicate Closest(ix: Layout, v: Vec, tol: int, p: nat)
    requires Fits(ix, v) && p < |ix.entries|
  {
    && Near(ix, v, tol, p)
    && forall r :: 0 <= r < |ix.entries| && Near(ix, v, tol, r) ==>
      Estimate(ix, v, p) <= Estimate(ix, v, r) && (r < p ==> Estimate(ix, v, p) < Estimate(ix, v, r))
  }

  ghost predicate Leader(ix: Layout, v: Vec, tol: int, list: seq<nat>, best: int, dist: real)
    requires Fits(ix, v)
  {
    && (forall r :: r in list ==> r < |ix.entries|)
    && (best == -1 || (best in list && Near(ix, v, tol, best) && dist == Estimate(ix, v, best)))
    && forall r :: r in list && Near(ix, v, tol, r) ==>
      best != -1 && dist <= Estimate(ix, v, r) && (r < best ==> dist < Estimate(ix, v, r))
  }

  lemma NoLeader(ix: Layout, v: Vec, tol: int)
    requires Fits(ix, v)
    ensures Leader(ix, v, tol, [], -1, 0.0)
  {
  }

  lemma AscendingAt(list: seq<nat>, i: nat)
    requires AscendingPositions(list) && i < |list|
    ensures forall r :: r in list[..i] ==> r < list[i]
  {
  }

  lemma LeaderStays(ix: Layout, v: Vec, tol: int, list: seq<nat>, pos: nat, best: int, dist: real)
    requires Fits(ix, v) && Leader(ix, v, tol, list, best, dist) && pos < |ix.entries|
    requires Near(ix, v, tol, pos) ==> best != -1 && dist <= Estimate(ix, v, pos) && forall r :: r in list ==> r < pos
    ensures Leader(ix, v, tol, list + [pos], best, dist)
  {
    hide Fits, Near, Estimate;
  }

  lemma LeaderChanges(ix: Layout, v: Vec, tol: int, list: seq<nat>, pos: nat, best: int, dist: real)
    requires Fits(ix, v) && Leader(ix, v, tol, list, best, dist) && pos < |ix.entries|
    requires Near(ix, v, tol, pos) && (best == -1 || Estimate(ix, v, pos) < dist)
    ensures Leader(ix, v, tol, list + [pos], pos, Estimate(ix, v, pos))
  {
    hide Fits, Near, Estimate;
  }

  lemma NearInCell(ix: Layout, v: Vec, tol: int, c: nat, p: nat)
    requires Fits(ix, v) && p < |ix.entries| && ix.entries[p].cell == c == ArgMin(ix.coarse, v)
    ensures ValidCode(ix.pq, ix.entries[p].code) && |ix.entries[p].code| == ix.pq.m
    ensures c < |ix.coarse| && |ix.coarse[c]| == |v| && Trained(ix.pq)
    ensures Near(ix, v, tol, p) <==> Hamming(Encoding(ix.pq, Sub(v, ix.coarse[c])), ix.entries[p].code) <= tol
    ensures Estimate(ix, v, p) == CodeDistance(ix.pq, Sub(v, ix.coarse[c]), ix.entries[p].code)
  {
    hide ArgMin, Encoding, CodeDistance, Trained, Sub, Hamming;
    assert Encoded(ix.coarse, ix.pq, ix.entries[p]);
  }

  lemma LeaderWins(ix: Layout, v: Vec, tol: int, list: seq<nat>, best: int, dist: real)
    requires Fits(ix, v) && Leader(ix, v, tol, list, best, dist)
    requires forall p: nat :: p in list <==> p < |ix.entries| && ix.entries[p].cell == ArgMin(ix.coarse, v)
    ensures best == -1 <==> forall p :: 0 <= p < |ix.entries| ==> !Near(ix, v, tol, p)
    ensures best != -1 ==> 0 <= best < |ix.entries| && Closest(ix, v, tol, best)
  {
    hide ArgMin, Estimate, Encoding, Trained, ValidCode, Sub, Hamming;
    forall p: nat | p < |ix.entries| && Near(ix, v, tol, p)
      ensures p in list
    {
    }
  }

  ghost predicate NoneFetched(entries: seq<Handle>, fetch: nat -> Option<Vec>) {
    forall p :: 0 <= p < |entries| ==> fetch(entries[p].hash) == None
  }

  ghost predicate AllFetched(entries: seq<Handle>, fetch: nat -> Option<Vec>) {
    forall p :: 0 <= p < |entries| ==> fetch(entries[p].hash).Some?
  }

  lemma CandidatesFit(ix: Layout, query: Vec, nprobe: nat)
    requires Fits(ix, query)
    ensures ValidPositions(ix.entries, Candidates(ix, query, nprobe)) && DistinctItems(Candidates(ix, query, nprobe))
  {
    hide Estimate, CandidatesUpTo, Fits, Visited;
    CandidateMembers(ix, query, nprobe, |ix.entries|);
    var all := Candidates(ix, query, nprobe);
    assert forall i :: 0 <= i < |all| ==> all[i] in all;
  }

  // ---------------------------------------------------------------------------
  // Tiered search

  lemma {:induction false} NoResidents(entries: seq<Handle>, query: Vec, tier: Tier, n: nat)
    requires TierFits(entries, tier, query) && n <= |entries|
    ensures ExactHits(entries, query, tier, {}, n) == []
  {
    if n > 0 {
      NoResidents(entries, query, tier, n - 1);
    }
  }

  method DropResidents(entries: seq<Handle>, adc: seq<Hit>, tier: Tier, ghost ranked: seq<Scored<nat>>) returns (merged: seq<Hit>)
    requires ValidPositions(entries, ranked) && adc == Hits(entries, ranked)
    ensures merged == NonResident(entries, ranked, tier)
  {
    merged := [];
    assert ranked[..0] == [];
    for i := 0 to |adc|
      invariant merged == NonResident(entries, ranked[..i], tier)
    {
      assert ranked[..i + 1][..i] == ranked[..i];
      if adc[i].item.hash !in tier {
        merged := merged + [adc[i]];
      }
    }
    assert ranked[..|adc|] == ranked;
  }

  lemma TakeAscending(s: seq<Hit>, n: nat)
    requires Ascending(s, HashOf)
    ensures Ascending(Take(s, n), HashOf)
  {
    if |s| > n {
      AscendingSplit(s, n, HashOf);
    }
  }

  /** With nothing resident the pool is the candidates. */
  lemma {:induction false} NothingResident(entries: seq<Handle>, s: seq<Scored<nat>>, tier: Tier)
    requires ValidPositions(entries, s) && tier == map[]
    ensures NonResident(entries, s, tier) == Hits(entries, s)
  {
    if s != [] {
      NothingResident(entries, s[..|s| - 1], tier);
    }
  }

  lemma {:induction false} HitsCount(entries: seq<Handle>, s: seq<Scored<nat>>, d: real)
    requires ValidPositions(entries, s)
    ensures Below(Hits(entries, s), d) == Below(s, d) && AtMost(Hits(entries, s), d) == AtMost(s, d)
  {
    if s != [] {
      var n := |s| - 1;
      HitsCount(entries, s[..n], d);
      assert Hits(entries, s)[..n] == Hits(entries, s[..n]);
    }
  }

  lemma PlainPool(entries: seq<Handle>, query: Vec, all: seq<Scored<nat>>, tier: Tier, topK: nat, ranked: seq<Scored<nat>>, out: seq<Hit>)
    requires TierFits(entries, tier, query) && ValidPositions(entries, all) && tier == map[]
    requires Best(all, topK, ranked) && ValidPositions(entries, ranked) && out == Hits(entries, ranked)
    ensures var pool := Pool(entries, query, all, tier);
      && |out| == (if |pool| < topK then |pool| else topK)
      && forall j :: 0 <= j < |out| ==> out[j] in pool && HasRank(pool, j, out[j].dist)
  {
    hide NonResident, ExactHits, Below, AtMost, Ascending, DistinctItems;
    NothingResident(entries, all, tier);
    assert tier.Keys == {};
    NoResidents(entries, query, tier, |entries|);
    var pool := Pool(entries, query, all, tier);
    assert pool == Hits(entries, all);
    forall j | 0 <= j < |out|
      ensures out[j] in pool && HasRank(pool, j, out[j].dist)
    {
      assert ranked[j] in all;
      var i :| 0 <= i < |all| && all[i] == ranked[j];
      assert pool[i] == out[j];
      HitsCount(entries, all, out[j].dist);
    }
  }

  lemma SelectionFits(entries: seq<Handle>, all: seq<Scored<nat>>, k: nat, ranked: seq<Scored<nat>>, dropped: seq<Scored<nat>>)
    requires ValidPositions(entries, all) && Selection(ranked, dropped, all, k)
    ensures ValidPositions(entries, dropped) && ValidPositions(entries, ranked)
  {
    hide Selection;
    forall i | 0 <= i < |dropped|
      ensures dropped[i].item < |entries|
    {
      SelectedFrom(ranked, dropped, all, k, dropped[i]);
    }
    forall i | 0 <= i < |ranked|
      ensures ranked[i].item < |entries|
    {
      SelectedFrom(ranked, dropped, all, k, ranked[i]);
    }
  }

  /** Fetching `topK + |tier|` estimates always suffices. */
  lemma TieredRanks(entries: seq<Handle>, query: Vec, all: seq<Scored<nat>>, tier: Tier, topK: nat,
                    ranked: seq<Scored<nat>>, dropped: seq<Scored<nat>>, sorted: seq<Hit>)
    requires TierFits(entries, tier, query) && ValidPositions(entries, all) && UniqueHashes(entries)
    requires DistinctItems(all) && Selection(ranked, dropped, all, topK + |tier|)
    requires ValidPositions(entries, ranked)
    requires Ascending(sorted, HashOf)
    requires multiset(sorted)
      == multiset(NonResident(entries, ranked, tier)) + multiset(ExactHits(entries, query, tier, tier.Keys, |entries|))
    ensures var pool, out := Pool(entries, query, all, tier), Take(sorted, topK);
      && |out| == (if |pool| < topK then |pool| else topK)
      && forall j :: 0 <= j < |out| ==> out[j] in pool && HasRank(pool, j, out[j].dist)
  {
    hide NonResident, ExactHits, Selection, Ascending, HasRank, UniqueHashes, NoCloser;
    var k := topK + |tier|;
    SelectionFits(entries, all, k, ranked, dropped);
    SelectionSize(ranked, dropped, all, k);
    SelectionDistinct(ranked, dropped, all, k);
    EnoughLeft(entries, ranked, tier);
    NonResidentNoCloser(entries, ranked, dropped, all, k, tier);
    NonResidentFrom(entries, dropped, tier);
    var kept, lost, exact := NonResident(entries, ranked, tier), NonResident(entries, dropped, tier), ExactHits(entries, query, tier, tier.Keys, |entries|);
    assert lost != [] ==> |kept| >= topK;
    var pool := Pool(entries, query, all, tier);
    PoolSplit(entries, query, all, tier, k, ranked, dropped);
    SameSize(sorted, kept + exact);
    SameSize(kept + lost + exact, pool);
    forall j | 0 <= j < |sorted| && j < topK
      ensures sorted[j] in pool && HasRank(pool, j, sorted[j].dist)
    {
      RankSurvives(kept, lost, exact, sorted, topK, j, HashOf);
      RankPermuted(kept + lost + exact, pool, j, sorted[j].dist);
      assert sorted[j] in multiset(sorted);
      assert sorted[j] in multiset(pool);
    }
  }

  // ---------------------------------------------------------------------------
  // No entry is returned twice

  lemma {:induction false} NonResidentItems(entries: seq<Handle>, s: seq<Scored<nat>>, tier: Tier)
    requires ValidPositions(entries, s)
    ensures forall h :: h in NonResident(entries, s, tier) ==> h.item.hash !in tier && HashAmong(entries, s, h.item.hash)
  {
    if s != [] {
      var n := |s| - 1;
      NonResidentItems(entries, s[..n], tier);
      forall h | HashAmong(entries, s[..n], h)
        ensures HashAmong(entries, s, h)
      {
        var i :| 0 <= i < n && entries[s[..n][i].item].hash == h;
        assert entries[s[i].item].hash == h;
      }
      assert HashAmong(entries, s, entries[s[n].item].hash);
    }
  }

  lemma {:induction false} NonResidentDistinct(entries: seq<Handle>, s: seq<Scored<nat>>, tier: Tier)
    requires ValidPositions(entries, s) && UniqueHashes(entries) && DistinctItems(s)
    ensures DistinctItems(NonResident(entries, s, tier))
  {
    hide UniqueHashes, HashAmong;
    if s != [] {
      var n := |s| - 1;
      NonResidentDistinct(entries, s[..n], tier);
      NonResidentItems(entries, s[..n], tier);
      LastHash(entries, s);
      var before := NonResident(entries, s[..n], tier);
      assert forall i :: 0 <= i < |before| ==> before[i] in before;
    }
  }

  lemma {:induction false} ExactDistinct(entries: seq<Handle>, query: Vec, tier: Tier, which: set<nat>, n: nat)
    requires TierFits(entries, tier, query) && which <= tier.Keys && n <= |entries| && UniqueHashes(entries)
    ensures DistinctItems(ExactHits(entries, query, tier, which, n))
    ensures forall h :: h in ExactHits(entries, query, tier, which, n) ==> h.item.hash in which && HasHash(entries[..n], h.item.hash)
  {
    hide UniqueHashes, SqL2;
    if n > 0 {
      ExactDistinct(entries, query, tier, which, n - 1);
      OthersDiffer(entries, n - 1);
      var before := ExactHits(entries, query, tier, which, n - 1);
      assert forall i :: 0 <= i < |before| ==> before[i] in before;
      assert entries[..n] == entries[..n - 1] + [entries[n - 1]];
      HasHashConcat(entries[..n - 1], entries[n - 1]);
    }
  }

  /** A rearrangement of distinct items, cut off. */
  lemma TakeDistinct(all: seq<Hit>, sorted: seq<Hit>, n: nat)
    requires DistinctItems(all) && multiset(sorted) == multiset(all)
    ensures DistinctItems(Take(sorted, n))
  {
    SelectionDistinct(sorted, [], all, |sorted|);
  }

  lemma TieredDistinct(entries: seq<Handle>, query: Vec, all: seq<Scored<nat>>, tier: Tier, topK: nat,
                       ranked: seq<Scored<nat>>, dropped: seq<Scored<nat>>, sorted: seq<Hit>)
    requires TierFits(entries, tier, query) && ValidPositions(entries, ranked) && UniqueHashes(entries)
    requires DistinctItems(all) && Selection(ranked, dropped, all, topK + |tier|)
    requires multiset(sorted)
      == multiset(NonResident(entries, ranked, tier)) + multiset(ExactHits(entries, query, tier, tier.Keys, |entries|))
    ensures DistinctItems(Take(sorted, topK))
  {
    hide NonResident, ExactHits, UniqueHashes, Take, Selection, HashAmong, HasHash;
    SelectionDistinct(ranked, dropped, all, topK + |tier|);
    NonResidentDistinct(entries, ranked, tier);
    NonResidentItems(entries, ranked, tier);
    ExactDistinct(entries, query, tier, tier.Keys, |entries|);
    var others, exact := NonResident(entries, ranked, tier), ExactHits(entries, query, tier, tier.Keys, |entries|);
    assert forall i :: 0 <= i < |others| ==> others[i] in others;
    assert forall i :: 0 <= i < |exact| ==> exact[i] in exact;
    TakeDistinct(others + exact, sorted, topK);
  }

  lemma PlainDistinct(entries: seq<Handle>, all: seq<Scored<nat>>, k: nat, ranked: seq<Scored<nat>>)
    requires UniqueHashes(entries) && Best(all, k, ranked) && ValidPositions(entries, ranked)
    ensures DistinctItems(Hits(entries, ranked))
  {
    hide UniqueHashes, HasRank, Ascending;
    var hits := Hits(entries, ranked);
    forall i, j | 0 <= i < j < |hits|
      ensures hits[i].item != hits[j].item
    {
      if hits[i].item == hits[j].item {
        SameHash(entries, ranked[i].item, ranked[j].item);
      }
    }
  }

  lemma RankPermuted(a: seq<Hit>, b: seq<Hit>, j: nat, d: real)
    requires multiset(a) == multiset(b) && HasRank(a, j, d)
    ensures HasRank(b, j, d)
  {
    hide Below, AtMost;
    CountPermuted(a, b, d);
  }

  lemma PoolSplit(entries: seq<Handle>, query: Vec, all: seq<Scored<nat>>, tier: Tier, k: nat,
                  ranked: seq<Scored<nat>>, dropped: seq<Scored<nat>>)
    requires TierFits(entries, tier, query) && ValidPositions(entries, all)
    requires ValidPositions(entries, ranked) && ValidPositions(entries, dropped) && Selection(ranked, dropped, all, k)
    ensures multiset(NonResident(entries, ranked, tier) + NonResident(entries, dropped, tier)
                     + ExactHits(entries, query, tier, tier.Keys, |entries|))
         == multiset(Pool(entries, query, all, tier))
  {
    hide NonResident, ExactHits;
    assert multiset(ranked + dropped) == multiset(all);
    hide Selection;
    NonResidentConcat(entries, ranked, dropped, tier);
    NonResidentPermuted(entries, ranked + dropped, all, tier);
  }

  // ---------------------------------------------------------------------------
  // Re-ranking

  lemma BestRanks(all: seq<Scored<nat>>, k: nat, ranked: seq<Scored<nat>>)
    requires Best(all, k, ranked)
    ensures |ranked| == if |all| < k then |all| else k
    ensures forall j :: 0 <= j < |ranked| ==> HasRank(all, j, ranked[j].dist)
    ensures forall i, j :: 0 <= i < j < |ranked| ==> ranked[i].dist <= ranked[j].dist
  {
    hide HasRank;
    forall i, j | 0 <= i < j < |ranked|
      ensures ranked[i].dist <= ranked[j].dist
    {
      assert Precedes(ranked[i], ranked[j], (id: nat) => id);
    }
  }

  method Rescore(query: Vec, fetch: nat -> Option<Vec>, adc: seq<Hit>, cut: nat) returns (head: seq<Hit>)
    requires HitsFit(fetch, query, adc) && cut <= |adc|
    ensures head == RescoredAll(fetch, query, adc[..cut])
  {
    hide SqL2;
    head := [];
    for i := 0 to cut
      invariant |head| == i && forall j :: 0 <= j < i ==> head[j] == Rescored(fetch, query, adc[j])
    {
      var original := fetch(adc[i].item.hash);
      if original.Some? {
        var d := SquaredDistance(query, original.value);
        head := head + [Scored(adc[i].item, d)];
      } else {
        head := head + [adc[i]];
      }
    }
  }

  lemma HitsFitAll(entries: seq<Handle>, fetch: nat -> Option<Vec>, query: Vec, ranked: seq<Scored<nat>>)
    requires FetchFits(entries, fetch, query) && ValidPositions(entries, ranked)
    ensures HitsFit(fetch, query, Hits(entries, ranked))
  {
  }

  lemma NoneFetchedHits(entries: seq<Handle>, fetch: nat -> Option<Vec>, ranked: seq<Scored<nat>>)
    requires NoneFetched(entries, fetch) && ValidPositions(entries, ranked)
    ensures NoOriginals(fetch, Hits(entries, ranked))
  {
  }

  lemma RerankedIf(fetch: nat -> Option<Vec>, query: Vec, adc: seq<Hit>, cut: nat, topK: nat, head: seq<Hit>)
    requires HitsFit(fetch, query, adc) && cut <= |adc| && Ascending(head, HashOf)
    requires multiset(head) == multiset(RescoredAll(fetch, query, adc[..cut]))
    ensures Reranked(fetch, query, adc, cut, topK, head, Take(head + adc[cut..], topK))
  {
  }

  lemma RerankSize(fetch: nat -> Option<Vec>, query: Vec, adc: seq<Hit>, cut: nat, topK: nat, head: seq<Hit>, out: seq<Hit>)
    requires HitsFit(fetch, query, adc) && cut <= |adc| && Reranked(fetch, query, adc, cut, topK, head, out)
    ensures |out| == if |adc| < topK then |adc| else topK
  {
    SameSize(head, RescoredAll(fetch, query, adc[..cut]));
  }

  lemma NothingDropped(ranked: seq<Scored<nat>>, dropped: seq<Scored<nat>>, all: seq<Scored<nat>>, k: nat)
    requires Selection(ranked, dropped, all, k) && |ranked| == |all|
    ensures multiset(ranked) == multiset(all)
  {
    SelectionSize(ranked, dropped, all, k);
    assert dropped == [];
  }

  /** Everything scanned, everything re-scored: the exact linear scan. */
  lemma ExhaustiveRerank(ix: Layout, query: Vec, nprobe: nat, topK: nat, depth: nat, fetch: nat -> Option<Vec>,
                         ranked: seq<Scored<nat>>, dropped: seq<Scored<nat>>, cut: nat, head: seq<Hit>, out: seq<Hit>)
    requires Fits(ix, query) && FetchFits(ix.entries, fetch, query) && AllFetched(ix.entries, fetch)
    requires nprobe >= |ix.coarse| && depth >= |ix.entries|
    requires Selection(ranked, dropped, Candidates(ix, query, nprobe), depth) && ValidPositions(ix.entries, ranked)
    requires HitsFit(fetch, query, Hits(ix.entries, ranked)) && cut == |ranked|
    requires Reranked(fetch, query, Hits(ix.entries, ranked), cut, topK, head, out)
    ensures BruteForce(ExactAll(ix.entries, fetch, query), topK, out)
  {
    hide Fits, Selection, CandidatesUpTo, Ascending, RescoredAll, ExactAll;
    var all, hits := Candidates(ix, query, nprobe), Hits(ix.entries, ranked);
    AllAreCandidates(ix, query, nprobe, |ix.entries|);
    SelectionSize(ranked, dropped, all, depth);
    NothingDropped(ranked, dropped, all, depth);
    assert hits[..cut] == hits && hits[cut..] == [];
    assert head + [] == head;
    RescoredIsExact(ix.entries, query, fetch, ranked, all);
    assert SortOf(head, ExactAll(ix.entries, fetch, query));
  }

  ghost function ExactOne(entries: seq<Handle>, query: Vec, fetch: nat -> Option<Vec>, x: Scored<nat>): Hit
    requires x.item < |entries| && AllFetched(entries, fetch) && FetchFits(entries, fetch, query)
  {
    Scored(entries[x.item], SqL2(query, fetch(entries[x.item].hash).value))
  }

  ghost function ExactOnes(entries: seq<Handle>, query: Vec, fetch: nat -> Option<Vec>, s: seq<Scored<nat>>): (r: seq<Hit>)
    requires ValidPositions(entries, s) && AllFetched(entries, fetch) && FetchFits(entries, fetch, query)
    ensures |r| == |s| && forall i :: 0 <= i < |s| ==> r[i] == ExactOne(entries, query, fetch, s[i])
  {
    seq(|s|, i requires 0 <= i < |s| => ExactOne(entries, query, fetch, s[i]))
  }

  lemma {:induction false} ExactOnesPermuted(entries: seq<Handle>, query: Vec, fetch: nat -> Option<Vec>, a: seq<Scored<nat>>, b: seq<Scored<nat>>)
    requires ValidPositions(entries, a) && ValidPositions(entries, b) && AllFetched(entries, fetch) && FetchFits(entries, fetch, query)
    requires multiset(a) == multiset(b)
    ensures multiset(ExactOnes(entries, query, fetch, a)) == multiset(ExactOnes(entries, query, fetch, b))
    decreases |a|
  {
    hide ExactOne, AllFetched, FetchFits;
    SameSize(a, b);
    if a != [] {
      var n := |a| - 1;
      assert a[n] in multiset(b);
      var i :| 0 <= i < |b| && b[i] == a[n];
      WithoutMultiset(a, n);
      WithoutMultiset(b, i);
      OneLess(multiset(Without(a, n)), multiset(Without(b, i)), a[n]);
      ExactOnesWithout(entries, query, fetch, a, n);
      ExactOnesWithout(entries, query, fetch, b, i);
      ExactOnesPermuted(entries, query, fetch, Without(a, n), Without(b, i));
    }
  }

  lemma ExactOnesWithout(entries: seq<Handle>, query: Vec, fetch: nat -> Option<Vec>, s: seq<Scored<nat>>, i: nat)
    requires ValidPositions(entries, s) && AllFetched(entries, fetch) && FetchFits(entries, fetch, query) && i < |s|
    ensures ValidPositions(entries, Without(s, i))
    ensures multiset(ExactOnes(entries, query, fetch, s))
         == multiset(ExactOnes(entries, query, fetch, Without(s, i))) + multiset{ExactOne(entries, query, fetch, s[i])}
  {
    hide ExactOne, AllFetched, FetchFits;
    var r := ExactOnes(entries, query, fetch, s);
    WithoutMultiset(r, i);
    assert Without(r, i) == ExactOnes(entries, query, fetch, Without(s, i));
  }

  lemma RescoredIsExact(entries: seq<Handle>, query: Vec, fetch: nat -> Option<Vec>, ranked: seq<Scored<nat>>, all: seq<Scored<nat>>)
    requires FetchFits(entries, fetch, query) && AllFetched(entries, fetch) && multiset(ranked) == multiset(all)
    requires ValidPositions(entries, ranked) && HitsFit(fetch, query, Hits(entries, ranked))
    requires |all| == |entries| && forall i :: 0 <= i < |all| ==> all[i].item == i
    ensures multiset(RescoredAll(fetch, query, Hits(entries, ranked))) == multiset(ExactAll(entries, fetch, query))
  {
    hide SqL2;
    assert RescoredAll(fetch, query, Hits(entries, ranked)) == ExactOnes(entries, query, fetch, ranked);
    assert ExactAll(entries, fetch, query) == ExactOnes(entries, query, fetch, all);
    ExactOnesPermuted(entries, query, fetch, ranked, all);
  }

  lemma CellInRange(coarse: seq<Vec>, query: Vec, cells: seq<nat>, i: nat)
    requires Dims(coarse, |query|) && InOrder(coarse, query, cells) && i < |cells|
    ensures cells[i] < |coarse|
  {
  }

  lemma ScanNothing(ix: Layout, query: Vec, topK: nat)
    requires Fits(ix, query)
    ensures Scan(ix, query, []) == [] && Selection<nat>([], [], [], topK)
  {
  }

  lemma SelectionOf(kept: seq<Scored<nat>>, dropped: seq<Scored<nat>>, a: seq<Scored<nat>>, b: seq<Scored<nat>>, k: nat)
    requires Selection(kept, dropped, a, k) && multiset(a) == multiset(b)
    ensures Selection(kept, dropped, b, k)
  {
  }

  lemma BestOf(ix: Layout, query: Vec, nprobe: nat, topK: nat, kept: seq<Scored<nat>>, dropped: seq<Scored<nat>>, sorted: seq<Scored<nat>>)
    requires Fits(ix, query) && Selection(kept, dropped, Candidates(ix, query, nprobe), topK)
    requires Ascending(sorted, (id: nat) => id) && multiset(sorted) == multiset(kept)
    ensures Best(Candidates(ix, query, nprobe), topK, sorted) && ValidPositions(ix.entries, sorted)
    ensures Selection(sorted, dropped, Candidates(ix, query, nprobe), topK)
  {
    hide Estimate, CandidatesUpTo, Selection, Ascending, HasRank, Fits, Visited;
    var all := Candidates(ix, query, nprobe);
    CandidateMembers(ix, query, nprobe, |ix.entries|);
    SelectionPermuted(kept, sorted, dropped, all, topK);
    BoundedSelection(kept, dropped, all, topK, sorted, (id: nat) => id);
  }

  /** The inner loop of `Search`. */
  method ScanCell(ix: Layout, ls: seq<seq<nat>>, query: Vec, topK: nat, cells: seq<nat>, i: nat, heap: MaxHeap, ghost lost: seq<Scored<nat>>)
      returns (ghost lost': seq<Scored<nat>>)
    requires Fits(ix, query) && Partitioned(ix.coarse, ix.entries, ls) && i < |cells| && cells[i] < |ix.coarse|
    requires heap.Valid() && Selection(heap.h, lost, Scan(ix, query, cells[..i]), topK)
    requires topK >= 1 || Scan(ix, query, cells) == []
    modifies heap
    ensures heap.Valid() && Selection(heap.h, lost', Scan(ix, query, cells[..i + 1]), topK)
  {
    hide Estimate, Scan, CellStream, Selection, WellFormed, Trained, ValidCode, CodeDistance, Rows, Sub, CellPositions, Heap;
    var c := cells[i];
    FitsMeans(ix, query);
    var residual := Sub(query, ix.coarse[c]);
    var table := DistanceTable(ix.pq, residual);
    ghost var before, stream := Scan(ix, query, cells[..i]), CellStream(ix, query, c);
    ScanStep(ix, query, cells, i);
    lost' := lost;
    assert before + stream[..0] == before;
    for j := 0 to |ls[c]|
      invariant heap.Valid() && fresh(table) && table[..] == Rows(ix.pq, residual, ix.pq.m)
      invariant Selection(heap.h, lost', before + stream[..j], topK)
    {
      var pos := ls[c][j];
      StreamAt(ix, query, c, j);
      var d := Adc(ix.pq, residual, table, ix.entries[pos].code);
      assert stream[..j + 1] == stream[..j] + [Scored(pos, d)];
      assert before + stream[..j + 1] == before + stream[..j] + [Scored(pos, d)];
      lost' := heap.Offer(Scored(pos, d), topK, lost', before + stream[..j]);
    }
    assert stream[..|ls[c]|] == stream;
  }

  lemma FitsMeans(ix: Layout, query: Vec)
    requires Fits(ix, query)
    ensures ix.coarse != [] && Dims(ix.coarse, |query|) && Trained(ix.pq) && |query| == ix.pq.m * ix.pq.dsub
    ensures UniqueHashes(ix.entries)
  {
  }

  lemma ScanStep(ix: Layout, query: Vec, cells: seq<nat>, i: nat)
    requires Fits(ix, query) && i < |cells|
    ensures Scan(ix, query, cells[..i + 1]) == Scan(ix, query, cells[..i]) + CellStream(ix, query, cells[i])
    ensures Scan(ix, query, cells) == [] ==> CellStream(ix, query, cells[i]) == []
    ensures |CellStream(ix, query, cells[i])| == |CellPositions(ix.entries, cells[i], |ix.entries|)|
  {
    hide Estimate, CellPositions, Fits;
    assert cells[..i + 1][..i] == cells[..i];
    ScanPart(ix, query, cells, i + 1);
  }

  lemma {:induction false} ScanPart(ix: Layout, query: Vec, cells: seq<nat>, n: nat)
    requires Fits(ix, query) && n <= |cells|
    ensures Scan(ix, query, cells) == [] ==> Scan(ix, query, cells[..n]) == []
    decreases |cells|
  {
    hide CellStream, Fits;
    if n == |cells| {
      assert cells[..n] == cells;
    } else {
      var front := cells[..|cells| - 1];
      ScanPart(ix, query, front, n);
      assert front[..n] == cells[..n];
    }
  }

  lemma StreamAt(ix: Layout, query: Vec, c: nat, j: nat)
    requires Fits(ix, query) && c < |ix.coarse| && j < |CellPositions(ix.entries, c, |ix.entries|)|
    ensures var pos := CellPositions(ix.entries, c, |ix.entries|)[j];
      && pos < |ix.entries| && ValidCode(ix.pq, ix.entries[pos].code)
      && |ix.coarse[c]| == |query| && Trained(ix.pq) && |query| == ix.pq.m * ix.pq.dsub
      && j < |CellStream(ix, query, c)|
      && CellStream(ix, query, c)[j] == Scored(pos, CodeDistance(ix.pq, Sub(query, ix.coarse[c]), ix.entries[pos].code))
  {
    hide CodeDistance, Trained, ValidCode, Sub;
    var positions := CellPositions(ix.entries, c, |ix.entries|);
    ListsPartition(ix.entries, c, |ix.entries|);
    hide CellPositions;
    var pos := positions[j];
    assert pos in positions;
    assert Encoded(ix.coarse, ix.pq, ix.entries[pos]);
    assert CellStream(ix, query, c)[j] == Scored(pos, Estimate(ix, query, pos));
  }

  lemma ByHashLast(es: seq<Handle>, h: Handle)
    ensures ByHash(es + [h]) == ByHash(es)[h.hash := |es|]
    ensures ByCode(es + [h]) == ByCode(es)[(h.cell, h.code) := |es|]
  {
    assert (es + [h])[..|es|] == es;
  }
}
