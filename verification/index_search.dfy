/** What the exact tier and the re-rank stage do to a list of hits (`ivf/index.go`). */
module IndexSearch {
  import opened Vectors
  import opened TopK
  import opened IndexLayout
  import opened Sets

  datatype Option<T> = None | Some(value: T)

  function HashOf(h: Handle): nat {
    h.hash
  }

  ghost predicate ValidPositions(entries: seq<Handle>, s: seq<Scored<nat>>) {
    forall i :: 0 <= i < |s| ==> s[i].item < |entries|
  }

  /** Positions turned into handles. */
  function Hits(entries: seq<Handle>, ranked: seq<Scored<nat>>): (hits: seq<Hit>)
    requires ValidPositions(entries, ranked)
    ensures |hits| == |ranked|
    ensures forall i :: 0 <= i < |hits| ==> hits[i] == Scored(entries[ranked[i].item], ranked[i].dist)
  {
    seq(|ranked|, i requires 0 <= i < |ranked| => Scored(entries[ranked[i].item], ranked[i].dist))
  }

  /** The best `k` of `all`: as many as there are, all different, ascending, and rank by
      rank the smallest distances of `all`. */
  ghost predicate Best(all: seq<Scored<nat>>, k: nat, ranked: seq<Scored<nat>>) {
    && |ranked| == (if |all| < k then |all| else k)
    && Ascending(ranked, (id: nat) => id)
    && DistinctItems(ranked)
    && forall j :: 0 <= j < |ranked| ==> ranked[j] in all && HasRank(all, j, ranked[j].dist)
  }

  // ---------------------------------------------------------------------------
  // The exact tier

  type Tier = map<nat, Vec>

  ghost predicate TierFits(entries: seq<Handle>, tier: Tier, query: Vec) {
    forall p :: 0 <= p < |entries| && entries[p].hash in tier ==> |tier[entries[p].hash]| == |query|
  }

  /** The hits that are not resident in the tier. */
  function NonResident(entries: seq<Handle>, s: seq<Scored<nat>>, tier: Tier): seq<Hit>
    requires ValidPositions(entries, s)
  {
    if s == [] then []
    else
      var last := s[|s| - 1];
      NonResident(entries, s[..|s| - 1], tier)
      + if entries[last.item].hash in tier then [] else [Scored(entries[last.item], last.dist)]
  }

  /** Of the first `n` entries, the residents whose hash is in `which`, at their exact
      distance. */
  function ExactHits(entries: seq<Handle>, query: Vec, tier: Tier, which: set<nat>, n: nat): seq<Hit>
    requires TierFits(entries, tier, query) && which <= tier.Keys && n <= |entries|
  {
    if n == 0 then []
    else
      var h := entries[n - 1];
      ExactHits(entries, query, tier, which, n - 1)
      + if h.hash in which then [Scored(h, SqL2(query, tier[h.hash]))] else []
  }

  /** Everything a tiered search chooses from. */
  ghost function Pool(entries: seq<Handle>, query: Vec, candidates: seq<Scored<nat>>, tier: Tier): seq<Hit>
    requires TierFits(entries, tier, query) && ValidPositions(entries, candidates)
  {
    NonResident(entries, candidates, tier) + ExactHits(entries, query, tier, tier.Keys, |entries|)
  }

  lemma {:induction false} NonResidentConcat(entries: seq<Handle>, a: seq<Scored<nat>>, b: seq<Scored<nat>>, tier: Tier)
    requires ValidPositions(entries, a) && ValidPositions(entries, b)
    ensures ValidPositions(entries, a + b)
    ensures NonResident(entries, a + b, tier) == NonResident(entries, a, tier) + NonResident(entries, b, tier)
    decreases |b|
  {
    if b == [] {
      assert a + b == a;
    } else {
      var n := |b| - 1;
      NonResidentConcat(entries, a, b[..n], tier);
      var c := a + b;
      assert c[..|c| - 1] == a + b[..n] && c[|c| - 1] == b[n];
    }
  }

  ghost function One(entries: seq<Handle>, x: Scored<nat>, tier: Tier): seq<Hit>
    requires x.item < |entries|
  {
    if entries[x.item].hash in tier then [] else [Scored(entries[x.item], x.dist)]
  }

  lemma NonResidentOne(entries: seq<Handle>, x: Scored<nat>, tier: Tier)
    requires x.item < |entries|
    ensures NonResident(entries, [x], tier) == One(entries, x, tier)
  {
    assert [x][..0] == [];
    assert NonResident(entries, [x][..0], tier) == [];
  }

  lemma NonResidentWithout(entries: seq<Handle>, s: seq<Scored<nat>>, i: nat, tier: Tier)
    requires ValidPositions(entries, s) && i < |s|
    ensures ValidPositions(entries, Without(s, i))
    ensures multiset(NonResident(entries, s, tier))
         == multiset(NonResident(entries, Without(s, i), tier)) + multiset(One(entries, s[i], tier))
  {
    hide NonResident, One;
    var a, b := s[..i], s[i + 1..];
    assert s == a + [s[i]] + b;
    NonResidentOne(entries, s[i], tier);
    NonResidentConcat(entries, a, [s[i]], tier);
    NonResidentConcat(entries, a + [s[i]], b, tier);
    NonResidentConcat(entries, a, b, tier);
  }

  lemma {:induction false} NonResidentPermuted(entries: seq<Handle>, a: seq<Scored<nat>>, b: seq<Scored<nat>>, tier: Tier)
    requires multiset(a) == multiset(b) && ValidPositions(entries, a) && ValidPositions(entries, b)
    ensures multiset(NonResident(entries, a, tier)) == multiset(NonResident(entries, b, tier))
    decreases |a|
  {
    hide NonResident, One, ValidPositions;
    SameSize(a, b);
    if a != [] {
      var n := |a| - 1;
      assert a[n] in multiset(b);
      var i :| 0 <= i < |b| && b[i] == a[n];
      WithoutMultiset(a, n);
      WithoutMultiset(b, i);
      OneLess(multiset(Without(a, n)), multiset(Without(b, i)), a[n]);
      ItemFits(entries, a, n);
      NonResidentWithout(entries, a, n, tier);
      NonResidentWithout(entries, b, i, tier);
      NonResidentPermuted(entries, Without(a, n), Without(b, i), tier);
    } else {
      assert b == [];
    }
  }

  lemma ItemFits(entries: seq<Handle>, s: seq<Scored<nat>>, i: nat)
    requires ValidPositions(entries, s) && i < |s|
    ensures s[i].item < |entries|
  {
  }

  ghost predicate HashAmong(entries: seq<Handle>, s: seq<Scored<nat>>, h: nat)
    requires ValidPositions(entries, s)
  {
    exists i :: 0 <= i < |s| && entries[s[i].item].hash == h
  }

  /** At most as many hits are removed as the tier has residents. */
  lemma {:induction false} FewRemoved(entries: seq<Handle>, s: seq<Scored<nat>>, tier: Tier) returns (removed: set<nat>)
    requires ValidPositions(entries, s) && UniqueHashes(entries) && DistinctItems(s)
    ensures |s| == |NonResident(entries, s, tier)| + |removed| && removed <= tier.Keys
    ensures forall h :: h in removed ==> HashAmong(entries, s, h)
  {
    hide UniqueHashes, HashAmong;
    if s == [] {
      removed := {};
    } else {
      var n := |s| - 1;
      var h := entries[s[n].item].hash;
      var before := FewRemoved(entries, s[..n], tier);
      LastHash(entries, s);
      removed := if h in tier then before + {h} else before;
    }
  }

  lemma LastHash(entries: seq<Handle>, s: seq<Scored<nat>>)
    requires ValidPositions(entries, s) && UniqueHashes(entries) && DistinctItems(s) && s != []
    ensures !HashAmong(entries, s[..|s| - 1], entries[s[|s| - 1].item].hash)
    ensures HashAmong(entries, s, entries[s[|s| - 1].item].hash)
    ensures forall h :: HashAmong(entries, s[..|s| - 1], h) ==> HashAmong(entries, s, h)
  {
    hide UniqueHashes;
    var n := |s| - 1;
    forall i | 0 <= i < n
      ensures entries[s[..n][i].item].hash != entries[s[n].item].hash
    {
      if entries[s[i].item].hash == entries[s[n].item].hash {
        SameHash(entries, s[i].item, s[n].item);
      }
    }
    forall h | HashAmong(entries, s[..n], h)
      ensures HashAmong(entries, s, h)
    {
      var i :| 0 <= i < n && entries[s[..n][i].item].hash == h;
      assert entries[s[i].item].hash == h;
    }
  }

  lemma SameHash(entries: seq<Handle>, p: nat, r: nat)
    requires UniqueHashes(entries) && p < |entries| && r < |entries| && entries[p].hash == entries[r].hash
    ensures p == r
  {
  }

  lemma EnoughLeft(entries: seq<Handle>, s: seq<Scored<nat>>, tier: Tier)
    requires ValidPositions(entries, s) && UniqueHashes(entries) && DistinctItems(s)
    ensures |s| <= |NonResident(entries, s, tier)| + |tier|
  {
    hide NonResident, UniqueHashes, DistinctItems;
    var removed := FewRemoved(entries, s, tier);
    SubsetSize(removed, tier.Keys);
    assert |tier| == |tier.Keys|;
  }

  lemma {:induction false} ExactWithoutNew(entries: seq<Handle>, query: Vec, tier: Tier, which: set<nat>, hash: nat, n: nat)
    requires TierFits(entries, tier, query) && which <= tier.Keys && hash in tier && n <= |entries|
    requires forall p :: 0 <= p < n ==> entries[p].hash != hash
    ensures ExactHits(entries, query, tier, which + {hash}, n) == ExactHits(entries, query, tier, which, n)
  {
    hide SqL2;
    if n > 0 {
      ExactWithoutNew(entries, query, tier, which, hash, n - 1);
    }
  }

  lemma OthersDiffer(entries: seq<Handle>, p: nat)
    requires UniqueHashes(entries) && p < |entries|
    ensures forall r :: 0 <= r < p ==> entries[r].hash != entries[p].hash
  {
  }

  /** Visiting one more indexed resident adds its exact hit. */
  lemma {:induction false} ExactWithNew(entries: seq<Handle>, query: Vec, tier: Tier, which: set<nat>, p: nat, n: nat)
    requires TierFits(entries, tier, query) && which <= tier.Keys && p < n <= |entries| && UniqueHashes(entries)
    requires entries[p].hash in tier && entries[p].hash !in which
    ensures multiset(ExactHits(entries, query, tier, which + {entries[p].hash}, n))
         == multiset(ExactHits(entries, query, tier, which, n))
          + multiset{Scored(entries[p], SqL2(query, tier[entries[p].hash]))}
    decreases n
  {
    hide SqL2, UniqueHashes;
    if p == n - 1 {
      OthersDiffer(entries, p);
      ExactWithoutNew(entries, query, tier, which, entries[p].hash, n - 1);
    } else {
      OthersDiffer(entries, n - 1);
      ExactWithNew(entries, query, tier, which, p, n - 1);
    }
  }

  ghost predicate NoCloser(s: seq<Hit>, dropped: seq<Hit>) {
    forall x, y :: x in s && y in dropped ==> x.dist <= y.dist
  }

  lemma {:induction false} NonResidentFrom(entries: seq<Handle>, s: seq<Scored<nat>>, tier: Tier)
    requires ValidPositions(entries, s)
    ensures |NonResident(entries, s, tier)| <= |s|
    ensures forall h :: h in NonResident(entries, s, tier) ==> exists x :: x in s && x.dist == h.dist
  {
    if s != [] {
      var n := |s| - 1;
      NonResidentFrom(entries, s[..n], tier);
      assert s == s[..n] + [s[n]];
    }
  }

  lemma NonResidentNoCloser(entries: seq<Handle>, kept: seq<Scored<nat>>, dropped: seq<Scored<nat>>,
                            all: seq<Scored<nat>>, k: nat, tier: Tier)
    requires Selection(kept, dropped, all, k) && ValidPositions(entries, kept) && ValidPositions(entries, dropped)
    ensures NoCloser(NonResident(entries, kept, tier), NonResident(entries, dropped, tier))
  {
    hide NonResident;
    NonResidentFrom(entries, kept, tier);
    NonResidentFrom(entries, dropped, tier);
  }

  /** A list sorted from the surviving hits and more still has its first `topK` at the
      ranks of the larger pool, when what was dropped is no closer than `topK` of it. */
  lemma RankSurvives(kept: seq<Hit>, dropped: seq<Hit>, more: seq<Hit>, sorted: seq<Hit>, topK: nat, j: nat, tie: Handle -> nat)
    requires NoCloser(kept, dropped) && (dropped != [] ==> |kept| >= topK)
    requires Ascending(sorted, tie) && multiset(sorted) == multiset(kept) + multiset(more)
    requires j < |sorted| && j < topK
    ensures HasRank(kept + dropped + more, j, sorted[j].dist)
  {
    hide Below, AtMost, Ascending, NoCloser;
    var d := sorted[j].dist;
    AscendingRanks(sorted, tie, j);
    assert multiset(sorted) == multiset(kept + more);
    CountPermuted(sorted, kept + more, d);
    CountConcat(kept, more, d);
    CountConcat(kept, dropped, d);
    CountConcat(kept + dropped, more, d);
    DroppedNotBelow(kept, dropped, more, topK, j, d);
  }

  lemma DroppedNotBelow(kept: seq<Hit>, dropped: seq<Hit>, more: seq<Hit>, topK: nat, j: nat, d: real)
    requires NoCloser(kept, dropped) && (dropped != [] ==> |kept| >= topK)
    requires Below(kept, d) + Below(more, d) <= j < topK
    ensures Below(dropped, d) == 0
  {
    hide Below, AtMost;
    forall y | y in dropped
      ensures y.dist >= d
    {
      if y.dist < d {
        CountBounds(kept, y.dist);
        BelowVsAtMost(kept, y.dist, d);
      }
    }
    CountBounds(dropped, d);
  }

  // ---------------------------------------------------------------------------
  // Re-ranking

  ghost predicate FetchFits(entries: seq<Handle>, fetch: nat -> Option<Vec>, query: Vec) {
    forall p :: 0 <= p < |entries| && fetch(entries[p].hash).Some? ==> |fetch(entries[p].hash).value| == |query|
  }

  /** A hit at its exact distance, or at its estimate when the original is not at hand. */
  function Rescored(fetch: nat -> Option<Vec>, query: Vec, h: Hit): Hit
    requires fetch(h.item.hash).Some? ==> |fetch(h.item.hash).value| == |query|
  {
    match fetch(h.item.hash)
    case None => h
    case Some(original) => Scored(h.item, SqL2(query, original))
  }

  ghost predicate HitsFit(fetch: nat -> Option<Vec>, query: Vec, hits: seq<Hit>) {
    forall i :: 0 <= i < |hits| && fetch(hits[i].item.hash).Some? ==> |fetch(hits[i].item.hash).value| == |query|
  }

  function RescoredAll(fetch: nat -> Option<Vec>, query: Vec, hits: seq<Hit>): (r: seq<Hit>)
    requires HitsFit(fetch, query, hits)
    ensures |r| == |hits|
  {
    seq(|hits|, i requires 0 <= i < |hits| => Rescored(fetch, query, hits[i]))
  }

  function Take<T>(s: seq<T>, n: nat): seq<T> {
    if |s| > n then s[..n] else s
  }

  /** Re-scoring and re-sorting the first `cut` hits, then truncating. */
  ghost predicate Reranked(fetch: nat -> Option<Vec>, query: Vec, adc: seq<Hit>, cut: nat, topK: nat, head: seq<Hit>, out: seq<Hit>)
    requires HitsFit(fetch, query, adc) && cut <= |adc|
  {
    && Ascending(head, HashOf)
    && multiset(head) == multiset(RescoredAll(fetch, query, adc[..cut]))
    && out == Take(head + adc[cut..], topK)
  }

  ghost predicate NoOriginals(fetch: nat -> Option<Vec>, hits: seq<Hit>) {
    forall i :: 0 <= i < |hits| ==> fetch(hits[i].item.hash) == None
  }

  ghost predicate Sorted(hits: seq<Hit>) {
    forall i, j :: 0 <= i < j < |hits| ==> hits[i].dist <= hits[j].dist
  }

  /** Without originals re-ranking keeps the distance at every rank. */
  lemma RerankWithoutOriginals(fetch: nat -> Option<Vec>, query: Vec, adc: seq<Hit>, cut: nat, topK: nat, head: seq<Hit>, out: seq<Hit>)
    requires HitsFit(fetch, query, adc) && cut <= |adc| && Reranked(fetch, query, adc, cut, topK, head, out)
    requires NoOriginals(fetch, adc) && Sorted(adc)
    ensures |out| == (if |adc| < topK then |adc| else topK)
    ensures forall j :: 0 <= j < |out| ==> out[j].dist == adc[j].dist
  {
    hide Ascending, HasRank;
    assert RescoredAll(fetch, query, adc[..cut]) == adc[..cut];
    SameSize(head, adc[..cut]);
    forall j | 0 <= j < cut
      ensures head[j].dist == adc[j].dist
    {
      SortedIsAscending(adc[..cut]);
      SameRanks(head, HashOf, adc[..cut], (h: Handle) => 0, j);
    }
  }

  lemma SortedIsAscending(hits: seq<Hit>)
    requires Sorted(hits)
    ensures Ascending(hits, (h: Handle) => 0)
  {
  }

  /** Two sorted arrangements of the same hits have the same distance at every rank. */
  lemma SameRanks(a: seq<Hit>, tieA: Handle -> nat, b: seq<Hit>, tieB: Handle -> nat, j: nat)
    requires Ascending(a, tieA) && Ascending(b, tieB) && multiset(a) == multiset(b) && j < |a| == |b|
    ensures a[j].dist == b[j].dist
  {
    hide Ascending, Below, AtMost;
    AscendingRanks(a, tieA, j);
    AscendingRanks(b, tieB, j);
    CountPermuted(a, b, a[j].dist);
    RankUnique(b, j, a[j].dist, b[j].dist);
  }

  /** Every entry at the distance to its original. */
  ghost function ExactAll(entries: seq<Handle>, fetch: nat -> Option<Vec>, query: Vec): (s: seq<Hit>)
    requires FetchFits(entries, fetch, query) && forall p :: 0 <= p < |entries| ==> fetch(entries[p].hash).Some?
    ensures |s| == |entries|
  {
    seq(|entries|, p requires 0 <= p < |entries| => Scored(entries[p], SqL2(query, fetch(entries[p].hash).value)))
  }

  /** The result of a linear scan with exact distances: sort everything, take `topK`. */
  ghost predicate BruteForce(all: seq<Hit>, topK: nat, out: seq<Hit>) {
    exists sorted :: SortOf(sorted, all) && out == Take(sorted, topK)
  }

  ghost predicate SortOf(sorted: seq<Hit>, all: seq<Hit>) {
    Ascending(sorted, HashOf) && multiset(sorted) == multiset(all)
  }

  /** Re-scoring every hit is a linear scan of the re-scored hits. */
  lemma WholeRerank(fetch: nat -> Option<Vec>, query: Vec, adc: seq<Hit>, cut: nat, topK: nat, head: seq<Hit>, out: seq<Hit>)
    requires HitsFit(fetch, query, adc) && cut == |adc| && Reranked(fetch, query, adc, cut, topK, head, out)
    ensures BruteForce(RescoredAll(fetch, query, adc), topK, out)
  {
    hide Ascending, RescoredAll;
    assert adc[..cut] == adc && head + adc[cut..] == head;
    assert SortOf(head, RescoredAll(fetch, query, adc));
  }

  /** What is not re-scored stays where it was. */
  lemma RerankTail(fetch: nat -> Option<Vec>, query: Vec, adc: seq<Hit>, cut: nat, topK: nat, head: seq<Hit>, out: seq<Hit>)
    requires HitsFit(fetch, query, adc) && cut <= |adc| <= topK && Reranked(fetch, query, adc, cut, topK, head, out)
    ensures |out| == |adc| && forall j :: cut <= j < |out| ==> out[j] == adc[j]
  {
    hide Ascending;
    SameSize(head, RescoredAll(fetch, query, adc[..cut]));
    assert out == head + adc[cut..];
  }

  /** The linear scan has one answer. */
  lemma SortOfUnique(a: seq<Hit>, b: seq<Hit>, all: seq<Hit>, entries: seq<Handle>)
    requires SortOf(a, all) && SortOf(b, all) && UniqueHashes(entries)
    requires Items(all) == entries
    ensures a == b
  {
    hide Ascending, UniqueHashes, Items;
    SameSize(a, b);
    forall j | 0 <= j < |a|
      ensures a[j] == b[j]
    {
      SameAt(a, b, all, entries, j);
    }
  }

  lemma SameAt(a: seq<Hit>, b: seq<Hit>, all: seq<Hit>, entries: seq<Handle>, j: nat)
    requires SortOf(a, all) && SortOf(b, all) && UniqueHashes(entries) && Items(all) == entries
    requires j < |a| == |b|
    ensures a[j] == b[j]
    decreases j
  {
    hide UniqueHashes;
    forall i | 0 <= i < j
      ensures a[i] == b[i]
    {
      SameAt(a, b, all, entries, i);
    }
    assert a[..j] == b[..j];
    SameTail(a, b, j);
    // Each head is in the other's tail, so each precedes the other.
    var i :| 0 <= i < |b[j..]| && b[j..][i] == a[j];
    var k :| 0 <= k < |a[j..]| && a[j..][k] == b[j];
    assert b[j + i] == a[j] && a[j + k] == b[j];
    assert a[j].dist == b[j].dist && a[j].item.hash == b[j].item.hash;
    InAll(a, all, j);
    InAll(b, all, j);
    assert a[j] == b[j] by {
      SameEntry(all, entries, a[j], b[j]);
    }
  }

  lemma SameTail(a: seq<Hit>, b: seq<Hit>, j: nat)
    requires multiset(a) == multiset(b) && j < |a| == |b| && a[..j] == b[..j]
    ensures a[j] in b[j..] && b[j] in a[j..]
  {
    assert a == a[..j] + a[j..] && b == b[..j] + b[j..];
    assert multiset(a[j..]) == multiset(a) - multiset(a[..j]);
    assert multiset(b[j..]) == multiset(b) - multiset(b[..j]);
    assert a[j] in multiset(a[j..]) && b[j] in multiset(b[j..]);
  }

  lemma InAll(a: seq<Hit>, all: seq<Hit>, j: nat)
    requires multiset(a) == multiset(all) && j < |a|
    ensures a[j] in all
  {
    assert a[j] in multiset(all);
  }

  lemma SameEntry(all: seq<Hit>, entries: seq<Handle>, x: Hit, y: Hit)
    requires Items(all) == entries && UniqueHashes(entries) && x in all && y in all
    requires x.item.hash == y.item.hash && x.dist == y.dist
    ensures x == y
  {
    var i :| 0 <= i < |all| && all[i] == x;
    var j :| 0 <= j < |all| && all[j] == y;
    SameHash(entries, i, j);
  }
}
