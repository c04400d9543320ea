/** What an index holds and which of it a query scans (`ivf/index.go`, `ivf/engine.go`). */
module IndexLayout {
  import opened Vectors
  import opened TopK
  import opened ProductQuantizer
  import opened Sets

  /** A vector's identity: content hash, coarse cell and code of the residual. */
  datatype Handle = Handle(hash: nat, cell: nat, code: Code)

  type Hit = Scored<Handle>

  datatype Layout = Layout(coarse: seq<Vec>, pq: PQ, entries: seq<Handle>)

  function Dim(pq: PQ): nat {
    pq.m * pq.dsub
  }

  ghost predicate Geometry(coarse: seq<Vec>, pq: PQ) {
    coarse != [] && Dims(coarse, Dim(pq)) && Trained(pq)
  }

  ghost predicate Encoded(coarse: seq<Vec>, pq: PQ, h: Handle) {
    h.cell < |coarse| && ValidCode(pq, h.code)
  }

  ghost predicate UniqueHashes(entries: seq<Handle>) {
    forall p, r :: 0 <= p < r < |entries| ==> entries[p].hash != entries[r].hash
  }

  ghost predicate WellFormed(ix: Layout) {
    && Geometry(ix.coarse, ix.pq)
    && (forall p :: 0 <= p < |ix.entries| ==> Encoded(ix.coarse, ix.pq, ix.entries[p]))
    && UniqueHashes(ix.entries)
  }

  // ---------------------------------------------------------------------------
  // The derived tables

  /** The first `n` positions' inverted list of cell `c`. */
  function CellPositions(entries: seq<Handle>, c: nat, n: nat): seq<nat>
    requires n <= |entries|
  {
    if n == 0 then []
    else CellPositions(entries, c, n - 1) + if entries[n - 1].cell == c then [n - 1] else []
  }

  function ByHash(entries: seq<Handle>): map<nat, nat> {
    if entries == [] then map[]
    else
      var n := |entries| - 1;
      ByHash(entries[..n])[entries[n].hash := n]
  }

  /** The position last stored under each cell and code. */
  function ByCode(entries: seq<Handle>): map<(nat, Code), nat> {
    if entries == [] then map[]
    else
      var n := |entries| - 1;
      ByCode(entries[..n])[(entries[n].cell, entries[n].code) := n]
  }

  ghost predicate AscendingPositions(s: seq<nat>) {
    forall i, j :: 0 <= i < j < |s| ==> s[i] < s[j]
  }

  /** The lists partition the positions: each position is once in the list of its own cell
      and in no other. */
  lemma {:induction false} ListsPartition(entries: seq<Handle>, c: nat, n: nat)
    requires n <= |entries|
    ensures forall p: nat :: p in CellPositions(entries, c, n) <==> p < n && entries[p].cell == c
    ensures AscendingPositions(CellPositions(entries, c, n))
  {
    if n > 0 {
      ListsPartition(entries, c, n - 1);
      var before := CellPositions(entries, c, n - 1);
      assert forall i :: 0 <= i < |before| ==> before[i] in before;
    }
  }

  lemma {:induction false} ListsOfPrefix(entries: seq<Handle>, h: Handle, c: nat, n: nat)
    requires n <= |entries|
    ensures CellPositions(entries + [h], c, n) == CellPositions(entries, c, n)
  {
    if n > 0 {
      ListsOfPrefix(entries, h, c, n - 1);
    }
  }

  /** `byHash` inverts the entries. */
  lemma {:induction false} ByHashInverts(entries: seq<Handle>)
    requires UniqueHashes(entries)
    ensures forall h :: h in ByHash(entries) ==> ByHash(entries)[h] < |entries| && entries[ByHash(entries)[h]].hash == h
    ensures forall p :: 0 <= p < |entries| ==> entries[p].hash in ByHash(entries) && ByHash(entries)[entries[p].hash] == p
  {
    if entries != [] {
      var n := |entries| - 1;
      ByHashInverts(entries[..n]);
      assert forall p :: 0 <= p < n ==> entries[..n][p] == entries[p];
    }
  }

  // ---------------------------------------------------------------------------
  // Which cells a query visits

  ghost predicate Before(coarse: seq<Vec>, query: Vec, a: nat, b: nat)
    requires Dims(coarse, |query|) && a < |coarse| && b < |coarse|
  {
    var da, db := SqL2(coarse[a], query), SqL2(coarse[b], query);
    da < db || (da == db && a < b)
  }

  ghost function Ahead(coarse: seq<Vec>, query: Vec, c: nat): set<nat>
    requires Dims(coarse, |query|) && c < |coarse|
  {
    set a | 0 <= a < |coarse| && Before(coarse, query, a, c)
  }

  /** Fewer than `nprobe` cells are closer, a lower index breaking ties. */
  ghost predicate Probed(coarse: seq<Vec>, query: Vec, nprobe: nat, c: nat)
    requires Dims(coarse, |query|) && c < |coarse|
  {
    |Ahead(coarse, query, c)| < nprobe
  }

  function CellScores(coarse: seq<Vec>, query: Vec): (s: seq<Scored<nat>>)
    requires Dims(coarse, |query|)
    ensures |s| == |coarse|
  {
    seq(|coarse|, c requires 0 <= c < |coarse| => Scored(c, SqL2(coarse[c], query)))
  }

  ghost predicate InOrder(coarse: seq<Vec>, query: Vec, cells: seq<nat>)
    requires Dims(coarse, |query|)
  {
    && (forall i :: 0 <= i < |cells| ==> cells[i] < |coarse|)
    && forall i, j :: 0 <= i < j < |cells| ==> Before(coarse, query, cells[i], cells[j])
  }

  function Items<T>(s: seq<Scored<T>>): (items: seq<T>)
    ensures |items| == |s|
  {
    seq(|s|, i requires 0 <= i < |s| => s[i].item)
  }

  /** A permutation selects everything. */
  lemma AllSelected<T>(s: seq<Scored<T>>, all: seq<Scored<T>>)
    requires multiset(s) == multiset(all)
    ensures Selection(s, [], all, |s|)
  {
  }

  lemma SortedCells(coarse: seq<Vec>, query: Vec, s: seq<Scored<nat>>)
    requires Dims(coarse, |query|)
    requires Ascending(s, (id: nat) => id) && multiset(s) == multiset(CellScores(coarse, query))
    ensures |s| == |coarse| && InOrder(coarse, query, Items(s))
    ensures forall c :: 0 <= c < |coarse| ==> c in Items(s)
  {
    hide SqL2, Selection;
    var all := CellScores(coarse, query);
    SameSize(s, all);
    AllSelected(s, all);
    assert DistinctItems(all);
    SelectionDistinct(s, [], all, |s|);
    forall i | 0 <= i < |s|
      ensures s[i].item < |coarse| && s[i].dist == SqL2(coarse[s[i].item], query)
    {
      SelectedFrom(s, [], all, |s|, s[i]);
    }
    forall i, j | 0 <= i < j < |s|
      ensures Before(coarse, query, s[i].item, s[j].item)
    {
      assert Precedes(s[i], s[j], (id: nat) => id);
      assert s[i].item != s[j].item;
    }
    forall c | 0 <= c < |coarse|
      ensures c in Items(s)
    {
      assert all[c] in multiset(s);
      var i :| 0 <= i < |s| && s[i] == all[c];
      assert Items(s)[i] == c;
    }
  }

  ghost function Range(n: nat): (r: set<nat>)
    ensures |r| == n && forall x: nat :: x in r <==> x < n
  {
    if n == 0 then {} else Range(n - 1) + {n - 1}
  }

  ghost function Members(s: seq<nat>): (r: set<nat>)
    ensures forall x: nat :: x in r <==> x in s
  {
    if s == [] then {} else
      assert s == s[..|s| - 1] + [s[|s| - 1]];
      Members(s[..|s| - 1]) + {s[|s| - 1]}
  }

  ghost predicate Distinct(s: seq<nat>) {
    forall i, j :: 0 <= i < j < |s| ==> s[i] != s[j]
  }

  lemma {:induction false} DistinctSize(s: seq<nat>)
    requires Distinct(s)
    ensures |Members(s)| == |s|
  {
    if s != [] {
      DistinctSize(s[..|s| - 1]);
    }
  }

  lemma BeforeIsStrict(coarse: seq<Vec>, query: Vec, a: nat, b: nat)
    requires Dims(coarse, |query|) && a < |coarse| && b < |coarse| && Before(coarse, query, a, b)
    ensures a != b && !Before(coarse, query, b, a)
  {
  }

  lemma InOrderDistinct(coarse: seq<Vec>, query: Vec, cells: seq<nat>)
    requires Dims(coarse, |query|) && InOrder(coarse, query, cells)
    ensures Distinct(cells)
  {
    forall j, k | 0 <= j < k < |cells|
      ensures cells[j] != cells[k]
    {
      BeforeIsStrict(coarse, query, cells[j], cells[k]);
    }
  }

  /** In the full order, the cells ahead of the i-th are the first i. */
  lemma AheadInOrder(coarse: seq<Vec>, query: Vec, order: seq<nat>, i: nat)
    requires Dims(coarse, |query|) && InOrder(coarse, query, order) && i < |order|
    requires forall c :: 0 <= c < |coarse| ==> c in order
    ensures |Ahead(coarse, query, order[i])| == i
  {
    forall a | a in Ahead(coarse, query, order[i])
      ensures a in order[..i]
    {
      assert a in order;
      var k :| 0 <= k < |order| && order[k] == a;
      BeforeIsStrict(coarse, query, a, order[i]);
    }
    forall a | a in order[..i]
      ensures a in Ahead(coarse, query, order[i])
    {
      var k :| 0 <= k < i && order[k] == a;
    }
    assert Ahead(coarse, query, order[i]) == Members(order[..i]);
    InOrderDistinct(coarse, query, order);
    DistinctSize(order[..i]);
  }

  lemma OrderPrefix(coarse: seq<Vec>, query: Vec, order: seq<nat>, nprobe: nat, n: nat)
    requires Dims(coarse, |query|) && InOrder(coarse, query, order) && |order| == |coarse|
    requires forall c :: 0 <= c < |coarse| ==> c in order
    requires n == if nprobe < |coarse| then nprobe else |coarse|
    ensures InOrder(coarse, query, order[..n])
    ensures forall c :: 0 <= c < |coarse| ==> (c in order[..n] <==> Probed(coarse, query, nprobe, c))
  {
    hide Before;
    forall c | 0 <= c < |coarse|
      ensures c in order[..n] <==> Probed(coarse, query, nprobe, c)
    {
      assert c in order;
      var i :| 0 <= i < |order| && order[i] == c;
      AheadInOrder(coarse, query, order, i);
      assert i < n ==> order[..n][i] == c;
      if c in order[..n] {
        var k :| 0 <= k < n && order[k] == c;
        AheadInOrder(coarse, query, order, k);
      }
    }
  }

  /** `probeCells`: exactly the probed cells, closest first. */
  method ProbeCells(coarse: seq<Vec>, query: Vec, nprobe: nat) returns (cells: seq<nat>)
    requires Dims(coarse, |query|)
    ensures InOrder(coarse, query, cells)
    ensures forall c :: 0 <= c < |coarse| ==> (c in cells <==> Probed(coarse, query, nprobe, c))
    ensures |cells| == if nprobe < |coarse| then nprobe else |coarse|
  {
    hide Before, SqL2, Ascending, Probed, InOrder;
    var cds: seq<Scored<nat>> := [];
    for c := 0 to |coarse|
      invariant |cds| == c && forall i :: 0 <= i < c ==> cds[i] == Scored(i, SqL2(coarse[i], query))
    {
      var d := SquaredDistance(coarse[c], query);
      cds := cds + [Scored(c, d)];
    }
    assert cds == CellScores(coarse, query);
    var sorted := Sort(cds, (id: nat) => id);
    SortedCells(coarse, query, sorted);
    var n := if nprobe > |sorted| then |sorted| else nprobe;
    ghost var order := Items(sorted);
    cells := [];
    for i := 0 to n
      invariant cells == order[..i]
    {
      assert order[..i + 1] == order[..i] + [order[i]];
      cells := cells + [sorted[i].item];
    }
    OrderPrefix(coarse, query, order, nprobe, n);
  }

  /** Probing at least as many cells as there are visits every cell. */
  lemma AllProbed(coarse: seq<Vec>, query: Vec, nprobe: nat, c: nat)
    requires Dims(coarse, |query|) && c < |coarse| <= nprobe
    ensures Probed(coarse, query, nprobe, c)
  {
    forall a | a in Ahead(coarse, query, c)
      ensures a in Range(|coarse|) - {c}
    {
      BeforeIsStrict(coarse, query, a, c);
    }
    SubsetSize(Ahead(coarse, query, c), Range(|coarse|) - {c});
  }

  // ---------------------------------------------------------------------------
  // What a query scans

  ghost predicate Fits(ix: Layout, query: Vec) {
    WellFormed(ix) && |query| == Dim(ix.pq)
  }

  /** The estimated distance: from the query's residual in the entry's cell to what the
      entry's code stands for. */
  ghost function Estimate(ix: Layout, query: Vec, p: nat): real
    requires Fits(ix, query) && p < |ix.entries|
  {
    assert Encoded(ix.coarse, ix.pq, ix.entries[p]);
    CodeDistance(ix.pq, Sub(query, ix.coarse[ix.entries[p].cell]), ix.entries[p].code)
  }

  ghost predicate Visited(ix: Layout, query: Vec, nprobe: nat, p: nat)
    requires Fits(ix, query) && p < |ix.entries|
  {
    assert Encoded(ix.coarse, ix.pq, ix.entries[p]);
    Probed(ix.coarse, query, nprobe, ix.entries[p].cell)
  }

  /** The first `n` positions that are in a probed cell, with their estimates. */
  ghost function CandidatesUpTo(ix: Layout, query: Vec, nprobe: nat, n: nat): seq<Scored<nat>>
    requires Fits(ix, query) && n <= |ix.entries|
  {
    if n == 0 then []
    else
      CandidatesUpTo(ix, query, nprobe, n - 1)
      + if Visited(ix, query, nprobe, n - 1) then [Scored(n - 1, Estimate(ix, query, n - 1))] else []
  }

  ghost function Candidates(ix: Layout, query: Vec, nprobe: nat): seq<Scored<nat>>
    requires Fits(ix, query)
  {
    CandidatesUpTo(ix, query, nprobe, |ix.entries|)
  }

  lemma {:induction false} CandidateMembers(ix: Layout, query: Vec, nprobe: nat, n: nat)
    requires Fits(ix, query) && n <= |ix.entries|
    ensures forall x :: x in CandidatesUpTo(ix, query, nprobe, n) <==>
      x.item < n && Visited(ix, query, nprobe, x.item) && x.dist == Estimate(ix, query, x.item)
    ensures DistinctItems(CandidatesUpTo(ix, query, nprobe, n))
  {
    hide Visited, Estimate, Fits;
    if n > 0 {
      CandidateMembers(ix, query, nprobe, n - 1);
      var before := CandidatesUpTo(ix, query, nprobe, n - 1);
      assert forall i :: 0 <= i < |before| ==> before[i] in before;
    }
  }

  /** Probing every cell makes every entry a candidate. */
  lemma {:induction false} AllAreCandidates(ix: Layout, query: Vec, nprobe: nat, n: nat)
    requires Fits(ix, query) && n <= |ix.entries| && nprobe >= |ix.coarse|
    ensures |CandidatesUpTo(ix, query, nprobe, n)| == n
    ensures forall i :: 0 <= i < n ==> CandidatesUpTo(ix, query, nprobe, n)[i].item == i
  {
    hide Estimate, Probed;
    if n > 0 {
      AllAreCandidates(ix, query, nprobe, n - 1);
      assert Encoded(ix.coarse, ix.pq, ix.entries[n - 1]);
      AllProbed(ix.coarse, query, nprobe, ix.entries[n - 1].cell);
    }
  }

  /** What scanning one inverted list offers. */
  ghost function CellStream(ix: Layout, query: Vec, c: nat): (s: seq<Scored<nat>>)
    requires Fits(ix, query)
  {
    var positions := CellPositions(ix.entries, c, |ix.entries|);
    ListsPartition(ix.entries, c, |ix.entries|);
    seq(|positions|, i requires 0 <= i < |positions| =>
      assert positions[i] in positions; Scored(positions[i], Estimate(ix, query, positions[i])))
  }

  /** What scanning the lists of `cells` offers, in order. */
  ghost function Scan(ix: Layout, query: Vec, cells: seq<nat>): seq<Scored<nat>>
    requires Fits(ix, query)
  {
    if cells == [] then []
    else Scan(ix, query, cells[..|cells| - 1]) + CellStream(ix, query, cells[|cells| - 1])
  }

  lemma CellStreamMembers(ix: Layout, query: Vec, c: nat)
    requires Fits(ix, query)
    ensures forall x :: x in CellStream(ix, query, c) <==>
      x.item < |ix.entries| && ix.entries[x.item].cell == c && x.dist == Estimate(ix, query, x.item)
    ensures DistinctItems(CellStream(ix, query, c))
  {
    hide Fits, Estimate;
    var positions := CellPositions(ix.entries, c, |ix.entries|);
    ListsPartition(ix.entries, c, |ix.entries|);
    hide CellPositions;
    forall x: Scored<nat> | x.item < |ix.entries| && ix.entries[x.item].cell == c && x.dist == Estimate(ix, query, x.item)
      ensures x in CellStream(ix, query, c)
    {
      var i :| 0 <= i < |positions| && positions[i] == x.item;
      assert CellStream(ix, query, c)[i] == x;
    }
    forall x | x in CellStream(ix, query, c)
      ensures x.item < |ix.entries| && ix.entries[x.item].cell == c && x.dist == Estimate(ix, query, x.item)
    {
      var i :| 0 <= i < |positions| && CellStream(ix, query, c)[i] == x;
      assert positions[i] in positions;
    }
  }

  lemma DistinctConcat<T>(a: seq<Scored<T>>, b: seq<Scored<T>>)
    requires DistinctItems(a) && DistinctItems(b)
    requires forall x, y :: x in a && y in b ==> x.item != y.item
    ensures DistinctItems(a + b)
  {
    var s := a + b;
    forall i, j | 0 <= i < j < |s|
      ensures s[i].item != s[j].item
    {
      if i < |a| <= j {
        assert s[i] in a && s[j] in b;
      }
    }
  }

  lemma NothingRepeated<T>()
    ensures DistinctItems<T>([])
  {
  }

  lemma {:induction false} ScanMembers(ix: Layout, query: Vec, cells: seq<nat>)
    requires Fits(ix, query) && Distinct(cells)
    ensures forall x :: x in Scan(ix, query, cells) <==>
      x.item < |ix.entries| && ix.entries[x.item].cell in cells && x.dist == Estimate(ix, query, x.item)
    ensures DistinctItems(Scan(ix, query, cells))
  {
    hide Fits, Estimate, CellStream, DistinctItems;
    if cells != [] {
      var n := |cells| - 1;
      var front, c := cells[..n], cells[n];
      assert cells == front + [c];
      ScanMembers(ix, query, front);
      CellStreamMembers(ix, query, c);
      assert c !in front;
      DistinctConcat(Scan(ix, query, front), CellStream(ix, query, c));
    } else {
      NothingRepeated<nat>();
    }
  }

  lemma SameMembers<T>(a: seq<Scored<T>>, b: seq<Scored<T>>)
    requires DistinctItems(a) && DistinctItems(b) && forall x :: x in a <==> x in b
    ensures multiset(a) == multiset(b)
  {
    hide DistinctItems;
    forall x
      ensures multiset(a)[x] == multiset(b)[x]
    {
      DistinctOnce(a, x);
      DistinctOnce(b, x);
      assert x in multiset(a) <==> x in a;
      assert x in multiset(b) <==> x in b;
    }
  }

  /** Walking the lists of the probed cells meets exactly the candidates. */
  lemma ScanIsCandidates(ix: Layout, query: Vec, nprobe: nat, cells: seq<nat>)
    requires Fits(ix, query) && InOrder(ix.coarse, query, cells)
    requires forall c :: 0 <= c < |ix.coarse| ==> (c in cells <==> Probed(ix.coarse, query, nprobe, c))
    ensures multiset(Scan(ix, query, cells)) == multiset(Candidates(ix, query, nprobe))
  {
    hide Estimate, Scan, CandidatesUpTo, Probed, Before;
    InOrderDistinct(ix.coarse, query, cells);
    ScanMembers(ix, query, cells);
    CandidateMembers(ix, query, nprobe, |ix.entries|);
    forall p: nat | p < |ix.entries|
      ensures Visited(ix, query, nprobe, p) <==> ix.entries[p].cell in cells
    {
      assert Encoded(ix.coarse, ix.pq, ix.entries[p]);
    }
    hide Visited, Fits;
    SameMembers(Scan(ix, query, cells), Candidates(ix, query, nprobe));
  }
}
