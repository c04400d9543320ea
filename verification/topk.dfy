/** Bounded selection of the smallest distances (`ivf/heap.go`) and what it means for a
    list of distances to be the smallest ones. */
module TopK {
  datatype Scored<T> = Scored(item: T, dist: real)

  // ---------------------------------------------------------------------------
  // Order statistics

  /** How many distances are below `d`, and how many are at most `d`. */
  function Below<T>(s: seq<Scored<T>>, d: real): nat {
    if s == [] then 0 else Below(s[..|s| - 1], d) + if s[|s| - 1].dist < d then 1 else 0
  }

  function AtMost<T>(s: seq<Scored<T>>, d: real): nat {
    if s == [] then 0 else AtMost(s[..|s| - 1], d) + if s[|s| - 1].dist <= d then 1 else 0
  }

  /** `d` is the distance at rank `j` when all of `s` is sorted. */
  predicate HasRank<T>(s: seq<Scored<T>>, j: nat, d: real) {
    Below(s, d) <= j < AtMost(s, d)
  }

  lemma {:induction false} BelowVsAtMost<T>(s: seq<Scored<T>>, d: real, e: real)
    requires d < e
    ensures AtMost(s, d) <= Below(s, e)
  {
    if s != [] {
      BelowVsAtMost(s[..|s| - 1], d, e);
    }
  }

  /** A rank determines its distance. */
  lemma RankUnique<T>(s: seq<Scored<T>>, j: nat, d: real, e: real)
    requires HasRank(s, j, d) && HasRank(s, j, e)
    ensures d == e
  {
    hide Below, AtMost;
    if d < e {
      BelowVsAtMost(s, d, e);
    } else if e < d {
      BelowVsAtMost(s, e, d);
    }
  }

  lemma {:induction false} CountConcat<T>(a: seq<Scored<T>>, b: seq<Scored<T>>, d: real)
    ensures Below(a + b, d) == Below(a, d) + Below(b, d)
    ensures AtMost(a + b, d) == AtMost(a, d) + AtMost(b, d)
    decreases |b|
  {
    if b == [] {
      assert a + b == a;
    } else {
      var n := |b| - 1;
      CountConcat(a, b[..n], d);
      var c := a + b;
      assert c[..|c| - 1] == a + b[..n] && c[|c| - 1] == b[n];
    }
  }

  lemma {:induction false} CountBounds<T>(s: seq<Scored<T>>, d: real)
    ensures (forall x :: x in s ==> x.dist >= d) ==> Below(s, d) == 0
    ensures (forall x :: x in s ==> x.dist <= d) ==> AtMost(s, d) == |s|
    ensures Below(s, d) <= AtMost(s, d) <= |s|
  {
    if s != [] {
      var n := |s| - 1;
      assert s == s[..n] + [s[n]];
      CountBounds(s[..n], d);
    }
  }

  function Without<T>(s: seq<T>, i: nat): seq<T>
    requires i < |s|
  {
    s[..i] + s[i + 1..]
  }

  lemma WithoutMultiset<T>(s: seq<T>, i: nat)
    requires i < |s|
    ensures multiset(s) == multiset(Without(s, i)) + multiset{s[i]}
  {
    assert s == s[..i] + [s[i]] + s[i + 1..];
  }

  lemma CountOne<T>(x: Scored<T>, d: real)
    ensures Below([x], d) == if x.dist < d then 1 else 0
    ensures AtMost([x], d) == if x.dist <= d then 1 else 0
  {
    assert [x][..0] == [];
  }

  lemma CountWithout<T>(s: seq<Scored<T>>, i: nat, d: real)
    requires i < |s|
    ensures Below(s, d) == Below(Without(s, i), d) + if s[i].dist < d then 1 else 0
    ensures AtMost(s, d) == AtMost(Without(s, i), d) + if s[i].dist <= d then 1 else 0
  {
    hide Below, AtMost;
    var a, b := s[..i], s[i + 1..];
    assert s == a + [s[i]] + b;
    CountOne(s[i], d);
    CountConcat(a, [s[i]], d);
    CountConcat(a + [s[i]], b, d);
    CountConcat(a, b, d);
  }

  /** Counting does not depend on the order. */
  lemma {:induction false} CountPermuted<T>(a: seq<Scored<T>>, b: seq<Scored<T>>, d: real)
    requires multiset(a) == multiset(b)
    ensures |a| == |b| && Below(a, d) == Below(b, d) && AtMost(a, d) == AtMost(b, d)
    decreases |a|
  {
    hide Below, AtMost;
    SameSize(a, b);
    if a != [] {
      var n := |a| - 1;
      assert a[n] in multiset(b);
      var i :| 0 <= i < |b| && b[i] == a[n];
      WithoutMultiset(a, n);
      WithoutMultiset(b, i);
      OneLess(multiset(Without(a, n)), multiset(Without(b, i)), a[n]);
      CountPermuted(Without(a, n), Without(b, i), d);
      CountWithout(a, n, d);
      CountWithout(b, i, d);
    } else {
      assert b == [];
    }
  }

  lemma OneLess<T>(m: multiset<T>, n: multiset<T>, x: T)
    requires m + multiset{x} == n + multiset{x}
    ensures m == n
  {
    assert m == m + multiset{x} - multiset{x};
    assert n == n + multiset{x} - multiset{x};
  }

  lemma SameSize<T>(a: seq<T>, b: seq<T>)
    requires multiset(a) == multiset(b)
    ensures |a| == |b|
  {
    assert |multiset(a)| == |a| && |multiset(b)| == |b|;
  }

  // ---------------------------------------------------------------------------
  // Sorting

  ghost predicate Precedes<T>(a: Scored<T>, b: Scored<T>, tie: T -> nat) {
    a.dist < b.dist || (a.dist == b.dist && tie(a.item) <= tie(b.item))
  }

  /** Ascending by distance, ties by the lower tag. */
  ghost predicate Ascending<T>(s: seq<Scored<T>>, tie: T -> nat) {
    forall i, j :: 0 <= i < j < |s| ==> Precedes(s[i], s[j], tie)
  }

  /** `sort.Slice` by distance, ties by `tie`. */
  method Sort<T>(s: seq<Scored<T>>, tie: T -> nat) returns (out: seq<Scored<T>>)
    ensures Ascending(out, tie) && multiset(out) == multiset(s) && |out| == |s|
  {
    hide Ascending;
    out := [];
    NothingAscending<T>(tie);
    for i := 0 to |s|
      invariant Ascending(out, tie) && multiset(out) == multiset(s[..i]) && |out| == i
    {
      assert s[..i + 1] == s[..i] + [s[i]];
      out := Insert(out, s[i], tie);
    }
    assert s[..|s|] == s;
  }

  lemma NothingAscending<T>(tie: T -> nat)
    ensures Ascending([], tie)
  {
  }

  method Insert<T>(s: seq<Scored<T>>, x: Scored<T>, tie: T -> nat) returns (out: seq<Scored<T>>)
    requires Ascending(s, tie)
    ensures Ascending(out, tie) && multiset(out) == multiset(s) + multiset{x} && |out| == |s| + 1
  {
    hide Ascending;
    var k := |s|;
    while k > 0 && !(s[k - 1].dist < x.dist || (s[k - 1].dist == x.dist && tie(s[k - 1].item) <= tie(x.item)))
      invariant 0 <= k <= |s|
      invariant forall i :: k <= i < |s| ==> Precedes(x, s[i], tie)
    {
      k := k - 1;
    }
    InsertAscending(s, k, x, tie);
    assert s == s[..k] + s[k..];
    out := s[..k] + [x] + s[k..];
  }

  lemma AscendingConcat<T>(a: seq<Scored<T>>, b: seq<Scored<T>>, tie: T -> nat)
    requires Ascending(a, tie) && Ascending(b, tie)
    requires forall i, j :: 0 <= i < |a| && 0 <= j < |b| ==> Precedes(a[i], b[j], tie)
    ensures Ascending(a + b, tie)
  {
    hide Precedes;
  }

  lemma AscendingSplit<T>(s: seq<Scored<T>>, k: nat, tie: T -> nat)
    requires Ascending(s, tie) && k <= |s|
    ensures Ascending(s[..k], tie) && Ascending(s[k..], tie)
    ensures forall i, j :: 0 <= i < k && 0 <= j < |s[k..]| ==> Precedes(s[..k][i], s[k..][j], tie)
  {
    hide Precedes;
  }

  lemma InsertAscending<T>(s: seq<Scored<T>>, k: nat, x: Scored<T>, tie: T -> nat)
    requires Ascending(s, tie) && k <= |s|
    requires k > 0 ==> Precedes(s[k - 1], x, tie)
    requires forall i :: k <= i < |s| ==> Precedes(x, s[i], tie)
    ensures Ascending(s[..k] + [x] + s[k..], tie)
  {
    var a, b := s[..k], s[k..];
    AscendingSplit(s, k, tie);
    forall i | 0 <= i < k
      ensures Precedes(a[i], x, tie)
    {
      if i < k - 1 {
        assert Precedes(s[i], s[k - 1], tie);
      }
    }
    hide Precedes;
    assert Ascending([x], tie);
    AscendingConcat(a, [x], tie);
    forall i, j | 0 <= i < |a + [x]| && 0 <= j < |b|
      ensures Precedes((a + [x])[i], b[j], tie)
    {
      if i < k {
        assert Precedes(a[i], b[j], tie);
      } else {
        assert b[j] == s[k + j];
      }
    }
    AscendingConcat(a + [x], b, tie);
  }

  /** A sorted list has its own ranks. */
  lemma AscendingRanks<T>(s: seq<Scored<T>>, tie: T -> nat, j: nat)
    requires Ascending(s, tie) && j < |s|
    ensures HasRank(s, j, s[j].dist)
  {
    hide Below, AtMost;
    var d := s[j].dist;
    var low, high := s[..j], s[j..];
    assert s == low + high;
    CountConcat(low, high, d);
    CountBounds(low, d);
    CountBounds(high, d);
    assert forall x :: x in high ==> x.dist >= d;
    assert forall x :: x in low ==> x.dist <= d;
    HeadCounts(high, d);
  }

  lemma HeadCounts<T>(s: seq<Scored<T>>, d: real)
    requires s != [] && s[0].dist <= d
    ensures AtMost(s, d) >= 1
  {
    hide Below, AtMost;
    CountWithout(s, 0, d);
  }

  // ---------------------------------------------------------------------------
  // Selections

  /** `kept` and `dropped` together are `all`, and nothing dropped is closer than anything
      kept; `k` bounds what is kept and something is dropped only when it is reached. */
  ghost predicate Selection<T>(kept: seq<Scored<T>>, dropped: seq<Scored<T>>, all: seq<Scored<T>>, k: nat) {
    && multiset(kept) + multiset(dropped) == multiset(all)
    && |kept| <= k
    && (dropped != [] ==> |kept| == k)
    && forall x, y :: x in kept && y in dropped ==> x.dist <= y.dist
  }

  lemma SelectionSize<T>(kept: seq<Scored<T>>, dropped: seq<Scored<T>>, all: seq<Scored<T>>, k: nat)
    requires Selection(kept, dropped, all, k)
    ensures |kept| == (if |all| < k then |all| else k)
    ensures |kept| + |dropped| == |all|
  {
    assert multiset(kept + dropped) == multiset(all);
    SameSize(kept + dropped, all);
  }

  /** The sorted selection holds, rank by rank, the smallest distances of all. */
  lemma SelectionRanks<T>(kept: seq<Scored<T>>, dropped: seq<Scored<T>>, all: seq<Scored<T>>, k: nat,
                          out: seq<Scored<T>>, tie: T -> nat, j: nat)
    requires Selection(kept, dropped, all, k)
    requires multiset(out) == multiset(kept) && Ascending(out, tie) && j < |out|
    ensures HasRank(all, j, out[j].dist)
  {
    hide Below, AtMost, Ascending;
    var d := out[j].dist;
    AscendingRanks(out, tie, j);
    assert multiset(out + dropped) == multiset(all);
    CountPermuted(out + dropped, all, d);
    CountConcat(out, dropped, d);
    assert out[j] in multiset(kept);
    assert forall y :: y in dropped ==> y.dist >= d;
    CountBounds(dropped, d);
  }

  ghost predicate DistinctItems<T>(s: seq<Scored<T>>) {
    forall i, j :: 0 <= i < j < |s| ==> s[i].item != s[j].item
  }

  lemma {:induction false} DistinctOnce<T>(s: seq<Scored<T>>, x: Scored<T>)
    requires DistinctItems(s)
    ensures multiset(s)[x] <= 1
  {
    if s != [] {
      var n := |s| - 1;
      var low := s[..n];
      assert s == low + [s[n]];
      DistinctOnce(low, x);
      if s[n] == x {
        assert x !in low;
        assert x !in multiset(low);
      }
    }
  }

  lemma TwiceCounted<T>(s: seq<T>, i: nat, j: nat)
    requires i < j < |s| && s[i] == s[j]
    ensures multiset(s)[s[i]] >= 2
  {
    assert s == s[..j] + [s[j]] + s[j + 1..];
    assert s[i] == s[..j][i];
    assert s[i] in multiset(s[..j]);
  }

  /** Nothing is selected twice. */
  lemma SelectionDistinct<T>(kept: seq<Scored<T>>, dropped: seq<Scored<T>>, all: seq<Scored<T>>, k: nat)
    requires Selection(kept, dropped, all, k) && DistinctItems(all)
    ensures DistinctItems(kept)
  {
    forall i, j | 0 <= i < j < |kept|
      ensures kept[i].item != kept[j].item
    {
      if kept[i].item == kept[j].item {
        SelectedFrom(kept, dropped, all, k, kept[i]);
        SelectedFrom(kept, dropped, all, k, kept[j]);
        assert kept[i] == kept[j];
        TwiceCounted(kept, i, j);
        DistinctOnce(all, kept[i]);
        KeptCount(kept, dropped, all, k, kept[i]);
      }
    }
  }

  lemma KeptCount<T>(kept: seq<Scored<T>>, dropped: seq<Scored<T>>, all: seq<Scored<T>>, k: nat, x: Scored<T>)
    requires Selection(kept, dropped, all, k)
    ensures multiset(kept)[x] <= multiset(all)[x]
  {
    assert multiset(all)[x] == multiset(kept)[x] + multiset(dropped)[x];
  }

  lemma SelectedFrom<T>(kept: seq<Scored<T>>, dropped: seq<Scored<T>>, all: seq<Scored<T>>, k: nat, x: Scored<T>)
    requires Selection(kept, dropped, all, k) && (x in kept || x in dropped)
    ensures x in all
  {
    assert x in multiset(kept) + multiset(dropped);
    assert x in multiset(all);
  }

  // ---------------------------------------------------------------------------
  // The heap

  function Parent(i: nat): nat
    requires i > 0
  {
    (i - 1) / 2
  }

  ghost predicate Ordered(h: seq<Scored<nat>>, i: nat)
    requires 0 < i < |h|
  {
    h[Parent(i)].dist >= h[i].dist
  }

  /** Every element is at most its parent. */
  ghost predicate Heap(h: seq<Scored<nat>>) {
    forall i :: 0 < i < |h| ==> Ordered(h, i)
  }

  lemma {:induction false} RootIsGreatest(h: seq<Scored<nat>>, i: nat)
    requires Heap(h) && i < |h|
    ensures h[0].dist >= h[i].dist
  {
    if i > 0 {
      assert Ordered(h, i);
      RootIsGreatest(h, Parent(i));
    }
  }

  lemma SwapKeepsMultiset<T>(s: seq<T>, i: nat, j: nat)
    requires i < |s| && j < |s|
    ensures multiset(s[i := s[j]][j := s[i]]) == multiset(s)
  {
  }

  /** Ordered everywhere but above `i`, where the children of `i` are still ordered with
      respect to the parent of `i`. */
  ghost predicate UpTo(h: seq<Scored<nat>>, i: nat) {
    && i < |h|
    && (forall j :: 0 < j < |h| && j != i ==> Ordered(h, j))
    && forall j :: 0 < j < |h| && i > 0 && Parent(j) == i ==> h[Parent(i)].dist >= h[j].dist
  }

  lemma SiftUp(h: seq<Scored<nat>>, i: nat)
    requires UpTo(h, i) && i > 0 && !Ordered(h, i)
    ensures UpTo(h[Parent(i) := h[i]][i := h[Parent(i)]], Parent(i))
  {
    var p := Parent(i);
    var g := h[p := h[i]][i := h[p]];
    forall j | 0 < j < |g| && j != p
      ensures Ordered(g, j)
    {
      assert j != i ==> Ordered(h, j);
    }
    forall j | 0 < j < |g| && p > 0 && Parent(j) == p
      ensures g[Parent(p)].dist >= g[j].dist
    {
      assert Ordered(h, p);
      assert j != i ==> Ordered(h, j);
    }
  }

  /** Ordered everywhere but below `i`, where the children of `i` are still ordered with
      respect to the parent of `i`. */
  ghost predicate DownTo(h: seq<Scored<nat>>, i: nat) {
    && i < |h|
    && (forall j :: 0 < j < |h| && Parent(j) != i ==> Ordered(h, j))
    && forall j :: 0 < j < |h| && i > 0 && Parent(j) == i ==> h[Parent(i)].dist >= h[j].dist
  }

  lemma SiftDown(h: seq<Scored<nat>>, i: nat, largest: nat)
    requires DownTo(h, i) && 0 < largest < |h| && Parent(largest) == i && h[largest].dist > h[i].dist
    requires forall j :: 0 < j < |h| && Parent(j) == i ==> h[largest].dist >= h[j].dist
    ensures DownTo(h[i := h[largest]][largest := h[i]], largest)
  {
    var g := h[i := h[largest]][largest := h[i]];
    forall j | 0 < j < |g| && Parent(j) != largest
      ensures Ordered(g, j)
    {
      if Parent(j) != i {
        assert Ordered(h, j);
      }
    }
    forall j | 0 < j < |g| && Parent(j) == largest
      ensures g[Parent(largest)].dist >= g[j].dist
    {
      assert Ordered(h, j);
    }
  }

  class MaxHeap {
    var h: seq<Scored<nat>>

    ghost predicate Valid()
      reads this
    {
      Heap(h)
    }

    constructor ()
      ensures Valid() && h == []
    {
      h := [];
    }

    method Push(r: Scored<nat>)
      requires Valid()
      modifies this
      ensures Valid() && multiset(h) == multiset(old(h)) + multiset{r} && |h| == |old(h)| + 1
    {
      hide Heap, UpTo, Ordered;
      ghost var h0 := h;
      h := h + [r];
      var i := |h| - 1;
      PushedUpTo(h0, r);
      while i > 0
        invariant 0 <= i && UpTo(h, i)
        invariant multiset(h) == multiset(h0) + multiset{r} && |h| == |h0| + 1
      {
        var p := (i - 1) / 2;
        UpToBounds(h, i);
        if h[p].dist >= h[i].dist {
          UpToDone(h, i);
          return;
        }
        OrderedMeans(h, i);
        SiftUp(h, i);
        SwapKeepsMultiset(h, p, i);
        h := h[p := h[i]][i := h[p]];
        i := p;
      }
      UpToRoot(h);
    }

    method ReplaceTop(r: Scored<nat>)
      requires Valid() && h != []
      modifies this
      ensures Valid() && multiset(h) == multiset(old(h)) - multiset{old(h)[0]} + multiset{r} && |h| == |old(h)|
    {
      hide Heap, DownTo, Ordered;
      ghost var h0 := h;
      h := h[0 := r];
      ReplacedDownTo(h0, r);
      ghost var all := multiset(h);
      var n, i := |h|, 0;
      while true
        invariant 0 <= i && DownTo(h, i) && i < n == |h| == |h0| && multiset(h) == all
        decreases n - i
      {
        var l, ri, largest := 2 * i + 1, 2 * i + 2, i;
        if l < n && h[l].dist > h[largest].dist {
          largest := l;
        }
        if ri < n && h[ri].dist > h[largest].dist {
          largest := ri;
        }
        if largest == i {
          DownToDone(h, i);
          return;
        }
        LargestChild(h, i, largest);
        SiftDown(h, i, largest);
        SwapKeepsMultiset(h, i, largest);
        h := h[i := h[largest]][largest := h[i]];
        i := largest;
      }
    }

    /** `drainAscending`: a sorted copy; the heap itself stays. */
    method DrainAscending() returns (out: seq<Scored<nat>>)
      ensures Ascending(out, (id: nat) => id) && multiset(out) == multiset(h) && |out| == |h|
    {
      out := Sort(h, (id: nat) => id);
    }

    /** What both searches do with each candidate. */
    method Offer(r: Scored<nat>, k: nat, ghost dropped: seq<Scored<nat>>, ghost all: seq<Scored<nat>>)
        returns (ghost dropped': seq<Scored<nat>>)
      requires Valid() && k >= 1 && Selection(h, dropped, all, k)
      modifies this
      ensures Valid() && Selection(h, dropped', all + [r], k)
    {
      hide Selection, Heap;
      SelectionSize(h, dropped, all, k);
      if |h| < k {
        OfferPush(h, dropped, all, k, r);
        Push(r);
        dropped' := dropped;
        SelectionPermuted(old(h) + [r], h, dropped', all + [r], k);
      } else if r.dist < h[0].dist {
        OfferReplace(h, dropped, all, k, r);
        dropped' := dropped + [h[0]];
        ReplaceTop(r);
        RestMultiset(old(h), r);
        SelectionPermuted(old(h)[1..] + [r], h, dropped', all + [r], k);
      } else {
        OfferDrop(h, dropped, all, k, r);
        dropped' := dropped + [r];
      }
    }
  }

  lemma OrderedMeans(h: seq<Scored<nat>>, i: nat)
    requires 0 < i < |h|
    ensures Ordered(h, i) <==> h[(i - 1) / 2].dist >= h[i].dist
  {
  }

  lemma UpToBounds(h: seq<Scored<nat>>, i: nat)
    requires UpTo(h, i)
    ensures i < |h|
  {
  }

  lemma PushedUpTo(h: seq<Scored<nat>>, r: Scored<nat>)
    requires Heap(h)
    ensures UpTo(h + [r], |h|)
  {
    forall j | 0 < j < |h|
      ensures Ordered(h + [r], j)
    {
      assert Ordered(h, j);
    }
  }

  lemma UpToDone(h: seq<Scored<nat>>, i: nat)
    requires UpTo(h, i) && i > 0 && h[Parent(i)].dist >= h[i].dist
    ensures Heap(h)
  {
  }

  lemma UpToRoot(h: seq<Scored<nat>>)
    requires UpTo(h, 0)
    ensures Heap(h)
  {
  }

  lemma ReplacedDownTo(h: seq<Scored<nat>>, r: Scored<nat>)
    requires Heap(h) && h != []
    ensures DownTo(h[0 := r], 0)
    ensures multiset(h[0 := r]) == multiset(h) - multiset{h[0]} + multiset{r}
  {
    forall j | 0 < j < |h| && Parent(j) != 0
      ensures Ordered(h[0 := r], j)
    {
      assert Ordered(h, j);
    }
  }

  lemma OnlyChildren(h: seq<Scored<nat>>, i: nat)
    ensures forall j :: 0 < j < |h| && Parent(j) == i ==> j == 2 * i + 1 || j == 2 * i + 2
  {
  }

  lemma LargestChild(h: seq<Scored<nat>>, i: nat, largest: nat)
    requires i < |h| && (largest == 2 * i + 1 || largest == 2 * i + 2) && largest < |h|
    requires 2 * i + 1 < |h| ==> h[largest].dist >= h[2 * i + 1].dist
    requires 2 * i + 2 < |h| ==> h[largest].dist >= h[2 * i + 2].dist
    ensures Parent(largest) == i
    ensures forall j :: 0 < j < |h| && Parent(j) == i ==> h[largest].dist >= h[j].dist
  {
    OnlyChildren(h, i);
  }

  lemma DownToDone(h: seq<Scored<nat>>, i: nat)
    requires DownTo(h, i)
    requires 2 * i + 1 < |h| ==> h[2 * i + 1].dist <= h[i].dist
    requires 2 * i + 2 < |h| ==> h[2 * i + 2].dist <= h[i].dist
    ensures Heap(h)
  {
    OnlyChildren(h, i);
    forall j | 0 < j < |h|
      ensures Ordered(h, j)
    {
    }
  }

  // ---------------------------------------------------------------------------
  // One more candidate

  lemma SelectionPermuted<T>(kept: seq<Scored<T>>, kept': seq<Scored<T>>, dropped: seq<Scored<T>>,
                             all: seq<Scored<T>>, k: nat)
    requires Selection(kept, dropped, all, k) && multiset(kept') == multiset(kept)
    ensures Selection(kept', dropped, all, k)
  {
    SameSize(kept, kept');
    forall x | x in kept'
      ensures x in kept
    {
      assert x in multiset(kept');
    }
  }

  lemma RestMultiset(h: seq<Scored<nat>>, r: Scored<nat>)
    requires h != []
    ensures multiset(h[1..] + [r]) == multiset(h) - multiset{h[0]} + multiset{r}
  {
    assert h == [h[0]] + h[1..];
  }

  lemma OfferPush(h: seq<Scored<nat>>, dropped: seq<Scored<nat>>, all: seq<Scored<nat>>, k: nat, r: Scored<nat>)
    requires Selection(h, dropped, all, k) && |h| < k
    ensures Selection(h + [r], dropped, all + [r], k)
  {
  }

  lemma OfferDrop(h: seq<Scored<nat>>, dropped: seq<Scored<nat>>, all: seq<Scored<nat>>, k: nat, r: Scored<nat>)
    requires Selection(h, dropped, all, k) && |h| == k >= 1 && Heap(h) && h[0].dist <= r.dist
    ensures Selection(h, dropped + [r], all + [r], k)
  {
    hide Heap;
    forall x | x in h
      ensures x.dist <= r.dist
    {
      var i :| 0 <= i < |h| && h[i] == x;
      RootIsGreatest(h, i);
    }
  }

  lemma OfferReplace(h: seq<Scored<nat>>, dropped: seq<Scored<nat>>, all: seq<Scored<nat>>, k: nat, r: Scored<nat>)
    requires Selection(h, dropped, all, k) && |h| == k >= 1 && Heap(h) && r.dist < h[0].dist
    ensures Selection(h[1..] + [r], dropped + [h[0]], all + [r], k)
  {
    hide Heap;
    RestMultiset(h, r);
    assert h[0] in h;
    forall x | x in h
      ensures x.dist <= h[0].dist
    {
      var i :| 0 <= i < |h| && h[i] == x;
      RootIsGreatest(h, i);
    }
    assert h == [h[0]] + h[1..];
    assert forall x :: x in h[1..] + [r] ==> x == r || x in h;
    assert multiset(h[1..] + [r]) + multiset(dropped + [h[0]]) == multiset(all + [r]);
  }

  /** Bounded selection over a stream of distinct candidates: what the heap holds at the
      end, sorted, has min(k, scanned) elements, all different and all from the stream, and
      its distances are, rank by rank, the smallest of the stream. Which of several equally
      distant candidates at the boundary is kept is open. */
  lemma BoundedSelection<T>(kept: seq<Scored<T>>, dropped: seq<Scored<T>>, stream: seq<Scored<T>>, k: nat,
                            out: seq<Scored<T>>, tie: T -> nat)
    requires Selection(kept, dropped, stream, k) && DistinctItems(stream)
    requires Ascending(out, tie) && multiset(out) == multiset(kept)
    ensures |out| == if |stream| < k then |stream| else k
    ensures DistinctItems(out)
    ensures forall j :: 0 <= j < |out| ==> out[j] in stream && HasRank(stream, j, out[j].dist)
  {
    hide Selection, Ascending, HasRank, DistinctItems;
    SelectionPermuted(kept, out, dropped, stream, k);
    SelectionSize(out, dropped, stream, k);
    SelectionDistinct(out, dropped, stream, k);
    forall j | 0 <= j < |out|
      ensures out[j] in stream && HasRank(stream, j, out[j].dist)
    {
      SelectedFrom(out, dropped, stream, k, out[j]);
      SelectionRanks(out, dropped, stream, k, out, tie, j);
    }
  }

  lemma NothingSelected(k: nat)
    ensures Selection<nat>([], [], [], k)
  {
  }
}
