/** The frequency and prefetching policies (`internal/cache/cache.go`) and the online
    predictor (`internal/refine/predict.go`). */
module CachePolicies {
  import opened Recency
  import opened Sets

  // ---------------------------------------------------------------------------
  // Ordering items

  ghost predicate Precedes(key: int -> int, a: int, b: int) {
    key(a) < key(b) || (key(a) == key(b) && a < b)
  }

  ghost predicate Ordered(s: seq<int>, key: int -> int) {
    forall i, j :: 0 <= i < j < |s| ==> Precedes(key, s[i], s[j])
  }

  lemma NothingOrdered(key: int -> int)
    ensures Ordered([], key)
  {
  }

  /** The elements of a set, by key and then by value, whatever order the set yields them
      in. */
  method SortBy(items: set<int>, key: int -> int) returns (out: seq<int>)
    ensures Ordered(out, key) && SameMembers(out, items) && |out| == |items|
  {
    hide Ordered;
    out := [];
    var left := items;
    NothingOrdered(key);
    while left != {}
      invariant left <= items && Ordered(out, key) && |out| + |left| == |items|
      invariant forall x :: x in out <==> x in items && x !in left
    {
      SomeMember(left);
      var x :| x in left;
      left := left - {x};
      out := Insert(out, x, key);
    }
  }

  method Insert(s: seq<int>, x: int, key: int -> int) returns (out: seq<int>)
    requires Ordered(s, key) && x !in s
    ensures Ordered(out, key) && |out| == |s| + 1
    ensures forall y :: y in out <==> y in s || y == x
  {
    var k := |s|;
    while k > 0 && !(key(s[k - 1]) < key(x) || (key(s[k - 1]) == key(x) && s[k - 1] < x))
      invariant 0 <= k <= |s|
      invariant forall i :: k <= i < |s| ==> Precedes(key, x, s[i])
    {
      k := k - 1;
    }
    assert s == s[..k] + s[k..];
    out := s[..k] + [x] + s[k..];
    InsertOrdered(s, k, x, key);
  }

  lemma InsertOrdered(s: seq<int>, k: nat, x: int, key: int -> int)
    requires Ordered(s, key) && k <= |s|
    requires k > 0 ==> Precedes(key, s[k - 1], x)
    requires forall i :: k <= i < |s| ==> Precedes(key, x, s[i])
    ensures Ordered(s[..k] + [x] + s[k..], key)
  {
    var out := s[..k] + [x] + s[k..];
    forall i | 0 <= i < k
      ensures Precedes(key, s[i], x)
    {
      if i < k - 1 {
        assert Precedes(key, s[i], s[k - 1]);
      }
    }
    hide Precedes;
    forall i, j | 0 <= i < j < |out|
      ensures Precedes(key, out[i], out[j])
    {
      assert j > k ==> out[j] == s[j - 1];
      assert i > k ==> out[i] == s[i - 1];
    }
  }

  // ---------------------------------------------------------------------------
  // LFU

  /** The least frequent item, the lowest of equally frequent ones. */
  ghost predicate Rarest(freq: map<int, nat>, v: int) {
    v in freq && forall it :: it in freq ==> freq[v] < freq[it] || (freq[v] == freq[it] && v <= it)
  }

  class Lfu {
    const capacity: int
    var freq: map<int, nat>

    ghost predicate Valid()
      reads this
    {
      |freq| <= if capacity > 1 then capacity else 1
    }

    constructor (capacity: int)
      ensures Valid() && freq == map[] && this.capacity == capacity
    {
      this.capacity, freq := capacity, map[];
    }

    /** A hit counts up. A miss makes room by dropping the rarest item when the cache is
        full, and is admitted; a capacity below 1 still holds the last missed item. */
    method Access(item: int) returns (hit: bool)
      requires Valid()
      modifies this
      ensures Valid() && (hit <==> item in old(freq))
      ensures |freq| <= capacity <==> capacity >= 1
      ensures hit ==> freq == old(freq)[item := old(freq)[item] + 1]
      ensures !hit && (|old(freq)| < capacity || old(freq) == map[]) ==> freq == old(freq)[item := 1]
      ensures !hit && |old(freq)| >= capacity && old(freq) != map[] ==>
        exists v :: Rarest(old(freq), v) && freq == (old(freq) - {v})[item := 1]
      ensures !hit && |old(freq)| >= capacity && old(freq) != map[] ==>
        exists v :: v in old(freq) && freq == (old(freq) - {v})[item := 1]
          && forall it :: it in old(freq) && it != v ==> old(freq)[v] < old(freq)[it] || (old(freq)[v] == old(freq)[it] && v < it)
    {
      if item in freq {
        KeysStay(freq, item, freq[item] + 1);
        freq := freq[item := freq[item] + 1];
        return true;
      }
      if |freq| >= capacity {
        Evict();
      }
      OneMoreKey(freq, item, 1);
      freq := freq[item := 1];
      return false;
    }

    method Evict()
      requires Valid()
      modifies this
      ensures old(freq) == map[] ==> freq == map[]
      ensures old(freq) != map[] ==> |freq| == |old(freq)| - 1 && exists v :: Rarest(old(freq), v) && freq == old(freq) - {v}
    {
      if |freq| == 0 {
        return;
      }
      SomeMember(freq.Keys);
      var minItem :| minItem in freq.Keys;
      var left := freq.Keys - {minItem};
      while left != {}
        invariant freq == old(freq) && minItem in freq && minItem !in left && left <= freq.Keys
        invariant forall it :: it in freq && it !in left ==> freq[minItem] < freq[it] || (freq[minItem] == freq[it] && minItem <= it)
      {
        SomeMember(left);
        var it :| it in left;
        left := left - {it};
        if freq[it] < freq[minItem] || (freq[it] == freq[minItem] && it < minItem) {
          minItem := it;
        }
      }
      assert Rarest(freq, minItem);
      OneKeyLess(freq, minItem);
      freq := freq - {minItem};
    }
  }

  /** A capacity of 0 does not keep the cache empty: one miss leaves one item. */
  method HeldAtCapacityZero(item: int) returns (held: nat)
    ensures held == 1
  {
    var c := new Lfu(0);
    var hit := c.Access(item);
    held := |c.freq|;
  }

  lemma KeysStay(m: map<int, nat>, x: int, n: nat)
    requires x in m
    ensures |m[x := n]| == |m|
  {
    assert m[x := n].Keys == m.Keys;
    assert |m[x := n]| == |m[x := n].Keys| && |m| == |m.Keys|;
  }

  lemma OneMoreKey(m: map<int, nat>, x: int, n: nat)
    requires x !in m
    ensures |m[x := n]| == |m| + 1
  {
    assert m[x := n].Keys == m.Keys + {x};
    assert |m[x := n]| == |m[x := n].Keys| && |m| == |m.Keys|;
  }

  lemma OneKeyLess(m: map<int, nat>, x: int)
    requires x in m
    ensures |m - {x}| == |m| - 1
  {
    assert (m - {x}).Keys == m.Keys - {x};
    assert |m - {x}| == |(m - {x}).Keys| && |m| == |m.Keys|;
  }

  // ---------------------------------------------------------------------------
  // The predictor

  type Pair = (int, int)

  /** How often `to` was seen right after `from`. */
  ghost function Observed(pairs: seq<Pair>, from: int, to: int): nat {
    if pairs == [] then 0
    else Observed(pairs[..|pairs| - 1], from, to) + if pairs[|pairs| - 1] == (from, to) then 1 else 0
  }

  /** The number of places where the transition was seen. */
  lemma {:induction false} ObservedCounts(pairs: seq<Pair>, from: int, to: int)
    ensures Observed(pairs, from, to) == |set i: nat | i < |pairs| && pairs[i] == (from, to)|
  {
    var at := set i: nat | i < |pairs| && pairs[i] == (from, to);
    if pairs == [] {
      assert at == {};
    } else {
      var n := |pairs| - 1;
      ObservedCounts(pairs[..n], from, to);
      var before := set i: nat | i < n && pairs[..n][i] == (from, to);
      assert at == before + if pairs[n] == (from, to) then {n as nat} else {};
    }
  }

  ghost predicate Seen(counts: map<int, map<int, nat>>, from: int, to: int) {
    from in counts && to in counts[from]
  }

  /** The best `k` successors: more often seen first, then the lower item. */
  ghost predicate Likeliest(pairs: seq<Pair>, from: int, ids: seq<int>) {
    && (forall i :: 0 <= i < |ids| ==> Observed(pairs, from, ids[i]) > 0)
    && (forall i, j :: 0 <= i < j < |ids| ==> Better(pairs, from, ids[i], ids[j]))
    && forall i, to :: 0 <= i < |ids| && to !in ids ==> Better(pairs, from, ids[i], to)
  }

  ghost predicate Better(pairs: seq<Pair>, from: int, a: int, b: int) {
    Observed(pairs, from, a) > Observed(pairs, from, b) || (Observed(pairs, from, a) == Observed(pairs, from, b) && a < b)
  }

  class Markov {
    var counts: map<int, map<int, nat>>
    ghost var pairs: seq<Pair>

    ghost predicate Valid()
      reads this
    {
      && (forall from, to :: Seen(counts, from, to) <==> Observed(pairs, from, to) > 0)
      && (forall from, to :: Seen(counts, from, to) ==> counts[from][to] == Observed(pairs, from, to))
    }

    constructor ()
      ensures Valid() && pairs == []
    {
      counts, pairs := map[], [];
    }

    method Observe(from: int, to: int)
      requires Valid()
      modifies this
      ensures Valid() && pairs == old(pairs) + [(from, to)]
    {
      ObservedStep(pairs, from, to);
      hide Observed;
      var row := if from in counts then counts[from] else map[];
      assert forall x :: x in row <==> Seen(counts, from, x);
      row := row[to := (if to in row then row[to] else 0) + 1];
      counts := counts[from := row];
      pairs := pairs + [(from, to)];
    }

    method Predict(from: int, k: nat) returns (ids: seq<int>)
      requires Valid()
      ensures Likeliest(pairs, from, ids) && |ids| <= k
      ensures |ids| < k ==> forall to :: Observed(pairs, from, to) > 0 ==> to in ids
      ensures forall i, to :: 0 <= i < |ids| && to !in ids ==>
        var n, m := Observed(pairs, from, ids[i]), Observed(pairs, from, to); n > m || (n == m && ids[i] < to)
    {
      hide Observed;
      if from !in counts || |counts[from]| == 0 {
        assert forall to :: !Seen(counts, from, to);
        return [];
      }
      var row := counts[from];
      var key := (x: int) => if x in row then -1 * row[x] else 0 as int;
      var all := SortBy(row.Keys, key);
      ids := if |all| > k then all[..k] else all;
      assert forall to :: to in row <==> Seen(counts, from, to);
      Ranking(pairs, from, row, key, all, ids);
    }
  }

  lemma ObservedStep(pairs: seq<Pair>, from: int, to: int)
    ensures forall a, b :: Observed(pairs + [(from, to)], a, b) == Observed(pairs, a, b) + if (a, b) == (from, to) then 1 else 0
  {
    assert (pairs + [(from, to)])[..|pairs|] == pairs;
  }

  lemma Ranking(pairs: seq<Pair>, from: int, row: map<int, nat>, key: int -> int, all: seq<int>, ids: seq<int>)
    requires forall to :: to in row <==> Observed(pairs, from, to) > 0
    requires forall to :: to in row ==> row[to] == Observed(pairs, from, to) && key(to) + row[to] == 0
    requires Ordered(all, key) && SameMembers(all, row.Keys) && ids <= all
    ensures Likeliest(pairs, from, ids)
  {
    hide Observed;
    forall i, j | 0 <= i < j < |all|
      ensures Better(pairs, from, all[i], all[j])
    {
      assert all[i] in all && all[j] in all;
      assert Precedes(key, all[i], all[j]);
    }
    forall i, to | 0 <= i < |ids| && to !in ids
      ensures Better(pairs, from, ids[i], to)
    {
      assert ids[i] == all[i] && all[i] in all;
      forall j | |ids| <= j < |all|
        ensures Better(pairs, from, ids[i], all[j])
      {
      }
      assert forall j :: 0 <= j < |ids| ==> all[j] == ids[j] && ids[j] in ids;
    }
  }

  // ---------------------------------------------------------------------------
  // Prefetching

  /** The transitions of a stream. */
  function Transitions(stream: seq<int>): seq<Pair> {
    var n := |stream|;
    if n < 2 then [] else Transitions(stream[..n - 1]) + [(stream[n - 2], stream[n - 1])]
  }

  lemma TransitionsStep(stream: seq<int>, x: int)
    ensures Transitions(stream + [x])
         == Transitions(stream) + if stream == [] then [] else [(stream[|stream| - 1], x)]
  {
    assert (stream + [x])[..|stream|] == stream;
  }

  /** The i-th transition is from the i-th item to the next. */
  lemma {:induction false} TransitionsAt(stream: seq<int>)
    ensures |Transitions(stream)| == if stream == [] then 0 else |stream| - 1
    ensures forall i :: 0 <= i < |Transitions(stream)| ==> Transitions(stream)[i] == (stream[i], stream[i + 1])
  {
    var n := |stream|;
    if n >= 2 {
      TransitionsAt(stream[..n - 1]);
    }
  }

  /** What the policy does with one access: the item to the front, then the likeliest next
      item, if any transition from the item has been seen. */
  function Prefetched(order: seq<int>, item: int, predicted: seq<int>, capacity: nat): seq<int> {
    var accessed := Take(ToFront(order, item), capacity);
    if predicted == [] then accessed else Take(ToFront(accessed, predicted[0]), capacity)
  }

  /** After an access the predicted item is in front and the accessed one behind it, as far
      as there is room; what else is held was held before, in the same order, and as much of
      it as fits. */
  lemma PrefetchMeans(order: seq<int>, item: int, predicted: seq<int>, capacity: nat)
    requires Distinct(order)
    ensures var after := Prefetched(order, item, predicted, capacity);
      var wanted := if predicted == [] || predicted[0] == item then [item] else [predicted[0], item];
      after == Take(wanted + Others(order, wanted), capacity)
  {
    hide Take, Remove;
    if predicted != [] {
      ToFrontMembers(order, item);
      TruncateFirst(ToFront(order, item), predicted[0], capacity);
      OthersTwice(order, item, predicted[0]);
    }
    OthersOnce(order, item);
  }

  /** What is left of a list without some items. */
  function Others(s: seq<int>, out: seq<int>): seq<int> {
    if s == [] then [] else (if s[0] in out then [] else [s[0]]) + Others(s[1..], out)
  }

  lemma {:induction false} OthersNothing(s: seq<int>, out: seq<int>)
    requires forall x :: x in s ==> x !in out
    ensures Others(s, out) == s
  {
    if s != [] {
      OthersNothing(s[1..], out);
      OthersCons(s[0], s[1..], out);
      assert s[0] in s;
      assert s == [s[0]] + s[1..];
    }
  }

  lemma {:induction false} OthersOnce(s: seq<int>, x: int)
    requires Distinct(s)
    ensures Others(s, [x]) == Remove(s, x)
  {
    if s != [] {
      if s[0] == x {
        OthersNothing(s[1..], [x]);
      } else {
        OthersOnce(s[1..], x);
      }
    }
  }

  lemma {:induction false} OthersBoth(s: seq<int>, x: int, y: int)
    requires Distinct(s) && x != y
    ensures Others(s, [y, x]) == Remove(Remove(s, x), y)
  {
    hide Remove;
    RemoveMembers(s, x);
    OthersOnce(Remove(s, x), y);
    OthersOnce(s, x);
    OthersNested(s, x, y);
  }

  lemma {:induction false} OthersNested(s: seq<int>, x: int, y: int)
    ensures Others(s, [y, x]) == Others(Others(s, [x]), [y])
  {
    if s != [] {
      OthersNested(s[1..], x, y);
      OthersCons(s[0], Others(s[1..], [x]), [y]);
    }
  }

  lemma OthersCons(x: int, s: seq<int>, out: seq<int>)
    ensures Others([x] + s, out) == (if x in out then [] else [x]) + Others(s, out)
    ensures [] + s == s
  {
    assert ([x] + s)[1..] == s;
  }

  lemma RemoveCons(x: int, s: seq<int>, y: int)
    ensures Remove([x] + s, y) == if x == y then s else [x] + Remove(s, y)
  {
    assert ([x] + s)[1..] == s;
  }

  lemma PrefetchFront(order: seq<int>, item: int, predicted: seq<int>, capacity: nat)
    requires capacity >= 1
    ensures var after := Prefetched(order, item, predicted, capacity);
      after != [] && after[0] == if predicted == [] then item else predicted[0]
  {
    hide Remove;
  }

  lemma OthersTwice(order: seq<int>, item: int, next: int)
    requires Distinct(order)
    ensures ToFront(ToFront(order, item), next) ==
      if next == item then [item] + Others(order, [item]) else [next, item] + Others(order, [next, item])
  {
    hide Remove, Others;
    OthersOnce(order, item);
    RemoveCons(item, Remove(order, item), next);
    if next != item {
      OthersBoth(order, item, next);
      assert [next] + ([item] + Others(order, [next, item])) == [next, item] + Others(order, [next, item]);
    }
  }

  class MarkovPrefetch {
    const lru: Lru
    const mk: Markov
    var prev: int
    var started: bool
    var prefetches: nat
    var prefetchLoads: nat
    ghost var stream: seq<int>

    ghost predicate Valid()
      reads this, lru, mk
    {
      && lru.Valid() && mk.Valid()
      && mk.pairs == Transitions(stream)
      && (started <==> stream != [])
      && (started ==> prev == stream[|stream| - 1])
    }

    constructor (capacity: nat)
      ensures Valid() && fresh(lru) && fresh(mk) && lru.order == [] && lru.capacity == capacity
      ensures stream == [] && prefetches == 0 && prefetchLoads == 0
    {
      lru := new Lru(capacity);
      mk := new Markov();
      prev, started, prefetches, prefetchLoads, stream := 0, false, 0, 0, [];
    }

    method Access(item: int) returns (hit: bool, ghost predicted: seq<int>)
      requires Valid()
      modifies this, lru, mk
      ensures Valid() && stream == old(stream) + [item]
      ensures hit <==> item in old(lru.order)
      ensures Likeliest(Transitions(stream), item, predicted) && |predicted| <= 1
      ensures predicted == [] ==> forall to :: Observed(Transitions(stream), item, to) == 0
      ensures lru.order == Prefetched(old(lru.order), item, predicted, lru.capacity)
      ensures lru.capacity >= 1 ==> lru.order != [] && lru.order[0] == if predicted == [] then item else predicted[0]
      ensures prefetches == old(prefetches) + |predicted|
      ensures prefetchLoads == old(prefetchLoads)
        + if predicted != [] && predicted[0] !in Take(ToFront(old(lru.order), item), lru.capacity) then 1 else 0
    {
      hide Likeliest, Observed, ToFront, Held, Take, Transitions, Lru.Valid, Markov.Valid;
      TransitionsStep(stream, item);
      hit := lru.Access(item);
      stream := stream + [item];
      if started {
        mk.Observe(prev, item);
      }
      prev, started := item, true;
      var pred := mk.Predict(item, 1);
      predicted := pred;
      if |pred| > 0 {
        prefetches := prefetches + 1;
        if !lru.Holds(pred[0]) {
          prefetchLoads := prefetchLoads + 1;
        }
        lru.Admit(pred[0]);
      }
      if lru.capacity >= 1 {
        PrefetchFront(old(lru.order), item, predicted, lru.capacity);
      }
    }
  }
}
