/** Recency order and the least-recently-used cache (`internal/cache/cache.go`). */
module Recency {
  function Remove(s: seq<int>, x: int): seq<int> {
    if s == [] then []
    else if s[0] == x then s[1..]
    else [s[0]] + Remove(s[1..], x)
  }

  function Take(s: seq<int>, n: nat): seq<int> {
    if |s| > n then s[..n] else s
  }

  /** `x` moved, or put, to the front. */
  function ToFront(s: seq<int>, x: int): seq<int> {
    [x] + Remove(s, x)
  }

  /** The distinct items of a stream, the most recently accessed first. */
  function ByRecency(stream: seq<int>): seq<int> {
    if stream == [] then [] else ToFront(ByRecency(stream[..|stream| - 1]), stream[|stream| - 1])
  }

  ghost predicate Distinct(s: seq<int>) {
    forall i, j :: 0 <= i < j < |s| ==> s[i] != s[j]
  }

  lemma {:induction false} RemoveMembers(s: seq<int>, x: int)
    requires Distinct(s)
    ensures Distinct(Remove(s, x))
    ensures forall y :: y in Remove(s, x) <==> y in s && y != x
    ensures |Remove(s, x)| == if x in s then |s| - 1 else |s|
  {
    if s != [] {
      assert s == [s[0]] + s[1..];
      RemoveMembers(s[1..], x);
      assert s[0] !in s[1..];
    }
  }

  lemma {:induction false} RemoveAbsent(s: seq<int>, x: int)
    requires x !in s
    ensures Remove(s, x) == s
  {
    if s != [] {
      RemoveAbsent(s[1..], x);
    }
  }

  lemma ToFrontMembers(s: seq<int>, x: int)
    requires Distinct(s)
    ensures Distinct(ToFront(s, x))
    ensures forall y :: y in ToFront(s, x) <==> y in s || y == x
    ensures |ToFront(s, x)| == if x in s then |s| else |s| + 1
  {
    hide Remove;
    RemoveMembers(s, x);
  }

  /** Where an item was last accessed. */
  function Last(stream: seq<int>, x: int): (i: nat)
    requires x in stream
    ensures i < |stream| && stream[i] == x
  {
    if stream[|stream| - 1] == x then |stream| - 1
    else
      assert stream == stream[..|stream| - 1] + [stream[|stream| - 1]];
      Last(stream[..|stream| - 1], x)
  }

  ghost predicate LatestFirst(stream: seq<int>, s: seq<int>) {
    && (forall y :: y in s <==> y in stream)
    && forall i, j :: 0 <= i < j < |s| ==> Last(stream, s[i]) > Last(stream, s[j])
  }

  lemma {:induction false} RemoveKeepsOrder(stream: seq<int>, s: seq<int>, x: int)
    requires Distinct(s) && (forall y :: y in s ==> y in stream)
    requires forall i, j :: 0 <= i < j < |s| ==> Last(stream, s[i]) > Last(stream, s[j])
    ensures forall y :: y in Remove(s, x) ==> y in s
    ensures forall i, j :: 0 <= i < j < |Remove(s, x)| ==> Last(stream, Remove(s, x)[i]) > Last(stream, Remove(s, x)[j])
  {
    hide Last;
    if s != [] && s[0] != x {
      var rest := s[1..];
      RemoveKeepsOrder(stream, rest, x);
      RemoveMembers(rest, x);
      assert forall y :: y in rest ==> Last(stream, s[0]) > Last(stream, y);
      assert forall k :: 0 <= k < |Remove(rest, x)| ==> Remove(rest, x)[k] in rest;
    }
  }

  /** Recency order is exactly the accessed items, each once, by last access. */
  lemma {:induction false} ByRecencyMeans(stream: seq<int>)
    ensures Distinct(ByRecency(stream)) && LatestFirst(stream, ByRecency(stream))
  {
    if stream != [] {
      var n := |stream| - 1;
      var front, x, earlier := stream[..n], stream[n], ByRecency(stream[..n]);
      assert stream == front + [x];
      ByRecencyMeans(front);
      ToFrontMembers(earlier, x);
      RemoveKeepsOrder(front, earlier, x);
      RemoveMembers(earlier, x);
      LatestStep(front, x, Remove(earlier, x));
    }
  }

  lemma LastStep(front: seq<int>, x: int, y: int)
    requires y in front
    ensures y in front + [x] && x in front + [x]
    ensures Last(front + [x], x) == |front|
    ensures y != x ==> Last(front + [x], y) == Last(front, y) < |front|
  {
    assert (front + [x])[..|front|] == front;
  }

  lemma LatestStep(front: seq<int>, x: int, rest: seq<int>)
    requires forall y :: y in rest <==> y in front && y != x
    requires forall i, j :: 0 <= i < j < |rest| ==> Last(front, rest[i]) > Last(front, rest[j])
    ensures LatestFirst(front + [x], [x] + rest)
  {
    hide Last;
    var stream, s := front + [x], [x] + rest;
    forall i, j | 0 <= i < j < |s|
      ensures s[i] in stream && s[j] in stream && Last(stream, s[i]) > Last(stream, s[j])
    {
      assert rest[j - 1] in rest;
      LastStep(front, x, rest[j - 1]);
      if i > 0 {
        assert rest[i - 1] in rest;
        LastStep(front, x, rest[i - 1]);
      }
    }
  }

  // ---------------------------------------------------------------------------
  // Truncation

  lemma RemoveFromPrefix(s: seq<int>, x: int, n: nat)
    requires Distinct(s)
    ensures Take(Remove(s, x), n) == Take(Remove(Take(s, n + 1), x), n)
  {
    hide Remove;
    if |s| > n + 1 {
      if x in s {
        var i :| 0 <= i < |s| && s[i] == x;
        RemoveAt(s, x, i);
        if i <= n {
          RemoveAt(s[..n + 1], x, i);
        } else {
          RemoveAbsent(s[..n + 1], x);
        }
      } else {
        RemoveAbsent(s, x);
        RemoveAbsent(s[..n + 1], x);
      }
    }
  }

  /** Forgetting the tail first makes no difference to what the next access leaves. */
  lemma TruncateFirst(s: seq<int>, x: int, n: nat)
    requires Distinct(s)
    ensures Take(ToFront(Take(s, n), x), n) == Take(ToFront(s, x), n)
  {
    hide Remove;
    if n > 0 {
      RemoveFromPrefix(s, x, n - 1);
      ConsTake(x, Remove(s, x), n - 1);
      ConsTake(x, Remove(Take(s, n), x), n - 1);
    }
  }

  lemma ConsTake(x: int, s: seq<int>, n: nat)
    ensures Take([x] + s, n + 1) == [x] + Take(s, n)
  {
  }

  /** What a cache of `capacity` holds after a stream. */
  function Held(stream: seq<int>, capacity: nat): seq<int> {
    Take(ByRecency(stream), capacity)
  }

  lemma HeldStep(stream: seq<int>, x: int, capacity: nat)
    ensures Held(stream + [x], capacity) == Take(ToFront(Held(stream, capacity), x), capacity)
  {
    hide ToFront;
    assert (stream + [x])[..|stream|] == stream;
    ByRecencyMeans(stream);
    TruncateFirst(ByRecency(stream), x, capacity);
  }

  /** The stack property: a smaller cache's contents are the top of a larger one's. */
  lemma Inclusion(stream: seq<int>, small: nat, large: nat)
    requires small <= large
    ensures Held(stream, small) <= Held(stream, large)
  {
    hide ByRecency;
  }

  // ---------------------------------------------------------------------------
  // Reuse distance

  lemma {:induction false} LastIsLast(stream: seq<int>, x: int)
    requires x in stream
    ensures forall k :: Last(stream, x) < k < |stream| ==> stream[k] != x
  {
    var n := |stream| - 1;
    if stream[n] != x {
      assert stream == stream[..n] + [stream[n]];
      LastIsLast(stream[..n], x);
      assert forall k :: 0 <= k < n ==> stream[..n][k] == stream[k];
    }
  }

  /** The items accessed since `x` was last accessed. */
  ghost function Since(stream: seq<int>, x: int): set<int>
    requires x in stream
  {
    set y | y in stream && Last(stream, y) > Last(stream, x)
  }

  function Elements(s: seq<int>): (m: set<int>)
    ensures SameMembers(s, m)
  {
    set x | x in s
  }

  lemma {:induction false} DistinctCount(s: seq<int>)
    requires Distinct(s)
    ensures |Elements(s)| == |s|
  {
    if s == [] {
      assert Elements(s) == {};
    } else {
      var n := |s| - 1;
      DistinctCount(s[..n]);
      assert s == s[..n] + [s[n]];
      assert s[n] !in s[..n];
      assert Elements(s) == Elements(s[..n]) + {s[n]};
    }
  }

  lemma PlaceIsDistance(stream: seq<int>, i: nat)
    requires i < |ByRecency(stream)|
    ensures ByRecency(stream)[i] in stream && |Since(stream, ByRecency(stream)[i])| == i
  {
    hide ByRecency, Last;
    var s := ByRecency(stream);
    ByRecencyMeans(stream);
    assert s[i] in s;
    forall y
      ensures y in Since(stream, s[i]) <==> y in Elements(s[..i])
    {
      if y in Since(stream, s[i]) {
        assert y in s;
        var k :| 0 <= k < |s| && s[k] == y;
        assert k < i;
        assert s[..i][k] == y;
      }
      if y in s[..i] {
        var k :| 0 <= k < i && s[k] == y;
        assert s[k] in s;
      }
    }
    assert Since(stream, s[i]) == Elements(s[..i]);
    DistinctCount(s[..i]);
  }

  /** A cache of capacity `c` holds exactly the items with fewer than `c` different items
      accessed since they were. */
  lemma HeldByDistance(stream: seq<int>, x: int, capacity: nat)
    ensures x in Held(stream, capacity) <==> x in stream && |Since(stream, x)| < capacity
  {
    hide ByRecency, Since;
    var s := ByRecency(stream);
    ByRecencyMeans(stream);
    if x in stream {
      assert x in s;
      var i :| 0 <= i < |s| && s[i] == x;
      PlaceIsDistance(stream, i);
      assert x in Held(stream, capacity) <==> i < capacity by {
        if i < capacity {
          assert Held(stream, capacity)[i] == x;
        }
      }
    }
  }

  /** Accesses that find their item held. */
  ghost function Hits(stream: seq<int>, capacity: nat): nat {
    if stream == [] then 0
    else
      var n := |stream| - 1;
      Hits(stream[..n], capacity) + if stream[n] in Held(stream[..n], capacity) then 1 else 0
  }

  /** Hits never fall as capacity grows. */
  lemma {:induction false} HitsMonotone(stream: seq<int>, small: nat, large: nat)
    requires small <= large
    ensures Hits(stream, small) <= Hits(stream, large)
  {
    hide Held;
    if stream != [] {
      var n := |stream| - 1;
      HitsMonotone(stream[..n], small, large);
      Inclusion(stream[..n], small, large);
    }
  }

  // ---------------------------------------------------------------------------
  // The cache

  ghost predicate SameMembers(s: seq<int>, m: set<int>) {
    forall x :: x in s <==> x in m
  }

  class Lru {
    const capacity: nat
    var order: seq<int>
    var members: set<int>
    /** Everything accessed or admitted so far. */
    ghost var stream: seq<int>

    ghost predicate Valid()
      reads this
    {
      && order == Held(stream, capacity)
      && SameMembers(order, members)
    }

    predicate Holds(item: int): (r: bool)
      requires Valid()
      reads this
      ensures r <==> item in order
    {
      item in members
    }

    constructor (capacity: nat)
      ensures Valid() && this.capacity == capacity && order == [] && stream == []
    {
      this.capacity := capacity;
      order, members, stream := [], {}, [];
    }

    /** A hit is an item held before the access; either way it ends up in front. */
    method Access(item: int) returns (hit: bool)
      requires Valid()
      modifies this
      ensures Valid() && stream == old(stream) + [item]
      ensures hit <==> item in old(order)
      ensures order == Take(ToFront(old(order), item), capacity)
    {
      hide Held, Take, ToFront;
      if item in members {
        Admit(item);
        return true;
      }
      Admit(item);
      return false;
    }

    /** `admit` and `touch`: to the front, and the tail evicted beyond the capacity. */
    method Admit(item: int)
      requires Valid()
      modifies this
      ensures Valid() && stream == old(stream) + [item]
      ensures order == Take(ToFront(old(order), item), capacity)
    {
      hide ByRecency, Remove;
      ghost var before := order;
      HeldDistinct(stream, capacity);
      HeldStep(stream, item, capacity);
      RemoveMembers(order, item);
      ToFrontMembers(order, item);
      stream := stream + [item];
      if item in members {
        Touch(item);
        return;
      }
      RemoveAbsent(order, item);
      members := members + {item};
      order := [item] + order;
      ghost var full := order;
      while |order| > capacity
        invariant stream == old(stream) + [item]
        invariant order <= full && (|order| >= capacity || order == full)
        invariant Distinct(order) && SameMembers(order, members)
      {
        var n := |order| - 1;
        LastOnly(order);
        members := members - {order[n]};
        order := order[..n];
      }
      assert order == Take(full, capacity);
    }

    method Touch(item: int)
      requires item in order
      modifies this`order
      ensures order == ToFront(old(order), item)
    {
      hide Remove;
      var rest := order;
      for i := 0 to |order|
        invariant forall j :: 0 <= j < i ==> order[j] != item
        invariant order == old(order) && rest == order
      {
        if order[i] == item {
          RemoveAt(order, item, i);
          rest := order[..i] + order[i + 1..];
          break;
        }
      }
      order := [item] + rest;
    }
  }

  lemma HeldDistinct(stream: seq<int>, capacity: nat)
    ensures Distinct(Held(stream, capacity)) && |Held(stream, capacity)| <= capacity
  {
    hide ByRecency;
    ByRecencyMeans(stream);
  }

  lemma LastOnly(s: seq<int>)
    requires s != [] && Distinct(s)
    ensures Distinct(s[..|s| - 1]) && forall x :: x in s[..|s| - 1] <==> x in s && x != s[|s| - 1]
  {
    var n := |s| - 1;
    assert s == s[..n] + [s[n]];
  }

  lemma {:induction false} RemoveAt(s: seq<int>, x: int, i: nat)
    requires i < |s| && s[i] == x && forall j :: 0 <= j < i ==> s[j] != x
    ensures Remove(s, x) == s[..i] + s[i + 1..]
  {
    if i > 0 {
      RemoveAt(s[1..], x, i - 1);
      assert s[..i] + s[i + 1..] == [s[0]] + (s[1..][..i - 1] + s[1..][i..]);
    }
  }

  /** `Replay` over a fresh LRU. */
  method Replay(stream: seq<int>, capacity: nat) returns (hits: nat)
    ensures hits == Hits(stream, capacity)
  {
    hide Held, Take, ToFront;
    var c := new Lru(capacity);
    hits := 0;
    assert stream[..0] == [];
    for i := 0 to |stream|
      invariant fresh(c) && c.Valid() && c.stream == stream[..i] && c.capacity == capacity
      invariant hits == Hits(stream[..i], capacity)
    {
      assert stream[..i + 1] == stream[..i] + [stream[i]] && stream[..i + 1][..i] == stream[..i];
      var hit := c.Access(stream[i]);
      if hit {
        hits := hits + 1;
      }
    }
    assert stream[..|stream|] == stream;
  }
}
