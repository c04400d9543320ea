/** The tier of exact vectors that mirrors a policy (`internal/cache/tier.go`). */
module ExactTiers {
  // The policies share an interface there; here the tier has one access method for each.

  import opened Recency
  import opened CachePolicies
  import opened Vectors
  import opened Sets

  /** Items in ascending order need no key of their own. */
  function NoKey(x: int): int {
    0
  }

  // ---------------------------------------------------------------------------
  // How much an access can add to a policy's membership

  /** Bringing an item to the front of a truncated list adds that item at most. */
  lemma FrontGrowth(order: seq<int>, item: int, capacity: nat)
    requires Distinct(order) && |order| <= capacity
    ensures Distinct(Take(ToFront(order, item), capacity)) && |Take(ToFront(order, item), capacity)| <= capacity
    ensures Elements(Take(ToFront(order, item), capacity)) - Elements(order)
         == if item in order || capacity == 0 then {} else {item}
  {
    hide Remove;
    ToFrontMembers(order, item);
    var front := ToFront(order, item);
    assert forall y :: y in Take(front, capacity) ==> y in front;
    if capacity > 0 {
      assert Take(front, capacity)[0] == item;
    }
  }

  lemma LruGrowth(stream: seq<int>, order: seq<int>, item: int, capacity: nat)
    requires order == Held(stream, capacity)
    ensures Distinct(order) && |order| <= capacity
    ensures |Elements(Take(ToFront(order, item), capacity)) - Elements(order)|
         == if item in order || capacity == 0 then 0 else 1
  {
    hide Held, ToFront, Take, Elements;
    HeldDistinct(stream, capacity);
    FrontGrowth(order, item, capacity);
  }

  lemma LfuGrowth(before: map<int, nat>, after: map<int, nat>, item: int)
    requires item in after && after.Keys <= before.Keys + {item}
    ensures |after.Keys - before.Keys| == if item in before then 0 else 1
  {
    assert after.Keys - before.Keys == if item in before then {} else {item};
  }

  lemma MarkovGrowth(order: seq<int>, item: int, predicted: seq<int>, capacity: nat)
    requires Distinct(order) && |order| <= capacity && |predicted| <= 1
    ensures var accessed := Take(ToFront(order, item), capacity);
      |Elements(Prefetched(order, item, predicted, capacity)) - Elements(order)|
        <= (if item in order then 0 else 1) + if predicted != [] && predicted[0] !in accessed then 1 else 0
  {
    hide ToFront, Take, Elements;
    FrontGrowth(order, item, capacity);
    var accessed := Take(ToFront(order, item), capacity);
    if predicted != [] {
      FrontGrowth(accessed, predicted[0], capacity);
      var a, b, c := Elements(order), Elements(accessed), Elements(Take(ToFront(accessed, predicted[0]), capacity));
      SubsetSize(c - a, (c - b) + (b - a));
      assert |(c - b) + (b - a)| <= |c - b| + |b - a|;
    }
  }

  // ---------------------------------------------------------------------------
  // The tier

  /** Every vector held is the item's own. */
  ghost predicate Mirrors(vecs: map<int, Vec>, fetch: int -> Vec) {
    forall k :: k in vecs ==> vecs[k] == fetch(k)
  }

  class ExactTier {
    const fetch: int -> Vec
    var vecs: map<int, Vec>
    var fetches: nat
    /** Accesses that were not hits. */
    ghost var misses: nat

    /** The tier holds exactly these items, each with its own vector. */
    ghost predicate Follows(members: set<int>)
      reads this
    {
      vecs.Keys == members && Mirrors(vecs, fetch)
    }

    constructor (fetch: int -> Vec)
      ensures Follows({}) && this.fetch == fetch && fetches == 0 && misses == 0
    {
      this.fetch := fetch;
      vecs, fetches, misses := map[], 0, 0;
    }

    /** Over an LRU: one fetch per miss, or none ever when nothing can be kept. */
    method AccessLru(policy: Lru, item: int) returns (hit: bool)
      requires policy.Valid() && Follows(Elements(policy.order))
      requires fetches == if policy.capacity == 0 then 0 else misses
      modifies this, policy
      ensures policy.Valid() && Follows(Elements(policy.order))
      ensures fetches == if policy.capacity == 0 then 0 else misses
      ensures (hit <==> item in old(vecs)) && misses == old(misses) + if hit then 0 else 1
      ensures policy.order == Take(ToFront(old(policy.order), item), policy.capacity)
    {
      hide Held, ToFront, Take, Mirrors, Elements;
      LruGrowth(policy.stream, policy.order, item, policy.capacity);
      hit := policy.Access(item);
      SameSets(policy.order, policy.members, Elements(policy.order));
      var items := SortBy(policy.members, NoKey);
      Reconcile(items, Elements(policy.order), if hit then 0 else 1);
    }

    /** Over an LFU: one fetch per miss. */
    method AccessLfu(policy: Lfu, item: int) returns (hit: bool)
      requires policy.Valid() && Follows(policy.freq.Keys) && fetches == misses
      modifies this, policy
      ensures policy.Valid() && Follows(policy.freq.Keys) && fetches == misses
      ensures (hit <==> item in old(vecs)) && misses == old(misses) + if hit then 0 else 1
    {
      hide Mirrors, Rarest;
      ghost var before := policy.freq;
      hit := policy.Access(item);
      LfuGrowth(before, policy.freq, item);
      var items := SortBy(policy.freq.Keys, NoKey);
      Reconcile(items, policy.freq.Keys, if hit then 0 else 1);
    }

    /** Over the prefetching policy: one fetch per miss and one per prefetch that loads, at
        most. */
    method AccessMarkov(policy: MarkovPrefetch, item: int) returns (hit: bool)
      requires policy.Valid() && Follows(Elements(policy.lru.order)) && fetches <= misses + policy.prefetchLoads
      modifies this, policy, policy.lru, policy.mk
      ensures policy.Valid() && Follows(Elements(policy.lru.order)) && fetches <= misses + policy.prefetchLoads
      ensures (hit <==> item in old(vecs)) && misses == old(misses) + if hit then 0 else 1
    {
      hide Held, ToFront, Take, Mirrors, Elements, Likeliest, Observed, Transitions, Prefetched, Markov.Valid;
      ghost var before := policy.lru.order;
      LruGrowth(policy.lru.stream, before, item, policy.lru.capacity);
      ghost var predicted;
      hit, predicted := policy.Access(item);
      MarkovGrowth(before, item, predicted, policy.lru.capacity);
      SameSets(policy.lru.order, policy.lru.members, Elements(policy.lru.order));
      var items := SortBy(policy.lru.members, NoKey);
      Reconcile(items, Elements(policy.lru.order), if hit then 0 else 1);
    }

    /** `reconcile`: what was admitted is fetched, what was evicted is dropped. */
    method Reconcile(items: seq<int>, ghost members: set<int>, ghost missed: nat)
      requires Mirrors(vecs, fetch) && SameMembers(items, members) && Ordered(items, NoKey)
      modifies this
      ensures Follows(members) && misses == old(misses) + missed
      ensures fetches == old(fetches) + |members - old(vecs.Keys)|
    {
      hide SameMembers, Mirrors;
      var present, more, fetched := FetchMissing(vecs, fetch, items);
      SameSets(items, present, members);
      vecs := Retain(more, fetch, present);
      fetches := fetches + fetched;
      misses := misses + missed;
    }
  }

  /** The dropping loop of `reconcile`. */
  method Retain(vecs: map<int, Vec>, ghost fetch: int -> Vec, present: set<int>) returns (kept: map<int, Vec>)
    requires Mirrors(vecs, fetch) && present <= vecs.Keys
    ensures Mirrors(kept, fetch) && kept.Keys == present
  {
    kept := map k | k in vecs && k in present :: vecs[k];
  }

  /** The fetching loop of `reconcile`. */
  method FetchMissing(vecs: map<int, Vec>, fetch: int -> Vec, items: seq<int>)
      returns (present: set<int>, more: map<int, Vec>, fetched: nat)
    requires Mirrors(vecs, fetch) && Ordered(items, NoKey)
    ensures SameMembers(items, present) && more.Keys == vecs.Keys + present && Mirrors(more, fetch)
    ensures fetched == |present - vecs.Keys|
  {
    hide SameMembers, Mirrors, Ordered;
    present, more, fetched := {}, vecs, 0;
    NoMembers();
    assert items[..0] == [];
    for i := 0 to |items|
      invariant SameMembers(items[..i], present)
      invariant more.Keys == vecs.Keys + present && Mirrors(more, fetch)
      invariant fetched == |present - vecs.Keys|
    {
      var it := items[i];
      NextMember(items, i, present);
      OneAdded(vecs.Keys, present, it);
      KeysGrow(more, vecs.Keys, present, it, fetch(it));
      MirrorsOne(more, fetch, it);
      present := present + {it};
      if it !in more {
        more := more[it := fetch(it)];
        fetched := fetched + 1;
      }
    }
    assert items[..|items|] == items;
  }

  lemma MirrorsOne(vecs: map<int, Vec>, fetch: int -> Vec, it: int)
    requires Mirrors(vecs, fetch)
    ensures Mirrors(vecs[it := fetch(it)], fetch)
  {
  }

  lemma KeysGrow<T, V>(m: map<T, V>, start: set<T>, present: set<T>, k: T, v: V)
    requires m.Keys == start + present
    ensures m[k := v].Keys == start + (present + {k})
    ensures k in m ==> m.Keys == start + (present + {k})
    ensures k !in present ==> (k in m <==> k in start)
  {
  }

  lemma SameSets(items: seq<int>, a: set<int>, b: set<int>)
    requires SameMembers(items, a) && SameMembers(items, b)
    ensures a == b
  {
    forall x
      ensures x in a <==> x in b
    {
      assert x in items <==> x in a;
    }
  }

  lemma NoMembers()
    ensures SameMembers([], {})
  {
  }

  lemma NextMember(items: seq<int>, i: nat, present: set<int>)
    requires i < |items| && SameMembers(items[..i], present) && Ordered(items, NoKey)
    ensures items[i] !in present && SameMembers(items[..i + 1], present + {items[i]})
  {
    var front, it := items[..i], items[i];
    assert items[..i + 1] == front + [it];
    assert it !in front by {
      assert forall j :: 0 <= j < i ==> CachePolicies.Precedes(NoKey, items[j], items[i]);
    }
    forall x
      ensures x in front + [it] <==> x in present + {it}
    {
      assert x in front <==> x in present;
    }
  }

  lemma OneAdded<T>(start: set<T>, present: set<T>, it: T)
    requires it !in present
    ensures |(present + {it}) - start| == |present - start| + if it in start then 0 else 1
  {
    if it in start {
      assert (present + {it}) - start == present - start;
    } else {
      assert (present + {it}) - start == (present - start) + {it};
    }
  }
}
