/** Facts about the in-memory index of the channel: cutting it, pruning it, and the order
    of its messages. */
module ChannelIndex {
  import opened Channel

  // ---------------------------------------------------------------------------
  // Sorted by sequence number

  lemma SortedAdd(es: seq<Message>, m: Message)
    requires Sorted(es) && forall x :: x in es ==> x.seqNo < m.seqNo
    ensures Sorted(es + [m])
  {
  }

  lemma SortedDrop(es: seq<Message>)
    requires es != [] && Sorted(es)
    ensures Sorted(es[..|es| - 1])
    ensures forall m :: m in es[..|es| - 1] ==> m in es && m.seqNo < es[|es| - 1].seqNo
    ensures forall m :: m in es ==> m in es[..|es| - 1] || m == es[|es| - 1]
  {
  }

  lemma SortedKeys(es: seq<Message>, m: Message, m': Message)
    requires Sorted(es) && m in es && m' in es && m.seqNo == m'.seqNo
    ensures m == m'
  {
  }

  ghost function Numbers(es: seq<Message>): set<nat> {
    set m | m in es :: m.seqNo
  }

  lemma NumbersDrop(es: seq<Message>)
    requires es != [] && Sorted(es)
    ensures var last := es[|es| - 1].seqNo;
      && Numbers(es[..|es| - 1]) == Numbers(es) - {last}
      && last in Numbers(es)
      && forall s :: s in Numbers(es) ==> s <= last
  {
    SortedDrop(es);
    assert es[|es| - 1] in es;
  }

  lemma {:induction false} SameNumbers(a: seq<Message>, b: seq<Message>)
    requires Sorted(a) && Sorted(b) && Numbers(a) == Numbers(b)
    ensures |a| == |b|
    ensures forall i :: 0 <= i < |a| ==> a[i].seqNo == b[i].seqNo
  {
    hide Sorted, Numbers;
    if a == [] || b == [] {
      NoNumbers(a);
      NoNumbers(b);
    } else {
      var m, n := |a| - 1, |b| - 1;
      NumbersDrop(a);
      NumbersDrop(b);
      SortedDrop(a);
      SortedDrop(b);
      assert a[m].seqNo == b[n].seqNo;
      SameNumbers(a[..m], b[..n]);
      forall i | 0 <= i < |a|
        ensures a[i].seqNo == b[i].seqNo
      {
        if i < m {
          assert a[i] == a[..m][i] && b[i] == b[..n][i];
        }
      }
    }
  }

  lemma NoNumbers(es: seq<Message>)
    ensures es == [] <==> Numbers(es) == {}
  {
    if es != [] {
      assert es[0] in es && es[0].seqNo in Numbers(es);
    }
  }

  /** A sorted index is determined by the set of its numbers. */
  lemma SortedUnique(a: seq<Message>, b: seq<Message>)
    requires Sorted(a) && Sorted(b)
    requires forall s: nat :: Listed(a, s) <==> Listed(b, s)
    ensures |a| == |b|
    ensures forall i :: 0 <= i < |a| ==> a[i].seqNo == b[i].seqNo
  {
    hide Sorted;
    assert Numbers(a) == Numbers(b) by {
      forall s: nat
        ensures s in Numbers(a) <==> s in Numbers(b)
      {
        assert Listed(a, s) <==> Listed(b, s);
      }
    }
    SameNumbers(a, b);
  }

  // ---------------------------------------------------------------------------
  // Without

  lemma {:induction false} WithoutMembers(es: seq<Message>, cut: Cut)
    ensures forall m :: m in Without(es, cut) <==> m in es && !Hits(cut, m)
  {
    hide Hits;
    if es != [] {
      var last := |es| - 1;
      WithoutMembers(es[..last], cut);
      assert es == es[..last] + [es[last]];
    }
  }

  lemma {:induction false} WithoutSorted(es: seq<Message>, cut: Cut)
    requires Sorted(es)
    ensures Sorted(Without(es, cut))
  {
    hide Hits;
    if es != [] {
      SortedDrop(es);
      var rest := es[..|es| - 1];
      WithoutSorted(rest, cut);
      WithoutMembers(rest, cut);
      if !Hits(cut, es[|es| - 1]) {
        SortedAdd(Without(rest, cut), es[|es| - 1]);
      }
    }
  }

  lemma {:induction false} WithoutNothing(es: seq<Message>, cut: Cut)
    requires forall m :: m in es ==> !Hits(cut, m)
    ensures Without(es, cut) == es
  {
    hide Hits;
    if es != [] {
      var last := |es| - 1;
      assert es == es[..last] + [es[last]];
      WithoutNothing(es[..last], cut);
    }
  }

  // ---------------------------------------------------------------------------
  // Retention

  lemma {:induction false} PrunedMembers(es: seq<Message>, n: int, cutoff: int)
    ensures forall m :: m in Pruned(es, n, cutoff) ==> m in es
  {
    hide KeepFirst;
    if es != [] {
      PrunedMembers(es[1..], n, cutoff);
    }
  }

  lemma {:induction false} PrunedSorted(es: seq<Message>, n: int, cutoff: int)
    requires Sorted(es)
    ensures Sorted(Pruned(es, n, cutoff))
  {
    hide KeepFirst;
    if es != [] {
      PrunedSorted(es[1..], n, cutoff);
      PrunedMembers(es[1..], n, cutoff);
      assert forall m :: m in es[1..] ==> es[0].seqNo < m.seqNo;
      SortedCons(es[0], Pruned(es[1..], n, cutoff));
    }
  }

  lemma SortedCons(m: Message, es: seq<Message>)
    requires Sorted(es) && forall x :: x in es ==> m.seqNo < x.seqNo
    ensures Sorted([m] + es)
  {
  }

  /** One tenant's messages inside the age bound. */
  function Recent(es: seq<Message>, tenant: Tenant, cutoff: int): (r: seq<Message>)
    ensures |r| == CountInAge(es, tenant, cutoff)
  {
    if es == [] then []
    else (if es[0].tenant == tenant && InAge(es[0], cutoff) then [es[0]] else []) + Recent(es[1..], tenant, cutoff)
  }

  function OfTenant(es: seq<Message>, tenant: Tenant): seq<Message> {
    if es == [] then [] else (if es[0].tenant == tenant then [es[0]] else []) + OfTenant(es[1..], tenant)
  }

  /** The last `n` elements, or all of them when the bound is off. */
  function LastN(es: seq<Message>, n: int): seq<Message> {
    if n <= 0 || |es| <= n then es else es[|es| - n..]
  }

  lemma LastNCons(m: Message, es: seq<Message>, n: int)
    ensures LastN([m] + es, n) == if n <= 0 || |es| < n then [m] + LastN(es, n) else LastN(es, n)
  {
    var more := [m] + es;
    assert |more| == |es| + 1;
    if n <= 0 || |es| < n {
      assert LastN(more, n) == more && LastN(es, n) == es;
    } else if |es| == n {
      assert LastN(more, n) == more[1..] && LastN(es, n) == es;
    } else {
      assert LastN(more, n) == more[|more| - n..] && LastN(es, n) == es[|es| - n..];
      assert more[|more| - n..] == es[|es| - n..];
    }
  }

  /** Retention is per tenant: of each tenant exactly the last `n` messages inside the age
      bound stay, in order, whatever the other tenants post. */
  lemma {:induction false} PrunedPerTenant(es: seq<Message>, n: int, cutoff: int, tenant: Tenant)
    ensures OfTenant(Pruned(es, n, cutoff), tenant) == LastN(Recent(es, tenant, cutoff), n)
  {
    hide InAge, LastN;
    if es == [] {
      assert LastN([], n) == [] by { LastNOfNothing(n); }
    } else {
      var m, rest := es[0], es[1..];
      var kept := Pruned(rest, n, cutoff);
      PrunedPerTenant(rest, n, cutoff, tenant);
      var recent := Recent(rest, tenant, cutoff);
      LastNCons(m, recent, n);
      if m.tenant == tenant && InAge(m, cutoff) {
        assert Recent(es, tenant, cutoff) == [m] + recent;
      } else {
        assert Recent(es, tenant, cutoff) == recent;
      }
      if KeepFirst(es, n, cutoff) {
        assert Pruned(es, n, cutoff) == [m] + kept;
        OfTenantCons(m, kept, tenant);
      } else {
        assert Pruned(es, n, cutoff) == kept;
      }
    }
  }

  lemma LastNOfNothing(n: int)
    ensures LastN([], n) == []
  {
  }

  lemma OfTenantCons(m: Message, es: seq<Message>, tenant: Tenant)
    ensures OfTenant([m] + es, tenant) == (if m.tenant == tenant then [m] else []) + OfTenant(es, tenant)
  {
    assert ([m] + es)[1..] == es;
  }

  lemma CountCons(m: Message, es: seq<Message>, tenant: Tenant, cutoff: int)
    ensures CountInAge([m] + es, tenant, cutoff) ==
            (if m.tenant == tenant && InAge(m, cutoff) then 1 else 0) + CountInAge(es, tenant, cutoff)
  {
    assert ([m] + es)[1..] == es;
  }

  lemma {:induction false} PrunedCount(es: seq<Message>, n: int, cutoff: int, tenant: Tenant)
    ensures CountInAge(Pruned(es, n, cutoff), tenant, cutoff) ==
            var all := CountInAge(es, tenant, cutoff); if n <= 0 || all < n then all else n
  {
    hide InAge;
    if es != [] {
      var m, kept := es[0], Pruned(es[1..], n, cutoff);
      PrunedCount(es[1..], n, cutoff, tenant);
      if KeepFirst(es, n, cutoff) {
        assert Pruned(es, n, cutoff) == [m] + kept;
        CountCons(m, kept, tenant, cutoff);
      } else {
        assert Pruned(es, n, cutoff) == kept;
      }
    }
  }

  /** Pruning again at the same time removes nothing. */
  lemma {:induction false} PrunedTwice(es: seq<Message>, n: int, cutoff: int)
    ensures Pruned(Pruned(es, n, cutoff), n, cutoff) == Pruned(es, n, cutoff)
  {
    hide InAge, CountInAge;
    if es != [] {
      var m, kept := es[0], Pruned(es[1..], n, cutoff);
      PrunedTwice(es[1..], n, cutoff);
      if KeepFirst(es, n, cutoff) {
        assert Pruned(es, n, cutoff) == [m] + kept;
        PrunedCount(es[1..], n, cutoff, m.tenant);
        assert ([m] + kept)[1..] == kept && ([m] + kept)[0] == m;
        assert KeepFirst([m] + kept, n, cutoff);
      } else {
        assert Pruned(es, n, cutoff) == kept;
      }
    }
  }

  /** With both bounds off, pruning removes nothing. */
  lemma {:induction false} PrunedOff(es: seq<Message>, n: int)
    requires n <= 0
    ensures Pruned(es, n, 0) == es
  {
    if es != [] {
      PrunedOff(es[1..], n);
      assert es == [es[0]] + es[1..];
    }
  }
}
