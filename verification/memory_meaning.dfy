/** What the semantic memory keeps and turns away (`memory/memory.go`). */
module MemoryMeaning {
  import opened Vectors
  import opened TopK
  import opened MemoryLog
  import opened MemoryStore

  // ---------------------------------------------------------------------------
  // Which memories are live

  /** The memory that record `i` stores is dropped by a later record: one that forgets it,
      or one that supersedes it. */
  ghost predicate Dropped(journal: seq<Event>, tenant: Tenant, id: nat, i: nat) {
    exists j :: i < j < |journal| && Drops(journal[j], tenant, id)
  }

  predicate Drops(e: Event, tenant: Tenant, id: nat) {
    match e
    case Remembered(t, mem) => t == tenant && mem.supersedes == id && id != 0
    case Forgot(t, f) => t == tenant && f == id
    case Other => false
  }

  /** Stored at record `i` and not dropped since. */
  ghost predicate StoredAt(journal: seq<Event>, e: Entry, i: nat) {
    i < |journal| && journal[i] == Remembered(e.tenant, e.mem) && !Dropped(journal, e.tenant, e.mem.id, i)
  }

  ghost predicate IsLive(journal: seq<Event>, e: Entry) {
    exists i :: StoredAt(journal, e, i)
  }

  ghost predicate InIdOrder(entries: seq<Entry>) {
    forall i, j :: 0 <= i < j < |entries| ==> entries[i].mem.id < entries[j].mem.id
  }

  lemma RestInOrder(entries: seq<Entry>)
    requires entries != [] && InIdOrder(entries)
    ensures InIdOrder(entries[1..])
    ensures forall e :: e in entries <==> e == entries[0] || e in entries[1..]
    ensures forall e :: e in entries[1..] ==> e.mem.id > entries[0].mem.id
  {
    assert entries == [entries[0]] + entries[1..];
  }

  lemma ConsInOrder(first: Entry, rest: seq<Entry>)
    requires InIdOrder(rest) && forall e :: e in rest ==> e.mem.id > first.mem.id
    ensures InIdOrder([first] + rest)
  {
    assert forall i :: 0 <= i < |rest| ==> rest[i] in rest;
  }

  lemma {:induction false} DropMeans(entries: seq<Entry>, t: Tenant, id: nat)
    requires InIdOrder(entries)
    ensures InIdOrder(Drop(entries, t, id))
    ensures forall e :: e in Drop(entries, t, id) <==> e in entries && !Matches(e, t, id)
  {
    hide InIdOrder;
    if entries != [] {
      var first, rest := entries[0], entries[1..];
      RestInOrder(entries);
      DropMeans(rest, t, id);
      ConsInOrder(first, Drop(rest, t, id));
    }
  }

  lemma LiveStep(journal: seq<Event>, e: Entry)
    requires journal != []
    ensures var n := |journal| - 1; var last := journal[n];
      IsLive(journal, e) <==>
        (last == Remembered(e.tenant, e.mem) || (IsLive(journal[..n], e) && !Drops(last, e.tenant, e.mem.id)))
  {
    var n := |journal| - 1;
    var front, last := journal[..n], journal[n];
    if i: nat :| StoredAt(front, e, i) && !Drops(last, e.tenant, e.mem.id) {
      assert journal[i] == front[i];
      assert forall j :: i < j < n ==> journal[j] == front[j];
      assert StoredAt(journal, e, i);
    }
    if last == Remembered(e.tenant, e.mem) {
      assert StoredAt(journal, e, n);
    }
    if i: nat :| StoredAt(journal, e, i) && i < n {
      assert front[i] == journal[i];
      assert forall j :: i < j < n ==> journal[j] == front[j];
      assert StoredAt(front, e, i);
      assert i < n < |journal| && !Dropped(journal, e.tenant, e.mem.id, i);
    }
  }

  /** After any journal that the store wrote exactly the memories are live that no later
      record forgets or supersedes, each once, in the order of their ids. */
  lemma {:induction false} LiveMeans(journal: seq<Event>, dim: nat)
    requires Written(journal, dim)
    ensures InIdOrder(Live(journal))
    ensures forall e :: e in Live(journal) <==> IsLive(journal, e)
  {
    hide IsLive, Drop, NextID, Has, Matches;
    if journal == [] {
      NothingLive();
    } else {
      var n := |journal| - 1;
      var front, last := journal[..n], journal[n];
      LiveMeans(front, dim);
      var before := Live(front);
      forall e ensures IsLive(journal, e) <==>
        (last == Remembered(e.tenant, e.mem) || (IsLive(front, e) && !Drops(last, e.tenant, e.mem.id))) {
        LiveStep(journal, e);
      }
      match last
      case Remembered(t, mem) =>
        DropMeans(before, t, mem.supersedes);
        var left := if mem.supersedes != 0 then Drop(before, t, mem.supersedes) else before;
        NewIdIsNew(front, left, mem);
        MatchesMeans(t, mem.supersedes);
        assert Live(journal) == left + [Entry(t, mem)];
      case Forgot(t, id) =>
        DropMeans(before, t, id);
        MatchesMeans(t, id);
      case Other =>
    }
  }

  lemma NothingLive()
    ensures forall e :: !IsLive([], e)
  {
  }

  lemma MatchesMeans(t: Tenant, id: nat)
    ensures forall e :: Matches(e, t, id) <==> e.tenant == t && e.mem.id == id
  {
  }

  lemma NewIdIsNew(front: seq<Event>, left: seq<Entry>, mem: Memory)
    requires mem.id == NextID(front) && InIdOrder(left) && forall e :: e in left ==> e in Live(front)
    ensures forall t :: InIdOrder(left + [Entry(t, mem)])
  {
    hide NextID, Live;
    LiveAreRecorded(front);
    NextIDAbove(front);
    assert forall i :: 0 <= i < |left| ==> left[i] in left;
  }

  /** The next id is 1, or one more than the largest on record. */
  lemma {:induction false} NextIDMeans(journal: seq<Event>)
    ensures forall id: nat :: Recorded(journal, id) ==> id < NextID(journal)
    ensures NextID(journal) == 1 || Recorded(journal, NextID(journal) - 1)
  {
    NextIDAbove(journal);
    if journal != [] {
      NextIDMeans(journal[..|journal| - 1]);
      RecordedGrows(journal);
    }
  }

  // ---------------------------------------------------------------------------
  // The novelty gate

  /** A new memory is turned away exactly when it is not forced, the gate is on, it replaces
      no live memory of the tenant, and a live memory of the tenant is closer than the
      threshold. */
  lemma GateMeans(entries: seq<Entry>, tenant: Tenant, v: Vec, threshold: real, supersedes: nat, force: bool)
    requires Fitting(entries, |v|)
    ensures Gated(entries, tenant, v, threshold, supersedes, force) <==>
      && !force && threshold > 0.0
      && (supersedes == 0 || forall i :: 0 <= i < |entries| ==> !(entries[i].tenant == tenant && entries[i].mem.id == supersedes))
      && exists i :: 0 <= i < |entries| && entries[i].tenant == tenant && SqL2(v, entries[i].mem.vector) < threshold
  {
    hide SqL2;
    if i :| 0 <= i < |entries| && entries[i].tenant == tenant && SqL2(v, entries[i].mem.vector) < threshold {
      assert Distance(entries, v, i) < threshold;
    }
    if i :| 0 <= i < |entries| && entries[i].tenant == tenant && entries[i].mem.id == supersedes {
      assert Matches(entries[i], tenant, supersedes);
    }
  }

  /** Memories of one tenant are at least the threshold apart. */
  ghost predicate Spread(entries: seq<Entry>, dim: nat, threshold: real)
    requires Fitting(entries, dim)
  {
    forall i, j :: 0 <= i < j < |entries| && entries[i].tenant == entries[j].tenant ==> Apart(entries, dim, i, j, threshold)
  }

  ghost predicate Apart(entries: seq<Entry>, dim: nat, i: nat, j: nat, threshold: real)
    requires Fitting(entries, dim) && i < |entries| && j < |entries|
  {
    SqL2(entries[i].mem.vector, entries[j].mem.vector) >= threshold
  }

  /** One more memory leaves them apart exactly when it is no duplicate of one. */
  lemma SpreadStep(entries: seq<Entry>, dim: nat, tenant: Tenant, mem: Memory, threshold: real)
    requires Fitting(entries, dim) && |mem.vector| == dim
    ensures var more := entries + [Entry(tenant, mem)];
      && Fitting(more, dim)
      && (Spread(more, dim, threshold) <==> Spread(entries, dim, threshold) && !Duplicate(entries, tenant, mem.vector, threshold))
  {
    hide SqL2;
    var more, n := entries + [Entry(tenant, mem)], |entries|;
    forall i | 0 <= i < n
      ensures Apart(more, dim, i, n, threshold) <==> Distance(entries, mem.vector, i) >= threshold
    {
      SqL2Symmetric(entries[i].mem.vector, mem.vector);
    }
    forall i, j | 0 <= i < j < n
      ensures Apart(more, dim, i, j, threshold) <==> Apart(entries, dim, i, j, threshold)
    {
    }
    if Spread(more, dim, threshold) {
      forall i | 0 <= i < n && entries[i].tenant == tenant
        ensures Distance(entries, mem.vector, i) >= threshold
      {
        assert more[i].tenant == more[n].tenant;
        assert Apart(more, dim, i, n, threshold);
      }
      forall i, j | 0 <= i < j < n && entries[i].tenant == entries[j].tenant
        ensures Apart(entries, dim, i, j, threshold)
      {
        assert more[i].tenant == more[j].tenant;
        assert Apart(more, dim, i, j, threshold);
      }
    }
  }

  /** The gate keeps every tenant's memories at least the threshold apart: what it lets
      through without force and without a replacement is no duplicate of any. */
  lemma GateKeepsSpread(entries: seq<Entry>, dim: nat, tenant: Tenant, mem: Memory, threshold: real, supersedes: nat)
    requires Fitting(entries, dim) && |mem.vector| == dim && Spread(entries, dim, threshold) && threshold > 0.0
    requires Replaced(entries, tenant, supersedes) == 0 && !Gated(entries, tenant, mem.vector, threshold, supersedes, false)
    ensures Fitting(entries + [Entry(tenant, mem)], dim) && Spread(entries + [Entry(tenant, mem)], dim, threshold)
  {
    hide Spread, Duplicate, SqL2, Has;
    SpreadStep(entries, dim, tenant, mem, threshold);
  }

  /** Forgetting and superseding drop memories, which brings none closer together. */
  lemma {:induction false} DropKeepsSpread(entries: seq<Entry>, dim: nat, t: Tenant, id: nat, threshold: real)
    requires Fitting(entries, dim) && Spread(entries, dim, threshold)
    ensures Fitting(Drop(entries, t, id), dim) && Spread(Drop(entries, t, id), dim, threshold)
  {
    hide SqL2, Matches;
    if k :| 0 <= k < |entries| && Matches(entries[k], t, id) && forall j :: 0 <= j < k ==> !Matches(entries[j], t, id) {
      DropAt(entries, t, id, k);
      WithoutOneSpread(entries, dim, k, threshold);
    } else {
      NoneMatches(entries, t, id);
      DropAbsent(entries, t, id);
    }
  }

  lemma {:induction false} NoneMatches(entries: seq<Entry>, t: Tenant, id: nat)
    requires forall k :: 0 <= k < |entries| && Matches(entries[k], t, id) ==> exists j :: 0 <= j < k && Matches(entries[j], t, id)
    ensures !Has(entries, t, id)
  {
    var n := 0;
    while n < |entries|
      invariant 0 <= n <= |entries| && forall j :: 0 <= j < n ==> !Matches(entries[j], t, id)
    {
      n := n + 1;
    }
  }

  lemma WithoutOneSpread(entries: seq<Entry>, dim: nat, k: nat, threshold: real)
    requires Fitting(entries, dim) && Spread(entries, dim, threshold) && k < |entries|
    ensures Fitting(entries[..k] + entries[k + 1..], dim) && Spread(entries[..k] + entries[k + 1..], dim, threshold)
  {
    hide SqL2;
    var left := entries[..k] + entries[k + 1..];
    forall i, j | 0 <= i < j < |left| && left[i].tenant == left[j].tenant
      ensures Apart(left, dim, i, j, threshold)
    {
      var a, b := if i < k then i else i + 1, if j < k then j else j + 1;
      assert left[i] == entries[a] && left[j] == entries[b];
      assert Apart(entries, dim, a, b, threshold);
    }
  }

  // ---------------------------------------------------------------------------
  // Recall

  /** What a recall ranks: the tenant's live memories at their distances. */
  lemma {:induction false} ScoresMean(entries: seq<Entry>, tenant: Tenant, q: Vec, n: nat)
    requires Fitting(entries, |q|) && n <= |entries|
    ensures forall x :: x in Scores(entries, tenant, q, n) <==>
      exists i :: 0 <= i < n && entries[i].tenant == tenant && entries[i].mem == x.item && x.dist == SqL2(q, entries[i].mem.vector)
  {
    hide SqL2;
    if n > 0 {
      ScoresMean(entries, tenant, q, n - 1);
    }
  }

  /** Where a recall is cut: at `k`, or before the first memory more than `gap` times as far
      as the one before it. */
  lemma CutMeans(s: seq<Hit>, k: nat, gap: real, out: seq<Hit>)
    requires Cut(s, k, gap, out)
    ensures out <= s && |out| <= k
    ensures gap > 1.0 ==> forall i :: 1 <= i < |out| ==> s[i].dist <= s[i - 1].dist * gap
    ensures |out| < k && |out| < |s| ==> gap > 1.0 && 1 <= |out| && s[|out|].dist > s[|out| - 1].dist * gap
  {
    forall i | 1 <= i < |out| && gap > 1.0
      ensures s[i].dist <= s[i - 1].dist * gap
    {
      assert !Cliff(s, gap, i);
    }
  }
}
