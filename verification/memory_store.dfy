/** The semantic memory (`memory/memory.go`). */
module MemoryStore {
  import opened Vectors
  import opened TopK
  import opened MemoryLog
  import Tags

  /** What the embedder answers for one text. */
  datatype Embedded = EmbedFailed | Vectors(vecs: seq<Vec>)

  datatype Outcome = Stored(id: nat, superseded: nat) | Deduped(id: nat) | EmbedError | AppendError

  datatype Rebuilt = Rebuilt(entries: seq<Entry>, nextID: nat) | BadDimension

  function VectorFor(embedded: Embedded, dim: nat): (ok: bool) {
    embedded.Vectors? && |embedded.vecs| == 1 && |embedded.vecs[0]| == dim
  }

  // ---------------------------------------------------------------------------
  // The nearest neighbour

  ghost predicate Fitting(entries: seq<Entry>, dim: nat) {
    forall i :: 0 <= i < |entries| ==> |entries[i].mem.vector| == dim
  }

  function Distance(entries: seq<Entry>, v: Vec, i: nat): real
    requires i < |entries| && |entries[i].mem.vector| == |v|
  {
    SqL2(v, entries[i].mem.vector)
  }

  /** The tenant's closest memory among the first `n`, the earliest of equally close ones. */
  ghost predicate NearestOf(entries: seq<Entry>, tenant: Tenant, v: Vec, n: nat, i: nat)
    requires Fitting(entries, |v|) && n <= |entries|
  {
    && i < n && entries[i].tenant == tenant
    && (forall j :: 0 <= j < n && entries[j].tenant == tenant ==> Distance(entries, v, i) <= Distance(entries, v, j))
    && forall j :: 0 <= j < i && entries[j].tenant == tenant ==> Distance(entries, v, i) < Distance(entries, v, j)
  }

  ghost predicate Absent(entries: seq<Entry>, tenant: Tenant, n: nat)
    requires n <= |entries|
  {
    forall j :: 0 <= j < n ==> entries[j].tenant != tenant
  }

  /** Some memory of the tenant is strictly within the novelty radius. */
  ghost predicate Duplicate(entries: seq<Entry>, tenant: Tenant, v: Vec, threshold: real)
    requires Fitting(entries, |v|)
  {
    exists i :: 0 <= i < |entries| && entries[i].tenant == tenant && Distance(entries, v, i) < threshold
  }

  /** What a new memory supersedes: nothing unless the named memory is live. */
  ghost function Replaced(entries: seq<Entry>, tenant: Tenant, supersedes: nat): nat {
    if Has(entries, tenant, supersedes) then supersedes else 0
  }

  /** Whether the novelty gate turns a new memory away. */
  ghost predicate Gated(entries: seq<Entry>, tenant: Tenant, v: Vec, threshold: real, supersedes: nat, force: bool)
    requires Fitting(entries, |v|)
  {
    && Replaced(entries, tenant, supersedes) == 0 && !force && threshold > 0.0
    && Duplicate(entries, tenant, v, threshold)
  }

  method FindNearest(entries: seq<Entry>, tenant: Tenant, v: Vec) returns (found: bool, at: nat, dist: real)
    requires Fitting(entries, |v|)
    ensures found ==> NearestOf(entries, tenant, v, |entries|, at) && dist == Distance(entries, v, at)
    ensures !found ==> Absent(entries, tenant, |entries|)
  {
    hide SqL2, Distance;
    found, at, dist := false, 0, 0.0;
    for i := 0 to |entries|
      invariant found ==> NearestOf(entries, tenant, v, i, at) && dist == Distance(entries, v, at)
      invariant !found ==> Absent(entries, tenant, i)
    {
      if entries[i].tenant != tenant {
        continue;
      }
      var d := SquaredDistance(v, entries[i].mem.vector);
      DistanceMeans(entries, v, i);
      if !found || d < dist {
        found, dist, at := true, d, i;
      }
    }
  }

  lemma DistanceMeans(entries: seq<Entry>, v: Vec, i: nat)
    requires i < |entries| && |entries[i].mem.vector| == |v|
    ensures Distance(entries, v, i) == SqL2(v, entries[i].mem.vector)
  {
  }

  // ---------------------------------------------------------------------------
  // Recall

  type Hit = Scored<Memory>

  function IdOf(m: Memory): nat {
    m.id
  }

  /** The tenant's memories among the first `n`, with their distances. */
  ghost function Scores(entries: seq<Entry>, tenant: Tenant, q: Vec, n: nat): seq<Hit>
    requires Fitting(entries, |q|) && n <= |entries|
  {
    if n == 0 then []
    else
      Scores(entries, tenant, q, n - 1)
      + if entries[n - 1].tenant == tenant then [Scored(entries[n - 1].mem, Distance(entries, q, n - 1))] else []
  }

  /** A relevance cliff before position `i`. */
  predicate Cliff(s: seq<Hit>, gap: real, i: nat)
    requires 0 < i < |s|
  {
    s[i].dist > s[i - 1].dist * gap
  }

  /** How far down `s` a recall goes: to `k`, or to the first cliff. */
  ghost predicate Cut(s: seq<Hit>, k: nat, gap: real, out: seq<Hit>) {
    && out <= s && |out| <= k
    && (gap > 1.0 ==> forall i :: 0 < i < |out| ==> !Cliff(s, gap, i))
    && (|out| < k && |out| < |s| ==> gap > 1.0 && out != [] && Cliff(s, gap, |out|))
  }

  // ---------------------------------------------------------------------------
  // The store

  class Store {
    const dim: nat
    const threshold: real
    const gap: real
    var journal: seq<Event>
    var entries: seq<Entry>
    var nextID: nat

    /** The journal is one the store wrote and the index is what it means. */
    ghost predicate Valid()
      reads this
    {
      Written(journal, dim) && entries == Live(journal) && nextID == NextID(journal)
    }

    /** The scans of `New`. On a journal the store wrote they always succeed and give the
        live memories, in order, and the next free id. */
    static method Rebuild(journal: seq<Event>, dim: nat) returns (r: Rebuilt)
      ensures r == BadDimension <==> exists i :: 0 <= i < |journal| && journal[i].Remembered? && |journal[i].mem.vector| != dim
      ensures r.Rebuilt? ==> r.entries == PassTwo(PassOne(journal), journal) && r.nextID == NextID(journal)
      ensures Written(journal, dim) ==> r == Rebuilt(Live(journal), NextID(journal))
    {
      hide Drop, Live, Allowed;
      var entries, nextID := [], 1;
      assert journal[..0] == [];
      for i := 0 to |journal|
        invariant entries == PassOne(journal[..i]) && nextID == NextID(journal[..i])
        invariant forall j :: 0 <= j < i && journal[j].Remembered? ==> |journal[j].mem.vector| == dim
      {
        var e := journal[i];
        assert journal[..i + 1][..i] == journal[..i];
        if e.Remembered? {
          if |e.mem.vector| != dim {
            if Written(journal, dim) {
              RememberedFits(journal, dim, i);
            }
            return BadDimension;
          }
          var tags := Tags.Normalize(e.mem.tags);
          entries := entries + [Entry(e.tenant, e.mem.(tags := tags))];
          if e.mem.id >= nextID {
            nextID := e.mem.id + 1;
          }
          if e.mem.supersedes != 0 {
            entries := DropEntry(entries, e.tenant, e.mem.supersedes);
          }
        }
      }
      ghost var added := entries;
      for i := 0 to |journal|
        invariant entries == PassTwo(added, journal[..i])
      {
        assert journal[..i + 1][..i] == journal[..i];
        if journal[i].Forgot? {
          entries := DropEntry(entries, journal[i].tenant, journal[i].id);
        }
      }
      assert journal[..|journal|] == journal;
      if Written(journal, dim) {
        TwoPassesAreLive(journal, dim);
      }
      r := Rebuilt(entries, nextID);
    }

    /** A store over a rebuilt index: opened fresh or after a restart. */
    constructor (journal: seq<Event>, dim: nat, threshold: real, gap: real, r: Rebuilt)
      requires Written(journal, dim) && r == Rebuilt(Live(journal), NextID(journal))
      ensures Valid() && this.journal == journal
    {
      this.journal, this.dim, this.threshold, this.gap := journal, dim, threshold, gap;
      entries, nextID := r.entries, r.nextID;
    }

    /** `Remember`. A live memory of the tenant is superseded; otherwise, unless forced, a
        near duplicate is not stored and the closest memory's id is the answer. */
    method Remember(tenant: Tenant, text: string, tags: seq<string>, source: string, supersedes: nat, force: bool,
                    embedded: Embedded, appendOk: bool) returns (r: Outcome)
      requires Valid()
      modifies this
      ensures Valid()
      ensures r == EmbedError <==> !VectorFor(embedded, dim)
      ensures !r.Stored? ==> journal == old(journal) && entries == old(entries) && nextID == old(nextID)
      ensures Fitting(old(entries), dim)
      ensures VectorFor(embedded, dim) && Gated(old(entries), tenant, embedded.vecs[0], threshold, supersedes, force) ==>
        (r.Deduped? && exists i: nat ::
          NearestOf(old(entries), tenant, embedded.vecs[0], |old(entries)|, i) && r.id == old(entries)[i].mem.id)
      ensures VectorFor(embedded, dim) && !Gated(old(entries), tenant, embedded.vecs[0], threshold, supersedes, force) ==>
        r == if appendOk then Stored(old(nextID), Replaced(old(entries), tenant, supersedes)) else AppendError
      ensures r.Stored? ==> nextID == old(nextID) + 1 && VectorFor(embedded, dim) && r.superseded == Replaced(old(entries), tenant, supersedes)
      ensures r.Stored? ==> (
        var mem := Memory(r.id, text, embedded.vecs[0], Tags.Normalized(tags), source, r.superseded);
        && journal == old(journal) + [Remembered(tenant, mem)]
        && entries == (if r.superseded != 0 then Drop(old(entries), tenant, r.superseded) else old(entries)) + [Entry(tenant, mem)])
    {
      hide Live, NextID, Written, Drop, Has, SqL2, Distance, Duplicate, NearestOf, Fitting, Allowed, Tags.Normalized;
      LiveFitting(journal, dim);
      if !embedded.Vectors? || |embedded.vecs| != 1 || |embedded.vecs[0]| != dim {
        return EmbedError;
      }
      var v := embedded.vecs[0];
      var canonical := Tags.Normalize(tags);
      var replacing := false;
      if supersedes != 0 {
        replacing := HasEntry(entries, tenant, supersedes);
      }
      if replacing {
        if !appendOk {
          return AppendError;
        }
        AppendMemory(tenant, Memory(nextID, text, v, canonical, source, supersedes), tags);
        return Stored(nextID - 1, supersedes);
      }
      if !force && threshold > 0.0 {
        var found, at, dist := FindNearest(entries, tenant, v);
        NearestDecides(entries, tenant, v, threshold, found, at);
        if found && dist < threshold {
          return Deduped(entries[at].mem.id);
        }
      }
      if !appendOk {
        return AppendError;
      }
      AppendMemory(tenant, Memory(nextID, text, v, canonical, source, 0), tags);
      r := Stored(nextID - 1, 0);
    }

    method AppendMemory(tenant: Tenant, mem: Memory, ghost tags: seq<string>)
      requires Valid() && mem.id == nextID && |mem.vector| == dim && mem.tags == Tags.Normalized(tags)
      requires mem.supersedes != 0 ==> Has(entries, tenant, mem.supersedes)
      modifies this
      ensures Valid() && nextID == old(nextID) + 1 && journal == old(journal) + [Remembered(tenant, mem)]
      ensures entries
        == (if mem.supersedes != 0 then Drop(old(entries), tenant, mem.supersedes) else old(entries)) + [Entry(tenant, mem)]
    {
      hide Drop, Has, Tags.Normalized;
      Tags.NormalizedTwice(tags);
      ghost var before := journal;
      journal := journal + [Remembered(tenant, mem)];
      assert journal[..|journal| - 1] == before;
      if mem.supersedes != 0 {
        entries := DropEntry(entries, tenant, mem.supersedes);
      }
      entries := entries + [Entry(tenant, mem)];
      nextID := nextID + 1;
    }

    /** `Forget`: only a live memory of the tenant is forgotten, and only then is anything
        written. */
    method Forget(tenant: Tenant, id: nat, appendOk: bool) returns (forgotten: bool, failed: bool)
      requires Valid()
      modifies this
      ensures Valid() && nextID == old(nextID)
      ensures forgotten <==> Has(old(entries), tenant, id) && appendOk
      ensures failed <==> Has(old(entries), tenant, id) && !appendOk
      ensures journal == if forgotten then old(journal) + [Forgot(tenant, id)] else old(journal)
      ensures entries == if forgotten then Drop(old(entries), tenant, id) else old(entries)
    {
      hide Drop, Has;
      var has := HasEntry(entries, tenant, id);
      if !has {
        return false, false;
      }
      if !appendOk {
        return false, true;
      }
      ghost var before := journal;
      journal := journal + [Forgot(tenant, id)];
      assert journal[..|journal| - 1] == before;
      entries := DropEntry(entries, tenant, id);
      return true, false;
    }

    /** `Recall`: the tenant's memories closest first, at most `k`, cut at the first cliff. */
    method Recall(tenant: Tenant, k: int, embedded: Embedded) returns (failed: bool, out: seq<Hit>, ghost sorted: seq<Hit>)
      requires Valid()
      ensures failed <==> k > 0 && !VectorFor(embedded, dim)
      ensures k <= 0 || failed ==> out == []
      ensures Fitting(entries, dim)
      ensures k > 0 && !failed ==> Ascending(sorted, IdOf) && Cut(sorted, k, gap, out)
      ensures k > 0 && !failed ==> multiset(sorted) == multiset(Scores(entries, tenant, embedded.vecs[0], |entries|))
    {
      hide Live, Written, SqL2, Distance, Ascending, Cliff;
      failed, out, sorted := false, [], [];
      LiveFitting(journal, dim);
      if k <= 0 {
        return;
      }
      if !embedded.Vectors? || |embedded.vecs| != 1 || |embedded.vecs[0]| != dim {
        failed := true;
        return;
      }
      var q := embedded.vecs[0];
      var es := entries;
      var scored: seq<Hit> := [];
      for i := 0 to |es|
        invariant scored == Scores(es, tenant, q, i)
      {
        if es[i].tenant == tenant {
          var d := SquaredDistance(q, es[i].mem.vector);
          DistanceMeans(es, q, i);
          scored := scored + [Scored(es[i].mem, d)];
        }
      }
      var all := Sort(scored, IdOf);
      sorted := all;
      out := CutAt(all, k, gap);
    }
  }

  method CutAt(all: seq<Hit>, k: nat, gap: real) returns (out: seq<Hit>)
    requires k > 0
    ensures Cut(all, k, gap, out)
  {
    hide Cliff;
    out := if |all| > k then all[..k] else all;
    if gap > 1.0 && |out| > 1 {
      for i := 1 to |out|
        invariant out == if |all| > k then all[..k] else all
        invariant forall j :: 0 < j < i ==> !Cliff(all, gap, j)
      {
        CliffMeans(all, gap, i);
        if out[i].dist > out[i - 1].dist * gap {
          out := out[..i];
          return;
        }
      }
    }
  }

  lemma CliffMeans(s: seq<Hit>, gap: real, i: nat)
    requires 0 < i < |s|
    ensures Cliff(s, gap, i) <==> s[i].dist > s[i - 1].dist * gap
  {
  }

  lemma LiveFitting(journal: seq<Event>, dim: nat)
    requires Written(journal, dim)
    ensures Fitting(Live(journal), dim)
  {
    hide Live, Written;
    LiveFit(journal, dim);
  }

  lemma RememberedFits(journal: seq<Event>, dim: nat, i: nat)
    requires Written(journal, dim) && i < |journal| && journal[i].Remembered?
    ensures |journal[i].mem.vector| == dim
  {
    hide Written, Live, NextID;
    WrittenPrefix(journal, dim, i);
  }

  lemma NearestDecides(entries: seq<Entry>, tenant: Tenant, v: Vec, threshold: real, found: bool, at: nat)
    requires Fitting(entries, |v|)
    requires found ==> NearestOf(entries, tenant, v, |entries|, at)
    requires !found ==> Absent(entries, tenant, |entries|)
    ensures found ==> at < |entries|
    ensures Duplicate(entries, tenant, v, threshold) <==> found && Distance(entries, v, at) < threshold
  {
    hide Distance;
  }

  /** `hasEntry` */
  method HasEntry(entries: seq<Entry>, tenant: Tenant, id: nat) returns (has: bool)
    ensures has <==> Has(entries, tenant, id)
  {
    for i := 0 to |entries|
      invariant forall j :: 0 <= j < i ==> !Matches(entries[j], tenant, id)
    {
      if Matches(entries[i], tenant, id) {
        return true;
      }
    }
    return false;
  }

  /** `dropEntry` */
  method DropEntry(entries: seq<Entry>, tenant: Tenant, id: nat) returns (out: seq<Entry>)
    ensures out == Drop(entries, tenant, id)
  {
    hide Drop;
    for i := 0 to |entries|
      invariant forall j :: 0 <= j < i ==> !Matches(entries[j], tenant, id)
    {
      if Matches(entries[i], tenant, id) {
        DropAt(entries, tenant, id, i);
        return entries[..i] + entries[i + 1..];
      }
    }
    DropAbsent(entries, tenant, id);
    out := entries;
  }

  lemma {:induction false} DropAt(entries: seq<Entry>, tenant: Tenant, id: nat, i: nat)
    requires i < |entries| && Matches(entries[i], tenant, id)
    requires forall j :: 0 <= j < i ==> !Matches(entries[j], tenant, id)
    ensures Drop(entries, tenant, id) == entries[..i] + entries[i + 1..]
  {
    if i > 0 {
      var rest := entries[1..];
      assert forall j :: 0 <= j < i - 1 ==> rest[j] == entries[j + 1];
      DropAt(rest, tenant, id, i - 1);
      assert entries[..i] + entries[i + 1..] == [entries[0]] + (rest[..i - 1] + rest[i..]);
    }
  }
}
