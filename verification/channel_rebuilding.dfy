/** The passes of the channel's `New` and the loops over its index, one step at a time:
    loading messages and images, sorting them by number, applying area clears, replaying
    pins, seeding tasks and replaying their states; dropping expired messages with their
    tasks; and pruning, which marks what to keep from the newest message back and then
    compacts the slice in its own array. */
module ChannelRebuilding {
  import opened Channel
  import opened ChannelIndex
  import opened ChannelInvariant

  // ---------------------------------------------------------------------------
  // Passes 1 and 1b: messages and images

  /** The entry that a rebuild makes of record `i`. */
  ghost predicate Restores(log: seq<Record>, m: Message) {
    FromRecord(log, m) && m.ts == log[m.seqNo - 1].tstamp
  }

  ghost predicate Wanted(log: seq<Record>, i: nat, posts: nat, images: nat, now: int) {
    && i < |log| && IsMessage(log[i]) && !ExpiredAt(log[i].event.p, now)
    && (if log[i].event.Posted? then i < posts else i < images)
  }

  ghost predicate Distinct(es: seq<Message>) {
    forall i, j :: 0 <= i < j < |es| ==> es[i].seqNo != es[j].seqNo
  }

  ghost predicate Loaded(log: seq<Record>, es: seq<Message>, posts: nat, images: nat, now: int) {
    && Distinct(es)
    && (forall m :: m in es ==> Restores(log, m) && Wanted(log, m.seqNo - 1, posts, images, now))
    && forall i :: 0 <= i < |log| && Wanted(log, i, posts, images, now) ==> Listed(es, i + 1)
  }

  lemma NothingLoaded(log: seq<Record>, now: int)
    ensures Loaded(log, [], 0, 0, now)
  {
  }

  lemma Load(log: seq<Record>, es: seq<Message>, posts: nat, images: nat, posts': nat, images': nat, i: nat, now: int)
    requires Loaded(log, es, posts, images, now) && i < |log|
    requires forall n :: 0 <= n < |log| && n != i ==> (Wanted(log, n, posts', images', now) <==> Wanted(log, n, posts, images, now))
    requires !Wanted(log, i, posts, images, now)
    ensures Loaded(log,
                   if Wanted(log, i, posts', images', now)
                   then es + [Message(i + 1, log[i].tenant, log[i].tstamp, log[i].event.p)] else es,
                   posts', images', now)
  {
    hide Wanted;
    var m := Message(i + 1, log[i].tenant, log[i].tstamp, if IsMessage(log[i]) then log[i].event.p else Nobody());
    var es' := if Wanted(log, i, posts', images', now) then es + [m] else es;
    if Wanted(log, i, posts', images', now) {
      WantedIsMessage(log, i, posts', images', now);
    }
    assert forall x :: x in es ==> x.seqNo - 1 != i;
    forall n | 0 <= n < |log| && Wanted(log, n, posts', images', now)
      ensures Listed(es', n + 1)
    {
      if n != i {
        var x :| x in es && x.seqNo == n + 1;
        assert x in es';
      } else {
        assert m in es';
      }
    }
  }

  function Nobody(): Payload {
    Payload("", "", "", "", "", 0, "", "", 0, 0, 0, 0, 0)
  }

  lemma WantedIsMessage(log: seq<Record>, i: nat, posts: nat, images: nat, now: int)
    requires Wanted(log, i, posts, images, now)
    ensures IsMessage(log[i])
    ensures Restores(log, Message(i + 1, log[i].tenant, log[i].tstamp, log[i].event.p))
  {
  }

  lemma LoadPost(log: seq<Record>, es: seq<Message>, i: nat, now: int)
    requires Loaded(log, es, i, 0, now) && i < |log|
    ensures var r := log[i];
      if r.event.Posted? && !ExpiredAt(r.event.p, now)
      then Loaded(log, es + [Message(i + 1, r.tenant, r.tstamp, r.event.p)], i + 1, 0, now)
      else Loaded(log, es, i + 1, 0, now)
  {
    hide Loaded;
    Load(log, es, i, 0, i + 1, 0, i, now);
  }

  lemma LoadImage(log: seq<Record>, es: seq<Message>, i: nat, now: int)
    requires Loaded(log, es, |log|, i, now) && i < |log|
    ensures var r := log[i];
      if r.event.Imaged? && !ExpiredAt(r.event.p, now)
      then Loaded(log, es + [Message(i + 1, r.tenant, r.tstamp, r.event.p)], |log|, i + 1, now)
      else Loaded(log, es, |log|, i + 1, now)
  {
    hide Loaded;
    if log[i].event.Posted? {
      assert forall n :: Wanted(log, n, |log|, i + 1, now) <==> Wanted(log, n, |log|, i, now);
      SameWanted(log, es, |log|, i, |log|, i + 1, now);
    } else {
      Load(log, es, |log|, i, |log|, i + 1, i, now);
    }
  }

  lemma SameWanted(log: seq<Record>, es: seq<Message>, posts: nat, images: nat, posts': nat, images': nat, now: int)
    requires Loaded(log, es, posts, images, now)
    requires forall n :: Wanted(log, n, posts', images', now) <==> Wanted(log, n, posts, images, now)
    ensures Loaded(log, es, posts', images', now)
  {
    hide Wanted, IsMessage, Listed;
  }

  lemma LoadedDistinct(log: seq<Record>, es: seq<Message>, now: int)
    requires Loaded(log, es, |log|, |log|, now)
    ensures Distinct(es)
  {
  }

  /** `sort.Slice` by sequence number. */
  method SortBySeq(es: seq<Message>) returns (out: seq<Message>)
    requires Distinct(es)
    ensures Sorted(out) && |out| == |es|
    ensures forall m :: m in out <==> m in es
  {
    hide Sorted, Distinct;
    out := [];
    NothingSorted();
    for i := 0 to |es|
      invariant Sorted(out) && |out| == i
      invariant forall m :: m in out <==> m in es[..i]
    {
      DistinctPrefix(es, i);
      assert es[..i + 1] == es[..i] + [es[i]];
      out := Insert(out, es[i]);
    }
    assert es[..|es|] == es;
  }

  lemma NothingSorted()
    ensures Sorted([])
  {
  }

  lemma DistinctPrefix(es: seq<Message>, i: nat)
    requires Distinct(es) && i < |es|
    ensures forall m :: m in es[..i] ==> m.seqNo != es[i].seqNo
  {
  }

  lemma SortedConcat(a: seq<Message>, b: seq<Message>)
    requires Sorted(a) && Sorted(b)
    requires forall i, j :: 0 <= i < |a| && 0 <= j < |b| ==> a[i].seqNo < b[j].seqNo
    ensures Sorted(a + b)
  {
  }

  lemma SortedSplit(es: seq<Message>, k: nat)
    requires Sorted(es) && k <= |es|
    ensures Sorted(es[..k]) && Sorted(es[k..])
    ensures forall i, j :: 0 <= i < k && 0 <= j < |es[k..]| ==> es[..k][i].seqNo < es[k..][j].seqNo
  {
  }

  lemma InsertSorted(es: seq<Message>, k: nat, m: Message)
    requires Sorted(es) && k <= |es|
    requires k > 0 ==> es[k - 1].seqNo < m.seqNo
    requires forall i :: k <= i < |es| ==> m.seqNo < es[i].seqNo
    ensures Sorted(es[..k] + [m] + es[k..])
  {
    var a, b := es[..k], es[k..];
    SortedSplit(es, k);
    assert forall i :: 0 <= i < |a| ==> a[i].seqNo < m.seqNo;
    SortedConcat(a, [m]);
    SortedConcat(a + [m], b);
  }

  method Insert(es: seq<Message>, m: Message) returns (out: seq<Message>)
    requires Sorted(es) && forall x :: x in es ==> x.seqNo != m.seqNo
    ensures Sorted(out) && |out| == |es| + 1
    ensures forall x :: x in out <==> x in es || x == m
  {
    hide Sorted;
    var k := |es|;
    while k > 0 && es[k - 1].seqNo > m.seqNo
      invariant 0 <= k <= |es|
      invariant forall i :: k <= i < |es| ==> m.seqNo < es[i].seqNo
    {
      k := k - 1;
    }
    InsertSorted(es, k, m);
    assert es == es[..k] + es[k..];
    out := es[..k] + [m] + es[k..];
  }

  // ---------------------------------------------------------------------------
  // Pass 2: clears

  /** Some record before `n` clears record `i`. */
  ghost predicate ClearedBefore(log: seq<Record>, i: nat, n: nat) {
    exists c :: i < c < n && c < |log| && i < |log| && ClearsMessage(log[c], log[i])
  }

  ghost predicate Cleaned(log: seq<Record>, es: seq<Message>, n: nat, now: int) {
    && Sorted(es)
    && (forall m :: m in es ==> Restores(log, m))
    && forall i :: 0 <= i < |log| ==>
         (Listed(es, i + 1) <==> IsMessage(log[i]) && !ExpiredAt(log[i].event.p, now) && !ClearedBefore(log, i, n))
  }

  lemma SortedLoaded(log: seq<Record>, loaded: seq<Message>, es: seq<Message>, now: int)
    requires Loaded(log, loaded, |log|, |log|, now) && Sorted(es)
    requires forall m :: m in es <==> m in loaded
    ensures Cleaned(log, es, 0, now)
  {
    hide Sorted, Distinct, Restores;
    forall i | 0 <= i < |log|
      ensures Listed(es, i + 1) <==> Wanted(log, i, |log|, |log|, now)
      ensures !ClearedBefore(log, i, 0)
    {
      if Listed(es, i + 1) {
        var m :| m in es && m.seqNo == i + 1;
        assert m in loaded;
      }
      if Wanted(log, i, |log|, |log|, now) {
        var m :| m in loaded && m.seqNo == i + 1;
        assert m in es;
      }
    }
  }

  lemma ClearedOneMore(log: seq<Record>, i: nat, n: nat)
    requires n < |log| && i < |log|
    ensures ClearedBefore(log, i, n + 1) <==> ClearedBefore(log, i, n) || (i < n && ClearsMessage(log[n], log[i]))
  {
    hide ClearsMessage;
  }

  lemma CleanMore(log: seq<Record>, es: seq<Message>, n: nat, now: int)
    requires Cleaned(log, es, n, now) && n < |log|
    ensures if log[n].event.AreaCleared?
      then Cleaned(log, Without(es, Area(log[n].tenant, log[n].event.area, n + 1)), n + 1, now)
      else Cleaned(log, es, n + 1, now)
  {
    hide ClearedBefore, Without, Sorted;
    var r := log[n];
    var cut := Area(r.tenant, if r.event.AreaCleared? then r.event.area else "", n + 1);
    var es' := if r.event.AreaCleared? then Without(es, cut) else es;
    WithoutSorted(es, cut);
    WithoutMembers(es, cut);
    forall i | 0 <= i < |log|
      ensures Listed(es', i + 1) <==> IsMessage(log[i]) && !ExpiredAt(log[i].event.p, now) && !ClearedBefore(log, i, n + 1)
    {
      ClearedOneMore(log, i, n);
      if Listed(es, i + 1) {
        var m :| m in es && m.seqNo == i + 1;
        assert Restores(log, m);
        assert r.event.AreaCleared? ==> (Hits(cut, m) <==> i < n && ClearsMessage(r, log[i]));
        if Listed(es', i + 1) {
          var x :| x in es' && x.seqNo == i + 1;
          SortedKeys(es, m, x);
        } else {
          assert m !in es';
        }
      }
    }
  }

  // ---------------------------------------------------------------------------
  // Pass 3: pins

  lemma PinsStart()
    ensures forall log: seq<Record> :: PinsMatch(map[], log[..0])
  {
  }

  lemma PinsMore(pinned: map<string, set<Tenant>>, log: seq<Record>, r: Record)
    requires PinsMatch(pinned, log)
    ensures if r.event.BlobPinned?
      then PinsMatch(Pinned(pinned, r.tenant, r.event.blobID, r.event.on), log + [r])
      else PinsMatch(pinned, log + [r])
  {
    hide PinsMatch;
    if r.event.BlobPinned? {
      PinnedMatches(pinned, log, r.tenant, r.event.blobID, r.event.on, r.tstamp);
    } else {
      PinsAppend(log, r, pinned);
    }
  }

  // ---------------------------------------------------------------------------
  // Pass 4: tasks

  ghost predicate Seeded(es: seq<Message>, tasks: map<Key, TaskState>) {
    && (forall k :: k in tasks <==> exists m :: m in es && m.body.kind == "task" && KeyOf(m) == k)
    && forall m :: m in es && m.body.kind == "task" ==> tasks[KeyOf(m)] == TaskState(Pending, "", 0, m.body.deadline)
  }

  lemma SeededNothing(es: seq<Message>)
    ensures Seeded(es[..0], map[])
  {
  }

  lemma SeedMore(log: seq<Record>, es: seq<Message>, n: nat, tasks: map<Key, TaskState>, now: int)
    requires Cleaned(log, es, |log|, now) && n < |es| && Seeded(es[..n], tasks)
    ensures Seeded(es[..n + 1], Seed(tasks, es[n]))
  {
    hide Restores, Listed, ClearedBefore, Seeded, Sorted;
    KeyIsNew(es, n);
    assert es[..n + 1] == es[..n] + [es[n]];
    SeedOne(es[..n], es[n], tasks);
  }

  lemma SeedOne(es: seq<Message>, m: Message, tasks: map<Key, TaskState>)
    requires Seeded(es, tasks) && KeyOf(m) !in Keys(es)
    ensures Seeded(es + [m], Seed(tasks, m))
  {
    var tasks' := Seed(tasks, m);
    assert forall x :: x in es + [m] <==> x in es || x == m;
    assert forall x :: x in es ==> KeyOf(x) in Keys(es);
    forall k
      ensures k in tasks' <==> exists x :: x in es + [m] && x.body.kind == "task" && KeyOf(x) == k
    {
      if k in tasks {
        var x :| x in es && x.body.kind == "task" && KeyOf(x) == k;
        assert x in es + [m];
      } else if k in tasks' {
        assert m in es + [m] && m.body.kind == "task" && KeyOf(m) == k;
      }
    }
  }

  /** Task states after replaying the first `n` records. */
  ghost predicate Restored(log: seq<Record>, n: nat, es: seq<Message>, tasks: map<Key, TaskState>)
    requires n <= |log|
  {
    && (forall k :: k in tasks <==> exists m :: m in es && m.body.kind == "task" && KeyOf(m) == k)
    && forall m :: m in es && m.body.kind == "task" ==>
         tasks[KeyOf(m)] == Replayed(log[..n], KeyOf(m), m.body.deadline)
  }

  lemma RestoredNothing(log: seq<Record>, es: seq<Message>, tasks: map<Key, TaskState>)
    requires Seeded(es, tasks)
    ensures Restored(log, 0, es, tasks)
  {
  }

  /** One record of `replayStateLocked`: only tasks that are seeded take part. */
  function Replay(tasks: map<Key, TaskState>, r: Record): map<Key, TaskState> {
    if !r.event.StateChanged? then tasks
    else
      var k := Key(r.tenant, r.event.task);
      if k !in tasks then tasks
      else tasks[k := tasks[k].(status := r.event.status, holder := r.event.agent, leaseUntil := r.event.leaseUntil)]
  }

  lemma RestoreMore(log: seq<Record>, n: nat, es: seq<Message>, tasks: map<Key, TaskState>)
    requires n < |log| && Restored(log, n, es, tasks)
    ensures Restored(log, n + 1, es, Replay(tasks, log[n]))
  {
    hide Replayed;
    var tasks' := Replay(tasks, log[n]);
    assert log[..n + 1] == log[..n] + [log[n]];
    assert tasks'.Keys == tasks.Keys;
    forall m | m in es && m.body.kind == "task"
      ensures tasks'[KeyOf(m)] == Replayed(log[..n + 1], KeyOf(m), m.body.deadline)
    {
      assert KeyOf(m) in tasks;
      ReplayedAppend(log[..n], log[n], KeyOf(m), m.body.deadline);
      ReplayedDeadline(log[..n], KeyOf(m), m.body.deadline);
    }
  }

  lemma RebuildDone(c: Channel, log: seq<Record>, now: int)
    requires c.journal == log && Cleaned(log, c.entries, |log|, now) && PinsMatch(c.pinned, log)
    requires Restored(log, |log|, c.entries, c.tasks)
    requires c.retainN == 0 && c.retainAge == 0 && c.leaseTTL == 0 && c.ownerLabel == ""
    ensures IsRebuild(c, log, now)
  {
    hide Sorted, PinsMatch, Replayed, ClearsMessage, FromRecord;
    assert log[..|log|] == log;
    forall i | 0 <= i < |log|
      ensures ClearedBefore(log, i, |log|) <==> IsCleared(log, i)
    {
    }
  }

  // ---------------------------------------------------------------------------
  // Loops over the index

  /** Filtering the index as `Clear` and `New` do. */
  method DropHits(es: seq<Message>, cut: Cut) returns (out: seq<Message>)
    ensures out == Without(es, cut) && |out| <= |es|
  {
    hide Hits;
    out := [];
    assert es[..0] == [];
    for i := 0 to |es|
      invariant out == Without(es[..i], cut) && |out| <= i
    {
      assert es[..i + 1][..i] == es[..i];
      if Hits(cut, es[i]) {
        continue;
      }
      out := out + [es[i]];
    }
    assert es[..|es|] == es;
  }

  /** The TTL pass of the sweeper: expired messages go together with their task states. */
  method DropStale(es: seq<Message>, tasks: map<Key, TaskState>, now: int) returns (out: seq<Message>, left: map<Key, TaskState>)
    requires Sorted(es)
    ensures out == Without(es, Stale(now)) && left == TasksOf(tasks, es, out)
  {
    hide Hits, Sorted;
    out, left := [], tasks;
    assert es[..0] == [];
    SameTasks(tasks, []);
    for i := 0 to |es|
      invariant out == Without(es[..i], Stale(now))
      invariant left == TasksOf(tasks, es[..i], out)
    {
      assert es[..i + 1][..i] == es[..i];
      assert es[..i + 1] == es[..i] + [es[i]];
      WithoutMembers(es[..i], Stale(now));
      KeyIsNew(es, i);
      if Hits(Stale(now), es[i]) {
        DropOne(tasks, es[..i], out, es[i]);
        left := left - {KeyOf(es[i])};
      } else {
        KeepOne(tasks, es[..i], out, es[i]);
        out := out + [es[i]];
      }
    }
    assert es[..|es|] == es;
  }

  lemma SameTasks(tasks: map<Key, TaskState>, es: seq<Message>)
    ensures TasksOf(tasks, es, es) == tasks
  {
  }

  lemma KeyIsNew(es: seq<Message>, i: nat)
    requires Sorted(es) && i < |es|
    ensures KeyOf(es[i]) !in Keys(es[..i])
  {
  }

  lemma DropOne(tasks: map<Key, TaskState>, es: seq<Message>, kept: seq<Message>, m: Message)
    requires (forall x :: x in kept ==> x in es) && KeyOf(m) !in Keys(es)
    ensures TasksOf(tasks, es + [m], kept) == TasksOf(tasks, es, kept) - {KeyOf(m)}
  {
    assert Keys(es + [m]) == Keys(es) + {KeyOf(m)} by { KeysAdd(es, m); }
    assert KeyOf(m) !in Keys(kept);
  }

  lemma KeepOne(tasks: map<Key, TaskState>, es: seq<Message>, kept: seq<Message>, m: Message)
    requires KeyOf(m) !in Keys(es)
    ensures TasksOf(tasks, es + [m], kept + [m]) == TasksOf(tasks, es, kept)
  {
    KeysAdd(es, m);
    KeysAdd(kept, m);
  }

  lemma KeysAdd(es: seq<Message>, m: Message)
    ensures Keys(es + [m]) == Keys(es) + {KeyOf(m)}
  {
    assert m in es + [m];
    forall x | x in es
      ensures KeyOf(x) in Keys(es + [m])
    {
      assert x in es + [m];
    }
  }

  ghost predicate Indexes(idx: map<Key, Message>, es: seq<Message>) {
    && (forall k :: k in idx <==> exists m :: m in es && KeyOf(m) == k)
    && forall k :: k in idx ==> idx[k] in es && KeyOf(idx[k]) == k
  }

  /** The sweeper's snapshot of the index by key. */
  method BuildIndex(es: seq<Message>) returns (idx: map<Key, Message>)
    ensures Indexes(idx, es)
  {
    idx := map[];
    for i := 0 to |es|
      invariant Indexes(idx, es[..i])
    {
      assert es[..i + 1] == es[..i] + [es[i]];
      idx := idx[KeyOf(es[i]) := es[i]];
    }
    assert es[..|es|] == es;
  }

  lemma {:induction false} NudgeIs(es: seq<Message>, k: Key)
    requires Sorted(es)
    ensures forall m :: m in es && KeyOf(m) == k ==> Nudge(es, k) == [m]
    ensures (forall m :: m in es ==> KeyOf(m) != k) ==> Nudge(es, k) == []
  {
    hide Sorted;
    if es != [] {
      SortedDrop(es);
      NudgeIs(es[..|es| - 1], k);
    }
  }

  lemma NudgeFromIndex(idx: map<Key, Message>, es: seq<Message>, k: Key)
    requires Indexes(idx, es) && Sorted(es)
    ensures Nudge(es, k) == if k in idx then [idx[k]] else []
  {
    hide Sorted, Nudge;
    NudgeIs(es, k);
  }

  // ---------------------------------------------------------------------------
  // Retention

  function Saturated(count: nat, n: int): nat {
    if n > 0 && count > n then n else count
  }

  lemma PruneStep(es: seq<Message>, i: nat, n: int, cutoff: int)
    requires i < |es|
    ensures KeepFirst(es[i..], n, cutoff) <==>
            InAge(es[i], cutoff) && (n <= 0 || CountInAge(es[i + 1..], es[i].tenant, cutoff) < n)
    ensures forall t :: CountInAge(es[i..], t, cutoff) ==
              (if es[i].tenant == t && InAge(es[i], cutoff) then 1 else 0) + CountInAge(es[i + 1..], t, cutoff)
    ensures Pruned(es[i..], n, cutoff) ==
            (if KeepFirst(es[i..], n, cutoff) then [es[i]] else []) + Pruned(es[i + 1..], n, cutoff)
  {
    hide InAge;
    assert es[i..][0] == es[i] && es[i..][1..] == es[i + 1..];
  }

  /** The first loop of `pruneAt`, from the newest message to the oldest. */
  method MarkKept(es: seq<Message>, n: int, cutoff: int) returns (keep: array<bool>)
    ensures fresh(keep) && keep.Length == |es|
    ensures forall j :: 0 <= j < |es| ==> keep[j] == KeepFirst(es[j..], n, cutoff)
  {
    hide InAge, KeepFirst, CountInAge;
    keep := new bool[|es|](_ => false);
    var perTenant: map<Tenant, nat> := map[];
    var i := |es|;
    CountNothing(cutoff);
    assert es[|es|..] == [];
    while i > 0
      invariant 0 <= i <= |es|
      invariant forall j :: i <= j < |es| ==> keep[j] == KeepFirst(es[j..], n, cutoff)
      invariant forall j :: 0 <= j < i ==> !keep[j]
      invariant forall t :: (if t in perTenant then perTenant[t] else 0) == Saturated(CountInAge(es[i..], t, cutoff), n)
    {
      i := i - 1;
      var m := es[i];
      PruneStep(es, i, n, cutoff);
      if !InAge(m, cutoff) {
        continue;
      }
      var count := if m.tenant in perTenant then perTenant[m.tenant] else 0;
      if n > 0 && count >= n {
        continue;
      }
      perTenant := perTenant[m.tenant := count + 1];
      keep[i] := true;
    }
  }

  lemma CountNothing(cutoff: int)
    ensures forall t :: CountInAge([], t, cutoff) == 0
  {
  }

  lemma PrunedNothing(n: int, cutoff: int)
    ensures Pruned([], n, cutoff) == []
  {
  }

  /** The second loop of `pruneAt`. The kept messages move to the front of the array that
      is being read; a message that goes takes its task state with it. */
  method Compact(es: seq<Message>, keep: array<bool>, n: int, cutoff: int, tasks: map<Key, TaskState>)
      returns (out: seq<Message>, left: map<Key, TaskState>)
    requires Sorted(es) && keep.Length == |es|
    requires forall j :: 0 <= j < |es| ==> keep[j] == KeepFirst(es[j..], n, cutoff)
    ensures out == Pruned(es, n, cutoff)
    ensures left == TasksOf(tasks, es, out)
  {
    hide KeepFirst, Sorted, TasksOf, Pruned;
    var slice := new Message[|es|](i requires 0 <= i < |es| => es[i]);
    var w := 0;
    left := tasks;
    assert slice[..0] == [] && es[..0] == [] && es[0..] == es;
    SameTasks(tasks, []);
    for i := 0 to |es|
      invariant 0 <= w <= i
      invariant forall j :: i <= j < |es| ==> slice[j] == es[j]
      invariant slice[..w] + Pruned(es[i..], n, cutoff) == Pruned(es, n, cutoff)
      invariant forall m :: m in slice[..w] ==> m in es[..i]
      invariant left == TasksOf(tasks, es[..i], slice[..w])
    {
      var m := slice[i];
      ghost var kept := slice[..w];
      PruneStep(es, i, n, cutoff);
      assert es[..i + 1] == es[..i] + [m];
      KeyIsNew(es, i);
      if keep[i] {
        KeepOne(tasks, es[..i], kept, m);
        slice[w] := m;
        w := w + 1;
        assert slice[..w] == kept + [m];
        assert kept + ([m] + Pruned(es[i + 1..], n, cutoff)) == slice[..w] + Pruned(es[i + 1..], n, cutoff);
      } else {
        DropOne(tasks, es[..i], kept, m);
        left := left - {KeyOf(m)};
        assert [] + Pruned(es[i + 1..], n, cutoff) == Pruned(es[i + 1..], n, cutoff);
      }
    }
    assert es[|es|..] == [] && es[..|es|] == es;
    out := slice[..w];
    PrunedNothing(n, cutoff);
    assert out + [] == out;
  }
}
