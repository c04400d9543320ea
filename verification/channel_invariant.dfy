/** The invariant that ties the channel's memory to its journal, and how each way of
    changing either keeps it: appending a record that says nothing about what is in
    memory, appending one and making the change it describes, and dropping messages
    together with the states of their tasks. Task states, pins and the index are each
    compared with what the records, read from the first to the last, add up to. */
module ChannelInvariant {
  import opened Channel
  import opened ChannelIndex

  /** Images are never tasks, and a state event names an earlier record. */
  ghost predicate WellFormed(journal: seq<Record>) {
    && (forall i :: 0 <= i < |journal| && journal[i].event.Imaged? ==> journal[i].event.p.kind == "image")
    && forall i :: 0 <= i < |journal| && journal[i].event.StateChanged? ==> 1 <= journal[i].event.task <= i
  }

  ghost predicate IndexMatches(journal: seq<Record>, es: seq<Message>) {
    && Sorted(es)
    && forall m :: m in es ==> FromRecord(journal, m) && Live(journal, m.seqNo - 1)
  }

  ghost predicate IsTask(journal: seq<Record>, k: Key) {
    && 1 <= k.seqNo <= |journal|
    && journal[k.seqNo - 1].event.Posted?
    && journal[k.seqNo - 1].tenant == k.tenant
    && journal[k.seqNo - 1].event.p.kind == "task"
  }

  /** Each task state in memory is the one that its events in the journal add up to. */
  ghost predicate TasksMatch(journal: seq<Record>, tasks: map<Key, TaskState>) {
    forall k :: k in tasks ==>
      IsTask(journal, k) && tasks[k] == Replayed(journal, k, journal[k.seqNo - 1].event.p.deadline)
  }

  /** Each task message in the index has a task state. */
  ghost predicate TasksCover(es: seq<Message>, tasks: map<Key, TaskState>) {
    forall m :: m in es && m.body.kind == "task" ==> KeyOf(m) in tasks
  }

  ghost predicate Consistent(c: Channel) {
    && WellFormed(c.journal)
    && IndexMatches(c.journal, c.entries)
    && TasksMatch(c.journal, c.tasks)
    && TasksCover(c.entries, c.tasks)
    && PinsMatch(c.pinned, c.journal)
  }

  // ---------------------------------------------------------------------------
  // One more record

  lemma LiveAppend(j: seq<Record>, r: Record, i: nat)
    requires i < |j|
    ensures Live(j + [r], i) <==> Live(j, i) && !ClearsMessage(r, j[i])
  {
    hide ClearsMessage, IsMessage;
    var j' := j + [r];
    assert j'[|j|] == r && j'[i] == j[i];
    if IsCleared(j, i) {
      var c :| i < c < |j| && ClearsMessage(j[c], j[i]);
      assert ClearsMessage(j'[c], j'[i]);
    }
    if ClearsMessage(r, j[i]) {
      assert ClearsMessage(j'[|j|], j'[i]);
    }
    if IsCleared(j', i) && !ClearsMessage(r, j[i]) {
      var c :| i < c < |j'| && ClearsMessage(j'[c], j'[i]);
      assert ClearsMessage(j[c], j[i]);
    }
  }

  lemma ReplayedAppend(j: seq<Record>, r: Record, k: Key, deadline: int)
    ensures Replayed(j + [r], k, deadline) ==
            if ChangesTask(r, k) then TaskState(r.event.status, r.event.agent, r.event.leaseUntil, deadline)
            else Replayed(j, k, deadline)
  {
    assert (j + [r])[..|j|] == j;
  }

  lemma PinHeldAppend(j: seq<Record>, r: Record, b: string, t: Tenant)
    ensures PinHeld(j + [r], b, t) ==
            if r.event.BlobPinned? && r.tenant == t && r.event.blobID == b then r.event.on else PinHeld(j, b, t)
  {
    assert (j + [r])[..|j|] == j;
  }

  lemma WellFormedAppend(j: seq<Record>, r: Record)
    requires WellFormed(j)
    requires r.event.Imaged? ==> r.event.p.kind == "image"
    requires r.event.StateChanged? ==> 1 <= r.event.task <= |j|
    ensures WellFormed(j + [r])
  {
  }

  lemma IndexAppend(j: seq<Record>, r: Record, es: seq<Message>)
    requires IndexMatches(j, es)
    requires forall m :: m in es ==> !ClearsMessage(r, j[m.seqNo - 1])
    ensures IndexMatches(j + [r], es)
  {
    hide Live, Sorted, ClearsMessage, IsMessage;
    forall m | m in es
      ensures FromRecord(j + [r], m) && Live(j + [r], m.seqNo - 1)
    {
      LiveAppend(j, r, m.seqNo - 1);
    }
  }

  lemma TasksAppend(j: seq<Record>, r: Record, tasks: map<Key, TaskState>)
    requires TasksMatch(j, tasks) && !r.event.StateChanged?
    ensures TasksMatch(j + [r], tasks)
  {
    hide Replayed;
    forall k | k in tasks
      ensures IsTask(j + [r], k) && tasks[k] == Replayed(j + [r], k, (j + [r])[k.seqNo - 1].event.p.deadline)
    {
      assert (j + [r])[k.seqNo - 1] == j[k.seqNo - 1];
      ReplayedAppend(j, r, k, j[k.seqNo - 1].event.p.deadline);
    }
  }

  lemma PinsAppend(j: seq<Record>, r: Record, pinned: map<string, set<Tenant>>)
    requires PinsMatch(pinned, j) && !r.event.BlobPinned?
    ensures PinsMatch(pinned, j + [r])
  {
    hide PinHeld;
    forall b, t
      ensures (b in pinned && t in pinned[b]) <==> PinHeld(j + [r], b, t)
    {
      PinHeldAppend(j, r, b, t);
    }
  }

  /** A record that is neither a clear, a state event nor a pin disturbs nothing. */
  lemma QuietAppend(c: Channel, r: Record)
    requires Consistent(c)
    requires r.event.Posted? || r.event.Imaged? || r.event.Foreign?
    requires r.event.Imaged? ==> r.event.p.kind == "image"
    ensures Consistent(c.(journal := c.journal + [r]))
  {
    hide IndexMatches, TasksMatch, PinsMatch, WellFormed;
    WellFormedAppend(c.journal, r);
    assert forall m :: !ClearsMessage(r, m);
    IndexAppend(c.journal, r, c.entries);
    TasksAppend(c.journal, r, c.tasks);
    PinsAppend(c.journal, r, c.pinned);
  }

  /** Logging a task's new state and setting it in memory go together. */
  lemma TaskChange(j: seq<Record>, tasks: map<Key, TaskState>, k: Key, t: TaskState, stamp: int)
    requires TasksMatch(j, tasks) && k in tasks && t.deadline == tasks[k].deadline
    ensures TasksMatch(j + [Record(k.tenant, stamp, StateChanged(k.seqNo, t.status, t.holder, t.leaseUntil))], tasks[k := t])
  {
    hide Replayed;
    var r := Record(k.tenant, stamp, StateChanged(k.seqNo, t.status, t.holder, t.leaseUntil));
    var tasks' := tasks[k := t];
    forall q | q in tasks'
      ensures IsTask(j + [r], q) && tasks'[q] == Replayed(j + [r], q, (j + [r])[q.seqNo - 1].event.p.deadline)
    {
      assert IsTask(j, q);
      assert (j + [r])[q.seqNo - 1] == j[q.seqNo - 1];
      ReplayedAppend(j, r, q, j[q.seqNo - 1].event.p.deadline);
      ReplayedDeadline(j, q, j[q.seqNo - 1].event.p.deadline);
      if q != k {
        assert !ChangesTask(r, q);
      }
    }
  }

  lemma {:induction false} ReplayedDeadline(j: seq<Record>, k: Key, deadline: int)
    ensures Replayed(j, k, deadline).deadline == deadline
  {
    if j != [] {
      ReplayedDeadline(j[..|j| - 1], k, deadline);
    }
  }

  lemma StateAppend(c: Channel, k: Key, t: TaskState, stamp: int)
    requires Consistent(c) && k in c.tasks && t.deadline == c.tasks[k].deadline
    ensures Consistent(Logged(c, k.tenant, stamp, StateChanged(k.seqNo, t.status, t.holder, t.leaseUntil)).(tasks := c.tasks[k := t]))
  {
    hide IndexMatches, PinsMatch, WellFormed;
    var r := Record(k.tenant, stamp, StateChanged(k.seqNo, t.status, t.holder, t.leaseUntil));
    assert IsTask(c.journal, k);
    WellFormedAppend(c.journal, r);
    assert forall m :: !ClearsMessage(r, m);
    IndexAppend(c.journal, r, c.entries);
    TaskChange(c.journal, c.tasks, k, t, stamp);
    PinsAppend(c.journal, r, c.pinned);
  }

  // ---------------------------------------------------------------------------
  // Posting

  lemma {:induction false} NoEventsYet(j: seq<Record>, k: Key, deadline: int, n: nat)
    requires WellFormed(j) && n <= |j| < k.seqNo
    ensures Replayed(j[..n], k, deadline) == TaskState(Pending, "", 0, deadline)
  {
    if n != 0 {
      assert j[..n][..n - 1] == j[..n - 1];
      NoEventsYet(j, k, deadline, n - 1);
    }
  }

  lemma SeedKeeps(j: seq<Record>, tasks: map<Key, TaskState>, m: Message)
    requires WellFormed(j) && TasksMatch(j, tasks)
    requires m.seqNo == |j| && j != [] && j[|j| - 1] == Record(m.tenant, j[|j| - 1].tstamp, Posted(m.body))
    ensures TasksMatch(j, Seed(tasks, m))
  {
    hide Replayed;
    if m.body.kind == "task" && KeyOf(m) !in tasks {
      var k, deadline, old' := KeyOf(m), m.body.deadline, j[..|j| - 1];
      assert WellFormed(old');
      NoEventsYet(old', k, deadline, |old'|);
      assert old'[..|old'|] == old';
      assert j == old' + [j[|j| - 1]];
      ReplayedAppend(old', j[|j| - 1], k, deadline);
    }
  }

  lemma LiveNew(j: seq<Record>, r: Record)
    requires IsMessage(r)
    ensures Live(j + [r], |j|)
  {
  }

  lemma IndexAdd(j: seq<Record>, es: seq<Message>, m: Message)
    requires IndexMatches(j, es) && FromRecord(j, m) && Live(j, m.seqNo - 1)
    requires forall x :: x in es ==> x.seqNo < m.seqNo
    ensures IndexMatches(j, es + [m])
  {
    hide Live, FromRecord;
    SortedAdd(es, m);
  }

  lemma PostedConsistent(c: Channel, tenant: Tenant, stamp: int, ts: int, e: Event)
    requires Consistent(c) && (e.Posted? || e.Imaged?) && (e.Imaged? ==> e.p.kind == "image")
    ensures Consistent(Indexed(c, tenant, stamp, ts, e))
  {
    hide IndexMatches, TasksMatch, PinsMatch, WellFormed, Live;
    var r := Record(tenant, stamp, e);
    var j := c.journal + [r];
    var m := Message(|c.journal| + 1, tenant, ts, e.p);
    QuietAppend(c, r);
    LiveNew(c.journal, r);
    assert j[|j| - 1] == r;
    assert forall x :: x in c.entries ==> x.seqNo < m.seqNo by { NumbersBelow(c.journal, c.entries); }
    IndexAdd(j, c.entries, m);
    var tasks := if e.Posted? then Seed(c.tasks, m) else c.tasks;
    if e.Posted? {
      SeedKeeps(j, c.tasks, m);
    }
    var c' := c.(journal := j, entries := c.entries + [m], tasks := tasks);
    assert Consistent(c');
    PruneConsistent(c', ts);
  }

  lemma NumbersBelow(j: seq<Record>, es: seq<Message>)
    requires IndexMatches(j, es)
    ensures forall x :: x in es ==> x.seqNo <= |j|
  {
    hide Live;
  }

  // ---------------------------------------------------------------------------
  // Dropping messages

  /** `after` keeps some of the messages of `before`, in order. */
  ghost predicate Thinned(before: seq<Message>, after: seq<Message>) {
    Sorted(after) && forall m :: m in after ==> m in before
  }

  lemma IndexThinned(j: seq<Record>, before: seq<Message>, after: seq<Message>)
    requires IndexMatches(j, before) && Thinned(before, after)
    ensures IndexMatches(j, after)
  {
    hide Live, FromRecord, Sorted;
  }

  /** Dropping messages together with their task states. */
  lemma DropConsistent(c: Channel, after: seq<Message>)
    requires Consistent(c) && Thinned(c.entries, after)
    ensures Consistent(c.(entries := after, tasks := TasksOf(c.tasks, c.entries, after)))
  {
    hide WellFormed, IndexMatches, PinsMatch, Sorted, Replayed;
    IndexThinned(c.journal, c.entries, after);
    var tasks := TasksOf(c.tasks, c.entries, after);
    forall m | m in after && m.body.kind == "task"
      ensures KeyOf(m) in tasks
    {
      assert KeyOf(m) in Keys(after);
    }
  }

  lemma PruneThins(es: seq<Message>, n: int, cutoff: int)
    requires Sorted(es)
    ensures Thinned(es, Pruned(es, n, cutoff))
  {
    PrunedSorted(es, n, cutoff);
    PrunedMembers(es, n, cutoff);
  }

  lemma PruneConsistent(c: Channel, now: int)
    requires Consistent(c)
    ensures Consistent(AfterPrune(c, now))
  {
    hide WellFormed, TasksMatch, PinsMatch, Pruned, Thinned, TasksOf;
    PruneThins(c.entries, c.retainN, Cutoff(c.retainAge, now));
    DropConsistent(c, Pruned(c.entries, c.retainN, Cutoff(c.retainAge, now)));
  }

  lemma WithoutThins(es: seq<Message>, cut: Cut)
    requires Sorted(es)
    ensures Thinned(es, Without(es, cut))
  {
    WithoutSorted(es, cut);
    WithoutMembers(es, cut);
  }

  lemma ClearedConsistent(c: Channel, tenant: Tenant, area: string, stamp: int)
    requires Consistent(c)
    ensures Consistent(Logged(c, tenant, stamp, AreaCleared(area)).(
              entries := Without(c.entries, Area(tenant, area, |c.journal| + 1))))
  {
    hide WellFormed, TasksMatch, PinsMatch, Without, Live, Sorted;
    var r := Record(tenant, stamp, AreaCleared(area));
    var cut := Area(tenant, area, |c.journal| + 1);
    var after := Without(c.entries, cut);
    WellFormedAppend(c.journal, r);
    TasksAppend(c.journal, r, c.tasks);
    PinsAppend(c.journal, r, c.pinned);
    WithoutThins(c.entries, cut);
    WithoutMembers(c.entries, cut);
    IndexThinned(c.journal, c.entries, after);
    IndexAppend(c.journal, r, after);
  }

  lemma PinnedMatches(pinned: map<string, set<Tenant>>, j: seq<Record>, tenant: Tenant, blobID: string, on: bool, stamp: int)
    requires PinsMatch(pinned, j)
    ensures PinsMatch(Pinned(pinned, tenant, blobID, on), j + [Record(tenant, stamp, BlobPinned(blobID, on))])
  {
    hide PinHeld;
    var r := Record(tenant, stamp, BlobPinned(blobID, on));
    var pinned' := Pinned(pinned, tenant, blobID, on);
    forall b, t
      ensures (b in pinned' && t in pinned'[b]) <==> PinHeld(j + [r], b, t)
    {
      PinHeldAppend(j, r, b, t);
      assert (b in pinned && t in pinned[b]) <==> PinHeld(j, b, t);
      if b == blobID {
        var tenants := if blobID in pinned then pinned[blobID] else {};
        assert t in tenants <==> PinHeld(j, b, t);
        assert (b in pinned' && t in pinned'[b]) <==> t in if on then tenants + {tenant} else tenants - {tenant};
      }
    }
  }

  lemma PinConsistent(c: Channel, tenant: Tenant, blobID: string, on: bool, stamp: int)
    requires Consistent(c)
    ensures Consistent(Logged(c, tenant, stamp, BlobPinned(blobID, on)).(pinned := Pinned(c.pinned, tenant, blobID, on)))
  {
    hide WellFormed, IndexMatches, TasksMatch, PinsMatch, Pinned;
    var r := Record(tenant, stamp, BlobPinned(blobID, on));
    WellFormedAppend(c.journal, r);
    assert forall m :: !ClearsMessage(r, m);
    IndexAppend(c.journal, r, c.entries);
    TasksAppend(c.journal, r, c.tasks);
    PinnedMatches(c.pinned, c.journal, tenant, blobID, on, stamp);
  }

  // ---------------------------------------------------------------------------
  // Sweeping

  ghost predicate SweepMatches(c: Channel, s: Sweep) {
    Consistent(c.(journal := s.journal, tasks := s.tasks))
  }

  lemma ChangedMatches(c: Channel, s: Sweep, k: Key, t: TaskState, stamp: int)
    requires SweepMatches(c, s) && k in s.tasks && t.deadline == s.tasks[k].deadline
    ensures SweepMatches(c, Changed(s, k, t, stamp, c.entries))
  {
    hide Consistent, Nudge;
    StateAppend(c.(journal := s.journal, tasks := s.tasks), k, t, stamp);
  }

  lemma VisitMatches(c: Channel, s: Sweep, v: Visit, now: int)
    requires SweepMatches(c, s) && v.key in s.tasks
    ensures SweepMatches(c, VisitTask(s, v, c.entries, now))
  {
    hide Consistent, SweepMatches, Nudge, Changed;
    if !(LeaseOver(s.tasks[v.key], now) && !v.leaseOk) {
      ChangedMatches(c, s, v.key, Freed(s.tasks[v.key]), v.stamp);
      var s1 := VisitLease(s, v, c.entries, now);
      assert SweepMatches(c, s1);
      assert v.key in s1.tasks by { ChangedKeys(s, v.key, Freed(s.tasks[v.key]), v.stamp, c.entries); }
      ChangedMatches(c, s1, v.key, s1.tasks[v.key].(status := Overdue), v.stamp);
    }
  }

  lemma ChangedKeys(s: Sweep, k: Key, t: TaskState, stamp: int, es: seq<Message>)
    ensures Changed(s, k, t, stamp, es).tasks == s.tasks[k := t]
  {
  }

  lemma {:induction false} VisitAllMatches(c: Channel, s: Sweep, visits: seq<Visit>, now: int)
    requires SweepMatches(c, s) && Visits(visits, s.tasks.Keys)
    ensures SweepMatches(c, VisitAll(s, visits, c.entries, now))
  {
    hide SweepMatches, VisitTask;
    if visits != [] {
      var last := |visits| - 1;
      assert Visits(visits[..last], s.tasks.Keys);
      VisitAllMatches(c, s, visits[..last], now);
      VisitMatches(c, VisitAll(s, visits[..last], c.entries, now), visits[last], now);
    }
  }

  lemma SweepConsistent(c: Channel, now: int, visits: seq<Visit>)
    requires Consistent(c) && Visits(visits, c.tasks.Keys)
    ensures Consistent(AfterSweep(c, now, visits))
  {
    hide Consistent, VisitAll, Without, TasksOf, Thinned, AfterPrune;
    var s := Swept(c, now, visits);
    var c1 := c.(journal := s.journal, tasks := s.tasks);
    VisitAllMatches(c, Sweep(c.journal, c.tasks, []), visits, now);
    assert Consistent(c1);
    var after := Without(c.entries, Stale(now));
    assert Sorted(c.entries) by { SortedOf(c); }
    WithoutThins(c.entries, Stale(now));
    DropConsistent(c1, after);
    PruneConsistent(c1.(entries := after, tasks := TasksOf(s.tasks, c.entries, after)), now);
  }

  lemma SortedOf(c: Channel)
    requires Consistent(c)
    ensures Sorted(c.entries)
  {
  }

  // ---------------------------------------------------------------------------
  // Restarting

  lemma RebuildConsistent(c: Channel, journal: seq<Record>, now: int)
    requires WellFormed(journal) && IsRebuild(c, journal, now)
    ensures Consistent(c)
  {
    hide Live, Sorted, Replayed, PinsMatch;
    forall m | m in c.entries
      ensures FromRecord(journal, m) && Live(journal, m.seqNo - 1)
    {
      assert Listed(c.entries, m.seqNo - 1 + 1);
    }
  }
}
