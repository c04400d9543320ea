/** What the operations of the channel do, in terms of the messages, tasks and pins that
    their callers see (`comms/comms.go`, `comms/state.go`, `comms/sweep.go`). */
module ChannelEffects {
  import opened Channel
  import opened ChannelIndex
  import opened ChannelInvariant
  import opened ChannelSweep

  // ---------------------------------------------------------------------------
  // Retention

  /** Not older than `age`; an age of 0 or less, or one that reaches back to time 0, is no
      bound. */
  ghost predicate Young(m: Message, age: int, now: int) {
    0 < age < now ==> now - m.ts <= age
  }

  /** The tenant's newer messages that are young enough themselves. */
  ghost function Newer(es: seq<Message>, m: Message, age: int, now: int): set<Message> {
    set x | x in es && x.seqNo > m.seqNo && x.tenant == m.tenant && Young(x, age, now)
  }

  ghost function YoungOf(es: seq<Message>, tenant: Tenant, age: int, now: int): set<Message> {
    set x | x in es && x.tenant == tenant && Young(x, age, now)
  }

  lemma YoungOfStep(es: seq<Message>, tenant: Tenant, age: int, now: int)
    requires es != [] && Sorted(es)
    ensures |YoungOf(es, tenant, age, now)|
         == |YoungOf(es[1..], tenant, age, now)| + if es[0].tenant == tenant && Young(es[0], age, now) then 1 else 0
  {
    hide Young, Sorted;
    SortedRest(es);
    var m, rest := es[0], YoungOf(es[1..], tenant, age, now);
    assert m !in rest;
    assert YoungOf(es, tenant, age, now) == if m.tenant == tenant && Young(m, age, now) then rest + {m} else rest;
  }

  lemma {:induction false} CountIsSize(es: seq<Message>, tenant: Tenant, age: int, now: int)
    requires Sorted(es)
    ensures CountInAge(es, tenant, Cutoff(age, now)) == |YoungOf(es, tenant, age, now)|
  {
    hide Young, Sorted, InAge, Cutoff;
    if es == [] {
      assert YoungOf(es, tenant, age, now) == {};
    } else {
      hide YoungOf;
      SortedRest(es);
      CountIsSize(es[1..], tenant, age, now);
      YoungIsInAge(es[0], age, now);
      YoungOfStep(es, tenant, age, now);
    }
  }

  lemma SortedRest(es: seq<Message>)
    requires es != [] && Sorted(es)
    ensures Sorted(es[1..]) && es[0] !in es[1..]
    ensures forall x :: x in es <==> x == es[0] || x in es[1..]
    ensures forall x :: x in es[1..] ==> x.seqNo > es[0].seqNo
  {
    assert es == [es[0]] + es[1..];
  }

  lemma YoungIsInAge(m: Message, age: int, now: int)
    ensures InAge(m, Cutoff(age, now)) <==> Young(m, age, now)
  {
  }

  /** Retention keeps exactly the young messages that have fewer than `n` young newer ones of
      the same tenant; a bound of 0 or less is off. */
  lemma {:induction false} RetentionMeans(es: seq<Message>, n: int, age: int, now: int, m: Message)
    requires Sorted(es) && m in es
    ensures m in Pruned(es, n, Cutoff(age, now)) <==> Young(m, age, now) && (n <= 0 || |Newer(es, m, age, now)| < n)
  {
    hide Young, CountInAge, InAge, Cutoff, Sorted;
    var first, rest := es[0], es[1..];
    PrunedMembers(rest, n, Cutoff(age, now));
    SortedRest(es);
    if m == first {
      YoungIsInAge(m, age, now);
      CountIsSize(rest, m.tenant, age, now);
      assert Newer(es, m, age, now) == YoungOf(rest, m.tenant, age, now);
    } else {
      RetentionMeans(rest, n, age, now, m);
      assert Newer(es, m, age, now) == Newer(rest, m, age, now);
    }
  }

  lemma PruneMeans(c: Channel, now: int, m: Message)
    requires Sorted(c.entries)
    ensures var c' := AfterPrune(c, now);
      && Sorted(c'.entries)
      && (m in c'.entries <==>
            (m in c.entries && Young(m, c.retainAge, now)
             && (c.retainN <= 0 || |Newer(c.entries, m, c.retainAge, now)| < c.retainN)))
      && c' == c.(entries := c'.entries, tasks := c'.tasks)
  {
    hide Newer, TasksOf, Pruned;
    PrunedSorted(c.entries, c.retainN, Cutoff(c.retainAge, now));
    PrunedMembers(c.entries, c.retainN, Cutoff(c.retainAge, now));
    if m in c.entries {
      RetentionMeans(c.entries, c.retainN, c.retainAge, now, m);
    }
  }

  /** Pruning forgets the tasks of the messages it drops and no others. */
  lemma PruneTasks(c: Channel, now: int, k: Key)
    requires Sorted(c.entries)
    ensures var c' := AfterPrune(c, now);
      && (k in c'.tasks <==> k in c.tasks && (k in Keys(c.entries) ==> k in Keys(c'.entries)))
      && (k in c'.tasks ==> c'.tasks[k] == c.tasks[k])
  {
    hide Pruned;
  }

  // ---------------------------------------------------------------------------
  // Posting

  /** What a post of payload `q` at `ts` leaves: one more record, the message in the index
      whatever the retention, no other message added, and nothing else changed but what
      retention drops. */
  ghost predicate PostedAs(c: Channel, tenant: Tenant, stamp: int, ts: int, e: Event, q: Payload, c': Channel) {
    var m := Message(|c.journal| + 1, tenant, ts, q);
    && c'.journal == c.journal + [Record(tenant, stamp, e)]
    && m in c'.entries
    && (forall x :: x in c'.entries ==> x == m || x in c.entries)
    && (forall x :: x in c.entries && c.retainN <= 0 && c.retainAge <= 0 ==> x in c'.entries)
    && c' == c.(journal := c'.journal, entries := c'.entries, tasks := c'.tasks)
  }

  lemma IndexedMeans(c: Channel, tenant: Tenant, stamp: int, ts: int, e: Event)
    requires Consistent(c) && (e.Posted? || e.Imaged?)
    ensures PostedAs(c, tenant, stamp, ts, e, e.p, Indexed(c, tenant, stamp, ts, e))
  {
    hide Consistent, AfterPrune, Seed;
    var m := Message(|c.journal| + 1, tenant, ts, e.p);
    var c1 := Logged(c, tenant, stamp, e).(entries := c.entries + [m], tasks := if e.Posted? then Seed(c.tasks, m) else c.tasks);
    SortedOf(c);
    EntriesBelow(c);
    SortedAdd(c.entries, m);
    PruneMeans(c1, ts, m);
    assert Newer(c1.entries, m, c1.retainAge, ts) == {};
    forall x
      ensures x in AfterPrune(c1, ts).entries ==> x in c1.entries
      ensures x in c1.entries && c1.retainN <= 0 && c1.retainAge <= 0 ==> x in AfterPrune(c1, ts).entries
    {
      PruneMeans(c1, ts, x);
    }
  }

  lemma EntriesBelow(c: Channel)
    requires Consistent(c)
    ensures forall x :: x in c.entries ==> x.seqNo <= |c.journal|
  {
    hide WellFormed, TasksMatch, TasksCover, PinsMatch, Live;
    NumbersBelow(c.journal, c.entries);
  }

  /** `Post`: refused without area, sender or text; otherwise the payload is recorded and
      indexed as given, an empty kind as "note". */
  lemma PostMeans(c: Channel, tenant: Tenant, p: Payload, stamp: int, ts: int, ok: bool)
    requires Consistent(c)
    ensures var c', q := AfterPost(c, tenant, p, stamp, ts, ok), p.(kind := if p.kind == "" then "note" else p.kind);
      if p.area == "" || p.from == "" || p.text == "" || !ok then c' == c
      else PostedAs(c, tenant, stamp, ts, Posted(q), q, c')
  {
    hide Consistent, Indexed;
    if !PostRefused(p) && ok {
      IndexedMeans(c, tenant, stamp, ts, Posted(WithKind(p)));
    }
  }

  /** A posted task is pending, held by nobody, with the deadline of its message; no other
      task appears or changes. */
  lemma PostTasks(c: Channel, tenant: Tenant, p: Payload, stamp: int, ts: int, k: Key)
    requires Consistent(c) && p.area != "" && p.from != "" && p.text != ""
    ensures var c' := AfterPost(c, tenant, p, stamp, ts, true);
      if k == Key(tenant, |c.journal| + 1) then
        && (k in c'.tasks <==> p.kind == "task")
        && (k in c'.tasks ==> c'.tasks[k] == TaskState(Pending, "", 0, p.deadline))
      else k in c'.tasks ==> k in c.tasks && c'.tasks[k] == c.tasks[k]
  {
    hide Consistent, AfterPrune;
    var q := WithKind(p);
    var m := Message(|c.journal| + 1, tenant, ts, q);
    var c1 := Logged(c, tenant, stamp, Posted(q)).(entries := c.entries + [m], tasks := Seed(c.tasks, m));
    SortedOf(c);
    EntriesBelow(c);
    SortedAdd(c.entries, m);
    PruneTasks(c1, ts, k);
    NotYetATask(c, KeyOf(m));
    PostMeans(c, tenant, p, stamp, ts, true);
    assert KeyOf(m) in Keys(AfterPrune(c1, ts).entries);
  }

  lemma NotYetATask(c: Channel, k: Key)
    requires Consistent(c) && k.seqNo > |c.journal|
    ensures k !in c.tasks
  {
    hide WellFormed, IndexMatches, TasksCover, PinsMatch, Replayed;
  }

  /** `PostImage`: the kind is "image" whatever the caller says, and no task appears. */
  lemma PostImageMeans(c: Channel, tenant: Tenant, p: Payload, stamp: int, ts: int, ok: bool)
    requires Consistent(c)
    ensures var c', q := AfterPostImage(c, tenant, p, stamp, ts, ok), p.(kind := "image");
      if p.area == "" || p.from == "" || p.blobID == "" || p.mime == "" || !ok then c' == c
      else PostedAs(c, tenant, stamp, ts, Imaged(q), q, c') && forall k :: k in c'.tasks ==> k in c.tasks && c'.tasks[k] == c.tasks[k]
  {
    hide Consistent, AfterPrune;
    if !ImageRefused(p) && ok {
      var q := p.(kind := "image");
      IndexedMeans(c, tenant, stamp, ts, Imaged(q));
      var m := Message(|c.journal| + 1, tenant, ts, q);
      var c1 := Logged(c, tenant, stamp, Imaged(q)).(entries := c.entries + [m]);
      SortedOf(c);
      EntriesBelow(c);
      SortedAdd(c.entries, m);
      forall k | k in AfterPrune(c1, ts).tasks
        ensures k in c.tasks && AfterPrune(c1, ts).tasks[k] == c.tasks[k]
      {
        PruneTasks(c1, ts, k);
      }
    }
  }

  // ---------------------------------------------------------------------------
  // Clearing and pinning

  /** `Clear`: the tenant's messages of the area are gone, all others stay in order, and task
      states and pins are as before. */
  lemma ClearMeans(c: Channel, tenant: Tenant, area: string, stamp: int, ok: bool)
    requires Consistent(c)
    ensures var c' := AfterClear(c, tenant, area, stamp, ok);
      if area == "" || !ok then c' == c
      else
        && c' == c.(journal := c.journal + [Record(tenant, stamp, AreaCleared(area))], entries := c'.entries)
        && Sorted(c'.entries)
        && forall m :: m in c'.entries <==> m in c.entries && !(m.tenant == tenant && m.body.area == area)
  {
    hide Consistent, Without, Sorted;
    SortedOf(c);
    EntriesBelow(c);
    WithoutSorted(c.entries, Area(tenant, area, |c.journal| + 1));
    WithoutMembers(c.entries, Area(tenant, area, |c.journal| + 1));
  }

  /** `Pin`: the tenant's hold on the blob is as asked for, and no other hold changes. */
  lemma PinMeans(c: Channel, tenant: Tenant, blobID: string, on: bool, stamp: int, ok: bool)
    ensures var c' := AfterPin(c, tenant, blobID, on, stamp, ok);
      if blobID == "" || !ok then c' == c
      else
        && c' == c.(journal := c.journal + [Record(tenant, stamp, BlobPinned(blobID, on))], pinned := c'.pinned)
        && forall b, t :: (b in c'.pinned && t in c'.pinned[b]) <==>
             if b == blobID && t == tenant then on else b in c.pinned && t in c.pinned[b]
  {
    var tenants := if blobID in c.pinned then c.pinned[blobID] else {};
    forall t | t in tenants && t != tenant
      ensures t in tenants - {tenant}
    {
    }
  }

  // ---------------------------------------------------------------------------
  // Resolving

  /** `Resolve`: by the holder or the owner, to "done", "cancel" or, when left out, done. */
  lemma ResolveMeans(c: Channel, k: Key, agent: string, state: string, stamp: int, ok: bool)
    ensures var c' := AfterResolve(c, k, agent, state, stamp, ok);
      if agent != "" && state in {"", "done", "cancel"} && k in c.tasks && ok
         && (agent == c.tasks[k].holder || (c.ownerLabel != "" && agent == c.ownerLabel))
      then
        var status := if state == "cancel" then Cancel else Done;
        c' == c.(journal := c.journal + [Record(k.tenant, stamp, StateChanged(k.seqNo, status, agent, 0))],
                 tasks := c.tasks[k := TaskState(status, agent, 0, c.tasks[k].deadline)])
      else c' == c
  {
  }

  // ---------------------------------------------------------------------------
  // Sweeping

  /** What a sweep with a working journal makes of a task. A closed or overdue task stays as
      it is. One past its deadline becomes overdue and keeps its holder and lease, unless the
      lease is over; and one whose lease is over becomes pending. */
  lemma SweepOutcome(c: Channel, now: int, visits: seq<Visit>, k: Key)
    requires Enumerates(visits, c.tasks.Keys) && AllOk(visits) && k in c.tasks
    ensures k in Swept(c, now, visits).tasks
    ensures var t, t' := c.tasks[k], Swept(c, now, visits).tasks[k];
      var late, over := 0 < t.deadline < now, t.status == Claimed && t.leaseUntil < now;
      && (t.status == Done || t.status == Cancel || t.status == Overdue ==> t' == t)
      && (t.status == Pending ==> t' == if late then t.(status := Overdue) else t)
      && (t.status == Claimed && !over ==> t' == if late then t.(status := Overdue) else t)
      && (over ==> t' == TaskState(if late then Overdue else Pending, "", 0, t.deadline))
  {
    hide VisitAll;
    SweepTasksClosed(c, now, visits);
  }

  /** How often a sweep with a working journal nudges for an indexed message: once when its
      task's lease is over, and once when its task becomes overdue. */
  lemma NudgesMean(c: Channel, now: int, visits: seq<Visit>, m: Message)
    requires Consistent(c) && Enumerates(visits, c.tasks.Keys) && AllOk(visits) && m in c.entries && KeyOf(m) in c.tasks
    ensures var t := c.tasks[KeyOf(m)];
      multiset(Swept(c, now, visits).nudges)[m]
        == (if t.status == Claimed && t.leaseUntil < now then 1 else 0)
         + (if (t.status == Pending || t.status == Claimed) && 0 < t.deadline < now then 1 else 0)
  {
    hide Consistent, VisitAll;
    SweepNudges(c, now, visits, m);
  }

  /** What a sweep leaves in the index: what has not expired, as far as retention
      lets it. */
  lemma SweepIndex(c: Channel, now: int, visits: seq<Visit>, m: Message)
    requires Consistent(c) && Visits(visits, c.tasks.Keys)
    ensures m in AfterSweep(c, now, visits).entries ==> m in c.entries && !(0 < m.body.expiresAt < now)
    ensures c.retainN <= 0 && c.retainAge <= 0 ==>
      (m in AfterSweep(c, now, visits).entries <==> m in c.entries && !(0 < m.body.expiresAt < now))
  {
    hide Consistent, VisitAll, TasksOf, AfterPrune, Without;
    SortedOf(c);
    WithoutSorted(c.entries, Stale(now));
    WithoutMembers(c.entries, Stale(now));
    var s, fresh' := Swept(c, now, visits), Without(c.entries, Stale(now));
    PruneMeans(c.(journal := s.journal, entries := fresh', tasks := TasksOf(s.tasks, c.entries, fresh')), now, m);
  }

  // ---------------------------------------------------------------------------
  // Rebuilding

  /** What is indexed after a restart: the messages and images that no later clear of their
      tenant and area covers and that have not expired. */
  lemma RebuildMeans(c: Channel, journal: seq<Record>, now: int, i: nat)
    requires IsRebuild(c, journal, now) && i < |journal|
    ensures Listed(c.entries, i + 1) <==>
      && (journal[i].event.Posted? || journal[i].event.Imaged?)
      && (forall j :: i < j < |journal| && journal[j].event.AreaCleared? ==>
            journal[j].tenant != journal[i].tenant || journal[j].event.area != journal[i].event.p.area)
      && !(0 < journal[i].event.p.expiresAt < now)
  {
    hide Replayed, PinsMatch, FromRecord, Sorted, Listed;
  }

  /** The recorded state of a task is the one of its last event. */
  lemma {:induction false} LastEventWins(journal: seq<Record>, k: Key, deadline: int, i: nat)
    requires i < |journal| && journal[i].event.StateChanged? && journal[i].tenant == k.tenant && journal[i].event.task == k.seqNo
    requires forall j :: i < j < |journal| && journal[j].event.StateChanged? ==>
      journal[j].tenant != k.tenant || journal[j].event.task != k.seqNo
    ensures var e := journal[i].event; Replayed(journal, k, deadline) == TaskState(e.status, e.agent, e.leaseUntil, deadline)
    decreases |journal|
  {
    var last := |journal| - 1;
    if i < last {
      LastEventWins(journal[..last], k, deadline, i);
    }
  }

  lemma {:induction false} NoEventIsPending(journal: seq<Record>, k: Key, deadline: int)
    requires forall j :: 0 <= j < |journal| && journal[j].event.StateChanged? ==>
      journal[j].tenant != k.tenant || journal[j].event.task != k.seqNo
    ensures Replayed(journal, k, deadline) == TaskState(Pending, "", 0, deadline)
  {
    if journal != [] {
      NoEventIsPending(journal[..|journal| - 1], k, deadline);
    }
  }

  /** A blob is held by a tenant exactly when the tenant's last pin event for it is a pin. */
  lemma {:induction false} LastPinWins(journal: seq<Record>, blobID: string, tenant: Tenant, i: nat)
    requires i < |journal| && journal[i].event.BlobPinned? && journal[i].tenant == tenant && journal[i].event.blobID == blobID
    requires forall j :: i < j < |journal| && journal[j].event.BlobPinned? ==>
      journal[j].tenant != tenant || journal[j].event.blobID != blobID
    ensures PinHeld(journal, blobID, tenant) <==> journal[i].event.on
    decreases |journal|
  {
    var last := |journal| - 1;
    if i < last {
      LastPinWins(journal[..last], blobID, tenant, i);
    }
  }
}
