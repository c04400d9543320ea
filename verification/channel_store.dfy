/** The `Store` of `comms/`, its fields updated in place under one lock. `ok` says whether
    the journal takes the record that the operation appends. */
module ChannelStore {
  import opened Channel
  import opened ChannelIndex
  import opened ChannelInvariant
  import opened ChannelRebuilding

  datatype Error = BadRequest | NotATask | NotHolder | AppendFailed

  datatype Result<T> = Ok(value: T) | Failed(error: Error)

  datatype ClaimResult = Granted(t: TaskState) | Denied(t: TaskState) | NoClaim(error: Error)

  class Store {
    var journal: seq<Record>
    var entries: seq<Message>
    var tasks: map<Key, TaskState>
    var pinned: map<string, set<Tenant>>
    var retainN: int
    var retainAge: int
    var leaseTTL: int
    var ownerLabel: string

    ghost function Abs(): Channel
      reads this
    {
      Channel(journal, entries, tasks, pinned, retainN, retainAge, leaseTTL, ownerLabel)
    }

    ghost predicate Valid()
      reads this
    {
      Consistent(Abs())
    }

    /** `New`: messages, images, clears, pins, and task states, each in a pass of its own. */
    constructor (log: seq<Record>, now: int)
      ensures IsRebuild(Abs(), log, now)
      ensures WellFormed(log) ==> Valid()
    {
      hide Loaded, Cleaned, Sorted, PinsMatch, Seeded, Restored, Consistent;
      journal := log;
      entries, tasks, pinned := [], map[], map[];
      retainN, retainAge, leaseTTL, ownerLabel := 0, 0, 0, "";
      new;
      var n := |log|;
      NothingLoaded(log, now);
      for i := 0 to n
        invariant Loaded(log, entries, i, 0, now)
        invariant journal == log && pinned == map[] && tasks == map[]
        invariant retainN == 0 && retainAge == 0 && leaseTTL == 0 && ownerLabel == ""
      {
        var r := log[i];
        LoadPost(log, entries, i, now);
        if r.event.Posted? && !ExpiredAt(r.event.p, now) {
          entries := entries + [Message(i + 1, r.tenant, r.tstamp, r.event.p)];
        }
      }
      for i := 0 to n
        invariant Loaded(log, entries, n, i, now)
        invariant journal == log && pinned == map[] && tasks == map[]
        invariant retainN == 0 && retainAge == 0 && leaseTTL == 0 && ownerLabel == ""
      {
        var r := log[i];
        LoadImage(log, entries, i, now);
        if r.event.Imaged? && !ExpiredAt(r.event.p, now) {
          entries := entries + [Message(i + 1, r.tenant, r.tstamp, r.event.p)];
        }
      }
      ghost var loaded := entries;
      LoadedDistinct(log, entries, now);
      entries := SortBySeq(entries);
      SortedLoaded(log, loaded, entries, now);
      for i := 0 to n
        invariant Cleaned(log, entries, i, now)
        invariant journal == log && pinned == map[] && tasks == map[]
        invariant retainN == 0 && retainAge == 0 && leaseTTL == 0 && ownerLabel == ""
      {
        CleanMore(log, entries, i, now);
        if log[i].event.AreaCleared? {
          entries := DropHits(entries, Area(log[i].tenant, log[i].event.area, i + 1));
        }
      }
      PinsStart();
      for i := 0 to n
        invariant PinsMatch(pinned, log[..i])
        invariant Cleaned(log, entries, n, now)
        invariant journal == log && tasks == map[]
        invariant retainN == 0 && retainAge == 0 && leaseTTL == 0 && ownerLabel == ""
      {
        assert log[..i + 1] == log[..i] + [log[i]];
        PinsMore(pinned, log[..i], log[i]);
        if log[i].event.BlobPinned? {
          pinned := Pinned(pinned, log[i].tenant, log[i].event.blobID, log[i].event.on);
        }
      }
      assert log[..n] == log;
      SeededNothing(entries);
      ghost var es := entries;
      for i := 0 to |entries|
        invariant entries == es && Seeded(es[..i], tasks)
        invariant PinsMatch(pinned, log) && Cleaned(log, entries, n, now)
        invariant journal == log
        invariant retainN == 0 && retainAge == 0 && leaseTTL == 0 && ownerLabel == ""
      {
        SeedMore(log, entries, i, tasks, now);
        tasks := Seed(tasks, entries[i]);
      }
      assert es[..|es|] == es;
      RestoredNothing(log, entries, tasks);
      for i := 0 to n
        invariant Restored(log, i, entries, tasks)
        invariant PinsMatch(pinned, log) && Cleaned(log, entries, n, now)
        invariant journal == log
        invariant retainN == 0 && retainAge == 0 && leaseTTL == 0 && ownerLabel == ""
      {
        RestoreMore(log, i, entries, tasks);
        tasks := Replay(tasks, log[i]);
      }
      RebuildDone(Abs(), log, now);
      if WellFormed(log) {
        RebuildConsistent(Abs(), log, now);
      }
    }

    /** `pruneAt`: marks what to keep from the newest message back, then moves it to the
        front of the slice's own array. */
    method PruneAt(now: int)
      requires Sorted(entries)
      modifies this`entries, this`tasks
      ensures Abs() == AfterPrune(old(Abs()), now)
    {
      hide InAge, CountInAge, Sorted, TasksOf, Pruned;
      if retainN <= 0 && retainAge <= 0 {
        return;
      }
      var cutoff := 0;
      if retainAge > 0 {
        cutoff := now - retainAge;
      }
      var keep := MarkKept(entries, retainN, cutoff);
      entries, tasks := Compact(entries, keep, retainN, cutoff, tasks);
    }

    method Post(tenant: Tenant, p: Payload, stamp: int, ts: int, ok: bool) returns (r: Result<nat>)
      requires Valid()
      modifies this`journal, this`entries, this`tasks
      ensures Valid() && Abs() == AfterPost(old(Abs()), tenant, p, stamp, ts, ok)
      ensures r == if PostRefused(p) then Failed(BadRequest) else if !ok then Failed(AppendFailed)
                   else Ok(|old(journal)| + 1)
    {
      hide Consistent, AfterPrune, Seed;
      ghost var c := Abs();
      if p.area == "" || p.from == "" || p.text == "" {
        return Failed(BadRequest);
      }
      var body := if p.kind == "" then p.(kind := "note") else p;
      if !ok {
        return Failed(AppendFailed);
      }
      PostedConsistent(c, tenant, stamp, ts, Posted(body));
      journal := journal + [Record(tenant, stamp, Posted(body))];
      var m := Message(|journal|, tenant, ts, body);
      PostedSorted(c, m);
      entries := entries + [m];
      SeedOnlyTasks(tasks, m);
      if body.kind == "task" {
        tasks := Seed(tasks, m);
      }
      PruneAt(m.ts);
      return Ok(m.seqNo);
    }

    method PostImage(tenant: Tenant, p: Payload, stamp: int, ts: int, ok: bool) returns (r: Result<nat>)
      requires Valid()
      modifies this`journal, this`entries, this`tasks
      ensures Valid() && Abs() == AfterPostImage(old(Abs()), tenant, p, stamp, ts, ok)
      ensures r == if ImageRefused(p) then Failed(BadRequest) else if !ok then Failed(AppendFailed)
                   else Ok(|old(journal)| + 1)
    {
      hide Consistent, AfterPrune;
      ghost var c := Abs();
      if p.area == "" || p.from == "" || p.blobID == "" || p.mime == "" {
        return Failed(BadRequest);
      }
      var body := p.(kind := "image");
      if !ok {
        return Failed(AppendFailed);
      }
      PostedConsistent(c, tenant, stamp, ts, Imaged(body));
      journal := journal + [Record(tenant, stamp, Imaged(body))];
      var m := Message(|journal|, tenant, ts, body);
      PostedSorted(c, m);
      entries := entries + [m];
      PruneAt(m.ts);
      return Ok(m.seqNo);
    }

    method Clear(tenant: Tenant, area: string, stamp: int, ok: bool) returns (r: Result<nat>)
      requires Valid()
      modifies this`journal, this`entries
      ensures Valid() && Abs() == AfterClear(old(Abs()), tenant, area, stamp, ok)
      ensures r == if area == "" then Failed(BadRequest) else if !ok then Failed(AppendFailed)
                   else Ok(|old(entries)| - |entries|)
    {
      hide Consistent, Without;
      if area == "" {
        return Failed(BadRequest);
      }
      if !ok {
        return Failed(AppendFailed);
      }
      ClearedConsistent(Abs(), tenant, area, stamp);
      journal := journal + [Record(tenant, stamp, AreaCleared(area))];
      var kept := DropHits(entries, Area(tenant, area, |journal|));
      r := Ok(|entries| - |kept|);
      entries := kept;
    }

    method Pin(tenant: Tenant, blobID: string, on: bool, stamp: int, ok: bool) returns (r: Result<()>)
      requires Valid()
      modifies this`journal, this`pinned
      ensures Valid() && Abs() == AfterPin(old(Abs()), tenant, blobID, on, stamp, ok)
      ensures r == if blobID == "" then Failed(BadRequest) else if !ok then Failed(AppendFailed) else Ok(())
    {
      hide Consistent;
      if blobID == "" {
        return Failed(BadRequest);
      }
      if !ok {
        return Failed(AppendFailed);
      }
      PinConsistent(Abs(), tenant, blobID, on, stamp);
      journal := journal + [Record(tenant, stamp, BlobPinned(blobID, on))];
      var tenants := if blobID in pinned then pinned[blobID] else {};
      if on {
        pinned := pinned[blobID := tenants + {tenant}];
      } else {
        if tenants - {tenant} == {} {
          pinned := pinned - {blobID};
        } else {
          pinned := pinned[blobID := tenants - {tenant}];
        }
      }
      return Ok(());
    }

    method Claim(k: Key, agent: string, now: int, stamp: int, ok: bool) returns (r: ClaimResult)
      requires Valid()
      modifies this`journal, this`tasks
      ensures Valid() && Abs() == AfterClaim(old(Abs()), k, agent, now, stamp, ok)
      ensures r.Granted? <==> ClaimSucceeds(old(Abs()), k, agent, now, ok)
      ensures r.Granted? <==>
        && agent != "" && k in old(tasks) && ok
        && var t := old(tasks)[k];
        && t.status != Done && t.status != Cancel
        && (t.status == Pending || now > t.leaseUntil || t.holder == agent)
      ensures r.Granted? ==> k in tasks && r.t == tasks[k]
      ensures r.Granted? ==> tasks[k] == TaskState(Claimed, agent, now + leaseTTL, old(tasks)[k].deadline)
      ensures r.Denied? <==> agent != "" && k in old(tasks) && !Claimable(old(tasks)[k], agent, now)
      ensures r.Denied? ==> r.t == old(tasks)[k]
      ensures r == NoClaim(AppendFailed) <==> agent != "" && k in old(tasks) && Claimable(old(tasks)[k], agent, now) && !ok
    {
      hide Consistent;
      if agent == "" {
        return NoClaim(BadRequest);
      }
      if k !in tasks {
        return NoClaim(NotATask);
      }
      var t := tasks[k];
      var claimable := t.status == Pending ||
        ((t.status == Claimed || t.status == Overdue) && (now > t.leaseUntil || t.holder == agent));
      if !claimable {
        return Denied(t);
      }
      var lease := now + leaseTTL;
      if !ok {
        return NoClaim(AppendFailed);
      }
      StateAppend(Abs(), k, TaskState(Claimed, agent, lease, t.deadline), stamp);
      journal := journal + [Record(k.tenant, stamp, StateChanged(k.seqNo, Claimed, agent, lease))];
      tasks := tasks[k := t.(status := Claimed, holder := agent, leaseUntil := lease)];
      return Granted(tasks[k]);
    }

    method Resolve(k: Key, agent: string, state: string, stamp: int, ok: bool) returns (r: Result<()>)
      requires Valid()
      modifies this`journal, this`tasks
      ensures Valid() && Abs() == AfterResolve(old(Abs()), k, agent, state, stamp, ok)
      ensures r.Ok? <==> ResolveSucceeds(old(Abs()), k, agent, state, ok)
    {
      hide Consistent;
      if agent == "" {
        return Failed(BadRequest);
      }
      var wanted := if state == "" then "done" else state;
      if wanted != "done" && wanted != "cancel" {
        return Failed(BadRequest);
      }
      if k !in tasks {
        return Failed(NotATask);
      }
      var t := tasks[k];
      var isOwner := ownerLabel != "" && agent == ownerLabel;
      if agent != t.holder && !isOwner {
        return Failed(NotHolder);
      }
      if !ok {
        return Failed(AppendFailed);
      }
      var status := if wanted == "cancel" then Cancel else Done;
      StateAppend(Abs(), k, TaskState(status, agent, 0, t.deadline), stamp);
      journal := journal + [Record(k.tenant, stamp, StateChanged(k.seqNo, status, agent, 0))];
      tasks := tasks[k := t.(status := status, holder := agent, leaseUntil := 0)];
      return Ok(());
    }

    method SetRetention(n: int, age: int, now: int)
      requires Valid()
      modifies this`retainN, this`retainAge, this`entries, this`tasks
      ensures Valid() && Abs() == AfterPrune(old(Abs()).(retainN := n, retainAge := age), now)
    {
      hide AfterPrune, IndexMatches, TasksMatch, TasksCover, WellFormed, PinsMatch;
      assert Sorted(entries) by { SortedOf(Abs()); }
      retainN, retainAge := n, age;
      PruneConsistent(Abs(), now);
      PruneAt(now);
    }

    /** `sweepOnce`. `visits` is the order in which the task map is iterated, with the fate
        of the events that each visit may append. */
    method SweepOnce(now: int, visits: seq<Visit>) returns (nudges: seq<Message>)
      requires Valid() && Enumerates(visits, tasks.Keys)
      modifies this`journal, this`entries, this`tasks
      ensures Valid() && Abs() == AfterSweep(old(Abs()), now, visits)
      ensures nudges == Swept(old(Abs()), now, visits).nudges
    {
      hide Consistent, AfterPrune, Without, TasksOf, VisitTask, Nudge, Sorted;
      ghost var c := Abs();
      SweepConsistent(c, now, visits);
      SortedOf(c);
      var idx := BuildIndex(entries);
      nudges := [];
      assert visits[..0] == [];
      for i := 0 to |visits|
        invariant tasks.Keys == c.tasks.Keys
        invariant Visits(visits[..i], c.tasks.Keys)
        invariant Sweep(journal, tasks, nudges) == VisitAll(Sweep(c.journal, c.tasks, []), visits[..i], entries, now)
        invariant entries == c.entries && Abs() == c.(journal := journal, tasks := tasks)
      {
        assert visits[..i + 1][..i] == visits[..i];
        nudges := SweepTask(visits[i], idx, now, nudges);
      }
      assert visits[..|visits|] == visits;
      var fresh', tasks' := DropStale(entries, tasks, now);
      WithoutSorted(entries, Stale(now));
      entries, tasks := fresh', tasks';
      PruneAt(now);
    }

    /** One round of the sweeper's task loop: lease expiry, then the deadline. */
    method SweepTask(v: Visit, idx: map<Key, Message>, now: int, nudges: seq<Message>) returns (more: seq<Message>)
      requires v.key in tasks && Indexes(idx, entries) && Sorted(entries)
      modifies this`journal, this`tasks
      ensures Sweep(journal, tasks, more) == VisitTask(old(Sweep(journal, tasks, nudges)), v, entries, now)
      ensures Abs() == old(Abs()).(journal := journal, tasks := tasks)
    {
      hide Nudge;
      more := nudges;
      var t := tasks[v.key];
      NudgeFromIndex(idx, entries, v.key);
      if t.status == Claimed && now > t.leaseUntil {
        if !v.leaseOk {
          return;
        }
        journal := journal + [Record(v.key.tenant, v.stamp, StateChanged(v.key.seqNo, Pending, "", 0))];
        t := t.(status := Pending, holder := "", leaseUntil := 0);
        tasks := tasks[v.key := t];
        if v.key in idx {
          more := more + [idx[v.key]];
        }
      }
      if t.status != Done && t.status != Cancel && t.status != Overdue && t.deadline > 0 && now > t.deadline {
        if !v.deadlineOk {
          return;
        }
        journal := journal + [Record(v.key.tenant, v.stamp, StateChanged(v.key.seqNo, Overdue, t.holder, t.leaseUntil))];
        tasks := tasks[v.key := t.(status := Overdue)];
        if v.key in idx {
          more := more + [idx[v.key]];
        }
      }
    }

    /** `Read`, and `Inbox` for a target instead of an area: matching messages beyond the
        cursor, in order. */
    method Read(tenant: Tenant, area: string, since: nat) returns (out: seq<Message>)
      requires Valid()
      ensures Sorted(out)
      ensures forall m :: m in out <==> m in entries && m.tenant == tenant && m.body.area == area && m.seqNo > since
    {
      hide IndexMatches, TasksMatch, TasksCover, WellFormed, PinsMatch, Sorted;
      SortedOf(Abs());
      NothingSorted();
      out := [];
      for i := 0 to |entries|
        invariant Sorted(out)
        invariant forall m :: m in out <==> m in entries[..i] && m.tenant == tenant && m.body.area == area && m.seqNo > since
      {
        PrefixBelow(entries, i);
        assert entries[..i + 1] == entries[..i] + [entries[i]];
        if entries[i].tenant == tenant && entries[i].body.area == area && entries[i].seqNo > since {
          SortedAdd(out, entries[i]);
          out := out + [entries[i]];
        }
      }
      assert entries[..|entries|] == entries;
    }

    /** `Inbox`. */
    method Inbox(tenant: Tenant, target: string, since: nat) returns (out: seq<Message>)
      requires Valid()
      ensures Sorted(out)
      ensures forall m :: m in out <==> m in entries && m.tenant == tenant && m.body.target == target && m.seqNo > since
    {
      hide IndexMatches, TasksMatch, TasksCover, WellFormed, PinsMatch, Sorted;
      SortedOf(Abs());
      NothingSorted();
      out := [];
      for i := 0 to |entries|
        invariant Sorted(out)
        invariant forall m :: m in out <==> m in entries[..i] && m.tenant == tenant && m.body.target == target && m.seqNo > since
      {
        PrefixBelow(entries, i);
        assert entries[..i + 1] == entries[..i] + [entries[i]];
        if entries[i].tenant == tenant && entries[i].body.target == target && entries[i].seqNo > since {
          SortedAdd(out, entries[i]);
          out := out + [entries[i]];
        }
      }
      assert entries[..|entries|] == entries;
    }

    /** `LiveBlobIDs`: what blob collection must keep. */
    method LiveBlobIDs() returns (keep: set<string>)
      requires Valid()
      ensures forall b :: b in keep <==>
        (b != "" && exists m :: m in entries && m.body.blobID == b) || PinHeldByAny(journal, b)
    {
      hide IndexMatches, TasksMatch, TasksCover, WellFormed, PinHeldByAny;
      keep := {};
      for i := 0 to |entries|
        invariant forall b :: b in keep <==> b != "" && exists m :: m in entries[..i] && m.body.blobID == b
      {
        assert entries[..i + 1] == entries[..i] + [entries[i]];
        if entries[i].body.blobID != "" {
          keep := keep + {entries[i].body.blobID};
        }
      }
      assert entries[..|entries|] == entries;
      keep := keep + set b | b in pinned && |pinned[b]| > 0;
      PinnedBlobs(pinned, journal);
    }
  }

  // ---------------------------------------------------------------------------

  lemma PostedSorted(c: Channel, m: Message)
    requires Consistent(c) && m.seqNo == |c.journal| + 1
    ensures Sorted(c.entries + [m])
  {
    hide TasksMatch, TasksCover, WellFormed, PinsMatch, Live;
    SortedAdd(c.entries, m);
  }

  lemma SeedOnlyTasks(tasks: map<Key, TaskState>, m: Message)
    ensures m.body.kind != "task" ==> Seed(tasks, m) == tasks
  {
  }

  lemma PrefixBelow(es: seq<Message>, i: nat)
    requires Sorted(es) && i < |es|
    ensures forall m :: m in es[..i] ==> m.seqNo < es[i].seqNo
  {
  }

  ghost predicate PinHeldByAny(journal: seq<Record>, b: string) {
    exists t :: PinHeld(journal, b, t)
  }

  lemma PinnedBlobs(pinned: map<string, set<Tenant>>, journal: seq<Record>)
    requires PinsMatch(pinned, journal)
    ensures forall b :: (b in pinned && |pinned[b]| > 0) <==> PinHeldByAny(journal, b)
  {
    hide PinHeldByAny;
    forall b
      ensures (b in pinned && |pinned[b]| > 0) <==> PinHeldByAny(journal, b)
    {
      PinnedBlob(pinned, journal, b);
    }
  }

  lemma PinnedBlob(pinned: map<string, set<Tenant>>, journal: seq<Record>, b: string)
    requires PinsMatch(pinned, journal)
    ensures (b in pinned && |pinned[b]| > 0) <==> PinHeldByAny(journal, b)
  {
    hide PinHeld;
    if b in pinned {
      assert pinned[b] != {};
      var t :| t in pinned[b];
      assert PinHeld(journal, b, t);
    }
    if t :| PinHeld(journal, b, t) {
      assert b in pinned && t in pinned[b];
      assert |pinned[b]| == |pinned[b] - {t}| + 1;
    }
  }
}
