/** Rebuilding the channel from its journal gives back the live channel. */
module ChannelRebuild {
  import opened Channel
  import opened ChannelIndex
  import opened ChannelInvariant
  import opened ChannelRuns

  predicate RetentionOff(c: Channel) {
    c.retainN <= 0 && c.retainAge <= 0
  }

  /** Every message that nothing has cleared and that has not expired is in the index. */
  ghost predicate Full(j: seq<Record>, es: seq<Message>, clock: int) {
    forall i :: 0 <= i < |j| && Live(j, i) && !ExpiredAt(j[i].event.p, clock) ==> Listed(es, i + 1)
  }

  // ---------------------------------------------------------------------------
  // The index stays full while retention is off

  lemma FullLater(j: seq<Record>, es: seq<Message>, clock: int, clock': int)
    requires Full(j, es, clock) && clock <= clock'
    ensures Full(j, es, clock')
  {
    hide Live, Listed;
  }

  lemma FullAppend(j: seq<Record>, r: Record, es: seq<Message>, clock: int)
    requires Full(j, es, clock) && !IsMessage(r)
    ensures Full(j + [r], es, clock)
  {
    hide IsCleared, Listed;
    var j' := j + [r];
    forall i | 0 <= i < |j'| && Live(j', i) && !ExpiredAt(j'[i].event.p, clock)
      ensures Listed(es, i + 1)
    {
      if i < |j| {
        assert j'[i] == j[i];
        LiveAppend(j, r, i);
      }
    }
  }

  lemma FullPost(j: seq<Record>, r: Record, es: seq<Message>, m: Message, clock: int)
    requires Full(j, es, clock) && IsMessage(r) && m.seqNo == |j| + 1
    ensures Full(j + [r], es + [m], clock)
  {
    hide IsCleared;
    var j' := j + [r];
    forall i | 0 <= i < |j'| && Live(j', i) && !ExpiredAt(j'[i].event.p, clock)
      ensures Listed(es + [m], i + 1)
    {
      if i < |j| {
        assert j'[i] == j[i];
        LiveAppend(j, r, i);
        var x :| x in es && x.seqNo == i + 1;
        assert x in es + [m];
      } else {
        assert m in es + [m];
      }
    }
  }

  lemma FullWithout(j: seq<Record>, es: seq<Message>, cut: Cut, clock: int)
    requires Full(j, es, clock)
    requires forall m :: m in es && Hits(cut, m) ==>
      FromRecord(j, m) && (!Live(j, m.seqNo - 1) || ExpiredAt(m.body, clock))
    ensures Full(j, Without(es, cut), clock)
  {
    hide IsCleared, Hits, Without;
    WithoutMembers(es, cut);
    forall i | 0 <= i < |j| && Live(j, i) && !ExpiredAt(j[i].event.p, clock)
      ensures Listed(Without(es, cut), i + 1)
    {
      var m :| m in es && m.seqNo == i + 1;
      assert m in Without(es, cut);
    }
  }

  lemma ClearFull(c: Channel, tenant: Tenant, area: string, stamp: int, clock: int)
    requires Consistent(c) && Full(c.journal, c.entries, clock)
    ensures Full(c.journal + [Record(tenant, stamp, AreaCleared(area))],
                 Without(c.entries, Area(tenant, area, |c.journal| + 1)), clock)
  {
    hide Full, Live, Without, Sorted;
    var r := Record(tenant, stamp, AreaCleared(area));
    var cut := Area(tenant, area, |c.journal| + 1);
    var j' := c.journal + [r];
    FullAppend(c.journal, r, c.entries, clock);
    forall m | m in c.entries && Hits(cut, m)
      ensures FromRecord(j', m) && !Live(j', m.seqNo - 1)
    {
      assert ClearsMessage(r, c.journal[m.seqNo - 1]);
      LiveAppend(c.journal, r, m.seqNo - 1);
    }
    FullWithout(j', c.entries, cut, clock);
  }

  lemma {:induction false} VisitAllFull(s: Sweep, visits: seq<Visit>, es: seq<Message>, now: int, clock: int)
    requires Visits(visits, s.tasks.Keys) && Full(s.journal, es, clock)
    ensures Full(VisitAll(s, visits, es, now).journal, es, clock)
    ensures |s.journal| <= |VisitAll(s, visits, es, now).journal|
    ensures VisitAll(s, visits, es, now).journal[..|s.journal|] == s.journal
  {
    hide Full, Nudge;
    if visits != [] {
      var last := |visits| - 1;
      assert Visits(visits[..last], s.tasks.Keys);
      VisitAllFull(s, visits[..last], es, now, clock);
      var s0, v := VisitAll(s, visits[..last], es, now), visits[last];
      var t := s0.tasks[v.key];
      ChangedFull(s0, v.key, Freed(t), v.stamp, es, clock);
      var s1 := VisitLease(s0, v, es, now);
      ChangedFull(s1, v.key, s1.tasks[v.key].(status := Overdue), v.stamp, es, clock);
    }
  }

  lemma ChangedFull(s: Sweep, k: Key, t: TaskState, stamp: int, es: seq<Message>, clock: int)
    requires Full(s.journal, es, clock)
    ensures Full(Changed(s, k, t, stamp, es).journal, es, clock)
    ensures Changed(s, k, t, stamp, es).journal[..|s.journal|] == s.journal
  {
    hide Full;
    FullAppend(s.journal, Record(k.tenant, stamp, StateChanged(k.seqNo, t.status, t.holder, t.leaseUntil)), es, clock);
  }

  lemma SweepFull(c: Channel, now: int, visits: seq<Visit>)
    requires Consistent(c) && Visits(visits, c.tasks.Keys) && Full(c.journal, c.entries, now)
    ensures Full(Swept(c, now, visits).journal, Without(c.entries, Stale(now)), now)
  {
    hide Full, Live, Without, Sorted, VisitAll;
    VisitAllFull(Sweep(c.journal, c.tasks, []), visits, c.entries, now, now);
    var j' := Swept(c, now, visits).journal;
    forall m | m in c.entries
      ensures FromRecord(j', m)
    {
      assert c.journal[m.seqNo - 1] == j'[..|c.journal|][m.seqNo - 1];
    }
    FullWithout(j', c.entries, Stale(now), now);
  }

  lemma StepFull(w: World, op: Op, w': World)
    requires Consistent(w.c) && Step(w, op, w') && RetentionOff(w.c) && RetentionOff(w'.c)
    requires Full(w.c.journal, w.c.entries, w.clock)
    ensures Full(w'.c.journal, w'.c.entries, w'.clock)
  {
    hide Full, Consistent, Without, VisitAll, TasksOf, Seed, IsRebuild, Pinned;
    var c, now := w.c, w'.clock;
    FullLater(c.journal, c.entries, w.clock, now);
    match op {
      case Post(tenant, p, stamp, ts, ok) =>
        if !PostRefused(p) && ok {
          FullPost(c.journal, Record(tenant, stamp, Posted(WithKind(p))), c.entries,
                   Message(|c.journal| + 1, tenant, ts, WithKind(p)), now);
        }
      case PostImage(tenant, p, stamp, ts, ok) =>
        var p' := p.(kind := "image");
        if !ImageRefused(p) && ok {
          FullPost(c.journal, Record(tenant, stamp, Imaged(p')), c.entries,
                   Message(|c.journal| + 1, tenant, ts, p'), now);
        }
      case Clear(tenant, area, stamp, ok) => ClearFull(c, tenant, area, stamp, now);
      case Pin(tenant, blobID, on, stamp, ok) =>
        FullAppend(c.journal, Record(tenant, stamp, BlobPinned(blobID, on)), c.entries, now);
      case Claim(k, agent, stamp, ok) =>
        FullAppend(c.journal, Record(k.tenant, stamp, StateChanged(k.seqNo, Claimed, agent, now + c.leaseTTL)), c.entries, now);
      case Resolve(k, agent, state, stamp, ok) =>
        FullAppend(c.journal, Record(k.tenant, stamp, StateChanged(k.seqNo, ResolveStatus(state), agent, 0)), c.entries, now);
      case SweepOnce(visits) => SweepFull(c, now, visits);
      case AppendForeign(r) => FullAppend(c.journal, r, c.entries, now);
      case Restart => RebuildFull(w'.c, c.journal, now);
      case _ =>
    }
  }

  lemma RebuildFull(r: Channel, journal: seq<Record>, now: int)
    requires IsRebuild(r, journal, now)
    ensures r.journal == journal && Full(journal, r.entries, now)
  {
    hide Live, Listed, Sorted, PinsMatch, Replayed, FromRecord;
  }

  ghost predicate RunWithoutRetention(ws: seq<World>, ops: seq<Op>) {
    && Run(ws, ops)
    && Full(ws[0].c.journal, ws[0].c.entries, ws[0].clock)
    && forall i :: 0 <= i < |ws| ==> RetentionOff(ws[i].c)
  }

  lemma {:induction false} AlwaysFull(ws: seq<World>, ops: seq<Op>, i: nat)
    requires RunWithoutRetention(ws, ops) && i < |ws|
    ensures Full(ws[i].c.journal, ws[i].c.entries, ws[i].clock)
  {
    hide Full, Effect, Consistent;
    if i > 0 {
      AlwaysFull(ws, ops, i - 1);
      AlwaysConsistent(ws, ops, i - 1);
      StepFull(ws[i - 1], ops[i - 1], ws[i]);
    }
  }

  // ---------------------------------------------------------------------------
  // Live and rebuilt

  /** The live entry's time is taken after the journal's, so it is left out of account. */
  function Untimed(m: Message): Message {
    m.(ts := 0)
  }

  function Surviving(c: Channel, now: int): seq<Message> {
    Without(c.entries, Stale(now))
  }

  lemma SameRecord(j: seq<Record>, a: Message, b: Message)
    requires FromRecord(j, a) && FromRecord(j, b) && a.seqNo == b.seqNo
    ensures Untimed(a) == Untimed(b)
  {
  }

  /** Of the unexpired messages in memory, a rebuild loses none, with or without
      retention. */
  lemma RebuildKeepsLive(c: Channel, r: Channel, now: int, s: nat)
    requires Consistent(c) && IsRebuild(r, c.journal, now) && Listed(Surviving(c, now), s)
    ensures Listed(r.entries, s)
  {
    hide Live, Sorted, PinsMatch, Replayed, Without, TasksMatch, WellFormed;
    WithoutMembers(c.entries, Stale(now));
    var m :| m in Surviving(c, now) && m.seqNo == s;
    assert FromRecord(c.journal, m) && Live(c.journal, s - 1);
    assert Listed(r.entries, s - 1 + 1);
  }

  lemma RebuildAddsNothing(c: Channel, r: Channel, now: int, s: nat)
    requires Consistent(c) && IsRebuild(r, c.journal, now) && Full(c.journal, c.entries, now) && Listed(r.entries, s)
    ensures Listed(Surviving(c, now), s)
  {
    hide Live, Sorted, PinsMatch, Replayed, Without, TasksMatch, WellFormed;
    WithoutMembers(c.entries, Stale(now));
    var m :| m in r.entries && m.seqNo == s;
    assert FromRecord(c.journal, m);
    assert Listed(r.entries, s - 1 + 1);
    assert Listed(c.entries, s - 1 + 1);
    var x :| x in c.entries && x.seqNo == s;
    SameRecord(c.journal, x, m);
    assert !ExpiredAt(x.body, now);
  }

  /** The same index, in the same order. */
  lemma RebuiltIndex(c: Channel, r: Channel, now: int)
    requires Consistent(c) && IsRebuild(r, c.journal, now) && Full(c.journal, c.entries, now)
    ensures |r.entries| == |Surviving(c, now)|
    ensures forall i :: 0 <= i < |r.entries| ==> Untimed(r.entries[i]) == Untimed(Surviving(c, now)[i])
  {
    hide Consistent, IsRebuild, Full, FromRecord, Sorted, Listed;
    var live := Surviving(c, now);
    IndexOf(c);
    IndexOfRebuild(r, c.journal, now);
    WithoutSorted(c.entries, Stale(now));
    WithoutMembers(c.entries, Stale(now));
    forall s: nat
      ensures Listed(r.entries, s) <==> Listed(live, s)
    {
      if Listed(live, s) {
        RebuildKeepsLive(c, r, now, s);
      }
      if Listed(r.entries, s) {
        RebuildAddsNothing(c, r, now, s);
      }
    }
    SortedUnique(r.entries, live);
    forall i | 0 <= i < |r.entries|
      ensures Untimed(r.entries[i]) == Untimed(live[i])
    {
      assert live[i] in live && r.entries[i] in r.entries;
      SameRecord(c.journal, r.entries[i], live[i]);
    }
  }

  lemma IndexOf(c: Channel)
    requires Consistent(c)
    ensures Sorted(c.entries)
    ensures forall m :: m in c.entries ==> FromRecord(c.journal, m)
  {
  }

  lemma IndexOfRebuild(r: Channel, journal: seq<Record>, now: int)
    requires IsRebuild(r, journal, now)
    ensures Sorted(r.entries)
    ensures forall m :: m in r.entries ==> FromRecord(journal, m)
  {
  }

  lemma PinsUnique(a: map<string, set<Tenant>>, b: map<string, set<Tenant>>, j: seq<Record>)
    requires PinsMatch(a, j) && PinsMatch(b, j)
    ensures a == b
  {
    hide PinHeld;
    assert a.Keys == b.Keys by {
      forall blob
        ensures blob in a <==> blob in b
      {
        if blob in a {
          var t :| t in a[blob];
          assert PinHeld(j, blob, t);
        }
        if blob in b {
          var t :| t in b[blob];
          assert PinHeld(j, blob, t);
        }
      }
    }
    forall blob | blob in a
      ensures a[blob] == b[blob]
    {
      forall t
        ensures t in a[blob] <==> t in b[blob]
      {
        assert (blob in a && t in a[blob]) <==> PinHeld(j, blob, t);
      }
    }
  }

  /** The task states after a rebuild are those of memory, for exactly the tasks whose
      message is still indexed. What a clear left behind is gone. */
  lemma RebuiltTasks(c: Channel, r: Channel, now: int)
    requires Consistent(c) && IsRebuild(r, c.journal, now) && Full(c.journal, c.entries, now)
    ensures forall k :: k in r.tasks <==> k in c.tasks && k in Keys(Surviving(c, now))
    ensures forall k :: k in r.tasks ==> r.tasks[k] == c.tasks[k]
  {
    hide Consistent, IsRebuild, Full, Live, Without, Sorted, Replayed;
    var live := Surviving(c, now);
    WithoutMembers(c.entries, Stale(now));
    RebuiltIndex(c, r, now);
    forall k
      ensures k in r.tasks <==> k in c.tasks && k in Keys(live)
      ensures k in r.tasks ==> r.tasks[k] == c.tasks[k]
    {
      if k in r.tasks {
        var i := TaskMessage(c, r, now, k);
        assert live[i] in live && KeyOf(live[i]) == k;
        CoveredTask(c, live[i]);
        TaskOfRebuild(r, c.journal, now, r.entries[i]);
      }
      if k in c.tasks && k in Keys(live) {
        var m :| m in live && KeyOf(m) == k;
        var i :| 0 <= i < |live| && live[i] == m;
        KindOfTask(c, m);
        assert r.entries[i] in r.entries && Untimed(r.entries[i]) == Untimed(m);
        TaskOfRebuild(r, c.journal, now, r.entries[i]);
      }
    }
  }

  lemma TaskMessage(c: Channel, r: Channel, now: int, k: Key) returns (i: nat)
    requires IsRebuild(r, c.journal, now) && k in r.tasks
    ensures i < |r.entries| && r.entries[i].body.kind == "task" && KeyOf(r.entries[i]) == k
  {
    hide Live, Sorted, Replayed, PinsMatch, FromRecord;
    var m :| m in r.entries && m.body.kind == "task" && KeyOf(m) == k;
    i :| 0 <= i < |r.entries| && r.entries[i] == m;
  }

  lemma TaskOfRebuild(r: Channel, journal: seq<Record>, now: int, m: Message)
    requires IsRebuild(r, journal, now) && m in r.entries && m.body.kind == "task"
    ensures KeyOf(m) in r.tasks && r.tasks[KeyOf(m)] == Replayed(journal, KeyOf(m), m.body.deadline)
  {
    hide Live, Sorted, Replayed, PinsMatch, FromRecord;
  }

  lemma CoveredTask(c: Channel, m: Message)
    requires Consistent(c) && m in c.entries && m.body.kind == "task"
    ensures KeyOf(m) in c.tasks && c.tasks[KeyOf(m)] == Replayed(c.journal, KeyOf(m), m.body.deadline)
  {
    hide Live, Sorted, Replayed, PinsMatch, WellFormed;
  }

  lemma KindOfTask(c: Channel, m: Message)
    requires Consistent(c) && m in c.entries && KeyOf(m) in c.tasks
    ensures m.body.kind == "task"
    ensures c.tasks[KeyOf(m)] == Replayed(c.journal, KeyOf(m), m.body.deadline)
  {
    hide Live, Sorted, Replayed, PinsMatch, WellFormed;
  }

  /** A restart at any point of a run without retention yields the live store: the
      unexpired messages of its index in the same order, its pins, and the states of the
      tasks that are still indexed. */
  lemma RebuildRefinesLive(ws: seq<World>, ops: seq<Op>, i: nat, r: Channel, now: int)
    requires RunWithoutRetention(ws, ops) && i < |ws| && ws[i].clock <= now
    requires IsRebuild(r, ws[i].c.journal, now)
    ensures var c := ws[i].c; var live := Surviving(c, now);
      && |r.entries| == |live|
      && (forall n :: 0 <= n < |live| ==> Untimed(r.entries[n]) == Untimed(live[n]))
      && r.pinned == c.pinned
      && (forall k :: k in r.tasks <==> k in c.tasks && k in Keys(live))
      && (forall k :: k in r.tasks ==> r.tasks[k] == c.tasks[k])
  {
    hide Full, Effect, IndexMatches, TasksMatch, TasksCover, WellFormed, Listed, Sorted, Replayed, FromRecord, Live, Without;
    var c := ws[i].c;
    AlwaysConsistent(ws, ops, i);
    AlwaysFull(ws, ops, i);
    FullLater(c.journal, c.entries, ws[i].clock, now);
    RebuiltIndex(c, r, now);
    RebuiltTasks(c, r, now);
    PinsUnique(r.pinned, c.pinned, c.journal);
  }
}
