/** Whole runs of the channel: any interleaving of its operations, sweeps and restarts
    under a clock that does not go back. */
module ChannelRuns {
  import opened Channel
  import opened ChannelIndex
  import opened ChannelInvariant

  /** The channel and the time of its latest operation. */
  datatype World = World(c: Channel, clock: int)

  datatype Op =
    | Post(tenant: Tenant, p: Payload, stamp: int, ts: int, ok: bool)
    | PostImage(tenant: Tenant, p: Payload, stamp: int, ts: int, ok: bool)
    | Clear(tenant: Tenant, area: string, stamp: int, ok: bool)
    | Pin(tenant: Tenant, blobID: string, on: bool, stamp: int, ok: bool)
    | Claim(k: Key, agent: string, stamp: int, ok: bool)
    | Resolve(k: Key, agent: string, state: string, stamp: int, ok: bool)
    | SweepOnce(visits: seq<Visit>)
    | SetRetention(n: int, age: int)
    | SetLeaseTTL(d: int)
    | SetOwnerLabel(owner: string)
    | AppendForeign(r: Record)
    | Restart

  /** The effect of one operation at time `now`. */
  ghost predicate Effect(c: Channel, op: Op, now: int, c': Channel) {
    match op
    case Post(tenant, p, stamp, ts, ok) => c' == AfterPost(c, tenant, p, stamp, ts, ok)
    case PostImage(tenant, p, stamp, ts, ok) => c' == AfterPostImage(c, tenant, p, stamp, ts, ok)
    case Clear(tenant, area, stamp, ok) => c' == AfterClear(c, tenant, area, stamp, ok)
    case Pin(tenant, blobID, on, stamp, ok) => c' == AfterPin(c, tenant, blobID, on, stamp, ok)
    case Claim(k, agent, stamp, ok) => c' == AfterClaim(c, k, agent, now, stamp, ok)
    case Resolve(k, agent, state, stamp, ok) => c' == AfterResolve(c, k, agent, state, stamp, ok)
    case SweepOnce(visits) => Enumerates(visits, c.tasks.Keys) && c' == AfterSweep(c, now, visits)
    case SetRetention(n, age) => c' == AfterPrune(c.(retainN := n, retainAge := age), now)
    case SetLeaseTTL(d) => c' == if d <= 0 then c else c.(leaseTTL := d)
    case SetOwnerLabel(owner) => c' == c.(ownerLabel := owner)
    case AppendForeign(r) => r.event.Foreign? && c' == c.(journal := c.journal + [r])
    case Restart => IsRebuild(c', c.journal, now)
  }

  ghost predicate Step(w: World, op: Op, w': World) {
    w.clock <= w'.clock && Effect(w.c, op, w'.clock, w'.c)
  }

  ghost predicate Run(ws: seq<World>, ops: seq<Op>) {
    && |ws| == |ops| + 1
    && Consistent(ws[0].c)
    && forall i :: 0 <= i < |ops| ==> Step(ws[i], ops[i], ws[i + 1])
  }

  // ---------------------------------------------------------------------------
  // The invariant holds throughout

  lemma StepConsistent(w: World, op: Op, w': World)
    requires Consistent(w.c) && Step(w, op, w')
    ensures Consistent(w'.c)
  {
    hide Consistent, AfterPrune, Indexed, AfterSweep, IsRebuild, Without, Logged;
    var c := w.c;
    match op {
      case Post(tenant, p, stamp, ts, ok) => PostedConsistent(c, tenant, stamp, ts, Posted(WithKind(p)));
      case PostImage(tenant, p, stamp, ts, ok) => PostedConsistent(c, tenant, stamp, ts, Imaged(p.(kind := "image")));
      case Clear(tenant, area, stamp, ok) => ClearedConsistent(c, tenant, area, stamp);
      case Pin(tenant, blobID, on, stamp, ok) => PinConsistent(c, tenant, blobID, on, stamp);
      case Claim(k, agent, stamp, ok) =>
        if ClaimSucceeds(c, k, agent, w'.clock, ok) {
          StateAppend(c, k, TaskState(Claimed, agent, w'.clock + c.leaseTTL, c.tasks[k].deadline), stamp);
        }
      case Resolve(k, agent, state, stamp, ok) =>
        if ResolveSucceeds(c, k, agent, state, ok) {
          StateAppend(c, k, TaskState(ResolveStatus(state), agent, 0, c.tasks[k].deadline), stamp);
        }
      case SweepOnce(visits) => SweepConsistent(c, w'.clock, visits);
      case SetRetention(n, age) =>
        SettingsConsistent(c, c.(retainN := n, retainAge := age));
        PruneConsistent(c.(retainN := n, retainAge := age), w'.clock);
      case SetLeaseTTL(d) => SettingsConsistent(c, w'.c);
      case SetOwnerLabel(owner) => SettingsConsistent(c, w'.c);
      case AppendForeign(r) => QuietAppend(c, r);
      case Restart =>
        assert WellFormed(c.journal) by { JournalOf(c); }
        RebuildConsistent(w'.c, c.journal, w'.clock);
    }
  }

  lemma SettingsConsistent(c: Channel, c': Channel)
    requires Consistent(c) && c'.journal == c.journal && c'.entries == c.entries
    requires c'.tasks == c.tasks && c'.pinned == c.pinned
    ensures Consistent(c')
  {
  }

  lemma JournalOf(c: Channel)
    requires Consistent(c)
    ensures WellFormed(c.journal)
  {
  }

  /** After every operation, of whatever run, each task message in the index has a task
      state, and each task state is the one that the journal's events add up to. */
  lemma {:induction false} AlwaysConsistent(ws: seq<World>, ops: seq<Op>, i: nat)
    requires Run(ws, ops) && i < |ws|
    ensures Consistent(ws[i].c)
  {
    hide Consistent, Step;
    if i > 0 {
      AlwaysConsistent(ws, ops, i - 1);
      StepConsistent(ws[i - 1], ops[i - 1], ws[i]);
    }
  }

  /** The store of a fresh journal. */
  lemma FirstStart(now: int)
    ensures IsRebuild(Channel([], [], map[], map[], 0, 0, 0, ""), [], now)
    ensures Consistent(Channel([], [], map[], map[], 0, 0, 0, ""))
  {
  }

  lemma {:induction false} ClockMonotone(ws: seq<World>, ops: seq<Op>, i: nat, j: nat)
    requires Run(ws, ops) && i <= j < |ws|
    ensures ws[i].clock <= ws[j].clock
    decreases j - i
  {
    hide Effect;
    if i < j {
      ClockMonotone(ws, ops, i, j - 1);
      assert Step(ws[j - 1], ops[j - 1], ws[j - 1 + 1]);
    }
  }

  // ---------------------------------------------------------------------------
  // What one operation does to the recorded state of one task

  function Recorded(c: Channel, k: Key): TaskState {
    Replayed(c.journal, k, 0)
  }

  lemma {:induction false} ReplayedAnyDeadline(j: seq<Record>, k: Key, d: int, d': int)
    ensures Replayed(j, k, d').(deadline := d) == Replayed(j, k, d)
  {
    if j != [] {
      ReplayedAnyDeadline(j[..|j| - 1], k, d, d');
    }
  }

  /** A task state in memory is the recorded one. */
  lemma InMemoryIsRecorded(j: seq<Record>, tasks: map<Key, TaskState>, k: Key)
    requires TasksMatch(j, tasks) && k in tasks
    ensures Replayed(j, k, 0) == tasks[k].(deadline := 0)
  {
    hide Replayed;
    ReplayedAnyDeadline(j, k, 0, j[k.seqNo - 1].event.p.deadline);
  }


  ghost predicate Grants(w: World, op: Op, w': World, k: Key, agent: string) {
    op.Claim? && op.k == k && op.agent == agent && ClaimSucceeds(w.c, k, agent, w'.clock, op.ok)
  }

  ghost predicate Granted(w: World, op: Op, w': World, k: Key) {
    exists agent :: Grants(w, op, w', k, agent)
  }

  ghost predicate Safe(t: TaskState, clock: int, agent: string, until: int) {
    || Terminal(t.status)
    || ((t.status == Claimed || t.status == Overdue) && t.holder == agent && t.leaseUntil == until)
    || clock > until
  }

  lemma LogRecorded(c: Channel, r: Record, k: Key)
    ensures Replayed(c.journal + [r], k, 0) ==
            if ChangesTask(r, k) then TaskState(r.event.status, r.event.agent, r.event.leaseUntil, 0)
            else Recorded(c, k)
  {
    ReplayedAppend(c.journal, r, k, 0);
  }

  lemma QuietRecorded(c: Channel, c': Channel, k: Key)
    requires c'.journal == c.journal || exists r :: c'.journal == c.journal + [r] && !r.event.StateChanged?
    ensures Recorded(c', k) == Recorded(c, k)
  {
    hide Replayed;
    if c'.journal != c.journal {
      var r :| c'.journal == c.journal + [r] && !r.event.StateChanged?;
      LogRecorded(c, r, k);
    }
  }

  /** Operations that write no state event. */
  lemma QuietOps(w: World, op: Op, w': World)
    requires Step(w, op, w')
    requires !op.Claim? && !op.Resolve? && !op.SweepOnce?
    ensures w'.c.journal == w.c.journal || exists r :: w'.c.journal == w.c.journal + [r] && !r.event.StateChanged?
  {
    hide IsRebuild, Pruned, TasksOf, Without, Seed, Pinned;
    var j := w.c.journal;
    match op {
      case Post(tenant, p, stamp, ts, ok) =>
        assert PostRefused(p) || !ok || w'.c.journal == j + [Record(tenant, stamp, Posted(WithKind(p)))];
      case PostImage(tenant, p, stamp, ts, ok) =>
        assert ImageRefused(p) || !ok || w'.c.journal == j + [Record(tenant, stamp, Imaged(p.(kind := "image")))];
      case Clear(tenant, area, stamp, ok) =>
        assert area == "" || !ok || w'.c.journal == j + [Record(tenant, stamp, AreaCleared(area))];
      case Pin(tenant, blobID, on, stamp, ok) =>
        assert blobID == "" || !ok || w'.c.journal == j + [Record(tenant, stamp, BlobPinned(blobID, on))];
      case AppendForeign(r) =>
        assert w'.c.journal == j + [r];
      case Restart =>
        RebuildJournal(w'.c, j, w'.clock);
      case _ =>
    }
  }

  lemma RebuildJournal(c: Channel, journal: seq<Record>, now: int)
    requires IsRebuild(c, journal, now)
    ensures c.journal == journal
  {
  }

  // ---------------------------------------------------------------------------
  // Sweeping, one task at a time

  ghost predicate SweepInv(s: Sweep, k: Key, now: int, agent: string, until: int, clock: int) {
    && TasksMatch(s.journal, s.tasks)
    && (Safe(Replayed(s.journal, k, 0), clock, agent, until))
    && clock <= now
  }

  lemma ChangedKeepsSafe(s: Sweep, q: Key, t: TaskState, stamp: int, es: seq<Message>, k: Key, now: int, agent: string, until: int)
    requires SweepInv(s, k, now, agent, until, now) && q in s.tasks
    requires (t == Freed(s.tasks[q]) && LeaseOver(s.tasks[q], now))
          || (t == s.tasks[q].(status := Overdue) && DeadlineOver(s.tasks[q], now))
    ensures SweepInv(Changed(s, q, t, stamp, es), k, now, agent, until, now)
  {
    hide TasksMatch, Nudge, Replayed;
    TaskChange(s.journal, s.tasks, q, t, stamp);
    ReplayedAppend(s.journal, Record(q.tenant, stamp, StateChanged(q.seqNo, t.status, t.holder, t.leaseUntil)), k, 0);
    InMemoryIsRecorded(s.journal, s.tasks, q);
  }

  lemma VisitKeepsSafe(s: Sweep, v: Visit, es: seq<Message>, k: Key, now: int, agent: string, until: int)
    requires SweepInv(s, k, now, agent, until, now) && v.key in s.tasks
    ensures SweepInv(VisitTask(s, v, es, now), k, now, agent, until, now)
  {
    hide SweepInv, Changed;
    var t := s.tasks[v.key];
    if LeaseOver(t, now) {
      ChangedKeepsSafe(s, v.key, Freed(t), v.stamp, es, k, now, agent, until);
      ChangedKeys(s, v.key, Freed(t), v.stamp, es);
    }
    var s1 := VisitLease(s, v, es, now);
    if v.key in s1.tasks && DeadlineOver(s1.tasks[v.key], now) && SweepInv(s1, k, now, agent, until, now) {
      ChangedKeepsSafe(s1, v.key, s1.tasks[v.key].(status := Overdue), v.stamp, es, k, now, agent, until);
    }
  }

  lemma {:induction false} SweepKeepsSafe(s: Sweep, visits: seq<Visit>, es: seq<Message>, k: Key, now: int, agent: string, until: int)
    requires SweepInv(s, k, now, agent, until, now) && Visits(visits, s.tasks.Keys)
    ensures SweepInv(VisitAll(s, visits, es, now), k, now, agent, until, now)
  {
    hide SweepInv, VisitTask;
    if visits != [] {
      var last := |visits| - 1;
      assert Visits(visits[..last], s.tasks.Keys);
      SweepKeepsSafe(s, visits[..last], es, k, now, agent, until);
      VisitKeepsSafe(VisitAll(s, visits[..last], es, now), visits[last], es, k, now, agent, until);
    }
  }

  // ---------------------------------------------------------------------------
  // Leases

  lemma SafeLater(t: TaskState, clock: int, clock': int, agent: string, until: int)
    requires Safe(t, clock, agent, until) && clock <= clock'
    ensures Safe(t, clock', agent, until)
  {
  }

  /** The recorded state of a granted task stays safe through every operation but a new
      grant to the same agent. */
  lemma StepKeepsSafe(w: World, op: Op, w': World, k: Key, agent: string, until: int)
    requires Consistent(w.c) && Step(w, op, w')
    requires Safe(Recorded(w.c, k), w.clock, agent, until)
    requires !Grants(w, op, w', k, agent)
    ensures Safe(Recorded(w'.c, k), w'.clock, agent, until)
  {
    hide Replayed, TasksMatch, IndexMatches, PinsMatch, WellFormed, AfterPrune, IsRebuild, VisitAll;
    var c, now := w.c, w'.clock;
    SafeLater(Recorded(c, k), w.clock, now, agent, until);
    if op.Claim? {
      if ClaimSucceeds(c, op.k, op.agent, now, op.ok) {
        LogRecorded(c, Record(op.k.tenant, op.stamp, StateChanged(op.k.seqNo, Claimed, op.agent, now + c.leaseTTL)), k);
        InMemoryIsRecorded(c.journal, c.tasks, op.k);
      }
    } else if op.Resolve? {
      if ResolveSucceeds(c, op.k, op.agent, op.state, op.ok) {
        LogRecorded(c, Record(op.k.tenant, op.stamp, StateChanged(op.k.seqNo, ResolveStatus(op.state), op.agent, 0)), k);
      }
    } else if op.SweepOnce? {
      SweepKeepsSafe(Sweep(c.journal, c.tasks, []), op.visits, c.entries, k, now, agent, until);
      SweepJournal(c, now, op.visits);
    } else {
      QuietOps(w, op, w');
      QuietRecorded(c, w'.c, k);
    }
  }

  lemma SweepJournal(c: Channel, now: int, visits: seq<Visit>)
    requires Visits(visits, c.tasks.Keys)
    ensures AfterSweep(c, now, visits).journal == Swept(c, now, visits).journal
  {
    hide VisitAll, Pruned, TasksOf, Without;
  }

  lemma GrantRecorded(w: World, op: Op, w': World, k: Key, agent: string)
    requires Consistent(w.c) && Step(w, op, w') && Grants(w, op, w', k, agent)
    ensures Recorded(w'.c, k) == TaskState(Claimed, agent, w'.clock + w.c.leaseTTL, 0)
  {
    hide Replayed, Consistent;
    LogRecorded(w.c, Record(k.tenant, op.stamp, StateChanged(k.seqNo, Claimed, agent, w'.clock + w.c.leaseTTL)), k);
  }

  lemma {:induction false} SafeUntil(ws: seq<World>, ops: seq<Op>, i: nat, j: nat, k: Key, agent: string)
    requires Run(ws, ops) && i < j < |ws|
    requires Grants(ws[i], ops[i], ws[i + 1], k, agent)
    requires forall n :: i < n < j ==> !Grants(ws[n], ops[n], ws[n + 1], k, agent)
    ensures Safe(Recorded(ws[j].c, k), ws[j].clock, agent, ws[i + 1].clock + ws[i].c.leaseTTL)
    decreases j - i
  {
    hide Consistent, Effect, Grants, Recorded;
    AlwaysConsistent(ws, ops, j - 1);
    assert Step(ws[j - 1], ops[j - 1], ws[j - 1 + 1]);
    if i + 1 == j {
      GrantRecorded(ws[i], ops[i], ws[j], k, agent);
    } else {
      SafeUntil(ws, ops, i, j - 1, k, agent);
      StepKeepsSafe(ws[j - 1], ops[j - 1], ws[j], k, agent, ws[i + 1].clock + ws[i].c.leaseTTL);
    }
  }

  /** Lease safety: after a task is granted to `a` until L, and until it is granted to `a`
      again, it is granted to nobody else at a time up to L, whatever sweeps, failed
      appends, clears, prunings and restarts come between. */
  lemma LeaseSafety(ws: seq<World>, ops: seq<Op>, i: nat, j: nat, k: Key, a: string, b: string)
    requires Run(ws, ops) && i < j < |ops| && a != b
    requires Grants(ws[i], ops[i], ws[i + 1], k, a)
    requires forall n :: i < n < j ==> !Grants(ws[n], ops[n], ws[n + 1], k, a)
    requires Grants(ws[j], ops[j], ws[j + 1], k, b)
    ensures ws[j + 1].clock > ws[i + 1].clock + ws[i].c.leaseTTL
  {
    hide Replayed, Effect, IndexMatches, PinsMatch, WellFormed, TasksMatch;
    SafeUntil(ws, ops, i, j, k, a);
    AlwaysConsistent(ws, ops, j);
    assert Step(ws[j], ops[j], ws[j + 1]);
    InMemoryIsRecorded(ws[j].c.journal, ws[j].c.tasks, k);
  }

  // ---------------------------------------------------------------------------
  // Closed tasks

  /** A closed task is safe for every agent, so no grant can follow; the same argument as
      for leases, with the status alone. */
  lemma StepKeepsClosed(w: World, op: Op, w': World, k: Key)
    requires Consistent(w.c) && Step(w, op, w') && Terminal(Recorded(w.c, k).status)
    ensures Terminal(Recorded(w'.c, k).status)
    ensures !Granted(w, op, w', k)
  {
    hide Replayed, TasksMatch, IndexMatches, PinsMatch, WellFormed, AfterPrune, IsRebuild, VisitAll;
    var c, now := w.c, w'.clock;
    if op.Claim? {
      if ClaimSucceeds(c, op.k, op.agent, now, op.ok) {
        LogRecorded(c, Record(op.k.tenant, op.stamp, StateChanged(op.k.seqNo, Claimed, op.agent, now + c.leaseTTL)), k);
        InMemoryIsRecorded(c.journal, c.tasks, op.k);
      }
    } else if op.Resolve? {
      if ResolveSucceeds(c, op.k, op.agent, op.state, op.ok) {
        LogRecorded(c, Record(op.k.tenant, op.stamp, StateChanged(op.k.seqNo, ResolveStatus(op.state), op.agent, 0)), k);
      }
    } else if op.SweepOnce? {
      SweepKeepsClosed(Sweep(c.journal, c.tasks, []), op.visits, c.entries, k, now);
      SweepJournal(c, now, op.visits);
    } else {
      QuietOps(w, op, w');
      QuietRecorded(c, w'.c, k);
    }
  }

  ghost predicate Closed(s: Sweep, k: Key) {
    TasksMatch(s.journal, s.tasks) && Terminal(Replayed(s.journal, k, 0).status)
  }

  lemma ChangedKeepsClosed(s: Sweep, q: Key, t: TaskState, stamp: int, es: seq<Message>, k: Key)
    requires Closed(s, k) && q in s.tasks && !Terminal(s.tasks[q].status) && t.deadline == s.tasks[q].deadline
    ensures Closed(Changed(s, q, t, stamp, es), k)
  {
    hide TasksMatch, Nudge, Replayed;
    TaskChange(s.journal, s.tasks, q, t, stamp);
    ReplayedAppend(s.journal, Record(q.tenant, stamp, StateChanged(q.seqNo, t.status, t.holder, t.leaseUntil)), k, 0);
    InMemoryIsRecorded(s.journal, s.tasks, q);
  }

  lemma {:induction false} SweepKeepsClosed(s: Sweep, visits: seq<Visit>, es: seq<Message>, k: Key, now: int)
    requires Closed(s, k) && Visits(visits, s.tasks.Keys)
    ensures Closed(VisitAll(s, visits, es, now), k)
  {
    hide Closed, Changed;
    if visits != [] {
      var last := |visits| - 1;
      assert Visits(visits[..last], s.tasks.Keys);
      SweepKeepsClosed(s, visits[..last], es, k, now);
      var s0, v := VisitAll(s, visits[..last], es, now), visits[last];
      var t := s0.tasks[v.key];
      if LeaseOver(t, now) {
        ChangedKeepsClosed(s0, v.key, Freed(t), v.stamp, es, k);
        ChangedKeys(s0, v.key, Freed(t), v.stamp, es);
      }
      var s1 := VisitLease(s0, v, es, now);
      if DeadlineOver(s1.tasks[v.key], now) {
        ChangedKeepsClosed(s1, v.key, s1.tasks[v.key].(status := Overdue), v.stamp, es, k);
      }
    }
  }

  lemma {:induction false} ClosedStays(ws: seq<World>, ops: seq<Op>, i: nat, j: nat, k: Key)
    requires Run(ws, ops) && i <= j < |ws| && Terminal(Recorded(ws[i].c, k).status)
    ensures Terminal(Recorded(ws[j].c, k).status)
    decreases j - i
  {
    hide Consistent, Effect, Grants, Recorded;
    if i < j {
      ClosedStays(ws, ops, i, j - 1, k);
      AlwaysConsistent(ws, ops, j - 1);
      assert Step(ws[j - 1], ops[j - 1], ws[j - 1 + 1]);
      StepKeepsClosed(ws[j - 1], ops[j - 1], ws[j], k);
    }
  }

  /** Once a task is done or cancelled, in memory or in the journal, no claim on it ever
      succeeds again, and all that can happen to it is to be resolved anew. */
  lemma ClosedForever(ws: seq<World>, ops: seq<Op>, i: nat, j: nat, k: Key)
    requires Run(ws, ops) && i <= j < |ops|
    requires k in ws[i].c.tasks && Terminal(ws[i].c.tasks[k].status)
    ensures !Granted(ws[j], ops[j], ws[j + 1], k)
    ensures k in ws[j].c.tasks ==> Terminal(ws[j].c.tasks[k].status)
  {
    hide Effect, IndexMatches, PinsMatch, WellFormed, TasksMatch, Replayed, Grants;
    AlwaysConsistent(ws, ops, i);
    InMemoryIsRecorded(ws[i].c.journal, ws[i].c.tasks, k);
    ClosedStays(ws, ops, i, j, k);
    AlwaysConsistent(ws, ops, j);
    assert Step(ws[j], ops[j], ws[j + 1]);
    StepKeepsClosed(ws[j], ops[j], ws[j + 1], k);
    if k in ws[j].c.tasks {
      InMemoryIsRecorded(ws[j].c.journal, ws[j].c.tasks, k);
    }
  }
}
