/** When a claim has to be granted: a lease keeps others out only while it lasts, and never
    its holder (`comms/state.go`). */
module ChannelLeases {
  import opened Channel
  import opened ChannelInvariant
  import opened ChannelRuns

  /** Exactly the claims that are granted: those of a known task that is neither done nor
      cancelled, and that nobody else holds under a live lease. */
  lemma ClaimGrantedIff(c: Channel, k: Key, agent: string, now: int, ok: bool)
    ensures ClaimSucceeds(c, k, agent, now, ok) <==>
      && agent != "" && ok && k in c.tasks
      && var t := c.tasks[k];
      && t.status != Done && t.status != Cancel
      && (t.status == Pending || now > t.leaseUntil || t.holder == agent)
  {
  }

  /** A successful resolve of the task. */
  ghost predicate Resolves(w: World, op: Op, k: Key) {
    op.Resolve? && op.k == k && ResolveSucceeds(w.c, k, op.agent, op.state, op.ok)
  }

  datatype Lease = NoLease | Lease(holder: string, until: int)

  /** The task can be claimed again: it is pending, or overdue and never held since, or held
      under this lease. */
  ghost predicate Reclaimable(t: TaskState, clock: int, lease: Lease) {
    || (t.status == Pending && t.leaseUntil == 0)
    || (t.status == Overdue && t.leaseUntil == 0 && clock > 0)
    || (lease.Lease? && (t.status == Claimed || t.status == Overdue) && t.holder == lease.holder && t.leaseUntil == lease.until)
  }

  lemma ReclaimableLater(t: TaskState, clock: int, clock': int, lease: Lease)
    requires Reclaimable(t, clock, lease) && clock <= clock'
    ensures Reclaimable(t, clock', lease)
  {
  }

  ghost predicate Sweepable(s: Sweep, k: Key, now: int, lease: Lease) {
    TasksMatch(s.journal, s.tasks) && Reclaimable(Replayed(s.journal, k, 0), now, lease)
  }

  lemma ChangedKeepsReclaimable(s: Sweep, q: Key, t: TaskState, stamp: int, es: seq<Message>, k: Key, now: int, lease: Lease)
    requires Sweepable(s, k, now, lease) && q in s.tasks
    requires (t == Freed(s.tasks[q]) && LeaseOver(s.tasks[q], now))
          || (t == s.tasks[q].(status := Overdue) && DeadlineOver(s.tasks[q], now))
    ensures Sweepable(Changed(s, q, t, stamp, es), k, now, lease)
  {
    hide TasksMatch, Nudge, Replayed;
    TaskChange(s.journal, s.tasks, q, t, stamp);
    ReplayedAppend(s.journal, Record(q.tenant, stamp, StateChanged(q.seqNo, t.status, t.holder, t.leaseUntil)), k, 0);
    InMemoryIsRecorded(s.journal, s.tasks, q);
  }

  lemma VisitKeepsReclaimable(s: Sweep, v: Visit, es: seq<Message>, k: Key, now: int, lease: Lease)
    requires Sweepable(s, k, now, lease) && v.key in s.tasks
    ensures Sweepable(VisitTask(s, v, es, now), k, now, lease)
  {
    hide Sweepable, Changed;
    var t := s.tasks[v.key];
    if LeaseOver(t, now) {
      ChangedKeepsReclaimable(s, v.key, Freed(t), v.stamp, es, k, now, lease);
      ChangedKeys(s, v.key, Freed(t), v.stamp, es);
    }
    var s1 := VisitLease(s, v, es, now);
    if v.key in s1.tasks && DeadlineOver(s1.tasks[v.key], now) && Sweepable(s1, k, now, lease) {
      ChangedKeepsReclaimable(s1, v.key, s1.tasks[v.key].(status := Overdue), v.stamp, es, k, now, lease);
    }
  }

  lemma {:induction false} SweepKeepsReclaimable(s: Sweep, visits: seq<Visit>, es: seq<Message>, k: Key, now: int, lease: Lease)
    requires Sweepable(s, k, now, lease) && Visits(visits, s.tasks.Keys)
    ensures Sweepable(VisitAll(s, visits, es, now), k, now, lease)
  {
    hide Sweepable, VisitTask;
    if visits != [] {
      var last := |visits| - 1;
      assert Visits(visits[..last], s.tasks.Keys);
      SweepKeepsReclaimable(s, visits[..last], es, k, now, lease);
      VisitKeepsReclaimable(VisitAll(s, visits[..last], es, now), visits[last], es, k, now, lease);
    }
  }

  /** Only a grant or a resolve of the task itself can make it unclaimable. */
  lemma StepKeepsReclaimable(w: World, op: Op, w': World, k: Key, lease: Lease)
    requires Consistent(w.c) && Step(w, op, w') && Reclaimable(Recorded(w.c, k), w.clock, lease)
    requires !Granted(w, op, w', k) && !Resolves(w, op, k)
    ensures Reclaimable(Recorded(w'.c, k), w'.clock, lease)
  {
    hide Replayed, TasksMatch, IndexMatches, PinsMatch, WellFormed, AfterPrune, IsRebuild, VisitAll;
    var c, now := w.c, w'.clock;
    ReclaimableLater(Recorded(c, k), w.clock, now, lease);
    if op.Claim? {
      if ClaimSucceeds(c, op.k, op.agent, now, op.ok) {
        assert Grants(w, op, w', op.k, op.agent);
        LogRecorded(c, Record(op.k.tenant, op.stamp, StateChanged(op.k.seqNo, Claimed, op.agent, now + c.leaseTTL)), k);
      }
    } else if op.Resolve? {
      if ResolveSucceeds(c, op.k, op.agent, op.state, op.ok) {
        LogRecorded(c, Record(op.k.tenant, op.stamp, StateChanged(op.k.seqNo, ResolveStatus(op.state), op.agent, 0)), k);
      }
    } else if op.SweepOnce? {
      SweepKeepsReclaimable(Sweep(c.journal, c.tasks, []), op.visits, c.entries, k, now, lease);
      SweepJournal(c, now, op.visits);
    } else {
      QuietOps(w, op, w');
      QuietRecorded(c, w'.c, k);
    }
  }

  ghost predicate Undisturbed(ws: seq<World>, ops: seq<Op>, i: nat, j: nat, k: Key)
    requires Run(ws, ops) && j <= |ops|
  {
    forall n :: i <= n < j ==> !Granted(ws[n], ops[n], ws[n + 1], k) && !Resolves(ws[n], ops[n], k)
  }

  lemma {:induction false} StaysReclaimable(ws: seq<World>, ops: seq<Op>, i: nat, j: nat, k: Key, lease: Lease)
    requires Run(ws, ops) && i <= j < |ws| && Undisturbed(ws, ops, i, j, k)
    requires Reclaimable(Recorded(ws[i].c, k), ws[i].clock, lease)
    ensures Reclaimable(Recorded(ws[j].c, k), ws[j].clock, lease)
    decreases j - i
  {
    hide Consistent, Effect, Granted, Recorded, Reclaimable, Resolves;
    if i < j {
      StaysReclaimable(ws, ops, i, j - 1, k, lease);
      AlwaysConsistent(ws, ops, j - 1);
      assert Step(ws[j - 1], ops[j - 1], ws[j - 1 + 1]);
      StepKeepsReclaimable(ws[j - 1], ops[j - 1], ws[j], k, lease);
    }
  }

  lemma ReclaimableIsGranted(w: World, op: Op, w': World, k: Key, lease: Lease)
    requires Consistent(w.c) && Step(w, op, w') && op.Claim? && op.k == k && op.agent != "" && op.ok
    requires k in w.c.tasks && Reclaimable(Recorded(w.c, k), w.clock, lease)
    requires lease.Lease? ==> w'.clock > lease.until || op.agent == lease.holder
    ensures Grants(w, op, w', k, op.agent)
  {
    hide Replayed, IndexMatches, PinsMatch, WellFormed, TasksMatch;
    InMemoryIsRecorded(w.c.journal, w.c.tasks, k);
  }

  /** Leases end: after a task is granted to `a` until L, and until it is granted again or
      resolved, every claim made after L with a working journal is granted, to anybody, and
      every claim of `a` at any time, whatever sweeps, missed deadlines, failed appends,
      clears, prunings and restarts come between, as long as the task is in memory. */
  lemma LeasesEnd(ws: seq<World>, ops: seq<Op>, i: nat, j: nat, k: Key, a: string, b: string)
    requires Run(ws, ops) && i < j < |ops|
    requires Grants(ws[i], ops[i], ws[i + 1], k, a) && Undisturbed(ws, ops, i + 1, j, k)
    requires ops[j].Claim? && ops[j].k == k && ops[j].agent == b != "" && ops[j].ok && k in ws[j].c.tasks
    requires ws[j + 1].clock > ws[i + 1].clock + ws[i].c.leaseTTL || a == b
    ensures Grants(ws[j], ops[j], ws[j + 1], k, b)
  {
    hide Replayed, Effect, Consistent, Recorded, Grants;
    var lease := Lease(a, ws[i + 1].clock + ws[i].c.leaseTTL);
    AlwaysConsistent(ws, ops, i);
    assert Step(ws[i], ops[i], ws[i + 1]);
    GrantRecorded(ws[i], ops[i], ws[i + 1], k, a);
    StaysReclaimable(ws, ops, i + 1, j, k, lease);
    AlwaysConsistent(ws, ops, j);
    assert Step(ws[j], ops[j], ws[j + 1]);
    ReclaimableIsGranted(ws[j], ops[j], ws[j + 1], k, lease);
  }

  /** A task that nobody has been granted or has resolved since it was posted can be claimed
      by anybody at any time, overdue or not. */
  lemma NewTasksAreFree(ws: seq<World>, ops: seq<Op>, i: nat, j: nat, k: Key)
    requires Run(ws, ops) && i <= j < |ops| && Undisturbed(ws, ops, i, j, k)
    requires k.seqNo > |ws[i].c.journal|
    requires ops[j].Claim? && ops[j].k == k && ops[j].agent != "" && ops[j].ok && k in ws[j].c.tasks
    ensures Grants(ws[j], ops[j], ws[j + 1], k, ops[j].agent)
  {
    hide Effect, Consistent, Recorded, Grants;
    AlwaysConsistent(ws, ops, i);
    JournalOf(ws[i].c);
    NoEventsYet(ws[i].c.journal, k, 0, |ws[i].c.journal|);
    assert ws[i].c.journal[..|ws[i].c.journal|] == ws[i].c.journal;
    PendingIsReclaimable(ws[i].c, ws[i].clock, k);
    StaysReclaimable(ws, ops, i, j, k, NoLease);
    AlwaysConsistent(ws, ops, j);
    assert Step(ws[j], ops[j], ws[j + 1]);
    ReclaimableIsGranted(ws[j], ops[j], ws[j + 1], k, NoLease);
  }

  lemma PendingIsReclaimable(c: Channel, clock: int, k: Key)
    requires Replayed(c.journal, k, 0) == TaskState(Pending, "", 0, 0)
    ensures Reclaimable(Recorded(c, k), clock, NoLease)
  {
  }
}
