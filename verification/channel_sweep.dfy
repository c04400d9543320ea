/** The sweeper does not depend on the order in which it meets the tasks, and once it has
    run there is nothing left for it to do at the same time. */
module ChannelSweep {
  import opened Channel
  import opened ChannelIndex
  import opened ChannelInvariant

  /** The journal takes every event of the sweep. */
  ghost predicate AllOk(visits: seq<Visit>) {
    forall i :: 0 <= i < |visits| ==> visits[i].leaseOk && visits[i].deadlineOk
  }

  /** What one sweep makes of a task, whichever way it is reached. */
  function SweptTask(t: TaskState, now: int): TaskState {
    var t1 := if LeaseOver(t, now) then Freed(t) else t;
    if DeadlineOver(t1, now) then t1.(status := Overdue) else t1
  }

  /** How many nudges a task gives rise to. */
  function NudgeCount(t: TaskState, now: int): nat {
    (if LeaseOver(t, now) then 1 else 0) +
    (if DeadlineOver(if LeaseOver(t, now) then Freed(t) else t, now) then 1 else 0)
  }

  predicate Visited(visits: seq<Visit>, k: Key) {
    exists i :: 0 <= i < |visits| && visits[i].key == k
  }

  lemma VisitedDrop(visits: seq<Visit>, k: Key)
    requires visits != []
    requires forall i, j :: 0 <= i < j < |visits| ==> visits[i].key != visits[j].key
    ensures var last := |visits| - 1;
      Visited(visits, k) <==> Visited(visits[..last], k) || k == visits[last].key
    ensures !Visited(visits[..|visits| - 1], visits[|visits| - 1].key)
  {
    var last := |visits| - 1;
    if Visited(visits[..last], k) {
      var i :| 0 <= i < last && visits[..last][i].key == k;
      assert visits[i].key == k;
    }
    if Visited(visits, k) && k != visits[last].key {
      var i :| 0 <= i < |visits| && visits[i].key == k;
      assert visits[..last][i].key == k;
    }
  }

  ghost predicate Distinct(visits: seq<Visit>) {
    forall i, j :: 0 <= i < j < |visits| ==> visits[i].key != visits[j].key
  }

  lemma VisitOk(s: Sweep, v: Visit, es: seq<Message>, now: int)
    requires v.key in s.tasks && v.leaseOk && v.deadlineOk
    ensures VisitTask(s, v, es, now).tasks == s.tasks[v.key := SweptTask(s.tasks[v.key], now)]
    ensures forall m :: multiset(VisitTask(s, v, es, now).nudges)[m] ==
              multiset(s.nudges)[m] + NudgeCount(s.tasks[v.key], now) * multiset(Nudge(es, v.key))[m]
    ensures NudgeCount(s.tasks[v.key], now) == 0 ==> VisitTask(s, v, es, now) == s
  {
    hide Nudge;
    var t := s.tasks[v.key];
    var s1 := VisitLease(s, v, es, now);
    assert s1.tasks == s.tasks[v.key := if LeaseOver(t, now) then Freed(t) else t];
    assert VisitTask(s, v, es, now) == VisitDeadline(s1, v, es, now);
    if NudgeCount(t, now) == 0 {
      assert s1 == s;
    }
  }

  /** After any number of visits with a working journal: visited tasks are swept, the
      others are as before, and each indexed message is nudged for as often as its own
      task was flipped. */
  lemma {:induction false} VisitAllOk(s: Sweep, visits: seq<Visit>, es: seq<Message>, now: int)
    requires Visits(visits, s.tasks.Keys) && Distinct(visits) && AllOk(visits)
    ensures forall k :: k in s.tasks ==>
      VisitAll(s, visits, es, now).tasks[k] == if Visited(visits, k) then SweptTask(s.tasks[k], now) else s.tasks[k]
  {
    hide SweptTask, NudgeCount, VisitTask, Nudge;
    if visits != [] {
      var last := |visits| - 1;
      var v := visits[last];
      assert Visits(visits[..last], s.tasks.Keys) && Distinct(visits[..last]) && AllOk(visits[..last]);
      VisitAllOk(s, visits[..last], es, now);
      var s0 := VisitAll(s, visits[..last], es, now);
      VisitOk(s0, v, es, now);
      forall k | k in s.tasks
        ensures VisitAll(s, visits, es, now).tasks[k] == if Visited(visits, k) then SweptTask(s.tasks[k], now) else s.tasks[k]
      {
        VisitedDrop(visits, k);
      }
    }
  }

  lemma NudgeIsFor(es: seq<Message>, k: Key, m: Message)
    requires Sorted(es)
    ensures multiset(Nudge(es, k))[m] == if m in es && KeyOf(m) == k then 1 else 0
    decreases |es|
  {
    if es != [] {
      var last := |es| - 1;
      SortedDrop(es);
      NudgeIsFor(es[..last], k, m);
    }
  }

  lemma {:induction false} NudgesOk(s: Sweep, visits: seq<Visit>, es: seq<Message>, now: int, m: Message)
    requires Visits(visits, s.tasks.Keys) && Distinct(visits) && AllOk(visits) && Sorted(es)
    ensures multiset(VisitAll(s, visits, es, now).nudges)[m] == multiset(s.nudges)[m] +
      if m in es && KeyOf(m) in s.tasks && Visited(visits, KeyOf(m)) then NudgeCount(s.tasks[KeyOf(m)], now) else 0
  {
    hide SweptTask, NudgeCount, VisitTask, Nudge, Sorted;
    if visits != [] {
      var last := |visits| - 1;
      var v := visits[last];
      assert Visits(visits[..last], s.tasks.Keys) && Distinct(visits[..last]) && AllOk(visits[..last]);
      NudgesOk(s, visits[..last], es, now, m);
      VisitAllOk(s, visits[..last], es, now);
      VisitOk(VisitAll(s, visits[..last], es, now), v, es, now);
      NudgeIsFor(es, v.key, m);
      VisitedDrop(visits, KeyOf(m));
      VisitedDrop(visits, v.key);
    }
  }

  /** The task states after a sweep, in closed form. */
  ghost function SweptTasks(tasks: map<Key, TaskState>, now: int): map<Key, TaskState> {
    map k | k in tasks :: SweptTask(tasks[k], now)
  }

  lemma SweepTasksClosed(c: Channel, now: int, visits: seq<Visit>)
    requires Enumerates(visits, c.tasks.Keys) && AllOk(visits)
    ensures Swept(c, now, visits).tasks == SweptTasks(c.tasks, now)
  {
    hide SweptTask, VisitAll;
    VisitAllOk(Sweep(c.journal, c.tasks, []), visits, c.entries, now);
  }

  /** Whatever order a map is iterated in, a sweep with a working journal leaves the same
      tasks and the same index and gives the same nudges, as often. */
  lemma SweepOrderIrrelevant(c: Channel, now: int, v1: seq<Visit>, v2: seq<Visit>)
    requires Consistent(c)
    requires Enumerates(v1, c.tasks.Keys) && Enumerates(v2, c.tasks.Keys) && AllOk(v1) && AllOk(v2)
    ensures AfterSweep(c, now, v1).tasks == AfterSweep(c, now, v2).tasks
    ensures AfterSweep(c, now, v1).entries == AfterSweep(c, now, v2).entries
    ensures multiset(Swept(c, now, v1).nudges) == multiset(Swept(c, now, v2).nudges)
  {
    hide VisitAll, SweptTasks, Without, TasksOf, Pruned, Consistent, Visited, NudgeCount;
    SweepTasksClosed(c, now, v1);
    SweepTasksClosed(c, now, v2);
    SortedOf(c);
    var s := Sweep(c.journal, c.tasks, []);
    forall m: Message
      ensures multiset(Swept(c, now, v1).nudges)[m] == multiset(Swept(c, now, v2).nudges)[m]
    {
      NudgesOk(s, v1, c.entries, now, m);
      NudgesOk(s, v2, c.entries, now, m);
      EveryKeyVisited(c, v1, KeyOf(m));
      EveryKeyVisited(c, v2, KeyOf(m));
    }
  }

  lemma EveryKeyVisited(c: Channel, visits: seq<Visit>, k: Key)
    requires Enumerates(visits, c.tasks.Keys)
    ensures Visited(visits, k) <==> k in c.tasks
  {
  }

  /** How often each message is nudged for: once when its lease ran out, once when its
      deadline passed, never when its task has no state. */
  lemma SweepNudges(c: Channel, now: int, visits: seq<Visit>, m: Message)
    requires Consistent(c) && Enumerates(visits, c.tasks.Keys) && AllOk(visits)
    ensures multiset(Swept(c, now, visits).nudges)[m] ==
            if m in c.entries && KeyOf(m) in c.tasks then NudgeCount(c.tasks[KeyOf(m)], now) else 0
  {
    hide VisitAll, Consistent, NudgeCount, Visited;
    SortedOf(c);
    NudgesOk(Sweep(c.journal, c.tasks, []), visits, c.entries, now, m);
    EveryKeyVisited(c, visits, KeyOf(m));
  }

  // ---------------------------------------------------------------------------
  // Sweeping twice

  lemma SweptIsSettled(t: TaskState, now: int)
    ensures NudgeCount(SweptTask(t, now), now) == 0
  {
  }

  /** A visit of a settled task does nothing, whether or not the journal works. */
  lemma {:induction false} SettledVisits(s: Sweep, visits: seq<Visit>, es: seq<Message>, now: int)
    requires Visits(visits, s.tasks.Keys)
    requires forall k :: k in s.tasks ==> NudgeCount(s.tasks[k], now) == 0
    ensures VisitAll(s, visits, es, now) == s
  {
    hide Changed;
    if visits != [] {
      var last := |visits| - 1;
      assert Visits(visits[..last], s.tasks.Keys);
      SettledVisits(s, visits[..last], es, now);
      assert NudgeCount(s.tasks[visits[last].key], now) == 0;
    }
  }

  /** A second sweep at the same time appends nothing, gives no nudge and leaves the whole
      channel as it is. */
  lemma SweepTwice(c: Channel, now: int, visits: seq<Visit>, again: seq<Visit>)
    requires Enumerates(visits, c.tasks.Keys) && AllOk(visits)
    requires Visits(again, AfterSweep(c, now, visits).tasks.Keys)
    ensures var once := AfterSweep(c, now, visits);
      && AfterSweep(once, now, again) == once
      && Swept(once, now, again).journal == once.journal
      && Swept(once, now, again).nudges == []
  {
    hide VisitAll, Without, TasksOf, Pruned, SweptTask, NudgeCount;
    var once := AfterSweep(c, now, visits);
    SweepTasksClosed(c, now, visits);
    SettledAfter(c, now, visits);
    SettledVisits(Sweep(once.journal, once.tasks, []), again, once.entries, now);
    NothingStale(c, now, visits);
    WithoutNothing(once.entries, Stale(now));
    SameTasks(once.tasks, once.entries);
    if c.retainN > 0 || c.retainAge > 0 {
      PrunedTwice(Without(c.entries, Stale(now)), c.retainN, Cutoff(c.retainAge, now));
    }
  }

  lemma SameTasks(tasks: map<Key, TaskState>, es: seq<Message>)
    ensures TasksOf(tasks, es, es) == tasks
  {
  }

  lemma SettledAfter(c: Channel, now: int, visits: seq<Visit>)
    requires Enumerates(visits, c.tasks.Keys) && AllOk(visits)
    ensures forall k :: k in AfterSweep(c, now, visits).tasks ==> NudgeCount(AfterSweep(c, now, visits).tasks[k], now) == 0
  {
    hide VisitAll, Without, Pruned, NudgeCount, SweptTask;
    SweepTasksClosed(c, now, visits);
    forall k | k in AfterSweep(c, now, visits).tasks
      ensures NudgeCount(AfterSweep(c, now, visits).tasks[k], now) == 0
    {
      assert AfterSweep(c, now, visits).tasks[k] == SweptTask(c.tasks[k], now);
      SweptIsSettled(c.tasks[k], now);
    }
  }

  lemma NothingStale(c: Channel, now: int, visits: seq<Visit>)
    requires Visits(visits, c.tasks.Keys)
    ensures forall m :: m in AfterSweep(c, now, visits).entries ==> !Hits(Stale(now), m)
  {
    hide VisitAll, Without, Pruned, TasksOf, Hits;
    WithoutMembers(c.entries, Stale(now));
    PrunedMembers(Without(c.entries, Stale(now)), c.retainN, Cutoff(c.retainAge, now));
  }
}
