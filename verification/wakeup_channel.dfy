/** The channel and its hub together: the operations of the store feed the wake-up protocol,
    so that the numbers it relies on are the journal's own. */
module WakeupChannel {
  import opened Channel
  import opened ChannelIndex
  import opened ChannelInvariant
  import ChannelRuns
  import ChannelStore
  import Wakeup

  datatype Joint = Joint(w: ChannelRuns.World, s: Wakeup.System)

  /** An operation under the store's lock, or a step of the hub and its subscribers. */
  datatype Move = Store(op: ChannelRuns.Op) | Hub(step: Wakeup.Step)

  /** The message that an operation adds to the index and hands to `publish`. */
  function NewMessage(c: Channel, op: ChannelRuns.Op): (added: seq<Message>)
    ensures |added| <= 1
  {
    match op
    case Post(tenant, p, stamp, ts, ok) =>
      if PostRefused(p) || !ok then [] else [Message(|c.journal| + 1, tenant, ts, WithKind(p))]
    case PostImage(tenant, p, stamp, ts, ok) =>
      if ImageRefused(p) || !ok then [] else [Message(|c.journal| + 1, tenant, ts, p.(kind := "image"))]
    case _ => []
  }

  /** What the hub's side sees of an operation: the index as it is now, and a new message
      still to be published. No subscription outlives the process. */
  ghost function Observed(s: Wakeup.System, c: Channel, op: ChannelRuns.Op, c': Channel): Wakeup.System {
    var added := NewMessage(c, op);
    if op.Restart? then Wakeup.System(c'.entries, |c'.journal|, multiset{}, map[], map[])
    else
      s.(index := c'.entries, inFlight := s.inFlight + multiset(added),
         last := if added == [] then s.last else added[0].seqNo)
  }

  ghost predicate Next(j: Joint, move: Move, j': Joint) {
    match move
    case Store(op) => ChannelRuns.Step(j.w, op, j'.w) && j'.s == Observed(j.s, j.w.c, op, j'.w.c)
    case Hub(step) => !step.Commit? && !step.Evict? && Wakeup.Next(j.s, step, j'.s) && j'.w == j.w
  }

  ghost predicate Run(js: seq<Joint>, moves: seq<Move>) {
    && |js| == |moves| + 1
    && Inv(js[0])
    && forall i :: 0 <= i < |moves| ==> Next(js[i], moves[i], js[i + 1])
  }

  /** The hub's side sees the store's index, and no number it knows is beyond the journal. */
  ghost predicate Sees(s: Wakeup.System, c: Channel) {
    s.index == c.entries && s.last <= |c.journal|
  }

  ghost predicate Inv(j: Joint) {
    Consistent(j.w.c) && Sees(j.s, j.w.c) && Wakeup.Inv(j.s)
  }

  /** A started store without subscribers. */
  lemma NobodyYet(c: Channel, clock: int)
    requires Consistent(c)
    ensures Inv(Joint(ChannelRuns.World(c, clock), Wakeup.System(c.entries, |c.journal|, multiset{}, map[], map[])))
  {
    hide Sorted, Live;
  }

  // ---------------------------------------------------------------------------
  // What an operation does to the index and the journal's length

  /** The journal gets no shorter, it gets a record for a new message, and nothing else
      enters the index. */
  ghost predicate Grows(c: Channel, added: seq<Message>, c': Channel) {
    && |c'.journal| >= |c.journal| + |added|
    && forall m :: m in c'.entries ==> m in c.entries + added
  }

  lemma PruneGrows(c: Channel, added: seq<Message>, c': Channel, now: int)
    requires Grows(c, added, c')
    ensures Grows(c, added, AfterPrune(c', now))
  {
    hide Pruned, TasksOf;
    PrunedMembers(c'.entries, c'.retainN, Cutoff(c'.retainAge, now));
  }

  lemma IndexedGrows(c: Channel, tenant: Tenant, stamp: int, ts: int, e: Event)
    requires e.Posted? || e.Imaged?
    ensures Grows(c, [Message(|c.journal| + 1, tenant, ts, e.p)], Indexed(c, tenant, stamp, ts, e))
  {
    hide AfterPrune, Seed;
    var m := Message(|c.journal| + 1, tenant, ts, e.p);
    var tasks := if e.Posted? then Seed(c.tasks, m) else c.tasks;
    PruneGrows(c, [m], Logged(c, tenant, stamp, e).(entries := c.entries + [m], tasks := tasks), ts);
  }

  lemma {:induction false} VisitsGrow(s: Sweep, visits: seq<Visit>, es: seq<Message>, now: int)
    requires Visits(visits, s.tasks.Keys)
    ensures |VisitAll(s, visits, es, now).journal| >= |s.journal|
  {
    hide Nudge;
    if visits != [] {
      assert Visits(visits[..|visits| - 1], s.tasks.Keys);
      VisitsGrow(s, visits[..|visits| - 1], es, now);
    }
  }

  lemma SweepGrows(c: Channel, now: int, visits: seq<Visit>)
    requires Visits(visits, c.tasks.Keys)
    ensures Grows(c, [], AfterSweep(c, now, visits))
  {
    hide AfterPrune, VisitAll, TasksOf, Without;
    var s := Swept(c, now, visits);
    VisitsGrow(Sweep(c.journal, c.tasks, []), visits, c.entries, now);
    WithoutMembers(c.entries, Stale(now));
    var fresh' := Without(c.entries, Stale(now));
    PruneGrows(c, [], c.(journal := s.journal, entries := fresh', tasks := TasksOf(s.tasks, c.entries, fresh')), now);
  }

  lemma OpGrows(w: ChannelRuns.World, op: ChannelRuns.Op, w': ChannelRuns.World)
    requires ChannelRuns.Step(w, op, w') && !op.Restart?
    ensures Grows(w.c, NewMessage(w.c, op), w'.c)
  {
    hide AfterPrune, Indexed, AfterSweep, Without, Grows;
    var c := w.c;
    match op {
      case Post(tenant, p, stamp, ts, ok) =>
        if PostRefused(p) || !ok { SameGrows(c, w'.c); } else { IndexedGrows(c, tenant, stamp, ts, Posted(WithKind(p))); }
      case PostImage(tenant, p, stamp, ts, ok) =>
        if ImageRefused(p) || !ok { SameGrows(c, w'.c); } else { IndexedGrows(c, tenant, stamp, ts, Imaged(p.(kind := "image"))); }
      case Clear(tenant, area, stamp, ok) =>
        WithoutMembers(c.entries, Area(tenant, area, |c.journal| + 1));
        SameGrows(c, w'.c);
      case SweepOnce(visits) => SweepGrows(c, w'.clock, visits);
      case SetRetention(n, age) =>
        var c1 := c.(retainN := n, retainAge := age);
        SameGrows(c, c1);
        PruneGrows(c, [], c1, w'.clock);
      case _ => SameGrows(c, w'.c);
    }
  }

  lemma SameGrows(c: Channel, c': Channel)
    requires |c'.journal| >= |c.journal| && forall m :: m in c'.entries ==> m in c.entries
    ensures Grows(c, [], c')
  {
  }

  // ---------------------------------------------------------------------------
  // The store's operations are steps of the protocol

  /** Without a restart, what the hub's side sees of an operation is a commit of the new
      message, if there is one, and then an eviction: the number given to it is beyond every
      earlier one because it is the journal's next. */
  lemma OpIsProtocol(j: Joint, op: ChannelRuns.Op, j': Joint) returns (committed: Wakeup.System)
    requires Sees(j.s, j.w.c) && Next(j, Store(op), j') && !op.Restart?
    ensures var added := NewMessage(j.w.c, op);
      && (if added == [] then committed == j.s else Wakeup.Next(j.s, Wakeup.Commit(added[0]), committed))
      && Wakeup.Next(committed, Wakeup.Evict(j'.w.c.entries), j'.s)
    ensures Sees(j'.s, j'.w.c)
  {
    hide ChannelRuns.Step;
    var added := NewMessage(j.w.c, op);
    OpGrows(j.w, op, j'.w);
    if added == [] {
      committed := j.s;
    } else {
      var m := added[0];
      assert added == [m] && m.seqNo == |j.w.c.journal| + 1;
      committed := j.s.(index := j.s.index + [m], last := m.seqNo, inFlight := j.s.inFlight + multiset{m});
    }
  }

  lemma RestartInv(j: Joint, j': Joint)
    requires Inv(j) && Next(j, Store(ChannelRuns.Restart), j')
    ensures Inv(j')
  {
    hide Consistent, IsRebuild;
    ChannelRuns.StepConsistent(j.w, ChannelRuns.Restart, j'.w);
    NobodyYet(j'.w.c, j'.w.clock);
  }

  lemma NextInv(j: Joint, move: Move, j': Joint)
    requires Inv(j) && Next(j, move, j')
    ensures Inv(j')
  {
    hide Consistent, Wakeup.Inv, ChannelRuns.Effect, Observed;
    match move {
      case Store(op) =>
        if op.Restart? {
          RestartInv(j, j');
        } else {
          ChannelRuns.StepConsistent(j.w, op, j'.w);
          var committed := OpIsProtocol(j, op, j');
          var added := NewMessage(j.w.c, op);
          if added != [] {
            Wakeup.NextInv(j.s, Wakeup.Commit(added[0]), committed);
          }
          Wakeup.NextInv(committed, Wakeup.Evict(j'.w.c.entries), j'.s);
        }
      case Hub(step) =>
        Wakeup.NextInv(j.s, step, j'.s);
        HubSees(j.s, step, j'.s, j.w.c);
    }
  }

  lemma HubSees(s: Wakeup.System, step: Wakeup.Step, s': Wakeup.System, c: Channel)
    requires Sees(s, c) && Wakeup.Next(s, step, s') && !step.Commit? && !step.Evict?
    ensures Sees(s', c)
  {
    hide Wakeup.Fanout, Wakeup.Advances, Wakeup.Unread;
  }

  lemma {:induction false} AlwaysInv(js: seq<Joint>, moves: seq<Move>, i: nat)
    requires Run(js, moves) && i < |js|
    ensures Inv(js[i])
  {
    hide Next, Inv;
    if i > 0 {
      AlwaysInv(js, moves, i - 1);
      NextInv(js[i - 1], moves[i - 1], js[i]);
    }
  }

  // ---------------------------------------------------------------------------
  // What subscribers are woken for and what they read

  /** What an agent reads after a nudge: its inbox and the areas it subscribed to. It finds
      exactly the messages that the filter wakes it for. */
  method ReadAll(store: ChannelStore.Store, f: Wakeup.Filter, since: nat) returns (out: seq<Message>)
    requires store.Valid()
    ensures forall m :: m in out <==> Wakeup.Beyond(store.entries, f, since, m)
  {
    out := [];
    if f.target != "" {
      out := store.Inbox(f.tenant, f.target, since);
    }
    for i := 0 to |f.areas|
      invariant forall m :: m in out <==> InboxOrAreas(store.entries, f, since, i, m)
    {
      var more := store.Read(f.tenant, f.areas[i], since);
      out := out + more;
    }
    AllRead(store.entries, f, since);
  }

  /** The target's messages and those of the first `n` areas. */
  ghost predicate InboxOrAreas(es: seq<Message>, f: Wakeup.Filter, since: nat, n: nat, m: Message)
    requires n <= |f.areas|
  {
    && m in es && m.tenant == f.tenant && m.seqNo > since
    && (f.target == m.body.target != "" || m.body.area in f.areas[..n])
  }

  lemma AllRead(es: seq<Message>, f: Wakeup.Filter, since: nat)
    ensures forall m :: InboxOrAreas(es, f, since, |f.areas|, m) <==> Wakeup.Beyond(es, f, since, m)
  {
    assert f.areas[..|f.areas|] == f.areas;
    forall m
      ensures InboxOrAreas(es, f, since, |f.areas|, m) <==> Wakeup.Beyond(es, f, since, m)
    {
      Wakeup.BeyondMeans(es, f, since, m);
    }
  }

  /** No post is lost: in any interleaving of the store's operations, sweeps, prunings and
      restarts with the hub's and the subscribers' steps, a message of the subscriber's
      tenant in the store's index, for its target or in one of its areas and beyond its
      cursor, has its publish, a nudge, a catch-up or a read still to come. */
  lemma NoPostLost(js: seq<Joint>, moves: seq<Move>, i: nat, id: nat, m: Message)
    requires Run(js, moves) && i < |js| && id in js[i].s.subs && id in js[i].s.readers
    requires m in js[i].w.c.entries && m.seqNo > js[i].s.readers[id].cursor
    requires var f := js[i].s.subs[id].filter;
      m.tenant == f.tenant && (f.target == m.body.target != "" || m.body.area in f.areas)
    ensures Wakeup.Pending(js[i].s, id, m)
  {
    hide Next, Consistent, Wakeup.Pending, Wakeup.Matches, Wakeup.Beyond;
    AlwaysInv(js, moves, i);
    Wakeup.BeyondMeans(js[i].s.index, js[i].s.subs[id].filter, js[i].s.readers[id].cursor, m);
    assert Wakeup.Awake(js[i].s, id);
  }

  /** And nothing is left out: a subscriber for which nothing is under way has read every
      such message after the cursor it started with. */
  lemma QuietHasRead(js: seq<Joint>, moves: seq<Move>, i: nat, id: nat, m: Message)
    requires Run(js, moves) && i < |js| && id in js[i].s.subs && id in js[i].s.readers
    requires m in js[i].w.c.entries && m.seqNo > js[i].s.readers[id].start
    requires var f := js[i].s.subs[id].filter;
      m.tenant == f.tenant && (f.target == m.body.target != "" || m.body.area in f.areas)
    requires !Wakeup.Pending(js[i].s, id, m)
    ensures m.seqNo in js[i].s.readers[id].seen
  {
    hide Next, Consistent, Wakeup.Pending, Wakeup.Matches, Wakeup.Beyond;
    AlwaysInv(js, moves, i);
    var s := js[i].s;
    Wakeup.BeyondMeans(s.index, s.subs[id].filter, s.readers[id].start, m);
    Wakeup.BeyondMeans(s.index, s.subs[id].filter, s.readers[id].cursor, m);
    assert Wakeup.Awake(s, id);
  }
}
