/** Wake-on-update (`comms/hub.go`): nudges coalesce in a one-slot channel, and still no
    subscriber sleeps on a message it has not read. */
module Wakeup {
  import opened Channel
  import opened ChannelIndex

  datatype Nudge = Nudge(seqNo: nat, area: string, target: string, kind: string)

  datatype Filter = Filter(tenant: Tenant, target: string, areas: seq<string>)

  /** A channel of capacity one is an optional value. */
  datatype Slot = Empty | Full(n: Nudge)

  datatype Subscription = Subscription(filter: Filter, slot: Slot)

  predicate Matches(f: Filter, m: Message) {
    m.tenant == f.tenant && ((f.target != "" && m.body.target == f.target) || m.body.area in f.areas)
  }

  function NudgeFor(m: Message): Nudge {
    Nudge(m.seqNo, m.body.area, m.body.target, m.body.kind)
  }

  /** The non-blocking send of `publish`: a full slot stays as it is. */
  function Send(s: Subscription, m: Message): Subscription {
    if Matches(s.filter, m) && s.slot == Empty then s.(slot := Full(NudgeFor(m))) else s
  }

  function Fanout(subs: map<nat, Subscription>, m: Message): map<nat, Subscription> {
    map id | id in subs :: Send(subs[id], m)
  }

  class Hub {
    var next: nat
    var subs: map<nat, Subscription>

    /** Ids are handed out once. */
    ghost predicate Valid()
      reads this
    {
      forall id :: id in subs ==> id < next
    }

    constructor ()
      ensures Valid() && subs == map[]
    {
      next, subs := 0, map[];
    }

    method Subscribe(f: Filter) returns (id: nat)
      requires Valid()
      modifies this
      ensures Valid() && id !in old(subs) && subs == old(subs)[id := Subscription(f, Empty)]
      ensures next == old(next) + 1
    {
      id := next;
      next := next + 1;
      subs := subs[id := Subscription(f, Empty)];
    }

    /** The cancel function; calling it again does nothing. */
    method Cancel(id: nat)
      requires Valid()
      modifies this`subs
      ensures Valid() && subs == old(subs) - {id}
    {
      if id in subs {
        subs := subs - {id};
      }
    }

    /** `publish` visits the subscribers in any order. The tenant's subscribers to the target
        or to the area have a nudge afterwards, the earlier one if there was one; no other
        slot changes. */
    method Publish(m: Message)
      requires Valid()
      modifies this`subs
      ensures Valid() && subs == Fanout(old(subs), m) && subs.Keys == old(subs.Keys)
      ensures forall id :: id in old(subs) ==>
        var f, slot := old(subs)[id].filter, old(subs)[id].slot;
        var wanted := m.tenant == f.tenant && ((f.target != "" && m.body.target == f.target) || m.body.area in f.areas);
        subs[id] == Subscription(f,
          if wanted && slot == Empty then Full(Nudge(m.seqNo, m.body.area, m.body.target, m.body.kind)) else slot)
    {
      var todo := subs.Keys;
      ghost var before := subs;
      while todo != {}
        invariant todo <= before.Keys == subs.Keys
        invariant forall id :: id in before ==> subs[id] == if id in todo then before[id] else Send(before[id], m)
        decreases |todo|
      {
        var id :| id in todo;
        todo := todo - {id};
        var wakes := FilterMatches(subs[id].filter, m);
        if !wakes {
          continue;
        }
        if subs[id].slot == Empty {
          subs := subs[id := subs[id].(slot := Full(NudgeFor(m)))];
        }
      }
    }
  }

  /** `Filter.matches` */
  method FilterMatches(f: Filter, m: Message) returns (b: bool)
    ensures b == Matches(f, m)
    ensures b <==> m.tenant == f.tenant && ((f.target != "" && m.body.target == f.target) || m.body.area in f.areas)
  {
    if m.tenant != f.tenant {
      return false;
    }
    if f.target != "" && m.body.target == f.target {
      return true;
    }
    for i := 0 to |f.areas|
      invariant m.body.area !in f.areas[..i]
    {
      if m.body.area == f.areas[i] {
        return true;
      }
    }
    return false;
  }

  ghost predicate Beyond(es: seq<Message>, f: Filter, since: nat, m: Message) {
    m in es && Matches(f, m) && m.seqNo > since
  }

  lemma BeyondMeans(es: seq<Message>, f: Filter, since: nat, m: Message)
    ensures Beyond(es, f, since, m) <==>
      m in es && m.seqNo > since && m.tenant == f.tenant && ((f.target != "" && m.body.target == f.target) || m.body.area in f.areas)
  {
  }

  /** `MatchingSince`: the highest number of a matching message beyond the cursor. */
  method MatchingSince(es: seq<Message>, f: Filter, since: nat) returns (max: nat)
    ensures forall m :: Beyond(es, f, since, m) ==> m.seqNo <= max
    ensures max == 0 || exists m :: Beyond(es, f, since, m) && m.seqNo == max
    ensures forall m :: m in es && m.seqNo > since && m.tenant == f.tenant && (f.target == m.body.target != "" || m.body.area in f.areas) ==>
      m.seqNo <= max
    ensures max != 0 ==> exists m ::
      m in es && m.seqNo == max > since && m.tenant == f.tenant && (f.target == m.body.target != "" || m.body.area in f.areas)
  {
    forall m
      ensures Beyond(es, f, since, m) <==>
        m in es && m.seqNo > since && m.tenant == f.tenant && (f.target == m.body.target != "" || m.body.area in f.areas)
    {
      BeyondMeans(es, f, since, m);
    }
    hide Matches;
    max := 0;
    for i := 0 to |es|
      invariant forall m :: Beyond(es[..i], f, since, m) ==> m.seqNo <= max
      invariant max == 0 || exists m :: Beyond(es, f, since, m) && m.seqNo == max
    {
      assert es[..i + 1] == es[..i] + [es[i]];
      var wakes := FilterMatches(f, es[i]);
      if es[i].seqNo > since && wakes && es[i].seqNo > max {
        max := es[i].seqNo;
        assert Beyond(es, f, since, es[i]);
      }
    }
    assert es[..|es|] == es;
  }

  // ---------------------------------------------------------------------------
  // The protocol, one critical section or channel operation at a time

  /** A subscriber: the cursor it reads from, whether it has done its catch-up, whether it
      still owes a read, and the messages it has read. */
  datatype Reader = Reader(start: nat, cursor: nat, caughtUp: bool, owes: bool, seen: set<nat>)

  /** `last` is the latest number given out; `inFlight` are the messages that have been
      committed to the index and not yet published. */
  datatype System = System(
    index: seq<Message>, last: nat, inFlight: multiset<Message>,
    subs: map<nat, Subscription>, readers: map<nat, Reader>)

  datatype Step =
    | Commit(m: Message)             // a post: append and index, under the store's lock
    | Evict(index: seq<Message>)     // a clear, a sweep or retention
    | Publish(m: Message)            // after the lock is released
    | SweepNudge(m: Message)         // the sweeper's nudge for a flipped task
    | Subscribe(id: nat, f: Filter, cursor: nat)
    | CatchUp(id: nat)               // `MatchingSince`
    | Receive(id: nat)
    | Read(id: nat)                  // everything that matches beyond the cursor
    | Cancel(id: nat)

  ghost function Unread(s: System, id: nat): set<nat>
    requires id in s.subs && id in s.readers
  {
    set m | m in s.index && Beyond(s.index, s.subs[id].filter, s.readers[id].cursor, m) :: m.seqNo
  }

  /** The highest unread number, or the cursor when there is none. */
  ghost predicate Advances(s: System, id: nat, cursor: nat)
    requires id in s.subs && id in s.readers
  {
    && cursor >= s.readers[id].cursor
    && (forall n :: n in Unread(s, id) ==> n <= cursor)
    && (cursor == s.readers[id].cursor || cursor in Unread(s, id))
  }

  ghost predicate Next(s: System, step: Step, s': System) {
    match step
    case Commit(m) =>
      m.seqNo > s.last && s' == s.(index := s.index + [m], last := m.seqNo, inFlight := s.inFlight + multiset{m})
    case Evict(index) => (forall m :: m in index ==> m in s.index) && s' == s.(index := index)
    case Publish(m) => m in s.inFlight && s' == s.(inFlight := s.inFlight - multiset{m}, subs := Fanout(s.subs, m))
    case SweepNudge(m) => s' == s.(subs := Fanout(s.subs, m))
    case Subscribe(id, f, cursor) =>
      && id !in s.subs && id !in s.readers
      && s' == s.(subs := s.subs[id := Subscription(f, Empty)],
                  readers := s.readers[id := Reader(cursor, cursor, false, false, {})])
    case CatchUp(id) =>
      && id in s.subs && id in s.readers && !s.readers[id].caughtUp
      && s' == s.(readers := s.readers[id := s.readers[id].(caughtUp := true, owes := Unread(s, id) != {} || s.readers[id].owes)])
    case Receive(id) =>
      && id in s.subs && id in s.readers && s.readers[id].caughtUp && s.subs[id].slot.Full?
      && s' == s.(subs := s.subs[id := s.subs[id].(slot := Empty)],
                  readers := s.readers[id := s.readers[id].(owes := true)])
    case Read(id) =>
      && id in s.subs && id in s.readers && s.readers[id].owes && id in s'.readers
      && Advances(s, id, s'.readers[id].cursor)
      && s' == s.(readers := s.readers[id :=
           s.readers[id].(cursor := s'.readers[id].cursor, owes := false, seen := s.readers[id].seen + Unread(s, id))])
    case Cancel(id) => s' == s.(subs := s.subs - {id}, readers := s.readers - {id})
  }

  /** Something is still under way that will make the subscriber look at `m`. */
  ghost predicate Pending(s: System, id: nat, m: Message)
    requires id in s.subs && id in s.readers
  {
    || m in s.inFlight
    || s.subs[id].slot.Full?
    || !s.readers[id].caughtUp
    || s.readers[id].owes
  }

  ghost predicate Awake(s: System, id: nat)
    requires id in s.subs && id in s.readers
  {
    var f, r := s.subs[id].filter, s.readers[id];
    && r.start <= r.cursor && (r.cursor <= s.last || r.cursor == r.start)
    && (forall m :: Beyond(s.index, f, r.cursor, m) ==> Pending(s, id, m))
    && forall m :: Beyond(s.index, f, r.start, m) && m.seqNo <= r.cursor ==> m.seqNo in r.seen
  }

  ghost predicate Inv(s: System) {
    && s.subs.Keys == s.readers.Keys
    && (forall m :: m in s.index ==> m.seqNo <= s.last)
    && forall id :: id in s.subs ==> Awake(s, id)
  }

  lemma FanoutFills(s: System, m: Message, id: nat)
    requires id in s.subs
    ensures var sub := Fanout(s.subs, m)[id];
      && sub.filter == s.subs[id].filter
      && (s.subs[id].slot.Full? ==> sub.slot.Full?)
      && (Matches(s.subs[id].filter, m) ==> sub.slot.Full?)
  {
  }

  /** A publish takes a message out of flight only by filling the slots it matches. */
  lemma FanoutAwake(s: System, m: Message, inFlight: multiset<Message>, id: nat)
    requires s.subs.Keys == s.readers.Keys && id in s.subs && Awake(s, id)
    requires forall x :: x in s.inFlight ==> x in inFlight || x == m
    ensures Awake(s.(inFlight := inFlight, subs := Fanout(s.subs, m)), id)
  {
    hide Matches, Fanout;
    FanoutFills(s, m, id);
  }

  lemma ReadAwake(s: System, id: nat, cursor: nat)
    requires s.subs.Keys == s.readers.Keys && id in s.subs && Awake(s, id) && Advances(s, id, cursor)
    requires forall m :: m in s.index ==> m.seqNo <= s.last
    ensures Awake(s.(readers := s.readers[id :=
              s.readers[id].(cursor := cursor, owes := false, seen := s.readers[id].seen + Unread(s, id))]), id)
  {
    hide Matches;
    forall m | Beyond(s.index, s.subs[id].filter, s.readers[id].cursor, m)
      ensures m.seqNo in Unread(s, id) && m.seqNo <= cursor
    {
    }
  }

  lemma CommitAwake(s: System, m: Message, id: nat)
    requires s.subs.Keys == s.readers.Keys && id in s.subs && Awake(s, id) && m.seqNo > s.last
    ensures Awake(s.(index := s.index + [m], last := m.seqNo, inFlight := s.inFlight + multiset{m}), id)
  {
    hide Matches;
    forall x, n | Beyond(s.index + [m], s.subs[id].filter, n, x)
      ensures x == m || Beyond(s.index, s.subs[id].filter, n, x)
    {
    }
  }

  lemma CatchUpAwake(s: System, id: nat)
    requires s.subs.Keys == s.readers.Keys && id in s.subs && Awake(s, id)
    ensures Awake(s.(readers := s.readers[id := s.readers[id].(
              caughtUp := true, owes := Unread(s, id) != {} || s.readers[id].owes)]), id)
  {
    hide Matches;
    forall m | Beyond(s.index, s.subs[id].filter, s.readers[id].cursor, m)
      ensures m.seqNo in Unread(s, id)
    {
    }
  }

  lemma NextInv(s: System, step: Step, s': System)
    requires Inv(s) && Next(s, step, s')
    ensures Inv(s')
  {
    hide Matches, Fanout, Advances, Unread, Awake, Beyond;
    match step {
      case Commit(m) =>
        forall id | id in s'.subs ensures Awake(s', id) { CommitAwake(s, m, id); }
      case Evict(index) =>
        forall id | id in s'.subs ensures Awake(s', id) { EvictAwake(s, index, id); }
      case Publish(m) =>
        FanoutKeys(s.subs, m);
        forall id | id in s'.subs ensures Awake(s', id) { FanoutAwake(s, m, s'.inFlight, id); }
      case SweepNudge(m) =>
        FanoutKeys(s.subs, m);
        forall id | id in s'.subs ensures Awake(s', id) { FanoutAwake(s, m, s.inFlight, id); }
      case Subscribe(new', f, cursor) =>
        forall id | id in s'.subs
          ensures Awake(s', id)
        {
          if id == new' { SubscribeAwake(s', id); } else { SameAwake(s, s', id); }
        }
      case CatchUp(who) =>
        forall id | id in s'.subs
          ensures Awake(s', id)
        {
          if id == who { CatchUpAwake(s, id); } else { SameAwake(s, s', id); }
        }
      case Receive(who) =>
        forall id | id in s'.subs
          ensures Awake(s', id)
        {
          if id == who { ReceiveAwake(s, s', id); } else { SameAwake(s, s', id); }
        }
      case Read(who) =>
        forall id | id in s'.subs
          ensures Awake(s', id)
        {
          if id == who { ReadAwake(s, id, s'.readers[id].cursor); } else { SameAwake(s, s', id); }
        }
      case Cancel(who) =>
        forall id | id in s'.subs ensures Awake(s', id) { SameAwake(s, s', id); }
    }
  }

  lemma FanoutKeys(subs: map<nat, Subscription>, m: Message)
    ensures Fanout(subs, m).Keys == subs.Keys
  {
  }

  lemma SameAwake(s: System, s': System, id: nat)
    requires id in s.subs && id in s.readers && id in s'.subs && id in s'.readers && Awake(s, id)
    requires s'.subs[id] == s.subs[id] && s'.readers[id] == s.readers[id]
    requires s'.index == s.index && s'.last == s.last && s'.inFlight == s.inFlight
    ensures Awake(s', id)
  {
    hide Matches;
  }

  lemma EvictAwake(s: System, index: seq<Message>, id: nat)
    requires id in s.subs && id in s.readers && Awake(s, id)
    requires forall m :: m in index ==> m in s.index
    ensures Awake(s.(index := index), id)
  {
    hide Matches;
    forall m, n | Beyond(index, s.subs[id].filter, n, m)
      ensures Beyond(s.index, s.subs[id].filter, n, m)
    {
    }
  }

  lemma SubscribeAwake(s: System, id: nat)
    requires id in s.subs && id in s.readers && !s.readers[id].caughtUp
    requires s.readers[id].start == s.readers[id].cursor
    ensures Awake(s, id)
  {
    hide Matches;
  }

  lemma ReceiveAwake(s: System, s': System, id: nat)
    requires id in s.subs && id in s.readers && id in s'.subs && id in s'.readers && Awake(s, id)
    requires s'.subs[id].filter == s.subs[id].filter && s'.readers[id] == s.readers[id].(owes := true)
    requires s'.index == s.index && s'.last == s.last
    ensures Awake(s', id)
  {
    hide Matches;
  }

  ghost predicate Run(states: seq<System>, steps: seq<Step>) {
    && |states| == |steps| + 1
    && Inv(states[0])
    && forall i :: 0 <= i < |steps| ==> Next(states[i], steps[i], states[i + 1])
  }

  lemma {:induction false} AlwaysInv(states: seq<System>, steps: seq<Step>, i: nat)
    requires Run(states, steps) && i < |states|
    ensures Inv(states[i])
  {
    hide Next, Inv;
    if i > 0 {
      AlwaysInv(states, steps, i - 1);
      NextInv(states[i - 1], steps[i - 1], states[i]);
    }
  }

  /** No lost wake-up, in any interleaving of posts, publishes, sweeps, subscriptions and
      reads: a matching message beyond a subscriber's cursor has its publish in flight, or
      a nudge is buffered, or a catch-up or a read is still to come. */
  lemma NoLostWakeup(states: seq<System>, steps: seq<Step>, i: nat, id: nat, m: Message)
    requires Run(states, steps) && i < |states| && id in states[i].subs
    requires id in states[i].readers && Beyond(states[i].index, states[i].subs[id].filter, states[i].readers[id].cursor, m)
    ensures Pending(states[i], id, m)
  {
    hide Matches, Next, Pending;
    AlwaysInv(states, steps, i);
    assert Awake(states[i], id);
  }

  /** A subscriber for which nothing is under way has read every matching message in the
      index that came after the cursor it started with. */
  lemma QuietMeansRead(states: seq<System>, steps: seq<Step>, i: nat, id: nat, m: Message)
    requires Run(states, steps) && i < |states|
    requires var s := states[i];
      && id in s.subs && id in s.readers
      && s.inFlight == multiset{} && s.subs[id].slot == Empty
      && s.readers[id].caughtUp && !s.readers[id].owes
      && Beyond(s.index, s.subs[id].filter, s.readers[id].start, m)
    ensures m.seqNo in states[i].readers[id].seen
  {
    hide Matches, Next;
    AlwaysInv(states, steps, i);
    var s := states[i];
    assert Awake(s, id);
    assert !Pending(s, id, m);
    assert !Beyond(s.index, s.subs[id].filter, s.readers[id].cursor, m);
  }

  lemma NobodyYet()
    ensures Inv(System([], 0, multiset{}, map[], map[]))
  {
  }

  // ---------------------------------------------------------------------------
  // The same protocol with the catch-up before the registration

  datatype SwappedStep =
    | Look(id: nat, f: Filter, cursor: nat)  // `MatchingSince`, for a reader not registered yet
    | Register(id: nat, f: Filter)
    | Other(step: Step)

  ghost predicate SwappedNext(s: System, step: SwappedStep, s': System) {
    match step
    case Look(id, f, cursor) =>
      && id !in s.subs && id !in s.readers
      && s' == s.(readers := s.readers[id := Reader(cursor, cursor, true, exists m :: Beyond(s.index, f, cursor, m), {})])
    case Register(id, f) =>
      id in s.readers && id !in s.subs && s' == s.(subs := s.subs[id := Subscription(f, Empty)])
    case Other(step) => !step.Subscribe? && !step.CatchUp? && Next(s, step, s')
  }

  ghost predicate SwappedRun(states: seq<System>, steps: seq<SwappedStep>) {
    && |states| == |steps| + 1
    && Inv(states[0])
    && forall i :: 0 <= i < |steps| ==> SwappedNext(states[i], steps[i], states[i + 1])
  }

  /** The order matters: a message that is committed and published between the catch-up and
      the registration is unread, and nothing under way will ever announce it. */
  lemma CatchUpFirstLoses(f: Filter, m: Message) returns (states: seq<System>, steps: seq<SwappedStep>)
    requires Matches(f, m) && m.seqNo == 1
    ensures SwappedRun(states, steps)
    ensures var s := states[|states| - 1];
      && 0 in s.subs && 0 in s.readers && s.subs[0].filter == f
      && Beyond(s.index, f, s.readers[0].cursor, m) && !Pending(s, 0, m)
  {
    hide Matches;
    NobodyYet();
    steps := [Look(0, f, 0), Other(Commit(m)), Other(Publish(m)), Register(0, f)];
    var s0 := System([], 0, multiset{}, map[], map[]);
    var s1 := s0.(readers := map[0 := Reader(0, 0, true, false, {})]);
    var s2 := s1.(index := [m], last := 1, inFlight := multiset{m});
    var s3 := s2.(inFlight := multiset{});
    var s4 := s3.(subs := map[0 := Subscription(f, Empty)]);
    states := [s0, s1, s2, s3, s4];
    assert SwappedNext(s0, steps[0], s1);
    assert s0.index + [m] == [m] && multiset{} + multiset{m} == multiset{m};
    assert SwappedNext(s1, steps[1], s2);
    assert Fanout(map[], m) == map[] && multiset{m} - multiset{m} == multiset{};
    assert SwappedNext(s2, steps[2], s3);
    assert SwappedNext(s3, steps[3], s4);
    assert SwappedRun(states, steps);
  }
}
