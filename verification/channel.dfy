/** The agent channel (`comms/`): its journal records, its in-memory state and what each
    operation makes of that state. Every operation is one critical section. A failing
    journal append, the clock and the order in which a map is iterated are parameters. */
module Channel {
  type Tenant = nat

  datatype Payload = Payload(
    area: string, from: string, kind: string, text: string, target: string, ref: nat,
    blobID: string, mime: string, w: int, h: int, size: int, expiresAt: int, deadline: int)

  datatype Status = Pending | Claimed | Overdue | Done | Cancel

  datatype TaskState = TaskState(status: Status, holder: string, leaseUntil: int, deadline: int)

  /** A message's id is its journal sequence number: record `i` of the journal has number
      `i + 1`. */
  datatype Message = Message(seqNo: nat, tenant: Tenant, ts: int, body: Payload)

  datatype Key = Key(tenant: Tenant, seqNo: nat)

  datatype Event =
    | Posted(p: Payload)
    | Imaged(p: Payload)
    | AreaCleared(area: string)
    | BlobPinned(blobID: string, on: bool)
    | StateChanged(task: nat, status: Status, agent: string, leaseUntil: int)
    | Foreign  // any record that belongs to another user of the journal

  datatype Record = Record(tenant: Tenant, tstamp: int, event: Event)

  datatype Channel = Channel(
    journal: seq<Record>,
    entries: seq<Message>,
    tasks: map<Key, TaskState>,
    pinned: map<string, set<Tenant>>,
    retainN: int,
    retainAge: int,
    leaseTTL: int,
    ownerLabel: string)

  function KeyOf(m: Message): Key {
    Key(m.tenant, m.seqNo)
  }

  predicate ExpiredAt(p: Payload, now: int) {
    p.expiresAt > 0 && now > p.expiresAt
  }

  predicate Terminal(s: Status) {
    s == Done || s == Cancel
  }

  function Logged(c: Channel, tenant: Tenant, stamp: int, e: Event): Channel {
    c.(journal := c.journal + [Record(tenant, stamp, e)])
  }

  // ---------------------------------------------------------------------------
  // Cutting messages out of the index

  /** What a pass over the index removes: expired messages, or an area up to a record. */
  datatype Cut = Stale(now: int) | Area(tenant: Tenant, area: string, before: nat)

  predicate Hits(cut: Cut, m: Message) {
    match cut
    case Stale(now) => ExpiredAt(m.body, now)
    case Area(tenant, area, before) => m.tenant == tenant && m.body.area == area && m.seqNo < before
  }

  function Without(es: seq<Message>, cut: Cut): seq<Message> {
    if es == [] then []
    else
      var last := |es| - 1;
      Without(es[..last], cut) + if Hits(cut, es[last]) then [] else [es[last]]
  }

  ghost function Keys(es: seq<Message>): set<Key> {
    set m | m in es :: KeyOf(m)
  }

  /** Tasks of messages that left the index go with them. */
  ghost function TasksOf(tasks: map<Key, TaskState>, before: seq<Message>, after: seq<Message>): map<Key, TaskState> {
    tasks - (Keys(before) - Keys(after))
  }

  // ---------------------------------------------------------------------------
  // Retention

  function Cutoff(retainAge: int, now: int): int {
    if retainAge > 0 then now - retainAge else 0
  }

  predicate InAge(m: Message, cutoff: int) {
    !(cutoff > 0 && m.ts < cutoff)
  }

  /** How many messages of `tenant` are inside the age bound. */
  function CountInAge(es: seq<Message>, tenant: Tenant, cutoff: int): nat {
    if es == [] then 0
    else (if es[0].tenant == tenant && InAge(es[0], cutoff) then 1 else 0) + CountInAge(es[1..], tenant, cutoff)
  }

  predicate KeepFirst(es: seq<Message>, n: int, cutoff: int)
    requires es != []
  {
    InAge(es[0], cutoff) && (n <= 0 || CountInAge(es[1..], es[0].tenant, cutoff) < n)
  }

  /** The messages that survive retention: inside the age bound, and with fewer than `n`
      newer ones of the same tenant. */
  function Pruned(es: seq<Message>, n: int, cutoff: int): seq<Message> {
    if es == [] then []
    else (if KeepFirst(es, n, cutoff) then [es[0]] else []) + Pruned(es[1..], n, cutoff)
  }

  ghost function AfterPrune(c: Channel, now: int): Channel {
    if c.retainN <= 0 && c.retainAge <= 0 then c
    else
      var kept := Pruned(c.entries, c.retainN, Cutoff(c.retainAge, now));
      c.(entries := kept, tasks := TasksOf(c.tasks, c.entries, kept))
  }

  // ---------------------------------------------------------------------------
  // Posting, clearing, pinning

  function Seed(tasks: map<Key, TaskState>, m: Message): map<Key, TaskState> {
    if m.body.kind != "task" || KeyOf(m) in tasks then tasks
    else tasks[KeyOf(m) := TaskState(Pending, "", 0, m.body.deadline)]
  }

  predicate PostRefused(p: Payload) {
    p.area == "" || p.from == "" || p.text == ""
  }

  predicate ImageRefused(p: Payload) {
    p.area == "" || p.from == "" || p.blobID == "" || p.mime == ""
  }

  function WithKind(p: Payload): Payload {
    if p.kind == "" then p.(kind := "note") else p
  }

  ghost function Indexed(c: Channel, tenant: Tenant, stamp: int, ts: int, e: Event): Channel
    requires e.Posted? || e.Imaged?
  {
    var m := Message(|c.journal| + 1, tenant, ts, e.p);
    var tasks := if e.Posted? then Seed(c.tasks, m) else c.tasks;
    AfterPrune(Logged(c, tenant, stamp, e).(entries := c.entries + [m], tasks := tasks), ts)
  }

  /** `stamp` is the journal's time of the record, `ts` the later time of the index entry. */
  ghost function AfterPost(c: Channel, tenant: Tenant, p: Payload, stamp: int, ts: int, ok: bool): Channel {
    if PostRefused(p) || !ok then c else Indexed(c, tenant, stamp, ts, Posted(WithKind(p)))
  }

  ghost function AfterPostImage(c: Channel, tenant: Tenant, p: Payload, stamp: int, ts: int, ok: bool): Channel {
    if ImageRefused(p) || !ok then c else Indexed(c, tenant, stamp, ts, Imaged(p.(kind := "image")))
  }

  /** Clear drops messages but not the states of their tasks. */
  ghost function AfterClear(c: Channel, tenant: Tenant, area: string, stamp: int, ok: bool): Channel {
    if area == "" || !ok then c
    else
      Logged(c, tenant, stamp, AreaCleared(area)).(
        entries := Without(c.entries, Area(tenant, area, |c.journal| + 1)))
  }

  function Pinned(pinned: map<string, set<Tenant>>, tenant: Tenant, blobID: string, on: bool): map<string, set<Tenant>> {
    var tenants := if blobID in pinned then pinned[blobID] else {};
    if on then pinned[blobID := tenants + {tenant}]
    else if tenants - {tenant} == {} then pinned - {blobID}
    else pinned[blobID := tenants - {tenant}]
  }

  ghost function AfterPin(c: Channel, tenant: Tenant, blobID: string, on: bool, stamp: int, ok: bool): Channel {
    if blobID == "" || !ok then c
    else Logged(c, tenant, stamp, BlobPinned(blobID, on)).(pinned := Pinned(c.pinned, tenant, blobID, on))
  }

  // ---------------------------------------------------------------------------
  // Claiming and resolving

  predicate Claimable(t: TaskState, agent: string, now: int) {
    t.status == Pending || ((t.status == Claimed || t.status == Overdue) && (now > t.leaseUntil || t.holder == agent))
  }

  predicate ClaimSucceeds(c: Channel, k: Key, agent: string, now: int, ok: bool) {
    agent != "" && k in c.tasks && Claimable(c.tasks[k], agent, now) && ok
  }

  ghost function AfterClaim(c: Channel, k: Key, agent: string, now: int, stamp: int, ok: bool): Channel {
    if !ClaimSucceeds(c, k, agent, now, ok) then c
    else
      var lease := now + c.leaseTTL;
      Logged(c, k.tenant, stamp, StateChanged(k.seqNo, Claimed, agent, lease)).(
        tasks := c.tasks[k := TaskState(Claimed, agent, lease, c.tasks[k].deadline)])
  }

  function ResolveStatus(state: string): Status {
    if state == "cancel" then Cancel else Done
  }

  predicate ResolveSucceeds(c: Channel, k: Key, agent: string, state: string, ok: bool) {
    && agent != ""
    && (state == "" || state == "done" || state == "cancel")
    && k in c.tasks
    && (agent == c.tasks[k].holder || (c.ownerLabel != "" && agent == c.ownerLabel))
    && ok
  }

  ghost function AfterResolve(c: Channel, k: Key, agent: string, state: string, stamp: int, ok: bool): Channel {
    if !ResolveSucceeds(c, k, agent, state, ok) then c
    else
      Logged(c, k.tenant, stamp, StateChanged(k.seqNo, ResolveStatus(state), agent, 0)).(
        tasks := c.tasks[k := TaskState(ResolveStatus(state), agent, 0, c.tasks[k].deadline)])
  }

  // ---------------------------------------------------------------------------
  // The sweeper

  /** One round of the sweeper's task loop: the task it comes to, and whether the journal
      takes the events that the round may write. */
  datatype Visit = Visit(key: Key, leaseOk: bool, deadlineOk: bool, stamp: int)

  datatype Sweep = Sweep(journal: seq<Record>, tasks: map<Key, TaskState>, nudges: seq<Message>)

  predicate LeaseOver(t: TaskState, now: int) {
    t.status == Claimed && now > t.leaseUntil
  }

  predicate DeadlineOver(t: TaskState, now: int) {
    !Terminal(t.status) && t.status != Overdue && t.deadline > 0 && now > t.deadline
  }

  function Freed(t: TaskState): TaskState {
    TaskState(Pending, "", 0, t.deadline)
  }

  /** The message a flipped task nudges for, if it is still indexed. */
  function Nudge(es: seq<Message>, k: Key): (found: seq<Message>) {
    if es == [] then []
    else if KeyOf(es[|es| - 1]) == k then [es[|es| - 1]]
    else Nudge(es[..|es| - 1], k)
  }

  function Changed(s: Sweep, k: Key, t: TaskState, stamp: int, es: seq<Message>): Sweep {
    Sweep(s.journal + [Record(k.tenant, stamp, StateChanged(k.seqNo, t.status, t.holder, t.leaseUntil))],
          s.tasks[k := t], s.nudges + Nudge(es, k))
  }

  function VisitLease(s: Sweep, v: Visit, es: seq<Message>, now: int): Sweep
    requires v.key in s.tasks
  {
    if LeaseOver(s.tasks[v.key], now) then Changed(s, v.key, Freed(s.tasks[v.key]), v.stamp, es) else s
  }

  function VisitDeadline(s: Sweep, v: Visit, es: seq<Message>, now: int): Sweep
    requires v.key in s.tasks
  {
    if DeadlineOver(s.tasks[v.key], now) && v.deadlineOk
    then Changed(s, v.key, s.tasks[v.key].(status := Overdue), v.stamp, es)
    else s
  }

  /** A journal error on the lease event skips the deadline check as well. */
  function VisitTask(s: Sweep, v: Visit, es: seq<Message>, now: int): (s': Sweep)
    requires v.key in s.tasks
    ensures s'.tasks.Keys == s.tasks.Keys
  {
    if LeaseOver(s.tasks[v.key], now) && !v.leaseOk then s
    else VisitDeadline(VisitLease(s, v, es, now), v, es, now)
  }

  ghost predicate Visits(visits: seq<Visit>, keys: set<Key>) {
    forall i :: 0 <= i < |visits| ==> visits[i].key in keys
  }

  function VisitAll(s: Sweep, visits: seq<Visit>, es: seq<Message>, now: int): (s': Sweep)
    requires Visits(visits, s.tasks.Keys)
    ensures s'.tasks.Keys == s.tasks.Keys
  {
    if visits == [] then s
    else
      var last := |visits| - 1;
      VisitTask(VisitAll(s, visits[..last], es, now), visits[last], es, now)
  }

  /** Iterating a map: every key once, in any order. */
  ghost predicate Enumerates(visits: seq<Visit>, keys: set<Key>) {
    && Visits(visits, keys)
    && (forall i, j :: 0 <= i < j < |visits| ==> visits[i].key != visits[j].key)
    && (forall k :: k in keys ==> exists i :: 0 <= i < |visits| && visits[i].key == k)
  }

  ghost function Swept(c: Channel, now: int, visits: seq<Visit>): Sweep
    requires Visits(visits, c.tasks.Keys)
  {
    VisitAll(Sweep(c.journal, c.tasks, []), visits, c.entries, now)
  }

  ghost function AfterSweep(c: Channel, now: int, visits: seq<Visit>): Channel
    requires Visits(visits, c.tasks.Keys)
  {
    var s := Swept(c, now, visits);
    var fresh' := Without(c.entries, Stale(now));
    AfterPrune(c.(journal := s.journal, entries := fresh', tasks := TasksOf(s.tasks, c.entries, fresh')), now)
  }

  // ---------------------------------------------------------------------------
  // The state that a journal describes

  predicate IsMessage(r: Record) {
    r.event.Posted? || r.event.Imaged?
  }

  predicate ClearsMessage(clear: Record, r: Record) {
    clear.event.AreaCleared? && IsMessage(r) && clear.tenant == r.tenant && clear.event.area == r.event.p.area
  }

  /** Some later record clears record `i`. */
  ghost predicate IsCleared(journal: seq<Record>, i: nat) {
    exists c :: i < c < |journal| && ClearsMessage(journal[c], journal[i])
  }

  /** Record `i` is a message that nothing has cleared. */
  ghost predicate Live(journal: seq<Record>, i: nat) {
    i < |journal| && IsMessage(journal[i]) && !IsCleared(journal, i)
  }

  predicate ChangesTask(r: Record, k: Key) {
    r.event.StateChanged? && r.tenant == k.tenant && r.event.task == k.seqNo
  }

  /** The last state event of a task wins; without one it is pending. */
  function Replayed(journal: seq<Record>, k: Key, deadline: int): TaskState {
    if journal == [] then TaskState(Pending, "", 0, deadline)
    else
      var r := journal[|journal| - 1];
      if ChangesTask(r, k) then TaskState(r.event.status, r.event.agent, r.event.leaseUntil, deadline)
      else Replayed(journal[..|journal| - 1], k, deadline)
  }

  /** The last pin or unpin of a blob by a tenant wins. */
  predicate PinHeld(journal: seq<Record>, blobID: string, tenant: Tenant) {
    if journal == [] then false
    else
      var r := journal[|journal| - 1];
      if r.event.BlobPinned? && r.tenant == tenant && r.event.blobID == blobID then r.event.on
      else PinHeld(journal[..|journal| - 1], blobID, tenant)
  }

  ghost predicate Sorted(es: seq<Message>) {
    forall i, j :: 0 <= i < j < |es| ==> es[i].seqNo < es[j].seqNo
  }

  ghost predicate Listed(es: seq<Message>, seqNo: nat) {
    exists m :: m in es && m.seqNo == seqNo
  }

  /** The message carries the payload of its journal record. */
  ghost predicate FromRecord(journal: seq<Record>, m: Message) {
    && 1 <= m.seqNo <= |journal|
    && IsMessage(journal[m.seqNo - 1])
    && m.tenant == journal[m.seqNo - 1].tenant
    && m.body == journal[m.seqNo - 1].event.p
  }

  ghost predicate PinsMatch(pinned: map<string, set<Tenant>>, journal: seq<Record>) {
    && (forall b :: b in pinned ==> pinned[b] != {})
    && forall b, t :: (b in pinned && t in pinned[b]) <==> PinHeld(journal, b, t)
  }

  /** What `New` makes of a journal at time `now`. */
  ghost predicate IsRebuild(c: Channel, journal: seq<Record>, now: int) {
    && c.journal == journal
    && Sorted(c.entries)
    && (forall m :: m in c.entries ==> FromRecord(journal, m) && m.ts == journal[m.seqNo - 1].tstamp)
    && (forall i :: 0 <= i < |journal| ==>
          (Listed(c.entries, i + 1) <==> Live(journal, i) && !ExpiredAt(journal[i].event.p, now)))
    && (forall k :: k in c.tasks <==> exists m :: m in c.entries && m.body.kind == "task" && KeyOf(m) == k)
    && (forall m :: m in c.entries && m.body.kind == "task" ==>
          c.tasks[KeyOf(m)] == Replayed(journal, KeyOf(m), m.body.deadline))
    && PinsMatch(c.pinned, journal)
    && c.retainN == 0 && c.retainAge == 0 && c.leaseTTL == 0 && c.ownerLabel == ""
  }
}
