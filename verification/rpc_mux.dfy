/** The RPC multiplexer of `providerbroker/codex_session.go`. */
module RpcMux {
  // Callers, the reader and the death path share a map of pending calls. Each step is one
  // critical section under `pendingMu` or one channel operation; any interleaving of steps
  // is a run.

  /** A reply carries the id that the server put in it. */
  datatype Result = Reply(id: nat) | Dead

  datatype Outcome = Got(r: Result) | DeadErr | WriteErr | CtxErr

  datatype Phase =
    | Fresh       // id and channel made, not yet registered
    | Registered  // in the map, request not yet written
    | Waiting     // in the select
    | Returned(o: Outcome)

  datatype Caller = Caller(ch: nat, phase: Phase)

  /** What the reader does between taking a channel out of the map and sending on it. */
  datatype Hand = Idle | Holding(id: nat, ch: nat)

  /** `markDead` runs once: it takes the whole map, then sends to each channel, then
      closes `done`. */
  datatype Death = Alive | Draining(todo: map<nat, nat>) | Finished

  /** `chans` are the contents of the channels, of capacity one; `sent` counts every send
      that was ever made on a channel. */
  datatype Mux = Mux(
    nextID: nat, nextCh: nat,
    callers: map<nat, Caller>,
    pending: map<nat, nat>,
    chans: map<nat, seq<Result>>, sent: map<nat, nat>,
    hand: Hand, death: Death)

  datatype Step =
    | NewCall
    | Register(id: nat)
    | WriteOk(id: nat)
    | WriteFails(id: nat)
    | TakeReply(id: nat)   // the reader, under the lock
    | SendReply            // the reader, after it
    | MarkDead
    | SendDead(id: nat)
    | Finish
    | Receive(id: nat)
    | Timeout(id: nat)
    | SeeDone(id: nat)

  ghost predicate In(s: Mux, id: nat, phase: Phase) {
    id in s.callers && s.callers[id].phase == phase
  }

  function Moved(s: Mux, id: nat, phase: Phase): Mux
    requires id in s.callers
  {
    s.(callers := s.callers[id := s.callers[id].(phase := phase)])
  }

  /** A send finds room: the channel is empty. */
  ghost predicate HasRoom(s: Mux, ch: nat) {
    ch in s.chans && ch in s.sent && s.chans[ch] == []
  }

  function Sent(s: Mux, ch: nat, r: Result): Mux
    requires ch in s.chans && ch in s.sent
  {
    s.(chans := s.chans[ch := s.chans[ch] + [r]], sent := s.sent[ch := s.sent[ch] + 1])
  }

  ghost predicate Next(s: Mux, step: Step, s': Mux) {
    match step
    case NewCall =>
      var id, ch := s.nextID + 1, s.nextCh;
      s' == s.(nextID := id, nextCh := ch + 1, callers := s.callers[id := Caller(ch, Fresh)],
               chans := s.chans[ch := []], sent := s.sent[ch := 0])
    case Register(id) =>
      && In(s, id, Fresh)
      && s' == if s.death != Alive then Moved(s, id, Returned(DeadErr))
               else Moved(s, id, Registered).(pending := s.pending[id := s.callers[id].ch])
    case WriteOk(id) => In(s, id, Registered) && s' == Moved(s, id, Waiting)
    case WriteFails(id) =>
      In(s, id, Registered) && s' == Moved(s, id, Returned(WriteErr)).(pending := s.pending - {id})
    case TakeReply(id) =>
      && s.hand == Idle
      && s' == if id in s.pending then s.(hand := Holding(id, s.pending[id]), pending := s.pending - {id}) else s
    case SendReply =>
      && s.hand.Holding? && HasRoom(s, s.hand.ch)
      && s' == Sent(s, s.hand.ch, Reply(s.hand.id)).(hand := Idle)
    case MarkDead => s.death == Alive && s' == s.(death := Draining(s.pending), pending := map[])
    case SendDead(id) =>
      && s.death.Draining? && id in s.death.todo && HasRoom(s, s.death.todo[id])
      && s' == Sent(s, s.death.todo[id], Dead).(death := Draining(s.death.todo - {id}))
    case Finish => s.death == Draining(map[]) && s' == s.(death := Finished)
    case Receive(id) =>
      && In(s, id, Waiting) && s.callers[id].ch in s.chans
      && var ch := s.callers[id].ch;
      && s.chans[ch] != []
      && s' == Moved(s, id, Returned(Got(s.chans[ch][0]))).(chans := s.chans[ch := s.chans[ch][1..]])
    case Timeout(id) =>
      In(s, id, Waiting) && s' == Moved(s, id, Returned(CtxErr)).(pending := s.pending - {id})
    case SeeDone(id) => In(s, id, Waiting) && s.death == Finished && s' == Moved(s, id, Returned(DeadErr))
  }

  // ---------------------------------------------------------------------------
  // Every registered call is in exactly one place

  function Todo(s: Mux): map<nat, nat> {
    if s.death.Draining? then s.death.todo else map[]
  }

  /** Where the duty to answer a call may be: the map, the reader's hand, the death path's
      list, or discharged by a send. */
  function Places(s: Mux, id: nat): nat
    requires id in s.callers && s.callers[id].ch in s.sent
  {
    (if id in s.pending then 1 else 0) + (if s.hand.Holding? && s.hand.id == id then 1 else 0)
    + (if id in Todo(s) then 1 else 0) + s.sent[s.callers[id].ch]
  }

  ghost predicate Accounted(s: Mux, id: nat)
    requires id in s.callers
  {
    var c := s.callers[id];
    && 1 <= id <= s.nextID
    && c.ch < s.nextCh && c.ch in s.chans && c.ch in s.sent
    && Places(s, id) <= 1
    && (c.phase == Fresh ==> Places(s, id) == 0)
    && (c.phase == Registered || c.phase == Waiting ==> Places(s, id) == 1 && |s.chans[c.ch]| == s.sent[c.ch])
    && |s.chans[c.ch]| <= s.sent[c.ch]
    && (forall r :: r in s.chans[c.ch] ==> r == Dead || r == Reply(id))
    && (c.phase.Returned? ==> id !in s.pending)
    && (c.phase.Returned? && c.phase.o.Got? ==> c.phase.o.r == Dead || c.phase.o.r == Reply(id))
  }

  ghost predicate OwnChannel(s: Mux, id: nat, ch: nat) {
    id in s.callers && s.callers[id].ch == ch
  }

  ghost predicate Inv(s: Mux) {
    && (forall id :: id in s.callers ==> Accounted(s, id))
    && (forall a, b :: a in s.callers && b in s.callers && a != b ==> s.callers[a].ch != s.callers[b].ch)
    && (forall id :: id in s.pending ==> OwnChannel(s, id, s.pending[id]))
    && (s.hand.Holding? ==> OwnChannel(s, s.hand.id, s.hand.ch))
    && (forall id :: id in Todo(s) ==> OwnChannel(s, id, Todo(s)[id]))
    && (s.death != Alive ==> s.pending == map[])
  }

  lemma Start()
    ensures Inv(Mux(0, 0, map[], map[], map[], map[], Idle, Alive))
  {
  }

  /** The reader and the death path never block: whoever holds a call finds its channel
      empty. */
  lemma SendNeverBlocks(s: Mux)
    requires Inv(s)
    ensures s.hand.Holding? ==> HasRoom(s, s.hand.ch)
    ensures forall id :: id in Todo(s) ==> HasRoom(s, Todo(s)[id])
  {
    if s.hand.Holding? {
      assert Accounted(s, s.hand.id);
    }
    forall id | id in Todo(s)
      ensures HasRoom(s, Todo(s)[id])
    {
      assert OwnChannel(s, id, Todo(s)[id]) && Accounted(s, id);
    }
  }

  /** Nothing a call is accounted for by has changed. */
  lemma SameAccounted(s: Mux, s': Mux, id: nat)
    requires id in s.callers && Accounted(s, id)
    requires id in s'.callers && s'.callers[id] == s.callers[id]
    requires s'.nextID >= s.nextID && s'.nextCh >= s.nextCh
    requires var ch := s.callers[id].ch;
      && ch in s'.chans && s'.chans[ch] == s.chans[ch] && ch in s'.sent && s'.sent[ch] == s.sent[ch]
    requires id in s'.pending <==> id in s.pending
    requires (s'.hand.Holding? && s'.hand.id == id) <==> (s.hand.Holding? && s.hand.id == id)
    requires id in Todo(s') <==> id in Todo(s)
    ensures Accounted(s', id)
  {
    SamePlaces(s, s', id);
    hide Todo, Places;
    var c := s.callers[id];
    assert s'.callers[id] == c && s'.chans[c.ch] == s.chans[c.ch] && s'.sent[c.ch] == s.sent[c.ch];
  }

  lemma SamePlaces(s: Mux, s': Mux, id: nat)
    requires id in s.callers && s.callers[id].ch in s.sent
    requires id in s'.callers && s'.callers[id] == s.callers[id]
    requires s.callers[id].ch in s'.sent && s'.sent[s.callers[id].ch] == s.sent[s.callers[id].ch]
    requires id in s'.pending <==> id in s.pending
    requires (s'.hand.Holding? && s'.hand.id == id) <==> (s.hand.Holding? && s.hand.id == id)
    requires id in Todo(s') <==> id in Todo(s)
    ensures Places(s', id) == Places(s, id)
  {
  }

  lemma NewCallInv(s: Mux, s': Mux)
    requires Inv(s) && Next(s, NewCall, s')
    ensures Inv(s')
  {
    hide Accounted;
    var id, ch := s.nextID + 1, s.nextCh;
    OldCallers(s);
    forall x | x in s'.callers
      ensures Accounted(s', x)
    {
      if x == id {
        NewAccounted(s, s');
      } else {
        SameAccounted(s, s', x);
      }
    }
    assert Todo(s') == Todo(s);
    forall x | x in s'.pending ensures OwnChannel(s', x, s'.pending[x]) { assert OwnChannel(s, x, s.pending[x]); }
    forall x | x in Todo(s') ensures OwnChannel(s', x, Todo(s')[x]) { assert OwnChannel(s, x, Todo(s)[x]); }
    hide Todo;
    assert forall x :: x in s.callers ==> s'.callers[x].ch != ch;
  }

  lemma OldCallers(s: Mux)
    requires Inv(s)
    ensures forall id :: id in s.callers ==> 1 <= id <= s.nextID && s.callers[id].ch < s.nextCh
    ensures forall id :: id in s.callers ==> s.callers[id].ch in s.chans && s.callers[id].ch in s.sent
  {
    forall id | id in s.callers
      ensures 1 <= id <= s.nextID && s.callers[id].ch < s.nextCh
      ensures s.callers[id].ch in s.chans && s.callers[id].ch in s.sent
    {
      assert Accounted(s, id);
    }
  }

  lemma NewAccounted(s: Mux, s': Mux)
    requires Inv(s) && Next(s, NewCall, s')
    ensures Accounted(s', s.nextID + 1)
  {
    OldCallers(s);
    var id := s.nextID + 1;
    assert id !in s.callers;
    assert id !in s.pending && id !in Todo(s) && !(s.hand.Holding? && s.hand.id == id);
  }

  /** A step that touches the account of one call only. */
  lemma OneCallInv(s: Mux, s': Mux, id: nat)
    requires Inv(s) && id in s.callers && s'.callers.Keys == s.callers.Keys
    requires s'.callers[id].ch == s.callers[id].ch && Accounted(s', id)
    requires s'.nextID == s.nextID && s'.nextCh == s.nextCh
    requires forall x :: x in s.callers && x != id ==> s'.callers[x] == s.callers[x]
    requires s'.chans.Keys == s.chans.Keys && s'.sent.Keys == s.sent.Keys
    requires forall c :: c in s.chans && c != s.callers[id].ch ==> s'.chans[c] == s.chans[c]
    requires forall c :: c in s.sent && c != s.callers[id].ch ==> s'.sent[c] == s.sent[c]
    requires forall x :: x != id ==> (x in s'.pending <==> x in s.pending) && (x in s.pending ==> s'.pending[x] == s.pending[x])
    requires forall x :: x != id ==> (x in Todo(s') <==> x in Todo(s)) && (x in Todo(s) ==> Todo(s')[x] == Todo(s)[x])
    requires id in s'.pending ==> s'.pending[id] == s.callers[id].ch
    requires id in Todo(s') ==> Todo(s')[id] == s.callers[id].ch
    requires s'.hand == s.hand || s'.hand == Idle || s'.hand == Holding(id, s.callers[id].ch)
    requires s'.hand != s.hand ==> s.hand == Idle || s.hand.id == id
    requires s'.death != Alive ==> s'.pending == map[]
    ensures Inv(s')
  {
    hide Accounted, Todo;
    OldCallers(s);
    forall x | x in s'.callers
      ensures Accounted(s', x)
    {
      if x != id {
        SameAccounted(s, s', x);
      }
    }
    forall x | x in s'.pending ensures OwnChannel(s', x, s'.pending[x]) { assert x != id ==> OwnChannel(s, x, s.pending[x]); }
    forall x | x in Todo(s') ensures OwnChannel(s', x, Todo(s')[x]) { assert x != id ==> OwnChannel(s, x, Todo(s)[x]); }
  }

  /** Where the account of `id` may be in a state with the invariant. */
  lemma AccountOf(s: Mux, id: nat)
    requires Inv(s) && id in s.callers
    ensures Accounted(s, id)
    ensures id in s.pending ==> s.pending[id] == s.callers[id].ch
    ensures id in Todo(s) ==> Todo(s)[id] == s.callers[id].ch
    ensures s.hand.Holding? && s.hand.id == id ==> s.hand.ch == s.callers[id].ch
  {
    hide Accounted, Todo;
    assert id in s.pending ==> OwnChannel(s, id, s.pending[id]);
    assert id in Todo(s) ==> OwnChannel(s, id, Todo(s)[id]);
  }

  lemma RegisterInv(s: Mux, s': Mux, id: nat)
    requires Inv(s) && Next(s, Register(id), s')
    ensures Inv(s')
  {
    hide Inv, OwnChannel;
    AccountOf(s, id);
    DeadIsEmpty(s);
    assert Todo(s') == Todo(s);
    OneCallInv(s, s', id);
  }

  lemma DeadIsEmpty(s: Mux)
    requires Inv(s)
    ensures s.death != Alive ==> s.pending == map[]
  {
  }

  /** A caller that leaves, or goes on to wait, without touching a channel. */
  lemma LeaveInv(s: Mux, s': Mux, id: nat, phase: Phase, drop: bool)
    requires Inv(s) && id in s.callers
    requires s.callers[id].phase == Registered || s.callers[id].phase == Waiting
    requires phase == Waiting || (phase.Returned? && !phase.o.Got?)
    requires drop ==> phase.Returned?
    requires phase.Returned? ==> drop || s.death != Alive
    requires s' == Moved(s, id, phase).(pending := if drop then s.pending - {id} else s.pending)
    ensures Inv(s')
  {
    hide Inv, OwnChannel;
    AccountOf(s, id);
    DeadIsEmpty(s);
    assert Todo(s') == Todo(s);
    OneCallInv(s, s', id);
  }

  lemma ReceiveInv(s: Mux, s': Mux, id: nat)
    requires Inv(s) && Next(s, Receive(id), s')
    ensures Inv(s')
  {
    hide Inv, OwnChannel;
    AccountOf(s, id);
    DeadIsEmpty(s);
    var ch := s.callers[id].ch;
    assert |s.chans[ch]| == 1 && s.chans[ch][0] in s.chans[ch];
    assert s'.chans[ch] == [];
    assert Todo(s') == Todo(s);
    OneCallInv(s, s', id);
  }

  lemma TakeReplyInv(s: Mux, s': Mux, id: nat)
    requires Inv(s) && Next(s, TakeReply(id), s')
    ensures Inv(s')
  {
    hide Inv, OwnChannel;
    if id in s.pending {
      PendingIsCaller(s, id);
      AccountOf(s, id);
      DeadIsEmpty(s);
      assert Todo(s') == Todo(s);
      OneCallInv(s, s', id);
    }
  }

  lemma PendingIsCaller(s: Mux, id: nat)
    requires Inv(s)
    ensures id in s.pending ==> id in s.callers
    ensures id in Todo(s) ==> id in s.callers
    ensures s.hand.Holding? ==> s.hand.id in s.callers
  {
    hide Accounted, Todo;
    assert id in s.pending ==> OwnChannel(s, id, s.pending[id]);
    assert id in Todo(s) ==> OwnChannel(s, id, Todo(s)[id]);
  }

  lemma SendReplyInv(s: Mux, s': Mux)
    requires Inv(s) && Next(s, SendReply, s')
    ensures Inv(s')
  {
    hide Inv, OwnChannel;
    var id := s.hand.id;
    PendingIsCaller(s, id);
    AccountOf(s, id);
    DeadIsEmpty(s);
    assert s'.chans[s.hand.ch] == [Reply(id)];
    assert Todo(s') == Todo(s);
    OneCallInv(s, s', id);
  }

  lemma SendDeadInv(s: Mux, s': Mux, id: nat)
    requires Inv(s) && Next(s, SendDead(id), s')
    ensures Inv(s')
  {
    hide Inv, OwnChannel;
    PendingIsCaller(s, id);
    AccountOf(s, id);
    DeadIsEmpty(s);
    assert s'.chans[s.callers[id].ch] == [Dead];
    assert Todo(s') == Todo(s) - {id};
    OneCallInv(s, s', id);
  }

  /** The whole map moves to the death path's list at once. */
  lemma MarkDeadInv(s: Mux, s': Mux)
    requires Inv(s) && Next(s, MarkDead, s')
    ensures Inv(s')
  {
    hide OwnChannel;
    assert Todo(s) == map[] && Todo(s') == s.pending && s'.pending == map[];
    forall id | id in s'.callers
      ensures Accounted(s', id)
    {
      assert Accounted(s, id);
      assert Places(s', id) == Places(s, id);
    }
    hide Accounted;
    forall x | x in Todo(s') ensures OwnChannel(s', x, Todo(s')[x]) { SameOwner(s, s', x, s.pending[x]); }
    if s'.hand.Holding? {
      SameOwner(s, s', s.hand.id, s.hand.ch);
    }
  }

  lemma SameOwner(s: Mux, s': Mux, id: nat, ch: nat)
    requires OwnChannel(s, id, ch) && s'.callers == s.callers
    ensures OwnChannel(s', id, ch)
  {
  }

  lemma FinishInv(s: Mux, s': Mux)
    requires Inv(s) && Next(s, Finish, s')
    ensures Inv(s')
  {
    hide Accounted, OwnChannel;
    assert Todo(s) == map[] && Todo(s') == map[];
    OldCallers(s);
    forall id | id in s'.callers
      ensures Accounted(s', id)
    {
      SameAccounted(s, s', id);
    }
    if s'.hand.Holding? {
      SameOwner(s, s', s.hand.id, s.hand.ch);
    }
  }

  lemma NextInv(s: Mux, step: Step, s': Mux)
    requires Inv(s) && Next(s, step, s')
    ensures Inv(s')
  {
    hide Inv, Todo, HasRoom;
    match step {
      case NewCall => NewCallInv(s, s');
      case Register(id) => RegisterInv(s, s', id);
      case WriteOk(id) => LeaveInv(s, s', id, Waiting, false);
      case WriteFails(id) => LeaveInv(s, s', id, Returned(WriteErr), true);
      case TakeReply(id) => TakeReplyInv(s, s', id);
      case SendReply => SendReplyInv(s, s');
      case MarkDead => MarkDeadInv(s, s');
      case SendDead(id) => SendDeadInv(s, s', id);
      case Finish => FinishInv(s, s');
      case Receive(id) => ReceiveInv(s, s', id);
      case Timeout(id) => LeaveInv(s, s', id, Returned(CtxErr), true);
      case SeeDone(id) => LeaveInv(s, s', id, Returned(DeadErr), false);
    }
  }

  // ---------------------------------------------------------------------------
  // Runs

  ghost predicate Run(states: seq<Mux>, steps: seq<Step>) {
    && |states| == |steps| + 1
    && Inv(states[0])
    && forall i :: 0 <= i < |steps| ==> Next(states[i], steps[i], states[i + 1])
  }

  lemma {:induction false} AlwaysInv(states: seq<Mux>, steps: seq<Step>, i: nat)
    requires Run(states, steps) && i < |states|
    ensures Inv(states[i])
  {
    hide Next, Inv;
    if i > 0 {
      AlwaysInv(states, steps, i - 1);
      NextInv(states[i - 1], steps[i - 1], states[i]);
    }
  }

  /** At every point of every run: no send can block, each call's channel has been sent to
      at most once, what a call got is its own reply or the death notice, and a call that has
      returned is no longer in the map. */
  lemma RpcSafety(states: seq<Mux>, steps: seq<Step>, i: nat, id: nat)
    requires Run(states, steps) && i < |states| && id in states[i].callers
    ensures var s := states[i]; var c := s.callers[id];
      && (s.hand.Holding? ==> HasRoom(s, s.hand.ch))
      && (forall x :: x in Todo(s) ==> HasRoom(s, Todo(s)[x]))
      && c.ch in s.sent && s.sent[c.ch] <= 1
      && (c.phase.Returned? ==> id !in s.pending)
      && (c.phase.Returned? && c.phase.o.Got? ==> c.phase.o.r == Dead || c.phase.o.r == Reply(id))
  {
    hide Next, HasRoom, Inv, Todo;
    AlwaysInv(states, steps, i);
    SendNeverBlocks(states[i]);
    AccountOf(states[i], id);
  }

  /** A step that lets the call leave its select, or that brings it the value it waits for,
      is enabled. */
  ghost predicate CanProceed(s: Mux, id: nat)
    requires id in s.callers
  {
    var ch := s.callers[id].ch;
    || (exists s' :: Next(s, Receive(id), s'))
    || (exists s' :: Next(s, SeeDone(id), s'))
    || (s.hand.Holding? && s.hand.id == id && exists s' :: Next(s, SendReply, s'))
    || (exists s' :: Next(s, SendDead(id), s'))
  }

  /** A waiting call is never forgotten: it is in the map, where a reply or the death path
      finds it, or a step that serves it is enabled; after the death path has finished it
      can return at once. */
  lemma NeverForgotten(states: seq<Mux>, steps: seq<Step>, i: nat, id: nat)
    requires Run(states, steps) && i < |states| && In(states[i], id, Waiting)
    ensures id in states[i].pending || CanProceed(states[i], id)
    ensures states[i].death != Alive ==> id !in states[i].pending
    ensures states[i].death == Finished ==> exists s' :: Next(states[i], SeeDone(id), s')
  {
    hide Inv, Run;
    AlwaysInv(states, steps, i);
    var s := states[i];
    AccountOf(s, id);
    DeadIsEmpty(s);
    SendNeverBlocks(s);
    var ch := s.callers[id].ch;
    if s.death == Finished {
      assert Next(s, SeeDone(id), Moved(s, id, Returned(DeadErr)));
    }
    if s.sent[ch] == 1 {
      assert Next(s, Receive(id), Moved(s, id, Returned(Got(s.chans[ch][0]))).(chans := s.chans[ch := s.chans[ch][1..]]));
    } else if s.hand.Holding? && s.hand.id == id {
      assert Next(s, SendReply, Sent(s, s.hand.ch, Reply(s.hand.id)).(hand := Idle));
    } else if id in Todo(s) {
      assert Next(s, SendDead(id), Sent(s, s.death.todo[id], Dead).(death := Draining(s.death.todo - {id})));
    }
  }

  lemma {:induction false} DeadStaysDead(states: seq<Mux>, steps: seq<Step>, i: nat, j: nat)
    requires Run(states, steps) && i <= j < |states| && states[i].death != Alive
    ensures states[j].death != Alive
    decreases j - i
  {
    hide Inv;
    if i < j {
      DeadStaysDead(states, steps, i, j - 1);
      DeathAdvances(states[j - 1], steps[j - 1], states[j]);
    }
  }

  lemma DeathAdvances(s: Mux, step: Step, s': Mux)
    requires Next(s, step, s') && s.death != Alive
    ensures s'.death != Alive
  {
  }

  /** Once the death path has begun, no call ever registers again: one that tries returns
      with the death error. */
  lemma NoneRegistersAfterDeath(states: seq<Mux>, steps: seq<Step>, i: nat, j: nat, id: nat)
    requires Run(states, steps) && i <= j < |steps| && states[i].death != Alive
    requires steps[j] == Register(id)
    ensures In(states[j + 1], id, Returned(DeadErr))
    ensures states[j + 1].pending == map[]
  {
    hide Inv;
    DeadStaysDead(states, steps, i, j);
    DeadStaysDead(states, steps, i, j + 1);
    AlwaysInv(states, steps, j + 1);
    DeadIsEmpty(states[j + 1]);
    assert Next(states[j], Register(id), states[j + 1]);
  }
}
