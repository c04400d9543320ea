/** Whole runs of the journal: appends across rotations, and crashes followed by recovery. */
module JournalRuns {
  import opened Crc32
  import opened Framing
  import opened JournalLayout

  /** Where `Append` puts a frame: a new segment when the current one would exceed the
      limit, even if the current one is still empty. */
  function Appended(parts: seq<seq<Bytes>>, f: Bytes, segMax: int): (after: seq<seq<Bytes>>)
    requires parts != []
    ensures after != []
  {
    var last := |parts| - 1;
    if |Concat(parts[last])| + |f| > segMax then parts + [[f]]
    else parts[last := parts[last] + [f]]
  }

  lemma DiskOfAppended(parts: seq<seq<Bytes>>, f: Bytes, segMax: int)
    requires parts != []
    ensures var last := |parts| - 1; var after := Appended(parts, f, segMax);
      && |after| == (if |Concat(parts[last])| + |f| > segMax then |parts| + 1 else |parts|)
      && (|after| == |parts| ==> DiskOf(after) == DiskOf(parts)[last := Concat(parts[last]) + f])
      && (|after| != |parts| ==> DiskOf(after) == DiskOf(parts) + [f])
  {
    hide Concat;
    var last := |parts| - 1;
    ConcatAdd(parts[last], f);
    assert Concat([f]) == f by { ConcatOne(f); }
  }

  lemma ConcatOne(f: Bytes)
    ensures Concat([f]) == f
  {
    assert [f] + [] == [f];
    ConcatCons(f, []);
  }

  /** One frame is added to the history and one location to the keydir; the location is
      the end of the last segment, or the start of a new one. */
  lemma HistoryOfAppended(parts: seq<seq<Bytes>>, f: Bytes, segMax: int)
    requires parts != []
    ensures var last := |parts| - 1; var after := Appended(parts, f, segMax);
      && Flatten(after) == Flatten(parts) + [f]
      && Layout(after, 0) == Layout(parts, 0) + [
           if |after| == |parts| then Location(last, |Concat(parts[last])|, |f|)
           else Location(last + 1, 0, |f|)]
  {
    hide Flatten, Layout, Locs, Concat;
    var last := |parts| - 1;
    var after := Appended(parts, f, segMax);
    if |after| == |parts| {
      SplitLast(parts);
      SplitLast(after);
      assert after[..last] == parts[..last];
      LocsAdd(last, 0, parts[last], f);
    } else {
      AddSegment(parts, 0, [f]);
      assert [] + [f] == [f];
      LocsAdd(last + 1, 0, [], f);
      NothingLaidOut(last + 1);
    }
  }

  lemma NothingLaidOut(seg: nat)
    ensures Concat([]) == [] && Locs(seg, 0, []) == []
  {
  }

  /** The segments and how many bytes of the last one have been synced. Earlier segments
      are synced when they are closed. */
  datatype State = State(parts: seq<seq<Bytes>>, durable: nat)

  /** A crash leaves `left` bytes of the last segment, and the journal is opened again. */
  datatype Op = Append(frame: Bytes, sync: bool) | Crash(left: nat)

  ghost predicate Laid(s: State) {
    s.parts != [] && AllFrames(s.parts) && s.durable <= |Concat(s.parts[|s.parts| - 1])|
  }

  /** Any frame may be appended, whatever the size of its payload. After a crash the
      journal is what recovery makes of the disk; there is no step when recovery fails. */
  ghost predicate Step(s: State, op: Op, s': State, segMax: int) {
    && s.parts != []
    && var last := |s.parts| - 1;
    match op
    case Append(f, sync) =>
      && IsFrame(f)
      && s'.parts == Appended(s.parts, f, segMax)
      && s'.durable == (if sync then |Concat(s'.parts[|s'.parts| - 1])|
                        else if |s'.parts| == |s.parts| then s.durable else 0)
    case Crash(left) =>
      && s.durable <= left <= |Concat(s.parts[last])|
      && s'.parts != [] && AllFrames(s'.parts)
      && RecoverAll(Crashed(s.parts, left), PayloadLimit(segMax)) == Recovered(Layout(s'.parts, 0), DiskOf(s'.parts))
      && s'.durable == |Concat(s'.parts[|s'.parts| - 1])|
  }

  ghost predicate Run(states: seq<State>, ops: seq<Op>, segMax: int) {
    && |states| == |ops| + 1
    && Laid(states[0])
    && forall i :: 0 <= i < |ops| ==> Step(states[i], ops[i], states[i + 1], segMax)
  }

  /** How many records are on disk for good. */
  function Synced(s: State): (n: nat)
    requires s.parts != []
    ensures n <= |Flatten(s.parts)|
  {
    var last := |s.parts| - 1;
    SplitLast(s.parts);
    |Flatten(s.parts[..last])| + Whole(s.parts[last], s.durable)
  }

  lemma {:induction false} WholeAdd(fs: seq<Bytes>, f: Bytes, n: nat)
    ensures Whole(fs, n) <= Whole(fs + [f], n)
    decreases |fs|
  {
    if fs != [] && |fs[0]| <= n {
      assert (fs + [f])[1..] == fs[1..] + [f];
      assert (fs + [f])[0] == fs[0];
      WholeAdd(fs[1..], f, n - |fs[0]|);
    }
  }

  lemma {:induction false} WholeMonotone(fs: seq<Bytes>, m: nat, n: nat)
    requires m <= n
    ensures Whole(fs, m) <= Whole(fs, n)
    decreases |fs|
  {
    if fs != [] && |fs[0]| <= m {
      WholeMonotone(fs[1..], m - |fs[0]|, n - |fs[0]|);
    }
  }

  // ---------------------------------------------------------------------------
  // One step

  lemma StepLaid(s: State, op: Op, s': State, segMax: int)
    requires Laid(s) && Step(s, op, s', segMax)
    ensures Laid(s')
  {
    hide IsFrame, Concat, Crashed, Layout, Survivors;
    match op
    case Append(f, sync) =>
      var last := |s.parts| - 1;
      ConcatAdd(s.parts[last], f);
      assert forall i :: 0 <= i < last ==> s'.parts[i] == s.parts[i];
    case Crash(left) =>
  }

  /** A crash gets through exactly when no earlier segment holds a payload over the limit,
      and what it leaves is then determined. */
  lemma CrashOutcome(s: State, left: nat, s': State, segMax: int)
    requires Laid(s) && Step(s, Crash(left), s', segMax)
    ensures Culprit(s.parts, PayloadLimit(segMax), 0) == |s.parts| - 1
    ensures s'.parts == Survivors(s.parts, left, PayloadLimit(segMax))
  {
    hide RecoverAll, Layout, DiskOf, Crashed, AllFrames, Survivors, Leading, Concat, PayloadLimit;
    RecoveryOutcome(s.parts, left, PayloadLimit(segMax));
    SurvivorsKeep(s.parts, left, PayloadLimit(segMax));
    SameDisk(s'.parts, Survivors(s.parts, left, PayloadLimit(segMax)));
  }

  ghost predicate CanReopen(s: State, left: nat, segMax: int) {
    exists s' :: Step(s, Crash(left), s', segMax)
  }

  lemma CrashSucceedsIff(s: State, left: nat, segMax: int)
    requires Laid(s) && s.durable <= left <= |Concat(s.parts[|s.parts| - 1])|
    ensures CanReopen(s, left, segMax)
            <==> AllWithin(s.parts[..|s.parts| - 1], PayloadLimit(segMax))
  {
    hide RecoverAll, Layout, DiskOf, Crashed, AllFrames, Survivors, Within, Leading, Concat, PayloadLimit;
    var limit := PayloadLimit(segMax);
    if s' :| Step(s, Crash(left), s', segMax) {
      CrashOutcome(s, left, s', segMax);
    }
    if AllWithin(s.parts[..|s.parts| - 1], limit) {
      var parts := Survivors(s.parts, left, limit);
      assert forall i :: 0 <= i < |s.parts| - 1 ==> s.parts[..|s.parts| - 1][i] == s.parts[i];
      RecoveryOutcome(s.parts, left, limit);
      SurvivorsKeep(s.parts, left, limit);
      assert Step(s, Crash(left), State(parts, |Concat(parts[|parts| - 1])|), segMax);
    }
  }

  /** The first `m` records are on disk for good in both states, and are the same. */
  ghost predicate KeepsFirst(s: State, s': State, m: nat)
    requires s.parts != [] && s'.parts != []
  {
    m <= Synced(s) && m <= Synced(s') && Flatten(s'.parts)[..m] == Flatten(s.parts)[..m]
  }

  /** The synced records, unchanged and in place. */
  ghost predicate KeepsSynced(s: State, s': State)
    requires s.parts != [] && s'.parts != []
  {
    KeepsFirst(s, s', Synced(s))
  }

  ghost predicate FirstWithin(s: State, m: nat, limit: nat)
    requires s.parts != [] && m <= Synced(s)
  {
    Within(Flatten(s.parts)[..m], limit)
  }

  /** Every synced record's payload is within the limit of recovery. */
  ghost predicate SyncedWithin(s: State, segMax: int)
    requires s.parts != []
  {
    FirstWithin(s, Synced(s), PayloadLimit(segMax))
  }

  lemma AppendKeepsSynced(s: State, f: Bytes, sync: bool, s': State, segMax: int)
    requires Step(s, Append(f, sync), s', segMax)
    ensures KeepsSynced(s, s')
  {
    hide Flatten, Whole, Concat, Layout, Locs, IsFrame;
    var last, last' := |s.parts| - 1, |s'.parts| - 1;
    HistoryOfAppended(s.parts, f, segMax);
    SplitLast(s.parts);
    SplitLast(s'.parts);
    if |s'.parts| == |s.parts| {
      assert s'.parts[..last] == s.parts[..last];
      WholeAdd(s.parts[last], f, s.durable);
      if sync {
        WholeOfAll(s'.parts[last]);
      }
    } else {
      assert s'.parts[..last'] == s.parts;
    }
  }

  lemma FlattenWithin(parts: seq<seq<Bytes>>, limit: nat)
    requires AllWithin(parts, limit)
    ensures Within(Flatten(parts), limit)
  {
    hide Accepted;
    if parts != [] {
      FlattenWithin(parts[1..], limit);
    }
  }

  /** How many frames of the last segment a crash and the recovery after it leave. */
  ghost function Lasting(fs: seq<Bytes>, left: nat, segMax: int): (k: nat)
    ensures k <= |fs|
  {
    Min(Whole(fs, left), Leading(fs, PayloadLimit(segMax)))
  }

  lemma CrashHistory(s: State, left: nat, s': State, segMax: int)
    requires Laid(s) && Step(s, Crash(left), s', segMax)
    ensures var fs, early := s.parts[|s.parts| - 1], Flatten(s.parts[..|s.parts| - 1]);
      && Flatten(s.parts) == early + fs
      && Flatten(s'.parts) == early + fs[..Lasting(fs, left, segMax)]
    ensures Synced(s') == |Flatten(s'.parts)| && Within(Flatten(s'.parts), PayloadLimit(segMax))
  {
    hide Flatten, Whole, Concat, Layout, Leading, RecoverAll, DiskOf, Crashed, AllFrames, AllWithin, Within, PayloadLimit;
    var last, limit := |s.parts| - 1, PayloadLimit(segMax);
    CrashOutcome(s, left, s', segMax);
    SplitLast(s.parts);
    SplitLast(s'.parts);
    assert s'.parts[..last] == s.parts[..last];
    WholeOfAll(s'.parts[last]);
    SurvivorsKeep(s.parts, left, limit);
    FlattenWithin(s'.parts, limit);
  }

  lemma WithinPrefix(fs: seq<Bytes>, n: nat, limit: nat)
    requires n <= |fs| && Within(fs, limit)
    ensures Within(fs[..n], limit)
  {
  }

  lemma PrefixLasts(early: seq<Bytes>, fs: seq<Bytes>, w: nat, m: nat, limit: nat)
    requires w <= |fs| && m <= |early| + w
    requires Within(early + fs[..Min(w, Leading(fs, limit))], limit)
    ensures var kept := early + fs[..Min(w, Leading(fs, limit))];
      m <= |kept| && kept[..m] == (early + fs)[..m] <==> Within((early + fs)[..m], limit)
  {
    hide Accepted, Leading;
    var l := Leading(fs, limit);
    var all, kept := early + fs, early + fs[..Min(w, l)];
    LeadingMeans(fs, limit);
    if m <= |kept| {
      assert kept[..m] == all[..m];
      WithinPrefix(kept, m, limit);
    } else {
      assert all[..m][|early| + l] == fs[l];
    }
  }

  /** A crash keeps the first `m` synced records if and only if their payloads are within
      the limit of recovery. */
  lemma CrashKeepsFirst(s: State, left: nat, s': State, segMax: int, m: nat)
    requires Laid(s) && Step(s, Crash(left), s', segMax) && m <= Synced(s)
    ensures KeepsFirst(s, s', m) <==> FirstWithin(s, m, PayloadLimit(segMax))
  {
    hide Flatten, Whole, Step, Leading, Within, PayloadLimit, Concat, AllFrames;
    CrashLeaves(s, left, s', segMax);
    CrashHistory(s, left, s', segMax);
    var fs, early := s.parts[|s.parts| - 1], Flatten(s.parts[..|s.parts| - 1]);
    WholeMonotone(fs, s.durable, left);
    PrefixLasts(early, fs, Whole(fs, left), m, PayloadLimit(segMax));
  }

  lemma CrashLeaves(s: State, left: nat, s': State, segMax: int)
    requires Step(s, Crash(left), s', segMax)
    ensures s.durable <= left
  {
  }

  lemma CrashKeepsSynced(s: State, left: nat, s': State, segMax: int)
    requires Laid(s) && Step(s, Crash(left), s', segMax)
    ensures KeepsSynced(s, s') <==> SyncedWithin(s, segMax)
  {
    hide KeepsFirst, FirstWithin, Step, PayloadLimit;
    CrashKeepsFirst(s, left, s', segMax, Synced(s));
  }

  // ---------------------------------------------------------------------------
  // Whole runs

  lemma {:induction false} AlwaysLaid(states: seq<State>, ops: seq<Op>, segMax: int, i: nat)
    requires Run(states, ops, segMax) && i < |states|
    ensures Laid(states[i])
  {
    hide Laid, Step;
    if i > 0 {
      AlwaysLaid(states, ops, segMax, i - 1);
      StepLaid(states[i - 1], ops[i - 1], states[i], segMax);
    }
  }

  lemma NotEmpty(s: State)
    requires Laid(s)
    ensures s.parts != []
  {
  }

  lemma StepKeepsFirst(s: State, op: Op, s': State, segMax: int, m: nat)
    requires Laid(s) && Step(s, op, s', segMax)
    requires m <= Synced(s) && FirstWithin(s, m, PayloadLimit(segMax))
    ensures s'.parts != [] && KeepsFirst(s, s', m) && FirstWithin(s', m, PayloadLimit(segMax))
  {
    hide Step, Laid, Flatten, Synced, PayloadLimit, Within;
    StepLaid(s, op, s', segMax);
    NotEmpty(s);
    NotEmpty(s');
    match op {
      case Append(f, sync) =>
        AppendKeepsSynced(s, f, sync, s', segMax);
        assert Flatten(s'.parts)[..m] == Flatten(s'.parts)[..Synced(s)][..m];
        assert Flatten(s.parts)[..m] == Flatten(s.parts)[..Synced(s)][..m];
      case Crash(left) =>
        CrashKeepsFirst(s, left, s', segMax, m);
    }
  }

  /** Durability over whole runs: records that are synced at some point, with payloads
      within the limit of recovery, are at every later point still in the journal, on disk
      for good and at the same sequence numbers, however many appends of whatever size,
      rotations, crashes and recoveries lie between. */
  lemma {:induction false} SyncedRecordsSurvive(states: seq<State>, ops: seq<Op>, segMax: int, i: nat, j: nat)
    requires Run(states, ops, segMax) && i <= j < |states|
    requires states[i].parts != [] && SyncedWithin(states[i], segMax)
    ensures states[j].parts != [] && KeepsSynced(states[i], states[j])
    ensures FirstWithin(states[j], Synced(states[i]), PayloadLimit(segMax))
    decreases j - i
  {
    hide Flatten, Synced, Step, Laid, FirstWithin, PayloadLimit;
    if i < j {
      var k := j - 1;
      SyncedRecordsSurvive(states, ops, segMax, i, k);
      AlwaysLaid(states, ops, segMax, k);
      StepKeepsFirst(states[k], ops[k], states[j], segMax, Synced(states[i]));
    }
  }

  // ---------------------------------------------------------------------------
  // Runs that keep to the limit

  ghost predicate Bounded(s: State, segMax: int) {
    AllWithin(s.parts, PayloadLimit(segMax))
  }

  ghost predicate BoundedOp(op: Op, segMax: int) {
    op.Append? ==> Accepted(op.frame, PayloadLimit(segMax))
  }

  lemma StepBounded(s: State, op: Op, s': State, segMax: int)
    requires Laid(s) && Step(s, op, s', segMax) && Bounded(s, segMax) && BoundedOp(op, segMax)
    ensures Bounded(s', segMax)
  {
    hide Laid, Accepted, PayloadLimit, RecoverAll, Crashed, Layout, DiskOf, Survivors, IsFrame, Frames;
    match op
    case Append(f, sync) =>
      var last := |s.parts| - 1;
      assert Within(s.parts[last], PayloadLimit(segMax));
      assert forall i :: 0 <= i < last ==> s'.parts[i] == s.parts[i];
    case Crash(left) =>
      LaidFrames(s);
      CrashOutcome(s, left, s', segMax);
      SurvivorsKeep(s.parts, left, PayloadLimit(segMax));
  }

  lemma LaidFrames(s: State)
    requires Laid(s)
    ensures s.parts != [] && AllFrames(s.parts)
  {
  }

  lemma BoundedSynced(s: State, segMax: int)
    requires s.parts != [] && Bounded(s, segMax)
    ensures SyncedWithin(s, segMax)
  {
    hide Within, AllWithin, PayloadLimit, Synced, Flatten;
    FlattenWithin(s.parts, PayloadLimit(segMax));
    WithinPrefix(Flatten(s.parts), Synced(s), PayloadLimit(segMax));
  }

  /** When every append keeps to the limit, everything that is ever synced survives every
      later crash, and every crash can be recovered from. */
  lemma BoundedRunsSurvive(states: seq<State>, ops: seq<Op>, segMax: int, i: nat, j: nat)
    requires Run(states, ops, segMax) && i <= j < |states|
    requires Bounded(states[0], segMax) && forall k :: 0 <= k < |ops| ==> BoundedOp(ops[k], segMax)
    ensures states[i].parts != [] && states[j].parts != [] && KeepsSynced(states[i], states[j])
    ensures forall left: nat :: states[j].durable <= left <= |Concat(states[j].parts[|states[j].parts| - 1])| ==>
      CanReopen(states[j], left, segMax)
  {
    hide Step, Laid, KeepsSynced, SyncedWithin, BoundedOp, AllWithin, Concat, CanReopen;
    AlwaysLaid(states, ops, segMax, i);
    AlwaysLaid(states, ops, segMax, j);
    AlwaysBounded(states, ops, segMax, i);
    AlwaysBounded(states, ops, segMax, j);
    NotEmpty(states[i]);
    NotEmpty(states[j]);
    BoundedSynced(states[i], segMax);
    SyncedRecordsSurvive(states, ops, segMax, i, j);
    EarlierWithin(states[j].parts, PayloadLimit(segMax));
    forall left: nat | states[j].durable <= left <= |Concat(states[j].parts[|states[j].parts| - 1])|
      ensures CanReopen(states[j], left, segMax)
    {
      CrashSucceedsIff(states[j], left, segMax);
    }
  }

  lemma EarlierWithin(parts: seq<seq<Bytes>>, limit: nat)
    requires parts != [] && AllWithin(parts, limit)
    ensures AllWithin(parts[..|parts| - 1], limit)
  {
    hide Within;
  }

  lemma {:induction false} AlwaysBounded(states: seq<State>, ops: seq<Op>, segMax: int, i: nat)
    requires Run(states, ops, segMax) && i < |states|
    requires Bounded(states[0], segMax) && forall k :: 0 <= k < |ops| ==> BoundedOp(ops[k], segMax)
    ensures Bounded(states[i], segMax)
  {
    hide Step, Laid, Bounded, BoundedOp;
    if i > 0 {
      AlwaysBounded(states, ops, segMax, i - 1);
      AlwaysLaid(states, ops, segMax, i - 1);
      StepBounded(states[i - 1], ops[i - 1], states[i], segMax);
    }
  }

  // ---------------------------------------------------------------------------
  // The sizes of segments

  /** A segment is longer than the limit only when it holds a single frame. */
  ghost predicate Fits(fs: seq<Bytes>, segMax: int) {
    |Concat(fs)| <= segMax || |fs| <= 1
  }

  ghost predicate AllFit(parts: seq<seq<Bytes>>, segMax: int) {
    forall i :: 0 <= i < |parts| ==> Fits(parts[i], segMax)
  }

  lemma AppendedFits(parts: seq<seq<Bytes>>, f: Bytes, segMax: int)
    requires parts != [] && AllFit(parts, segMax)
    ensures AllFit(Appended(parts, f, segMax), segMax)
  {
    hide Concat;
    var last := |parts| - 1;
    ConcatAdd(parts[last], f);
    assert forall i :: 0 <= i < |parts| ==> Fits(parts[i], segMax);
  }

  lemma SurvivorsFit(parts: seq<seq<Bytes>>, left: nat, limit: nat, segMax: int)
    requires parts != [] && AllFit(parts, segMax)
    ensures AllFit(Survivors(parts, left, limit), segMax)
  {
    hide Concat, Whole, Leading;
    var last := |parts| - 1;
    var fs, kept := parts[last], Survivors(parts, left, limit)[last];
    assert fs == kept + fs[|kept|..];
    ConcatSplit(kept, fs[|kept|..]);
    assert Fits(fs, segMax);
  }

  /** Rotation keeps segments within the limit in every run, a frame longer than the limit
      getting a segment of its own. */
  lemma {:induction false} AlwaysFits(states: seq<State>, ops: seq<Op>, segMax: int, i: nat)
    requires Run(states, ops, segMax) && i < |states|
    requires AllFit(states[0].parts, segMax)
    ensures AllFit(states[i].parts, segMax)
  {
    hide Laid, AllFit, Step;
    if i > 0 {
      AlwaysFits(states, ops, segMax, i - 1);
      AlwaysLaid(states, ops, segMax, i - 1);
      StepFits(states[i - 1], ops[i - 1], states[i], segMax);
    }
  }

  lemma StepFits(s: State, op: Op, s': State, segMax: int)
    requires Laid(s) && Step(s, op, s', segMax) && AllFit(s.parts, segMax)
    ensures AllFit(s'.parts, segMax)
  {
    hide Laid, AllFit, Appended, RecoverAll, Survivors, Step, PayloadLimit;
    NotEmpty(s);
    match op
    case Append(f, sync) =>
      AppendedFits(s.parts, f, segMax);
      AppendedParts(s, f, sync, s', segMax);
    case Crash(left) =>
      CrashOutcome(s, left, s', segMax);
      SurvivorsFit(s.parts, left, PayloadLimit(segMax), segMax);
  }

  lemma AppendedParts(s: State, f: Bytes, sync: bool, s': State, segMax: int)
    requires Step(s, Append(f, sync), s', segMax)
    ensures s.parts != [] && s'.parts == Appended(s.parts, f, segMax)
  {
    hide Appended, IsFrame;
  }

  // ---------------------------------------------------------------------------
  // A synced record that is lost

  /** A record whose payload is the four bytes of JSON's null. */
  function NullRecord(): Record {
    Record(1, 0, 1, 0, [0x6E, 0x75, 0x6C, 0x6C])
  }

  /** With a segment limit of 30 bytes a record with a payload of four bytes is written, in
      a segment of its own, and synced; and it is gone when the journal is opened again. */
  lemma OversizedWitness()
    ensures Representable(NullRecord())
    ensures var f := Frame(NullRecord());
      var written := State([[], [f]], |f|);
      && Run([State([[]], 0), written, State([[], []], 0)], [Append(f, true), Crash(|f|)], 30)
      && Synced(written) == 1 && !SyncedWithin(written, 30)
  {
    hide Frame, Layout, DiskOf, RecoverAll, Crashed, Leading, Whole;
    var r := NullRecord();
    var f := Frame(r);
    assert IsFrame(f) && |f| == HEADER_SIZE + 4;
    var start, written, reopened := State([[]], 0), State([[], [f]], |f|), State([[], []], 0);
    ConcatOne(f);
    NothingLaidOut(0);
    OneFrame(f);
    assert Laid(start);
    assert Step(start, Append(f, true), written, 30);
    RecoveryOutcome(written.parts, |f|, PayloadLimit(30));
    assert Survivors(written.parts, |f|, PayloadLimit(30)) == reopened.parts;
    assert Step(written, Crash(|f|), reopened, 30);
  }

  lemma OneFrame(f: Bytes)
    requires |f| == HEADER_SIZE + 4
    ensures Whole([f], |f|) == 1 && Leading([f], PayloadLimit(30)) == 0
    ensures Flatten([[], [f]]) == [f] && Flatten([[]]) == []
  {
    assert !Accepted(f, PayloadLimit(30));
    hide PayloadLimit;
    assert [f][1..] == [];
    assert Whole([f][1..], 0) == 0;
    var none: seq<seq<Bytes>> := [];
    assert Flatten(none) == [];
    assert [[f]][1..] == none && [[]][1..] == none;
    assert Flatten([[f]]) == [f] + Flatten(none);
    assert [[], [f]][1..] == [[f]];
  }
}
