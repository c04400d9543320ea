/** `sentry/store.go`: the journal. The file system, the clock and the decision to sync are
    parameters; a write either succeeds or leaves no trace. */
module Journal {
  import opened Crc32
  import opened Framing
  import opened JournalLayout
  import opened JournalRuns
  import opened JournalSoundness

  datatype Option<T> = None | Some(value: T)

  datatype Error = ErrCorrupt(seg: nat, off: nat)

  datatype Filter = Filter(tenant: Option<nat>, etype: Option<nat>)

  predicate Passes(f: Filter, r: Record) {
    && (f.tenant.Some? ==> r.tenant == f.tenant.value)
    && (f.etype.Some? ==> r.etype == f.etype.value)
  }

  /** The records that match. */
  function Matching(f: Filter, rs: seq<Record>): seq<Record> {
    if rs == [] then []
    else
      var last := |rs| - 1;
      Matching(f, rs[..last]) + if Passes(f, rs[last]) then [rs[last]] else []
  }

  /** Everything up to and including the first record after which to stop. */
  function UntilStop(rs: seq<Record>, more: Record -> bool): seq<Record> {
    if rs == [] then []
    else if !more(rs[0]) then [rs[0]]
    else [rs[0]] + UntilStop(rs[1..], more)
  }

  lemma {:induction false} StopsAtLast(out: seq<Record>, rs: seq<Record>, more: Record -> bool)
    requires out != [] && out <= rs && !more(out[|out| - 1])
    requires forall k :: 0 <= k < |out| - 1 ==> more(out[k])
    ensures UntilStop(rs, more) == out
  {
    if |out| > 1 {
      assert out[1..] <= rs[1..];
      StopsAtLast(out[1..], rs[1..], more);
    }
  }

  lemma {:induction false} NeverStops(rs: seq<Record>, more: Record -> bool)
    requires forall k :: 0 <= k < |rs| ==> more(rs[k])
    ensures UntilStop(rs, more) == rs
  {
    if rs != [] {
      NeverStops(rs[1..], more);
    }
  }

  lemma {:induction false} MatchingGrows(f: Filter, rs: seq<Record>, n: nat)
    requires n <= |rs|
    ensures Matching(f, rs[..n]) <= Matching(f, rs)
  {
    if n == |rs| {
      assert rs[..n] == rs;
    } else {
      var front := rs[..|rs| - 1];
      MatchingGrows(f, front, n);
      assert front[..n] == rs[..n];
    }
  }

  /** Which records match: those of the tenant and of the type that the filter asks for, each
      at its place. */
  lemma {:induction false} MatchingPositions(f: Filter, rs: seq<Record>) returns (at: seq<nat>)
    ensures |at| == |Matching(f, rs)|
    ensures forall i :: 0 <= i < |at| ==> at[i] < |rs| && Matching(f, rs)[i] == rs[at[i]]
    ensures forall i, j :: 0 <= i < j < |at| ==> at[i] < at[j]
    ensures forall k :: 0 <= k < |rs| ==>
      (k in at <==> (f.tenant == None || f.tenant.value == rs[k].tenant) && (f.etype == None || f.etype.value == rs[k].etype))
  {
    if rs == [] {
      at := [];
    } else {
      var last := |rs| - 1;
      at := MatchingPositions(f, rs[..last]);
      assert forall k :: 0 <= k < |at| ==> at[k] in at;
      if Passes(f, rs[last]) {
        at := at + [last];
      }
    }
  }

  /** Where a scan stops: nowhere, or after the first record that the callback stops at. */
  lemma {:induction false} StopsAtFirst(rs: seq<Record>, more: Record -> bool)
    ensures var out := UntilStop(rs, more);
      && out <= rs
      && (forall k :: 0 <= k < |out| - 1 ==> more(out[k]))
      && (out == rs || !more(out[|out| - 1]))
  {
    if rs != [] && more(rs[0]) {
      StopsAtFirst(rs[1..], more);
      assert rs == [rs[0]] + rs[1..];
    }
  }

  class Store {
    const segMax: int
    var disk: Disk
    var curSeg: nat
    var curOff: nat
    var nextSeq: nat
    var keydir: seq<Location>
    var durable: nat            // bytes of the current segment known to be synced

    ghost var parts: seq<seq<Bytes>>  // the frames in each segment
    ghost var records: seq<Record>    // the history that the frames encode

    ghost predicate Valid()
      reads this
    {
      && parts != []
      && disk == DiskOf(parts)
      && keydir == Layout(parts, 0)
      && curSeg == |parts| - 1
      && curOff == |Concat(parts[curSeg])|
      && durable <= curOff
      && nextSeq == |records| + 1
      && Encodes(parts, records)
      && AllFrames(parts)
    }

    ghost function State(): JournalRuns.State
      reads this
    {
      JournalRuns.State(parts, durable)
    }

    /** The literal in `Open`, before recovery. */
    constructor (segMax: int, disk: Disk)
      ensures this.segMax == segMax && this.disk == disk
      ensures curSeg == 0 && nextSeq == 1 && keydir == []
    {
      this.segMax := segMax;
      this.disk := disk;
      curSeg, curOff, nextSeq, keydir, durable := 0, 0, 1, [], 0;
      parts, records := [], [];
    }

    /** `recover`: reads every segment and rebuilds the keydir. Whatever the files hold, it
        points at the frames that each of them starts with and at nothing else. */
    method Recover() returns (err: Option<Error>)
      requires curSeg == 0 && nextSeq == 1 && keydir == []
      modifies this`disk, this`curSeg, this`keydir, this`nextSeq
      ensures match RecoverAll(old(disk), PayloadLimit(segMax))
        case Corrupt(seg, off) => err == Some(ErrCorrupt(seg, off)) && disk == old(disk)
        case Recovered(locs, cut) =>
          && err == None && keydir == locs && disk == cut
          && nextSeq == |locs| + 1 && curSeg == (if |disk| == 0 then 0 else |disk| - 1)
      ensures err == None ==> exists found :: Sound(old(disk), PayloadLimit(segMax), found, keydir, disk)
      ensures err != None ==> CorruptAt(old(disk), PayloadLimit(segMax), err.value.seg, err.value.off)
    {
      hide Parse, RecoverFrom, Sound, CorruptAt, PayloadLimit, Longest, Concat, Locs;
      var limit := PayloadLimit(segMax);
      ghost var disk0 := disk;
      var i := 0;
      StartRecovery(disk, limit);
      while i < |disk|
        invariant 0 <= i <= |disk| == |disk0|
        invariant disk == disk0 || i == |disk|
        invariant nextSeq == |keydir| + 1
        invariant curSeg == if i == 0 then 0 else i - 1
        invariant RecoverAll(disk0, limit) == Prepend(keydir, disk[..i], RecoverFrom(disk0, i, limit))
      {
        ghost var before := keydir;
        UnfoldRecovery(disk0, i, limit);
        var off, clean := ReadSegment(i, limit);
        ghost var p := Parse(disk0[i], i, 0, limit);
        assert p.end == off && p.clean == clean && keydir == before + p.locs;
        if !clean {
          if i != |disk| - 1 {
            RecoverySound(disk0, segMax);
            return Some(ErrCorrupt(i, off));
          }
          disk := disk[i := disk[i][..off]];
        }
        curSeg := i;
        assert disk[..i] == disk0[..i];
        assert disk[i] == disk0[i][..off];
        PrependMore(before, disk[..i], p.locs, disk0[i][..off], RecoverFrom(disk0, i + 1, limit));
        assert disk[..i + 1] == disk[..i] + [disk0[i][..off]];
        i := i + 1;
      }
      assert i == |disk|;
      UnfoldRecoveryEnd(disk0, limit);
      assert disk[..i] + [] == disk && keydir + [] == keydir;
      RecoverySound(disk0, segMax);
      return None;
    }

    /** The inner loop of `recover`: reads frames until the end of the file or a bad one. */
    method ReadSegment(i: nat, limit: nat) returns (off: nat, clean: bool)
      requires i < |disk| && nextSeq == |keydir| + 1
      modifies this`keydir, this`nextSeq
      ensures var p := Parse(disk[i], i, 0, limit);
        off == p.end && clean == p.clean && keydir == old(keydir) + p.locs
      ensures nextSeq == |keydir| + 1
      ensures limit <= MAX_PAYLOAD ==> ReadsAs(disk[i], i, limit, keydir[|old(keydir)|..], off, clean)
    {
      hide Next, Parse, ReadsAs;
      var file := disk[i];
      if limit <= MAX_PAYLOAD {
        ParseReads(file, i, limit);
      }
      ghost var found: seq<Location> := [];
      off := 0;
      clean := true;
      while true
        invariant off <= |file|
        invariant nextSeq == |keydir| + 1
        invariant keydir == old(keydir) + found
        invariant Parse(file, i, 0, limit) == Continue(found, Parse(file, i, off, limit))
        decreases |file| - off
      {
        UnfoldParse(file, i, off, limit);
        match Next(file, off, limit) {
          case End =>
            break;
          case Bad =>
            clean := false;
            break;
          case Good(size) =>
            keydir := keydir + [Location(i, off, size)];
            nextSeq := nextSeq + 1;
            found := found + [Location(i, off, size)];
            off := off + size;
        }
      }
    }

    /** `openSegment`: creates the file if it is not there and appends to it. */
    method OpenSegment(seg: nat)
      requires seg <= |disk|
      modifies this`disk, this`curSeg, this`curOff
      ensures disk == if seg == |old(disk)| then old(disk) + [[]] else old(disk)
      ensures curSeg == seg && curOff == |disk[seg]|
    {
      if seg == |disk| {
        disk := disk + [[]];
      }
      curSeg, curOff := seg, |disk[seg]|;
    }

    /** `Open`, on an empty directory or on any disk that a crash can leave: it fails exactly
        when an earlier segment holds a payload over the limit, and otherwise the history is
        what survives on disk. */
    static method Open(segMax: int, disk: Disk, ghost parts: seq<seq<Bytes>>, ghost records: seq<Record>, ghost left: nat)
        returns (s: Store, err: Option<Error>)
      requires parts != [] && AllFrames(parts) && Encodes(parts, records)
      requires left <= |Concat(parts[|parts| - 1])|
      requires disk == Crashed(parts, left) || (disk == [] && parts == [[]])
      ensures fresh(s) && s.segMax == segMax
      ensures err == None <==> AllWithin(parts[..|parts| - 1], PayloadLimit(segMax))
      ensures err != None ==> AfterCrash(parts, left, PayloadLimit(segMax)) == Corrupt(err.value.seg, err.value.off)
      ensures err == None ==>
        && s.Valid() && s.parts == Survivors(parts, left, PayloadLimit(segMax))
        && |s.records| <= |records| && s.records == records[..|s.records|]
        && s.durable == s.curOff
    {
      hide RecoverAll, Layout, DiskOf, Encodes, AllFrames, Concat, Crashed, Survivors, Flatten, Whole, Leading, Within, PayloadLimit;
      ghost var limit := PayloadLimit(segMax);
      ghost var kept := Survivors(parts, left, limit);
      RecoveryOutcome(parts, left, limit);
      SurvivorsKeep(parts, left, limit);
      NothingOnDisk(disk, parts, left, limit);
      CulpritIff(parts, limit);
      s := new Store(segMax, disk);
      err := s.Recover();
      if err == None {
        s.OpenSegment(s.curSeg);
        EncodesSurvivors(parts, records, left, limit);
        s.parts, s.records := kept, records[..|Flatten(kept)|];
        KeydirLength(kept, s.records);
        LastFile(kept);
      }
      s.durable := s.curOff;
    }

    /** `Append`: rotates when the frame does not fit, writes it, and syncs when it is due. */
    method Append(tenant: nat, etype: nat, payload: Bytes, now: int, syncDue: bool) returns (seqNo: nat)
      requires Valid() && Representable(Record(nextSeq, now, etype, tenant, payload))
      modifies this
      ensures Valid() && seqNo == |records|
      ensures records == old(records) + [Record(seqNo, now, etype, tenant, payload)]
      ensures Step(old(State()), JournalRuns.Append(Frame(records[seqNo - 1]), syncDue), State(), segMax)
      ensures old(Bounded(State(), segMax)) && |payload| <= PayloadLimit(segMax) ==> Bounded(State(), segMax)
    {
      hide Concat, Representable, Layout, Frame, Locs, DiskOf, AllFrames, Encodes, Flatten, Appended, IsFrame, Bounded, PayloadLimit, Step;
      var rec := Record(nextSeq, now, etype, tenant, payload);
      var buf := Encode(rec);
      var b := buf[..];
      ghost var parts' := Appended(parts, b, segMax);
      Written(parts, b, segMax);
      HistoryOfAppended(parts, b, segMax);
      EncodesAppended(parts, records, rec, segMax);
      IsAFrame(rec);
      ghost var s0 := State();
      if curOff + |b| > segMax {
        OpenSegment(curSeg + 1);
        durable := 0;
      }
      disk := disk[curSeg := disk[curSeg] + b];
      if syncDue {
        durable := curOff + |b|;
      }
      keydir := keydir + [Location(curSeg, curOff, |b|)];
      seqNo := nextSeq;
      nextSeq := nextSeq + 1;
      curOff := curOff + |b|;
      parts, records := parts', records + [rec];
      StepsByAppend(s0, b, syncDue, State(), segMax);
      BoundedAppended(s0, rec, State(), segMax);
    }

    /** `Read` finds each record of the history at its number, and nothing else. */
    method Read(seqNo: nat) returns (r: ReadResult)
      requires Valid()
      ensures r == if 1 <= seqNo <= |records| then Found(records[seqNo - 1]) else NotFound
    {
      hide Frame, IsFrame, Layout, Flatten, Frames, Representable;
      if seqNo == 0 || seqNo > |keydir| {
        KeydirLength(parts, records);
        return NotFound;
      }
      KeydirLength(parts, records);
      KeydirPoints(parts);
      var loc := keydir[seqNo - 1];
      assert PointsAt(disk, loc, Flatten(parts)[seqNo - 1]);
      var b := Cut(disk, loc);
      ReadBackFrame(records[seqNo - 1]);
      r := ReadFrame(b, seqNo);
    }

    /** `Scan`: the matching records in order, up to the first after which the callback
        `more` asks to stop. */
    method Scan(f: Filter, more: Record -> bool) returns (out: seq<Record>)
      requires Valid()
      ensures out == UntilStop(Matching(f, records), more)
    {
      hide Encodes, Layout, DiskOf, AllFrames;
      KeydirLength(parts, records);
      var n := |keydir|;
      out := [];
      assert records[..0] == [];
      for i := 0 to n
        invariant out == Matching(f, records[..i])
        invariant forall k :: 0 <= k < |out| ==> more(out[k])
      {
        var rec := Read(i + 1);
        assert records[..i + 1][..i] == records[..i];
        if Passes(f, rec.r) {
          out := out + [rec.r];
          if !more(rec.r) {
            MatchingGrows(f, records, i + 1);
            StopsAtLast(out, Matching(f, records), more);
            return;
          }
        }
      }
      assert records[..n] == records;
      NeverStops(out, more);
    }

    /** A crash that leaves `left` bytes of the last segment, and the next start. It fails
        exactly when an earlier segment holds a payload over the limit; the reopened store
        has a prefix of the history, with every synced record exactly when those are within
        the limit. */
    method CrashAndReopen(left: nat) returns (s: Store, err: Option<Error>)
      requires Valid() && durable <= left <= curOff
      ensures fresh(s) && s.segMax == segMax
      ensures err == None <==> AllWithin(parts[..|parts| - 1], PayloadLimit(segMax))
      ensures err == None ==>
        && s.Valid() && Step(State(), Crash(left), s.State(), segMax)
        && |s.records| <= |records| && s.records == records[..|s.records|]
        && (KeepsSynced(State(), s.State()) <==> SyncedWithin(State(), segMax))
      ensures Bounded(State(), segMax) ==> err == None && Bounded(s.State(), segMax) && KeepsSynced(State(), s.State())
    {
      hide RecoverAll, Layout, Encodes, AllFrames, Concat, Survivors, Flatten, KeepsSynced, SyncedWithin, Step,
        Within, PayloadLimit, AllWithin, Bounded;
      var onDisk := disk[curSeg := disk[curSeg][..left]];
      assert onDisk == Crashed(parts, left);
      s, err := Open(segMax, onDisk, parts, records, left);
      if err == None {
        Reopened(State(), left, s.State(), segMax);
      }
      BoundedReopens(State(), segMax);
    }
  }

  // ---------------------------------------------------------------------------

  /** The frames of the segments, in order, are those of a history numbered from 1. */
  ghost predicate Encodes(parts: seq<seq<Bytes>>, records: seq<Record>) {
    && |Flatten(parts)| == |records|
    && forall k :: 0 <= k < |records| ==>
         Representable(records[k]) && records[k].seqNo == k + 1 && Flatten(parts)[k] == Frame(records[k])
  }

  lemma KeydirLength(parts: seq<seq<Bytes>>, records: seq<Record>)
    requires Encodes(parts, records)
    ensures |Layout(parts, 0)| == |records|
  {
    hide Representable, Frame, Layout, Flatten;
    LayoutLength(parts, 0);
  }

  lemma EncodesAppended(parts: seq<seq<Bytes>>, records: seq<Record>, r: Record, segMax: int)
    requires parts != [] && Encodes(parts, records) && AllFrames(parts)
    requires Representable(r) && r.seqNo == |records| + 1
    ensures Encodes(Appended(parts, Frame(r), segMax), records + [r])
    ensures AllFrames(Appended(parts, Frame(r), segMax))
  {
    hide Representable, Frame, Flatten, Concat, Layout;
    HistoryOfAppended(parts, Frame(r), segMax);
    assert IsFrame(Frame(r));
  }

  lemma EncodesSurvivors(parts: seq<seq<Bytes>>, records: seq<Record>, left: nat, limit: nat)
    requires parts != [] && Encodes(parts, records)
    ensures var kept := Survivors(parts, left, limit);
      |Flatten(kept)| <= |records| && Encodes(kept, records[..|Flatten(kept)|])
  {
    hide Representable, Frame, Flatten, Whole, Leading, Layout, Locs;
    var kept, last := Survivors(parts, left, limit), |parts| - 1;
    SplitLast(parts);
    SplitLast(kept);
    assert kept[..last] == parts[..last];
    assert kept[last] <= parts[last];
    assert Flatten(kept) <= Flatten(parts);
  }

  lemma CulpritIff(parts: seq<seq<Bytes>>, limit: nat)
    requires parts != []
    ensures Culprit(parts, limit, 0) == |parts| - 1 <==> AllWithin(parts[..|parts| - 1], limit)
  {
    hide Within;
    var c := Culprit(parts, limit, 0);
    assert forall i :: 0 <= i < |parts| - 1 ==> parts[..|parts| - 1][i] == parts[i];
  }

  lemma StepsByAppend(s: JournalRuns.State, f: Bytes, sync: bool, s': JournalRuns.State, segMax: int)
    requires s.parts != [] && IsFrame(f) && s'.parts == Appended(s.parts, f, segMax)
    requires s'.durable == if sync then |Concat(s'.parts[|s'.parts| - 1])| else if |s'.parts| == |s.parts| then s.durable else 0
    ensures Step(s, JournalRuns.Append(f, sync), s', segMax)
  {
    hide Concat, IsFrame, Appended;
  }

  lemma BoundedAppended(s: State, r: Record, s': State, segMax: int)
    requires s.parts != [] && Representable(r) && s'.parts == Appended(s.parts, Frame(r), segMax)
    ensures Bounded(s, segMax) && |r.payload| <= PayloadLimit(segMax) ==> Bounded(s', segMax)
  {
    hide Frame, PayloadLimit, Concat;
  }

  lemma IsAFrame(r: Record)
    requires Representable(r)
    ensures IsFrame(Frame(r))
  {
    hide Frame;
  }

  /** What opening left is what the crash step describes. */
  lemma Reopened(s: State, left: nat, s': State, segMax: int)
    requires Laid(s) && s.durable <= left <= |Concat(s.parts[|s.parts| - 1])|
    requires AllWithin(s.parts[..|s.parts| - 1], PayloadLimit(segMax))
    requires s'.parts == Survivors(s.parts, left, PayloadLimit(segMax)) && s'.durable == |Concat(s'.parts[|s'.parts| - 1])|
    ensures Step(s, Crash(left), s', segMax)
    ensures KeepsSynced(s, s') <==> SyncedWithin(s, segMax)
    ensures Bounded(s', segMax)
  {
    hide RecoverAll, Layout, DiskOf, Crashed, AllFrames, Survivors, Within, KeepsSynced, SyncedWithin, Concat, PayloadLimit;
    RecoveryOutcome(s.parts, left, PayloadLimit(segMax));
    SurvivorsKeep(s.parts, left, PayloadLimit(segMax));
    CulpritIff(s.parts, PayloadLimit(segMax));
    CrashKeepsSynced(s, left, s', segMax);
  }

  lemma BoundedReopens(s: State, segMax: int)
    requires s.parts != []
    ensures Bounded(s, segMax) ==> SyncedWithin(s, segMax) && AllWithin(s.parts[..|s.parts| - 1], PayloadLimit(segMax))
  {
    hide SyncedWithin, AllWithin, PayloadLimit;
    if Bounded(s, segMax) {
      BoundedSynced(s, segMax);
      EarlierWithin(s.parts, PayloadLimit(segMax));
    }
  }

  /** The file that a frame is written to, and what the files hold then. */
  lemma Written(parts: seq<seq<Bytes>>, b: Bytes, segMax: int)
    requires parts != []
    ensures var last := |parts| - 1; var after := Appended(parts, b, segMax);
      && DiskOf(parts)[last] == Concat(parts[last])
      && if |Concat(parts[last])| + |b| > segMax then
           && |after| == |parts| + 1
           && (DiskOf(parts) + [[]])[last + 1 := [] + b] == DiskOf(after)
           && Concat(after[last + 1]) == b
         else
           && |after| == |parts|
           && DiskOf(parts)[last := DiskOf(parts)[last] + b] == DiskOf(after)
           && Concat(after[last]) == Concat(parts[last]) + b
  {
    hide Concat;
    LastFile(parts);
    DiskOfAppended(parts, b, segMax);
    ConcatOne(b);
    ConcatAdd(parts[|parts| - 1], b);
    assert [] + b == b;
  }

  lemma LastFile(parts: seq<seq<Bytes>>)
    requires parts != []
    ensures DiskOf(parts)[|parts| - 1] == Concat(parts[|parts| - 1])
  {
    hide Concat;
  }

  lemma NothingOnDisk(disk: Disk, parts: seq<seq<Bytes>>, left: nat, limit: nat)
    requires disk == [] && parts == [[]] ==> left <= |Concat(parts[0])|
    ensures disk == [] && parts == [[]] ==>
      && RecoverAll(disk, limit) == Recovered([], [])
      && Survivors(parts, left, limit) == parts && DiskOf(parts) == [[]] && Layout(parts, 0) == []
  {
    if disk == [] && parts == [[]] {
      NothingLaidOut(0);
      assert parts[1..] == [];
      assert DiskOf(parts)[0] == [];
    }
  }

  // ---------------------------------------------------------------------------
  // The two loops of recovery, one step at a time

  ghost function Prepend(keydir: seq<Location>, files: Disk, rest: Outcome): Outcome {
    match rest
    case Corrupt(s, o) => Corrupt(s, o)
    case Recovered(locs, more) => Recovered(keydir + locs, files + more)
  }

  ghost function Continue(locs: seq<Location>, rest: Parsed): Parsed {
    Parsed(locs + rest.locs, rest.end, rest.clean)
  }

  lemma StartRecovery(disk: Disk, limit: nat)
    ensures RecoverAll(disk, limit) == Prepend([], disk[..0], RecoverFrom(disk, 0, limit))
  {
    hide RecoverFrom;
    var o := RecoverFrom(disk, 0, limit);
    if o.Recovered? {
      assert [] + o.keydir == o.keydir && disk[..0] + o.disk == o.disk;
    }
  }

  lemma UnfoldParse(file: Bytes, seg: nat, off: nat, limit: nat)
    requires off <= |file|
    ensures Parse(file, seg, off, limit) ==
      match Next(file, off, limit)
      case End => Parsed([], off, true)
      case Bad => Parsed([], off, false)
      case Good(size) => Continue([Location(seg, off, size)], Parse(file, seg, off + size, limit))
  {
    hide Next;
  }

  lemma UnfoldRecovery(disk: Disk, seg: nat, limit: nat)
    requires seg < |disk|
    ensures var p := Parse(disk[seg], seg, 0, limit);
      RecoverFrom(disk, seg, limit) ==
        if !p.clean && seg != |disk| - 1 then Corrupt(seg, p.end)
        else Prepend(p.locs, [disk[seg][..p.end]], RecoverFrom(disk, seg + 1, limit))
  {
    hide Parse;
  }

  lemma PrependMore(keydir: seq<Location>, files: Disk, locs: seq<Location>, file: Bytes, rest: Outcome)
    ensures Prepend(keydir, files, Prepend(locs, [file], rest)) == Prepend(keydir + locs, files + [file], rest)
  {
    if rest.Recovered? {
      assert keydir + (locs + rest.keydir) == keydir + locs + rest.keydir;
      assert files + ([file] + rest.disk) == files + [file] + rest.disk;
    }
  }

  lemma UnfoldRecoveryEnd(disk: Disk, limit: nat)
    ensures RecoverFrom(disk, |disk|, limit) == Recovered([], [])
  {
  }
}
