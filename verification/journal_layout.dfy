/** What recovery parses out of the segment files, whole or cut short (`sentry/store.go`). */
module JournalLayout {
  import opened Crc32
  import opened Framing

  datatype Location = Location(seg: nat, off: nat, size: nat)

  type Bytes = seq<Byte>

  /** The file system: segment `i` is the file number `i`. */
  type Disk = seq<Bytes>

  // ---------------------------------------------------------------------------
  // What recovery reads

  datatype Scanned = End | Bad | Good(size: nat)

  /** `uint32(SegmentMax - HeaderSize)`, at most 16 MiB. The conversion wraps. */
  function PayloadLimit(segMax: int): nat {
    var limit := (segMax - HEADER_SIZE) % 0x1_0000_0000;
    if limit > 0x100_0000 then 0x100_0000 else limit
  }

  /** One round of the loop in `recover`, at offset `off` of a segment file. */
  function Next(file: Bytes, off: nat, limit: nat): (s: Scanned)
    requires off <= |file|
    ensures s.Good? ==> s.size >= HEADER_SIZE && off + s.size <= |file|
  {
    var left := |file| - off;
    if left == 0 then End
    else if left < HEADER_SIZE then Bad
    else
      var header := file[off..off + HEADER_SIZE];
      var h := DecodeHeader(header);
      if h.payloadLen > limit || left - HEADER_SIZE < h.payloadLen then Bad
      else
        var payload := file[off + HEADER_SIZE..off + HEADER_SIZE + h.payloadLen];
        if ChecksumInPieces(header, payload) != h.expectedCRC then Bad
        else Good(HEADER_SIZE + h.payloadLen)
  }

  datatype Parsed = Parsed(locs: seq<Location>, end: nat, clean: bool)

  function Parse(file: Bytes, seg: nat, off: nat, limit: nat): (p: Parsed)
    requires off <= |file|
    ensures off <= p.end <= |file|
    ensures p.clean ==> p.end == |file|
    decreases |file| - off
  {
    match Next(file, off, limit)
    case End => Parsed([], off, true)
    case Bad => Parsed([], off, false)
    case Good(size) =>
      var p := Parse(file, seg, off + size, limit);
      Parsed([Location(seg, off, size)] + p.locs, p.end, p.clean)
  }

  datatype Outcome = Recovered(keydir: seq<Location>, disk: Disk) | Corrupt(seg: nat, off: nat)

  /** `recover` from segment `seg` on: a bad tail is cut off in the last segment and
      refused in any other. */
  function RecoverFrom(disk: Disk, seg: nat, limit: nat): Outcome
    requires seg <= |disk|
    decreases |disk| - seg
  {
    if seg == |disk| then Recovered([], [])
    else
      var p := Parse(disk[seg], seg, 0, limit);
      if !p.clean && seg != |disk| - 1 then Corrupt(seg, p.end)
      else
        match RecoverFrom(disk, seg + 1, limit)
        case Corrupt(s, o) => Corrupt(s, o)
        case Recovered(keydir, rest) => Recovered(p.locs + keydir, [disk[seg][..p.end]] + rest)
  }

  function RecoverAll(disk: Disk, limit: nat): Outcome {
    RecoverFrom(disk, 0, limit)
  }

  // ---------------------------------------------------------------------------
  // What the writer lays out

  ghost predicate IsFrame(f: Bytes) {
    exists r :: Representable(r) && f == Frame(r)
  }

  ghost predicate Frames(fs: seq<Bytes>) {
    forall k :: 0 <= k < |fs| ==> IsFrame(fs[k])
  }

  function Concat(fs: seq<Bytes>): Bytes {
    if fs == [] then [] else fs[0] + Concat(fs[1..])
  }

  function Locs(seg: nat, off: nat, fs: seq<Bytes>): (l: seq<Location>)
    ensures |l| == |fs|
    decreases |fs|
  {
    if fs == [] then []
    else [Location(seg, off, |fs[0]|)] + Locs(seg, off + |fs[0]|, fs[1..])
  }

  ghost predicate AllFrames(parts: seq<seq<Bytes>>) {
    forall i :: 0 <= i < |parts| ==> Frames(parts[i])
  }

  function DiskOf(parts: seq<seq<Bytes>>): (d: Disk)
    ensures |d| == |parts|
    ensures forall i :: 0 <= i < |parts| ==> d[i] == Concat(parts[i])
  {
    seq(|parts|, i requires 0 <= i < |parts| => Concat(parts[i]))
  }

  /** The keydir of the segments from number `seg` on. */
  function Layout(parts: seq<seq<Bytes>>, seg: nat): seq<Location>
    decreases |parts|
  {
    if parts == [] then [] else Locs(seg, 0, parts[0]) + Layout(parts[1..], seg + 1)
  }

  function Flatten(parts: seq<seq<Bytes>>): seq<Bytes> {
    if parts == [] then [] else parts[0] + Flatten(parts[1..])
  }

  // ---------------------------------------------------------------------------
  // One frame

  lemma FrameSize(f: Bytes)
    requires IsFrame(f)
    ensures |f| >= HEADER_SIZE
  {
  }

  ghost predicate Accepted(f: Bytes, limit: nat) {
    |f| - HEADER_SIZE <= limit
  }

  lemma HeaderOfPart(r: Record, part: Bytes)
    requires Representable(r)
    requires HEADER_SIZE <= |part| <= |Frame(r)| && part == Frame(r)[..|part|]
    ensures DecodeHeader(part[..HEADER_SIZE]).payloadLen == |r.payload|
  {
    hide DecodeHeader, HeaderTail, Checksum, Frame;
    DecodeFrame(r);
    assert part[..HEADER_SIZE] == Frame(r)[..HEADER_SIZE];
  }

  /** A whole frame is accepted exactly when its payload is within the limit. */
  lemma NextWhole(file: Bytes, off: nat, f: Bytes, rest: Bytes, limit: nat)
    requires off <= |file| && IsFrame(f) && file[off..] == f + rest
    ensures Next(file, off, limit) == if Accepted(f, limit) then Good(|f|) else Bad
  {
    hide DecodeHeader, HeaderTail, Checksum, Frame, ChecksumInPieces, Representable;
    var r :| Representable(r) && f == Frame(r);
    HeaderOfPart(r, f);
    FrameChecksOut(r);
    assert file[off..off + HEADER_SIZE] == f[..HEADER_SIZE];
    assert file[off + HEADER_SIZE..off + |f|] == f[HEADER_SIZE..];
  }

  ghost predicate Torn(tail: Bytes, f: Bytes) {
    0 < |tail| < |f| && tail == f[..|tail|]
  }

  /** Part of a frame is never accepted: either the header or the payload is short. */
  lemma NextTorn(file: Bytes, off: nat, f: Bytes, limit: nat)
    requires off <= |file| && IsFrame(f) && Torn(file[off..], f)
    ensures Next(file, off, limit) == Bad
  {
    hide DecodeHeader, Frame, ChecksumInPieces, Representable;
    if |file| - off >= HEADER_SIZE {
      var r :| Representable(r) && f == Frame(r);
      HeaderOfPart(r, file[off..]);
      assert file[off..off + HEADER_SIZE] == file[off..][..HEADER_SIZE];
    }
  }

  // ---------------------------------------------------------------------------
  // One segment

  ghost predicate Within(fs: seq<Bytes>, limit: nat) {
    forall k :: 0 <= k < |fs| ==> Accepted(fs[k], limit)
  }

  ghost predicate AllWithin(parts: seq<seq<Bytes>>, limit: nat) {
    forall i :: 0 <= i < |parts| ==> Within(parts[i], limit)
  }

  /** The only bytes that may follow whole frames: nothing, or part of one more frame. */
  ghost predicate Tail(tail: Bytes) {
    tail == [] || exists f :: IsFrame(f) && Torn(tail, f)
  }

  /** Frames within the limit are parsed one by one, up to where the loop stops. */
  lemma {:induction false} ParseUntil(file: Bytes, seg: nat, off: nat, fs: seq<Bytes>, rest: Bytes, limit: nat)
    requires off <= |file| && Frames(fs) && Within(fs, limit)
    requires file[off..] == Concat(fs) + rest && off + |Concat(fs)| <= |file|
    requires !Next(file, off + |Concat(fs)|, limit).Good?
    ensures Parse(file, seg, off, limit)
         == Parsed(Locs(seg, off, fs), off + |Concat(fs)|, Next(file, off + |Concat(fs)|, limit) == End)
    decreases |fs|
  {
    hide Next, IsFrame, Accepted;
    if fs != [] {
      var more := Concat(fs[1..]) + rest;
      assert file[off..] == fs[0] + more;
      NextWhole(file, off, fs[0], more, limit);
      DropFrame(file, off, fs[0], more);
      ParseUntil(file, seg, off + |fs[0]|, fs[1..], rest, limit);
    }
  }

  lemma ParseFrames(file: Bytes, seg: nat, off: nat, fs: seq<Bytes>, tail: Bytes, limit: nat)
    requires off <= |file| && Frames(fs) && Within(fs, limit) && Tail(tail)
    requires file[off..] == Concat(fs) + tail
    ensures Parse(file, seg, off, limit) == Parsed(Locs(seg, off, fs), off + |Concat(fs)|, tail == [])
  {
    hide Next, IsFrame, Torn, Parse, Locs, Concat, Frames, Within;
    var at := off + |Concat(fs)|;
    DropFrame(file, off, Concat(fs), tail);
    if tail == [] {
      NextEnd(file, at, limit);
    } else {
      var f :| IsFrame(f) && Torn(tail, f);
      NextTorn(file, at, f, limit);
    }
    ParseUntil(file, seg, off, fs, tail, limit);
  }

  lemma NextEnd(file: Bytes, off: nat, limit: nat)
    requires off == |file|
    ensures Next(file, off, limit) == End
  {
    hide DecodeHeader, ChecksumInPieces;
  }

  lemma DropFrame(file: Bytes, off: nat, f: Bytes, rest: Bytes)
    requires off <= |file| && file[off..] == f + rest
    ensures off + |f| <= |file| && file[off + |f|..] == rest
    ensures file[off..off + |f|] == f
  {
    assert file[off..][|f|..] == rest;
    assert file[off..][..|f|] == f;
  }

  lemma ParseSegment(seg: nat, fs: seq<Bytes>, tail: Bytes, limit: nat)
    requires Frames(fs) && Within(fs, limit) && Tail(tail)
    ensures Parse(Concat(fs) + tail, seg, 0, limit) == Parsed(Locs(seg, 0, fs), |Concat(fs)|, tail == [])
  {
    hide *;
    var file := Concat(fs) + tail;
    assert file[0..] == file;
    ParseFrames(file, seg, 0, fs, tail, limit);
  }

  lemma WholeSegment(seg: nat, fs: seq<Bytes>, limit: nat)
    requires Frames(fs) && Within(fs, limit)
    ensures Parse(Concat(fs), seg, 0, limit) == Parsed(Locs(seg, 0, fs), |Concat(fs)|, true)
  {
    hide Parse, Concat, Locs, Frames, Within;
    assert Concat(fs) + [] == Concat(fs);
    ParseSegment(seg, fs, [], limit);
  }

  /** A payload over the limit stops the parse, with everything behind it unread. */
  lemma ParseOversized(file: Bytes, seg: nat, fs: seq<Bytes>, f: Bytes, rest: Bytes, limit: nat)
    requires Frames(fs) && Within(fs, limit) && IsFrame(f) && !Accepted(f, limit)
    requires file == Concat(fs) + (f + rest)
    ensures Parse(file, seg, 0, limit) == Parsed(Locs(seg, 0, fs), |Concat(fs)|, false)
  {
    hide Next, IsFrame, Accepted, Parse, Locs, Concat, Frames, Within;
    assert file[0..] == file;
    DropFrame(file, 0, Concat(fs), f + rest);
    NextWhole(file, |Concat(fs)|, f, rest, limit);
    ParseUntil(file, seg, 0, fs, f + rest, limit);
  }

  /** How many frames come before the first whose payload is over the limit. */
  ghost function Leading(fs: seq<Bytes>, limit: nat): (j: nat)
    ensures j <= |fs|
  {
    if fs == [] || !Accepted(fs[0], limit) then 0 else 1 + Leading(fs[1..], limit)
  }

  lemma {:induction false} LeadingMeans(fs: seq<Bytes>, limit: nat)
    ensures Within(fs[..Leading(fs, limit)], limit)
    ensures Leading(fs, limit) < |fs| ==> !Accepted(fs[Leading(fs, limit)], limit)
    ensures Within(fs, limit) <==> Leading(fs, limit) == |fs|
  {
    hide Accepted;
    if fs != [] && Accepted(fs[0], limit) {
      LeadingMeans(fs[1..], limit);
      var j := Leading(fs[1..], limit);
      assert fs[..1 + j] == [fs[0]] + fs[1..][..j];
      assert forall k :: 1 <= k < |fs| ==> fs[k] == fs[1..][k - 1];
    }
  }

  /** How many frames lie wholly within the first `n` bytes. */
  function Whole(fs: seq<Bytes>, n: nat): (j: nat)
    ensures j <= |fs|
    decreases |fs|
  {
    if fs == [] || |fs[0]| > n then 0 else 1 + Whole(fs[1..], n - |fs[0]|)
  }

  /** A cut leaves whole frames and perhaps part of the next one. */
  lemma {:induction false} CutBytes(fs: seq<Bytes>, n: nat) returns (tail: Bytes)
    requires Frames(fs) && n <= |Concat(fs)|
    ensures Concat(fs)[..n] == Concat(fs[..Whole(fs, n)]) + tail
    ensures Tail(tail)
    decreases |fs|
  {
    hide IsFrame;
    if fs == [] {
      tail := [];
    } else if |fs[0]| > n {
      tail := fs[0][..n];
      assert Concat(fs)[..n] == tail;
      assert IsFrame(fs[0]) && (tail == [] || Torn(tail, fs[0]));
    } else {
      var rest, m := fs[1..], n - |fs[0]|;
      var j := Whole(rest, m);
      tail := CutBytes(rest, m);
      assert fs[..1 + j] == [fs[0]] + rest[..j];
      ConcatCons(fs[0], rest[..j]);
      assert Concat(fs)[..n] == fs[0] + Concat(rest)[..m];
    }
  }

  lemma ConcatCons(f: Bytes, fs: seq<Bytes>)
    ensures Concat([f] + fs) == f + Concat(fs)
  {
    assert ([f] + fs)[1..] == fs;
  }

  /** The count is the greatest whose frames end within the cut, so what is lost is
      exactly what had not reached the disk in full. */
  lemma {:induction false} WholeIsGreatest(fs: seq<Bytes>, n: nat, k: nat)
    requires k <= |fs|
    ensures |Concat(fs[..k])| <= n <==> k <= Whole(fs, n)
    decreases |fs|
  {
    if fs != [] && k > 0 {
      assert fs[..k] == [fs[0]] + fs[1..][..k - 1];
      ConcatCons(fs[0], fs[1..][..k - 1]);
      if |fs[0]| <= n {
        WholeIsGreatest(fs[1..], n - |fs[0]|, k - 1);
      }
    }
  }

  // ---------------------------------------------------------------------------
  // The whole journal

  /** What is left of the segments when the last one keeps only its whole frames. */
  function Kept(parts: seq<seq<Bytes>>, n: nat): (kept: seq<seq<Bytes>>)
    requires parts != []
    ensures |kept| == |parts|
  {
    var last := |parts| - 1;
    parts[last := parts[last][..Whole(parts[last], n)]]
  }

  /** The disk after a crash that leaves the first `n` bytes of the last segment. */
  function Crashed(parts: seq<seq<Bytes>>, n: nat): (d: Disk)
    requires parts != [] && n <= |Concat(parts[|parts| - 1])|
    ensures |d| == |parts|
  {
    var last := |parts| - 1;
    DiskOf(parts)[last := Concat(parts[last])[..n]]
  }

  function Min(a: nat, b: nat): nat {
    if a < b then a else b
  }

  /** What a cut segment parses to: the frames wholly within the cut, up to the first
      whose payload is over the limit. */
  lemma ParseCutSegment(seg: nat, fs: seq<Bytes>, n: nat, limit: nat)
    requires Frames(fs) && n <= |Concat(fs)|
    ensures var kept := fs[..Min(Whole(fs, n), Leading(fs, limit))];
      var p := Parse(Concat(fs)[..n], seg, 0, limit);
      && p.locs == Locs(seg, 0, kept)
      && p.end == |Concat(kept)| <= n
      && Concat(fs)[..p.end] == Concat(kept)
      && (p.clean <==> Within(fs[..Whole(fs, n)], limit) && |Concat(fs[..Whole(fs, n)])| == n)
  {
    hide Parse, Concat, Locs, Whole, Leading, Tail, IsFrame, Accepted, Torn, Within;
    var w, l := Whole(fs, n), Leading(fs, limit);
    var file := Concat(fs)[..n];
    var tail := CutBytes(fs, n);
    LeadingMeans(fs, limit);
    KeptWithin(fs, w, limit);
    if w <= l {
      assert Frames(fs[..w]);
      ParseSegment(seg, fs[..w], tail, limit);
    } else {
      var more := fs[l + 1..w];
      assert fs[..w] == fs[..l] + ([fs[l]] + more);
      ConcatSplit(fs[..l], [fs[l]] + more);
      ConcatCons(fs[l], more);
      assert file == Concat(fs[..l]) + (fs[l] + (Concat(more) + tail));
      ParseOversized(file, seg, fs[..l], fs[l], Concat(more) + tail, limit);
    }
  }

  lemma {:induction false} ConcatSplit(a: seq<Bytes>, b: seq<Bytes>)
    ensures Concat(a + b) == Concat(a) + Concat(b)
  {
    if a == [] {
      assert a + b == b;
    } else {
      assert (a + b)[1..] == a[1..] + b;
      ConcatSplit(a[1..], b);
    }
  }

  /** What recovery leaves of the segments: in the last one, the frames wholly on disk up
      to the first whose payload is over the limit. */
  ghost function Survivors(parts: seq<seq<Bytes>>, n: nat, limit: nat): (left: seq<seq<Bytes>>)
    requires parts != []
    ensures |left| == |parts|
  {
    var last := |parts| - 1;
    parts[last := parts[last][..Min(Whole(parts[last], n), Leading(parts[last], limit))]]
  }

  /** The first segment from `seg` on, before the last, with a payload over the limit; the
      last segment when there is none. */
  ghost function Culprit(parts: seq<seq<Bytes>>, limit: nat, seg: nat): (c: nat)
    requires seg < |parts|
    ensures seg <= c < |parts|
    ensures c < |parts| - 1 ==> !Within(parts[c], limit)
    ensures forall i :: seg <= i < c ==> Within(parts[i], limit)
    decreases |parts| - seg
  {
    if seg == |parts| - 1 || !Within(parts[seg], limit) then seg else Culprit(parts, limit, seg + 1)
  }

  /** What comes of a crash: corruption at the first over-long payload of an earlier
      segment, or else the survivors. */
  ghost function AfterCrash(parts: seq<seq<Bytes>>, n: nat, limit: nat): Outcome
    requires parts != []
  {
    var c := Culprit(parts, limit, 0);
    if c < |parts| - 1 then Corrupt(c, |Concat(parts[c][..Leading(parts[c], limit)])|)
    else Recovered(Layout(Survivors(parts, n, limit), 0), DiskOf(Survivors(parts, n, limit)))
  }

  lemma {:induction false} RecoverTail(parts: seq<seq<Bytes>>, n: nat, limit: nat, seg: nat)
    requires parts != [] && AllFrames(parts)
    requires n <= |Concat(parts[|parts| - 1])| && seg < |parts|
    ensures var c := Culprit(parts, limit, seg);
      RecoverFrom(Crashed(parts, n), seg, limit) ==
        if c < |parts| - 1 then Corrupt(c, |Concat(parts[c][..Leading(parts[c], limit)])|)
        else Recovered(Layout(Survivors(parts, n, limit)[seg..], seg), DiskOf(Survivors(parts, n, limit))[seg..])
    decreases |parts| - seg
  {
    hide Parse, Concat, Locs, Whole, Leading, Within, Frames, Layout;
    var disk, left, last := Crashed(parts, n), Survivors(parts, n, limit), |parts| - 1;
    LayoutStep(left, seg);
    if seg == last {
      LastSegment(parts, n, limit);
      assert RecoverFrom(disk, seg + 1, limit) == Recovered([], []);
      assert left[last + 1..] == [];
      LayoutEnd(last + 1);
      assert DiskOf(left)[last..] == [Concat(left[last])];
    } else {
      EarlierSegment(parts, n, limit, seg);
      if Within(parts[seg], limit) {
        RecoverTail(parts, n, limit, seg + 1);
        assert DiskOf(left)[seg..] == [Concat(left[seg])] + DiskOf(left)[seg + 1..];
      }
    }
  }

  lemma LayoutStep(parts: seq<seq<Bytes>>, seg: nat)
    requires seg < |parts|
    ensures Layout(parts[seg..], seg) == Locs(seg, 0, parts[seg]) + Layout(parts[seg + 1..], seg + 1)
  {
    hide Locs;
    assert parts[seg..][1..] == parts[seg + 1..];
  }

  lemma LayoutEnd(seg: nat)
    ensures Layout([], seg) == []
  {
  }

  lemma LastSegment(parts: seq<seq<Bytes>>, n: nat, limit: nat)
    requires parts != [] && AllFrames(parts) && n <= |Concat(parts[|parts| - 1])|
    ensures var last := |parts| - 1;
      var kept := Survivors(parts, n, limit)[last];
      var p := Parse(Crashed(parts, n)[last], last, 0, limit);
      p.locs == Locs(last, 0, kept) && Crashed(parts, n)[last][..p.end] == Concat(kept)
  {
    hide Parse, Concat, Locs, Whole, Leading, Frames;
    var last := |parts| - 1;
    ParseCutSegment(last, parts[last], n, limit);
    var end := Parse(Crashed(parts, n)[last], last, 0, limit).end;
    assert Concat(parts[last])[..n][..end] == Concat(parts[last])[..end];
  }

  /** A segment that is on disk in full. */
  lemma ParseWholeSegment(seg: nat, fs: seq<Bytes>, limit: nat)
    requires Frames(fs)
    ensures var p := Parse(Concat(fs), seg, 0, limit);
      && (p.clean <==> Within(fs, limit))
      && p.end == |Concat(fs[..Leading(fs, limit)])|
      && (p.clean ==> p.locs == Locs(seg, 0, fs) && Concat(fs)[..p.end] == Concat(fs))
  {
    hide Parse, Concat, Locs, Whole, Leading, Frames;
    ParseCutSegment(seg, fs, |Concat(fs)|, limit);
    WholeOfAll(fs);
    LeadingMeans(fs, limit);
    assert Concat(fs)[..|Concat(fs)|] == Concat(fs) && fs[..|fs|] == fs;
  }

  /** Any segment but the last is on disk in full. */
  lemma EarlierSegment(parts: seq<seq<Bytes>>, n: nat, limit: nat, seg: nat)
    requires parts != [] && AllFrames(parts)
    requires n <= |Concat(parts[|parts| - 1])| && seg < |parts| - 1
    ensures var fs := parts[seg]; var p := Parse(Crashed(parts, n)[seg], seg, 0, limit);
      && (p.clean <==> Within(fs, limit))
      && p.end == |Concat(fs[..Leading(fs, limit)])|
      && (p.clean ==> p.locs == Locs(seg, 0, fs) && Crashed(parts, n)[seg][..p.end] == Concat(fs))
  {
    hide Parse, Concat, Locs, Leading, Frames;
    ParseWholeSegment(seg, parts[seg], limit);
  }

  /** The exact outcome of recovery, for every journal that appends can lay out and every
      cut of its last segment. */
  lemma RecoveryOutcome(parts: seq<seq<Bytes>>, n: nat, limit: nat)
    requires parts != [] && AllFrames(parts)
    requires n <= |Concat(parts[|parts| - 1])|
    ensures RecoverAll(Crashed(parts, n), limit) == AfterCrash(parts, n, limit)
  {
    hide RecoverFrom, Layout, DiskOf, Survivors, Crashed, AllFrames, Leading, Concat;
    RecoverTail(parts, n, limit, 0);
    var left := Survivors(parts, n, limit);
    assert left[0..] == left && DiskOf(left)[0..] == DiskOf(left);
  }

  /** Recovery rebuilds exactly the keydir of the records wholly on disk, and cuts the last
      segment back to their end, if and only if all those records are within the limit. */
  lemma CrashRecovery(parts: seq<seq<Bytes>>, n: nat, limit: nat)
    requires parts != [] && AllFrames(parts)
    requires n <= |Concat(parts[|parts| - 1])|
    ensures RecoverAll(Crashed(parts, n), limit) == Recovered(Layout(Kept(parts, n), 0), DiskOf(Kept(parts, n)))
            <==> AllWithin(Kept(parts, n), limit)
  {
    hide RecoverAll, Layout, DiskOf, Crashed, AllFrames, AllWithin, Survivors, Kept, Leading, Concat;
    RecoveryOutcome(parts, n, limit);
    SurvivorsAreKept(parts, n, limit);
    KeptKeeps(parts, n, limit);
    SurvivorsKeep(parts, n, limit);
    SameDisk(Survivors(parts, n, limit), Kept(parts, n));
  }

  lemma SurvivorsAreKept(parts: seq<seq<Bytes>>, n: nat, limit: nat)
    requires parts != []
    ensures Culprit(parts, limit, 0) == |parts| - 1 && Survivors(parts, n, limit) == Kept(parts, n)
            <==> AllWithin(Kept(parts, n), limit)
  {
    hide Leading, Whole, Within;
    var last := |parts| - 1;
    var fs, kept, left := parts[last], Kept(parts, n), Survivors(parts, n, limit);
    KeptWithin(fs, Whole(fs, n), limit);
    assert forall i :: 0 <= i < last ==> kept[i] == parts[i];
    assert kept[last] == fs[..Whole(fs, n)];
    assert left == kept <==> left[last] == kept[last];
    assert |left[last]| == Min(Whole(fs, n), Leading(fs, limit));
  }

  lemma KeptWithin(fs: seq<Bytes>, w: nat, limit: nat)
    requires w <= |fs|
    ensures Within(fs[..w], limit) <==> w <= Leading(fs, limit)
  {
    hide Leading, Accepted;
    LeadingMeans(fs, limit);
    var l := Leading(fs, limit);
    if w <= l {
      assert forall k :: 0 <= k < w ==> fs[..w][k] == fs[..l][k];
    } else {
      assert fs[..w][l] == fs[l];
    }
  }

  lemma SurvivorsKeep(parts: seq<seq<Bytes>>, n: nat, limit: nat)
    requires parts != [] && AllFrames(parts)
    ensures AllFrames(Survivors(parts, n, limit))
    ensures Culprit(parts, limit, 0) == |parts| - 1 ==> AllWithin(Survivors(parts, n, limit), limit)
  {
    hide IsFrame, Leading, Whole, Within;
    var last := |parts| - 1;
    KeptWithin(parts[last], Min(Whole(parts[last], n), Leading(parts[last], limit)), limit);
  }

  lemma KeptKeeps(parts: seq<seq<Bytes>>, n: nat, limit: nat)
    requires parts != [] && AllFrames(parts)
    ensures AllFrames(Kept(parts, n))
    ensures AllWithin(parts, limit) ==> AllWithin(Kept(parts, n), limit)
  {
    hide IsFrame, Accepted, Whole;
  }

  lemma WholeOfAll(fs: seq<Bytes>)
    ensures Whole(fs, |Concat(fs)|) == |fs|
  {
    hide Whole, Concat;
    WholeIsGreatest(fs, |Concat(fs)|, |fs|);
    assert fs[..|fs|] == fs;
  }

  lemma NoCrash(parts: seq<seq<Bytes>>, n: nat)
    requires parts != [] && n == |Concat(parts[|parts| - 1])|
    ensures Kept(parts, n) == parts
    ensures Crashed(parts, n) == DiskOf(parts)
  {
    hide Whole, Concat;
    var last := |parts| - 1;
    WholeOfAll(parts[last]);
    assert parts[last][..|parts[last]|] == parts[last];
    assert Concat(parts[last])[..n] == Concat(parts[last]);
  }

  // ---------------------------------------------------------------------------
  // One way to read a file as frames

  lemma {:induction false} LocsDetermine(seg: nat, off: nat, fs: seq<Bytes>, gs: seq<Bytes>)
    requires Locs(seg, off, fs) == Locs(seg, off, gs) && Concat(fs) == Concat(gs)
    ensures fs == gs
    decreases |fs|
  {
    if fs != [] {
      assert |Locs(seg, off, fs)| == |Locs(seg, off, gs)|;
      assert Locs(seg, off, fs)[0] == Locs(seg, off, gs)[0];
      assert fs[0] == Concat(fs)[..|fs[0]|] == gs[0];
      assert Concat(fs[1..]) == Concat(fs)[|fs[0]|..] == Concat(gs[1..]);
      assert Locs(seg, off + |fs[0]|, fs[1..]) == Locs(seg, off, fs)[1..] == Locs(seg, off + |gs[0]|, gs[1..]);
      LocsDetermine(seg, off + |fs[0]|, fs[1..], gs[1..]);
    }
  }

  /** Concatenated frames can be taken apart in one way only. */
  lemma UniqueParsing(fs: seq<Bytes>, gs: seq<Bytes>)
    requires Frames(fs) && Frames(gs) && Concat(fs) == Concat(gs)
    ensures fs == gs
  {
    hide Parse, Concat, Locs, IsFrame;
    var limit := 0x1_0000_0000;
    forall k | 0 <= k < |fs|
      ensures Accepted(fs[k], limit)
    {
      FrameFits(fs[k]);
    }
    forall k | 0 <= k < |gs|
      ensures Accepted(gs[k], limit)
    {
      FrameFits(gs[k]);
    }
    WholeSegment(0, fs, limit);
    WholeSegment(0, gs, limit);
    LocsDetermine(0, 0, fs, gs);
  }

  lemma FrameFits(f: Bytes)
    requires IsFrame(f)
    ensures Accepted(f, 0x1_0000_0000)
  {
    hide Frame;
  }

  lemma DiskDetermines(p: seq<seq<Bytes>>, q: seq<seq<Bytes>>)
    requires AllFrames(p) && AllFrames(q) && DiskOf(p) == DiskOf(q)
    ensures p == q
  {
    hide Frames, Concat;
    assert |DiskOf(p)| == |DiskOf(q)|;
    forall i | 0 <= i < |p|
      ensures p[i] == q[i]
    {
      assert DiskOf(p)[i] == DiskOf(q)[i];
      UniqueParsing(p[i], q[i]);
    }
  }

  lemma SameDisk(p: seq<seq<Bytes>>, q: seq<seq<Bytes>>)
    requires AllFrames(p) && AllFrames(q)
    ensures DiskOf(p) == DiskOf(q) <==> p == q
  {
    hide DiskOf, AllFrames;
    if DiskOf(p) == DiskOf(q) {
      DiskDetermines(p, q);
    }
  }

  // ---------------------------------------------------------------------------
  // Recovering twice

  lemma NextPrefix(file: Bytes, off: nat, limit: nat, end: nat)
    requires off <= |file| && Next(file, off, limit).Good?
    requires off + Next(file, off, limit).size <= end <= |file|
    ensures Next(file[..end], off, limit) == Next(file, off, limit)
  {
    hide DecodeHeader, ChecksumInPieces;
    var size := Next(file, off, limit).size;
    assert file[..end][off..off + HEADER_SIZE] == file[off..off + HEADER_SIZE];
    assert file[..end][off + HEADER_SIZE..off + size] == file[off + HEADER_SIZE..off + size];
  }

  /** What is left of a file after truncation parses to the same records, cleanly. */
  lemma {:induction false} ParseTruncated(file: Bytes, seg: nat, off: nat, limit: nat)
    requires off <= |file|
    ensures var p := Parse(file, seg, off, limit);
      Parse(file[..p.end], seg, off, limit) == Parsed(p.locs, p.end, true)
    decreases |file| - off
  {
    hide Next;
    var p := Parse(file, seg, off, limit);
    match Next(file, off, limit)
    case End => NextEnd(file[..p.end], off, limit);
    case Bad => NextEnd(file[..p.end], off, limit);
    case Good(size) =>
      NextPrefix(file, off, limit, p.end);
      ParseTruncated(file, seg, off + size, limit);
  }

  lemma {:induction false} RecoverAgain(d: Disk, e: Disk, seg: nat, limit: nat)
    requires |e| == |d| && seg <= |d| && RecoverFrom(d, seg, limit).Recovered?
    requires e[seg..] == RecoverFrom(d, seg, limit).disk
    ensures RecoverFrom(e, seg, limit) == RecoverFrom(d, seg, limit)
    decreases |d| - seg
  {
    hide Parse;
    if seg < |d| {
      var p := Parse(d[seg], seg, 0, limit);
      var rest := RecoverFrom(d, seg + 1, limit);
      assert e[seg] == e[seg..][0] == d[seg][..p.end];
      assert e[seg + 1..] == e[seg..][1..] == rest.disk;
      ParseTruncated(d[seg], seg, 0, limit);
      RecoverAgain(d, e, seg + 1, limit);
      assert e[seg][..p.end] == e[seg];
    }
  }

  lemma {:induction false} RecoveredSize(d: Disk, seg: nat, limit: nat)
    requires seg <= |d| && RecoverFrom(d, seg, limit).Recovered?
    ensures |RecoverFrom(d, seg, limit).disk| == |d| - seg
    decreases |d| - seg
  {
    hide Parse;
    if seg < |d| {
      RecoveredSize(d, seg + 1, limit);
    }
  }

  /** Whatever is on disk, a second recovery finds the same records and changes nothing. */
  lemma RecoverTwice(d: Disk, limit: nat)
    requires RecoverAll(d, limit).Recovered?
    ensures RecoverAll(RecoverAll(d, limit).disk, limit) == RecoverAll(d, limit)
  {
    hide RecoverFrom;
    RecoveredSize(d, 0, limit);
    var e := RecoverAll(d, limit).disk;
    assert e[0..] == e;
    RecoverAgain(d, e, 0, limit);
  }

  /** A tail torn off any segment but the last is reported and not repaired, at the end of
      the last frame that recovery accepts, unless it stops in a segment before. */
  lemma TornEarlierSegment(parts: seq<seq<Bytes>>, seg: nat, n: nat, limit: nat)
    requires AllFrames(parts) && seg < |parts| - 1 && n < |Concat(parts[seg])|
    requires |Concat(parts[seg][..Whole(parts[seg], n)])| != n
    ensures var c := Culprit(parts, limit, 0);
      RecoverAll(DiskOf(parts)[seg := Concat(parts[seg])[..n]], limit) ==
        if c < seg then Corrupt(c, |Concat(parts[c][..Leading(parts[c], limit)])|)
        else Corrupt(seg, |Concat(parts[seg][..Min(Whole(parts[seg], n), Leading(parts[seg], limit))])|)
  {
    hide RecoverFrom, Concat, Whole, Leading, Culprit, DiskOf, Frames;
    TornFrom(parts, seg, n, limit, 0);
  }

  lemma {:induction false} TornFrom(parts: seq<seq<Bytes>>, seg: nat, n: nat, limit: nat, k: nat)
    requires AllFrames(parts) && k <= seg < |parts| - 1 && n < |Concat(parts[seg])|
    requires |Concat(parts[seg][..Whole(parts[seg], n)])| != n
    ensures var c := Culprit(parts, limit, k);
      RecoverFrom(DiskOf(parts)[seg := Concat(parts[seg])[..n]], k, limit) ==
        if c < seg then Corrupt(c, |Concat(parts[c][..Leading(parts[c], limit)])|)
        else Corrupt(seg, |Concat(parts[seg][..Min(Whole(parts[seg], n), Leading(parts[seg], limit))])|)
    decreases seg - k
  {
    hide Parse, Concat, Locs, Whole, Leading, Within, Frames;
    if k == seg {
      ParseCutSegment(seg, parts[seg], n, limit);
    } else {
      ParseWholeSegment(k, parts[k], limit);
      if Within(parts[k], limit) {
        TornFrom(parts, seg, n, limit, k + 1);
      }
    }
  }

  // ---------------------------------------------------------------------------
  // Payloads over the limit

  /** Append does not check payload sizes, recovery does: a cleanly closed journal is
      reopened in full exactly when every payload is within the limit of `recover`. */
  lemma ReopensInFullIff(parts: seq<seq<Bytes>>, limit: nat)
    requires parts != [] && AllFrames(parts)
    ensures RecoverAll(DiskOf(parts), limit) == Recovered(Layout(parts, 0), DiskOf(parts))
            <==> AllWithin(parts, limit)
  {
    hide *;
    var n := |Concat(parts[|parts| - 1])|;
    NoCrash(parts, n);
    CrashRecovery(parts, n, limit);
  }

  // ---------------------------------------------------------------------------
  // Reading back

  datatype ReadResult = Found(r: Record) | NotFound | BadChecksum

  /** A location lies within its file and is long enough to hold a header. */
  predicate InFile(disk: Disk, l: Location) {
    HEADER_SIZE <= l.size && l.seg < |disk| && l.off + l.size <= |disk[l.seg]|
  }

  function Cut(disk: Disk, l: Location): (b: Bytes)
    requires InFile(disk, l)
    ensures |b| == l.size
  {
    disk[l.seg][l.off..l.off + l.size]
  }

  /** What `Read` makes of the bytes at a location; the sequence number it reports is the
      one it was asked for. */
  function ReadFrame(b: Bytes, seqNo: nat): ReadResult
    requires HEADER_SIZE <= |b|
  {
    var h := DecodeHeader(b[..HEADER_SIZE]);
    var payload := b[HEADER_SIZE..];
    if ChecksumInPieces(b[..HEADER_SIZE], payload) != h.expectedCRC then BadChecksum
    else Found(Record(seqNo, h.tstamp, h.etype, h.tenant, payload))
  }

  lemma ReadBackFrame(r: Record)
    requires Representable(r)
    ensures ReadFrame(Frame(r), r.seqNo) == Found(r)
  {
    hide DecodeHeader, HeaderTail, Checksum, Frame, ChecksumInPieces;
    DecodeFrame(r);
    CutFrame(r);
    FrameChecksOut(r);
  }

  ghost predicate PointsAt(disk: Disk, l: Location, f: Bytes) {
    InFile(disk, l) && Cut(disk, l) == f
  }

  lemma {:induction false} LocsPoint(disk: Disk, seg: nat, off: nat, fs: seq<Bytes>, k: nat)
    requires seg < |disk| && off <= |disk[seg]| && Frames(fs)
    requires disk[seg][off..] == Concat(fs) && k < |fs|
    ensures PointsAt(disk, Locs(seg, off, fs)[k], fs[k])
    decreases |fs|
  {
    hide IsFrame;
    var next := off + |fs[0]|;
    FrameSize(fs[0]);
    DropFrame(disk[seg], off, fs[0], Concat(fs[1..]));
    if k > 0 {
      LocsPoint(disk, seg, next, fs[1..], k - 1);
    }
  }

  lemma {:induction false} LayoutLength(parts: seq<seq<Bytes>>, seg: nat)
    ensures |Layout(parts, seg)| == |Flatten(parts)|
    decreases |parts|
  {
    if parts != [] {
      LayoutLength(parts[1..], seg + 1);
    }
  }

  lemma {:induction false} LayoutPoints(parts: seq<seq<Bytes>>, seg: nat, k: nat)
    requires AllFrames(parts) && seg <= |parts|
    requires k < |Flatten(parts[seg..])| == |Layout(parts[seg..], seg)|
    ensures PointsAt(DiskOf(parts), Layout(parts[seg..], seg)[k], Flatten(parts[seg..])[k])
    decreases |parts| - seg
  {
    hide Concat, Locs, PointsAt, Frames;
    assert parts[seg..][0] == parts[seg] && parts[seg..][1..] == parts[seg + 1..];
    if k < |parts[seg]| {
      assert DiskOf(parts)[seg][0..] == Concat(parts[seg]);
      LocsPoint(DiskOf(parts), seg, 0, parts[seg], k);
    } else {
      LayoutLength(parts[seg + 1..], seg + 1);
      LayoutPoints(parts, seg + 1, k - |parts[seg]|);
    }
  }

  /** The keydir has one entry for each record, in order, and it points at its frame. */
  lemma KeydirPoints(parts: seq<seq<Bytes>>)
    requires AllFrames(parts)
    ensures |Layout(parts, 0)| == |Flatten(parts)|
    ensures forall k :: 0 <= k < |Flatten(parts)| ==> PointsAt(DiskOf(parts), Layout(parts, 0)[k], Flatten(parts)[k])
  {
    hide Layout, Flatten, DiskOf, PointsAt, AllFrames;
    assert parts[0..] == parts;
    LayoutLength(parts, 0);
    forall k | 0 <= k < |Flatten(parts)|
      ensures PointsAt(DiskOf(parts), Layout(parts, 0)[k], Flatten(parts)[k])
    {
      LayoutPoints(parts, 0, k);
    }
  }

  // ---------------------------------------------------------------------------
  // Concatenation

  lemma {:induction false} ConcatAdd(fs: seq<Bytes>, f: Bytes)
    ensures Concat(fs + [f]) == Concat(fs) + f
  {
    if fs == [] {
      assert fs + [f] == [f] + [];
      ConcatCons(f, []);
    } else {
      var rest := fs[1..];
      ConcatAdd(rest, f);
      assert fs + [f] == [fs[0]] + (rest + [f]);
      ConcatCons(fs[0], rest + [f]);
    }
  }

  lemma LocsCons(seg: nat, off: nat, f: Bytes, fs: seq<Bytes>)
    ensures Locs(seg, off, [f] + fs) == [Location(seg, off, |f|)] + Locs(seg, off + |f|, fs)
  {
    assert ([f] + fs)[1..] == fs;
  }

  lemma NothingLocated(seg: nat, off: nat)
    ensures Concat([]) == [] && Locs(seg, off, []) == []
  {
  }

  lemma {:induction false} LocsAdd(seg: nat, off: nat, fs: seq<Bytes>, f: Bytes)
    ensures Locs(seg, off, fs + [f]) == Locs(seg, off, fs) + [Location(seg, off + |Concat(fs)|, |f|)]
    decreases |fs|
  {
    hide Locs, Concat;
    if fs == [] {
      assert fs + [f] == [f] + [];
      NothingLocated(seg, off);
      NothingLocated(seg, off + |f|);
      LocsCons(seg, off, f, []);
    } else {
      var rest, next := fs[1..], off + |fs[0]|;
      LocsAdd(seg, next, rest, f);
      assert fs == [fs[0]] + rest && fs + [f] == [fs[0]] + (rest + [f]);
      LocsCons(seg, off, fs[0], rest);
      LocsCons(seg, off, fs[0], rest + [f]);
      ConcatCons(fs[0], rest);
    }
  }

  /** Appending a segment at the end of the journal. */
  lemma {:induction false} AddSegment(parts: seq<seq<Bytes>>, seg: nat, fs: seq<Bytes>)
    ensures Layout(parts + [fs], seg) == Layout(parts, seg) + Locs(seg + |parts|, 0, fs)
    ensures Flatten(parts + [fs]) == Flatten(parts) + fs
    decreases |parts|
  {
    hide Locs;
    if parts == [] {
      assert parts + [fs] == [fs];
      assert [fs][1..] == [];
      assert Layout([], seg + 1) == [] && Flatten([]) == [];
    } else {
      assert (parts + [fs])[0] == parts[0];
      assert (parts + [fs])[1..] == parts[1..] + [fs];
      AddSegment(parts[1..], seg + 1, fs);
    }
  }

  /** The last segment seen apart from the earlier ones. */
  lemma SplitLast(parts: seq<seq<Bytes>>)
    requires parts != []
    ensures var last := |parts| - 1;
      && Flatten(parts) == Flatten(parts[..last]) + parts[last]
      && Layout(parts, 0) == Layout(parts[..last], 0) + Locs(last, 0, parts[last])
  {
    hide Layout, Flatten, Locs;
    var last := |parts| - 1;
    assert parts == parts[..last] + [parts[last]];
    AddSegment(parts[..last], 0, parts[last]);
  }
}
