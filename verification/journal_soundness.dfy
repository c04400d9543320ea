/** What recovery accepts of a disk of any content (`sentry/store.go`). */
module JournalSoundness {
  import opened Crc32
  import opened CrcDetection
  import opened Framing
  import opened JournalLayout

  const MAX_PAYLOAD := 0x100_0000

  // ---------------------------------------------------------------------------
  // One round

  /** A frame that recovery may accept starts at `off`. */
  ghost predicate StartsAt(f: Bytes, file: Bytes, off: nat, limit: nat)
    requires off <= |file|
  {
    IsFrame(f) && Accepted(f, limit) && f <= file[off..]
  }

  ghost predicate NoneStarts(file: Bytes, off: nat, limit: nat)
    requires off <= |file|
  {
    forall f :: !StartsAt(f, file, off, limit)
  }

  /** Whatever a round accepts is a frame. */
  lemma AcceptedIsFrame(file: Bytes, off: nat, limit: nat)
    requires off <= |file| && limit <= MAX_PAYLOAD && Next(file, off, limit).Good?
    ensures StartsAt(file[off..off + Next(file, off, limit).size], file, off, limit)
  {
    hide ChecksumInPieces, DecodeHeader, Frame;
    var size := Next(file, off, limit).size;
    var b := file[off..off + size];
    assert b[..HEADER_SIZE] == file[off..off + HEADER_SIZE];
    assert b[HEADER_SIZE..] == file[off + HEADER_SIZE..off + size];
    WhatDecodesIsFrame(b);
  }

  /** A round accepts a frame if and only if one within the limit starts there, and then
      that one; no other check is made. */
  lemma NextExact(file: Bytes, off: nat, limit: nat, f: Bytes)
    requires off <= |file| && limit <= MAX_PAYLOAD
    ensures StartsAt(f, file, off, limit) <==> Next(file, off, limit) == Good(|f|) && f <= file[off..]
  {
    hide Next, IsFrame;
    if StartsAt(f, file, off, limit) {
      assert file[off..] == f + file[off..][|f|..];
      NextWhole(file, off, f, file[off..][|f|..], limit);
    }
    if Next(file, off, limit) == Good(|f|) && f <= file[off..] {
      AcceptedIsFrame(file, off, limit);
      assert f == file[off..off + |f|];
    }
  }

  lemma NothingAccepted(file: Bytes, off: nat, limit: nat)
    requires off <= |file| && limit <= MAX_PAYLOAD
    ensures NoneStarts(file, off, limit) <==> !Next(file, off, limit).Good?
    ensures Next(file, off, limit) == End <==> off == |file|
  {
    hide IsFrame, DecodeHeader, ChecksumInPieces;
    if Next(file, off, limit).Good? {
      AcceptedIsFrame(file, off, limit);
    } else {
      forall f
        ensures !StartsAt(f, file, off, limit)
      {
        NextExact(file, off, limit, f);
      }
    }
  }

  // ---------------------------------------------------------------------------
  // One file

  /** The frames within the limit that a file starts with, as many as there are. */
  ghost predicate Longest(fs: seq<Bytes>, file: Bytes, limit: nat) {
    && Frames(fs) && Within(fs, limit)
    && Concat(fs) <= file
    && NoneStarts(file, |Concat(fs)|, limit)
  }

  /** Any file is parsed to its longest run of frames, and is clean exactly when nothing
      follows them. */
  lemma {:induction false} ParseAny(file: Bytes, seg: nat, off: nat, limit: nat) returns (fs: seq<Bytes>)
    requires off <= |file| && limit <= MAX_PAYLOAD
    ensures Frames(fs) && Within(fs, limit) && Concat(fs) <= file[off..]
    ensures NoneStarts(file, off + |Concat(fs)|, limit)
    ensures Parse(file, seg, off, limit)
         == Parsed(Locs(seg, off, fs), off + |Concat(fs)|, off + |Concat(fs)| == |file|)
    decreases |file| - off
  {
    hide Next, IsFrame, Accepted, NoneStarts;
    NothingAccepted(file, off, limit);
    match Next(file, off, limit)
    case Good(size) =>
      AcceptedIsFrame(file, off, limit);
      var f := file[off..off + size];
      var rest := ParseAny(file, seg, off + size, limit);
      fs := [f] + rest;
      ConcatCons(f, rest);
      LocsCons(seg, off, f, rest);
      assert file[off..] == f + file[off + size..];
    case _ =>
      fs := [];
      NothingLocated(seg, off);
  }

  lemma ParseLongest(file: Bytes, seg: nat, limit: nat) returns (fs: seq<Bytes>)
    requires limit <= MAX_PAYLOAD
    ensures Longest(fs, file, limit)
    ensures Parse(file, seg, 0, limit) == Parsed(Locs(seg, 0, fs), |Concat(fs)|, Concat(fs) == file)
  {
    hide Parse, Locs, Concat, Frames, Within, NoneStarts;
    fs := ParseAny(file, seg, 0, limit);
    assert file[0..] == file;
  }

  /** What reading a file comes to: the places and the end of its longest run of frames. */
  ghost predicate ReadsAs(file: Bytes, seg: nat, limit: nat, locs: seq<Location>, end: nat, clean: bool) {
    exists fs ::
      Longest(fs, file, limit) && locs == Locs(seg, 0, fs) && end == |Concat(fs)| && (clean <==> file == Concat(fs))
  }

  lemma ParseReads(file: Bytes, seg: nat, limit: nat)
    requires limit <= MAX_PAYLOAD
    ensures var p := Parse(file, seg, 0, limit); ReadsAs(file, seg, limit, p.locs, p.end, p.clean)
  {
    hide Longest, Parse, Locs, Concat;
    var fs := ParseLongest(file, seg, limit);
  }

  lemma LongestUnique(fs: seq<Bytes>, gs: seq<Bytes>, file: Bytes, limit: nat)
    requires limit <= MAX_PAYLOAD && Longest(fs, file, limit) && Longest(gs, file, limit)
    ensures fs == gs
  {
    hide Parse, Next, NoneStarts, Concat, Locs, Frames, Within;
    LongestParse(fs, file, limit);
    LongestParse(gs, file, limit);
    assert Concat(fs) == file[..|Concat(fs)|] && Concat(gs) == file[..|Concat(gs)|];
    LocsDetermine(0, 0, fs, gs);
  }

  lemma LongestParse(fs: seq<Bytes>, file: Bytes, limit: nat)
    requires limit <= MAX_PAYLOAD && Longest(fs, file, limit)
    ensures Parse(file, 0, 0, limit).locs == Locs(0, 0, fs) && Parse(file, 0, 0, limit).end == |Concat(fs)|
  {
    hide Parse, Next, NoneStarts, Concat, Locs, Frames, Within;
    NothingAccepted(file, |Concat(fs)|, limit);
    assert file[0..] == Concat(fs) + file[|Concat(fs)|..];
    ParseUntil(file, 0, 0, fs, file[|Concat(fs)|..], limit);
  }

  // ---------------------------------------------------------------------------
  // The limit

  lemma LimitValue(segMax: int)
    requires -0x8000_0000 <= segMax < 0x1_0000_0000
    ensures PayloadLimit(segMax) == if 27 <= segMax < 27 + 16 * 1024 * 1024 then segMax - 27 else 16 * 1024 * 1024
  {
  }

  /** Recovery accepts the frames that fit into a segment of their own and whose payload is
      at most 16 MiB, for every segment limit below 4 GiB; a limit too small for a header
      wraps around and bounds nothing below 16 MiB. */
  lemma LimitMeans(segMax: int, f: Bytes)
    requires IsFrame(f) && -0x8000_0000 <= segMax < 0x1_0000_0000
    ensures Accepted(f, PayloadLimit(segMax)) <==>
      |f| <= 27 + 16 * 1024 * 1024 && (segMax < 27 || |f| <= segMax)
  {
    hide IsFrame, PayloadLimit;
    LimitValue(segMax);
    FrameSize(f);
  }

  lemma LimitBound(segMax: int)
    ensures PayloadLimit(segMax) <= MAX_PAYLOAD
  {
  }

  // ---------------------------------------------------------------------------
  // A whole disk

  ghost predicate AllLongest(parts: seq<seq<Bytes>>, disk: Disk, limit: nat) {
    |parts| == |disk| && forall i :: 0 <= i < |disk| ==> Longest(parts[i], disk[i], limit)
  }

  /** Recovery of a disk of any content: the keydir points at the frames that each segment
      starts with, and all but the last segment consist of nothing else. */
  ghost predicate Sound(disk: Disk, limit: nat, parts: seq<seq<Bytes>>, keydir: seq<Location>, left: Disk) {
    && AllLongest(parts, disk, limit)
    && keydir == Layout(parts, 0) && left == DiskOf(parts)
    && forall i :: 0 <= i < |disk| - 1 ==> disk[i] == Concat(parts[i])
  }

  /** Corruption at `off` of segment `seg`: all segments before consist of frames, and this
      one, which is not the last, starts with frames up to `off` and goes on with something
      else. */
  ghost predicate CorruptAt(disk: Disk, limit: nat, seg: nat, off: nat) {
    && seg < |disk| - 1
    && (forall i :: 0 <= i < seg ==> exists fs :: Longest(fs, disk[i], limit) && Concat(fs) == disk[i])
    && exists fs :: Longest(fs, disk[seg], limit) && off == |Concat(fs)| < |disk[seg]|
  }

  ghost predicate TailSound(disk: Disk, limit: nat, seg: nat, parts: seq<seq<Bytes>>, keydir: seq<Location>, left: Disk)
    requires seg <= |disk|
  {
    && AllLongest(parts, disk[seg..], limit)
    && keydir == Layout(parts, seg) && left == DiskOf(parts)
    && forall i :: seg <= i < |disk| - 1 ==> disk[i] == Concat(parts[i - seg])
  }

  ghost predicate TailCorrupt(disk: Disk, limit: nat, seg: nat, at: nat, off: nat) {
    && seg <= at < |disk| - 1
    && (forall i :: seg <= i < at ==> exists fs :: Longest(fs, disk[i], limit) && Concat(fs) == disk[i])
    && exists fs :: Longest(fs, disk[at], limit) && off == |Concat(fs)| < |disk[at]|
  }

  lemma {:induction false} RecoverTailSound(disk: Disk, limit: nat, seg: nat) returns (parts: seq<seq<Bytes>>)
    requires seg <= |disk| && limit <= MAX_PAYLOAD
    ensures match RecoverFrom(disk, seg, limit)
      case Recovered(keydir, left) => TailSound(disk, limit, seg, parts, keydir, left)
      case Corrupt(at, off) => TailCorrupt(disk, limit, seg, at, off)
    decreases |disk| - seg
  {
    hide Parse, Concat, Locs, Longest, Layout;
    parts := [];
    if seg == |disk| {
      LayoutEnd(seg);
    } else {
      var fs := ParseLongest(disk[seg], seg, limit);
      LongestPrefix(fs, disk[seg], limit);
      if Concat(fs) == disk[seg] || seg == |disk| - 1 {
        var rest := RecoverTailSound(disk, limit, seg + 1);
        parts := [fs] + rest;
        if RecoverFrom(disk, seg + 1, limit).Recovered? {
          LayoutCons(fs, rest, seg);
          assert disk[seg..] == [disk[seg]] + disk[seg + 1..];
          assert DiskOf(parts) == [Concat(fs)] + DiskOf(rest);
        }
      }
    }
  }

  lemma LongestPrefix(fs: seq<Bytes>, file: Bytes, limit: nat)
    requires Longest(fs, file, limit)
    ensures |Concat(fs)| <= |file| && file[..|Concat(fs)|] == Concat(fs)
    ensures Concat(fs) != file ==> |Concat(fs)| < |file|
  {
    hide Concat, Frames, Within, NoneStarts;
  }

  lemma LayoutCons(fs: seq<Bytes>, rest: seq<seq<Bytes>>, seg: nat)
    ensures Layout([fs] + rest, seg) == Locs(seg, 0, fs) + Layout(rest, seg + 1)
  {
    hide Locs;
    assert ([fs] + rest)[1..] == rest;
  }

  lemma RecoverAny(disk: Disk, limit: nat) returns (parts: seq<seq<Bytes>>)
    requires limit <= MAX_PAYLOAD
    ensures match RecoverAll(disk, limit)
      case Recovered(keydir, left) => Sound(disk, limit, parts, keydir, left)
      case Corrupt(seg, off) => CorruptAt(disk, limit, seg, off)
  {
    hide RecoverFrom, Longest, Layout, DiskOf, Concat;
    parts := RecoverTailSound(disk, limit, 0);
    assert disk[0..] == disk;
  }

  /** What the store's recovery comes to on a disk of any content. */
  lemma RecoverySound(disk: Disk, segMax: int)
    ensures match RecoverAll(disk, PayloadLimit(segMax))
      case Recovered(keydir, left) => exists parts :: Sound(disk, PayloadLimit(segMax), parts, keydir, left)
      case Corrupt(seg, off) => CorruptAt(disk, PayloadLimit(segMax), seg, off)
  {
    hide RecoverAll, Sound, CorruptAt, PayloadLimit;
    LimitBound(segMax);
    var parts := RecoverAny(disk, PayloadLimit(segMax));
  }

  // ---------------------------------------------------------------------------
  // Damage

  lemma ChecksumOfWhole(b: Bytes)
    requires |b| >= HEADER_SIZE
    ensures ChecksumInPieces(b[..HEADER_SIZE], b[HEADER_SIZE..]) == Checksum(b[4..])
  {
    hide Update;
    UpdateInPieces(0, b[4..HEADER_SIZE], b[HEADER_SIZE..]);
    assert b[..HEADER_SIZE][4..] == b[4..HEADER_SIZE];
    assert b[4..] == b[4..HEADER_SIZE] + b[HEADER_SIZE..];
  }

  /** A damaged byte shows: the checksum stored in front is no longer that of the rest. */
  lemma DamageShows(r: Record, i: nat, x: Byte)
    requires Representable(r) && i < |Frame(r)| && x != Frame(r)[i]
    ensures var b := Frame(r)[i := x];
      ChecksumInPieces(b[..HEADER_SIZE], b[HEADER_SIZE..]) != DecodeHeader(b[..HEADER_SIZE]).expectedCRC
  {
    hide Frame, ChecksumInPieces, Update, GetLE;
    var f := Frame(r);
    var b := f[i := x];
    FrameChecksOut(r);
    ChecksumOfWhole(f);
    ChecksumOfWhole(b);
    assert f[..HEADER_SIZE][0..4] == f[0..4] && b[..HEADER_SIZE][0..4] == b[0..4];
    if i < 4 {
      assert b[4..] == f[4..];
      assert b[0..4][i] != f[0..4][i];
      PutGetLE(b[0..4]);
      PutGetLE(f[0..4]);
    } else {
      assert b[0..4] == f[0..4];
      assert b[4..] == f[4..][i - 4 := x];
      ByteChangeShows(0, f[4..], i - 4, x);
    }
  }

  /** Reading a record notices any single damaged byte of its frame. */
  lemma ReadNoticesDamage(r: Record, i: nat, x: Byte, seqNo: nat)
    requires Representable(r) && i < |Frame(r)| && x != Frame(r)[i]
    ensures ReadFrame(Frame(r)[i := x], seqNo) == BadChecksum
  {
    hide Frame, ChecksumInPieces, DecodeHeader;
    DamageShows(r, i, x);
  }

  /** Recovery never takes a frame with a damaged byte for a record, unless the damage is to
      the length, which decides how far the checksum reaches. */
  lemma RecoveryNoticesDamage(file: Bytes, off: nat, r: Record, i: nat, x: Byte, rest: Bytes, limit: nat)
    requires Representable(r) && i < |Frame(r)| && x != Frame(r)[i] && !(23 <= i < 27)
    requires off <= |file| && file[off..] == Frame(r)[i := x] + rest
    ensures Next(file, off, limit) == Bad
  {
    hide Frame, ChecksumInPieces, HeaderTail, Checksum;
    var f := Frame(r);
    var b := f[i := x];
    DamageShows(r, i, x);
    DecodeFrame(r);
    assert b[..HEADER_SIZE][23..27] == f[..HEADER_SIZE][23..27];
    assert file[off..off + HEADER_SIZE] == file[off..][..HEADER_SIZE] == b[..HEADER_SIZE];
    assert file[off + HEADER_SIZE..off + |f|] == file[off..][HEADER_SIZE..|f|] == b[HEADER_SIZE..];
  }
}
