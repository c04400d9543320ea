/** `sentry/record.go`: the on-disk frame of one journal record. */
module Framing {
  import opened Crc32

  datatype Record = Record(seqNo: nat, tstamp: int, etype: nat, tenant: nat, payload: seq<Byte>)
  datatype Header = Header(seqNo: nat, tstamp: int, etype: nat, tenant: nat, payloadLen: nat, expectedCRC: nat)

  const HEADER_SIZE := 27 // 4 + 8 + 8 + 1 + 2 + 4

  /** The ranges of the Go types the fields are stored in; a frame's size is a uint32. */
  ghost predicate Representable(r: Record) {
    && r.seqNo < 0x1_0000_0000_0000_0000
    && -0x8000_0000_0000_0000 <= r.tstamp < 0x8000_0000_0000_0000
    && r.etype < 256
    && r.tenant < 65536
    && HEADER_SIZE + |r.payload| < 0x1_0000_0000
  }

  // ---------------------------------------------------------------------------
  // Little-endian integers

  function Pow256(n: nat): (p: nat)
    ensures p > 0
  {
    if n == 0 then 1 else 256 * Pow256(n - 1)
  }

  /** The `n` low bytes of `x`, least significant first. */
  function PutLE(x: nat, n: nat): (b: seq<Byte>)
    ensures |b| == n
    decreases n
  {
    if n == 0 then [] else [x % 256] + PutLE(x / 256, n - 1)
  }

  function GetLE(b: seq<Byte>): nat
    decreases |b|
  {
    if b == [] then 0 else b[0] + 256 * GetLE(b[1..])
  }

  lemma {:induction false} GetPutLE(x: nat, n: nat)
    requires x < Pow256(n)
    ensures GetLE(PutLE(x, n)) == x
    decreases n
  {
    if n != 0 {
      GetPutLE(x / 256, n - 1);
      assert PutLE(x, n)[1..] == PutLE(x / 256, n - 1);
    }
  }

  lemma Powers()
    ensures Pow256(2) == 65536
    ensures Pow256(4) == 0x1_0000_0000
    ensures Pow256(8) == 0x1_0000_0000_0000_0000
  {
    assert Pow256(2) == 256 * Pow256(1);
    assert Pow256(4) == 256 * (256 * Pow256(2));
    assert Pow256(6) == 256 * (256 * Pow256(4));
    assert Pow256(8) == 256 * (256 * Pow256(6));
  }

  /** `uint64(t)`: two's complement. */
  function ToUnsigned(t: int): (u: nat)
    requires -0x8000_0000_0000_0000 <= t < 0x8000_0000_0000_0000
    ensures u < 0x1_0000_0000_0000_0000
  {
    if t < 0 then t + 0x1_0000_0000_0000_0000 else t
  }

  /** `int64(u)` */
  function ToSigned(u: nat): int {
    if u >= 0x8000_0000_0000_0000 then u - 0x1_0000_0000_0000_0000 else u
  }

  // ---------------------------------------------------------------------------
  // Frames

  /** The header after its checksum field. */
  function HeaderTail(r: Record): (b: seq<Byte>)
    requires Representable(r)
    ensures |b| == HEADER_SIZE - 4
  {
    PutLE(r.seqNo, 8) + PutLE(ToUnsigned(r.tstamp), 8) + [r.etype] + PutLE(r.tenant, 2) + PutLE(|r.payload|, 4)
  }

  /** What one record looks like on disk. */
  function Frame(r: Record): (b: seq<Byte>)
    requires Representable(r)
    ensures |b| == HEADER_SIZE + |r.payload|
  {
    var body := HeaderTail(r) + r.payload;
    PutLE(Checksum(body), 4) + body
  }

  function DecodeHeader(b: seq<Byte>): Header
    requires |b| == HEADER_SIZE
  {
    Header(GetLE(b[4..12]), ToSigned(GetLE(b[12..20])), b[20], GetLE(b[21..23]), GetLE(b[23..27]), GetLE(b[0..4]))
  }

  lemma FivePieces(f: seq<Byte>, a: seq<Byte>, b: seq<Byte>, c: seq<Byte>, d: seq<Byte>, e: seq<Byte>)
    requires |f| >= HEADER_SIZE
    requires f[4..12] == a && f[12..20] == b && f[20..21] == c && f[21..23] == d && f[23..27] == e
    ensures f[4..HEADER_SIZE] == a + b + c + d + e
  {
    var ab, abc := f[4..20], f[4..21];
    assert ab == a + b;
    assert abc == ab + c;
    assert f[4..23] == abc + d;
  }

  /** The six fields of a header, cut out of a frame or written into a buffer. */
  ghost predicate HasHeaderTail(f: seq<Byte>, r: Record)
    requires Representable(r)
  {
    && |f| >= HEADER_SIZE
    && f[4..12] == PutLE(r.seqNo, 8)
    && f[12..20] == PutLE(ToUnsigned(r.tstamp), 8)
    && f[20] == r.etype
    && f[21..23] == PutLE(r.tenant, 2)
    && f[23..HEADER_SIZE] == PutLE(|r.payload|, 4)
  }

  lemma AssembleTail(f: seq<Byte>, r: Record)
    requires Representable(r)
    requires HasHeaderTail(f, r)
    ensures f[4..HEADER_SIZE] == HeaderTail(r)
  {
    hide PutLE;
    assert f[20..21] == [r.etype];
    FivePieces(f, f[4..12], f[12..20], [r.etype], f[21..23], f[23..27]);
  }

  /** A block of a byte string that starts with `head` is cut out by index. */
  lemma Block(f: seq<Byte>, off: nat, block: seq<Byte>, rest: seq<Byte>)
    requires off <= |f| && f[off..] == block + rest
    ensures off + |block| <= |f|
    ensures f[off..off + |block|] == block
    ensures f[off + |block|..] == rest
  {
  }

  lemma CutFrame(r: Record)
    requires Representable(r)
    ensures var f := Frame(r);
      && HasHeaderTail(f, r)
      && f[0..4] == PutLE(Checksum(HeaderTail(r) + r.payload), 4)
      && f[HEADER_SIZE..] == r.payload
  {
    hide PutLE, Checksum;
    var f := Frame(r);
    var s, t, e := PutLE(r.seqNo, 8), PutLE(ToUnsigned(r.tstamp), 8), [r.etype];
    var n, l := PutLE(r.tenant, 2), PutLE(|r.payload|, 4);
    var p5 := l + r.payload;
    var p4 := n + p5;
    var p3 := e + p4;
    var p2 := t + p3;
    var body := HeaderTail(r) + r.payload;
    Reassociate(s, t, e, n, l, r.payload);
    Block(f, 0, PutLE(Checksum(body), 4), body);
    Block(f, 4, s, p2);
    Block(f, 12, t, p3);
    Block(f, 20, e, p4);
    Block(f, 21, n, p5);
    Block(f, 23, l, r.payload);
    assert f[20] == f[20..21][0];
  }

  lemma Reassociate(a: seq<Byte>, b: seq<Byte>, c: seq<Byte>, d: seq<Byte>, e: seq<Byte>, p: seq<Byte>)
    ensures a + b + c + d + e + p == a + (b + (c + (d + (e + p))))
  {
  }

  /** `binary.LittleEndian.PutUint16/32/64` at `off`. */
  method Store(b: array<Byte>, off: nat, n: nat, x: nat)
    requires off + n <= b.Length
    modifies b
    ensures b[off..off + n] == PutLE(x, n)
    ensures forall k :: 0 <= k < b.Length && !(off <= k < off + n) ==> b[k] == old(b[k])
  {
    var rest := x;
    for k := 0 to n
      invariant forall j :: 0 <= j < b.Length && !(off <= j < off + k) ==> b[j] == old(b[j])
      invariant b[off..off + k] + PutLE(rest, n - k) == PutLE(x, n)
    {
      ghost var done := b[off..off + k];
      b[off + k] := rest % 256;
      assert b[off..off + k + 1] == done + [rest % 256];
      rest := rest / 256;
    }
    assert PutLE(rest, 0) == [];
  }

  /** `Record.Encode`: the checksum goes in last, over everything after it. */
  method Encode(r: Record) returns (b: array<Byte>)
    requires Representable(r)
    ensures fresh(b) && b[..] == Frame(r)
  {
    hide PutLE, Checksum;
    b := new Byte[HEADER_SIZE + |r.payload|](_ => 0);
    Store(b, 4, 8, r.seqNo);
    ghost var s := b[4..12];
    Store(b, 12, 8, ToUnsigned(r.tstamp));
    ghost var t := b[12..20];
    b[20] := r.etype;
    Store(b, 21, 2, r.tenant);
    ghost var n := b[21..23];
    Store(b, 23, 4, |r.payload|);
    ghost var l := b[23..27];
    forall k | 0 <= k < |r.payload| {
      b[HEADER_SIZE + k] := r.payload[k];
    }
    assert b[4..12] == s && b[12..20] == t && b[21..23] == n && b[23..27] == l;
    ghost var tail := b[4..];
    assert tail == HeaderTail(r) + r.payload by {
      var f := b[..];
      assert f[4..12] == s && f[12..20] == t && f[21..23] == n && f[23..27] == l;
      AssembleTail(f, r);
      assert f[27..] == r.payload;
      assert f[4..] == f[4..27] + f[27..];
    }
    Store(b, 0, 4, Checksum(b[4..]));
    assert b[..] == b[0..4] + b[4..];
    assert b[4..] == tail;
  }

  /** Decoding the header of a frame gives back every field. */
  lemma DecodeFrame(r: Record)
    requires Representable(r)
    ensures DecodeHeader(Frame(r)[..HEADER_SIZE]) ==
            Header(r.seqNo, r.tstamp, r.etype, r.tenant, |r.payload|, Checksum(HeaderTail(r) + r.payload))
  {
    hide PutLE, GetLE, Checksum, Frame;
    var f := Frame(r);
    var b := f[..HEADER_SIZE];
    CutFrame(r);
    assert b[0..4] == f[0..4] && b[4..12] == f[4..12] && b[12..20] == f[12..20];
    assert b[21..23] == f[21..23] && b[23..27] == f[23..27];
    Powers();
    GetPutLE(r.seqNo, 8);
    GetPutLE(ToUnsigned(r.tstamp), 8);
    GetPutLE(r.tenant, 2);
    GetPutLE(|r.payload|, 4);
    GetPutLE(Checksum(HeaderTail(r) + r.payload), 4);
  }

  /** The checksum that a reader takes of a header and, continuing it, of a payload. */
  function ChecksumInPieces(header: seq<Byte>, payload: seq<Byte>): Word
    requires |header| == HEADER_SIZE
  {
    Update(Checksum(header[4..]), payload)
  }

  /** The readers' checksum of a frame is the one the writer stored in it. */
  lemma FrameChecksOut(r: Record)
    requires Representable(r)
    ensures var f := Frame(r);
      ChecksumInPieces(f[..HEADER_SIZE], f[HEADER_SIZE..]) == DecodeHeader(f[..HEADER_SIZE]).expectedCRC
  {
    hide Frame, DecodeHeader, HeaderTail, Update;
    var f := Frame(r);
    DecodeFrame(r);
    CutFrame(r);
    AssembleTail(f, r);
    assert f[..HEADER_SIZE][4..] == f[4..HEADER_SIZE];
    UpdateInPieces(0, HeaderTail(r), r.payload);
  }

  // ---------------------------------------------------------------------------
  // Byte by byte

  lemma {:induction false} PutLEAt(x: nat, n: nat, k: nat)
    requires k < n
    ensures PutLE(x, n)[k] == x / Pow256(k) % 256
    decreases k
  {
    if k > 0 {
      PutLEAt(x / 256, n - 1, k - 1);
      DivDiv(x, Pow256(k - 1));
    }
  }

  lemma DivDiv(x: nat, p: nat)
    requires p > 0
    ensures x / 256 / p == x / (256 * p)
  {
    var q, r := x / 256 / p, x / 256 % p;
    assert x / 256 == q * p + r;
    assert x == 256 * (q * p + r) + x % 256;
    Quotient(x, 256 * p, q, 256 * r + x % 256);
  }

  lemma Quotient(x: nat, d: nat, q: nat, r: nat)
    requires d > 0 && r < d && x == q * d + r
    ensures x / d == q
  {
    if x / d < q {
      Larger(x / d + 1, q, d);
    } else if x / d > q {
      Larger(q + 1, x / d, d);
    }
  }

  lemma Larger(a: nat, b: nat, d: nat)
    requires a <= b
    ensures a * d <= b * d
  {
  }

  /** The layout of a frame, in bytes: the checksum of everything after it, the number, the
      time, the type, the tenant and the payload's length, each little-endian, and the
      payload. */
  lemma FrameLayout(r: Record)
    requires Representable(r)
    ensures var f := Frame(r);
      && (forall k :: 0 <= k < 4 ==> f[k] == Checksum(f[4..]) / Pow256(k) % 256)
      && (forall k :: 0 <= k < 8 ==> f[4 + k] == r.seqNo / Pow256(k) % 256)
      && (forall k :: 0 <= k < 8 ==> f[12 + k] == r.tstamp / Pow256(k) % 256)
      && f[20] == r.etype
      && (forall k :: 0 <= k < 2 ==> f[21 + k] == r.tenant / Pow256(k) % 256)
      && (forall k :: 0 <= k < 4 ==> f[23 + k] == |r.payload| / Pow256(k) % 256)
      && f[27..] == r.payload
  {
    hide PutLE, Checksum, Frame, HeaderTail, Pow256;
    var f := Frame(r);
    CutFrame(r);
    BodyOf(r);
    forall k | 0 <= k < 4
      ensures f[k] == Checksum(f[4..]) / Pow256(k) % 256
    {
      assert f[k] == f[0..4][k];
      PutLEAt(Checksum(f[4..]), 4, k);
    }
    forall k | 0 <= k < 8
      ensures f[4 + k] == r.seqNo / Pow256(k) % 256 && f[12 + k] == r.tstamp / Pow256(k) % 256
    {
      assert f[4 + k] == f[4..12][k] && f[12 + k] == f[12..20][k];
      PutLEAt(r.seqNo, 8, k);
      PutLEAt(ToUnsigned(r.tstamp), 8, k);
      UnsignedByte(r.tstamp, k);
    }
    forall k | 0 <= k < 2
      ensures f[21 + k] == r.tenant / Pow256(k) % 256
    {
      assert f[21 + k] == f[21..23][k];
      PutLEAt(r.tenant, 2, k);
    }
    forall k | 0 <= k < 4
      ensures f[23 + k] == |r.payload| / Pow256(k) % 256
    {
      assert f[23 + k] == f[23..27][k];
      PutLEAt(|r.payload|, 4, k);
    }
  }

  lemma BodyOf(r: Record)
    requires Representable(r)
    ensures Frame(r)[4..] == HeaderTail(r) + r.payload
  {
    hide PutLE, Checksum, HeaderTail;
  }

  /** Two's complement changes no byte. */
  lemma UnsignedByte(t: int, k: nat)
    requires -0x8000_0000_0000_0000 <= t < 0x8000_0000_0000_0000 && k < 8
    ensures ToUnsigned(t) / Pow256(k) % 256 == t / Pow256(k) % 256
  {
    Powers();
    if t < 0 {
      WholeBytes(k);
      var p, q := Pow256(k), Pow256(8 - k);
      hide Pow256;
      Shifted(t, p, q);
    }
  }

  /** Adding a multiple of 256 at a byte's place does not change the byte. */
  lemma Shifted(t: int, p: nat, q: nat)
    requires p > 0 && q % 256 == 0
    ensures (t + q * p) / p % 256 == t / p % 256
  {
    assert t == t / p * p + t % p;
    assert t + q * p == (t / p + q) * p + t % p by { Distributes(t / p, q, p); }
    IntQuotient(t + q * p, p, t / p + q, t % p);
  }

  lemma Distributes(a: int, b: int, c: int)
    ensures (a + b) * c == a * c + b * c
  {
  }

  lemma IntQuotient(x: int, d: nat, q: int, r: nat)
    requires d > 0 && r < d && x == q * d + r
    ensures x / d == q
  {
    var e := x / d - q;
    assert x == x / d * d + x % d;
    Distributes(q, e, d);
    assert e * d == r - x % d;
    Multiple(e, d);
  }

  lemma Multiple(e: int, d: nat)
    requires d > 0 && -1 * d < e * d < d
    ensures e == 0
  {
  }

  lemma WholeBytes(k: nat)
    requires k < 8
    ensures Pow256(8 - k) * Pow256(k) == 0x1_0000_0000_0000_0000
    ensures Pow256(8 - k) % 256 == 0
  {
    Powers();
    assert Pow256(3) == 256 * Pow256(2) && Pow256(5) == 256 * Pow256(4) && Pow256(6) == 256 * Pow256(5)
      && Pow256(7) == 256 * Pow256(6);
  }

  // ---------------------------------------------------------------------------
  // What decodes is a frame

  lemma {:induction false} PutGetLE(b: seq<Byte>)
    ensures GetLE(b) < Pow256(|b|) && PutLE(GetLE(b), |b|) == b
  {
    if b != [] {
      PutGetLE(b[1..]);
      var g := GetLE(b[1..]);
      assert GetLE(b) % 256 == b[0] && GetLE(b) / 256 == g;
    }
  }

  /** The record that a header and a payload decode to. */
  function DecodedRecord(b: seq<Byte>): Record
    requires |b| >= HEADER_SIZE
  {
    var h := DecodeHeader(b[..HEADER_SIZE]);
    Record(h.seqNo, h.tstamp, h.etype, h.tenant, b[HEADER_SIZE..])
  }

  /** Bytes whose length field and checksum fit are the frame of the record they decode to:
      the converse of `DecodeFrame`. */
  lemma WhatDecodesIsFrame(b: seq<Byte>)
    requires HEADER_SIZE <= |b| < 0x1_0000_0000
    requires DecodeHeader(b[..HEADER_SIZE]).payloadLen == |b| - HEADER_SIZE
    requires ChecksumInPieces(b[..HEADER_SIZE], b[HEADER_SIZE..]) == DecodeHeader(b[..HEADER_SIZE]).expectedCRC
    ensures Representable(DecodedRecord(b)) && Frame(DecodedRecord(b)) == b
  {
    hide PutLE, GetLE, Update, Pow256, HeaderTail;
    var h := b[..HEADER_SIZE];
    var r := DecodedRecord(b);
    assert h[4..12] == b[4..12] && h[12..20] == b[12..20] && h[21..23] == b[21..23];
    assert h[23..27] == b[23..27] && h[0..4] == b[0..4] && h[20] == b[20];
    Powers();
    PutGetLE(b[4..12]);
    PutGetLE(b[12..20]);
    PutGetLE(b[21..23]);
    PutGetLE(b[23..27]);
    PutGetLE(b[0..4]);
    assert Representable(r);
    AssembleTail(b, r);
    assert h[4..] == b[4..HEADER_SIZE];
    UpdateInPieces(0, HeaderTail(r), r.payload);
    assert b == b[0..4] + (b[4..HEADER_SIZE] + b[HEADER_SIZE..]);
  }
}
