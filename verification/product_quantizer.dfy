/** Product quantization (`pq/pq.go`): a vector is cut into m pieces and each piece is
    replaced by the index of its nearest centroid. */
module ProductQuantizer {
  import opened Vectors
  import opened TopK

  /** `PQ`; a code holds one centroid index, a byte, per piece. */
  datatype PQ = PQ(m: nat, k: nat, dsub: nat, codebooks: seq<seq<Vec>>)

  type Code = seq<nat>

  ghost predicate Book(book: seq<Vec>, k: nat, dsub: nat) {
    |book| == k && Dims(book, dsub)
  }

  /** Every codebook has its k centroids. */
  ghost predicate Trained(q: PQ) {
    && 1 <= q.k <= 256
    && |q.codebooks| == q.m
    && forall i :: 0 <= i < q.m ==> Book(q.codebooks[i], q.k, q.dsub)
  }

  ghost predicate ValidCode(q: PQ, code: Code) {
    |code| == q.m && forall i :: 0 <= i < q.m ==> code[i] < q.k
  }

  // ---------------------------------------------------------------------------
  // Offsets

  lemma NextOffset(i: nat, size: nat)
    ensures (i + 1) * size == i * size + size
  {
  }

  lemma {:induction false} OffsetFits(i: nat, m: nat, size: nat)
    requires i < m
    ensures 0 <= i * size && i * size + size <= m * size
    decreases m
  {
    if i < m - 1 {
      OffsetFits(i, m - 1, size);
    }
    NextOffset(m - 1, size);
    assert (m - 1 + 1) * size == m * size;
  }

  /** Piece `i` of a vector of `m` pieces. */
  function Piece(v: Vec, i: nat, m: nat, dsub: nat): (r: Vec)
    requires i < m && |v| == m * dsub
    ensures |r| == dsub
  {
    OffsetFits(i, m, dsub);
    v[i * dsub..i * dsub + dsub]
  }

  /** `Reconstruct`, the first `n` pieces */
  ghost function Reconstructed(q: PQ, code: Code, n: nat): (r: Vec)
    requires Trained(q) && ValidCode(q, code) && n <= q.m
    ensures |r| == n * q.dsub
  {
    if n == 0 then []
    else
      NextOffset(n - 1, q.dsub);
      assert Book(q.codebooks[n - 1], q.k, q.dsub);
      Reconstructed(q, code, n - 1) + q.codebooks[n - 1][code[n - 1]]
  }

  /** The vector a code stands for. */
  ghost function Reconstruct(q: PQ, code: Code): (r: Vec)
    requires Trained(q) && ValidCode(q, code)
    ensures |r| == q.m * q.dsub
  {
    Reconstructed(q, code, q.m)
  }

  lemma PieceCut(v: Vec, i: nat, m: nat, dsub: nat)
    requires i < m && |v| == m * dsub
    ensures i * dsub + dsub == (i + 1) * dsub <= |v|
    ensures v[..(i + 1) * dsub] == v[..i * dsub] + Piece(v, i, m, dsub)
  {
    OffsetFits(i, m, dsub);
    NextOffset(i, dsub);
  }

  /** The distance to a reconstruction is the sum of the pieces' distances. */
  lemma DistanceByPiece(q: PQ, v: Vec, code: Code, n: nat)
    requires Trained(q) && ValidCode(q, code) && |v| == q.m * q.dsub && n < q.m
    ensures n * q.dsub + q.dsub == (n + 1) * q.dsub <= |v|
    ensures Book(q.codebooks[n], q.k, q.dsub)
    ensures SqL2(v[..(n + 1) * q.dsub], Reconstructed(q, code, n + 1))
         == SqL2(v[..n * q.dsub], Reconstructed(q, code, n)) + SqL2(Piece(v, n, q.m, q.dsub), q.codebooks[n][code[n]])
  {
    hide SqL2, Piece;
    PieceCut(v, n, q.m, q.dsub);
    SqL2Concat(v[..n * q.dsub], Reconstructed(q, code, n), Piece(v, n, q.m, q.dsub), q.codebooks[n][code[n]]);
  }

  // ---------------------------------------------------------------------------
  // Encoding

  /** The nearest centroid of each piece. */
  ghost function Encoding(q: PQ, v: Vec): (code: Code)
    requires Trained(q) && |v| == q.m * q.dsub
    ensures |code| == q.m
  {
    seq(q.m, i requires 0 <= i < q.m => BestFor(q, v, i))
  }

  ghost function BestFor(q: PQ, v: Vec, i: nat): (best: nat)
    requires Trained(q) && |v| == q.m * q.dsub && i < q.m
    ensures best < q.k
  {
    assert Book(q.codebooks[i], q.k, q.dsub);
    ArgMin(q.codebooks[i], Piece(v, i, q.m, q.dsub))
  }

  lemma EncodingValid(q: PQ, v: Vec)
    requires Trained(q) && |v| == q.m * q.dsub
    ensures ValidCode(q, Encoding(q, v))
  {
    hide BestFor, Trained;
  }

  lemma BestForIsLeast(q: PQ, v: Vec, i: nat, c: nat)
    requires Trained(q) && |v| == q.m * q.dsub && i < q.m && c < q.k
    ensures Book(q.codebooks[i], q.k, q.dsub)
    ensures SqL2(Piece(v, i, q.m, q.dsub), q.codebooks[i][BestFor(q, v, i)]) <= SqL2(Piece(v, i, q.m, q.dsub), q.codebooks[i][c])
  {
    hide SqL2, Piece, ArgMin;
    assert Book(q.codebooks[i], q.k, q.dsub);
    var p, book := Piece(v, i, q.m, q.dsub), q.codebooks[i];
    ArgMinIsLeast(book, p);
    SqL2Symmetric(p, book[BestFor(q, v, i)]);
    SqL2Symmetric(p, book[c]);
  }

  /** Choosing each piece on its own is best over all k^m codes. */
  lemma EncodingIsBest(q: PQ, v: Vec, code: Code)
    requires Trained(q) && ValidCode(q, code) && |v| == q.m * q.dsub
    ensures ValidCode(q, Encoding(q, v))
    ensures SqL2(v, Reconstruct(q, Encoding(q, v))) <= SqL2(v, Reconstruct(q, code))
  {
    hide SqL2, Trained, ValidCode, Encoding;
    EncodingValid(q, v);
    BestPrefix(q, v, code, q.m);
    assert v[..q.m * q.dsub] == v;
  }

  lemma {:induction false} BestPrefix(q: PQ, v: Vec, code: Code, n: nat)
    requires Trained(q) && ValidCode(q, code) && |v| == q.m * q.dsub && n <= q.m
    requires ValidCode(q, Encoding(q, v))
    ensures n * q.dsub <= |v|
    ensures SqL2(v[..n * q.dsub], Reconstructed(q, Encoding(q, v), n)) <= SqL2(v[..n * q.dsub], Reconstructed(q, code, n))
  {
    hide SqL2, Trained, BestFor, Piece;
    if n > 0 {
      BestPrefix(q, v, code, n - 1);
      DistanceByPiece(q, v, code, n - 1);
      DistanceByPiece(q, v, Encoding(q, v), n - 1);
      BestForIsLeast(q, v, n - 1, code[n - 1]);
    } else {
      NoPieces(q, v, code);
      NoPieces(q, v, Encoding(q, v));
    }
  }

  lemma NoPieces(q: PQ, v: Vec, code: Code)
    requires Trained(q) && ValidCode(q, code)
    ensures 0 * q.dsub == 0 && Reconstructed(q, code, 0) == [] && SqL2(v[..0], []) == 0.0
  {
  }

  /** `Encode` */
  method Encode(q: PQ, v: Vec) returns (code: Code)
    requires Trained(q) && |v| == q.m * q.dsub
    ensures code == Encoding(q, v)
  {
    hide SqL2, ArgMin, Piece;
    code := [];
    for i := 0 to q.m
      invariant |code| == i && forall j :: 0 <= j < i ==> code[j] == BestFor(q, v, j)
    {
      assert Book(q.codebooks[i], q.k, q.dsub);
      OffsetFits(i, q.m, q.dsub);
      var start := i * q.dsub;
      var piece := Piece(v, i, q.m, q.dsub);
      var best := Nearest(q.codebooks[i], piece);
      assert best == BestFor(q, v, i);
      code := code + [best % 256];
    }
  }

  // ---------------------------------------------------------------------------
  // Distance tables

  ghost function Row(q: PQ, v: Vec, i: nat): (r: seq<real>)
    requires Trained(q) && |v| == q.m * q.dsub && i < q.m
    ensures |r| == q.k
  {
    seq(q.k, c requires 0 <= c < q.k => Entry(q, v, i, c))
  }

  /** The distance from piece `i` to centroid `c` of its codebook. */
  ghost function Entry(q: PQ, v: Vec, i: nat, c: nat): real
    requires Trained(q) && |v| == q.m * q.dsub && i < q.m && c < q.k
  {
    assert Book(q.codebooks[i], q.k, q.dsub);
    SqL2(Piece(v, i, q.m, q.dsub), q.codebooks[i][c])
  }

  /** The first `n` rows, end to end. */
  ghost function Rows(q: PQ, v: Vec, n: nat): (t: seq<real>)
    requires Trained(q) && |v| == q.m * q.dsub && n <= q.m
    ensures |t| == n * q.k
  {
    if n == 0 then []
    else
      NextOffset(n - 1, q.k);
      Rows(q, v, n - 1) + Row(q, v, n - 1)
  }

  lemma {:induction false} RowsAt(q: PQ, v: Vec, n: nat, i: nat, c: nat)
    requires Trained(q) && |v| == q.m * q.dsub && i < n <= q.m && c < q.k
    ensures i * q.k + c < |Rows(q, v, n)| && Rows(q, v, n)[i * q.k + c] == Entry(q, v, i, c)
    decreases n
  {
    hide Trained, Entry;
    OffsetFits(i, n, q.k);
    NextOffset(n - 1, q.k);
    if i < n - 1 {
      RowsAt(q, v, n - 1, i, c);
    }
  }

  /** `distanceTable` and `buildADCTable` */
  method DistanceTable(q: PQ, v: Vec) returns (table: array<real>)
    requires Trained(q) && |v| == q.m * q.dsub
    ensures fresh(table) && table[..] == Rows(q, v, q.m)
  {
    hide SqL2, Piece, Trained, Entry;
    table := new real[q.m * q.k];
    NoRows(q, v, table);
    for i := 0 to q.m
      invariant fresh(table) && table.Length == q.m * q.k && 0 <= i * q.k <= table.Length
      invariant table[..i * q.k] == Rows(q, v, i)
    {
      OffsetFits(i, q.m, q.k);
      NextOffset(i, q.k);
      FillRow(q, v, i, table);
    }
    assert table[..q.m * q.k] == table[..];
  }

  lemma NoRows(q: PQ, v: Vec, table: array<real>)
    requires Trained(q) && |v| == q.m * q.dsub
    ensures 0 * q.k == 0 && table[..0] == Rows(q, v, 0)
  {
  }

  method FillRow(q: PQ, v: Vec, i: nat, table: array<real>)
    requires Trained(q) && |v| == q.m * q.dsub && i < q.m
    requires table.Length == q.m * q.k && i * q.k + q.k == (i + 1) * q.k <= table.Length
    requires table[..i * q.k] == Rows(q, v, i)
    modifies table
    ensures table[..(i + 1) * q.k] == Rows(q, v, i + 1)
  {
    hide SqL2, Piece, Entry;
    var base := i * q.k;
    var piece, book := Piece(v, i, q.m, q.dsub), q.codebooks[i];
    assert Book(book, q.k, q.dsub);
    ghost var done := Rows(q, v, i);
    for c := 0 to q.k
      invariant table[..base] == done
      invariant forall j :: 0 <= j < c ==> table[base + j] == Entry(q, v, i, j)
    {
      var d := SquaredDistance(piece, book[c]);
      EntryMeans(q, v, i, c);
      table[base + c] := d;
    }
    assert table[..base + q.k] == done + Row(q, v, i);
  }

  lemma EntryMeans(q: PQ, v: Vec, i: nat, c: nat)
    requires Trained(q) && |v| == q.m * q.dsub && i < q.m && c < q.k
    ensures Book(q.codebooks[i], q.k, q.dsub)
    ensures Entry(q, v, i, c) == SqL2(Piece(v, i, q.m, q.dsub), q.codebooks[i][c])
  {
  }

  /** The lookups of a code's first `n` pieces, added up. */
  ghost function LookupSum(q: PQ, v: Vec, code: Code, n: nat): real
    requires Trained(q) && ValidCode(q, code) && |v| == q.m * q.dsub && n <= q.m
  {
    if n == 0 then 0.0 else LookupSum(q, v, code, n - 1) + Entry(q, v, n - 1, code[n - 1])
  }

  lemma {:induction false} LookupsAddUp(q: PQ, v: Vec, code: Code, n: nat)
    requires Trained(q) && ValidCode(q, code) && |v| == q.m * q.dsub && n <= q.m
    ensures n * q.dsub <= |v| && LookupSum(q, v, code, n) == SqL2(v[..n * q.dsub], Reconstructed(q, code, n))
  {
    hide SqL2, Trained, Entry, Piece;
    if n > 0 {
      LookupsAddUp(q, v, code, n - 1);
      DistanceByPiece(q, v, code, n - 1);
      EntryMeans(q, v, n - 1, code[n - 1]);
    } else {
      NoPieces(q, v, code);
    }
  }

  /** What a code is worth to a query: the distance to what the code stands for. */
  ghost function CodeDistance(q: PQ, v: Vec, code: Code): real
    requires Trained(q) && ValidCode(q, code) && |v| == q.m * q.dsub
  {
    SqL2(v, Reconstruct(q, code))
  }

  /** M lookups and additions give the exact distance to the reconstruction. */
  method Adc(q: PQ, ghost v: Vec, table: array<real>, code: Code) returns (d: real)
    requires Trained(q) && ValidCode(q, code) && |v| == q.m * q.dsub && table[..] == Rows(q, v, q.m)
    ensures d == CodeDistance(q, v, code)
  {
    hide SqL2, Trained, Entry, Rows;
    d := 0.0;
    for i := 0 to q.m
      invariant d == LookupSum(q, v, code, i)
    {
      OffsetFits(i, q.m, q.k);
      RowsAt(q, v, q.m, i, code[i]);
      assert table[i * q.k + code[i]] == table[..][i * q.k + code[i]];
      d := d + table[i * q.k + code[i]];
    }
    LookupsAddUp(q, v, code, q.m);
    assert v[..q.m * q.dsub] == v;
  }

  // ---------------------------------------------------------------------------
  // Searching a list of codes

  ghost predicate ValidCodes(q: PQ, codes: seq<Code>) {
    forall i :: 0 <= i < |codes| ==> ValidCode(q, codes[i])
  }

  /** Every code with the distance to what it stands for. */
  ghost function Scores(q: PQ, v: Vec, codes: seq<Code>): (s: seq<Scored<nat>>)
    requires Trained(q) && ValidCodes(q, codes) && |v| == q.m * q.dsub
    ensures |s| == |codes|
  {
    seq(|codes|, i requires 0 <= i < |codes| => Scored(i, CodeDistance(q, v, codes[i])))
  }

  /** `Search`: positions ascending by distance, in no fixed order among equal ones. */
  method Search(q: PQ, v: Vec, codes: seq<Code>, topK: nat) returns (out: seq<Scored<nat>>)
    requires Trained(q) && ValidCodes(q, codes) && |v| == q.m * q.dsub
    requires topK >= 1 || codes == []
    ensures |out| == if |codes| < topK then |codes| else topK
    ensures Ascending(out, (id: nat) => 0) && DistinctItems(out)
    ensures forall j :: 0 <= j < |out| ==> out[j].item < |codes| && out[j].dist == CodeDistance(q, v, codes[out[j].item])
    ensures forall j :: 0 <= j < |out| ==> HasRank(Scores(q, v, codes), j, out[j].dist)
  {
    hide CodeDistance, Trained, ValidCode, Selection, HasRank, Ascending, DistinctItems, Rows;
    var table := DistanceTable(q, v);
    ghost var stream := Scores(q, v, codes);
    var heap := new MaxHeap();
    ghost var dropped := [];
    NothingSelected(topK);
    for i := 0 to |codes|
      invariant fresh(heap) && fresh(table) && heap.Valid() && table[..] == Rows(q, v, q.m)
      invariant Selection(heap.h, dropped, stream[..i], topK)
    {
      var d := Adc(q, v, table, codes[i]);
      assert stream[..i + 1] == stream[..i] + [Scored(i, d)];
      dropped := heap.Offer(Scored(i, d), topK, dropped, stream[..i]);
    }
    assert stream[..|codes|] == stream;
    out := Sort(heap.h, (id: nat) => 0);
    Drained(q, v, codes, heap.h, dropped, topK, out);
  }

  lemma Drained(q: PQ, v: Vec, codes: seq<Code>, kept: seq<Scored<nat>>, dropped: seq<Scored<nat>>, topK: nat, out: seq<Scored<nat>>)
    requires Trained(q) && ValidCodes(q, codes) && |v| == q.m * q.dsub
    requires Selection(kept, dropped, Scores(q, v, codes), topK)
    requires Ascending(out, (id: nat) => 0) && multiset(out) == multiset(kept)
    ensures |out| == if |codes| < topK then |codes| else topK
    ensures DistinctItems(out)
    ensures forall j :: 0 <= j < |out| ==> out[j].item < |codes| && out[j].dist == CodeDistance(q, v, codes[out[j].item])
    ensures forall j :: 0 <= j < |out| ==> HasRank(Scores(q, v, codes), j, out[j].dist)
  {
    hide CodeDistance, Trained, ValidCode, Selection, HasRank, Ascending;
    var stream := Scores(q, v, codes);
    assert DistinctItems(stream);
    BoundedSelection(kept, dropped, stream, topK, out, (id: nat) => 0);
    forall j | 0 <= j < |out|
      ensures out[j].item < |codes| && out[j].dist == CodeDistance(q, v, codes[out[j].item])
    {
      assert out[j] in stream;
    }
  }
}
