/** Learning the codebooks (`pq/pq.go`). */
module Codebooks {
  import opened Vectors
  import opened ProductQuantizer
  import KMeans

  datatype Result<T> = Ok(value: T) | EmptyTrainingSet | DimensionMismatch

  /** What encoding comes to: a code, or a read past the end of a codebook. */
  datatype Encoded = Encoded(code: Code) | OutOfRange

  /** The training set checks the first vector only; longer ones are cut. */
  ghost predicate Covers(vecs: seq<Vec>, d: nat) {
    forall v :: 0 <= v < |vecs| ==> |vecs[v]| >= d
  }

  /** Piece `i` of every training vector. */
  function Pieces(vecs: seq<Vec>, i: nat, m: nat, dsub: nat): (r: seq<Vec>)
    requires Covers(vecs, m * dsub) && i < m
    ensures |r| == |vecs| && Dims(r, dsub)
  {
    seq(|vecs|, v requires 0 <= v < |vecs| => Piece(vecs[v][..m * dsub], i, m, dsub))
  }

  /** Coordinates `i * dsub` to `i * dsub + dsub` of every training vector. */
  ghost predicate AreSlices(vecs: seq<Vec>, i: nat, dsub: nat, slices: seq<Vec>) {
    && |slices| == |vecs|
    && forall v :: 0 <= v < |vecs| ==>
         |vecs[v]| >= i * dsub + dsub && slices[v] == vecs[v][i * dsub..i * dsub + dsub]
  }

  /** Codebook `i` is learned from slice `i` of the training vectors. */
  ghost predicate LearnedFromSlices(vecs: seq<Vec>, i: nat, k: nat, maxIter: nat, dsub: nat, book: seq<Vec>) {
    exists slices :: AreSlices(vecs, i, dsub, slices) && KMeans.Learned(slices, k, maxIter, dsub, book)
  }

  lemma PiecesAreSlices(vecs: seq<Vec>, i: nat, m: nat, dsub: nat)
    requires Covers(vecs, m * dsub) && i < m
    ensures AreSlices(vecs, i, dsub, Pieces(vecs, i, m, dsub))
  {
    OffsetFits(i, m, dsub);
  }

  /** The shape of a quantizer that `Train` leaves, whatever the number of vectors. */
  ghost predicate Shaped(q: PQ) {
    && |q.codebooks| == q.m && 1 <= q.k <= 256
    && forall i :: 0 <= i < q.m ==> Dims(q.codebooks[i], q.dsub)
  }

  /** `Train`: every codebook gets min(k, n) centroids, so the quantizer is usable exactly
      when there were at least `k` training vectors. */
  method Train(m: nat, k: nat, dsub: nat, vecs: seq<Vec>, maxIter: nat) returns (r: Result<PQ>)
    requires 1 <= k <= 256 && m >= 1
    requires vecs != [] && |vecs[0]| == m * dsub ==> Covers(vecs, m * dsub)
    ensures r == EmptyTrainingSet <==> vecs == []
    ensures r == DimensionMismatch <==> vecs != [] && |vecs[0]| != m * dsub
    ensures r.Ok? ==> r.value.m == m && r.value.k == k && r.value.dsub == dsub && Shaped(r.value)
    ensures r.Ok? ==> forall i :: 0 <= i < m ==> |r.value.codebooks[i]| == if k > |vecs| then |vecs| else k
    ensures r.Ok? ==> (Trained(r.value) <==> |vecs| >= k)
    ensures r.Ok? ==> forall i :: 0 <= i < m ==> LearnedFromSlices(vecs, i, k, maxIter, dsub, r.value.codebooks[i])
  {
    hide Pieces, AreSlices, KMeans.Learned;
    if |vecs| == 0 {
      return EmptyTrainingSet;
    }
    if |vecs[0]| != m * dsub {
      return DimensionMismatch;
    }
    var books: seq<seq<Vec>> := [];
    var size := if k > |vecs| then |vecs| else k;
    for i := 0 to m
      invariant |books| == i && forall j :: 0 <= j < i ==> |books[j]| == size && Dims(books[j], dsub)
      invariant forall j :: 0 <= j < i ==> LearnedFromSlices(vecs, j, k, maxIter, dsub, books[j])
    {
      PiecesAreSlices(vecs, i, m, dsub);
      var book, _ := KMeans.Cluster(Pieces(vecs, i, m, dsub), k, maxIter, dsub);
      books := books + [book];
    }
    var q := PQ(m, k, dsub, books);
    if |vecs| >= k {
      assert forall j :: 0 <= j < m ==> Book(books[j], k, dsub);
    } else {
      assert !Book(books[0], k, dsub);
    }
    r := Ok(q);
  }

  /** `Encode` on a quantizer of whatever training: its inner loop reads `k` centroids of
      each codebook, so it runs off the end exactly when some codebook is shorter. */
  method TryEncode(q: PQ, v: Vec) returns (r: Encoded)
    requires Shaped(q) && |v| == q.m * q.dsub
    ensures r == OutOfRange <==> exists i :: 0 <= i < q.m && |q.codebooks[i]| < q.k
    ensures Trained(q) ==> r == Encoded(Encoding(q, v))
  {
    hide SqL2, ArgMin, Piece;
    var code: Code := [];
    for i := 0 to q.m
      invariant |code| == i
      invariant forall j :: 0 <= j < i ==> |q.codebooks[j]| >= q.k
      invariant Trained(q) ==> forall j :: 0 <= j < i ==> code[j] == BestFor(q, v, j)
    {
      OffsetFits(i, q.m, q.dsub);
      var piece, book := Piece(v, i, q.m, q.dsub), q.codebooks[i];
      var best, bestD := 0, 0.0;
      for c := 0 to q.k
        invariant c <= |book| && best == ArgMin(book[..c], piece)
        invariant c > 0 ==> best < c && bestD == SqL2(book[best], piece)
      {
        if c >= |book| {
          return OutOfRange;
        }
        var d := SquaredDistance(piece, book[c]);
        SqL2Symmetric(piece, book[c]);
        ArgMinStep(book, piece, c);
        if c == 0 || d < bestD {
          bestD, best := d, c;
        }
      }
      assert |book| == q.k ==> book[..q.k] == book;
      assert Trained(q) ==> Book(book, q.k, q.dsub);
      code := code + [best % 256];
    }
    r := Encoded(code);
  }

  lemma ArgMinStep(book: seq<Vec>, v: Vec, c: nat)
    requires Dims(book, |v|) && c < |book|
    ensures Dims(book[..c], |v|) && Dims(book[..c + 1], |v|)
    ensures c > 0 ==> ArgMin(book[..c], v) < c
    ensures ArgMin(book[..c + 1], v)
         == if c == 0 || SqL2(book[c], v) < SqL2(book[ArgMin(book[..c], v)], v) then c else ArgMin(book[..c], v)
  {
    hide SqL2;
    assert book[..c + 1][..c] == book[..c];
  }

  /** One training vector for two centroids: training reports success and encoding that very
      vector reads past the end. */
  method TwoCentroidsFromOneVector() returns (trained: bool, r: Encoded)
    ensures trained && r == OutOfRange
  {
    var v: Vec := [0.0];
    var q := Train(1, 2, 1, [v], 1);
    trained := q.Ok?;
    assert |q.value.codebooks[0]| == 1;
    r := TryEncode(q.value, v);
  }
}
