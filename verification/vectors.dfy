/** Vectors over the reals and the running-minimum search of `ivf/coarse.go`. */
module Vectors {
  type Vec = seq<real>

  function Square(x: real): real {
    x * x
  }

  lemma SquareNonNegative(x: real)
    ensures Square(x) >= 0.0
  {
  }

  /** Squared Euclidean distance. */
  function SqL2(a: Vec, b: Vec): real
    requires |a| == |b|
  {
    if a == [] then 0.0
    else
      var n := |a| - 1;
      SqL2(a[..n], b[..n]) + Square(a[n] - b[n])
  }

  /** `sqL2` */
  method SquaredDistance(a: Vec, b: Vec) returns (s: real)
    requires |a| == |b|
    ensures s == SqL2(a, b)
  {
    s := 0.0;
    assert a[..0] == [] && b[..0] == [];
    for i := 0 to |a|
      invariant s == SqL2(a[..i], b[..i])
    {
      var d := a[i] - b[i];
      assert a[..i + 1][..i] == a[..i] && b[..i + 1][..i] == b[..i];
      assert Square(d) == d * d;
      s := s + d * d;
    }
    assert a[..|a|] == a && b[..|a|] == b;
  }

  function Sub(a: Vec, b: Vec): (r: Vec)
    requires |a| == |b|
    ensures |r| == |a|
  {
    seq(|a|, i requires 0 <= i < |a| => a[i] - b[i])
  }

  lemma {:induction false} SqL2Symmetric(a: Vec, b: Vec)
    requires |a| == |b|
    ensures SqL2(a, b) == SqL2(b, a)
  {
    if a != [] {
      var n := |a| - 1;
      SqL2Symmetric(a[..n], b[..n]);
      assert Square(a[n] - b[n]) == Square(b[n] - a[n]);
    }
  }

  lemma {:induction false} SqL2NonNegative(a: Vec, b: Vec)
    requires |a| == |b|
    ensures SqL2(a, b) >= 0.0
  {
    hide Square;
    if a != [] {
      var n := |a| - 1;
      SqL2NonNegative(a[..n], b[..n]);
      SquareNonNegative(a[n] - b[n]);
    }
  }

  /** Distances add up over subvectors. */
  lemma {:induction false} SqL2Concat(a: Vec, b: Vec, c: Vec, d: Vec)
    requires |a| == |b| && |c| == |d|
    ensures SqL2(a + c, b + d) == SqL2(a, b) + SqL2(c, d)
    decreases |c|
  {
    hide Square;
    if c == [] {
      assert a + c == a && b + d == b;
    } else {
      var n := |c| - 1;
      SqL2Concat(a, b, c[..n], d[..n]);
      var x, y := a + c, b + d;
      assert x[..|x| - 1] == a + c[..n] && y[..|y| - 1] == b + d[..n];
      assert x[|x| - 1] == c[n] && y[|y| - 1] == d[n];
    }
  }

  ghost predicate Dims(vs: seq<Vec>, dim: nat) {
    forall i :: 0 <= i < |vs| ==> |vs[i]| == dim
  }

  /** The index of the closest of the vectors; among equally close ones the lowest. */
  ghost function ArgMin(vs: seq<Vec>, v: Vec): (best: nat)
    requires Dims(vs, |v|)
    ensures vs != [] ==> best < |vs|
    ensures vs == [] ==> best == 0
  {
    if |vs| <= 1 then 0
    else
      var n := |vs| - 1;
      var best := ArgMin(vs[..n], v);
      if SqL2(vs[n], v) < SqL2(vs[best], v) then n else best
  }

  lemma {:induction false} ArgMinIsLeast(vs: seq<Vec>, v: Vec)
    requires Dims(vs, |v|) && vs != []
    ensures forall c :: 0 <= c < |vs| ==> SqL2(vs[ArgMin(vs, v)], v) <= SqL2(vs[c], v)
    ensures forall c :: 0 <= c < ArgMin(vs, v) ==> SqL2(vs[ArgMin(vs, v)], v) < SqL2(vs[c], v)
  {
    hide SqL2;
    if |vs| > 1 {
      var n := |vs| - 1;
      assert Dims(vs[..n], |v|);
      ArgMinIsLeast(vs[..n], v);
      assert forall c :: 0 <= c < n ==> vs[..n][c] == vs[c];
    }
  }

  /** `nearest`. The initial bound exceeds every distance, so the first vector is always
      taken. */
  method Nearest(centroids: seq<Vec>, v: Vec) returns (best: nat)
    requires Dims(centroids, |v|)
    ensures best == ArgMin(centroids, v)
  {
    hide SqL2;
    best := 0;
    var bestD := 0.0;
    for c := 0 to |centroids|
      invariant best == ArgMin(centroids[..c], v)
      invariant c > 0 ==> best < c && bestD == SqL2(centroids[best], v)
    {
      var d := SquaredDistance(centroids[c], v);
      assert centroids[..c + 1][..c] == centroids[..c];
      if c == 0 || d < bestD {
        bestD, best := d, c;
      }
    }
    assert centroids[..|centroids|] == centroids;
  }

  // ---------------------------------------------------------------------------
  // What distances and differences are

  /** In one dimension the distance is the square of the difference; with `SqL2Concat` this
      says what it is in any. */
  lemma SqL2One(x: real, y: real)
    ensures SqL2([x], [y]) == (x - y) * (x - y)
  {
    assert [x][..0] == [] && [y][..0] == [];
    assert SqL2([x][..0], [y][..0]) == 0.0;
  }

  lemma SquareTimesInverse(x: real, inv: real)
    requires x * inv == 1.0
    ensures Square(x) * inv == x
  {
    assert Square(x) * inv == x * (x * inv);
  }

  lemma PositiveSquare(x: real)
    requires x != 0.0
    ensures Square(x) > 0.0
  {
    SquareNonNegative(x);
    SquareTimesInverse(x, 1.0 / x);
  }

  /** Vectors at distance 0 are equal, and only they. */
  lemma {:induction false} SqL2Zero(a: Vec, b: Vec)
    requires |a| == |b|
    ensures SqL2(a, b) == 0.0 <==> a == b
  {
    hide Square;
    if a != [] {
      var n := |a| - 1;
      SqL2Zero(a[..n], b[..n]);
      SqL2NonNegative(a[..n], b[..n]);
      assert a == a[..n] + [a[n]] && b == b[..n] + [b[n]];
      if a[n] == b[n] {
        assert Square(a[n] - b[n]) == 0.0 by { ZeroSquare(a[n] - b[n]); }
      } else {
        PositiveSquare(a[n] - b[n]);
      }
    } else {
      assert a == b;
    }
  }

  lemma ZeroSquare(x: real)
    requires x == 0.0
    ensures Square(x) == 0.0
  {
  }

  /** Coordinate-wise sum. */
  ghost function Plus(a: Vec, b: Vec): (r: Vec)
    requires |a| == |b|
    ensures |r| == |a| && forall i :: 0 <= i < |a| ==> r[i] == a[i] + b[i]
  {
    seq(|a|, i requires 0 <= i < |a| => a[i] + b[i])
  }

  /** From the difference of `a` and `b` to `c` is as far as from `a` to the sum of `b` and
      `c`. */
  lemma {:induction false} SubShifts(a: Vec, b: Vec, c: Vec)
    requires |a| == |b| == |c|
    ensures SqL2(Sub(a, b), c) == SqL2(a, Plus(b, c))
  {
    hide Square;
    if a != [] {
      var n := |a| - 1;
      SubShifts(a[..n], b[..n], c[..n]);
      assert Sub(a, b)[..n] == Sub(a[..n], b[..n]);
      assert Plus(b, c)[..n] == Plus(b[..n], c[..n]);
      assert a[n] - b[n] - c[n] == a[n] - (b[n] + c[n]);
    }
  }
}
