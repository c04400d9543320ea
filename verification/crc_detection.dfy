/** Why the checksum of `sentry/record.go` notices a damaged byte: a table lookup per byte is
    eight steps of the shift register, and no step of the register loses information. */
module CrcDetection {
  import opened Crc32

  function Two(n: nat): (p: nat)
    ensures p > 0
  {
    if n == 0 then 1 else 2 * Two(n - 1)
  }

  lemma Two32()
    ensures Two(32) == ALL_ONES + 1 && Two(31) == 0x8000_0000
  {
    assert Two(8) == 256;
    assert Two(16) == 256 * Two(8);
    assert Two(24) == 256 * Two(16);
    assert Two(31) == 128 * Two(24);
  }

  // ---------------------------------------------------------------------------
  // Exclusive or

  lemma {:induction false} XorCommutes(a: nat, b: nat, limit: nat)
    requires limit > 0
    ensures Xor(a, b, limit) == Xor(b, a, limit)
    decreases limit
  {
    if limit > 1 {
      XorCommutes(a / 2, b / 2, limit / 2);
    }
  }

  lemma {:induction false} XorAssociates(a: nat, b: nat, c: nat, limit: nat)
    requires limit > 0
    ensures Xor(Xor(a, b, limit), c, limit) == Xor(a, Xor(b, c, limit), limit)
    decreases limit
  {
    if limit > 1 {
      hide Xor;
      XorAssociates(a / 2, b / 2, c / 2, limit / 2);
      XorParts(a, b, limit);
      XorParts(b, c, limit);
      XorParts(Xor(a, b, limit), c, limit);
      XorParts(a, Xor(b, c, limit), limit);
      Parity(a, b, c, Xor(a, b, limit), Xor(b, c, limit));
      SameHalves(Xor(Xor(a, b, limit), c, limit), Xor(a, Xor(b, c, limit), limit));
    }
  }

  lemma Parity(a: nat, b: nat, c: nat, ab: nat, bc: nat)
    requires ab % 2 == (a + b) % 2 && bc % 2 == (b + c) % 2
    ensures (ab + c) % 2 == (a + bc) % 2
  {
  }

  lemma SameHalves(x: nat, y: nat)
    requires x % 2 == y % 2 && x / 2 == y / 2
    ensures x == y
  {
  }

  lemma XorParts(a: nat, b: nat, limit: nat)
    requires limit > 1
    ensures Xor(a, b, limit) % 2 == (a + b) % 2 && Xor(a, b, limit) / 2 == Xor(a / 2, b / 2, limit / 2)
  {
  }

  lemma {:induction false} XorSelf(a: nat, limit: nat)
    requires limit > 0
    ensures Xor(a, a, limit) == 0
    decreases limit
  {
    if limit > 1 {
      XorSelf(a / 2, limit / 2);
    }
  }

  lemma {:induction false} XorZero(a: nat, n: nat)
    requires a < Two(n)
    ensures Xor(a, 0, Two(n)) == a
    decreases n
  {
    if n > 0 {
      XorZero(a / 2, n - 1);
    }
  }

  /** A spare bit changes nothing. */
  lemma {:induction false} XorNarrow(a: nat, b: nat, n: nat)
    requires a < Two(n) && b < Two(n)
    ensures Xor(a, b, Two(n + 1)) == Xor(a, b, Two(n))
    decreases n
  {
    if n > 0 {
      XorNarrow(a / 2, b / 2, n - 1);
    }
  }

  function Low(x: nat, p: nat): (low: nat)
    requires p > 0
    ensures low < p
  {
    x % p
  }

  function High(x: nat, p: nat): nat
    requires p > 0
  {
    x / p * p
  }

  lemma HalvesOf(x: nat, p: nat)
    requires p > 0
    ensures Low(x, 2 * p) / 2 == Low(x / 2, p) && Low(x, 2 * p) % 2 == x % 2
    ensures High(x, 2 * p) / 2 == High(x / 2, p) && High(x, 2 * p) % 2 == 0
  {
    LowHigh(x, p);
  }

  lemma WholeIsHigh(x: nat)
    ensures Low(x, 1) == 0 && High(x, 1) == x
  {
  }

  /** A number is its low and its high bits. */
  lemma {:induction false} XorSplit(x: nat, k: nat, n: nat)
    requires x < Two(n) && k <= n
    ensures Xor(Low(x, Two(k)), High(x, Two(k)), Two(n)) == x
    decreases n
  {
    hide Xor, Low, High;
    if k == 0 {
      WholeIsHigh(x);
      XorCommutes(0, x, Two(n));
      XorZero(x, n);
    } else {
      XorSplit(x / 2, k - 1, n - 1);
      HalvesOf(x, Two(k - 1));
      XorStep(Low(x, Two(k)), High(x, Two(k)), n);
    }
  }

  lemma XorStep(a: nat, b: nat, n: nat)
    requires n > 0
    ensures Xor(a, b, Two(n)) == (a + b) % 2 + 2 * Xor(a / 2, b / 2, Two(n - 1))
  {
  }

  lemma LowHigh(x: nat, p: nat)
    requires p > 0
    ensures x % (2 * p) / 2 == x / 2 % p && x % (2 * p) % 2 == x % 2
    ensures x / (2 * p) * (2 * p) / 2 == x / 2 / p * p && x / (2 * p) * (2 * p) % 2 == 0
  {
    var q := x / 2 / p;
    assert x / 2 == q * p + x / 2 % p;
    assert x == 2 * (q * p + x / 2 % p) + x % 2;
    var r := 2 * (x / 2 % p) + x % 2;
    assert x == q * (2 * p) + r && 0 <= r < 2 * p by {
      assert 2 * (q * p) == q * (2 * p);
    }
    Division(x, 2 * p, q, r);
    assert q * (2 * p) == 2 * (q * p);
  }

  lemma Division(x: nat, d: nat, q: nat, r: nat)
    requires d > 0 && r < d && x == q * d + r
    ensures x / d == q && x % d == r
  {
    if x / d < q {
      Scaled(x / d + 1, q, d);
    } else if x / d > q {
      Scaled(q + 1, x / d, d);
    }
  }

  lemma Scaled(a: nat, b: nat, d: nat)
    requires a <= b
    ensures a * d <= b * d
  {
  }

  /** The high bits of the result are those of the first when the second is short. */
  lemma {:induction false} XorHigh(a: nat, b: nat, k: nat, n: nat)
    requires a < Two(n) && b < Two(k) && k <= n
    ensures Xor(a, b, Two(n)) / Two(k) == a / Two(k)
    decreases n
  {
    hide Xor;
    if k == 0 {
      XorZero(a, n);
    } else {
      XorHigh(a / 2, b / 2, k - 1, n - 1);
      XorStep(a, b, n);
      HalfFirst(Xor(a, b, Two(n)), Two(k - 1));
      HalfFirst(a, Two(k - 1));
    }
  }

  lemma HalfFirst(x: nat, p: nat)
    requires p > 0
    ensures x / (2 * p) == x / 2 / p
  {
    LowHigh(x, p);
    var q := x / 2 / p;
    assert x / 2 == q * p + x / 2 % p;
    assert x == q * (2 * p) + (2 * (x / 2 % p) + x % 2) by {
      assert 2 * (q * p) == q * (2 * p);
    }
    Division(x, 2 * p, q, 2 * (x / 2 % p) + x % 2);
  }

  // ---------------------------------------------------------------------------
  // The same, for words

  lemma WordAssociates(a: Word, b: Word, c: Word)
    ensures XorWord(XorWord(a, b), c) == XorWord(a, XorWord(b, c))
  {
    hide Xor;
    XorAssociates(a, b, c, ALL_ONES + 1);
  }

  lemma WordCommutes(a: Word, b: Word)
    ensures XorWord(a, b) == XorWord(b, a)
  {
    hide Xor;
    XorCommutes(a, b, ALL_ONES + 1);
  }

  lemma WordSelf(a: Word)
    ensures XorWord(a, a) == 0
  {
    hide Xor;
    XorSelf(a, ALL_ONES + 1);
  }

  lemma WordZero(a: Word)
    ensures XorWord(a, 0) == a && XorWord(0, a) == a
  {
    hide Xor;
    Two32();
    XorZero(a, 32);
    XorCommutes(a, 0, ALL_ONES + 1);
  }

  lemma WordCancels(a: Word, b: Word, c: Word)
    requires XorWord(a, c) == XorWord(b, c)
    ensures a == b
  {
    hide XorWord;
    WordAssociates(a, c, c);
    WordAssociates(b, c, c);
    WordSelf(c);
    WordZero(a);
    WordZero(b);
  }

  /** (a + b) + (c + d), regrouped. */
  lemma WordRegroups(a: Word, b: Word, c: Word, d: Word)
    ensures XorWord(XorWord(a, b), XorWord(c, d)) == XorWord(XorWord(a, c), XorWord(b, d))
  {
    hide XorWord;
    WordAssociates(a, b, XorWord(c, d));
    WordAssociates(b, c, d);
    WordCommutes(b, c);
    WordAssociates(c, b, d);
    WordAssociates(a, c, XorWord(b, d));
  }

  lemma WordHalves(a: Word, b: Word)
    ensures XorWord(a, b) % 2 == (a + b) % 2
    ensures XorWord(a, b) / 2 == XorWord(a / 2, b / 2)
  {
    hide Xor;
    XorParts(a, b, ALL_ONES + 1);
    Two32();
    XorNarrow(a / 2, b / 2, 31);
  }

  // ---------------------------------------------------------------------------
  // The register

  /** One step of the shift register. */
  function ShiftOnce(c: Word): Word {
    if c % 2 == 1 then XorWord(IEEE, c / 2) else c / 2
  }

  lemma ShiftOnceAdds(a: Word, b: Word)
    ensures ShiftOnce(XorWord(a, b)) == XorWord(ShiftOnce(a), ShiftOnce(b))
  {
    hide XorWord;
    WordHalves(a, b);
    var x, y := a / 2, b / 2;
    if a % 2 == 1 && b % 2 == 1 {
      WordRegroups(IEEE, x, IEEE, y);
      WordSelf(IEEE);
      WordZero(XorWord(x, y));
    } else if a % 2 == 1 {
      WordAssociates(IEEE, x, y);
    } else if b % 2 == 1 {
      WordAssociates(x, IEEE, y);
      WordCommutes(x, IEEE);
      WordAssociates(IEEE, x, y);
    }
  }

  lemma {:induction false} ShiftAdds(a: Word, b: Word, rounds: nat)
    ensures Shift(XorWord(a, b), rounds) == XorWord(Shift(a, rounds), Shift(b, rounds))
    decreases rounds
  {
    hide XorWord;
    if rounds > 0 {
      ShiftOnceAdds(a, b);
      ShiftAdds(ShiftOnce(a), ShiftOnce(b), rounds - 1);
    }
  }

  lemma {:induction false} ShiftHigh(h: nat, rounds: nat)
    requires h * Two(rounds) <= ALL_ONES
    ensures Shift(h * Two(rounds), rounds) == h
    decreases rounds
  {
    hide XorWord;
    if rounds > 0 {
      var half := h * Two(rounds - 1);
      assert h * Two(rounds) == 2 * half;
      ShiftHigh(h, rounds - 1);
    } else {
      assert h * 1 == h;
    }
  }

  /** The table-driven algorithm is the bitwise one: feeding a byte is eight steps of the
      register with the byte added to it. */
  lemma TableIsRegister(c: Word, b: Byte)
    ensures StepByte(c, b) == Shift(XorWord(c, b), 8)
  {
    hide Xor, Shift;
    var x := XorWord(c, b);
    var low, high := x % 256, x / 256;
    Two32();
    assert Two(8) == 256;
    XorHigh(c, b, 8, 32);
    XorSplit(x, 8, 32);
    assert Low(x, 256) == low && High(x, 256) == high * 256;
    ShiftAdds(low, high * 256, 8);
    ShiftHigh(high, 8);
  }

  lemma ShiftOnceInjective(a: Word, b: Word)
    requires ShiftOnce(a) == ShiftOnce(b)
    ensures a == b
  {
    hide XorWord;
    var x, y := a / 2, b / 2;
    if a % 2 == 1 && b % 2 == 1 {
      WordCommutes(IEEE, x);
      WordCommutes(IEEE, y);
      WordCancels(x, y, IEEE);
    } else if a % 2 == 1 {
      LowTopBit(x, y);
    } else if b % 2 == 1 {
      LowTopBit(y, x);
    }
  }

  /** The polynomial has the top bit, so adding it to a halved word shows. */
  lemma LowTopBit(x: Word, y: Word)
    requires x < 0x8000_0000 && y < 0x8000_0000
    ensures XorWord(IEEE, x) != y
  {
    hide Xor;
    if XorWord(IEEE, x) == y {
      WordAssociates(IEEE, x, x);
      WordSelf(x);
      WordZero(IEEE);
      Two32();
      XorNarrow(y, x, 31);
    }
  }

  lemma {:induction false} ShiftInjective(a: Word, b: Word, rounds: nat)
    requires Shift(a, rounds) == Shift(b, rounds)
    ensures a == b
    decreases rounds
  {
    hide XorWord;
    if rounds > 0 {
      ShiftInjective(ShiftOnce(a), ShiftOnce(b), rounds - 1);
      ShiftOnceInjective(a, b);
    }
  }

  /** Neither the register nor the byte can change without changing the next register. */
  lemma StepInjective(c: Word, d: Word, a: Byte, b: Byte)
    requires StepByte(c, a) == StepByte(d, b)
    ensures c == d <==> a == b
  {
    hide XorWord, StepByte, Shift;
    TableIsRegister(c, a);
    TableIsRegister(d, b);
    ShiftInjective(XorWord(c, a), XorWord(d, b), 8);
    if a == b {
      WordCancels(c, d, a);
    }
    if c == d {
      WordCommutes(c, a);
      WordCommutes(c, b);
      WordCancels(a, b, c);
    }
  }

  lemma {:induction false} RegisterInjective(c: Word, d: Word, p: seq<Byte>)
    requires Register(c, p) == Register(d, p)
    ensures c == d
    decreases |p|
  {
    hide StepByte;
    if p != [] {
      RegisterInjective(StepByte(c, p[0]), StepByte(d, p[0]), p[1..]);
      StepInjective(c, d, p[0], p[0]);
    }
  }

  /** One byte changed anywhere changes the checksum. */
  lemma ByteChangeShows(crc: Word, p: seq<Byte>, i: nat, x: Byte)
    requires i < |p| && x != p[i]
    ensures Update(crc, p[i := x]) != Update(crc, p)
  {
    hide StepByte, Register;
    var q := p[i := x];
    var c := Register(Complement(crc), p[..i]);
    SplitAt(Complement(crc), p, i);
    SplitAt(Complement(crc), q, i);
    assert q[..i] == p[..i] && q[i + 1..] == p[i + 1..];
    if Update(crc, q) == Update(crc, p) {
      RegisterInjective(StepByte(c, p[i]), StepByte(c, x), p[i + 1..]);
      StepInjective(c, c, p[i], x);
    }
  }

  lemma SplitAt(c: Word, p: seq<Byte>, i: nat)
    requires i < |p|
    ensures Register(c, p) == Register(StepByte(Register(c, p[..i]), p[i]), p[i + 1..])
  {
    hide StepByte;
    assert p == p[..i] + p[i..];
    RegisterConcat(c, p[..i], p[i..]);
    assert p[i..][1..] == p[i + 1..];
  }

  /** The polynomial shows as what a single top bit turns into. */
  lemma PolynomialShows()
    ensures TableEntry(0x80) == 0xEDB8_8320
  {
    WordZero(IEEE);
    hide XorWord;
    assert Shift(0x80, 8) == Shift(0x08, 4);
    assert Shift(0x08, 4) == Shift(0x01, 1);
    assert Shift(0x01, 1) == Shift(XorWord(IEEE, 0), 0);
  }
}
