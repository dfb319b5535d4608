/** Laws that tie the evaluator's word operations to each other. */
module WordLaws {
  import opened Options
  import opened ExpressionTokens
  import opened Words
  import opened MachineWords

  // ----- division -----

  function Abs(x: int): nat {
    if x < 0 then -x else x
  }

  /** A multiple is either nothing or at least as far away as the factor. */
  lemma Far(d: int, k: int)
    requires d > 0
    ensures k > 0 ==> d * k >= d && d * k >= k
    ensures k < 0 ==> d * k <= -d && d * k <= k
    ensures k > 0 && d > 1 ==> d * k > k
  {
  }

  lemma Monotone(x: int, y: int, factor: int)
    requires factor >= 0
    ensures x <= y ==> x * factor <= y * factor
  {
  }

  lemma EuclideanParts(x: int, b: int)
    requires x >= 0 && b != 0
    ensures x == b * (x / b) + x % b && 0 <= x % b < Abs(b)
    ensures -x <= x / b <= x
    ensures b != -1 && x > 0 ==> x / b > -x
  {
    var q := x / b;
    if b > 0 {
      Far(b, q);
    } else {
      Far(-b, -q);
      assert -b * -q == b * q;
    }
  }

  /** Truncating division leaves a remainder with the sign of the dividend, smaller than the divisor. */
  lemma Truncated(a: int, b: int)
    requires b != 0
    ensures var q := TruncatedQuotient(a, b);
      var r := a - b * q;
      && (a >= 0 ==> r >= 0) && (a <= 0 ==> r <= 0)
      && Abs(r) < Abs(b) && Abs(q) <= Abs(a)
      && (b != -1 && a < 0 ==> q < -a)
  {
    EuclideanParts(Abs(a), b);
    if a < 0 {
      assert b * -(-a / b) == -(b * (-a / b));
    }
  }

  predicate Overflows(a: int, b: int, signed: bool) {
    signed && a == -HALF && b == -1
  }

  lemma NarrowInRange(x: int, signed: bool)
    requires InRange(x, signed)
    ensures Narrow(x, signed) == x
  {
  }

  /** A division fails exactly for a zero divisor. Otherwise quotient and remainder recombine to the
      dividend, and the remainder has its sign and is smaller than the divisor, except that the smallest
      signed number divided by -1 overflows. */
  lemma QuotientAndRemainder(a: int, b: int, signed: bool)
    requires InRange(a, signed) && InRange(b, signed)
    ensures Operation(Div, a, b, signed).None? <==> b == 0
    ensures Operation(Mod, a, b, signed).None? <==> b == 0
    ensures b != 0 ==>
      var q, r := Operation(Div, a, b, signed).value, Operation(Mod, a, b, signed).value;
      && (a >= 0 ==> r >= 0) && (a <= 0 ==> r <= 0) && Abs(r) < Abs(b)
      && (q * b + r == a <==> !Overflows(a, b, signed))
  {
    hide Narrow, TruncatedQuotient;
    if b != 0 {
      Truncated(a, b);
      var q := TruncatedQuotient(a, b);
      var r := a - b * q;
      NarrowInRange(r, signed);
      if Overflows(a, b, signed) {
        SmallestByMinusOne();
      } else {
        NarrowInRange(q, signed);
      }
    }
  }

  lemma SmallestByMinusOne()
    ensures TruncatedQuotient(-HALF, -1) == HALF && Narrow(HALF, true) == -HALF
  {
  }

  /** Unary minus is negation under either reading, although it is computed as a product. */
  lemma MinusNegates(a: Word, b: Word, signed: bool)
    ensures WordOperation(UnarySub, a, b, signed) == Some(Wrap(-(a as int)))
  {
    hide Wrap, Signed, Narrow;
    NegationBits(a, b);
    var n: int := a;
    assert n * (WORD - 1) == -n + n * WORD;
    WrapIsUnique(-n, n);
    WrapNarrow(n * (WORD - 1), false);
  }

  // ----- bits -----

  function Bit(x: nat, j: nat): bool {
    x / Pow2(j) % 2 == 1
  }

  lemma BitShift(x: nat, j: nat)
    requires j > 0
    ensures Bit(x, j) == Bit(x / 2, j - 1)
  {
    HalfFirst(x, Pow2(j - 1));
  }

  lemma HalfFirst(x: nat, n: nat)
    requires n > 0
    ensures x / (2 * n) == x / 2 / n
  {
    var half := x / 2;
    var q, r := half / n, half % n;
    assert half == n * q + r;
    assert 2 * n * q == 2 * (n * q);
    QuotientIs(x, 2 * n, q, 2 * r + x % 2);
  }

  lemma QuotientIs(x: nat, d: nat, q: nat, r: nat)
    requires d > 0 && x == d * q + r && r < d
    ensures x / d == q && x % d == r
  {
    var k := x / d - q;
    assert d * (x / d) == d * q + d * k;
    Far(d, k);
  }

  /** Every bit of the combination is the table's value for the two bits there. */
  lemma {:induction false} BitOfBitwise(table: (bool, bool) -> bool, a: nat, b: nat, n: nat, j: nat)
    requires j < n
    ensures Bit(Bitwise(table, a, b, n), j) == table(Bit(a, j), Bit(b, j))
  {
    var rest := Bitwise(table, a / 2, b / 2, n - 1);
    var x := Bitwise(table, a, b, n);
    assert x == Truth(table(a % 2 == 1, b % 2 == 1)) + 2 * rest;
    assert x / 2 == rest;
    if j > 0 {
      BitShift(x, j);
      BitShift(a, j);
      BitShift(b, j);
      BitOfBitwise(table, a / 2, b / 2, n - 1, j - 1);
    } else {
      assert Pow2(0) == 1;
    }
  }

  lemma {:induction false} BitwiseFits(table: (bool, bool) -> bool, a: nat, b: nat, n: nat)
    ensures Bitwise(table, a, b, n) < Pow2(n)
  {
    if n > 0 {
      BitwiseFits(table, a / 2, b / 2, n - 1);
    }
  }

  lemma Pow2Of64()
    ensures Pow2(64) == WORD
  {
    assert Pow2(8) == 0x100;
    assert Pow2(16) == 0x1_0000;
    assert Pow2(24) == 0x100_0000;
    assert Pow2(32) == 0x1_0000_0000;
    assert Pow2(40) == 0x100_0000_0000;
    assert Pow2(48) == 0x1_0000_0000_0000;
    assert Pow2(56) == 0x100_0000_0000_0000;
  }

  lemma BitwiseIs(table: (bool, bool) -> bool, a: Word, b: Word)
    ensures Narrow(Wrap(Bitwise(table, a, b, 64)), false) == Wrap(Bitwise(table, a, b, 64)) == Bitwise(table, a, b, 64)
  {
    hide Pow2, Bitwise;
    Pow2Of64();
    BitwiseFits(table, a, b, 64);
  }

  /** Bit by bit, the three bitwise operators are conjunction, disjunction and inequality. */
  lemma BitwiseOperators(a: Word, b: Word, j: nat)
    requires j < 64
    ensures Bit(WordOperation(And, a, b, false).value, j) == (Bit(a, j) && Bit(b, j))
    ensures Bit(WordOperation(Or, a, b, false).value, j) == (Bit(a, j) || Bit(b, j))
    ensures Bit(WordOperation(Xor, a, b, false).value, j) == (Bit(a, j) != Bit(b, j))
  {
    hide Bit, Bitwise, Wrap, Narrow;
    WrapIsStable(a);
    WrapIsStable(b);
    BitwiseIs((x, y) => x && y, a, b);
    BitwiseIs((x, y) => x || y, a, b);
    BitwiseIs((x, y) => x != y, a, b);
    BitOfBitwise((x, y) => x && y, a, b, 64, j);
    BitOfBitwise((x, y) => x || y, a, b, 64, j);
    BitOfBitwise((x, y) => x != y, a, b, 64, j);
  }

  // ----- rotations -----

  lemma {:induction false} Pow2Sum(m: nat, n: nat)
    ensures Pow2(m + n) == Pow2(m) * Pow2(n)
  {
    hide Pow2;
    Doubled(m + n);
    Doubled(m);
    if m > 0 {
      Pow2Sum(m - 1, n);
      DoubleProduct(Pow2(m - 1), Pow2(n));
    }
  }

  lemma Doubled(n: nat)
    ensures Pow2(n) == if n == 0 then 1 else 2 * Pow2(n - 1)
  {
  }

  lemma DoubleProduct(x: int, y: int)
    ensures 2 * x * y == 2 * (x * y)
  {
  }

  lemma Expand(high: int, q: int, low: int, p: int)
    ensures (high * q + low) * p == low * p + high * (p * q)
  {
    assert high * q * p == high * (p * q);
  }

  /** Rotating moves the lower part up and the upper part down. */
  lemma Rotated(a: Word, p: nat, q: nat, high: nat, low: nat)
    requires p > 0 && q > 0 && p * q == WORD && a == high * q + low && low < q && high < p
    ensures Wrap(a * p + a / q) == low * p + high && low * p + high < WORD
  {
    hide Wrap;
    assert q * high == high * q && q * p == p * q;
    QuotientIs(a, q, high, low);
    Expand(high, q, low, p);
    Monotone(low + 1, q, p);
    assert (low + 1) * p == low * p + p;
    WrapIsUnique(low * p + high, high);
    WrapIsStable(low * p + high);
  }

  lemma RotationIs(a: Word, n: Word)
    ensures WordOperation(Rol, a, n, false) == Some(RotateLeft(a, n % 64))
    ensures WordOperation(Ror, a, n, false) == Some(RotateLeft(a, (64 - n % 64) % 64))
  {
    hide RotateLeft, Wrap, Narrow;
    WrapIsStable(a);
    WrapIsStable(n);
    StableNarrow(RotateLeft(a, n % 64));
    StableNarrow(RotateLeft(a, (64 - n % 64) % 64));
  }

  lemma StableNarrow(a: Word)
    ensures Narrow(a, false) == a && Wrap(a) == a
  {
  }

  /** Rotating left and then right by the same count gives the word back, and the other way round. */
  lemma RotationsUndo(a: Word, n: Word)
    ensures WordOperation(Ror, WordOperation(Rol, a, n, false).value, n, false) == Some(a)
    ensures WordOperation(Rol, WordOperation(Ror, a, n, false).value, n, false) == Some(a)
  {
    hide RotateLeft, WordOperation;
    var k := n % 64;
    RotationIs(a, n);
    RotationIs(RotateLeft(a, k), n);
    RotationIs(RotateLeft(a, (64 - k) % 64), n);
    RotateBack(a, k);
    RotateBack(a, (64 - k) % 64);
    assert (64 - (64 - k) % 64) % 64 == k;
  }

  lemma RotateBack(a: Word, k: nat)
    requires k < 64
    ensures RotateLeft(RotateLeft(a, k), (64 - k) % 64) == a
  {
    hide Pow2, Wrap;
    if k == 0 {
      RotateByNothing(a);
    } else {
      Pow2Of64();
      Pow2Sum(k, 64 - k);
      var p, q := Pow2(k), Pow2(64 - k);
      var high, low := a / q, a % q;
      HighPart(a, p, q);
      Rotated(a, p, q, high, low);
      assert q * p == WORD;
      Rotated(low * p + high, q, p, low, high);
    }
  }

  lemma HighPart(a: Word, p: nat, q: nat)
    requires p > 0 && q > 0 && p * q == WORD
    ensures a / q < p && a % q < q && a == a / q * q + a % q
  {
    assert a == q * (a / q) + a % q;
    Monotone(p, a / q, q);
  }

  lemma RotateByNothing(a: Word)
    ensures RotateLeft(a, 0) == a
  {
    hide Pow2;
    Pow2Of64();
    assert Pow2(0) == 1 by { One(); }
    assert a / WORD == 0;
    WrapIsStable(a);
  }

  lemma One()
    ensures Pow2(0) == 1
  {
  }

  lemma ShiftIs(a: Word, n: Word)
    ensures WordOperation(Shl, a, n, false) == Some(Wrap(a * Pow2(n % 64)))
    ensures WordOperation(Shr, a, n, false) == Some(Wrap(a / Pow2(n % 64)))
  {
    hide Pow2, Wrap, Narrow;
    WrapIsStable(n);
    var p := Pow2(n % 64);
    WrapNarrow(a * p, false);
    WrapNarrow(a / p, false);
  }

  /** Shifting left and back keeps exactly the bits that were not shifted out. */
  lemma ShiftBackKeepsLowBits(a: Word, n: Word)
    ensures var left := WordOperation(Shl, a, n, false).value;
      WordOperation(Shr, left, n, false) == Some(a % Pow2(64 - n % 64))
  {
    hide Pow2, Wrap, WordOperation;
    var k := n % 64;
    var p, q := Pow2(k), Pow2(64 - k);
    Pow2Of64();
    Pow2Sum(k, 64 - k);
    HighPart(a, p, q);
    var high, low := a / q, a % q;
    ShiftIs(a, n);
    Expand(high, q, low, p);
    Monotone(low + 1, q, p);
    assert (low + 1) * p == low * p + p && q * p == p * q;
    WrapIsUnique(low * p, high);
    WrapIsStable(low * p);
    ShiftIs(low * p, n);
    assert low * p == p * low;
    QuotientIs(low * p, p, low, 0);
    WrapIsStable(low);
  }
}
