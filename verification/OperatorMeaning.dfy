/** What every operator yields, by the way it is written: sums modulo the word size, comparisons of the
    signed or unsigned readings, truth tables, and the bits that shifts and rotations move. */
module OperatorMeaning {
  import opened Options
  import opened ExpressionTokens
  import opened Tokenizer
  import opened Words
  import opened MachineWords
  import opened WordLaws

  const SIZE: int := 0x1_0000_0000_0000_0000

  /** The number a word stands for. */
  function Reading(w: Word, signed: bool): int {
    if signed && w >= 0x8000_0000_0000_0000 then w - SIZE else w
  }

  function Flag(b: bool): Word {
    if b then 1 else 0
  }

  // ----- arithmetic -----

  lemma ReadingIsSigned(w: Word, signed: bool)
    ensures Reading(w, signed) == if signed then Signed(w) else w
    ensures InRange(Reading(w, signed), signed) && Reading(w, signed) % SIZE == w
  {
  }

  /** Sum, difference and product modulo the word size, under either reading. */
  lemma Sums(a: Word, b: Word, signed: bool)
    ensures OperatorText(Add) == "+" && WordOperation(Add, a, b, signed) == Some((a + b) % SIZE)
    ensures OperatorText(Sub) == "-" && WordOperation(Sub, a, b, signed) == Some((a - b) % SIZE)
    ensures OperatorText(Mul) == "*" && WordOperation(Mul, a, b, signed) == Some(a * b % SIZE)
  {
    hide WordOperation;
    SignednessIsIrrelevant(Add, a, b);
    SignednessIsIrrelevant(Sub, a, b);
    SignednessIsIrrelevant(Mul, a, b);
    Unsigned(a, b);
  }

  lemma Unsigned(a: Word, b: Word)
    ensures WordOperation(Add, a, b, false) == Some(Wrap(a + b))
    ensures WordOperation(Sub, a, b, false) == Some(Wrap(a - b))
    ensures WordOperation(Mul, a, b, false) == Some(Wrap(a * b))
  {
    hide Wrap, Narrow;
    WrapNarrow(a + b, false);
    WrapNarrow(a - b, false);
    WrapNarrow(a * b, false);
  }

  /** The high half of the product of the readings. */
  lemma HighProduct(a: Word, b: Word, signed: bool)
    ensures OperatorText(HiMul) == "`"
    ensures var r := WordOperation(HiMul, a, b, signed);
      && r.Some?
      && var product := Reading(a, signed) * Reading(b, signed);
         Reading(r.value, signed) * SIZE <= product < (Reading(r.value, signed) + 1) * SIZE
  {
    HighAndLowHalves(a, b);
    var high := Operation(HiMul, if signed then Signed(a) else a, if signed then Signed(b) else b, signed).value;
    WrappedReading(high, signed);
  }

  lemma WrappedReading(x: int, signed: bool)
    requires InRange(x, signed)
    ensures Reading(Wrap(x), signed) == x
  {
  }

  /** Division and remainder fail exactly for a zero divisor. They recombine to the dividend, the remainder
      has its sign and is smaller than the divisor; the smallest signed number divided by -1 gives itself. */
  lemma Quotients(a: Word, b: Word, signed: bool)
    ensures OperatorText(Div) == "/" && OperatorText(Mod) == "%"
    ensures WordOperation(Div, a, b, signed).None? <==> b == 0
    ensures WordOperation(Mod, a, b, signed).None? <==> b == 0
    ensures b != 0 ==>
      var q := Reading(WordOperation(Div, a, b, signed).value, signed);
      var r := Reading(WordOperation(Mod, a, b, signed).value, signed);
      var x, y := Reading(a, signed), Reading(b, signed);
      && (x >= 0 ==> r >= 0) && (x <= 0 ==> r <= 0) && Abs(r) < Abs(y)
      && if x == -0x8000_0000_0000_0000 && y == -1 then q == x && r == 0 else q * y + r == x
  {
    hide Narrow, TruncatedQuotient;
    ReadingIsSigned(a, signed);
    ReadingIsSigned(b, signed);
    var x, y := Reading(a, signed), Reading(b, signed);
    QuotientAndRemainder(x, y, signed);
    if b != 0 {
      var q, r := Operation(Div, x, y, signed).value, Operation(Mod, x, y, signed).value;
      NarrowFits(TruncatedQuotient(x, y), signed);
      NarrowFits(x - y * TruncatedQuotient(x, y), signed);
      WrappedReading(q, signed);
      WrappedReading(r, signed);
      if x == -HALF && y == -1 {
        SmallestByMinusOne();
      }
    }
  }

  lemma NarrowFits(x: int, signed: bool)
    ensures InRange(Narrow(x, signed), signed)
  {
  }

  /** The operators in front of one operand. */
  lemma Unaries(a: Word, b: Word, signed: bool)
    ensures OperatorText(UnarySub) == "-" && WordOperation(UnarySub, a, b, signed) == Some((SIZE - a) % SIZE)
    ensures OperatorText(UnaryAdd) == "+" && WordOperation(UnaryAdd, a, b, signed) == Some(a)
    ensures OperatorText(LogicalNot) == "!" && WordOperation(LogicalNot, a, b, signed) == Some(Flag(a == 0))
  {
    hide WordOperation, Wrap;
    MinusNegates(a, b, signed);
    WrapIsUnique(-(a as int), 1);
    WrapIs(SIZE - a);
    SignednessIsIrrelevant(UnaryAdd, a, b);
    SignednessIsIrrelevant(LogicalNot, a, b);
    UnsignedUnaries(a, b);
  }

  lemma WrapIs(x: int)
    ensures Wrap(x) == x % SIZE
  {
  }

  lemma UnsignedUnaries(a: Word, b: Word)
    ensures WordOperation(UnaryAdd, a, b, false) == Some(a)
    ensures WordOperation(LogicalNot, a, b, false) == Some(Flag(a == 0))
    ensures WordOperation(Not, a, b, false) == Some(SIZE - 1 - a)
  {
    WrapIsUnique(-1 - a, 1);
    WrapIsStable(SIZE - 1 - a);
  }

  lemma Complements(a: Word, b: Word, signed: bool, j: nat)
    requires j < 64
    ensures OperatorText(Not) == "~" && WordOperation(Not, a, b, signed).Some?
    ensures Bit(WordOperation(Not, a, b, signed).value, j) == !Bit(a, j)
  {
    hide Bit, WordOperation;
    SignednessIsIrrelevant(Not, a, b);
    UnsignedUnaries(a, b);
    Complement(a, j);
  }

  // ----- comparisons and truth -----

  lemma Comparisons(a: Word, b: Word, signed: bool)
    ensures OperatorText(Equal) == "==" && WordOperation(Equal, a, b, signed) == Some(Flag(a == b))
    ensures OperatorText(NotEqual) == "!=" && WordOperation(NotEqual, a, b, signed) == Some(Flag(a != b))
    ensures var x, y := Reading(a, signed), Reading(b, signed);
      && OperatorText(Bigger) == ">" && WordOperation(Bigger, a, b, signed) == Some(Flag(x > y))
      && OperatorText(Smaller) == "<" && WordOperation(Smaller, a, b, signed) == Some(Flag(x < y))
      && OperatorText(BiggerEqual) == ">=" && WordOperation(BiggerEqual, a, b, signed) == Some(Flag(x >= y))
      && OperatorText(SmallerEqual) == "<=" && WordOperation(SmallerEqual, a, b, signed) == Some(Flag(x <= y))
  {
  }

  lemma TruthTables(a: Word, b: Word, signed: bool)
    ensures OperatorText(LogicalAnd) == "&&" && WordOperation(LogicalAnd, a, b, signed) == Some(Flag(a != 0 && b != 0))
    ensures OperatorText(LogicalOr) == "||" && WordOperation(LogicalOr, a, b, signed) == Some(Flag(a != 0 || b != 0))
    ensures OperatorText(LogicalImpl) == "->" && WordOperation(LogicalImpl, a, b, signed) == Some(Flag(a != 0 ==> b != 0))
  {
    SignednessIsIrrelevant(LogicalAnd, a, b);
    SignednessIsIrrelevant(LogicalOr, a, b);
    SignednessIsIrrelevant(LogicalImpl, a, b);
  }

  /** The bits of conjunction, disjunction and exclusive disjunction. */
  lemma BitTables(a: Word, b: Word, signed: bool, j: nat)
    requires j < 64
    ensures OperatorText(And) == "&" && WordOperation(And, a, b, signed).Some?
    ensures OperatorText(Or) == "|" && WordOperation(Or, a, b, signed).Some?
    ensures OperatorText(Xor) == "^" && WordOperation(Xor, a, b, signed).Some?
    ensures Bit(WordOperation(And, a, b, signed).value, j) == (Bit(a, j) && Bit(b, j))
    ensures Bit(WordOperation(Or, a, b, signed).value, j) == (Bit(a, j) || Bit(b, j))
    ensures Bit(WordOperation(Xor, a, b, signed).value, j) == (Bit(a, j) != Bit(b, j))
  {
    hide Bit, Narrow, BitAnd, BitOr, BitXor;
    SignednessIsIrrelevant(And, a, b);
    SignednessIsIrrelevant(Or, a, b);
    SignednessIsIrrelevant(Xor, a, b);
    BitwiseOperators(a, b, j);
  }

  /** No other operator fails, and assignments and steps have no arithmetic. */
  lemma FailsIff(op: Operator, a: Word, b: Word, signed: bool)
    ensures WordOperation(op, a, b, signed).None? <==> IsAssignment(op) || IsStep(op) || ((op == Div || op == Mod) && b == 0)
  {
    hide Narrow, RotateLeft, Pow2, BitAnd, BitOr, BitXor, TruncatedQuotient;
  }

  // ----- bits that move -----

  lemma QuotientOfQuotient(x: nat, m: nat, n: nat)
    requires m > 0 && n > 0
    ensures m * n > 0 && x / (m * n) == x / m / n
  {
    Remainder(x, m);
    Remainder(x / m, n);
    TwoSteps(x, m, n, x / m, x % m, x / m / n, x / m % n);
  }

  lemma Remainder(x: nat, m: nat)
    requires m > 0
    ensures x / m >= 0 && x == m * (x / m) + x % m && 0 <= x % m < m
  {
  }

  lemma TwoSteps(x: nat, m: nat, n: nat, q: nat, low: nat, k: nat, r: nat)
    requires low < m && r < n && x == m * q + low && q == n * k + r
    ensures m * n > 0 && x / (m * n) == k
  {
    Below(m, n, r, low);
    Spread(m, n, k, r);
    QuotientIs(x, m * n, k, m * r + low);
  }

  lemma Spread(m: nat, n: nat, k: nat, r: nat)
    ensures m * (n * k + r) == m * n * k + m * r
  {
  }

  lemma Below(m: nat, n: nat, r: nat, low: nat)
    requires m > 0 && r < n && low < m
    ensures m * n > 0 && m * r + low < m * n
  {
    Monotone(r, n - 1, m);
    assert (n - 1) * m == m * n - m && r * m == m * r;
  }

  /** A bit further up is the same bit of the upper part. */
  lemma BitAbove(x: nat, k: nat, j: nat, upper: nat)
    requires upper == x / Pow2(k)
    ensures Bit(upper, j) == Bit(x, k + j)
  {
    hide Pow2;
    Pow2Sum(k, j);
    QuotientOfQuotient(x, Pow2(k), Pow2(j));
  }

  /** Bits below the cut do not depend on what is above it. */
  lemma BitBelow(high: nat, k: nat, low: nat, j: nat)
    requires low < Pow2(k) && j < k
    ensures Bit(high * Pow2(k) + low, j) == Bit(low, j)
  {
    hide Pow2;
    var p, half := Pow2(j), Pow2(k - j - 1);
    Pow2Sum(j, k - j);
    Doubled(k - j);
    QuotientBelow(high, p, 2 * half, low);
    SameParity(high, half, low / p);
  }

  lemma SameParity(high: nat, half: nat, d: nat)
    ensures (high * (2 * half) + d) % 2 == d % 2
  {
    assert high * (2 * half) == 2 * (high * half);
  }

  lemma QuotientBelow(high: nat, p: nat, q: nat, low: nat)
    requires p > 0
    ensures (high * (p * q) + low) / p == high * q + low / p
  {
    var d, r := low / p, low % p;
    assert low == p * d + r;
    assert high * (p * q) == p * (high * q);
    assert p * (high * q + d) == p * (high * q) + p * d;
    QuotientIs(high * (p * q) + low, p, high * q + d, r);
  }

  /** The bits of two parts put together. */
  lemma BitOfParts(high: nat, k: nat, low: nat, j: nat)
    requires low < Pow2(k)
    ensures Bit(high * Pow2(k) + low, j) == if j < k then Bit(low, j) else Bit(high, j - k)
  {
    hide Pow2, Bit;
    if j < k {
      BitBelow(high, k, low, j);
    } else {
      var p := Pow2(k);
      assert high * p == p * high;
      QuotientIs(high * p + low, p, high, low);
      BitAbove(high * p + low, k, j - k, high);
    }
  }

  /** Cutting off high bits leaves the others alone. */
  lemma BitOfRest(x: nat, n: nat, j: nat)
    requires j < n
    ensures Bit(x % Pow2(n), j) == Bit(x, j)
  {
    hide Pow2, Bit;
    var p := Pow2(n);
    assert x == x / p * p + x % p;
    BitBelow(x / p, n, x % p, j);
  }

  lemma Complement(a: Word, j: nat)
    requires j < 64
    ensures Bit(SIZE - 1 - a, j) == !Bit(a, j)
  {
    hide Pow2, Bit;
    Pow2Of64();
    FlippedBit(a, 64, j);
  }

  lemma {:induction false} FlippedBit(x: nat, n: nat, j: nat)
    requires x < Pow2(n) && j < n
    ensures Bit(Pow2(n) - 1 - x, j) == !Bit(x, j)
  {
    hide Bit;
    Doubled(n);
    var y := Pow2(n) - 1 - x;
    assert y / 2 == Pow2(n - 1) - 1 - x / 2 && y % 2 == 1 - x % 2;
    if j > 0 {
      BitShift(x, j);
      BitShift(y, j);
      FlippedBit(x / 2, n - 1, j - 1);
    } else {
      LowestBit(x);
      LowestBit(y);
    }
  }

  lemma LowestBit(x: nat)
    ensures Bit(x, 0) == (x % 2 == 1)
  {
    assert Pow2(0) == 1;
  }

  /** Shifting left moves every bit up and fills with zeros; only the low six bits of the count matter. */
  lemma ShiftLeft(a: Word, n: Word, signed: bool, j: nat)
    requires j < 64
    ensures OperatorText(Shl) == "<<" && WordOperation(Shl, a, n, signed).Some?
    ensures Bit(WordOperation(Shl, a, n, signed).value, j) == (j >= n % 64 && Bit(a, j - n % 64))
  {
    hide Pow2, Bit, WordOperation;
    SignednessIsIrrelevant(Shl, a, n);
    ShiftIs(a, n);
    var k := n % 64;
    Pow2Of64();
    BitOfRest(a * Pow2(k), 64, j);
    BitOfParts(a, k, 0, j);
    if j < k {
      NoBits(j);
    }
  }

  lemma NoBits(j: nat)
    ensures !Bit(0, j)
  {
    hide Pow2;
    QuotientIs(0, Pow2(j), 0, 0);
  }

  /** Shifting right divides the reading by a power of two and rounds down. */
  lemma ShiftRight(a: Word, n: Word, signed: bool)
    ensures OperatorText(Shr) == ">>" && WordOperation(Shr, a, n, signed).Some?
    ensures var q, p := Reading(WordOperation(Shr, a, n, signed).value, signed), Pow2(n % 64);
      q * p <= Reading(a, signed) < (q + 1) * p
  {
    hide Pow2, Wrap, Narrow;
    ReadingIsSigned(a, signed);
    CountIs(n, signed);
    var x, p := Reading(a, signed), Pow2(n % 64);
    var q := x / p;
    assert x == p * q + x % p && p * q == q * p && (q + 1) * p == q * p + p;
    QuotientFits(x, p, signed);
    NarrowInRange(q, signed);
    WrappedReading(q, signed);
  }

  lemma CountIs(n: Word, signed: bool)
    ensures Wrap(if signed then Signed(n) else n) == n
  {
  }

  lemma QuotientFits(x: int, p: int, signed: bool)
    requires InRange(x, signed) && p > 0
    ensures InRange(x / p, signed)
  {
    var q := x / p;
    assert x == p * q + x % p;
    if q > 0 {
      Far(p, q);
    } else if q < 0 {
      Monotone(q, -1, p);
      assert q * p == p * q;
      if q < x {
        Monotone(1, p, -q);
        assert 1 * -q == -q && p * -q == -(p * q);
      }
    }
  }

  /** Rotating left moves every bit up by the count and around the end. */
  lemma RotatedLeft(a: Word, n: Word, signed: bool, j: nat)
    requires j < 64
    ensures OperatorText(Rol) == "<<<" && WordOperation(Rol, a, n, signed).Some?
    ensures Bit(WordOperation(Rol, a, n, signed).value, (j + n) % 64) == Bit(a, j)
  {
    hide Bit, WordOperation, RotateLeft;
    SignednessIsIrrelevant(Rol, a, n);
    RotationIs(a, n);
    RotatedBit(a, n % 64, j);
    Around(j, n);
  }

  lemma Around(j: nat, n: nat)
    requires j < 64
    ensures (j + n % 64) % 64 == (j + n) % 64
    ensures ((j + n) % 64 + (64 - n % 64) % 64) % 64 == j
  {
    var q, k := n / 64, n % 64;
    assert n == 64 * q + k;
    if j + k < 64 {
      assert (j + n) % 64 == j + k;
    } else {
      assert (j + n) % 64 == j + k - 64;
    }
  }

  lemma RotatedRight(a: Word, n: Word, signed: bool, j: nat)
    requires j < 64
    ensures OperatorText(Ror) == ">>>" && WordOperation(Ror, a, n, signed).Some?
    ensures Bit(WordOperation(Ror, a, n, signed).value, j) == Bit(a, (j + n) % 64)
  {
    hide Bit, WordOperation, RotateLeft;
    SignednessIsIrrelevant(Ror, a, n);
    RotationIs(a, n);
    var k := n % 64;
    RotatedBit(a, (64 - k) % 64, (j + n) % 64);
    Around(j, n);
  }

  lemma RotatedBit(a: Word, k: nat, j: nat)
    requires k < 64 && j < 64
    ensures Bit(RotateLeft(a, k), (j + k) % 64) == Bit(a, j)
  {
    hide Pow2, Bit, Wrap;
    if k == 0 {
      RotateByNothing(a);
    } else {
      Pow2Of64();
      Pow2Sum(k, 64 - k);
      var p, q := Pow2(k), Pow2(64 - k);
      var high, low := a / q, a % q;
      HighPart(a, p, q);
      Rotated(a, p, q, high, low);
      BitOfParts(low, k, high, (j + k) % 64);
      BitOfParts(high, 64 - k, low, j);
    }
  }
}
