/** 64-bit machine words and the arithmetic the expression evaluator does on them,
    once as unsigned and once as two's complement numbers. */
module MachineWords {
  import opened Options
  import opened ExpressionTokens
  import opened Words

  const HALF: int := 0x8000_0000_0000_0000

  /** The two's complement reading of a word. */
  function Signed(w: Word): int {
    if w < HALF then w else w - WORD
  }

  /** The value of type T, signed or not, that the wrapped integer stands for. */
  function Narrow(x: int, signed: bool): int {
    if signed then Signed(Wrap(x)) else Wrap(x)
  }

  predicate InRange(x: int, signed: bool) {
    if signed then -HALF <= x < HALF else 0 <= x < WORD
  }

  function Pow2(n: nat): (p: int)
    ensures p > 0
  {
    if n == 0 then 1 else 2 * Pow2(n - 1)
  }

  /** Division of the program's language truncates toward zero. */
  function TruncatedQuotient(a: int, b: int): int
    requires b != 0
  {
    if a >= 0 then a / b else -(-a / b)
  }

  /** The word whose lowest `n` bits combine those of `a` and `b` by a truth table. */
  function Bitwise(table: (bool, bool) -> bool, a: nat, b: nat, n: nat): nat {
    if n == 0 then 0
    else Truth(table(a % 2 == 1, b % 2 == 1)) + 2 * Bitwise(table, a / 2, b / 2, n - 1)
  }

  function BitAnd(a: Word, b: Word): Word { Wrap(Bitwise((x, y) => x && y, a, b, 64)) }
  function BitOr(a: Word, b: Word): Word { Wrap(Bitwise((x, y) => x || y, a, b, 64)) }
  function BitXor(a: Word, b: Word): Word { Wrap(Bitwise((x, y) => x != y, a, b, 64)) }

  function RotateLeft(a: Word, count: nat): Word
    requires count < 64
  {
    Wrap(a * Pow2(count) + a / Pow2(64 - count))
  }

  function Truth(b: bool): nat {
    if b then 1 else 0
  }

  /** The arithmetic operators, on operands of a type T that is signed or unsigned;
      None for a zero divisor and for operators without arithmetic meaning. Shift
      and rotate counts act through their low six bits. */
  function Operation(op: Operator, op1: int, op2: int, signed: bool): Option<int>
    requires InRange(op1, signed) && InRange(op2, signed)
  {
    match op
    case UnarySub => Some(Narrow(op1 * (if signed then -1 else WORD - 1), signed))
    case UnaryAdd => Some(op1)
    case Not => Some(Narrow(-1 - op1, signed))
    case LogicalNot => Some(Truth(op1 == 0))
    case Mul => Some(Narrow(op1 * op2, signed))
    case HiMul => Some(op1 * op2 / WORD)
    case Div => if op2 == 0 then None else Some(Narrow(TruncatedQuotient(op1, op2), signed))
    case Mod => if op2 == 0 then None else Some(Narrow(op1 - op2 * TruncatedQuotient(op1, op2), signed))
    case Add => Some(Narrow(op1 + op2, signed))
    case Sub => Some(Narrow(op1 - op2, signed))
    case Shl => Some(Narrow(op1 * Pow2(Wrap(op2) % 64), signed))
    case Shr => Some(Narrow(op1 / Pow2(Wrap(op2) % 64), signed))
    case Rol => Some(Narrow(RotateLeft(Wrap(op1), Wrap(op2) % 64), signed))
    case Ror => Some(Narrow(RotateLeft(Wrap(op1), (64 - Wrap(op2) % 64) % 64), signed))
    case And => Some(Narrow(BitAnd(Wrap(op1), Wrap(op2)), signed))
    case Xor => Some(Narrow(BitXor(Wrap(op1), Wrap(op2)), signed))
    case Or => Some(Narrow(BitOr(Wrap(op1), Wrap(op2)), signed))
    case Equal => Some(Truth(op1 == op2))
    case NotEqual => Some(Truth(op1 != op2))
    case Bigger => Some(Truth(op1 > op2))
    case Smaller => Some(Truth(op1 < op2))
    case BiggerEqual => Some(Truth(op1 >= op2))
    case SmallerEqual => Some(Truth(op1 <= op2))
    case LogicalAnd => Some(Truth(op1 != 0 && op2 != 0))
    case LogicalOr => Some(Truth(op1 != 0 || op2 != 0))
    case LogicalImpl => Some(Truth(op1 == 0 || op2 != 0))
    case _ => None
  }

  /** Both readings of the operands, and the result read back as a word. */
  function WordOperation(op: Operator, a: Word, b: Word, signed: bool): Option<Word> {
    var r := Operation(op, if signed then Signed(a) else a, if signed then Signed(b) else b, signed);
    if r.None? then None else Some(Wrap(r.value))
  }

  // ----- operators that do not care about signedness -----

  predicate SignAgnostic(op: Operator) {
    match op
    case UnarySub | UnaryAdd | Not | LogicalNot | Mul | Add | Sub | Shl | Rol | Ror
      | And | Xor | Or | Equal | NotEqual | LogicalAnd | LogicalOr | LogicalImpl => true
    case _ => false
  }

  lemma WrapSigned(a: Word)
    ensures Wrap(Signed(a)) == a
  {
  }

  lemma WrapIsUnique(x: int, k: int)
    ensures Wrap(x + k * WORD) == Wrap(x)
  {
    var q, r := x / WORD, x % WORD;
    assert x + k * WORD == (q + k) * WORD + r;
  }

  lemma WrapSignedProduct(a: Word, m: int)
    ensures Wrap(Signed(a) * m) == Wrap(a * m)
  {
    if a >= HALF {
      assert Signed(a) * m == a * m + (-m) * WORD;
      WrapIsUnique(a * m, -m);
    }
  }

  lemma WrapProduct(a: Word, b: Word)
    ensures Wrap(Signed(a) * Signed(b)) == Wrap(a * b)
  {
    WrapSignedProduct(a, Signed(b));
    WrapSignedProduct(b, a);
    assert a * Signed(b) == Signed(b) * a && a * b == b * a;
  }

  lemma WrapNarrow(x: int, signed: bool)
    ensures Wrap(Narrow(x, signed)) == Wrap(x)
  {
  }

  lemma WrapIsStable(x: int)
    ensures 0 <= x < WORD ==> Wrap(x) == x
    ensures Wrap(Wrap(x)) == Wrap(x)
  {
  }

  lemma SignedIsInjective(a: Word, b: Word)
    ensures Signed(a) == Signed(b) <==> a == b
    ensures Signed(a) == 0 <==> a == 0
  {
  }

  lemma WrapSum(x: int, y: int)
    ensures Wrap(Wrap(x) + Wrap(y)) == Wrap(x + y)
    ensures Wrap(Wrap(x) - Wrap(y)) == Wrap(x - y)
    ensures Wrap(-1 - Wrap(x)) == Wrap(-1 - x)
  {
    var i, j := x / WORD, y / WORD;
    WrapIsUnique(Wrap(x) + Wrap(y), i + j);
    WrapIsUnique(Wrap(x) - Wrap(y), i - j);
    WrapIsUnique(-1 - Wrap(x), -i);
  }

  /** Signed and unsigned calculation give the same bits. */
  lemma SignednessIsIrrelevant(op: Operator, a: Word, b: Word)
    requires SignAgnostic(op)
    ensures WordOperation(op, a, b, true) == WordOperation(op, a, b, false)
  {
    hide Pow2, RotateLeft, BitAnd, BitOr, BitXor, Wrap, Signed, Narrow;
    var x, y := Signed(a), Signed(b);
    WrapSigned(a);
    WrapSigned(b);
    WrapIsStable(a);
    WrapIsStable(b);
    match op
    case Mul => ProductBits(a, b);
    case UnarySub => NegationBits(a, b);
    case Shl => ShiftBits(a, b);
    case Add =>
      WrapSum(x, y);
      NarrowBoth(x + y, a + b);
    case Sub =>
      WrapSum(x, y);
      NarrowBoth(x - y, a - b);
    case Not =>
      WrapSum(x, y);
      NarrowBoth(-1 - x, -1 - a);
    case Rol =>
      var r := RotateLeft(a, b % 64);
      NarrowBoth(r, r);
    case Ror =>
      var r := RotateLeft(a, (64 - b % 64) % 64);
      NarrowBoth(r, r);
    case And => NarrowBoth(BitAnd(a, b), BitAnd(a, b));
    case Or => NarrowBoth(BitOr(a, b), BitOr(a, b));
    case Xor => NarrowBoth(BitXor(a, b), BitXor(a, b));
    case _ =>
      SignedIsInjective(a, b);
      SignedIsInjective(b, a);
  }

  lemma NarrowBoth(x: int, y: int)
    requires Wrap(x) == Wrap(y)
    ensures Wrap(Narrow(x, true)) == Wrap(Narrow(y, false))
  {
    WrapNarrow(x, true);
    WrapNarrow(y, false);
  }

  lemma ProductBits(a: Word, b: Word)
    ensures WordOperation(Mul, a, b, true) == WordOperation(Mul, a, b, false)
  {
    hide Wrap, Signed, Narrow;
    WrapProduct(a, b);
    NarrowBoth(Signed(a) * Signed(b), a * b);
  }

  lemma NegationBits(a: Word, b: Word)
    ensures WordOperation(UnarySub, a, b, true) == WordOperation(UnarySub, a, b, false)
  {
    hide Wrap, Signed, Narrow;
    WrapSignedProduct(a, -1);
    var n: int := a;
    assert n * (WORD - 1) == n * -1 + n * WORD;
    WrapIsUnique(n * -1, n);
    NarrowBoth(Signed(a) * -1, a * (WORD - 1));
  }

  lemma ShiftBits(a: Word, b: Word)
    ensures WordOperation(Shl, a, b, true) == WordOperation(Shl, a, b, false)
  {
    hide Wrap, Signed, Narrow, Pow2;
    WrapSigned(b);
    WrapIsStable(b);
    var p := Pow2(b % 64);
    WrapSignedProduct(a, p);
    NarrowBoth(Signed(a) * p, a * p);
  }

  /** The order comparisons agree exactly when the operands have the same sign bit. */
  lemma OrderNeedsSameSign(op: Operator, a: Word, b: Word)
    requires op == Bigger || op == Smaller || op == BiggerEqual || op == SmallerEqual
    ensures WordOperation(op, a, b, true) == WordOperation(op, a, b, false) <==> (a < HALF <==> b < HALF)
  {
  }

  // ----- the high half of a product -----

  /** The halves recombine to the full product, under either reading. */
  lemma HighAndLowHalves(a: Word, b: Word)
    ensures var high := Operation(HiMul, a, b, false).value;
      0 <= high < WORD && high * WORD + WordOperation(Mul, a, b, false).value == a * b
    ensures var high := Operation(HiMul, Signed(a), Signed(b), true).value;
      -HALF <= high < HALF && high * WORD + WordOperation(Mul, a, b, true).value == Signed(a) * Signed(b)
  {
    ProductBounds(a, b);
    Halves(a * b);
    Halves(Signed(a) * Signed(b));
    WrapNarrow(Signed(a) * Signed(b), true);
    WrapNarrow(a * b, false);
  }

  lemma Halves(x: int)
    ensures x / WORD * WORD + Wrap(x) == x
    ensures 0 <= x < WORD * WORD ==> 0 <= x / WORD < WORD
    ensures -HALF * WORD <= x < HALF * WORD ==> -HALF <= x / WORD < HALF
  {
  }

  lemma ProductBounds(a: Word, b: Word)
    ensures 0 <= a * b < WORD * WORD
    ensures -HALF * WORD <= Signed(a) * Signed(b) < HALF * WORD
  {
    Scale(0, a, b);
    Scale(a, WORD - 1, b);
    Scale(b, WORD - 1, WORD - 1);
    AbsoluteProduct(Signed(a), Signed(b));
  }

  lemma Scale(x: int, y: int, factor: nat)
    requires x <= y
    ensures x * factor <= y * factor
  {
  }

  lemma AbsoluteProduct(x: int, y: int)
    requires -HALF <= x < HALF && -HALF <= y < HALF
    ensures -HALF * HALF <= x * y <= HALF * HALF
  {
    var m: nat := if y >= 0 then y else -y;
    Scale(-HALF, x, m);
    Scale(x, HALF, m);
    Scale(m, HALF, HALF);
    var k: int := m;
    assert x * -k == -(x * k);
  }

  /** The unsigned high half minus each operand whose partner is negative is the signed high half. */
  lemma SignedHighHalf(a: Word, b: Word)
    ensures WordOperation(HiMul, a, b, true).value ==
      Wrap(WordOperation(HiMul, a, b, false).value - (if a >= HALF then b else 0) - (if b >= HALF then a else 0))
  {
    hide Wrap;
    var i, j := Truth(a >= HALF), Truth(b >= HALF);
    var fix := i * b + j * a;
    HighAndLowHalves(a, b);
    WrapIsStable(a * b / WORD);
    SignedProduct(a, b);
    ShiftedQuotient(a * b, fix - i * j * WORD);
    WrapIsUnique(a * b / WORD - fix, i * j);
  }

  lemma SignedProduct(a: Word, b: Word)
    ensures var i, j := Truth(a >= HALF), Truth(b >= HALF);
      Signed(a) * Signed(b) == a * b - (i * b + j * a - i * j * WORD) * WORD
  {
    if a >= HALF {
      assert (a - WORD) * Signed(b) == a * Signed(b) - WORD * Signed(b);
    }
    if b >= HALF {
      assert a * (b - WORD) == a * b - a * WORD;
    }
  }

  lemma ShiftedQuotient(x: int, k: int)
    ensures (x - k * WORD) / WORD == x / WORD - k
  {
    assert x - k * WORD == (x / WORD - k) * WORD + x % WORD;
  }
}
