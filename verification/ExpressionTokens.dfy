/** The token alphabet of the expression parser and its two operator tables. */
module ExpressionTokens {

  /** In the program's enumeration the operators are the types from OperatorUnarySub on. */
  datatype TokenType =
    | Error
    | Data
    | QuotedData
    | NumericLiteral
    | Function
    | Comma
    | OpenParen
    | CloseParen
    | Op(op: Operator)

  datatype Operator =
    | UnarySub
    | UnaryAdd
    | Not
    | Mul
    | HiMul
    | Div
    | Mod
    | Add
    | Sub
    | Shl
    | Shr
    | Rol
    | Ror
    | And
    | Xor
    | Or
    | Equal
    | NotEqual
    | Bigger
    | Smaller
    | BiggerEqual
    | SmallerEqual
    | LogicalAnd
    | LogicalOr
    | LogicalNot
    | LogicalImpl
    | Assign
    | AssignMul
    | AssignHiMul
    | AssignDiv
    | AssignMod
    | AssignAdd
    | AssignSub
    | AssignShl
    | AssignShr
    | AssignRol
    | AssignRor
    | AssignAnd
    | AssignXor
    | AssignOr
    | SuffixInc
    | SuffixDec
    | PrefixInc
    | PrefixDec

  datatype Associativity = LeftToRight | RightToLeft | Unspecified

  /** `info` is the value of a numeric literal or the argument count of a function. */
  datatype Token = Token(data: string, kind: TokenType, info: nat)

  predicate IsOperand(kind: TokenType) {
    kind == Data || kind == QuotedData || kind == NumericLiteral
  }

  predicate IsParen(kind: TokenType) {
    kind == OpenParen || kind == CloseParen
  }

  predicate IsPrefixOperator(op: Operator) {
    match op
    case UnarySub | UnaryAdd | Not | LogicalNot | PrefixInc | PrefixDec => true
    case _ => false
  }

  predicate IsSuffixOperator(op: Operator) {
    op == SuffixInc || op == SuffixDec
  }

  predicate IsInfixOperator(op: Operator) {
    !IsPrefixOperator(op) && !IsSuffixOperator(op)
  }

  predicate IsAssignment(op: Operator) {
    match op
    case Assign | AssignMul | AssignHiMul | AssignDiv | AssignMod | AssignAdd | AssignSub
      | AssignShl | AssignShr | AssignRol | AssignRor | AssignAnd | AssignXor | AssignOr => true
    case _ => false
  }

  /** The four operators that step a variable up or down. */
  predicate IsStep(op: Operator) {
    match op
    case PrefixInc | PrefixDec | SuffixInc | SuffixDec => true
    case _ => false
  }

  function OperatorPrecedence(op: Operator): nat {
    match op
    case SuffixInc | SuffixDec => 1
    case UnarySub | UnaryAdd | Not | LogicalNot | PrefixInc | PrefixDec => 2
    case Mul | HiMul | Div | Mod => 3
    case Add | Sub => 4
    case Shl | Shr | Rol | Ror => 5
    case Smaller | SmallerEqual | Bigger | BiggerEqual => 6
    case Equal | NotEqual => 7
    case And => 8
    case Xor => 9
    case Or => 10
    case LogicalAnd => 11
    case LogicalOr | LogicalImpl => 12
    case Assign | AssignMul | AssignHiMul | AssignDiv | AssignMod | AssignAdd | AssignSub
      | AssignShl | AssignShr | AssignRol | AssignRor | AssignAnd | AssignXor | AssignOr => 14
  }

  function OperatorAssociativity(op: Operator): Associativity {
    match op
    case UnarySub | UnaryAdd | Not | LogicalNot | PrefixInc | PrefixDec
      | Assign | AssignMul | AssignHiMul | AssignDiv | AssignMod | AssignAdd | AssignSub
      | AssignShl | AssignShr | AssignRol | AssignRor | AssignAnd | AssignXor | AssignOr => RightToLeft
    case Mul | HiMul | Div | Mod | Add | Sub | Shl | Shr | Rol | Ror | And | Xor | Or
      | Equal | NotEqual | Bigger | Smaller | BiggerEqual | SmallerEqual
      | LogicalAnd | LogicalOr | LogicalImpl | SuffixInc | SuffixDec => LeftToRight
  }

  function Precedence(kind: TokenType): nat {
    if kind.Op? then OperatorPrecedence(kind.op) else 16
  }

  function Associates(kind: TokenType): Associativity {
    if kind.Op? then OperatorAssociativity(kind.op) else Unspecified
  }

  /** Whether an arriving token `o1` sends the stacked token `o2` to the output first.
      In the second case nothing asks `o2` to be an operator. */
  predicate Displaces(o1: TokenType, o2: TokenType) {
    || (o2.Op? && Associates(o1) == LeftToRight && Precedence(o1) >= Precedence(o2))
    || (Associates(o1) == RightToLeft && Precedence(o1) > Precedence(o2))
  }

  /** The two tables agree: an operator's precedence alone decides how it associates,
      and no operator reaches the precedence of the other tokens. */
  lemma PrecedenceDecides(op: Operator)
    ensures 1 <= OperatorPrecedence(op) <= 14
    ensures OperatorAssociativity(op) ==
      if OperatorPrecedence(op) == 2 || OperatorPrecedence(op) == 14 then RightToLeft else LeftToRight
    ensures IsSuffixOperator(op) <==> OperatorPrecedence(op) == 1
    ensures IsPrefixOperator(op) <==> OperatorPrecedence(op) == 2
  {
  }
}
