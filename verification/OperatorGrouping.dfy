/** How operators group, stated by what is written: the operators' texts in the order of their
    tightness, without the tables of the parser. */
module OperatorGrouping {
  import opened Options
  import opened ExpressionTokens
  import opened Tokenizer
  import opened ExpressionTrees
  import opened ShuntingYard

  /** The operators between two operands, the tightest first. */
  const TIERS: seq<set<string>> := [
    {"*", "`", "/", "%"},
    {"+", "-"},
    {"<<", ">>", "<<<", ">>>"},
    {"<", ">", "<=", ">="},
    {"==", "!="},
    {"&"},
    {"^"},
    {"|"},
    {"&&"},
    {"||", "->"},
    {"=", "*=", "`=", "/=", "%=", "+=", "-=", "<<=", ">>=", "<<<=", ">>>=", "&=", "^=", "|="}]

  const ASSIGNMENTS := 10

  /** The texts in front of an operand, and behind one. */
  const PREFIXES: set<string> := {"-", "+", "~", "!", "++", "--"}
  const SUFFIXES: set<string> := {"++", "--"}

  /** The token stands between two operands. */
  predicate Between(t: Token, tier: nat) {
    t.kind.Op? && IsInfixOperator(t.kind.op) && tier < |TIERS| && OperatorText(t.kind.op) in TIERS[tier]
  }

  predicate InFront(t: Token) {
    t.kind.Op? && IsPrefixOperator(t.kind.op)
  }

  predicate Behind(t: Token) {
    t.kind.Op? && IsSuffixOperator(t.kind.op)
  }

  /** An operand: a name, a number, a call or something in parentheses. */
  predicate Atom(e: Expr) {
    WellParenthesized(e) && (e.Leaf? || e.Group? || e.Call?)
  }

  function LevelOf(tier: nat): nat {
    if tier == ASSIGNMENTS then 14 else tier + 3
  }

  lemma TierLevel(op: Operator, tier: nat)
    requires IsInfixOperator(op) && tier < |TIERS| && OperatorText(op) in TIERS[tier]
    ensures OperatorPrecedence(op) == LevelOf(tier)
  {
    hide OperatorText, OperatorPrecedence;
    if tier == 0 {
      Products(op);
    } else if tier == 1 {
      Sums(op);
    } else if tier == 2 {
      Shifts(op);
    } else if tier == 3 {
      Orders(op);
    } else if tier < 8 {
      EqualitiesAndBits(op, tier);
    } else if tier < ASSIGNMENTS {
      Logic(op, tier);
    } else {
      Assigning(op);
    }
  }

  lemma Products(op: Operator)
    requires IsInfixOperator(op) && OperatorText(op) in TIERS[0]
    ensures OperatorPrecedence(op) == LevelOf(0)
  {
  }

  lemma Sums(op: Operator)
    requires IsInfixOperator(op) && OperatorText(op) in TIERS[1]
    ensures OperatorPrecedence(op) == LevelOf(1)
  {
  }

  lemma Shifts(op: Operator)
    requires IsInfixOperator(op) && OperatorText(op) in TIERS[2]
    ensures OperatorPrecedence(op) == LevelOf(2)
  {
  }

  lemma Orders(op: Operator)
    requires IsInfixOperator(op) && OperatorText(op) in TIERS[3]
    ensures OperatorPrecedence(op) == LevelOf(3)
  {
  }

  lemma EqualitiesAndBits(op: Operator, tier: nat)
    requires IsInfixOperator(op) && 4 <= tier < 8 && OperatorText(op) in TIERS[tier]
    ensures OperatorPrecedence(op) == LevelOf(tier)
  {
  }

  lemma Logic(op: Operator, tier: nat)
    requires IsInfixOperator(op) && 8 <= tier < ASSIGNMENTS && OperatorText(op) in TIERS[tier]
    ensures OperatorPrecedence(op) == LevelOf(tier)
  {
  }

  lemma Assigning(op: Operator)
    requires IsInfixOperator(op) && OperatorText(op) in TIERS[ASSIGNMENTS]
    ensures OperatorPrecedence(op) == LevelOf(ASSIGNMENTS)
  {
  }

  /** Every operator has its place: between two operands in exactly one tier, or in front of one, or behind one. */
  lemma EveryOperatorHasItsPlace(op: Operator)
    ensures
      var t := Token("", Op(op), 0);
      && ((exists tier :: Between(t, tier)) || InFront(t) || Behind(t))
      && (InFront(t) ==> OperatorText(op) in PREFIXES)
      && (Behind(t) ==> OperatorText(op) in SUFFIXES)
      && (forall i, j :: Between(t, i) && Between(t, j) ==> i == j)
  {
    hide OperatorText;
    var t := Token("", Op(op), 0);
    if IsInfixOperator(op) {
      TierIsThere(op);
      assert Between(t, TierOf(op));
      forall i, j | Between(t, i) && Between(t, j)
        ensures i == j
      {
        TierLevel(op, i);
        TierLevel(op, j);
      }
    } else {
      UnaryText(op);
    }
  }

  function TierOf(op: Operator): nat {
    match op
    case Mul | HiMul | Div | Mod => 0
    case Add | Sub => 1
    case Shl | Shr | Rol | Ror => 2
    case Smaller | SmallerEqual | Bigger | BiggerEqual => 3
    case Equal | NotEqual => 4
    case And => 5
    case Xor => 6
    case Or => 7
    case LogicalAnd => 8
    case LogicalOr | LogicalImpl => 9
    case _ => ASSIGNMENTS
  }

  lemma TierIsThere(op: Operator)
    requires IsInfixOperator(op)
    ensures TierOf(op) < |TIERS| && OperatorText(op) in TIERS[TierOf(op)]
  {
    hide OperatorText;
    if IsAssignment(op) {
      AssignmentText(op);
    } else {
      OtherText(op);
    }
  }

  lemma AssignmentText(op: Operator)
    requires IsAssignment(op)
    ensures TierOf(op) == ASSIGNMENTS && OperatorText(op) in TIERS[ASSIGNMENTS]
  {
  }

  lemma OtherText(op: Operator)
    requires IsInfixOperator(op) && !IsAssignment(op)
    ensures TierOf(op) < ASSIGNMENTS && OperatorText(op) in TIERS[TierOf(op)]
  {
  }

  lemma UnaryText(op: Operator)
    requires !IsInfixOperator(op)
    ensures IsPrefixOperator(op) ==> OperatorText(op) in PREFIXES
    ensures IsSuffixOperator(op) ==> OperatorText(op) in SUFFIXES
  {
  }

  // ----- two operators -----

  /** The operands of the first operator go to it if it is the tighter one, and `a op b op c` is read from
      the left, but for assignments from the right. */
  lemma InfixGroups(x: Expr, a: Token, y: Expr, b: Token, z: Expr, i: nat, j: nat)
    requires Atom(x) && Atom(y) && Atom(z) && Between(a, i) && Between(b, j)
    ensures Compiled(Flatten(x) + [a] + Flatten(y) + [b] + Flatten(z)) == Some(
      if i < j || (i == j && i != ASSIGNMENTS) then Postfix(x) + Postfix(y) + [a] + Postfix(z) + [b]
      else Postfix(x) + Postfix(y) + Postfix(z) + [b] + [a])
  {
    hide OperatorText, Flatten, Postfix, Compiled, WellParenthesized, Atom;
    TreeFits(x, a, y, b, z, i, j);
    if i < j || (i == j && i != ASSIGNMENTS) {
      LeftTree(x, a, y, b, z);
      CompiledIsPostfix(Infix(b, Infix(a, x, y), z));
    } else {
      RightTree(x, a, y, b, z);
      CompiledIsPostfix(Infix(a, x, Infix(b, y, z)));
    }
  }

  lemma TreeFits(x: Expr, a: Token, y: Expr, b: Token, z: Expr, i: nat, j: nat)
    requires Atom(x) && Atom(y) && Atom(z) && Between(a, i) && Between(b, j)
    ensures i < j || (i == j && i != ASSIGNMENTS) ==> WellParenthesized(Infix(b, Infix(a, x, y), z))
    ensures i > j || (i == j && i == ASSIGNMENTS) ==> WellParenthesized(Infix(a, x, Infix(b, y, z)))
  {
    hide OperatorText, OperatorPrecedence, IsPrefixOperator, IsSuffixOperator;
    TierLevel(a.kind.op, i);
    TierLevel(b.kind.op, j);
    PrecedenceDecides(a.kind.op);
    PrecedenceDecides(b.kind.op);
  }

  lemma LeftTree(x: Expr, a: Token, y: Expr, b: Token, z: Expr)
    ensures var e := Infix(b, Infix(a, x, y), z);
      && Flatten(e) == Flatten(x) + [a] + Flatten(y) + [b] + Flatten(z)
      && Postfix(e) == Postfix(x) + Postfix(y) + [a] + Postfix(z) + [b]
  {
  }

  lemma RightTree(x: Expr, a: Token, y: Expr, b: Token, z: Expr)
    ensures var e := Infix(a, x, Infix(b, y, z));
      && Flatten(e) == Flatten(x) + [a] + Flatten(y) + [b] + Flatten(z)
      && Postfix(e) == Postfix(x) + Postfix(y) + Postfix(z) + [b] + [a]
  {
    var inner := Infix(b, y, z);
    assert Flatten(inner) == Flatten(y) + [b] + Flatten(z) && Postfix(inner) == Postfix(y) + Postfix(z) + [b];
    assert Flatten(Infix(a, x, inner)) == Flatten(x) + [a] + Flatten(inner);
    assert Postfix(Infix(a, x, inner)) == Postfix(x) + Postfix(inner) + [a];
    hide Flatten, Postfix;
    Regroup(Flatten(x) + [a], Flatten(y), [b], Flatten(z));
    Regroup(Postfix(x), Postfix(y), Postfix(z), [b]);
  }

  lemma Regroup(v: seq<Token>, w: seq<Token>, x: seq<Token>, y: seq<Token>)
    ensures v + (w + x + y) == v + w + x + y
  {
  }

  /** An operator in front of an operand is tighter than any between two, on either side of it. */
  lemma PrefixGroups(p: Token, x: Expr, a: Token, y: Expr, i: nat)
    requires Atom(x) && Atom(y) && Between(a, i) && InFront(p)
    ensures Compiled([p] + Flatten(x) + [a] + Flatten(y)) == Some(Postfix(x) + [p] + Postfix(y) + [a])
    ensures Compiled(Flatten(x) + [a] + [p] + Flatten(y)) == Some(Postfix(x) + Postfix(y) + [p] + [a])
  {
    hide OperatorText, Compiled, OperatorPrecedence, IsPrefixOperator, IsSuffixOperator;
    TierLevel(a.kind.op, i);
    PrecedenceDecides(a.kind.op);
    PrecedenceDecides(p.kind.op);
    CompiledIsPostfix(Infix(a, Prefix(p, x), y));
    CompiledIsPostfix(Infix(a, x, Prefix(p, y)));
    assert Flatten(x) + [a] + ([p] + Flatten(y)) == Flatten(x) + [a] + [p] + Flatten(y);
    assert Postfix(x) + (Postfix(y) + [p]) + [a] == Postfix(x) + Postfix(y) + [p] + [a];
  }

  /** An operator behind an operand is tighter than any other. */
  lemma SuffixGroups(x: Expr, a: Token, y: Expr, s: Token, i: nat)
    requires Atom(x) && Atom(y) && Between(a, i) && Behind(s)
    ensures Compiled(Flatten(x) + [a] + Flatten(y) + [s]) == Some(Postfix(x) + Postfix(y) + [s] + [a])
    ensures Compiled(Flatten(x) + [s] + [a] + Flatten(y)) == Some(Postfix(x) + [s] + Postfix(y) + [a])
  {
    hide OperatorText, Compiled, OperatorPrecedence, IsPrefixOperator, IsSuffixOperator;
    TierLevel(a.kind.op, i);
    PrecedenceDecides(a.kind.op);
    PrecedenceDecides(s.kind.op);
    CompiledIsPostfix(Infix(a, x, Suffix(s, y)));
    CompiledIsPostfix(Infix(a, Suffix(s, x), y));
    assert Flatten(x) + [a] + (Flatten(y) + [s]) == Flatten(x) + [a] + Flatten(y) + [s];
    assert Postfix(x) + (Postfix(y) + [s]) + [a] == Postfix(x) + Postfix(y) + [s] + [a];
  }

  lemma SuffixBeforePrefix(p: Token, x: Expr, s: Token)
    requires Atom(x) && InFront(p) && Behind(s)
    ensures Compiled([p] + Flatten(x) + [s]) == Some(Postfix(x) + [s] + [p])
  {
    hide OperatorText, Compiled, OperatorPrecedence, IsPrefixOperator, IsSuffixOperator;
    PrecedenceDecides(p.kind.op);
    PrecedenceDecides(s.kind.op);
    CompiledIsPostfix(Prefix(p, Suffix(s, x)));
    assert [p] + (Flatten(x) + [s]) == [p] + Flatten(x) + [s];
  }

  /** Operators in front of an operand are applied from the inside out. */
  lemma PrefixesNest(p: Token, q: Token, x: Expr)
    requires Atom(x) && InFront(p) && InFront(q)
    ensures Compiled([p] + [q] + Flatten(x)) == Some(Postfix(x) + [q] + [p])
  {
    hide OperatorText, Compiled, OperatorPrecedence, IsPrefixOperator, IsSuffixOperator;
    PrecedenceDecides(p.kind.op);
    PrecedenceDecides(q.kind.op);
    CompiledIsPostfix(Prefix(p, Prefix(q, x)));
    assert [p] + ([q] + Flatten(x)) == [p] + [q] + Flatten(x);
  }
}
