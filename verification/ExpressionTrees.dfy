/** Expression trees, the token lists they are written as, and the theorem that the
    shunting-yard compiles every one of them to its postfix form. */
module ExpressionTrees {
  import opened Options
  import opened ExpressionTokens
  import opened ShuntingYard

  /** `Group` is an explicit pair of parentheses around an expression. */
  datatype Expr =
    | Leaf(token: Token)
    | Group(open: Token, body: Expr, close: Token)
    | Prefix(op: Token, arg: Expr)
    | Suffix(op: Token, arg: Expr)
    | Infix(op: Token, left: Expr, right: Expr)
    | Call(name: Token, open: Token, args: Args, close: Token)

  /** The arguments of a call; `comma` follows `first` exactly when `others` is not empty. */
  datatype Args = NoArgs | Arg(first: Expr, comma: Token, others: Args)

  function CountArgs(args: Args): nat {
    match args
    case NoArgs => 0
    case Arg(_, _, others) => 1 + CountArgs(others)
  }

  /** The tokens of a tree, in writing order. */
  function Flatten(e: Expr): seq<Token> {
    match e
    case Leaf(token) => [token]
    case Group(open, body, close) => [open] + Flatten(body) + [close]
    case Prefix(op, arg) => [op] + Flatten(arg)
    case Suffix(op, arg) => Flatten(arg) + [op]
    case Infix(op, left, right) => Flatten(left) + [op] + Flatten(right)
    case Call(name, open, args, close) => [name, open] + FlattenArgs(args) + [close]
  }

  function FlattenArgs(args: Args): seq<Token> {
    match args
    case NoArgs => []
    case Arg(first, comma, others) =>
      if others.NoArgs? then Flatten(first) else Flatten(first) + [comma] + FlattenArgs(others)
  }

  /** Operands before their operator, a function token carrying its argument count. */
  function Postfix(e: Expr): seq<Token> {
    match e
    case Leaf(token) => [token]
    case Group(_, body, _) => Postfix(body)
    case Prefix(op, arg) => Postfix(arg) + [op]
    case Suffix(op, arg) => Postfix(arg) + [op]
    case Infix(op, left, right) => Postfix(left) + Postfix(right) + [op]
    case Call(name, _, args, _) => PostfixArgs(args) + [name.(info := CountArgs(args))]
  }

  function PostfixArgs(args: Args): seq<Token> {
    match args
    case NoArgs => []
    case Arg(first, _, others) => Postfix(first) + PostfixArgs(others)
  }

  /** How loosely the tree's own operator binds; 0 for trees nothing can reach into. */
  function Level(e: Expr): nat {
    match e
    case Leaf(_) | Group(_, _, _) | Call(_, _, _, _) => 0
    case Prefix(op, _) => Precedence(op.kind)
    case Suffix(op, _) => Precedence(op.kind)
    case Infix(op, _, _) => Precedence(op.kind)
  }

  /** An operand of this level may stand on that side of the operator without parentheses. */
  predicate FitsLeft(level: nat, op: TokenType) {
    level < Precedence(op) || (level == Precedence(op) && Associates(op) == LeftToRight)
  }

  predicate FitsRight(level: nat, op: TokenType) {
    level < Precedence(op) || (level == Precedence(op) && Associates(op) == RightToLeft)
  }

  /** The tree has at least the parentheses that the operator tables require, and
      tokens of the right kind everywhere. */
  predicate WellParenthesized(e: Expr) {
    match e
    case Leaf(token) => IsOperand(token.kind)
    case Group(open, body, close) =>
      open.kind == OpenParen && close.kind == CloseParen && WellParenthesized(body)
    case Prefix(op, arg) =>
      op.kind.Op? && IsPrefixOperator(op.kind.op) && FitsRight(Level(arg), op.kind) && WellParenthesized(arg)
    case Suffix(op, arg) =>
      op.kind.Op? && IsSuffixOperator(op.kind.op) && FitsLeft(Level(arg), op.kind) && WellParenthesized(arg)
    case Infix(op, left, right) =>
      && op.kind.Op? && IsInfixOperator(op.kind.op)
      && FitsLeft(Level(left), op.kind) && WellParenthesized(left)
      && FitsRight(Level(right), op.kind) && WellParenthesized(right)
    case Call(name, open, args, close) =>
      && name.kind == Function && open.kind == OpenParen && close.kind == CloseParen
      && WellParenthesizedArgs(args)
  }

  predicate WellParenthesizedArgs(args: Args) {
    match args
    case NoArgs => true
    case Arg(first, comma, others) =>
      comma.kind == Comma && WellParenthesized(first) && WellParenthesizedArgs(others)
  }

  // ----- what the algorithm holds back: output produced and operators still stacked -----

  /** The part of the postfix form that is on the queue once the tree has been read. */
  function Emitted(e: Expr): seq<Token> {
    match e
    case Leaf(token) => [token]
    case Group(_, _, _) => Postfix(e)
    case Prefix(_, arg) => Emitted(arg)
    case Suffix(_, arg) => Postfix(arg)
    case Infix(_, left, right) => Postfix(left) + Emitted(right)
    case Call(_, _, _, _) => Postfix(e)
  }

  /** The operators the tree leaves on the stack, to be popped by whatever comes next. */
  function Pending(e: Expr): seq<Token> {
    match e
    case Leaf(_) | Group(_, _, _) | Call(_, _, _, _) => []
    case Prefix(op, arg) => [op] + Pending(arg)
    case Suffix(op, _) => [op]
    case Infix(op, _, right) => [op] + Pending(right)
  }

  function Reverse(s: seq<Token>): seq<Token> {
    if s == [] then [] else [Last(s)] + Reverse(Init(s))
  }

  lemma ReverseCons(t: Token, s: seq<Token>)
    ensures Reverse([t] + s) == Reverse(s) + [t]
  {
    if s == [] {
    } else {
      assert Init([t] + s) == [t] + Init(s);
      ReverseCons(t, Init(s));
    }
  }

  lemma {:induction false} EmittedThenPending(e: Expr)
    ensures Emitted(e) + Reverse(Pending(e)) == Postfix(e)
  {
    match e
    case Leaf(_) =>
    case Group(_, _, _) =>
    case Call(_, _, _, _) =>
    case Prefix(op, arg) =>
      EmittedThenPending(arg);
      ReverseCons(op, Pending(arg));
    case Suffix(op, arg) =>
      ReverseCons(op, []);
    case Infix(op, left, right) =>
      EmittedThenPending(right);
      ReverseCons(op, Pending(right));
  }

  /** Pending operators bind at least as tightly as the tree's own. */
  lemma {:induction false} PendingBound(e: Expr)
    requires WellParenthesized(e)
    ensures forall t :: t in Pending(e) ==> t.kind.Op? && Precedence(t.kind) <= Level(e)
  {
    hide Precedence, Associates, IsPrefixOperator, IsSuffixOperator;
    match e
    case Leaf(_) =>
    case Group(_, _, _) =>
    case Call(_, _, _, _) =>
    case Prefix(op, arg) => PendingBound(arg);
    case Suffix(op, arg) =>
    case Infix(op, left, right) => PendingBound(right);
  }

  predicate AllOperators(s: seq<Token>) {
    forall t :: t in s ==> t.kind.Op?
  }

  lemma CountAppended(stack: seq<Token>, ops: seq<Token>)
    requires AllOperators(ops)
    ensures CountFunctions(stack + ops) == CountFunctions(stack)
  {
    if ops == [] {
      assert stack + ops == stack;
    } else {
      assert Init(stack + ops) == stack + Init(ops);
      CountAppended(stack, Init(ops));
    }
  }

  /** Taking `ops` off a stack one by one delivers them reversed. */
  lemma UnstackOne(queue: seq<Token>, stack: seq<Token>, ops: seq<Token>)
    requires ops != []
    ensures stack + ops != [] && Last(stack + ops) == Last(ops) && Init(stack + ops) == stack + Init(ops)
    ensures queue + [Last(ops)] + Reverse(Init(ops)) == queue + Reverse(ops)
  {
  }

  /** An arriving operator displaces all of `ops` and nothing below. */
  lemma {:induction false} PopDisplacedAll(o1: TokenType, y: Yard, ops: seq<Token>)
    requires forall t :: t in ops ==> Displaces(o1, t.kind)
    requires y.stack != [] ==> !Displaces(o1, Last(y.stack).kind)
    ensures PopDisplaced(o1, y.(stack := y.stack + ops)) == y.(queue := y.queue + Reverse(ops))
    decreases |ops|
  {
    hide Displaces, CountFunctions;
    if ops == [] {
      assert y.stack + ops == y.stack && y.queue + Reverse(ops) == y.queue;
    } else {
      UnstackOne(y.queue, y.stack, ops);
      assert Last(ops) in ops;
      PopDisplacedAll(o1, y.(queue := y.queue + [Last(ops)]), Init(ops));
    }
  }

  lemma {:induction false} DrainAll(y: Yard, ops: seq<Token>)
    requires AllOperators(ops)
    requires y.stack != [] && Last(y.stack).kind == OpenParen
    ensures DrainToParen(y.(stack := y.stack + ops)) == Some(y.(queue := y.queue + Reverse(ops)))
    decreases |ops|
  {
    hide CountFunctions;
    if ops == [] {
      assert y.stack + ops == y.stack && y.queue + Reverse(ops) == y.queue;
    } else {
      UnstackOne(y.queue, y.stack, ops);
      assert Last(ops) in ops;
      DrainAll(y.(queue := y.queue + [Last(ops)]), Init(ops));
    }
  }

  lemma {:induction false} FinishAll(queue: seq<Token>, ops: seq<Token>)
    requires AllOperators(ops)
    ensures Finish(queue, ops) == Some(queue + Reverse(ops))
    decreases |ops|
  {
    if ops == [] {
      assert queue + Reverse(ops) == queue;
    } else {
      UnstackOne(queue, [], ops);
      assert Last(ops) in ops;
      FinishAll(queue + [Last(ops)], Init(ops));
    }
  }

  // ----- the simulation -----

  /** The top of the stack stays put while an operand of this level is read. */
  predicate Holds(stack: seq<Token>, level: nat) {
    stack != [] ==>
      var top := Last(stack).kind;
      top == OpenParen || (top.Op? && FitsRight(level, top))
  }

  function After(e: Expr, y: Yard): Yard {
    Yard(y.queue + Emitted(e), y.stack + Pending(e), y.argCount)
  }

  lemma {:induction false} RunStep(t: Token, rest: seq<Token>, y: Yard)
    requires Counted(y)
    ensures Run([t] + rest, y) ==
      var next := Step([t] + rest, y);
      if next.None? then None else Run(rest, next.value)
  {
    hide Step, CountFunctions;
    assert ([t] + rest)[1..] == rest;
  }

  /** An arriving operator displaces `ops` from the stack and takes their place. */
  lemma {:induction false} RunOperator(op: Token, rest: seq<Token>, y: Yard, ops: seq<Token>)
    requires op.kind.Op? && Counted(y) && AllOperators(ops)
    requires forall t :: t in ops ==> Displaces(op.kind, t.kind)
    requires y.stack != [] ==> !Displaces(op.kind, Last(y.stack).kind)
    ensures Counted(y.(stack := y.stack + ops))
    ensures Counted(Yard(y.queue + Reverse(ops), y.stack + [op], y.argCount))
    ensures Run([op] + rest, y.(stack := y.stack + ops))
         == Run(rest, Yard(y.queue + Reverse(ops), y.stack + [op], y.argCount))
  {
    hide Displaces, PopDisplaced, Run, CountFunctions, Reverse;
    CountAppended(y.stack, ops);
    CountAppended(y.stack, [op]);
    PopDisplacedAll(op.kind, y, ops);
    RunStep(op, rest, y.(stack := y.stack + ops));
  }

  lemma {:induction false} RunOpen(open: Token, rest: seq<Token>, y: Yard)
    requires open.kind == OpenParen && Counted(y)
    ensures Counted(y.(stack := y.stack + [open]))
    ensures Run([open] + rest, y) == Run(rest, y.(stack := y.stack + [open]))
  {
    hide Run, CountFunctions;
    RunStep(open, rest, y);
    assert Push(open, y) == y.(stack := y.stack + [open]);
  }

  lemma {:induction false} RunComma(comma: Token, rest: seq<Token>, y: Yard, ops: seq<Token>)
    requires comma.kind == Comma && Counted(y) && AllOperators(ops) && y.argCount != []
    requires y.stack != [] && Last(y.stack).kind == OpenParen
    ensures Counted(y.(stack := y.stack + ops))
    ensures Run([comma] + rest, y.(stack := y.stack + ops))
         == Run(rest, Yard(y.queue + Reverse(ops), y.stack, Bump(y.argCount)))
  {
    hide Run, DrainToParen, CountFunctions, Reverse;
    CountAppended(y.stack, ops);
    DrainAll(y, ops);
    RunStep(comma, rest, y.(stack := y.stack + ops));
  }

  lemma {:induction false} RunClose(close: Token, rest: seq<Token>, y: Yard, ops: seq<Token>)
    requires close.kind == CloseParen && Counted(y) && AllOperators(ops)
    requires y.stack != [] && Last(y.stack).kind == OpenParen
    ensures Counted(y.(stack := y.stack + ops))
    ensures Run([close] + rest, y.(stack := y.stack + ops))
         == Run(rest, CloseGroup(y.(queue := y.queue + Reverse(ops))))
  {
    hide Run, DrainToParen, CloseGroup, CountFunctions, Reverse;
    CountAppended(y.stack, ops);
    DrainAll(y, ops);
    RunStep(close, rest, y.(stack := y.stack + ops));
  }

  lemma StartsWithOperand(e: Expr)
    requires WellParenthesized(e)
    ensures Flatten(e) != [] && Flatten(e)[0].kind != CloseParen
  {
    hide Precedence, Associates, IsPrefixOperator;
    match e
    case Suffix(_, arg) => StartsWithOperand(arg);
    case Infix(_, left, _) => StartsWithOperand(left);
    case _ =>
  }

  /** Reading a tree emits `Emitted` and stacks `Pending`, whatever follows it. */
  lemma {:induction false} ReadTree(e: Expr, rest: seq<Token>, y: Yard)
    requires WellParenthesized(e) && Counted(y) && Holds(y.stack, Level(e))
    ensures Counted(After(e, y))
    ensures Run(Flatten(e) + rest, y) == Run(rest, After(e, y))
    decreases e, 1
  {
    hide Run, CountFunctions, FitsLeft, FitsRight, Precedence;
    match e
    case Leaf(token) =>
      RunStep(token, rest, y);
      assert y.stack + [] == y.stack;
    case Group(_, _, _) =>
      ReadGroup(e, rest, y);
      assert y.stack + [] == y.stack;
    case Call(_, _, _, _) =>
      ReadCall(e, rest, y);
      assert y.stack + [] == y.stack;
    case Prefix(_, _) => ReadPrefix(e, rest, y);
    case Suffix(op, arg) => ReadSuffix(e, rest, y);
    case Infix(op, left, right) => ReadInfix(e, rest, y);
  }

  lemma {:induction false} ReadPrefix(e: Expr, rest: seq<Token>, y: Yard)
    requires e.Prefix? && WellParenthesized(e) && Counted(y) && Holds(y.stack, Level(e))
    ensures Counted(After(e, y))
    ensures Run(Flatten(e) + rest, y) == Run(rest, After(e, y))
    decreases e, 0
  {
    hide Run, CountFunctions, Precedence, Associates, Displaces, Flatten, Emitted, Pending;
    var Prefix(op, arg) := e;
    PrefixParts(e, rest, y);
    NotDisplaced(op.kind, y.stack);
    RunOperator(op, Flatten(arg) + rest, y, []);
    assert y.queue + Reverse([]) == y.queue && y.stack + [] == y.stack;
    ReadTree(arg, rest, y.(stack := y.stack + [op]));
  }

  lemma {:induction false} PrefixParts(e: Expr, rest: seq<Token>, y: Yard)
    requires e.Prefix?
    ensures Flatten(e) + rest == [e.op] + (Flatten(e.arg) + rest)
    ensures After(e.arg, y.(stack := y.stack + [e.op])) == After(e, y)
  {
    assert y.stack + [e.op] + Pending(e.arg) == y.stack + Pending(e);
  }

  /** An operator that the top of the stack holds displaces nothing. */
  lemma NotDisplaced(op: TokenType, stack: seq<Token>)
    requires op.Op? && Holds(stack, Precedence(op))
    ensures stack != [] ==> !Displaces(op, Last(stack).kind)
  {
    hide OperatorPrecedence, OperatorAssociativity;
    PrecedenceDecides(op.op);
    if stack != [] && Last(stack).kind.Op? {
      PrecedenceDecides(Last(stack).kind.op);
    }
  }

  /** An operand that fits on the left of `op` is held wherever `op` itself is. */
  lemma NestedLevel(level: nat, op: TokenType, stack: seq<Token>)
    requires FitsLeft(level, op) && Holds(stack, Precedence(op))
    ensures Holds(stack, level)
  {
    hide Precedence, Associates;
  }

  lemma {:induction false} ReadSuffix(e: Expr, rest: seq<Token>, y: Yard)
    requires e.Suffix? && WellParenthesized(e) && Counted(y) && Holds(y.stack, Level(e))
    ensures Counted(After(e, y))
    ensures Run(Flatten(e) + rest, y) == Run(rest, After(e, y))
    decreases e, 0
  {
    hide Run, CountFunctions, Precedence, Associates;
    var Suffix(op, arg) := e;
    assert Flatten(e) + rest == Flatten(arg) + ([op] + rest);
    NestedLevel(Level(arg), op.kind, y.stack);
    ReadTree(arg, [op] + rest, y);
    ReadOperatorAfter(arg, op, rest, y);
  }

  lemma {:induction false} ReadInfix(e: Expr, rest: seq<Token>, y: Yard)
    requires e.Infix? && WellParenthesized(e) && Counted(y) && Holds(y.stack, Level(e))
    ensures Counted(After(e, y))
    ensures Run(Flatten(e) + rest, y) == Run(rest, After(e, y))
    decreases e, 0
  {
    hide Run, CountFunctions, Precedence, Associates, FitsLeft, Flatten, Emitted, Pending, Postfix;
    var Infix(op, left, right) := e;
    var rest' := Flatten(right) + rest;
    InfixParts(e, rest, y);
    NestedLevel(Level(left), op.kind, y.stack);
    ReadTree(left, [op] + rest', y);
    ReadOperatorAfter(left, op, rest', y);
    var z := Yard(y.queue + Postfix(left), y.stack + [op], y.argCount);
    ReadTree(right, rest, z);
  }

  lemma {:induction false} InfixParts(e: Expr, rest: seq<Token>, y: Yard)
    requires e.Infix?
    ensures Flatten(e) + rest == Flatten(e.left) + ([e.op] + (Flatten(e.right) + rest))
    ensures After(e.right, Yard(y.queue + Postfix(e.left), y.stack + [e.op], y.argCount)) == After(e, y)
  {
    assert y.stack + [e.op] + Pending(e.right) == y.stack + Pending(e);
    assert y.queue + Postfix(e.left) + Emitted(e.right) == y.queue + Emitted(e);
  }

  /** A suffix or infix operator completes its left operand and takes its place on the stack. */
  lemma {:induction false} ReadOperatorAfter(left: Expr, op: Token, rest: seq<Token>, y: Yard)
    requires WellParenthesized(left) && Counted(y) && Counted(After(left, y))
    requires op.kind.Op? && FitsLeft(Level(left), op.kind) && Holds(y.stack, Precedence(op.kind))
    ensures Counted(Yard(y.queue + Postfix(left), y.stack + [op], y.argCount))
    ensures Run([op] + rest, After(left, y)) == Run(rest, Yard(y.queue + Postfix(left), y.stack + [op], y.argCount))
  {
    hide Run, CountFunctions, WellParenthesized, Postfix, Emitted, Pending, Reverse, Precedence, Associates,
      Displaces, FitsLeft, Holds;
    LeftOperandDisplaced(left, op.kind);
    NotDisplaced(op.kind, y.stack);
    RunOperator(op, rest, y.(queue := y.queue + Emitted(left)), Pending(left));
    EmittedThenPending(left);
    assert y.queue + Emitted(left) + Reverse(Pending(left)) == y.queue + Postfix(left);
  }

  lemma {:induction false} LeftOperandDisplaced(left: Expr, op: TokenType)
    requires WellParenthesized(left) && op.Op? && FitsLeft(Level(left), op)
    ensures AllOperators(Pending(left))
    ensures forall t :: t in Pending(left) ==> Displaces(op, t.kind)
  {
    hide OperatorPrecedence, OperatorAssociativity;
    PendingBound(left);
    PrecedenceDecides(op.op);
    forall t | t in Pending(left)
      ensures Displaces(op, t.kind)
    {
      PrecedenceDecides(t.kind.op);
    }
  }

  lemma {:induction false} ReadGroup(e: Expr, rest: seq<Token>, y: Yard)
    requires e.Group? && WellParenthesized(e) && Counted(y) && Holds(y.stack, 0)
    ensures Run(Flatten(e) + rest, y) == Run(rest, y.(queue := y.queue + Postfix(e)))
    decreases e, 0
  {
    hide Run, CountFunctions, FitsRight;
    var Group(open, body, close) := e;
    var rest' := [close] + rest;
    assert Flatten(e) + rest == [open] + (Flatten(body) + rest');
    RunOpen(open, Flatten(body) + rest', y);
    var z := y.(stack := y.stack + [open]);
    ReadTree(body, rest', z);
    CloseAfter(body, close, rest, z);
    assert Init(z.stack) == y.stack;
    assert CloseGroup(z.(queue := z.queue + Postfix(body))) == y.(queue := y.queue + Postfix(e));
  }

  /** A closing parenthesis completes the expression in front of it. */
  lemma {:induction false} CloseAfter(e: Expr, close: Token, rest: seq<Token>, y: Yard)
    requires WellParenthesized(e) && close.kind == CloseParen
    requires Counted(y) && Counted(After(e, y)) && y.stack != [] && Last(y.stack).kind == OpenParen
    ensures Run([close] + rest, After(e, y)) == Run(rest, CloseGroup(y.(queue := y.queue + Postfix(e))))
  {
    hide Run, CountFunctions, WellParenthesized, Postfix, Emitted, Pending, Reverse, CloseGroup;
    PendingBound(e);
    RunClose(close, rest, y.(queue := y.queue + Emitted(e)), Pending(e));
    EmittedThenPending(e);
    assert y.queue + Emitted(e) + Reverse(Pending(e)) == y.queue + Postfix(e);
  }

  /** So does a comma inside a call. */
  lemma {:induction false} CommaAfter(e: Expr, comma: Token, rest: seq<Token>, y: Yard)
    requires WellParenthesized(e) && comma.kind == Comma && y.argCount != []
    requires Counted(y) && Counted(After(e, y)) && y.stack != [] && Last(y.stack).kind == OpenParen
    ensures Run([comma] + rest, After(e, y))
         == Run(rest, Yard(y.queue + Postfix(e), y.stack, Bump(y.argCount)))
  {
    hide Run, CountFunctions, WellParenthesized, Postfix, Emitted, Pending, Reverse;
    PendingBound(e);
    RunComma(comma, rest, y.(queue := y.queue + Emitted(e)), Pending(e));
    EmittedThenPending(e);
    assert y.queue + Emitted(e) + Reverse(Pending(e)) == y.queue + Postfix(e);
  }

  /** The state right after the opening parenthesis of a call: one argument counted, none before `()`. */
  function InCall(e: Expr, y: Yard): Yard
    requires e.Call?
  {
    Yard(y.queue, y.stack + [e.name, e.open], y.argCount + [if e.args.NoArgs? then 0 else 1])
  }

  lemma {:induction false} OpenCall(e: Expr, rest: seq<Token>, y: Yard)
    requires e.Call? && WellParenthesized(e) && Counted(y)
    ensures var z := InCall(e, y);
      && Counted(z)
      && Run(Flatten(e) + rest, y) == Run(FlattenArgs(e.args) + ([e.close] + rest), z)
  {
    hide Run, CountFunctions;
    var Call(name, open, args, close) := e;
    var rest' := FlattenArgs(args) + ([close] + rest);
    assert Flatten(e) + rest == [name] + ([open] + rest');
    RunStep(name, [open] + rest', y);
    if args.Arg? {
      StartsWithOperand(args.first);
    }
    assert Push(name, y).stack == y.stack + [name];
    RunOpen(open, rest', Yard(y.queue, y.stack + [name], y.argCount + [if args.NoArgs? then 0 else 1]));
    assert y.stack + [name] + [open] == y.stack + [name, open];
  }

  lemma {:induction false} ReadCall(e: Expr, rest: seq<Token>, y: Yard)
    requires e.Call? && WellParenthesized(e) && Counted(y)
    ensures Run(Flatten(e) + rest, y) == Run(rest, y.(queue := y.queue + Postfix(e)))
    decreases e, 0
  {
    hide Run, CountFunctions, Flatten, CloseGroup;
    var Call(name, open, args, close) := e;
    OpenCall(e, rest, y);
    var z := InCall(e, y);
    if args.NoArgs? {
      assert FlattenArgs(args) + ([close] + rest) == [close] + rest;
      RunClose(close, rest, z, []);
      assert z.stack + [] == z.stack && z.queue + Reverse([]) == z.queue + PostfixArgs(args);
    } else {
      ReadArgs(args, close, rest, z);
      assert z.argCount[|y.argCount| := CountArgs(args)] == y.argCount + [CountArgs(args)];
    }
    CloseCall(e, y);
  }

  /** Closing a call puts the function token, with its count, behind its arguments. */
  lemma {:induction false} CloseCall(e: Expr, y: Yard)
    requires e.Call? && WellParenthesized(e) && Counted(y)
    ensures var z := Yard(y.queue + PostfixArgs(e.args), y.stack + [e.name, e.open], y.argCount + [CountArgs(e.args)]);
      Counted(z) && CloseGroup(z) == y.(queue := y.queue + Postfix(e))
  {
    var z := Yard(y.queue + PostfixArgs(e.args), y.stack + [e.name, e.open], y.argCount + [CountArgs(e.args)]);
    assert Init(z.stack) == y.stack + [e.name];
    assert Init(Init(z.stack)) == y.stack;
    assert z.argCount[..|z.argCount| - 1] == y.argCount;
  }

  /** Reading the arguments of an open call adds one count a comma and ends by closing the call. */
  lemma {:induction false} ReadArgs(args: Args, close: Token, rest: seq<Token>, y: Yard)
    requires args.Arg? && WellParenthesizedArgs(args) && close.kind == CloseParen
    requires Counted(y) && y.stack != [] && Last(y.stack).kind == OpenParen && y.argCount != []
    ensures var n := |y.argCount| - 1;
      Run(FlattenArgs(args) + ([close] + rest), y) ==
      Run(rest, CloseGroup(Yard(y.queue + PostfixArgs(args), y.stack,
                                y.argCount[n := y.argCount[n] + CountArgs(args) - 1])))
    decreases args, 0
  {
    hide Run, CountFunctions, Flatten, CloseGroup, Emitted, Pending, Postfix, WellParenthesized;
    var Arg(first, comma, others) := args;
    var n := |y.argCount| - 1;
    if others.NoArgs? {
      ReadTree(first, [close] + rest, y);
      CloseAfter(first, close, rest, y);
      assert PostfixArgs(args) == Postfix(first);
      assert y.argCount[n := y.argCount[n]] == y.argCount;
    } else {
      var rest' := FlattenArgs(others) + ([close] + rest);
      assert FlattenArgs(args) + ([close] + rest) == Flatten(first) + ([comma] + rest');
      ReadTree(first, [comma] + rest', y);
      CommaAfter(first, comma, rest', y);
      var w := Yard(y.queue + Postfix(first), y.stack, Bump(y.argCount));
      ReadArgs(others, close, rest, w);
      assert w.queue + PostfixArgs(others) == y.queue + PostfixArgs(args);
      assert Bump(y.argCount)[n := y.argCount[n] + CountArgs(args) - 1]
          == y.argCount[n := y.argCount[n] + CountArgs(args) - 1];
    }
  }

  /** The compiler is correct: a tree written with enough parentheses compiles to its
      postfix form, every function token carrying its true argument count. */
  lemma CompiledIsPostfix(e: Expr)
    requires WellParenthesized(e)
    ensures Compiled(Flatten(e)) == Some(Postfix(e))
  {
    hide Run, WellParenthesized;
    var y := Yard([], [], []);
    assert Flatten(e) + [] == Flatten(e);
    ReadTree(e, [], y);
    RunDone(After(e, y));
    PendingBound(e);
    FinishAll(Emitted(e), Pending(e));
    EmittedThenPending(e);
    assert y.queue + Emitted(e) == Emitted(e) && y.stack + Pending(e) == Pending(e);
  }

  lemma RunDone(y: Yard)
    requires Counted(y)
    ensures Run([], y) == Finish(y.queue, y.stack)
  {
  }
}
