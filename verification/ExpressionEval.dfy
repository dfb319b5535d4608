/** The stack evaluator for compiled expressions, the meaning of an expression tree,
    and the theorem that compiling preserves that meaning. */
module ExpressionEval {
  import opened Options
  import opened ExpressionTokens
  import opened MachineWords
  import opened Words
  import ShuntingYard
  import opened ExpressionTrees

  /** A value on the evaluation stack. A name stays unevaluated until an operator,
      a function or the end of the calculation asks for its number. */
  datatype EvalValue = EvalValue(evaluated: bool, isString: bool, value: Word, data: string)

  function Number(value: Word): EvalValue {
    EvalValue(true, false, value, "")
  }

  function Text(data: string, isString: bool): EvalValue {
    EvalValue(false, isString, 0, data)
  }

  datatype ValueType = AnyNumber | AnyString | AnyValue | OptionalNumber | OptionalString | OptionalValue

  datatype Argument = NumberArg(number: Word) | StringArg(text: string)

  /** Everything outside the parser, over a program state of type S: what names resolve to, which names
      are variables, storing into an existing destination, which names are values that cannot become
      variables, creating a variable, and the expression functions. */
  datatype Env<!S> = Env(
    resolve: (string, S) -> Option<Word>,
    isVariable: (string, S) -> bool,
    setScalar: (string, Word, S) -> Option<S>,
    isValue: (string, S) -> bool,
    newVariable: (string, Word, S) -> S,
    signature: string -> Option<seq<ValueType>>,
    call: (string, seq<Argument>, S) -> Option<(Argument, S)>)

  datatype Mode = Mode(signed: bool, allowAssign: bool)

  /** Assignments that happened before a failure stay in `state`. */
  datatype Outcome<+V, +S> = Done(value: V, state: S) | Failed(state: S)

  function DoEvaluate<S>(v: EvalValue, env: Env<S>, state: S): Option<Word> {
    if v.evaluated then Some(v.value) else env.resolve(v.data, state)
  }

  /** The operator inside a compound assignment. */
  function AssignmentOperator(op: Operator): Option<Operator> {
    match op
    case AssignMul => Some(Mul)
    case AssignHiMul => Some(HiMul)
    case AssignDiv => Some(Div)
    case AssignMod => Some(Mod)
    case AssignAdd => Some(Add)
    case AssignSub => Some(Sub)
    case AssignShl => Some(Shl)
    case AssignShr => Some(Shr)
    case AssignRol => Some(Rol)
    case AssignRor => Some(Ror)
    case AssignAnd => Some(And)
    case AssignXor => Some(Xor)
    case AssignOr => Some(Or)
    case _ => None
  }

  function Arithmetic<S>(op: Operator, op1: EvalValue, op2: EvalValue, mode: Mode, env: Env<S>, state: S): Option<Word> {
    if op1.isString || op2.isString then None
    else
      var v1, v2 := DoEvaluate(op1, env, state), DoEvaluate(op2, env, state);
      if v1.None? || v2.None? then None else WordOperation(op, v1.value, v2.value, mode.signed)
  }

  /** An existing variable takes the number; failing that, a name that is not a value yet becomes one. */
  function Assigned<S>(variable: string, value: Word, env: Env<S>, state: S): Option<S> {
    var stored := if env.isVariable(variable, state) then env.setScalar(variable, value, state) else None;
    if stored.Some? then stored
    else if env.isValue(variable, state) then None
    else Some(env.newVariable(variable, value, state))
  }

  function HandleAssignment<S>(variable: string, value: Word, result: Word, mode: Mode, env: Env<S>, state: S)
    : Outcome<EvalValue, S>
  {
    var state' := if mode.allowAssign then Assigned(variable, value, env, state) else None;
    if state'.None? then Failed(state) else Done(Number(result), state'.value)
  }

  function EvalOperation<S>(op: Operator, op1: EvalValue, op2: EvalValue, mode: Mode, env: Env<S>, state: S)
    : Outcome<EvalValue, S>
  {
    if IsAssignment(op) then
      if op1.evaluated then Failed(state)
      else
        var base := AssignmentOperator(op);
        var value :=
          if base.Some? then Arithmetic(base.value, op1, op2, mode, env, state)
          else DoEvaluate(op2, env, state);
        if value.None? then Failed(state)
        else HandleAssignment(op1.data, value.value, value.value, mode, env, state)
    else if IsStep(op) then
      var before := DoEvaluate(op1, env, state);
      if op1.evaluated || before.None? then Failed(state)
      else
        var after := Wrap(before.value + (if op == PrefixInc || op == SuffixInc then 1 else -1));
        HandleAssignment(op1.data, after, if IsSuffixOperator(op) then before.value else after, mode, env, state)
    else
      var value := Arithmetic(op, op1, op2, mode, env, state);
      if value.None? then Failed(state) else Done(Number(value.value), state)
  }

  function CountRequired(types: seq<ValueType>): nat {
    if types == [] then 0
    else
      var optional := types[0].OptionalNumber? || types[0].OptionalString? || types[0].OptionalValue?;
      (if optional then 0 else 1) + CountRequired(types[1..])
  }

  predicate Accepts(t: ValueType, a: Argument) {
    match t
    case AnyNumber | OptionalNumber => a.NumberArg?
    case AnyString | OptionalString => a.StringArg?
    case AnyValue | OptionalValue => true
  }

  /** The number or string behind a stack value. */
  function Force<S>(v: EvalValue, env: Env<S>, state: S): Option<Argument> {
    if v.isString then Some(StringArg(v.data))
    else
      var n := DoEvaluate(v, env, state);
      if n.None? then None else Some(NumberArg(n.value))
  }

  /** The call's arguments, forced from left to right and checked against their types. */
  function ForceAll<S>(values: seq<EvalValue>, types: seq<ValueType>, env: Env<S>, state: S): (r: Option<seq<Argument>>)
    requires |values| <= |types|
  {
    if values == [] then Some([])
    else
      var a := Force(values[0], env, state);
      if a.None? || !Accepts(types[0], a.value) then None
      else
        var more := ForceAll(values[1..], types[1..], env, state);
        if more.None? then None else Some([a.value] + more.value)
  }

  function OfArgument(a: Argument): EvalValue {
    match a
    case NumberArg(n) => Number(n)
    case StringArg(s) => Text(s, true)
  }

  function CallFunction<S>(name: string, values: seq<EvalValue>, env: Env<S>, state: S): Outcome<EvalValue, S> {
    var types := env.signature(name);
    if types.None? || |values| < CountRequired(types.value) || |values| > |types.value| then Failed(state)
    else
      var arguments := ForceAll(values, types.value, env, state);
      if arguments.None? then Failed(state)
      else
        var result := env.call(name, arguments.value, state);
        if result.None? then Failed(state) else Done(OfArgument(result.value.0), result.value.1)
  }

  /** The effect of one postfix token on the stack. */
  function ExecToken<S>(token: Token, stack: seq<EvalValue>, mode: Mode, env: Env<S>, state: S)
    : Outcome<seq<EvalValue>, S>
  {
    if token.kind.Op? then
      var arity := if IsInfixOperator(token.kind.op) then 2 else 1;
      if |stack| < arity then Failed(state)
      else
        var op1 := stack[|stack| - arity];
        var op2 := if arity == 2 then stack[|stack| - 1] else Number(0);
        match EvalOperation(token.kind.op, op1, op2, mode, env, state)
        case Done(v, state') => Done(stack[..|stack| - arity] + [v], state')
        case Failed(state') => Failed(state')
    else if token.kind == Function then
      if |stack| < token.info then Failed(state)
      else
        var base := |stack| - token.info;
        match CallFunction(token.data, stack[base..], env, state)
        case Done(v, state') => Done(stack[..base] + [v], state')
        case Failed(state') => Failed(state')
    else
      Done(stack + [LeafValue(token)], state)
  }

  function LeafValue(token: Token): EvalValue {
    if token.kind == QuotedData then Text(token.data, true)
    else if token.kind == NumericLiteral then Number(Wrap(token.info))
    else Text(token.data, false)
  }

  function Exec<S>(program: seq<Token>, stack: seq<EvalValue>, mode: Mode, env: Env<S>, state: S)
    : Outcome<seq<EvalValue>, S>
  {
    if program == [] then Done(stack, state)
    else
      match ExecToken(program[0], stack, mode, env, state)
      case Done(stack', state') => Exec(program[1..], stack', mode, env, state')
      case Failed(state') => Failed(state')
  }

  /** The value of a whole program: exactly one entry must be left on the stack. */
  function Evaluated<S>(program: seq<Token>, valid: bool, mode: Mode, env: Env<S>, state: S): Outcome<EvalValue, S> {
    if program == [] || !valid then Failed(state)
    else
      match Exec(program, [], mode, env, state)
      case Done(stack, state') => if |stack| == 1 then Done(stack[0], state') else Failed(state')
      case Failed(state') => Failed(state')
  }

  /** The number of a value; strings have none. */
  function AsNumber<S>(v: Outcome<EvalValue, S>, env: Env<S>): Outcome<Word, S> {
    match v
    case Failed(state) => Failed(state)
    case Done(value, state) =>
      var n := if value.isString then None else DoEvaluate(value, env, state);
      if n.None? then Failed(state) else Done(n.value, state)
  }

  // ----- the program's two entry points -----

  method Calculate<S>(program: seq<Token>, valid: bool, mode: Mode, env: Env<S>, state0: S)
    returns (r: Outcome<EvalValue, S>)
    ensures r == Evaluated(program, valid, mode, env, state0)
  {
    hide ExecToken;
    if program == [] || !valid {
      return Failed(state0);
    }
    var stack, state := [], state0;
    for i := 0 to |program|
      invariant Exec(program[i..], stack, mode, env, state) == Exec(program, [], mode, env, state0)
    {
      assert program[i..][1..] == program[i + 1..];
      var next := ExecuteToken(program[i], stack, mode, env, state);
      if next.Failed? {
        return Failed(next.state);
      }
      stack, state := next.value, next.state;
    }
    if |stack| != 1 {
      return Failed(state);
    }
    r := Done(stack[0], state);
  }

  /** The body of the evaluation loop. */
  method ExecuteToken<S>(token: Token, stack0: seq<EvalValue>, mode: Mode, env: Env<S>, state: S)
    returns (r: Outcome<seq<EvalValue>, S>)
    ensures r == ExecToken(token, stack0, mode, env, state)
  {
    hide EvalOperation, CallFunction, IsInfixOperator;
    var stack := stack0;
    if token.kind.Op? {
      var op := token.kind.op;
      var op1, op2;
      if !IsInfixOperator(op) {
        if stack == [] {
          return Failed(state);
        }
        op1, op2 := stack[|stack| - 1], Number(0);
        stack := stack[..|stack| - 1];
      } else {
        if |stack| < 2 {
          return Failed(state);
        }
        op2 := stack[|stack| - 1];
        stack := stack[..|stack| - 1];
        op1 := stack[|stack| - 1];
        stack := stack[..|stack| - 1];
        assert stack == stack0[..|stack0| - 2];
      }
      var result := EvalOperation(op, op1, op2, mode, env, state);
      if result.Failed? {
        return Failed(result.state);
      }
      return Done(stack + [result.value], result.state);
    } else if token.kind == Function {
      var result := CallOnStack(token, stack, env, state);
      if result.Failed? {
        return Failed(result.state);
      }
      return Done(stack[..|stack| - token.info] + [result.value], result.state);
    } else if token.kind == QuotedData {
      stack := stack + [Text(token.data, true)];
    } else if token.kind == NumericLiteral {
      stack := stack + [Number(Wrap(token.info))];
    } else {
      stack := stack + [Text(token.data, false)];
    }
    r := Done(stack, state);
  }

  function Prepend(first: seq<Argument>, more: Option<seq<Argument>>): (r: Option<seq<Argument>>)
    ensures first == [] ==> r == more
    ensures more == Some([]) ==> r == Some(first)
  {
    assert first + [] == first;
    if more.None? then None
    else
      assert [] + more.value == more.value;
      Some(first + more.value)
  }

  lemma PrependOne(first: seq<Argument>, a: Argument, more: Option<seq<Argument>>)
    ensures Prepend(first + [a], more) == Prepend(first, if more.None? then None else Some([a] + more.value))
  {
    if more.Some? {
      assert first + [a] + more.value == first + ([a] + more.value);
    }
  }

  /** Checks the argument count, then forces and type-checks one argument at a time. */
  method CallOnStack<S>(token: Token, stack: seq<EvalValue>, env: Env<S>, state: S) returns (r: Outcome<EvalValue, S>)
    ensures |stack| < token.info ==> r == Failed(state)
    ensures |stack| >= token.info ==> r == CallFunction(token.data, stack[|stack| - token.info..], env, state)
  {
    var types := env.signature(token.data);
    if types.None? {
      return Failed(state);
    }
    var requiredArguments := 0;
    for j := 0 to |types.value|
      invariant requiredArguments + CountRequired(types.value[j..]) == CountRequired(types.value)
    {
      assert types.value[j..][1..] == types.value[j + 1..];
      if !types.value[j].OptionalNumber? && !types.value[j].OptionalString? && !types.value[j].OptionalValue? {
        requiredArguments := requiredArguments + 1;
      }
    }
    if token.info < requiredArguments || token.info > |types.value| || |stack| < token.info {
      return Failed(state);
    }
    ghost var values := stack[|stack| - token.info..];
    var argv := [];
    assert values[0..] == values && types.value[0..] == types.value;
    for i := 0 to token.info
      invariant ForceAll(values, types.value, env, state)
             == Prepend(argv, ForceAll(values[i..], types.value[i..], env, state))
    {
      assert values[i..][1..] == values[i + 1..] && types.value[i..][1..] == types.value[i + 1..];
      var value := Force(stack[|stack| - token.info + i], env, state);
      if value.None? || !Accepts(types.value[i], value.value) {
        return Failed(state);
      }
      PrependOne(argv, value.value, ForceAll(values[i + 1..], types.value[i + 1..], env, state));
      argv := argv + [value.value];
    }
    assert values[token.info..] == [];
    var result := env.call(token.data, argv, state);
    if result.None? {
      return Failed(state);
    }
    r := Done(OfArgument(result.value.0), result.value.1);
  }

  predicate IsLoneLiteral(tokens: seq<Token>) {
    |tokens| == 1 && tokens[0].kind == NumericLiteral
  }

  /** The number of an expression; a lone numeric literal skips the stack machine. */
  method CalculateNumber<S>(tokens: seq<Token>, program: seq<Token>, valid: bool, mode: Mode, env: Env<S>, state: S)
    returns (r: Outcome<Word, S>)
    requires var compiled := ShuntingYard.Compiled(tokens);
      if compiled.Some? then program == compiled.value else !valid && program == []
    ensures valid || !IsLoneLiteral(tokens) ==> r == AsNumber(Evaluated(program, valid, mode, env, state), env)
    ensures IsLoneLiteral(tokens) ==> r == Done(Wrap(tokens[0].info), state)
  {
    if IsLoneLiteral(tokens) {
      var leaf := Leaf(tokens[0]);
      assert tokens == Flatten(leaf);
      CompiledIsPostfix(leaf);
      ExecOne(tokens[0], [], mode, env, state);
      assert program == [tokens[0]];
      return Done(Wrap(tokens[0].info), state);
    }
    var value := Calculate(program, valid, mode, env, state);
    r := AsNumber(value, env);
  }

  // ----- the meaning of trees -----

  /** Operands first, left to right; names are looked up where they are consumed. */
  function Eval<S>(e: Expr, mode: Mode, env: Env<S>, state: S): Outcome<EvalValue, S> {
    match e
    case Leaf(token) => Done(LeafValue(token), state)
    case Group(_, body, _) => Eval(body, mode, env, state)
    case Prefix(op, arg) => EvalUnary(op, Eval(arg, mode, env, state), mode, env)
    case Suffix(op, arg) => EvalUnary(op, Eval(arg, mode, env, state), mode, env)
    case Infix(op, left, right) =>
      (match Eval(left, mode, env, state)
       case Failed(s1) => Failed(s1)
       case Done(v1, s1) =>
         match Eval(right, mode, env, s1)
         case Failed(s2) => Failed(s2)
         case Done(v2, s2) => if op.kind.Op? then EvalOperation(op.kind.op, v1, v2, mode, env, s2) else Failed(s2))
    case Call(name, _, args, _) =>
      match EvalArgs(args, mode, env, state)
      case Failed(s1) => Failed(s1)
      case Done(values, s1) => CallFunction(name.data, values, env, s1)
  }

  function EvalUnary<S>(op: Token, arg: Outcome<EvalValue, S>, mode: Mode, env: Env<S>): Outcome<EvalValue, S> {
    match arg
    case Failed(s) => Failed(s)
    case Done(v, s) => if op.kind.Op? then EvalOperation(op.kind.op, v, Number(0), mode, env, s) else Failed(s)
  }

  function EvalArgs<S>(args: Args, mode: Mode, env: Env<S>, state: S): (r: Outcome<seq<EvalValue>, S>)
    ensures r.Done? ==> |r.value| == CountArgs(args)
  {
    match args
    case NoArgs => Done([], state)
    case Arg(first, _, others) =>
      match Eval(first, mode, env, state)
      case Failed(s1) => Failed(s1)
      case Done(v, s1) =>
        match EvalArgs(others, mode, env, s1)
        case Failed(s2) => Failed(s2)
        case Done(values, s2) => Done([v] + values, s2)
  }

  // ----- compiling preserves meaning -----

  lemma {:induction false} ExecAppend<S>(p: seq<Token>, q: seq<Token>, stack: seq<EvalValue>, mode: Mode, env: Env<S>, state: S)
    ensures Exec(p + q, stack, mode, env, state) ==
      match Exec(p, stack, mode, env, state)
      case Done(stack', state') => Exec(q, stack', mode, env, state')
      case Failed(state') => Failed(state')
  {
    hide ExecToken;
    if p == [] {
      assert p + q == q;
    } else {
      assert (p + q)[1..] == p[1..] + q;
      var next := ExecToken(p[0], stack, mode, env, state);
      if next.Done? {
        ExecAppend(p[1..], q, next.value, mode, env, next.state);
      }
    }
  }

  /** What running a tree's program adds to any stack. */
  function Pushed<S>(r: Outcome<EvalValue, S>, stack: seq<EvalValue>): Outcome<seq<EvalValue>, S> {
    match r
    case Done(v, s) => Done(stack + [v], s)
    case Failed(s) => Failed(s)
  }

  function PushedAll<S>(r: Outcome<seq<EvalValue>, S>, stack: seq<EvalValue>): Outcome<seq<EvalValue>, S> {
    match r
    case Done(vs, s) => Done(stack + vs, s)
    case Failed(s) => Failed(s)
  }

  lemma ExecOne<S>(token: Token, stack: seq<EvalValue>, mode: Mode, env: Env<S>, state: S)
    ensures Exec([token], stack, mode, env, state) == ExecToken(token, stack, mode, env, state)
  {
    hide ExecToken;
    assert [token][1..] == [];
  }

  /** Running a tree's postfix form on any stack pushes the tree's value, or fails as the tree does. */
  lemma {:induction false} ExecTree<S>(e: Expr, stack: seq<EvalValue>, mode: Mode, env: Env<S>, state: S)
    requires WellParenthesized(e)
    ensures Exec(Postfix(e), stack, mode, env, state) == Pushed(Eval(e, mode, env, state), stack)
  {
    hide EvalOperation, CallFunction, FitsLeft, FitsRight, ExecToken, Exec;
    match e
    case Leaf(token) =>
      ExecOne(token, stack, mode, env, state);
      ExecLeaf(token, stack, mode, env, state);
    case Group(_, body, _) => ExecTree(body, stack, mode, env, state);
    case Prefix(op, arg) =>
      ExecTree(arg, stack, mode, env, state);
      ExecUnary(op, arg, stack, mode, env, state);
    case Suffix(op, arg) =>
      ExecTree(arg, stack, mode, env, state);
      ExecUnary(op, arg, stack, mode, env, state);
    case Infix(op, left, right) =>
      ExecTree(left, stack, mode, env, state);
      var r1 := Eval(left, mode, env, state);
      assert Postfix(e) == Postfix(left) + (Postfix(right) + [op]);
      ExecAppend(Postfix(left), Postfix(right) + [op], stack, mode, env, state);
      if r1.Done? {
        var stack1 := stack + [r1.value];
        ExecTree(right, stack1, mode, env, r1.state);
        ExecAppend(Postfix(right), [op], stack1, mode, env, r1.state);
        var r2 := Eval(right, mode, env, r1.state);
        if r2.Done? {
          ExecOne(op, stack1 + [r2.value], mode, env, r2.state);
          ExecInfixToken(op, r1.value, r2.value, stack, mode, env, r2.state);
        }
      }
    case Call(name, _, args, _) =>
      ExecArgs(args, stack, mode, env, state);
      var f := name.(info := CountArgs(args));
      ExecAppend(PostfixArgs(args), [f], stack, mode, env, state);
      var r := EvalArgs(args, mode, env, state);
      if r.Done? {
        ExecOne(f, stack + r.value, mode, env, r.state);
        ExecCallToken(f, r.value, stack, mode, env, r.state);
      }
  }

  lemma ExecLeaf<S>(token: Token, stack: seq<EvalValue>, mode: Mode, env: Env<S>, state: S)
    requires IsOperand(token.kind)
    ensures ExecToken(token, stack, mode, env, state) == Done(stack + [LeafValue(token)], state)
  {
  }

  lemma {:induction false} ExecUnary<S>(op: Token, arg: Expr, stack: seq<EvalValue>, mode: Mode, env: Env<S>, state: S)
    requires op.kind.Op? && !IsInfixOperator(op.kind.op)
    requires Exec(Postfix(arg), stack, mode, env, state) == Pushed(Eval(arg, mode, env, state), stack)
    ensures Exec(Postfix(arg) + [op], stack, mode, env, state)
         == Pushed(EvalUnary(op, Eval(arg, mode, env, state), mode, env), stack)
  {
    hide EvalOperation, IsInfixOperator, Exec, Eval, Postfix;
    var r := Eval(arg, mode, env, state);
    ExecAppend(Postfix(arg), [op], stack, mode, env, state);
    if r.Done? {
      ExecOne(op, stack + [r.value], mode, env, r.state);
      assert (stack + [r.value])[..|stack|] == stack;
    }
  }

  lemma ExecInfixToken<S>(op: Token, v1: EvalValue, v2: EvalValue, stack: seq<EvalValue>, mode: Mode, env: Env<S>, state: S)
    requires op.kind.Op? && IsInfixOperator(op.kind.op)
    ensures ExecToken(op, stack + [v1] + [v2], mode, env, state)
         == Pushed(EvalOperation(op.kind.op, v1, v2, mode, env, state), stack)
  {
    hide EvalOperation, IsInfixOperator;
    assert (stack + [v1] + [v2])[..|stack|] == stack;
  }

  lemma ExecCallToken<S>(f: Token, values: seq<EvalValue>, stack: seq<EvalValue>, mode: Mode, env: Env<S>, state: S)
    requires f.kind == Function && f.info == |values|
    ensures ExecToken(f, stack + values, mode, env, state) == Pushed(CallFunction(f.data, values, env, state), stack)
  {
    hide CallFunction;
    assert (stack + values)[..|stack|] == stack && (stack + values)[|stack|..] == values;
  }

  lemma {:induction false} ExecArgs<S>(args: Args, stack: seq<EvalValue>, mode: Mode, env: Env<S>, state: S)
    requires WellParenthesizedArgs(args)
    ensures Exec(PostfixArgs(args), stack, mode, env, state) == PushedAll(EvalArgs(args, mode, env, state), stack)
  {
    hide ExecToken;
    match args
    case NoArgs =>
      assert stack + [] == stack;
    case Arg(first, _, others) =>
      ExecTree(first, stack, mode, env, state);
      var r := Eval(first, mode, env, state);
      ExecAppend(Postfix(first), PostfixArgs(others), stack, mode, env, state);
      if r.Done? {
        ExecArgs(others, stack + [r.value], mode, env, r.state);
        var more := EvalArgs(others, mode, env, r.state);
        if more.Done? {
          assert stack + [r.value] + more.value == stack + ([r.value] + more.value);
        }
      }
  }

  /** From tokens to value: for every tree, with assignments, steps and effectful functions,
      compiling its tokens and running the program gives the tree's own outcome. */
  lemma CompilingPreservesMeaning<S>(e: Expr, mode: Mode, env: Env<S>, state: S)
    requires WellParenthesized(e)
    ensures ShuntingYard.Compiled(Flatten(e)).Some?
    ensures Evaluated(ShuntingYard.Compiled(Flatten(e)).value, true, mode, env, state) == Eval(e, mode, env, state)
  {
    hide WellParenthesized, Eval;
    CompiledIsPostfix(e);
    ExecTree(e, [], mode, env, state);
    PostfixNotEmpty(e);
  }

  lemma PostfixNotEmpty(e: Expr)
    ensures Postfix(e) != []
  {
  }

  /** Two trees that are written alike mean the same: the operator tables leave no ambiguity. */
  lemma NotationIsUnambiguous<S>(e1: Expr, e2: Expr, mode: Mode, env: Env<S>, state: S)
    requires WellParenthesized(e1) && WellParenthesized(e2) && Flatten(e1) == Flatten(e2)
    ensures Eval(e1, mode, env, state) == Eval(e2, mode, env, state)
  {
    hide Eval, WellParenthesized, Flatten;
    CompilingPreservesMeaning(e1, mode, env, state);
    CompilingPreservesMeaning(e2, mode, env, state);
  }

  // ----- side-effect-free trees -----

  predicate Pure(e: Expr) {
    match e
    case Leaf(_) => true
    case Group(_, body, _) => Pure(body)
    case Prefix(op, arg) => op.kind.Op? && !IsStep(op.kind.op) && !IsAssignment(op.kind.op) && Pure(arg)
    case Suffix(op, arg) => op.kind.Op? && !IsStep(op.kind.op) && !IsAssignment(op.kind.op) && Pure(arg)
    case Infix(op, left, right) =>
      op.kind.Op? && !IsStep(op.kind.op) && !IsAssignment(op.kind.op) && Pure(left) && Pure(right)
    case Call(_, _, args, _) => PureArgs(args)
  }

  predicate PureArgs(args: Args) {
    match args
    case NoArgs => true
    case Arg(first, _, others) => Pure(first) && PureArgs(others)
  }

  /** Calling an expression function leaves the program state alone. */
  ghost predicate PureCalls<S(!new)>(env: Env<S>) {
    forall name, arguments, state ::
      var r := env.call(name, arguments, state);
      r.Some? ==> r.value.1 == state
  }

  /** Ordinary recursive evaluation, every name looked up where it stands. */
  function Value<S>(e: Expr, mode: Mode, env: Env<S>, state: S): Option<Argument> {
    match e
    case Leaf(token) => Force(LeafValue(token), env, state)
    case Group(_, body, _) => Value(body, mode, env, state)
    case Prefix(op, arg) => Apply(op, Value(arg, mode, env, state), Some(NumberArg(0)), mode)
    case Suffix(op, arg) => Apply(op, Value(arg, mode, env, state), Some(NumberArg(0)), mode)
    case Infix(op, left, right) =>
      Apply(op, Value(left, mode, env, state), Value(right, mode, env, state), mode)
    case Call(name, _, args, _) => ApplyFunction(name.data, Values(args, mode, env, state), env, state)
  }

  function Values<S>(args: Args, mode: Mode, env: Env<S>, state: S): Option<seq<Argument>> {
    match args
    case NoArgs => Some([])
    case Arg(first, _, others) =>
      var v, vs := Value(first, mode, env, state), Values(others, mode, env, state);
      if v.None? || vs.None? then None else Some([v.value] + vs.value)
  }

  function Apply(op: Token, v1: Option<Argument>, v2: Option<Argument>, mode: Mode): Option<Argument> {
    match (v1, v2)
    case (Some(NumberArg(a)), Some(NumberArg(b))) =>
      var r := if op.kind.Op? then WordOperation(op.kind.op, a, b, mode.signed) else None;
      if r.None? then None else Some(NumberArg(r.value))
    case _ => None
  }

  predicate AcceptsAll(types: seq<ValueType>, arguments: seq<Argument>) {
    && CountRequired(types) <= |arguments| <= |types|
    && forall i :: 0 <= i < |arguments| ==> Accepts(types[i], arguments[i])
  }

  function ApplyFunction<S>(name: string, arguments: Option<seq<Argument>>, env: Env<S>, state: S): Option<Argument> {
    var types := env.signature(name);
    if arguments.None? || types.None? || !AcceptsAll(types.value, arguments.value) then None
    else
      var r := env.call(name, arguments.value, state);
      if r.None? then None else Some(r.value.0)
  }

  /** A lazy outcome that leaves the state alone and forces to `x`. */
  ghost predicate Forces<S>(r: Outcome<EvalValue, S>, x: Option<Argument>, env: Env<S>, state: S) {
    && r.state == state
    && x == if r.Done? then Force(r.value, env, state) else None
  }

  lemma {:induction false} LazyIsEager<S(!new)>(e: Expr, mode: Mode, env: Env<S>, state: S)
    requires Pure(e) && PureCalls(env)
    ensures Forces(Eval(e, mode, env, state), Value(e, mode, env, state), env, state)
  {
    hide EvalOperation, IsStep, IsAssignment, CallFunction, Apply, Force, PureCalls, ApplyFunction;
    match e
    case Leaf(token) =>
    case Group(_, body, _) => LazyIsEager(body, mode, env, state);
    case Prefix(op, arg) =>
      LazyIsEager(arg, mode, env, state);
      LazyUnary(op, Eval(arg, mode, env, state), Value(arg, mode, env, state), mode, env, state);
    case Suffix(op, arg) =>
      LazyIsEager(arg, mode, env, state);
      LazyUnary(op, Eval(arg, mode, env, state), Value(arg, mode, env, state), mode, env, state);
    case Infix(op, left, right) =>
      LazyIsEager(left, mode, env, state);
      LazyIsEager(right, mode, env, state);
      var r1 := Eval(left, mode, env, state);
      var r2 := Eval(right, mode, env, state);
      var x1, x2 := Value(left, mode, env, state), Value(right, mode, env, state);
      ApplyNothing(op, x1, x2, mode);
      if r1.Done? && r2.Done? {
        LazyOperation(op, r1.value, r2.value, mode, env, state);
      }
    case Call(name, _, args, _) =>
      LazyArgs(args, mode, env, state);
      LazyCall(name.data, EvalArgs(args, mode, env, state), Values(args, mode, env, state), env, state);
  }

  lemma ApplyNothing(op: Token, x1: Option<Argument>, x2: Option<Argument>, mode: Mode)
    ensures x1.None? || x2.None? ==> Apply(op, x1, x2, mode).None?
  {
  }

  lemma LazyUnary<S>(op: Token, r: Outcome<EvalValue, S>, x: Option<Argument>, mode: Mode, env: Env<S>, state: S)
    requires op.kind.Op? && !IsStep(op.kind.op) && !IsAssignment(op.kind.op)
    requires Forces(r, x, env, state)
    ensures Forces(EvalUnary(op, r, mode, env), Apply(op, x, Some(NumberArg(0)), mode), env, state)
  {
    hide EvalOperation, IsStep, IsAssignment, Apply, WordOperation;
    ApplyNothing(op, x, Some(NumberArg(0)), mode);
    if r.Done? {
      LazyOperation(op, r.value, Number(0), mode, env, state);
    }
  }

  lemma LazyOperation<S>(op: Token, v1: EvalValue, v2: EvalValue, mode: Mode, env: Env<S>, state: S)
    requires op.kind.Op? && !IsStep(op.kind.op) && !IsAssignment(op.kind.op)
    ensures Forces(EvalOperation(op.kind.op, v1, v2, mode, env, state),
                   Apply(op, Force(v1, env, state), Force(v2, env, state), mode), env, state)
  {
    hide IsStep, IsAssignment, WordOperation;
  }

  /** The arguments of a call: all forced, or one of them fails. */
  ghost predicate ForcesAll<S>(r: Outcome<seq<EvalValue>, S>, xs: Option<seq<Argument>>, env: Env<S>, state: S) {
    && r.state == state
    && xs == if r.Done? then ForceEach(r.value, env, state) else None
  }

  function ForceEach<S>(values: seq<EvalValue>, env: Env<S>, state: S): (r: Option<seq<Argument>>)
    ensures r.Some? ==> |r.value| == |values|
  {
    if values == [] then Some([])
    else
      var v, vs := Force(values[0], env, state), ForceEach(values[1..], env, state);
      if v.None? || vs.None? then None else Some([v.value] + vs.value)
  }

  lemma {:induction false} LazyArgs<S(!new)>(args: Args, mode: Mode, env: Env<S>, state: S)
    requires PureArgs(args) && PureCalls(env)
    ensures ForcesAll(EvalArgs(args, mode, env, state), Values(args, mode, env, state), env, state)
  {
    hide Force, PureCalls, Eval, Value, Pure;
    match args
    case NoArgs =>
    case Arg(first, _, others) =>
      LazyIsEager(first, mode, env, state);
      LazyArgs(others, mode, env, state);
      var r1, r2 := Eval(first, mode, env, state), EvalArgs(others, mode, env, state);
      if r1.Done? && r2.Done? {
        assert ([r1.value] + r2.value)[1..] == r2.value;
      }
  }

  predicate AllAccepted(types: seq<ValueType>, each: seq<Argument>)
    requires |each| <= |types|
  {
    forall i :: 0 <= i < |each| ==> Accepts(types[i], each[i])
  }

  lemma AcceptedCons(types: seq<ValueType>, first: Argument, more: seq<Argument>)
    requires |more| < |types|
    ensures AllAccepted(types, [first] + more) <==> Accepts(types[0], first) && AllAccepted(types[1..], more)
  {
    hide Accepts;
    var each := [first] + more;
    assert forall i :: 0 <= i < |more| ==> types[1..][i] == types[i + 1] && each[i + 1] == more[i];
  }

  lemma {:induction false} TypedForce<S>(values: seq<EvalValue>, types: seq<ValueType>, env: Env<S>, state: S)
    requires |values| <= |types|
    ensures var each := ForceEach(values, env, state);
      ForceAll(values, types, env, state) == if each.Some? && AllAccepted(types, each.value) then each else None
  {
    hide Accepts, Force, AllAccepted;
    if values != [] {
      TypedForce(values[1..], types[1..], env, state);
      var v, vs := Force(values[0], env, state), ForceEach(values[1..], env, state);
      if v.Some? && vs.Some? {
        AcceptedCons(types, v.value, vs.value);
      }
    } else {
      NothingToAccept(types);
    }
  }

  lemma NothingToAccept(types: seq<ValueType>)
    ensures AllAccepted(types, [])
  {
  }

  lemma LazyCall<S(!new)>(name: string, r: Outcome<seq<EvalValue>, S>, xs: Option<seq<Argument>>, env: Env<S>, state: S)
    requires PureCalls(env) && ForcesAll(r, xs, env, state)
    ensures Forces(match r
                   case Failed(s) => Failed(s)
                   case Done(values, s) => CallFunction(name, values, env, s),
                   ApplyFunction(name, xs, env, state), env, state)
  {
    hide Accepts, CountRequired;
    var types := env.signature(name);
    if r.Done? && types.Some? && |r.value| <= |types.value| {
      TypedForce(r.value, types.value, env, state);
      var each := ForceEach(r.value, env, state);
      if each.Some? && AcceptsAll(types.value, each.value) {
        var result := env.call(name, each.value, state);
        assert result.Some? ==> result.value.1 == state;
      }
    }
  }

  /** Without side effects the machine computes exactly the recursively evaluated number: it
      succeeds with that number, and fails precisely when the recursive evaluation fails or is a string. */
  lemma PureMeaning<S(!new)>(e: Expr, mode: Mode, env: Env<S>, state: S)
    requires WellParenthesized(e) && Pure(e) && PureCalls(env)
    ensures var compiled := ShuntingYard.Compiled(Flatten(e));
      && compiled.Some?
      && AsNumber(Evaluated(compiled.value, true, mode, env, state), env) ==
        match Value(e, mode, env, state)
        case Some(NumberArg(n)) => Done(n, state)
        case _ => Failed(state)
  {
    hide WellParenthesized, Eval, Value, Pure, PureCalls, Flatten;
    CompilingPreservesMeaning(e, mode, env, state);
    LazyIsEager(e, mode, env, state);
  }

  // ----- signedness -----

  predicate AgnosticOperator(op: Token) {
    op.kind.Op? &&
      if IsStep(op.kind.op) || op.kind.op == Assign then true
      else if IsAssignment(op.kind.op) then
        var base := AssignmentOperator(op.kind.op);
        base.Some? && SignAgnostic(base.value)
      else SignAgnostic(op.kind.op)
  }

  predicate AgnosticTree(e: Expr) {
    match e
    case Leaf(_) => true
    case Group(_, body, _) => AgnosticTree(body)
    case Prefix(op, arg) => AgnosticOperator(op) && AgnosticTree(arg)
    case Suffix(op, arg) => AgnosticOperator(op) && AgnosticTree(arg)
    case Infix(op, left, right) => AgnosticOperator(op) && AgnosticTree(left) && AgnosticTree(right)
    case Call(_, _, args, _) => AgnosticArgs(args)
  }

  predicate AgnosticArgs(args: Args) {
    match args
    case NoArgs => true
    case Arg(first, _, others) => AgnosticTree(first) && AgnosticArgs(others)
  }

  lemma AgnosticOperation<S>(op: Token, v1: EvalValue, v2: EvalValue, mode: Mode, env: Env<S>, state: S)
    requires AgnosticOperator(op)
    ensures EvalOperation(op.kind.op, v1, v2, mode.(signed := true), env, state)
         == EvalOperation(op.kind.op, v1, v2, mode.(signed := false), env, state)
  {
    hide WordOperation, SignAgnostic;
    if !v1.isString && !v2.isString {
      var n1, n2 := DoEvaluate(v1, env, state), DoEvaluate(v2, env, state);
      if n1.Some? && n2.Some? {
        var base := AssignmentOperator(op.kind.op);
        if base.Some? && SignAgnostic(base.value) {
          SignednessIsIrrelevant(base.value, n1.value, n2.value);
        }
        if SignAgnostic(op.kind.op) {
          SignednessIsIrrelevant(op.kind.op, n1.value, n2.value);
        }
      }
    }
  }

  /** An expression of sign-agnostic operators has the same outcome under signed and unsigned calculation. */
  lemma {:induction false} SignednessOfTree<S>(e: Expr, mode: Mode, env: Env<S>, state: S)
    requires AgnosticTree(e)
    ensures Eval(e, mode.(signed := true), env, state) == Eval(e, mode.(signed := false), env, state)
  {
    hide EvalOperation, CallFunction, AgnosticOperator;
    match e
    case Leaf(token) =>
    case Group(_, body, _) => SignednessOfTree(body, mode, env, state);
    case Prefix(op, arg) =>
      SignednessOfTree(arg, mode, env, state);
      SignednessOfUnary(op, Eval(arg, mode.(signed := true), env, state), mode, env);
    case Suffix(op, arg) =>
      SignednessOfTree(arg, mode, env, state);
      SignednessOfUnary(op, Eval(arg, mode.(signed := true), env, state), mode, env);
    case Infix(op, left, right) =>
      SignednessOfTree(left, mode, env, state);
      var r1 := Eval(left, mode.(signed := true), env, state);
      if r1.Done? {
        SignednessOfTree(right, mode, env, r1.state);
        var r2 := Eval(right, mode.(signed := true), env, r1.state);
        if r2.Done? {
          assert op.kind.Op? by { IsOperatorToken(op); }
          AgnosticOperation(op, r1.value, r2.value, mode, env, r2.state);
        }
      }
    case Call(_, _, args, _) => SignednessOfArgs(args, mode, env, state);
  }

  lemma IsOperatorToken(op: Token)
    requires AgnosticOperator(op)
    ensures op.kind.Op?
  {
  }

  lemma SignednessOfUnary<S>(op: Token, r: Outcome<EvalValue, S>, mode: Mode, env: Env<S>)
    requires AgnosticOperator(op)
    ensures EvalUnary(op, r, mode.(signed := true), env) == EvalUnary(op, r, mode.(signed := false), env)
  {
    hide EvalOperation;
    if r.Done? {
      AgnosticOperation(op, r.value, Number(0), mode, env, r.state);
    }
  }

  lemma {:induction false} SignednessOfArgs<S>(args: Args, mode: Mode, env: Env<S>, state: S)
    requires AgnosticArgs(args)
    ensures EvalArgs(args, mode.(signed := true), env, state) == EvalArgs(args, mode.(signed := false), env, state)
  {
    match args
    case NoArgs =>
    case Arg(first, _, others) =>
      SignednessOfTree(first, mode, env, state);
      var r := Eval(first, mode.(signed := true), env, state);
      if r.Done? {
        SignednessOfArgs(others, mode, env, r.state);
      }
  }
}
