/** Compound assignments and steps mean what they abbreviate. */
module AssignmentLaws {
  import opened Options
  import opened ExpressionTokens
  import opened Words
  import opened MachineWords
  import opened ExpressionTrees
  import opened ExpressionEval
  import Tokenizer

  /** A compound assignment is written as its operator and an equal sign. */
  lemma CompoundSpelling(op: Operator)
    requires IsAssignment(op) && op != Assign
    ensures AssignmentOperator(op).Some?
    ensures Tokenizer.OperatorText(op) == Tokenizer.OperatorText(AssignmentOperator(op).value) + "="
    ensures !IsAssignment(AssignmentOperator(op).value) && !IsStep(AssignmentOperator(op).value)
  {
  }

  lemma CompoundOperation<S>(op: Operator, op1: EvalValue, op2: EvalValue, mode: Mode, env: Env<S>, state: S)
    requires IsAssignment(op) && op != Assign
    ensures AssignmentOperator(op).Some?
    ensures EvalOperation(op, op1, op2, mode, env, state) ==
      match EvalOperation(AssignmentOperator(op).value, op1, op2, mode, env, state)
      case Failed(s) => Failed(s)
      case Done(v, s) => EvalOperation(Assign, op1, v, mode, env, s)
  {
    hide Arithmetic, AssignmentOperator, IsAssignment, IsStep;
    CompoundSpelling(op);
    PlainAssign();
  }

  lemma PlainAssign()
    ensures IsAssignment(Assign) && AssignmentOperator(Assign).None?
  {
  }

  /** `x op= e` has the value, the effects and the failures of `x = x op (e)`, whatever `e` does. */
  lemma CompoundAssignment<S>(x: Token, op: Token, e: Expr, assign: Token, plain: Token, mode: Mode, env: Env<S>, state: S)
    requires op.kind.Op? && IsAssignment(op.kind.op) && op.kind.op != Assign
    requires assign.kind == Op(Assign) && AssignmentOperator(op.kind.op).Some? && plain.kind == Op(AssignmentOperator(op.kind.op).value)
    ensures Eval(Infix(op, Leaf(x), e), mode, env, state)
         == Eval(Infix(assign, Leaf(x), Infix(plain, Leaf(x), e)), mode, env, state)
  {
    hide Eval, EvalOperation, AssignmentOperator;
    EvalInfixLeaf(op, x, e, mode, env, state);
    EvalInfixLeaf(plain, x, e, mode, env, state);
    EvalInfixLeaf(assign, x, Infix(plain, Leaf(x), e), mode, env, state);
    match Eval(e, mode, env, state)
    case Failed(_) =>
    case Done(v, s) => CompoundOperation(op.kind.op, LeafValue(x), v, mode, env, s);
  }

  lemma EvalLeaf<S>(x: Token, mode: Mode, env: Env<S>, state: S)
    ensures Eval(Leaf(x), mode, env, state) == Done(LeafValue(x), state)
  {
    hide LeafValue;
  }

  lemma EvalInfixLeaf<S>(op: Token, x: Token, e: Expr, mode: Mode, env: Env<S>, state: S)
    requires op.kind.Op?
    ensures Eval(Infix(op, Leaf(x), e), mode, env, state) ==
      match Eval(e, mode, env, state)
      case Failed(s) => Failed(s)
      case Done(v, s) => EvalOperation(op.kind.op, LeafValue(x), v, mode, env, s)
  {
    hide EvalOperation, LeafValue;
    EvalLeaf(x, mode, env, state);
  }

  lemma EvalStepLeaf<S>(op: Token, x: Token, mode: Mode, env: Env<S>, state: S)
    requires op.kind.Op?
    ensures Eval(Prefix(op, Leaf(x)), mode, env, state) == EvalOperation(op.kind.op, LeafValue(x), Number(0), mode, env, state)
    ensures Eval(Suffix(op, Leaf(x)), mode, env, state) == EvalOperation(op.kind.op, LeafValue(x), Number(0), mode, env, state)
  {
    hide EvalOperation, LeafValue;
    EvalLeaf(x, mode, env, state);
  }

  lemma AddOne(a: Word, signed: bool)
    ensures WordOperation(Add, a, 1, signed) == Some(Wrap(a + 1))
    ensures WordOperation(Sub, a, 1, signed) == Some(Wrap(a - 1))
  {
    hide Wrap, Narrow;
    SignednessIsIrrelevant(Add, a, 1);
    SignednessIsIrrelevant(Sub, a, 1);
    WrapNarrow(a + 1, false);
    WrapNarrow(a - 1, false);
  }

  lemma AddingOne<S>(op: Operator, v: EvalValue, mode: Mode, env: Env<S>, state: S)
    requires (op == Add || op == Sub) && !v.isString
    ensures EvalOperation(op, v, Number(1), mode, env, state) ==
      match DoEvaluate(v, env, state)
      case None => Failed(state)
      case Some(n) => Done(Number(Wrap(n + if op == Add then 1 else -1)), state)
  {
    hide WordOperation, Wrap;
    var n := DoEvaluate(v, env, state);
    if n.Some? {
      AddOne(n.value, mode.signed);
    }
  }

  lemma AssignOperation<S>(v: EvalValue, right: EvalValue, mode: Mode, env: Env<S>, state: S)
    ensures EvalOperation(Assign, v, right, mode, env, state) ==
      var n := DoEvaluate(right, env, state);
      if v.evaluated || n.None? then Failed(state) else HandleAssignment(v.data, n.value, n.value, mode, env, state)
  {
    hide HandleAssignment, Arithmetic;
  }

  lemma StepOperation<S>(op: Operator, v: EvalValue, mode: Mode, env: Env<S>, state: S)
    requires IsStep(op)
    ensures EvalOperation(op, v, Number(0), mode, env, state) ==
      var n := DoEvaluate(v, env, state);
      if v.evaluated || n.None? then Failed(state)
      else
        var after := Wrap(n.value + if op == PrefixInc || op == SuffixInc then 1 else -1);
        HandleAssignment(v.data, after, if op == SuffixInc || op == SuffixDec then n.value else after, mode, env, state)
  {
    hide HandleAssignment, Arithmetic, Wrap;
  }

  /** A prefix step on an unquoted name has the outcome of assigning the name plus or minus one. */
  lemma PrefixStep<S>(x: Token, step: Token, assign: Token, plain: Token, one: Token, mode: Mode, env: Env<S>, state: S)
    requires x.kind == Data && (step.kind == Op(PrefixInc) || step.kind == Op(PrefixDec))
    requires assign.kind == Op(Assign) && one.kind == NumericLiteral && one.info == 1
    requires plain.kind == Op(if step.kind == Op(PrefixInc) then Add else Sub)
    ensures Eval(Prefix(step, Leaf(x)), mode, env, state)
         == Eval(Infix(assign, Leaf(x), Infix(plain, Leaf(x), Leaf(one))), mode, env, state)
  {
    hide Eval, EvalOperation, Wrap, HandleAssignment;
    var v := LeafValue(x);
    WrapIsStable(1);
    EvalLeaf(one, mode, env, state);
    EvalStepLeaf(step, x, mode, env, state);
    EvalInfixLeaf(plain, x, Leaf(one), mode, env, state);
    EvalInfixLeaf(assign, x, Infix(plain, Leaf(x), Leaf(one)), mode, env, state);
    StepOperation(step.kind.op, v, mode, env, state);
    AddingOne(plain.kind.op, v, mode, env, state);
    var sum := EvalOperation(plain.kind.op, v, Number(1), mode, env, state);
    if sum.Done? {
      AssignOperation(v, sum.value, mode, env, state);
    }
  }

  lemma SameDestination<S>(variable: string, value: Word, r1: Word, r2: Word, mode: Mode, env: Env<S>, state: S)
    ensures var x, y := HandleAssignment(variable, value, r1, mode, env, state), HandleAssignment(variable, value, r2, mode, env, state);
      x.state == y.state && if x.Done? then y.Done? && x.value == Number(r1) && y.value == Number(r2) else y.Failed?
  {
    hide Assigned;
  }

  /** The two outcomes of a step: the same state, and the number after or before it. */
  ghost predicate StepPair<S>(after: Outcome<EvalValue, S>, before: Outcome<EvalValue, S>, v: EvalValue, up: bool,
                              env: Env<S>, state: S) {
    && after.state == before.state && (after.Done? <==> before.Done?)
    && (before.Done? ==>
         && env.resolve(v.data, state) == Some(before.value.value)
         && after.value.value == Wrap(before.value.value + if up then 1 else -1))
  }

  lemma StepsUp<S>(v: EvalValue, mode: Mode, env: Env<S>, state: S)
    ensures StepPair(EvalOperation(PrefixInc, v, Number(0), mode, env, state),
      EvalOperation(SuffixInc, v, Number(0), mode, env, state), v, true, env, state)
  {
    hide EvalOperation, Wrap, HandleAssignment;
    StepOperation(PrefixInc, v, mode, env, state);
    StepOperation(SuffixInc, v, mode, env, state);
    var n := DoEvaluate(v, env, state);
    if !v.evaluated && n.Some? {
      var number: int := n.value;
      SameDestination(v.data, Wrap(number + 1), Wrap(number + 1), n.value, mode, env, state);
    }
  }

  lemma StepsDown<S>(v: EvalValue, mode: Mode, env: Env<S>, state: S)
    ensures StepPair(EvalOperation(PrefixDec, v, Number(0), mode, env, state),
      EvalOperation(SuffixDec, v, Number(0), mode, env, state), v, false, env, state)
  {
    hide EvalOperation, Wrap, HandleAssignment;
    StepOperation(PrefixDec, v, mode, env, state);
    StepOperation(SuffixDec, v, mode, env, state);
    var n := DoEvaluate(v, env, state);
    if !v.evaluated && n.Some? {
      var number: int := n.value;
      SameDestination(v.data, Wrap(number + -1), Wrap(number + -1), n.value, mode, env, state);
    }
  }

  /** A suffix step leaves the state of the prefix step and gives the value from before it. */
  lemma SuffixStep<S>(x: Token, up: bool, suffix: Token, prefix: Token, mode: Mode, env: Env<S>, state: S)
    requires suffix.kind == Op(if up then SuffixInc else SuffixDec) && prefix.kind == Op(if up then PrefixInc else PrefixDec)
    ensures var after, before := Eval(Prefix(prefix, Leaf(x)), mode, env, state), Eval(Suffix(suffix, Leaf(x)), mode, env, state);
      StepPair(after, before, LeafValue(x), up, env, state)
  {
    hide Eval, EvalOperation, StepPair, LeafValue;
    EvalStepLeaf(prefix, x, mode, env, state);
    EvalStepLeaf(suffix, x, mode, env, state);
    if up {
      StepsUp(LeafValue(x), mode, env, state);
    } else {
      StepsDown(LeafValue(x), mode, env, state);
    }
  }

  /** Exactly when an assignment succeeds, and where the number goes: the right side has a number,
      assigning is allowed, the left side is a name, and either it is a variable that takes the number,
      or it is no value yet and becomes a new variable. A failed assignment keeps the effects of its
      right side only. */
  lemma AssignmentSucceedsIff<S>(x: Token, assign: Token, e: Expr, mode: Mode, env: Env<S>, state: S)
    requires assign.kind == Op(Assign)
    ensures var r, right := Eval(Infix(assign, Leaf(x), e), mode, env, state), Eval(e, mode, env, state);
      var n := if right.Done? then DoEvaluate(right.value, env, right.state) else None;
      var s := right.state;
      var stored := if n.Some? && env.isVariable(x.data, s) then env.setScalar(x.data, n.value, s) else None;
      && (r.Done? <==> n.Some? && mode.allowAssign && x.kind != NumericLiteral && (stored.Some? || !env.isValue(x.data, s)))
      && (if r.Done? then
            r.value == Number(n.value) && r.state == if stored.Some? then stored.value else env.newVariable(x.data, n.value, s)
          else r.state == s)
  {
    hide Eval, EvalOperation;
    var right := Eval(e, mode, env, state);
    EvalInfixLeaf(assign, x, e, mode, env, state);
    if right.Done? {
      AssignOperation(LeafValue(x), right.value, mode, env, right.state);
    }
  }
}
