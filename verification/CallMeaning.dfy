/** What literals, names and calls of expression functions mean. */
module CallMeaning {
  import opened Options
  import opened ExpressionTokens
  import opened Words
  import opened ExpressionTrees
  import opened ExpressionEval

  // ----- leaves -----

  /** A numeric literal is its number, a name what it resolves to, and a quoted text is no number. */
  lemma LeavesMean<S>(t: Token, mode: Mode, env: Env<S>, state: S)
    requires IsOperand(t.kind)
    ensures AsNumber(Eval(Leaf(t), mode, env, state), env) ==
      if t.kind == NumericLiteral then Done(t.info % 0x1_0000_0000_0000_0000, state)
      else if t.kind == Data && env.resolve(t.data, state).Some? then Done(env.resolve(t.data, state).value, state)
      else Failed(state)
  {
  }

  /** As an argument a quoted text is the text, everything else a number. */
  lemma LeavesAsArguments<S>(t: Token, env: Env<S>, state: S)
    requires IsOperand(t.kind)
    ensures Force(LeafValue(t), env, state) ==
      if t.kind == QuotedData then Some(StringArg(t.data))
      else if t.kind == NumericLiteral then Some(NumberArg(t.info % 0x1_0000_0000_0000_0000))
      else if env.resolve(t.data, state).Some? then Some(NumberArg(env.resolve(t.data, state).value))
      else None
  {
  }

  /** An expression that was found invalid fails, and so does a program that leaves more or less than one value. */
  lemma NoValueWithoutSense<S>(program: seq<Token>, valid: bool, mode: Mode, env: Env<S>, state: S)
    ensures !valid ==> Evaluated(program, valid, mode, env, state) == Failed(state)
    ensures Evaluated([], valid, mode, env, state) == Failed(state)
    ensures var r := Exec(program, [], mode, env, state);
      r.Done? && |r.value| != 1 ==> Evaluated(program, valid, mode, env, state).Failed?
  {
    hide Exec;
  }

  /** Neither an operator nor a call takes more from the stack than there is. */
  lemma OperandsMustBeThere<S>(t: Token, stack: seq<EvalValue>, mode: Mode, env: Env<S>, state: S)
    requires
      || (t.kind.Op? && |stack| < if IsPrefixOperator(t.kind.op) || IsSuffixOperator(t.kind.op) then 1 else 2)
      || (t.kind == Function && |stack| < t.info)
    ensures ExecToken(t, stack, mode, env, state) == Failed(state)
  {
    hide EvalOperation, CallFunction;
  }

  // ----- calls -----

  predicate MayBeMissing(t: ValueType) {
    t == OptionalNumber || t == OptionalString || t == OptionalValue
  }

  predicate TakesNumbers(t: ValueType) {
    t != AnyString && t != OptionalString
  }

  predicate TakesTexts(t: ValueType) {
    t != AnyNumber && t != OptionalNumber
  }

  /** The places whose argument must be there. */
  function Needed(types: seq<ValueType>): set<nat> {
    set i: nat | i < |types| && !MayBeMissing(types[i])
  }

  lemma {:induction false} RequiredIsNeeded(types: seq<ValueType>)
    ensures CountRequired(types) == |Needed(types)|
  {
    if types != [] {
      var more := Needed(types[1..]);
      var moved := set i | i in more :: i + 1;
      RequiredIsNeeded(types[1..]);
      SameSize(more, moved);
      NeededFirst(types, moved);
    }
  }

  lemma NeededFirst(types: seq<ValueType>, moved: set<nat>)
    requires types != [] && moved == set i | i in Needed(types[1..]) :: i + 1
    ensures |Needed(types)| == |moved| + if MayBeMissing(types[0]) then 0 else 1
  {
    hide MayBeMissing;
    var first: set<nat> := if MayBeMissing(types[0]) then {} else {0};
    forall i: nat
      ensures i in Needed(types) <==> i in first || i in moved
    {
      if i > 0 {
        assert i - 1 in Needed(types[1..]) <==> i in Needed(types);
        if i in moved {
          var k :| k in Needed(types[1..]) && i == k + 1;
        }
      }
    }
    assert Needed(types) == first + moved && 0 !in moved;
  }

  lemma {:induction false} SameSize(x: set<nat>, y: set<nat>)
    requires y == set i | i in x :: i + 1
    ensures |x| == |y|
  {
    if x != {} {
      var k :| k in x;
      var rest := set i | i in x - {k} :: i + 1;
      forall e | e in y
        ensures e in rest + {k + 1}
      {
        var i :| i in x && e == i + 1;
        assert i != k ==> i in x - {k};
      }
      assert y == rest + {k + 1} && k + 1 !in rest;
      assert y - {k + 1} == rest;
      SameSize(x - {k}, y - {k + 1});
    } else {
      assert y == {};
    }
  }

  /** The argument that a value on the stack becomes. */
  predicate Becomes<S>(v: EvalValue, a: Argument, env: Env<S>, state: S) {
    match a
    case StringArg(text) => v.isString && text == v.data
    case NumberArg(number) => !v.isString && (if v.evaluated then number == v.value else env.resolve(v.data, state) == Some(number))
  }

  predicate Takes(t: ValueType, a: Argument) {
    match a
    case StringArg(_) => TakesTexts(t)
    case NumberArg(_) => TakesNumbers(t)
  }

  /** Exactly when a call succeeds, and with what: the function is known, no needed argument is missing and none
      is too many, every value on the stack becomes an argument of its type, and the function succeeds with them. */
  lemma CallSucceedsIff<S>(name: string, values: seq<EvalValue>, arguments: seq<Argument>, env: Env<S>, state: S)
    requires |arguments| == |values| && forall i :: 0 <= i < |values| ==> Becomes(values[i], arguments[i], env, state)
    ensures var r, types := CallFunction(name, values, env, state), env.signature(name);
      && (r.Done? <==>
           && types.Some?
           && |Needed(types.value)| <= |values| <= |types.value|
           && (forall i :: 0 <= i < |values| ==> Takes(types.value[i], arguments[i]))
           && env.call(name, arguments, state).Some?)
      && (r.Done? ==>
           var (result, state') := env.call(name, arguments, state).value;
           && r.state == state'
           && match result
              case NumberArg(n) => r.value.evaluated && !r.value.isString && r.value.value == n
              case StringArg(text) => r.value.isString && r.value.data == text)
      && (r.Failed? ==> r.state == state)
  {
    hide CountRequired, Accepts, Force;
    var types := env.signature(name);
    if types.Some? {
      RequiredIsNeeded(types.value);
      if |values| <= |types.value| {
        TypedForce(values, types.value, env, state);
        AllBecome(values, arguments, env, state);
        forall i | 0 <= i < |values|
          ensures Accepts(types.value[i], arguments[i]) == Takes(types.value[i], arguments[i])
        {
          AcceptsTakes(types.value[i], arguments[i]);
        }
      }
    }
  }

  lemma AcceptsTakes(t: ValueType, a: Argument)
    ensures Accepts(t, a) == Takes(t, a)
  {
  }

  lemma {:induction false} AllBecome<S>(values: seq<EvalValue>, arguments: seq<Argument>, env: Env<S>, state: S)
    requires |arguments| == |values| && forall i :: 0 <= i < |values| ==> Becomes(values[i], arguments[i], env, state)
    ensures ForceEach(values, env, state) == Some(arguments)
  {
    if values != [] {
      AllBecome(values[1..], arguments[1..], env, state);
      assert Becomes(values[0], arguments[0], env, state);
      assert [arguments[0]] + arguments[1..] == arguments;
    }
  }

  /** A name among the values that resolves to nothing makes the call fail. */
  lemma UnresolvedFails<S>(name: string, values: seq<EvalValue>, i: nat, env: Env<S>, state: S)
    requires i < |values| && !values[i].isString && !values[i].evaluated && env.resolve(values[i].data, state).None?
    ensures CallFunction(name, values, env, state) == Failed(state)
  {
    hide CountRequired, Accepts, Force;
    var types := env.signature(name);
    if types.Some? && |values| <= |types.value| {
      TypedForce(values, types.value, env, state);
      NoneBecomes(values, i, env, state);
    }
  }

  lemma {:induction false} NoneBecomes<S>(values: seq<EvalValue>, i: nat, env: Env<S>, state: S)
    requires i < |values| && !values[i].isString && !values[i].evaluated && env.resolve(values[i].data, state).None?
    ensures ForceEach(values, env, state).None?
  {
    if i > 0 {
      NoneBecomes(values[1..], i - 1, env, state);
    }
  }
}
