/** From a written tree to its postfix form and its value, with closing parentheses left off at the end,
    and exactly when parentheses inside names get in the way. */
module TextCompilation {
  import opened Options
  import opened ExpressionTokens
  import opened Tokenizer
  import opened TokenizerRoundTrip
  import opened ExpressionTrees
  import opened ExpressionEval
  import ShuntingYard

  // ----- missing closing parentheses -----

  function Closers(k: nat): (r: seq<Token>)
    ensures |r| == k
  {
    seq(k, _ => Token(")", CloseParen, 0))
  }

  lemma {:induction false} LexClosers(before: seq<Token>, k: nat, literals: Literals)
    requires before != [] && WellSpelled(before[|before| - 1], literals) && before[|before| - 1].kind != Function
    ensures Lex(Repeat(')', k), TokenizerRoundTrip.After(before), literals) == Lex("", TokenizerRoundTrip.After(before + Closers(k)), literals)
    decreases k
  {
    hide Lex, WellSpelled, TokenizerRoundTrip.After, FlushData;
    if k == 0 {
      assert before + Closers(0) == before;
    } else {
      var t := Token(")", CloseParen, 0);
      FlushName(before, literals);
      AfterIsIdle(before);
      LexStep(Repeat(')', k), TokenizerRoundTrip.After(before), literals);
      assert Repeat(')', k)[..1] == ")" && Repeat(')', k)[1..] == Repeat(')', k - 1);
      AfterSymbol(before, t);
      assert WellSpelled(t, literals) by { CloserIsSpelled(literals); }
      LexClosers(before + [t], k - 1, literals);
      assert before + [t] + Closers(k - 1) == before + Closers(k);
    }
  }

  lemma CloserIsSpelled(literals: Literals)
    ensures WellSpelled(Token(")", CloseParen, 0), literals)
  {
  }

  /** How many closing parentheses the parser puts behind a text: it counts characters, whatever they are
      part of. */
  function Missing(text: string): nat {
    var open, close := CountOf(text, '('), CountOf(text, ')');
    if close < open then open - close else 0
  }

  /** The text is read as its tokens and as many closing parentheses as it seems to have too few. */
  lemma MissingClosersReturn(front: seq<Token>, gaps: seq<string>, literals: Literals)
    requires AllSpelled(front, literals) && AllFit(front) && Separated(front, gaps)
    requires front != [] && front[|front| - 1].kind != Function
    ensures var text := Show(front, gaps);
      Tokenize(FixClosingBrackets(text), literals) == Lexer(front + Closers(Missing(text)), "", [], 0, false, true)
  {
    hide WellSpelled, AllFit, Show, TokenizerRoundTrip.After, FlushData, CountOf, Stops, Blanks;
    var text := Show(front, gaps);
    var k := Missing(text);
    assert text + Repeat(')', 0) == text;
    assert FixClosingBrackets(text) == text + Repeat(')', k);
    BlanksStop(front, gaps);
    LexAll(front, gaps, Repeat(')', k), literals);
    LexClosers(front, k, literals);
    CloserIsSpelled(literals);
    FlushName(front + Closers(k), literals);
  }

  // ----- whatever compiles is balanced -----

  function CountKind(tokens: seq<Token>, kind: TokenType): nat {
    if tokens == [] then 0
    else CountKind(ShuntingYard.Init(tokens), kind) + if ShuntingYard.Last(tokens).kind == kind then 1 else 0
  }

  lemma {:induction false} CountKindParts(x: seq<Token>, y: seq<Token>, kind: TokenType)
    ensures CountKind(x + y, kind) == CountKind(x, kind) + CountKind(y, kind)
    decreases |y|
  {
    if y == [] {
      assert x + y == x;
    } else {
      assert ShuntingYard.Init(x + y) == x + ShuntingYard.Init(y);
      CountKindParts(x, ShuntingYard.Init(y), kind);
    }
  }

  function Opens(tokens: seq<Token>): nat {
    CountKind(tokens, OpenParen)
  }

  function Closes(tokens: seq<Token>): nat {
    CountKind(tokens, CloseParen)
  }

  lemma {:induction false} DrainKeepsOpens(y: ShuntingYard.Yard)
    ensures var d := ShuntingYard.DrainToParen(y); d.Some? ==> Opens(d.value.stack) == Opens(y.stack)
    decreases |y.stack|
  {
    hide ShuntingYard.CountFunctions;
    if y.stack != [] && ShuntingYard.Last(y.stack).kind != OpenParen {
      DrainKeepsOpens(ShuntingYard.Yard(y.queue + [ShuntingYard.Last(y.stack)], ShuntingYard.Init(y.stack), y.argCount));
    }
  }

  /** No operator displaces a parenthesis. */
  lemma ParenStays(o1: TokenType)
    ensures !Displaces(o1, OpenParen)
  {
    hide OperatorPrecedence, OperatorAssociativity;
    if o1.Op? {
      PrecedenceDecides(o1.op);
    }
  }

  lemma {:induction false} PopKeepsOpens(o1: TokenType, y: ShuntingYard.Yard)
    ensures Opens(ShuntingYard.PopDisplaced(o1, y).stack) == Opens(y.stack)
    decreases |y.stack|
  {
    hide Displaces, ShuntingYard.CountFunctions;
    ParenStays(o1);
    if y.stack != [] && Displaces(o1, ShuntingYard.Last(y.stack).kind) {
      PopKeepsOpens(o1, ShuntingYard.Yard(y.queue + [ShuntingYard.Last(y.stack)], ShuntingYard.Init(y.stack), y.argCount));
    }
  }

  lemma CloseTakesOne(y: ShuntingYard.Yard)
    requires ShuntingYard.Counted(y) && y.stack != [] && ShuntingYard.Last(y.stack).kind == OpenParen
    ensures Opens(ShuntingYard.CloseGroup(y).stack) + 1 == Opens(y.stack)
  {
    hide ShuntingYard.CountFunctions;
    var stack := ShuntingYard.Init(y.stack);
    assert Opens(y.stack) == Opens(stack) + 1;
    assert stack != [] && ShuntingYard.Last(stack).kind == Function ==> Opens(ShuntingYard.Init(stack)) == Opens(stack);
  }

  lemma PushCounts(token: Token, y: ShuntingYard.Yard)
    ensures Opens(ShuntingYard.Push(token, y).stack) == Opens(y.stack) + if token.kind == OpenParen then 1 else 0
  {
    hide ShuntingYard.CountFunctions;
    assert ShuntingYard.Init(y.stack + [token]) == y.stack;
  }

  lemma StepCounts(rest: seq<Token>, y: ShuntingYard.Yard)
    requires rest != [] && ShuntingYard.Counted(y)
    ensures var next := ShuntingYard.Step(rest, y);
      next.Some? ==>
        Opens(next.value.stack) + (if rest[0].kind == CloseParen then 1 else 0)
        == Opens(y.stack) + (if rest[0].kind == OpenParen then 1 else 0)
  {
    hide ShuntingYard.CountFunctions, ShuntingYard.DrainToParen, ShuntingYard.PopDisplaced, ShuntingYard.CloseGroup;
    hide CountKind, ShuntingYard.Push;
    var token := rest[0];
    DrainKeepsOpens(y);
    PopKeepsOpens(token.kind, y);
    PushCounts(token, y);
    PushCounts(token, ShuntingYard.PopDisplaced(token.kind, y));
    if token.kind == CloseParen && ShuntingYard.DrainToParen(y).Some? {
      CloseTakesOne(ShuntingYard.DrainToParen(y).value);
    }
  }

  lemma {:induction false} FinishCounts(queue: seq<Token>, stack: seq<Token>)
    ensures ShuntingYard.Finish(queue, stack).Some? ==> Opens(stack) == 0
    decreases |stack|
  {
    if stack != [] && !IsParen(ShuntingYard.Last(stack).kind) {
      FinishCounts(queue + [ShuntingYard.Last(stack)], ShuntingYard.Init(stack));
    }
  }

  lemma CountFirst(rest: seq<Token>, kind: TokenType)
    requires rest != []
    ensures CountKind(rest, kind) == (if rest[0].kind == kind then 1 else 0) + CountKind(rest[1..], kind)
  {
    assert [rest[0]] + rest[1..] == rest;
    CountKindParts([rest[0]], rest[1..], kind);
    assert ShuntingYard.Init([rest[0]]) == [];
  }

  lemma {:induction false} RunIsBalanced(rest: seq<Token>, y: ShuntingYard.Yard)
    requires ShuntingYard.Counted(y)
    ensures ShuntingYard.Run(rest, y).Some? ==> Opens(y.stack) + Opens(rest) == Closes(rest)
    decreases |rest|
  {
    hide ShuntingYard.CountFunctions, ShuntingYard.Step, ShuntingYard.Finish, ShuntingYard.Counted;
    if rest == [] {
      FinishCounts(y.queue, y.stack);
    } else {
      hide CountKind;
      CountFirst(rest, OpenParen);
      CountFirst(rest, CloseParen);
      StepCounts(rest, y);
      var next := ShuntingYard.Step(rest, y);
      if next.Some? {
        RunIsBalanced(rest[1..], next.value);
      }
    }
  }

  /** Only token lists with as many opening as closing parentheses compile. */
  lemma CompiledIsBalanced(tokens: seq<Token>)
    ensures ShuntingYard.Compiled(tokens).Some? ==> Opens(tokens) == Closes(tokens)
  {
    hide ShuntingYard.Run;
    RunIsBalanced(tokens, ShuntingYard.Yard([], [], []));
  }

  lemma {:induction false} CountClosers(k: nat)
    ensures Opens(Closers(k)) == 0 && Closes(Closers(k)) == k
  {
    if k > 0 {
      assert ShuntingYard.Init(Closers(k)) == Closers(k - 1);
      CountClosers(k - 1);
    }
  }

  /** Behind tokens that compile with `k` closing parentheses, any other number of them is rejected. */
  lemma OtherClosersFail(front: seq<Token>, k: nat, m: nat)
    requires ShuntingYard.Compiled(front + Closers(k)).Some? && m != k
    ensures ShuntingYard.Compiled(front + Closers(m)).None?
  {
    hide ShuntingYard.Compiled, Closers;
    forall n: nat
      ensures Opens(front + Closers(n)) == Opens(front) && Closes(front + Closers(n)) == Closes(front) + n
    {
      CountKindParts(front, Closers(n), OpenParen);
      CountKindParts(front, Closers(n), CloseParen);
      CountClosers(n);
    }
    CompiledIsBalanced(front + Closers(k));
    CompiledIsBalanced(front + Closers(m));
  }

  // ----- from text to postfix -----

  /** The tree may be written down like this, with its last `k` closing parentheses left off. */
  predicate Written(e: Expr, gaps: seq<string>, k: nat, literals: Literals) {
    var tokens := Flatten(e);
    && WellParenthesized(e) && AllSpelled(tokens, literals) && Guarded(tokens) && Separated(tokens, gaps)
    && k < |tokens| && tokens[|tokens| - k..] == Closers(k)
  }

  function Front(e: Expr, k: nat): seq<Token>
    requires k < |Flatten(e)|
  {
    Flatten(e)[..|Flatten(e)| - k]
  }

  function TextOf(e: Expr, gaps: seq<string>, k: nat): string
    requires |gaps| == |Flatten(e)| && k < |Flatten(e)|
  {
    Show(Front(e, k), gaps[..|gaps| - k])
  }

  /** A written tree, even with its last `k` closing parentheses left off, is compiled to its postfix
      form if exactly these seem to be missing, and rejected otherwise. */
  lemma TextIsCompiledIff(e: Expr, gaps: seq<string>, k: nat, literals: Literals)
    requires Written(e, gaps, k, literals)
    ensures var text := TextOf(e, gaps, k);
      var read := Tokenize(FixClosingBrackets(text), literals);
      && read.valid
      && ShuntingYard.Compiled(read.tokens) == if Missing(text) == k then Some(Postfix(e)) else None
  {
    hide Tokenize, FixClosingBrackets, WellSpelled, AllFit, WellParenthesized, Show, Missing, Closers, Flatten, WellFormed;
    hide ShuntingYard.Compiled, Guarded, Stops, Blanks;
    var tokens, n := Flatten(e), |Flatten(e)| - k;
    TreeIsWellFormed(e);
    AllOfThemFit(tokens);
    FrontFits(tokens, n);
    FrontEnds(tokens, k);
    FrontSeparated(tokens, gaps, n);
    var front, m := tokens[..n], Missing(TextOf(e, gaps, k));
    assert front + Closers(k) == tokens;
    MissingClosersReturn(front, gaps[..n], literals);
    CompiledIsPostfix(e);
    if m != k {
      OtherClosersFail(front, k, m);
    }
  }

  lemma AllOfThemFit(tokens: seq<Token>)
    requires WellFormed(tokens) && Guarded(tokens)
    ensures AllFit(tokens)
  {
    hide Adjacent, Guarded, Starter;
    GuardedFits(tokens);
  }

  lemma FrontSeparated(tokens: seq<Token>, gaps: seq<string>, n: nat)
    requires Separated(tokens, gaps) && n <= |tokens|
    ensures Separated(tokens[..n], gaps[..n])
  {
    hide Stops, Blanks, Spell;
  }

  lemma FrontEnds(tokens: seq<Token>, k: nat)
    requires WellFormed(tokens) && k < |tokens| && tokens[|tokens| - k..] == Closers(k)
    ensures tokens[|tokens| - k - 1].kind != Function
  {
    if k > 0 {
      assert tokens[|tokens| - k] == Closers(k)[0];
      assert PairOk(tokens[|tokens| - k - 1].kind, tokens[|tokens| - k].kind);
    }
  }

  /** From text to value: what is written down for a tree, with any blanks and with the last closing
      parentheses optional, calculates to the tree's own outcome if exactly these seem to be missing,
      and does not compile otherwise. */
  lemma TextHasTreesMeaning<S>(e: Expr, gaps: seq<string>, k: nat, literals: Literals, mode: Mode, env: Env<S>, state: S)
    requires Written(e, gaps, k, literals)
    ensures var text := TextOf(e, gaps, k);
      var read := Tokenize(FixClosingBrackets(text), literals);
      var program := ShuntingYard.Compiled(read.tokens);
      && (program.Some? <==> Missing(text) == k)
      && (program.Some? ==> Evaluated(program.value, read.valid, mode, env, state) == Eval(e, mode, env, state))
  {
    hide Tokenize, FixClosingBrackets, Written, TextOf, Missing, Eval, Evaluated, ShuntingYard.Compiled;
    TextIsCompiledIff(e, gaps, k, literals);
    WrittenTree(e, gaps, k, literals);
    CompiledIsPostfix(e);
    CompilingPreservesMeaning(e, mode, env, state);
  }

  lemma WrittenTree(e: Expr, gaps: seq<string>, k: nat, literals: Literals)
    requires Written(e, gaps, k, literals)
    ensures WellParenthesized(e)
  {
  }

  // ----- parentheses inside names -----

  /** How often the character stands inside names. */
  function InNames(tokens: seq<Token>, ch: char): nat {
    if tokens == [] then 0
    else
      var last := tokens[|tokens| - 1];
      InNames(tokens[..|tokens| - 1], ch) + if IsName(last.kind) then CountOf(last.data, ch) else 0
  }

  lemma {:induction false} CountParts(x: string, y: string, ch: char)
    ensures CountOf(x + y, ch) == CountOf(x, ch) + CountOf(y, ch)
  {
    if x == "" {
      assert x + y == y;
    } else {
      assert (x + y)[1..] == x[1..] + y;
      CountParts(x[1..], y, ch);
    }
  }

  lemma {:induction false} CountNone(s: string, ch: char)
    requires ch !in s
    ensures CountOf(s, ch) == 0
  {
    if s != "" {
      CountNone(s[1..], ch);
    }
  }

  lemma OperatorHasNoParen(op: Operator)
    ensures '(' !in OperatorText(op) && ')' !in OperatorText(op)
  {
    hide OperatorText;
    if IsAssignment(op) {
      AssignmentHasNoParen(op);
    } else {
      OtherHasNoParen(op);
    }
  }

  lemma AssignmentHasNoParen(op: Operator)
    requires IsAssignment(op)
    ensures '(' !in OperatorText(op) && ')' !in OperatorText(op)
  {
  }

  lemma OtherHasNoParen(op: Operator)
    requires !IsAssignment(op)
    ensures '(' !in OperatorText(op) && ')' !in OperatorText(op)
  {
  }

  lemma CountToken(t: Token, gap: string, literals: Literals)
    requires WellSpelled(t, literals) && Blanks(gap)
    ensures CountOf(Spell(t) + gap, '(') ==
      (if IsName(t.kind) then CountOf(t.data, '(') else 0) + if t.kind == OpenParen then 1 else 0
    ensures CountOf(Spell(t) + gap, ')') ==
      (if IsName(t.kind) then CountOf(t.data, ')') else 0) + if t.kind == CloseParen then 1 else 0
  {
    hide OperatorText, PlainText, QuotedText;
    forall ch | ch == '(' || ch == ')'
      ensures CountOf(Spell(t) + gap, ch) == CountOf(Spell(t), ch)
    {
      CountParts(Spell(t), gap, ch);
      CountNone(gap, ch);
    }
    if t.kind == QuotedData {
      CountQuoted(t.data, '(');
      CountQuoted(t.data, ')');
    } else if t.kind.Op? {
      OperatorHasNoParen(t.kind.op);
      CountNone(t.data, '(');
      CountNone(t.data, ')');
    } else if !IsName(t.kind) {
      CountSymbols();
    }
  }

  lemma CountSymbols()
    ensures CountOf("(", '(') == 1 && CountOf("(", ')') == 0
    ensures CountOf(")", '(') == 0 && CountOf(")", ')') == 1
    ensures CountOf(",", '(') == 0 && CountOf(",", ')') == 0
  {
    assert "("[1..] == "" && ")"[1..] == "" && ","[1..] == "";
  }

  lemma CountQuoted(s: string, ch: char)
    requires ch != '"'
    ensures CountOf("\"" + s + "\"", ch) == CountOf(s, ch)
  {
    CountParts("\"" + s, "\"", ch);
    CountParts("\"", s, ch);
    CountNone("\"", ch);
  }

  lemma {:induction false} CountShown(tokens: seq<Token>, gaps: seq<string>, literals: Literals)
    requires AllSpelled(tokens, literals) && |gaps| == |tokens| && forall i :: 0 <= i < |gaps| ==> Blanks(gaps[i])
    ensures CountOf(Show(tokens, gaps), '(') == InNames(tokens, '(') + Opens(tokens)
    ensures CountOf(Show(tokens, gaps), ')') == InNames(tokens, ')') + Closes(tokens)
    decreases |tokens|
  {
    hide CountOf, WellSpelled, Blanks, Spell;
    if tokens == [] {
      CountNone("", '(');
      CountNone("", ')');
    } else {
      var n := |tokens| - 1;
      CountShown(tokens[..n], gaps[..n], literals);
      CountToken(tokens[n], gaps[n], literals);
      CountParts(Show(tokens[..n], gaps[..n]), Spell(tokens[n]) + gaps[n], '(');
      CountParts(Show(tokens[..n], gaps[..n]), Spell(tokens[n]) + gaps[n], ')');
    }
  }

  /** What the names must satisfy: with nothing left off they may not hold more opening than closing
      parentheses, and else they must hold as many of either. */
  lemma MissingIff(e: Expr, gaps: seq<string>, k: nat, literals: Literals)
    requires Written(e, gaps, k, literals)
    ensures var open, close := InNames(Front(e, k), '('), InNames(Front(e, k), ')');
      Missing(TextOf(e, gaps, k)) == k <==> (if k == 0 then open <= close else open == close)
  {
    hide AllSpelled, WellParenthesized, Guarded, Flatten, Show, CountOf, CountKind, InNames, Stops, Blanks, Closers;
    hide ShuntingYard.Compiled;
    var tokens, n := Flatten(e), |Flatten(e)| - k;
    var front := tokens[..n];
    assert front + Closers(k) == tokens;
    CompiledIsPostfix(e);
    CompiledIsBalanced(tokens);
    CountKindParts(front, Closers(k), OpenParen);
    CountKindParts(front, Closers(k), CloseParen);
    CountClosers(k);
    FrontSpelled(tokens, n, literals);
    CountShown(front, gaps[..n], literals);
  }

  lemma FrontSpelled(tokens: seq<Token>, n: nat, literals: Literals)
    requires AllSpelled(tokens, literals) && n <= |tokens|
    ensures AllSpelled(tokens[..n], literals)
  {
    hide WellSpelled;
  }

  /** A call with one quoted argument. */
  function CallOfQuoted(data: string): Expr {
    Call(Token("f", Function, 0), Token("(", OpenParen, 0),
      Arg(Leaf(Token(data, QuotedData, 0)), Token(",", Comma, 0), NoArgs), Token(")", CloseParen, 0))
  }

  function CallTokens(data: string): seq<Token> {
    [Token("f", Function, 0), Token("(", OpenParen, 0), Token(data, QuotedData, 0), Token(")", CloseParen, 0)]
  }

  const NO_GAPS: seq<string> := ["", "", "", ""]

  lemma CallFlattens(data: string)
    ensures Flatten(CallOfQuoted(data)) == CallTokens(data) && Front(CallOfQuoted(data), 0) == CallTokens(data)
    ensures WellParenthesized(CallOfQuoted(data))
  {
    var q := Token(data, QuotedData, 0);
    var f, open, close := Token("f", Function, 0), Token("(", OpenParen, 0), Token(")", CloseParen, 0);
    assert FlattenArgs(Arg(Leaf(q), Token(",", Comma, 0), NoArgs)) == [q];
    assert [f, open] + [q] + [close] == CallTokens(data);
  }

  lemma CallIsSpelled(data: string, literals: Literals)
    requires data == "(" || data == ")"
    ensures AllSpelled(CallTokens(data), literals)
  {
    assert "f"[1..] == "" && data[1..] == "";
    assert PlainText("", 0) && QuotedText("", 0);
    assert PlainText("f", 0) && QuotedText(data, 0);
  }

  lemma CallIsWritten(data: string, literals: Literals)
    requires data == "(" || data == ")"
    ensures Written(CallOfQuoted(data), NO_GAPS, 0, literals)
  {
    hide AllSpelled, WellParenthesized, Flatten;
    CallFlattens(data);
    CallIsSpelled(data, literals);
    var tokens := CallTokens(data);
    assert tokens[|tokens|..] == Closers(0);
  }

  lemma CallIsShown(data: string)
    ensures |Flatten(CallOfQuoted(data))| == 4
    ensures TextOf(CallOfQuoted(data), NO_GAPS, 0) == "f(\"" + data + "\")"
  {
    hide Show, Flatten;
    CallFlattens(data);
    assert NO_GAPS[..4] == NO_GAPS;
    var q, close := Token(data, QuotedData, 0), Token(")", CloseParen, 0);
    ShowOne(close, "");
    var open, f := Token("(", OpenParen, 0), Token("f", Function, 0);
    ShowTight(q, [close], [""]);
    ShowTight(open, [q, close], ["", ""]);
    ShowTight(f, [open, q, close], ["", "", ""]);
    assert [""] + [""] == ["", ""] && [""] + ["", ""] == ["", "", ""] && [""] + ["", "", ""] == NO_GAPS;
    assert [q] + [close] == [q, close] && [open] + [q, close] == [open, q, close];
    assert [f] + [open, q, close] == CallTokens(data);
    assert "f" + ("(" + ("\"" + data + "\"" + ")")) == "f(\"" + data + "\")";
  }

  lemma ShowTight(t: Token, tokens: seq<Token>, gaps: seq<string>)
    requires |gaps| == |tokens|
    ensures Show([t] + tokens, [""] + gaps) == Spell(t) + Show(tokens, gaps)
  {
    hide Show, Spell;
    ShowCons(t, "", tokens, gaps);
    assert "" + Show(tokens, gaps) == Show(tokens, gaps);
  }

  lemma CallNames(data: string)
    requires data == "(" || data == ")"
    ensures InNames(Front(CallOfQuoted(data), 0), '(') == CountOf(data, '(')
    ensures InNames(Front(CallOfQuoted(data), 0), ')') == CountOf(data, ')')
  {
    hide Flatten, InNames, CountOf;
    CallFlattens(data);
    var tokens := CallTokens(data);
    CountNone("f", '(');
    CountNone("f", ')');
    assert tokens == [] + [tokens[0]] + [tokens[1]] + [tokens[2]] + [tokens[3]];
    forall ch | ch == '(' || ch == ')'
      ensures InNames(tokens, ch) == CountOf(data, ch)
    {
      NoNames(ch);
      InNamesMore([], tokens[0], ch);
      InNamesMore([] + [tokens[0]], tokens[1], ch);
      InNamesMore([] + [tokens[0]] + [tokens[1]], tokens[2], ch);
      InNamesMore([] + [tokens[0]] + [tokens[1]] + [tokens[2]], tokens[3], ch);
    }
  }

  lemma NoNames(ch: char)
    ensures InNames([], ch) == 0
  {
  }

  lemma InNamesMore(tokens: seq<Token>, t: Token, ch: char)
    ensures InNames(tokens + [t], ch) == InNames(tokens, ch) + if IsName(t.kind) then CountOf(t.data, ch) else 0
  {
    assert (tokens + [t])[..|tokens|] == tokens;
  }

  /** `f("(")` is complete, gets one more closing parenthesis and is rejected; `f(")")` compiles. */
  lemma QuotedParenFails(literals: Literals)
    ensures ShuntingYard.Compiled(Tokenize(FixClosingBrackets("f(\"(\")"), literals).tokens).None?
    ensures ShuntingYard.Compiled(Tokenize(FixClosingBrackets("f(\")\")"), literals).tokens).Some?
  {
    hide Tokenize, FixClosingBrackets, Written, TextOf, Front, InNames, ShuntingYard.Compiled, Missing, CallOfQuoted;
    CountSymbols();
    forall data | data == "(" || data == ")"
      ensures ShuntingYard.Compiled(Tokenize(FixClosingBrackets("f(\"" + data + "\")"), literals).tokens).Some? <==> data == ")"
    {
      CallIsWritten(data, literals);
      CallIsShown(data);
      CallNames(data);
      TextIsCompiledIff(CallOfQuoted(data), NO_GAPS, 0, literals);
      MissingIff(CallOfQuoted(data), NO_GAPS, 0, literals);
    }
    assert "f(\"" + "(" + "\")" == "f(\"(\")" && "f(\"" + ")" + "\")" == "f(\")\")";
  }
}
