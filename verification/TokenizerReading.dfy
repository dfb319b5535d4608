/** What the tokenizer does with texts that are no tree: brackets that do not match, and names that are
    quoted in part; and commas outside parentheses. */
module TokenizerReading {
  import opened Options
  import opened ExpressionTokens
  import opened Tokenizer
  import opened TokenizerRoundTrip
  import Trees = ExpressionTrees
  import ShuntingYard

  // ----- brackets -----

  /** No closing bracket without an opening one before it, when `memory` are open already. */
  predicate Closed(text: string, memory: nat) {
    text == "" ||
      if text[0] == '[' then Closed(text[1..], memory + 1)
      else if text[0] == ']' then memory > 0 && Closed(text[1..], memory - 1)
      else Closed(text[1..], memory)
  }

  lemma OperatorsHaveNoBrackets(ch: char, rest: string, unary: bool)
    ensures var op := ReadOperator(ch, rest, unary);
      op.Some? ==> forall i :: 0 <= i < op.value.1 ==> rest[i] != '[' && rest[i] != ']'
  {
  }

  lemma {:induction false} SkipPlain(text: string, n: nat, memory: nat)
    requires n <= |text| && forall i :: 0 <= i < n ==> text[i] != '[' && text[i] != ']'
    ensures Closed(text, memory) <==> Closed(text[n..], memory)
    decreases n
  {
    if n > 0 {
      SkipPlain(text[1..], n - 1, memory);
      assert text[1..][n - 1..] == text[n..];
    } else {
      assert text[0..] == text;
    }
  }

  lemma {:induction false} ValidWhileClosed(text: string, l: Lexer, literals: Literals)
    ensures Lex(text, l, literals).valid <==> l.valid && Closed(text, l.memory)
    decreases |text|
  {
    hide ReadOperator, FlushData;
    if text != "" {
      LexStep(text, l, literals);
      var r := LexOne(text, l, literals);
      var ch := text[0];
      if ch == ']' && l.memory == 0 {
        ValidWhileClosed(text[1..], r.0, literals);
      } else {
        OneStaysClosed(text, l, literals);
        ValidWhileClosed(text[r.1..], r.0, literals);
      }
    }
  }

  /** One round keeps the count of open brackets. */
  lemma OneStaysClosed(text: string, l: Lexer, literals: Literals)
    requires text != "" && (text[0] == ']' ==> l.memory > 0)
    ensures var r := LexOne(text, l, literals);
      r.0.valid == l.valid && (Closed(text, l.memory) <==> Closed(text[r.1..], r.0.memory))
  {
    hide ReadOperator;
    var r := LexOne(text, l, literals);
    if text[0] != '[' && text[0] != ']' {
      OperatorsHaveNoBrackets(text[0], text[1..], IsUnaryOperator(l));
      FlushKeeps(l, literals);
      SkipPlain(text, r.1, l.memory);
    }
  }

  lemma FlushKeeps(l: Lexer, literals: Literals)
    ensures forall paren ::
      FlushData(l, paren, literals).valid == l.valid && FlushData(l, paren, literals).memory == l.memory
  {
  }

  /** A text is accepted by the tokenizer exactly if every closing bracket has an opening one before it,
      inside quotes or not. */
  lemma AcceptedIffClosed(text: string, literals: Literals)
    ensures Tokenize(text, literals).valid <==> Closed(text, 0)
  {
    hide Lex;
    ValidWhileClosed(text, START, literals);
    FlushKeeps(Lex(text, START, literals), literals);
  }

  // ----- names quoted in part -----

  /** A name of which only a part is quoted is no text but a name, or a number. */
  lemma PartlyQuoted(a: string, b: string, literals: Literals)
    requires a != "" && PlainText(a, 0) && b != "" && QuotedText(b, 0)
    ensures Tokenize(a + ("\"" + (b + "\"")), literals).tokens ==
      [if literals(a + b).Some? then Token(a + b, NumericLiteral, literals(a + b).value) else Token(a + b, Data, 0)]
  {
    hide Lex, PlainText, QuotedText, Pushed;
    var first := Lexer([], a, seq(|a|, _ => false), 0, false, true);
    PushedAll([], a, false);
    LexPlain(a, "\"" + (b + "\""), START, literals);
    LexQuote(b + "\"", first, literals);
    LexQuoted(b, "\"", first.(quote := true), literals);
    var both := Pushed(first.(quote := true), b);
    PushedMore(first.(quote := true), b);
    assert "\"" == "\"" + "";
    LexQuote("", both.(memory := 0), literals);
    LexNothing(both.(memory := 0, quote := false), literals);
    assert both.quoted[0] == false;
  }

  lemma PushedMore(l: Lexer, s: string)
    ensures Pushed(l, s) == l.(cur := l.cur + s, quoted := l.quoted + seq(|s|, _ => l.quote))
  {
  }

  lemma LexNothing(l: Lexer, literals: Literals)
    ensures Lex("", l, literals) == l
  {
  }

  /** Empty quotes are nothing at all. */
  lemma EmptyQuotes(literals: Literals)
    ensures Tokenize("\"\"", literals).tokens == []
  {
    hide Lex;
    assert "\"\"" == "\"" + "\"" && "\"" == "\"" + "";
    LexQuote("\"", START, literals);
    LexQuote("", START.(quote := true), literals);
    LexNothing(START, literals);
  }

  // ----- commas outside parentheses -----

  /** A comma or a closing parenthesis that stands in no parentheses makes the expression invalid. */
  lemma NothingToClose(e: Trees.Expr, t: Token, rest: seq<Token>)
    requires Trees.WellParenthesized(e) && (t.kind == Comma || t.kind == CloseParen)
    ensures ShuntingYard.Compiled(Trees.Flatten(e) + ([t] + rest)) == None
  {
    hide Trees.WellParenthesized, Trees.Flatten, ShuntingYard.Run, ShuntingYard.CountFunctions;
    var y := ShuntingYard.Yard([], [], []);
    EmptyIsCounted();
    Trees.ReadTree(e, [t] + rest, y);
    Trees.PendingBound(e);
    var after := Trees.After(e, y);
    assert after.stack == Trees.Pending(e);
    NoParenBelow(after);
    Trees.RunStep(t, rest, after);
  }

  lemma EmptyIsCounted()
    ensures ShuntingYard.Counted(ShuntingYard.Yard([], [], []))
  {
  }

  lemma {:induction false} NoParenBelow(y: ShuntingYard.Yard)
    requires Trees.AllOperators(y.stack)
    ensures ShuntingYard.DrainToParen(y) == None
    decreases |y.stack|
  {
    hide ShuntingYard.CountFunctions;
    if y.stack != [] {
      assert ShuntingYard.Last(y.stack) in y.stack;
      NoParenBelow(ShuntingYard.Yard(y.queue + [ShuntingYard.Last(y.stack)], ShuntingYard.Init(y.stack), y.argCount));
    }
  }
}
