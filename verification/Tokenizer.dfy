/** The expression tokenizer, and exactly which token lists can be written down and read back. */
module Tokenizer {
  import opened Options
  import opened ExpressionTokens

  /** Decides which names are numbers, and their values. */
  type Literals = string -> Option<nat>

  /** The tokenizer's fields; `quoted` says for each character of the current token whether it was
      inside quotes, `memory` counts the open brackets. */
  datatype Lexer = Lexer(tokens: seq<Token>, cur: string, quoted: seq<bool>, memory: nat, quote: bool, valid: bool)

  const START := Lexer([], "", [], 0, false, true)

  // ----- operators -----

  predicate Eats(rest: string, ch: char) {
    rest != "" && rest[0] == ch
  }

  /** The operator that begins with `ch`, and how many of the characters behind it belong to it. */
  function ReadOperator(ch: char, rest: string, unary: bool): (r: Option<(TokenType, nat)>)
    ensures r.Some? ==> r.value.1 <= |rest|
  {
    if ch == ',' then Some((Comma, 0))
    else if ch == '(' then Some((OpenParen, 0))
    else if ch == ')' then Some((CloseParen, 0))
    else if ch == '~' then Some((Op(Not), 0))
    else if ch == '*' then OrAssign(rest, Mul, AssignMul)
    else if ch == '`' then OrAssign(rest, HiMul, AssignHiMul)
    else if ch == '/' then OrAssign(rest, Div, AssignDiv)
    else if ch == '%' then OrAssign(rest, Mod, AssignMod)
    else if ch == '+' then ReadPlus(rest, unary)
    else if ch == '-' then ReadMinus(rest, unary)
    else if ch == '=' then OrAssign(rest, Assign, Equal)
    else if ch == '<' then ReadAngle(rest, '<', Smaller, SmallerEqual, Shl, AssignShl, Rol, AssignRol)
    else if ch == '>' then ReadAngle(rest, '>', Bigger, BiggerEqual, Shr, AssignShr, Ror, AssignRor)
    else if ch == '&' then if Eats(rest, '&') then Some((Op(LogicalAnd), 1)) else OrAssign(rest, And, AssignAnd)
    else if ch == '^' then OrAssign(rest, Xor, AssignXor)
    else if ch == '|' then if Eats(rest, '|') then Some((Op(LogicalOr), 1)) else OrAssign(rest, Or, AssignOr)
    else if ch == '!' then OrAssign(rest, LogicalNot, NotEqual)
    else None
  }

  function OrAssign(rest: string, plain: Operator, assign: Operator): Option<(TokenType, nat)> {
    if Eats(rest, '=') then Some((Op(assign), 1)) else Some((Op(plain), 0))
  }

  function ReadPlus(rest: string, unary: bool): Option<(TokenType, nat)> {
    if Eats(rest, '=') then Some((Op(AssignAdd), 1))
    else if Eats(rest, '+') then Some((Op(if unary then PrefixInc else SuffixInc), 1))
    else Some((Op(if unary then UnaryAdd else Add), 0))
  }

  function ReadMinus(rest: string, unary: bool): Option<(TokenType, nat)> {
    if Eats(rest, '>') then Some((Op(LogicalImpl), 1))
    else if Eats(rest, '=') then Some((Op(AssignSub), 1))
    else if Eats(rest, '-') then Some((Op(if unary then PrefixDec else SuffixDec), 1))
    else Some((Op(if unary then UnarySub else Sub), 0))
  }

  /** A comparison, a shift (two brackets) or a rotation (three), each with its equal sign. */
  function ReadAngle(rest: string, ch: char, one: Operator, oneEqual: Operator, two: Operator, twoEqual: Operator,
                     three: Operator, threeEqual: Operator): (r: Option<(TokenType, nat)>)
    ensures r.Some? && r.value.1 <= |rest|
  {
    if Eats(rest, '=') then Some((Op(oneEqual), 1))
    else if Eats(rest, ch) then
      if Eats(rest[1..], ch) then
        if Eats(rest[2..], '=') then Some((Op(threeEqual), 3)) else Some((Op(three), 2))
      else if Eats(rest[1..], '=') then Some((Op(twoEqual), 2))
      else Some((Op(two), 1))
    else Some((Op(one), 0))
  }

  /** How each operator is written. */
  function OperatorText(op: Operator): (s: string)
    ensures 1 <= |s| <= 4
  {
    match op
    case UnarySub | Sub => "-"
    case UnaryAdd | Add => "+"
    case Not => "~"
    case Mul => "*"
    case HiMul => "`"
    case Div => "/"
    case Mod => "%"
    case Shl => "<<"
    case Shr => ">>"
    case Rol => "<<<"
    case Ror => ">>>"
    case And => "&"
    case Xor => "^"
    case Or => "|"
    case Equal => "=="
    case NotEqual => "!="
    case Bigger => ">"
    case Smaller => "<"
    case BiggerEqual => ">="
    case SmallerEqual => "<="
    case LogicalAnd => "&&"
    case LogicalOr => "||"
    case LogicalNot => "!"
    case LogicalImpl => "->"
    case Assign => "="
    case AssignMul => "*="
    case AssignHiMul => "`="
    case AssignDiv => "/="
    case AssignMod => "%="
    case AssignAdd => "+="
    case AssignSub => "-="
    case AssignShl => "<<="
    case AssignShr => ">>="
    case AssignRol => "<<<="
    case AssignRor => ">>>="
    case AssignAnd => "&="
    case AssignXor => "^="
    case AssignOr => "|="
    case SuffixInc | PrefixInc => "++"
    case SuffixDec | PrefixDec => "--"
  }

  /** Written alike, these are told apart by what stands in front of them. */
  predicate UnaryForm(op: Operator) {
    op == UnarySub || op == UnaryAdd || op == PrefixInc || op == PrefixDec
  }

  predicate BinaryForm(op: Operator) {
    op == Sub || op == Add || op == SuffixInc || op == SuffixDec
  }

  // ----- reading -----

  predicate IsBlank(ch: char) {
    ch == ' ' || ch == '\t'
  }

  function PushToken(l: Lexer, ch: char): Lexer {
    l.(cur := l.cur + [ch], quoted := l.quoted + [l.quote])
  }

  /** A name is quoted data if every character of it was quoted, else a number if it has a value. */
  function DataToken(l: Lexer, literals: Literals): Token {
    if false !in l.quoted then Token(l.cur, QuotedData, 0)
    else if literals(l.cur).Some? then Token(l.cur, NumericLiteral, literals(l.cur).value)
    else Token(l.cur, Data, 0)
  }

  function FlushData(l: Lexer, beforeParen: bool, literals: Literals): Lexer {
    if l.cur == "" then l
    else
      var t := if beforeParen then Token(l.cur, Function, 0) else DataToken(l, literals);
      l.(tokens := l.tokens + [t], cur := "", quoted := [])
  }

  function AddOperatorToken(l: Lexer, data: string, kind: TokenType, literals: Literals): Lexer {
    var flushed := FlushData(l, kind == OpenParen, literals);
    flushed.(tokens := flushed.tokens + [Token(data, kind, 0)])
  }

  predicate EndsOperand(kind: TokenType) {
    IsOperand(kind) || kind == CloseParen
  }

  predicate IsUnaryOperator(l: Lexer) {
    l.cur == "" && (l.tokens == [] || !EndsOperand(l.tokens[|l.tokens| - 1].kind))
  }

  /** One round of the loop: the new fields and the number of characters used. */
  function LexOne(text: string, l: Lexer, literals: Literals): (r: (Lexer, nat))
    requires text != ""
    ensures 0 < r.1 <= |text|
  {
    var ch := text[0];
    if ch == '"' then (l.(quote := !l.quote), 1)
    else if ch == '[' then (PushToken(l.(memory := l.memory + 1), ch), 1)
    else if ch == ']' then
      (PushToken(if l.memory > 0 then l.(memory := l.memory - 1) else l.(valid := false), ch), 1)
    else if l.memory > 0 || l.quote then (PushToken(l, ch), 1)
    else
      var op := ReadOperator(ch, text[1..], IsUnaryOperator(l));
      if op.Some? then (AddOperatorToken(l, text[..1 + op.value.1], op.value.0, literals), 1 + op.value.1)
      else if IsBlank(ch) then (l, 1)
      else (PushToken(l, ch), 1)
  }

  function Lex(text: string, l: Lexer, literals: Literals): Lexer
    decreases |text|
  {
    if text == "" then l
    else
      var r := LexOne(text, l, literals);
      Lex(text[r.1..], r.0, literals)
  }

  function Tokenize(text: string, literals: Literals): Lexer {
    FlushData(Lex(text, START, literals), false, literals)
  }

  // ----- missing closing brackets -----

  function CountOf(text: string, ch: char): nat {
    if text == "" then 0 else (if text[0] == ch then 1 else 0) + CountOf(text[1..], ch)
  }

  function Repeat(ch: char, n: nat): (r: string)
    ensures |r| == n && forall i :: 0 <= i < n ==> r[i] == ch
  {
    seq(n, _ => ch)
  }

  function FixClosingBrackets(text: string): string {
    var open, close := CountOf(text, '('), CountOf(text, ')');
    if close < open then text + Repeat(')', open - close) else text
  }

  // ----- the tokenizer object -----

  class ExpressionTokenizer {
    const literals: Literals
    const mExpression: string
    var mTokens: seq<Token>
    var mCurToken: string
    var mCurTokenQuoted: seq<bool>
    var mIsValidExpression: bool

    constructor (expression: string, literals: Literals)
      ensures mTokens == Tokenize(FixClosingBrackets(expression), literals).tokens
      ensures mIsValidExpression == Tokenize(FixClosingBrackets(expression), literals).valid
    {
      var fixed := Fix(expression);
      this.literals := literals;
      mExpression := fixed;
      mTokens, mCurToken, mCurTokenQuoted, mIsValidExpression := [], "", [], true;
      new;
      tokenize();
    }

    static method Fix(expression: string) returns (result: string)
      ensures result == FixClosingBrackets(expression)
    {
      var open, close := 0, 0;
      for i := 0 to |expression|
        invariant open + CountOf(expression[i..], '(') == CountOf(expression, '(')
        invariant close + CountOf(expression[i..], ')') == CountOf(expression, ')')
      {
        assert expression[i..][1..] == expression[i + 1..];
        if expression[i] == '(' {
          open := open + 1;
        } else if expression[i] == ')' {
          close := close + 1;
        }
      }
      result := expression;
      if close < open {
        for i := 0 to open - close
          invariant result == expression + Repeat(')', i)
        {
          result := result + ")";
          assert Repeat(')', i + 1) == Repeat(')', i) + ")";
        }
      }
    }

    ghost function State(memory: nat, quote: bool): Lexer
      reads this
    {
      Lexer(mTokens, mCurToken, mCurTokenQuoted, memory, quote, mIsValidExpression)
    }

    predicate isUnaryOperator()
      reads this
    {
      IsUnaryOperator(Lexer(mTokens, mCurToken, mCurTokenQuoted, 0, false, true))
    }

    method flushData(beforeParen: bool, ghost memory: nat, ghost quote: bool)
      modifies this`mTokens, this`mCurToken, this`mCurTokenQuoted
      ensures State(memory, quote) == FlushData(old(State(memory, quote)), beforeParen, literals)
    {
      if mCurToken != "" {
        if beforeParen {
          mTokens := mTokens + [Token(mCurToken, Function, 0)];
        } else if false !in mCurTokenQuoted {
          mTokens := mTokens + [Token(mCurToken, QuotedData, 0)];
        } else if literals(mCurToken).Some? {
          mTokens := mTokens + [Token(mCurToken, NumericLiteral, literals(mCurToken).value)];
        } else {
          mTokens := mTokens + [Token(mCurToken, Data, 0)];
        }
        mCurToken, mCurTokenQuoted := "", [];
      }
    }

    method addOperatorToken(data: string, kind: TokenType, ghost memory: nat, ghost quote: bool)
      modifies this`mTokens, this`mCurToken, this`mCurTokenQuoted
      ensures State(memory, quote) == AddOperatorToken(old(State(memory, quote)), data, kind, literals)
    {
      flushData(kind == OpenParen, memory, quote);
      mTokens := mTokens + [Token(data, kind, 0)];
    }

    method pushToken(ch: char, stateQuote: bool, ghost memory: nat)
      modifies this`mCurToken, this`mCurTokenQuoted
      ensures State(memory, stateQuote) == PushToken(old(State(memory, stateQuote)), ch)
    {
      mCurToken := mCurToken + [ch];
      mCurTokenQuoted := mCurTokenQuoted + [stateQuote];
    }

    method tokenize()
      requires mTokens == [] && mCurToken == "" && mCurTokenQuoted == [] && mIsValidExpression
      modifies this
      ensures mTokens == Tokenize(mExpression, literals).tokens
      ensures mIsValidExpression == Tokenize(mExpression, literals).valid
    {
      hide LexOne, FlushData;
      var stateMemory, stateQuote, i := 0, false, 0;
      var len := |mExpression|;
      while i < len
        invariant i <= len
        invariant Lex(mExpression[i..], State(stateMemory, stateQuote), literals) == Lex(mExpression, START, literals)
      {
        ghost var rest := mExpression[i..];
        var used;
        used, stateMemory, stateQuote := readCharacter(i, stateMemory, stateQuote);
        assert mExpression[i + used..] == rest[used..];
        i := i + used;
      }
      assert mExpression[len..] == "";
      flushData(false, stateMemory, stateQuote);
    }

    /** One round of the loop; an operator may take further characters. */
    method readCharacter(i: nat, stateMemory: nat, stateQuote: bool) returns (used: nat, memory: nat, quote: bool)
      requires i < |mExpression|
      modifies this
      ensures (State(memory, quote), used) == LexOne(mExpression[i..], old(State(stateMemory, stateQuote)), literals)
      ensures 0 < used <= |mExpression| - i
    {
      hide ReadOperator, AddOperatorToken, PushToken;
      var ch := mExpression[i];
      ghost var rest := mExpression[i..];
      assert rest[0] == ch && rest[1..] == mExpression[i + 1..];
      used, memory, quote := 1, stateMemory, stateQuote;
      if ch == '"' {
        quote := !quote;
      } else if ch == '[' {
        memory := memory + 1;
        pushToken(ch, quote, memory);
      } else if ch == ']' {
        if memory > 0 {
          memory := memory - 1;
        } else {
          mIsValidExpression := false;
        }
        pushToken(ch, quote, memory);
      } else if memory > 0 || quote {
        pushToken(ch, quote, memory);
      } else {
        var op := ReadOperator(ch, mExpression[i + 1..], isUnaryOperator());
        if op.Some? {
          used := 1 + op.value.1;
          assert mExpression[i..i + used] == rest[..used];
          addOperatorToken(mExpression[i..i + used], op.value.0, memory, quote);
        } else if ch != ' ' && ch != '\t' {
          pushToken(ch, quote, memory);
        }
      }
    }
  }
}
