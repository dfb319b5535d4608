/** Writing a token list down and reading it back. */
module TokenizerRoundTrip {
  import opened Options
  import opened ExpressionTokens
  import opened Tokenizer
  import opened ExpressionTrees
  import opened ExpressionEval
  import ShuntingYard

  // ----- names -----

  predicate IsName(kind: TokenType) {
    IsOperand(kind) || kind == Function
  }

  predicate PlainChar(ch: char) {
    ch != '"' && ch != '[' && ch != ']' && !IsBlank(ch) && ReadOperator(ch, "", false).None?
  }

  /** Unquoted text of one name: brackets close, and operators and blanks stand only inside them. */
  predicate PlainText(s: string, memory: nat) {
    if s == "" then memory == 0
    else if s[0] == '[' then PlainText(s[1..], memory + 1)
    else if s[0] == ']' then memory > 0 && PlainText(s[1..], memory - 1)
    else s[0] != '"' && (memory > 0 || PlainChar(s[0])) && PlainText(s[1..], memory)
  }

  /** Quoted text of one name: any characters but quotes, and brackets close. */
  predicate QuotedText(s: string, memory: nat) {
    if s == "" then memory == 0
    else if s[0] == '[' then QuotedText(s[1..], memory + 1)
    else if s[0] == ']' then memory > 0 && QuotedText(s[1..], memory - 1)
    else s[0] != '"' && QuotedText(s[1..], memory)
  }

  /** The token carries the text and the number that reading it produces. */
  predicate WellSpelled(t: Token, literals: Literals) {
    match t.kind
    case Error => false
    case Data => t.info == 0 && t.data != "" && PlainText(t.data, 0) && literals(t.data).None?
    case NumericLiteral => t.data != "" && PlainText(t.data, 0) && literals(t.data) == Some(t.info)
    case QuotedData => t.info == 0 && t.data != "" && QuotedText(t.data, 0)
    case Function => t.info == 0 && t.data != "" && PlainText(t.data, 0)
    case Comma => t.info == 0 && t.data == ","
    case OpenParen => t.info == 0 && t.data == "("
    case CloseParen => t.info == 0 && t.data == ")"
    case Op(op) => t.info == 0 && t.data == OperatorText(op)
  }

  function Spell(t: Token): string {
    if t.kind == QuotedData then "\"" + t.data + "\"" else t.data
  }

  predicate Blanks(gap: string) {
    forall i :: 0 <= i < |gap| ==> gap[i] == ' ' || gap[i] == '\t'
  }

  /** The tokens as a text, each with some blanks behind it, or none. */
  function Show(tokens: seq<Token>, gaps: seq<string>): string
    requires |gaps| == |tokens|
  {
    if tokens == [] then ""
    else
      var n := |tokens| - 1;
      Show(tokens[..n], gaps[..n]) + (Spell(tokens[n]) + gaps[n])
  }

  /** The operator and this character make a longer operator. */
  predicate Extends(op: Operator, ch: char) {
    match op
    case Mul | HiMul | Div | Mod | Xor | LogicalNot | Assign | Rol | Ror => ch == '='
    case And => ch == '=' || ch == '&'
    case Or => ch == '=' || ch == '|'
    case Add | UnaryAdd => ch == '=' || ch == '+'
    case Sub | UnarySub => ch == '=' || ch == '-' || ch == '>'
    case Smaller | Shl => ch == '=' || ch == '<'
    case Bigger | Shr => ch == '=' || ch == '>'
    case _ => false
  }

  /** The table says what the operators' texts say. */
  lemma ExtendsIff(op: Operator, ch: char)
    ensures Extends(op, ch) <==> exists longer :: OperatorText(longer) == OperatorText(op) + [ch]
  {
    hide OperatorText;
    if Extends(op, ch) {
      var longer := Longer(op, ch);
      LongerText(op, ch);
    }
    forall longer | OperatorText(longer) == OperatorText(op) + [ch]
      ensures Extends(op, ch)
    {
      ShorterText(longer, op, ch);
    }
  }

  function Longer(op: Operator, ch: char): Operator
    requires Extends(op, ch)
  {
    match op
    case Mul => AssignMul
    case HiMul => AssignHiMul
    case Div => AssignDiv
    case Mod => AssignMod
    case Xor => AssignXor
    case LogicalNot => NotEqual
    case Assign => Equal
    case Rol => AssignRol
    case Ror => AssignRor
    case And => if ch == '=' then AssignAnd else LogicalAnd
    case Or => if ch == '=' then AssignOr else LogicalOr
    case Add | UnaryAdd => if ch == '=' then AssignAdd else SuffixInc
    case Sub | UnarySub => if ch == '=' then AssignSub else if ch == '-' then SuffixDec else LogicalImpl
    case Smaller => if ch == '=' then SmallerEqual else Shl
    case Shl => if ch == '=' then AssignShl else Rol
    case Bigger => if ch == '=' then BiggerEqual else Shr
    case Shr => if ch == '=' then AssignShr else Ror
    case _ => op
  }

  lemma LongerText(op: Operator, ch: char)
    requires Extends(op, ch)
    ensures OperatorText(Longer(op, ch)) == OperatorText(op) + [ch]
  {
  }

  lemma ShorterText(longer: Operator, op: Operator, ch: char)
    requires OperatorText(longer) == OperatorText(op) + [ch]
    ensures Extends(op, ch)
  {
    var s, t := OperatorText(longer), OperatorText(op);
    assert |s| == |t| + 1 && s[|t|] == ch && s[0] == t[0] && (|t| > 1 ==> s[1] == t[1]) && (|t| > 2 ==> s[2] == t[2]);
    hide Extends;
    if |t| == 1 {
      ShorterByOne(longer, op);
    } else {
      ShorterByMore(longer, op);
    }
  }

  lemma ShorterByOne(longer: Operator, op: Operator)
    requires |OperatorText(op)| == 1 && |OperatorText(longer)| == 2 && OperatorText(longer)[0] == OperatorText(op)[0]
    ensures Extends(op, OperatorText(longer)[1])
  {
  }

  lemma ShorterByMore(longer: Operator, op: Operator)
    requires var s, t := OperatorText(longer), OperatorText(op);
      |t| > 1 && |s| == |t| + 1 && s[0] == t[0] && s[1] == t[1] && (|t| > 2 ==> s[2] == t[2])
    ensures Extends(op, OperatorText(longer)[|OperatorText(op)|])
  {
  }

  /** The token ends where this text begins. */
  predicate Stops(t: Token, text: string) {
    text != "" && t.kind.Op? ==> !Extends(t.kind.op, text[0])
  }

  /** Two operators that would run together have a blank between them. */
  predicate Separated(tokens: seq<Token>, gaps: seq<string>) {
    && |gaps| == |tokens|
    && (forall i :: 0 <= i < |gaps| ==> Blanks(gaps[i]))
    && forall i :: 0 < i < |tokens| ==> Stops(tokens[i - 1], gaps[i - 1] + Spell(tokens[i]))
  }

  // ----- which lists can be read back -----

  predicate UnaryPlace(before: seq<Token>) {
    before == [] || !EndsOperand(before[|before| - 1].kind)
  }

  /** The token is read as itself after these tokens: names do not touch, a name in front of an opening
      parenthesis is a function, and a sign has the form its place demands. */
  predicate FitsAfter(before: seq<Token>, t: Token) {
    var afterName := before != [] && IsName(before[|before| - 1].kind);
    && (IsName(t.kind) ==> !afterName)
    && (afterName ==> (before[|before| - 1].kind == Function <==> t.kind == OpenParen))
    && (t.kind.Op? && UnaryForm(t.kind.op) ==> UnaryPlace(before) && !afterName)
    && (t.kind.Op? && BinaryForm(t.kind.op) ==> !UnaryPlace(before))
  }

  predicate AllFit(tokens: seq<Token>) {
    forall i :: 0 <= i < |tokens| ==> FitsAfter(tokens[..i], tokens[i])
  }

  predicate AllSpelled(tokens: seq<Token>, literals: Literals) {
    forall i :: 0 <= i < |tokens| ==> WellSpelled(tokens[i], literals)
  }

  // ----- reading one token -----

  /** The tokenizer's fields after reading these tokens: a name is still in the buffer. */
  function After(tokens: seq<Token>): Lexer {
    if tokens != [] && IsName(tokens[|tokens| - 1].kind) then
      var last := tokens[|tokens| - 1];
      Lexer(tokens[..|tokens| - 1], last.data, seq(|last.data|, _ => last.kind == QuotedData), 0, false, true)
    else Lexer(tokens, "", [], 0, false, true)
  }

  lemma LexStep(text: string, l: Lexer, literals: Literals)
    requires text != ""
    ensures Lex(text, l, literals) ==
      Lex(text[LexOne(text, l, literals).1..], LexOne(text, l, literals).0, literals)
  {
  }

  lemma LexBlank(ch: char, rest: string, l: Lexer, literals: Literals)
    requires IsBlank(ch) && l.memory == 0 && !l.quote
    ensures Lex([ch] + rest, l, literals) == Lex(rest, l, literals)
  {
    hide Lex, ReadOperator;
    assert ([ch] + rest)[0] == ch && ([ch] + rest)[1..] == rest;
    NoOperator(ch, rest, IsUnaryOperator(l));
    BlankIsNoOperator();
    LexStep([ch] + rest, l, literals);
  }

  lemma BlankIsNoOperator()
    ensures ReadOperator(' ', "", false).None? && ReadOperator('\t', "", false).None?
  {
  }

  lemma {:induction false} LexBlanks(gap: string, rest: string, l: Lexer, literals: Literals)
    requires Blanks(gap) && l.memory == 0 && !l.quote
    ensures Lex(gap + rest, l, literals) == Lex(rest, l, literals)
  {
    hide Lex;
    if gap == "" {
      assert gap + rest == rest;
    } else {
      assert gap + rest == [gap[0]] + (gap[1..] + rest);
      LexBlank(gap[0], gap[1..] + rest, l, literals);
      LexBlanks(gap[1..], rest, l, literals);
    }
  }

  lemma LexQuote(rest: string, l: Lexer, literals: Literals)
    ensures Lex("\"" + rest, l, literals) == Lex(rest, l.(quote := !l.quote), literals)
  {
    hide Lex, ReadOperator;
    assert ("\"" + rest)[0] == '"' && ("\"" + rest)[1..] == rest;
    LexStep("\"" + rest, l, literals);
  }

  /** The buffer after more characters of one kind. */
  function Pushed(l: Lexer, s: string): Lexer {
    l.(cur := l.cur + s, quoted := l.quoted + seq(|s|, _ => l.quote))
  }

  lemma PushedOne(l: Lexer, s: string, memory: nat)
    requires s != ""
    ensures Pushed(PushToken(l.(memory := memory), s[0]), s[1..]).(memory := 0) == Pushed(l, s).(memory := 0)
  {
    assert l.cur + [s[0]] + s[1..] == l.cur + s;
    var q := l.quote;
    assert seq(|s|, _ => q) == [q] + seq(|s| - 1, _ => q);
  }

  lemma {:induction false} LexPlain(s: string, rest: string, l: Lexer, literals: Literals)
    requires PlainText(s, l.memory) && !l.quote
    ensures Lex(s + rest, l, literals) == Lex(rest, Pushed(l, s).(memory := 0), literals)
    decreases |s|
  {
    hide Pushed, Lex;
    if s == "" {
      assert s + rest == rest && Pushed(l, s).(memory := 0) == l by { PushedNothing(l); }
    } else {
      LexStep(s + rest, l, literals);
      assert (s + rest)[0] == s[0] && (s + rest)[1..] == s[1..] + rest;
      var memory := if s[0] == '[' then l.memory + 1 else if s[0] == ']' then l.memory - 1 else l.memory;
      if s[0] != '[' && s[0] != ']' && l.memory == 0 {
        NoOperator(s[0], s[1..] + rest, IsUnaryOperator(l));
      }
      PushedOne(l, s, memory);
      LexPlain(s[1..], rest, PushToken(l.(memory := memory), s[0]), literals);
    }
  }

  lemma PushedNothing(l: Lexer)
    ensures Pushed(l, "") == l
  {
    assert l.cur + "" == l.cur && l.quoted + [] == l.quoted;
  }

  /** Whether a character begins an operator does not depend on what follows. */
  lemma NoOperator(ch: char, rest: string, unary: bool)
    ensures ReadOperator(ch, rest, unary).None? <==> ReadOperator(ch, "", false).None?
  {
  }

  lemma {:induction false} LexQuoted(s: string, rest: string, l: Lexer, literals: Literals)
    requires QuotedText(s, l.memory) && l.quote
    ensures Lex(s + rest, l, literals) == Lex(rest, Pushed(l, s).(memory := 0), literals)
    decreases |s|
  {
    hide Pushed, Lex, ReadOperator;
    if s == "" {
      assert s + rest == rest && Pushed(l, s).(memory := 0) == l by { PushedNothing(l); }
    } else {
      LexStep(s + rest, l, literals);
      assert (s + rest)[0] == s[0] && (s + rest)[1..] == s[1..] + rest;
      var memory := if s[0] == '[' then l.memory + 1 else if s[0] == ']' then l.memory - 1 else l.memory;
      PushedOne(l, s, memory);
      LexQuoted(s[1..], rest, PushToken(l.(memory := memory), s[0]), literals);
    }
  }

  lemma LexName(before: seq<Token>, t: Token, gap: string, rest: string, literals: Literals)
    requires IsName(t.kind) && WellSpelled(t, literals) && FitsAfter(before, t) && Blanks(gap)
    ensures Lex(Spell(t) + gap + rest, After(before), literals) == Lex(rest, After(before + [t]), literals)
  {
    hide Lex, PlainText, QuotedText, FitsAfter, After, LexOne, ReadOperator, Blanks;
    NoNameBefore(before, t);
    AfterName(before, t);
    assert Spell(t) + gap + rest == Spell(t) + (gap + rest);
    if t.kind == QuotedData {
      LexQuotedName(before, t, gap + rest, literals);
    } else {
      LexPlainName(before, t, gap + rest, literals);
    }
    LexBlanks(gap, rest, After(before + [t]), literals);
  }

  lemma AfterName(before: seq<Token>, t: Token)
    requires IsName(t.kind)
    ensures After(before + [t]) == Lexer(before, t.data, seq(|t.data|, _ => t.kind == QuotedData), 0, false, true)
  {
    assert (before + [t])[..|before|] == before;
  }

  lemma PushedAll(before: seq<Token>, s: string, quote: bool)
    ensures Pushed(Lexer(before, "", [], 0, quote, true), s) == Lexer(before, s, seq(|s|, _ => quote), 0, quote, true)
  {
    assert "" + s == s;
    assert [] + seq(|s|, _ => quote) == seq(|s|, _ => quote);
  }

  lemma LexQuotedName(before: seq<Token>, t: Token, rest: string, literals: Literals)
    requires QuotedText(t.data, 0)
    ensures Lex("\"" + t.data + "\"" + rest, Lexer(before, "", [], 0, false, true), literals)
         == Lex(rest, Lexer(before, t.data, seq(|t.data|, _ => true), 0, false, true), literals)
  {
    hide Lex, QuotedText, Pushed;
    var l, q := Lexer(before, "", [], 0, false, true), Lexer(before, "", [], 0, true, true);
    var r := Lexer(before, t.data, seq(|t.data|, _ => true), 0, true, true);
    PushedAll(before, t.data, true);
    assert "\"" + t.data + "\"" + rest == "\"" + (t.data + ("\"" + rest));
    LexQuote(t.data + ("\"" + rest), l, literals);
    LexQuoted(t.data, "\"" + rest, q, literals);
    LexQuote(rest, r, literals);
  }

  lemma LexPlainName(before: seq<Token>, t: Token, rest: string, literals: Literals)
    requires PlainText(t.data, 0)
    ensures Lex(t.data + rest, Lexer(before, "", [], 0, false, true), literals)
         == Lex(rest, Lexer(before, t.data, seq(|t.data|, _ => false), 0, false, true), literals)
  {
    hide Lex, PlainText, Pushed;
    PushedAll(before, t.data, false);
    LexPlain(t.data, rest, Lexer(before, "", [], 0, false, true), literals);
  }

  lemma NoNameBefore(before: seq<Token>, t: Token)
    requires IsName(t.kind) && FitsAfter(before, t)
    ensures After(before) == Lexer(before, "", [], 0, false, true)
  {
  }

  // ----- operators -----

  predicate IsSymbol(kind: TokenType) {
    kind == Comma || kind == OpenParen || kind == CloseParen || kind.Op?
  }

  function SymbolText(kind: TokenType): string
    requires IsSymbol(kind)
  {
    if kind == Comma then "," else if kind == OpenParen then "(" else if kind == CloseParen then ")"
    else OperatorText(kind.op)
  }

  /** The text begins with the rest of the operator's text. */
  predicate Rest(op: Operator, tail: string) {
    var s := OperatorText(op);
    |tail| >= |s| - 1 && forall k :: 0 <= k < |s| - 1 ==> tail[k] == s[k + 1]
  }

  /** The rest of an operator's text, with nothing behind it that makes the operator longer. */
  predicate Tail(op: Operator, tail: string) {
    Rest(op, tail) && (|tail| >= |OperatorText(op)| ==> !Extends(op, tail[|OperatorText(op)| - 1]))
  }

  predicate IsSign(op: Operator) {
    UnaryForm(op) || BinaryForm(op) || op == LogicalImpl || op == AssignAdd || op == AssignSub
  }

  predicate IsAngle(op: Operator) {
    || op == Smaller || op == SmallerEqual || op == Shl || op == AssignShl || op == Rol || op == AssignRol
    || op == Bigger || op == BiggerEqual || op == Shr || op == AssignShr || op == Ror || op == AssignRor
  }

  /** The sign is read with the form its place demands, so as itself only in the right place. */
  predicate ReadSign(r: Option<(TokenType, nat)>, op: Operator, unary: bool) {
    && r.Some? && r.value.1 == |OperatorText(op)| - 1 && r.value.0.Op?
    && (r.value.0 == Op(op) <==> (UnaryForm(op) ==> unary) && (BinaryForm(op) ==> !unary))
  }

  lemma ReadsPlus(op: Operator, tail: string, unary: bool)
    requires op == UnaryAdd || op == Add || op == PrefixInc || op == SuffixInc || op == AssignAdd
    requires Tail(op, tail)
    ensures OperatorText(op)[0] == '+' && ReadSign(ReadPlus(tail, unary), op, unary)
  {
    TailAt(op, tail);
    hide Tail, Rest;
  }

  lemma ReadsMinus(op: Operator, tail: string, unary: bool)
    requires op == UnarySub || op == Sub || op == PrefixDec || op == SuffixDec || op == AssignSub || op == LogicalImpl
    requires Tail(op, tail)
    ensures OperatorText(op)[0] == '-' && ReadSign(ReadMinus(tail, unary), op, unary)
  {
    TailAt(op, tail);
    hide Tail, Rest;
  }

  lemma ReadsSign(op: Operator, tail: string, unary: bool)
    requires IsSign(op) && Tail(op, tail)
    ensures ReadSign(ReadOperator(OperatorText(op)[0], tail, unary), op, unary)
  {
    hide OperatorText, ReadPlus, ReadMinus, Tail, ReadSign;
    if op == UnaryAdd || op == Add || op == PrefixInc || op == SuffixInc || op == AssignAdd {
      ReadsPlus(op, tail, unary);
    } else {
      ReadsMinus(op, tail, unary);
    }
  }

  lemma TailAt(op: Operator, tail: string)
    requires Tail(op, tail)
    ensures var s := OperatorText(op);
      && 1 <= |s| <= 4
      && (if |s| == 1 then tail == "" || !Extends(op, tail[0]) else tail != "" && tail[0] == s[1])
      && (|s| == 2 ==> tail[1..] == "" || !Extends(op, tail[1..][0]))
      && (|s| > 2 ==> tail[1..] != "" && tail[1..][0] == s[2])
      && (|s| == 3 ==> tail[2..] == "" || !Extends(op, tail[2..][0]))
      && (|s| > 3 ==> |tail| > 2 && tail[2..] != "" && tail[2..][0] == s[3])
  {
    hide Extends;
  }

  lemma ReadsLess(op: Operator, tail: string)
    requires op == Smaller || op == SmallerEqual || op == Shl || op == AssignShl || op == Rol || op == AssignRol
    requires Tail(op, tail)
    ensures OperatorText(op)[0] == '<'
    ensures ReadAngle(tail, '<', Smaller, SmallerEqual, Shl, AssignShl, Rol, AssignRol) == Some((Op(op), |OperatorText(op)| - 1))
  {
    TailAt(op, tail);
    hide Tail, Rest;
  }

  lemma ReadsBigger(op: Operator, tail: string)
    requires op == Bigger || op == BiggerEqual || op == Shr || op == AssignShr || op == Ror || op == AssignRor
    requires Tail(op, tail)
    ensures OperatorText(op)[0] == '>'
    ensures ReadAngle(tail, '>', Bigger, BiggerEqual, Shr, AssignShr, Ror, AssignRor) == Some((Op(op), |OperatorText(op)| - 1))
  {
    TailAt(op, tail);
    hide Tail, Rest;
  }

  lemma ReadsAngle(op: Operator, tail: string, unary: bool)
    requires IsAngle(op) && Tail(op, tail)
    ensures ReadOperator(OperatorText(op)[0], tail, unary) == Some((Op(op), |OperatorText(op)| - 1))
  {
    hide OperatorText, ReadAngle, Tail;
    if op == Smaller || op == SmallerEqual || op == Shl || op == AssignShl || op == Rol || op == AssignRol {
      ReadsLess(op, tail);
    } else {
      ReadsBigger(op, tail);
    }
  }

  lemma ReadsOther(op: Operator, tail: string, unary: bool)
    requires !IsSign(op) && !IsAngle(op) && Tail(op, tail)
    ensures ReadOperator(OperatorText(op)[0], tail, unary) == Some((Op(op), |OperatorText(op)| - 1))
  {
    TailAt(op, tail);
    hide Tail, Rest;
  }

  /** An operator is read as a whole, with the form its place demands, unless the text behind it makes it longer. */
  lemma ReadsSymbol(kind: TokenType, text: string, unary: bool)
    requires IsSymbol(kind) && (text != "" && kind.Op? ==> !Extends(kind.op, text[0]))
    ensures var s := SymbolText(kind);
      && s != "" && s[0] != '"' && s[0] != '[' && s[0] != ']'
      && var r := ReadOperator(s[0], s[1..] + text, unary);
      && r.Some? && r.value.1 == |s| - 1
      && IsSymbol(r.value.0) && (r.value.0 == OpenParen <==> kind == OpenParen)
      && (r.value.0 == kind <==> (kind.Op? ==> (UnaryForm(kind.op) ==> unary) && (BinaryForm(kind.op) ==> !unary)))
  {
    var s := SymbolText(kind);
    var tail := s[1..] + text;
    if kind.Op? {
      hide ReadOperator, UnaryForm, BinaryForm, Extends;
      assert Tail(kind.op, tail);
      if IsSign(kind.op) {
        ReadsSign(kind.op, tail, unary);
      } else if IsAngle(kind.op) {
        ReadsAngle(kind.op, tail, unary);
        NotASign(kind.op);
      } else {
        ReadsOther(kind.op, tail, unary);
        NotASign(kind.op);
      }
    }
  }

  lemma NotASign(op: Operator)
    requires !IsSign(op)
    ensures !UnaryForm(op) && !BinaryForm(op)
  {
  }

  // ----- reading a list -----

  lemma FlushName(before: seq<Token>, literals: Literals)
    requires before != [] && WellSpelled(before[|before| - 1], literals)
    ensures var last := before[|before| - 1];
      FlushData(After(before), last.kind == Function, literals) == Lexer(before, "", [], 0, false, true)
  {
    hide PlainText, QuotedText, OperatorText;
    var last := before[|before| - 1];
    if IsName(last.kind) {
      var quoted := seq(|last.data|, _ => last.kind == QuotedData);
      assert quoted[0] == (last.kind == QuotedData);
      assert before[..|before| - 1] + [last] == before;
    }
  }

  lemma UnaryAfter(before: seq<Token>, t: Token, literals: Literals)
    requires before != [] ==> WellSpelled(before[|before| - 1], literals)
    ensures IsUnaryOperator(After(before)) <==> UnaryPlace(before) && !(before != [] && IsName(before[|before| - 1].kind))
  {
    hide PlainText, QuotedText, OperatorText;
  }

  /** One round of the loop takes the whole symbol; a sign in the wrong place is taken for its twin. */
  lemma SymbolOne(before: seq<Token>, t: Token, text: string, literals: Literals)
    requires before != [] ==> WellSpelled(before[|before| - 1], literals)
    requires IsSymbol(t.kind) && WellSpelled(t, literals) && Stops(t, text)
    requires FitsAfter(before, t) || (before != [] && !IsName(before[|before| - 1].kind))
    ensures var r := LexOne(Spell(t) + text, After(before), literals);
      && r.1 == |Spell(t)|
      && exists kind ::
        && r.0 == Lexer(before + [Token(t.data, kind, 0)], "", [], 0, false, true)
        && (kind == t.kind <==> (t.kind.Op? ==>
            && (UnaryForm(t.kind.op) ==> IsUnaryOperator(After(before)))
            && (BinaryForm(t.kind.op) ==> !IsUnaryOperator(After(before)))))
  {
    hide WellSpelled, After, FlushData, ReadOperator, IsUnaryOperator, OperatorText, FitsAfter, UnaryForm, BinaryForm, Extends;
    var s, l := Spell(t), After(before);
    SpelledSymbol(t, literals);
    ReadsSymbol(t.kind, text, IsUnaryOperator(l));
    var all := s + text;
    assert all[0] == s[0] && all[1..] == s[1..] + text && all[..|s|] == s;
    AfterIsIdle(before);
    var kind := ReadOperator(s[0], s[1..] + text, IsUnaryOperator(l)).value.0;
    FlushRead(before, t, kind, literals);
    assert LexOne(all, l, literals) == (AddOperatorToken(l, s, kind, literals), |s|);
  }

  lemma FlushRead(before: seq<Token>, t: Token, kind: TokenType, literals: Literals)
    requires before != [] ==> WellSpelled(before[|before| - 1], literals)
    requires IsSymbol(t.kind) && IsSymbol(kind) && (kind == OpenParen <==> t.kind == OpenParen)
    requires FitsAfter(before, t) || (before != [] && !IsName(before[|before| - 1].kind))
    ensures FlushData(After(before), kind == OpenParen, literals) == Lexer(before, "", [], 0, false, true)
  {
    hide WellSpelled;
    if before != [] {
      FlushName(before, literals);
    }
  }

  lemma LexSymbol(before: seq<Token>, t: Token, gap: string, rest: string, literals: Literals)
    requires before != [] ==> WellSpelled(before[|before| - 1], literals)
    requires IsSymbol(t.kind) && WellSpelled(t, literals) && FitsAfter(before, t)
    requires Blanks(gap) && Stops(t, gap + rest)
    ensures Lex(Spell(t) + gap + rest, After(before), literals) == Lex(rest, After(before + [t]), literals)
  {
    hide Lex, LexOne, WellSpelled, After, IsUnaryOperator, OperatorText, UnaryPlace, Blanks, Stops;
    SpelledSymbol(t, literals);
    UnaryAfter(before, t, literals);
    SymbolOne(before, t, gap + rest, literals);
    assert Spell(t) + gap + rest == Spell(t) + (gap + rest);
    var text := Spell(t) + (gap + rest);
    assert text[|Spell(t)|..] == gap + rest;
    LexStep(text, After(before), literals);
    AfterSymbol(before, t);
    assert t == Token(t.data, t.kind, 0);
    LexBlanks(gap, rest, After(before + [t]), literals);
  }

  lemma SpelledSymbol(t: Token, literals: Literals)
    requires IsSymbol(t.kind) && WellSpelled(t, literals)
    ensures Spell(t) == SymbolText(t.kind) == t.data && t.info == 0
  {
    hide OperatorText;
  }

  lemma AfterIsIdle(before: seq<Token>)
    ensures After(before).memory == 0 && !After(before).quote && After(before).valid
  {
  }

  lemma AfterSymbol(before: seq<Token>, t: Token)
    requires IsSymbol(t.kind)
    ensures After(before + [t]) == Lexer(before + [t], "", [], 0, false, true)
  {
  }

  /** The last token ends where the rest begins. */
  predicate StopsAt(tokens: seq<Token>, gaps: seq<string>, rest: string)
    requires |gaps| == |tokens|
  {
    tokens != [] ==> Stops(tokens[|tokens| - 1], gaps[|tokens| - 1] + rest)
  }

  lemma SpellNotEmpty(t: Token, literals: Literals)
    requires WellSpelled(t, literals)
    ensures Spell(t) != ""
  {
  }

  lemma StopsBefore(tokens: seq<Token>, gaps: seq<string>, n: nat, more: string, literals: Literals)
    requires AllSpelled(tokens, literals) && Separated(tokens, gaps) && n < |tokens|
    ensures StopsAt(tokens[..n], gaps[..n], Spell(tokens[n]) + more)
  {
    hide WellSpelled, Extends, Spell;
    SpellNotEmpty(tokens[n], literals);
    if n > 0 {
      assert (gaps[n - 1] + (Spell(tokens[n]) + more))[0] == (gaps[n - 1] + Spell(tokens[n]))[0];
    }
  }

  lemma {:induction false} LexAll(tokens: seq<Token>, gaps: seq<string>, rest: string, literals: Literals)
    requires AllSpelled(tokens, literals) && AllFit(tokens) && Separated(tokens, gaps) && StopsAt(tokens, gaps, rest)
    ensures Lex(Show(tokens, gaps) + rest, START, literals) == Lex(rest, After(tokens), literals)
    decreases |tokens|
  {
    hide Lex, WellSpelled, FitsAfter, After, Spell, Stops, Blanks;
    if tokens == [] {
      assert Show(tokens, gaps) + rest == rest && After([]) == START by { NothingRead(); }
    } else {
      var n := |tokens| - 1;
      var before, t, gap := tokens[..n], tokens[n], gaps[n];
      assert AllFit(before) by { FrontFits(tokens, n); }
      assert Show(tokens, gaps) + rest == Show(before, gaps[..n]) + (Spell(t) + gap + rest);
      assert Spell(t) + gap + rest == Spell(t) + (gap + rest);
      StopsBefore(tokens, gaps, n, gap + rest, literals);
      LexAll(before, gaps[..n], Spell(t) + gap + rest, literals);
      assert before + [t] == tokens;
      NameOrSymbol(t, literals);
      if IsName(t.kind) {
        LexName(before, t, gap, rest, literals);
      } else {
        LexSymbol(before, t, gap, rest, literals);
      }
    }
  }

  lemma NothingRead()
    ensures After([]) == START
  {
  }

  lemma NameOrSymbol(t: Token, literals: Literals)
    requires WellSpelled(t, literals)
    ensures IsName(t.kind) || IsSymbol(t.kind)
  {
  }

  /** Every list of well-spelled tokens in which each fits its place is read back as it was written,
      whatever blanks keep its operators apart. */
  lemma TokenizeShow(tokens: seq<Token>, gaps: seq<string>, literals: Literals)
    requires AllSpelled(tokens, literals) && AllFit(tokens) && Separated(tokens, gaps)
    requires tokens == [] || tokens[|tokens| - 1].kind != Function
    ensures Tokenize(Show(tokens, gaps), literals) == Lexer(tokens, "", [], 0, false, true)
  {
    hide WellSpelled, AllFit, Show, After;
    BlanksStop(tokens, gaps);
    LexAll(tokens, gaps, "", literals);
    assert Show(tokens, gaps) + "" == Show(tokens, gaps);
    if tokens == [] {
      NothingRead();
    } else {
      FlushName(tokens, literals);
    }
  }

  /** Blanks, and a closing parenthesis, make no operator longer. */
  lemma BlanksStop(tokens: seq<Token>, gaps: seq<string>)
    requires Separated(tokens, gaps)
    ensures StopsAt(tokens, gaps, "") && forall k: nat :: StopsAt(tokens, gaps, Repeat(')', k))
  {
    if tokens != [] {
      var n := |tokens| - 1;
      assert gaps[n] != "" ==> IsBlank(gaps[n][0]);
      assert gaps[n] + "" == gaps[n];
      forall k: nat
        ensures Stops(tokens[n], gaps[n] + Repeat(')', k))
      {
        assert gaps[n] != "" ==> (gaps[n] + Repeat(')', k))[0] == gaps[n][0];
      }
    }
  }

  // ----- expression trees -----

  predicate Starter(kind: TokenType) {
    IsOperand(kind) || kind == Function || kind == OpenParen || (kind.Op? && IsPrefixOperator(kind.op))
  }

  predicate Ender(kind: TokenType) {
    IsOperand(kind) || kind == CloseParen || (kind.Op? && IsSuffixOperator(kind.op))
  }

  /** What may stand next to each other in an expression. */
  predicate PairOk(a: TokenType, b: TokenType) {
    if Ender(a) then b == CloseParen || b == Comma || (b.Op? && !IsPrefixOperator(b.op))
    else if a == Function then b == OpenParen
    else Starter(b) || (a == OpenParen && b == CloseParen)
  }

  predicate Adjacent(tokens: seq<Token>) {
    forall i :: 0 < i < |tokens| ==> PairOk(tokens[i - 1].kind, tokens[i].kind)
  }

  predicate WellFormed(tokens: seq<Token>) {
    tokens != [] && Starter(tokens[0].kind) && Ender(tokens[|tokens| - 1].kind) && Adjacent(tokens)
  }

  lemma Join(x: seq<Token>, y: seq<Token>)
    requires x != [] && y != [] && Adjacent(x) && Adjacent(y) && PairOk(x[|x| - 1].kind, y[0].kind)
    ensures Adjacent(x + y)
  {
    hide PairOk;
    forall i | 0 < i < |x + y|
      ensures PairOk((x + y)[i - 1].kind, (x + y)[i].kind)
    {
      if i > |x| {
        assert (x + y)[i - 1] == y[i - |x| - 1] && (x + y)[i] == y[i - |x|];
      }
    }
  }

  lemma One(t: Token)
    ensures Adjacent([t])
  {
  }

  lemma GroupWell(open: Token, body: seq<Token>, close: Token)
    requires open.kind == OpenParen && close.kind == CloseParen && WellFormed(body)
    ensures WellFormed([open] + body + [close])
  {
    hide Adjacent;
    One(open);
    One(close);
    Join([open], body);
    Join([open] + body, [close]);
  }

  lemma PrefixWell(op: Token, arg: seq<Token>)
    requires op.kind.Op? && IsPrefixOperator(op.kind.op) && WellFormed(arg)
    ensures WellFormed([op] + arg)
  {
    hide Adjacent;
    One(op);
    Join([op], arg);
  }

  lemma SuffixWell(arg: seq<Token>, op: Token)
    requires op.kind.Op? && IsSuffixOperator(op.kind.op) && WellFormed(arg)
    ensures WellFormed(arg + [op])
  {
    hide Adjacent;
    One(op);
    Join(arg, [op]);
  }

  lemma InfixWell(left: seq<Token>, op: Token, right: seq<Token>)
    requires op.kind == Comma || (op.kind.Op? && IsInfixOperator(op.kind.op))
    requires WellFormed(left) && WellFormed(right)
    ensures WellFormed(left + [op] + right)
  {
    hide Adjacent;
    One(op);
    Join(left, [op]);
    Join(left + [op], right);
  }

  lemma CallWell(name: Token, open: Token, args: seq<Token>, close: Token)
    requires name.kind == Function && open.kind == OpenParen && close.kind == CloseParen && (args == [] || WellFormed(args))
    ensures WellFormed([name, open] + args + [close])
  {
    hide Adjacent;
    One(name);
    One(open);
    One(close);
    Join([name], [open]);
    assert [name] + [open] == [name, open];
    if args == [] {
      assert [name, open] + args + [close] == [name, open] + [close];
      Join([name, open], [close]);
    } else {
      Join([name, open], args);
      Join([name, open] + args, [close]);
    }
  }

  lemma {:induction false} TreeIsWellFormed(e: Expr)
    requires WellParenthesized(e)
    ensures WellFormed(Flatten(e))
    decreases e
  {
    hide WellFormed, FitsLeft, FitsRight, IsPrefixOperator, IsSuffixOperator;
    match e
    case Leaf(token) => LeafWell(token);
    case Group(open, body, close) =>
      TreeIsWellFormed(body);
      GroupWell(open, Flatten(body), close);
    case Prefix(op, arg) =>
      TreeIsWellFormed(arg);
      PrefixWell(op, Flatten(arg));
    case Suffix(op, arg) =>
      TreeIsWellFormed(arg);
      SuffixWell(Flatten(arg), op);
    case Infix(op, left, right) =>
      TreeIsWellFormed(left);
      TreeIsWellFormed(right);
      InfixWell(Flatten(left), op, Flatten(right));
    case Call(name, open, args, close) =>
      if args.Arg? {
        ArgsAreWellFormed(args);
      }
      CallWell(name, open, FlattenArgs(args), close);
  }

  lemma LeafWell(token: Token)
    requires IsOperand(token.kind)
    ensures WellFormed([token])
  {
  }

  lemma {:induction false} ArgsAreWellFormed(args: Args)
    requires WellParenthesizedArgs(args) && args.Arg?
    ensures WellFormed(FlattenArgs(args))
    decreases args
  {
    hide WellFormed;
    TreeIsWellFormed(args.first);
    if args.others.Arg? {
      ArgsAreWellFormed(args.others);
      InfixWell(Flatten(args.first), args.comma, FlattenArgs(args.others));
    }
  }

  /** A plus or minus sign, single or double, right behind a suffix operator. */
  predicate SignAfterSuffix(a: TokenType, b: TokenType) {
    a.Op? && IsSuffixOperator(a.op) && b.Op? && BinaryForm(b.op)
  }

  predicate Guarded(tokens: seq<Token>) {
    forall i :: 0 < i < |tokens| ==> !SignAfterSuffix(tokens[i - 1].kind, tokens[i].kind)
  }

  lemma PairFits(before: seq<Token>, t: Token)
    requires if before == [] then Starter(t.kind) else PairOk(before[|before| - 1].kind, t.kind)
    requires before != [] ==> !SignAfterSuffix(before[|before| - 1].kind, t.kind)
    ensures FitsAfter(before, t)
  {
  }

  lemma GuardedFits(tokens: seq<Token>)
    requires tokens != [] ==> Starter(tokens[0].kind)
    requires Adjacent(tokens) && Guarded(tokens)
    ensures AllFit(tokens)
  {
    hide FitsAfter, PairOk, SignAfterSuffix, Starter;
    forall i | 0 <= i < |tokens|
      ensures FitsAfter(tokens[..i], tokens[i])
    {
      PairFits(tokens[..i], tokens[i]);
    }
  }

  lemma {:induction false} LexExtends(text: string, l: Lexer, literals: Literals)
    ensures l.tokens <= Lex(text, l, literals).tokens
    decreases |text|
  {
    hide ReadOperator;
    if text != "" {
      var r := LexOne(text, l, literals);
      LexExtends(text[r.1..], r.0, literals);
    }
  }

  /** A sign behind a suffix operator is read as its unary twin. */
  lemma SignIsMisread(before: seq<Token>, t: Token, text: string, literals: Literals)
    requires before != [] && SignAfterSuffix(before[|before| - 1].kind, t.kind) && Stops(t, text)
    requires WellSpelled(before[|before| - 1], literals) && WellSpelled(t, literals)
    ensures var r := LexOne(Spell(t) + text, After(before), literals);
      |r.0.tokens| == |before| + 1 && r.0.tokens[|before|].kind != t.kind
  {
    hide LexOne, WellSpelled, After, OperatorText, Spell, SignAfterSuffix, UnaryPlace, Stops;
    BehindSuffix(before, t, literals);
    SymbolOne(before, t, text, literals);
  }

  /** An operator is read together with a character that makes it longer. */
  lemma ReadsLonger(op: Operator, tail: string, unary: bool)
    requires Rest(op, tail) && |tail| >= |OperatorText(op)| && Extends(op, tail[|OperatorText(op)| - 1])
    ensures var s := OperatorText(op);
      && s[0] != '"' && s[0] != '[' && s[0] != ']'
      && var r := ReadOperator(s[0], tail, unary);
      && r.Some? && r.value.1 >= |s| && r.value.0.Op?
  {
  }

  lemma MergedIsMisread(before: seq<Token>, t: Token, text: string, literals: Literals)
    requires before != [] ==> WellSpelled(before[|before| - 1], literals)
    requires WellSpelled(t, literals) && !Stops(t, text)
    requires FitsAfter(before, t) || (before != [] && !IsName(before[|before| - 1].kind))
    ensures var r := LexOne(Spell(t) + text, After(before), literals);
      |r.0.tokens| == |before| + 1 && r.0.tokens[|before|].data != t.data
  {
    hide WellSpelled, After, FlushData, ReadOperator, IsUnaryOperator, OperatorText, FitsAfter, Extends;
    var s, l := Spell(t), After(before);
    SpelledSymbol(t, literals);
    var all := s + text;
    assert s != "" by { SpellNotEmpty(t, literals); }
    assert all[0] == s[0] && all[1..] == s[1..] + text;
    assert Rest(t.kind.op, all[1..]) && all[1..][|s| - 1] == text[0];
    ReadsLonger(t.kind.op, all[1..], IsUnaryOperator(l));
    AfterIsIdle(before);
    var op := ReadOperator(all[0], all[1..], IsUnaryOperator(l)).value;
    FlushRead(before, t, op.0, literals);
    assert LexOne(all, l, literals) == (AddOperatorToken(l, all[..1 + op.1], op.0, literals), 1 + op.1);
  }

  /** The token at `i` is not read as itself: its sign takes the other form, or it runs into the next token. */
  predicate Misread(tokens: seq<Token>, gaps: seq<string>, i: nat)
    requires |gaps| == |tokens|
  {
    && i < |tokens|
    && ((i > 0 && SignAfterSuffix(tokens[i - 1].kind, tokens[i].kind))
        || (i + 1 < |tokens| && !Stops(tokens[i], gaps[i] + Spell(tokens[i + 1]))))
  }

  lemma MisreadDiffers(tokens: seq<Token>, gaps: seq<string>, i: nat, literals: Literals)
    requires AllSpelled(tokens, literals) && |gaps| == |tokens| && i < |tokens| && Misread(tokens, gaps, i)
    requires AllFit(tokens[..i]) && Separated(tokens[..i], gaps[..i])
    requires i > 0 ==> Stops(tokens[i - 1], gaps[i - 1] + Spell(tokens[i]))
    requires FitsAfter(tokens[..i], tokens[i]) || (i > 0 && SignAfterSuffix(tokens[i - 1].kind, tokens[i].kind))
    ensures Tokenize(Show(tokens, gaps), literals).tokens != tokens
  {
    hide Lex, LexOne, WellSpelled, After, FitsAfter, AllFit, OperatorText, Spell, Show, FlushData, SignAfterSuffix, Stops;
    hide Separated, Tokenize;
    var before, t := tokens[..i], tokens[i];
    var behind := gaps[i] + Show(tokens[i + 1..], gaps[i + 1..]);
    ShowAround(tokens, gaps, i);
    StopsThere(tokens, gaps, i, behind, literals);
    LexAll(before, gaps[..i], Spell(t) + behind, literals);
    if i + 1 < |tokens| {
      StopsBehind(tokens, gaps, i, literals);
    }
    if i > 0 && SignAfterSuffix(tokens[i - 1].kind, t.kind) {
      BehindSuffix(before, t, literals);
    }
    if Stops(t, behind) {
      SignIsMisread(before, t, behind, literals);
    } else {
      MergedIsMisread(before, t, behind, literals);
    }
    assert Spell(t) != "" by { SpellNotEmpty(t, literals); }
    OneRoundStays(Show(tokens, gaps), Spell(t) + behind, After(before), literals);
  }

  /** What one round of the loop has read is read for good. */
  lemma OneRoundStays(all: string, text: string, l: Lexer, literals: Literals)
    requires text != "" && Lex(all, START, literals) == Lex(text, l, literals)
    ensures LexOne(text, l, literals).0.tokens <= Tokenize(all, literals).tokens
  {
    hide Lex, LexOne, FlushData;
    LexStep(text, l, literals);
    var r := LexOne(text, l, literals);
    LexExtends(text[r.1..], r.0, literals);
    FlushExtends(Lex(all, START, literals), literals);
  }

  lemma StopsThere(tokens: seq<Token>, gaps: seq<string>, i: nat, behind: string, literals: Literals)
    requires |gaps| == |tokens| && i < |tokens| && WellSpelled(tokens[i], literals)
    requires i > 0 ==> Stops(tokens[i - 1], gaps[i - 1] + Spell(tokens[i]))
    ensures StopsAt(tokens[..i], gaps[..i], Spell(tokens[i]) + behind)
  {
    hide WellSpelled, Extends, Spell;
    SpellNotEmpty(tokens[i], literals);
    if i > 0 {
      assert (gaps[i - 1] + (Spell(tokens[i]) + behind))[0] == (gaps[i - 1] + Spell(tokens[i]))[0];
    }
  }

  lemma StopsBehind(tokens: seq<Token>, gaps: seq<string>, i: nat, literals: Literals)
    requires AllSpelled(tokens, literals) && |gaps| == |tokens| && i + 1 < |tokens|
    ensures Stops(tokens[i], gaps[i] + Show(tokens[i + 1..], gaps[i + 1..]))
       <==> Stops(tokens[i], gaps[i] + Spell(tokens[i + 1]))
  {
    hide WellSpelled, Extends, Spell, Show;
    var next, gap := Spell(tokens[i + 1]), gaps[i];
    ShowFirst(tokens[i + 1..], gaps[i + 1..]);
    SpellNotEmpty(tokens[i + 1], literals);
    assert (gap + Show(tokens[i + 1..], gaps[i + 1..]))[0] == (gap + next)[0];
  }

  lemma BehindSuffix(before: seq<Token>, t: Token, literals: Literals)
    requires before != [] && SignAfterSuffix(before[|before| - 1].kind, t.kind)
    requires WellSpelled(before[|before| - 1], literals)
    ensures IsUnaryOperator(After(before)) && t.kind.Op? && BinaryForm(t.kind.op) && !IsName(before[|before| - 1].kind)
  {
    hide WellSpelled, After;
    UnaryAfter(before, t, literals);
  }

  lemma ShowCons(t: Token, gap: string, tokens: seq<Token>, gaps: seq<string>)
    requires |gaps| == |tokens|
    ensures Show([t] + tokens, [gap] + gaps) == Spell(t) + (gap + Show(tokens, gaps))
  {
    hide Spell, Show;
    ShowParts([t], [gap], tokens, gaps);
    ShowOne(t, gap);
    assert Spell(t) + gap + Show(tokens, gaps) == Spell(t) + (gap + Show(tokens, gaps));
  }

  lemma ShowFirst(tokens: seq<Token>, gaps: seq<string>)
    requires |gaps| == |tokens| > 0
    ensures Show(tokens, gaps) == Spell(tokens[0]) + (gaps[0] + Show(tokens[1..], gaps[1..]))
  {
    hide Spell, Show;
    ShowCons(tokens[0], gaps[0], tokens[1..], gaps[1..]);
    assert [tokens[0]] + tokens[1..] == tokens && [gaps[0]] + gaps[1..] == gaps;
  }

  lemma ShowAround(tokens: seq<Token>, gaps: seq<string>, i: nat)
    requires |gaps| == |tokens| && i < |tokens|
    ensures Show(tokens, gaps)
         == Show(tokens[..i], gaps[..i]) + (Spell(tokens[i]) + (gaps[i] + Show(tokens[i + 1..], gaps[i + 1..])))
  {
    hide Spell, Show;
    ShowParts(tokens[..i], gaps[..i], tokens[i..], gaps[i..]);
    assert tokens[..i] + tokens[i..] == tokens && gaps[..i] + gaps[i..] == gaps;
    assert tokens[i..][1..] == tokens[i + 1..] && gaps[i..][1..] == gaps[i + 1..];
    ShowFirst(tokens[i..], gaps[i..]);
  }

  lemma FlushExtends(l: Lexer, literals: Literals)
    ensures l.tokens <= FlushData(l, false, literals).tokens
  {
  }

  lemma {:induction false} ShowParts(x: seq<Token>, gx: seq<string>, y: seq<Token>, gy: seq<string>)
    requires |gx| == |x| && |gy| == |y|
    ensures Show(x + y, gx + gy) == Show(x, gx) + Show(y, gy)
    decreases |y|
  {
    hide Spell, Show;
    if y == [] {
      ShowNothing();
      assert x + y == x && gx + gy == gx && Show(x, gx) + "" == Show(x, gx);
    } else {
      var n := |y| - 1;
      var front, gaps, t, gap := y[..n], gy[..n], y[n], gy[n];
      ShowParts(x, gx, front, gaps);
      ShowMore(x + front, gx + gaps, t, gap);
      ShowMore(front, gaps, t, gap);
      assert y == front + [t] && gy == gaps + [gap];
      assert x + y == x + front + [t] && gx + gy == gx + gaps + [gap];
      Assoc(Show(x, gx), Show(front, gaps), Spell(t) + gap);
    }
  }

  lemma ShowNothing()
    ensures Show([], []) == ""
  {
  }

  lemma ShowMore(tokens: seq<Token>, gaps: seq<string>, t: Token, gap: string)
    requires |gaps| == |tokens|
    ensures Show(tokens + [t], gaps + [gap]) == Show(tokens, gaps) + (Spell(t) + gap)
  {
    hide Spell;
    assert (tokens + [t])[..|tokens|] == tokens && (gaps + [gap])[..|tokens|] == gaps;
  }

  lemma Assoc(x: string, y: string, z: string)
    ensures x + y + z == x + (y + z)
  {
  }

  lemma ShowOne(t: Token, gap: string)
    ensures Show([t], [gap]) == Spell(t) + gap
  {
    hide Spell;
    assert [t][..0] == [] && [gap][..0] == [] && "" + (Spell(t) + gap) == Spell(t) + gap;
  }

  /** A tree written down with well-spelled names and any blanks is read back exactly if no plus or minus
      sign stands right behind a suffix operator and no two operators run together. */
  lemma TreeIsReadBackIff(e: Expr, gaps: seq<string>, literals: Literals)
    requires WellParenthesized(e) && AllSpelled(Flatten(e), literals)
    requires |gaps| == |Flatten(e)| && forall i :: 0 <= i < |gaps| ==> Blanks(gaps[i])
    ensures var tokens := Flatten(e);
      var read := Tokenize(Show(tokens, gaps), literals);
      && (read.tokens == tokens <==> Guarded(tokens) && Separated(tokens, gaps))
      && (read.tokens == tokens ==> read.valid)
  {
    hide Tokenize, AllSpelled, AllFit, PairOk, SignAfterSuffix, WellParenthesized, Stops, Spell, Show, Flatten, Blanks;
    var tokens := Flatten(e);
    TreeIsWellFormed(e);
    if Guarded(tokens) && Separated(tokens, gaps) {
      GuardedFits(tokens);
      NotAFunction(tokens);
      TokenizeShow(tokens, gaps, literals);
    } else {
      var i := SomeMisread(tokens, gaps);
      i := FirstMisread(tokens, gaps, i);
      GuardedFits(tokens[..i]);
      FitsOrSign(tokens, i);
      MisreadDiffers(tokens, gaps, i, literals);
    }
  }

  lemma NotAFunction(tokens: seq<Token>)
    requires WellFormed(tokens)
    ensures tokens[|tokens| - 1].kind != Function
  {
  }

  lemma FitsOrSign(tokens: seq<Token>, i: nat)
    requires WellFormed(tokens) && i < |tokens| && Guarded(tokens[..i])
    ensures FitsAfter(tokens[..i], tokens[i]) || (i > 0 && SignAfterSuffix(tokens[i - 1].kind, tokens[i].kind))
  {
    hide FitsAfter, SignAfterSuffix, PairOk, Starter, Ender;
    if i == 0 || !SignAfterSuffix(tokens[i - 1].kind, tokens[i].kind) {
      PairFits(tokens[..i], tokens[i]);
    }
  }

  lemma SomeMisread(tokens: seq<Token>, gaps: seq<string>) returns (i: nat)
    requires |gaps| == |tokens| && forall i :: 0 <= i < |gaps| ==> Blanks(gaps[i])
    requires !Guarded(tokens) || !Separated(tokens, gaps)
    ensures Misread(tokens, gaps, i)
  {
    hide SignAfterSuffix, Stops, Spell, Blanks;
    if !Guarded(tokens) {
      var j :| 0 < j < |tokens| && SignAfterSuffix(tokens[j - 1].kind, tokens[j].kind);
      i := j;
    } else {
      var j :| 0 < j < |tokens| && !Stops(tokens[j - 1], gaps[j - 1] + Spell(tokens[j]));
      i := j - 1;
    }
  }

  lemma {:induction false} FirstMisread(tokens: seq<Token>, gaps: seq<string>, n: nat) returns (i: nat)
    requires |gaps| == |tokens| && Misread(tokens, gaps, n) && forall i :: 0 <= i < |gaps| ==> Blanks(gaps[i])
    ensures Misread(tokens, gaps, i) && Guarded(tokens[..i]) && Separated(tokens[..i], gaps[..i])
    ensures i > 0 ==> Stops(tokens[i - 1], gaps[i - 1] + Spell(tokens[i]))
  {
    hide SignAfterSuffix, Stops, Spell, Blanks;
    if j :| 0 <= j < n && Misread(tokens, gaps, j) {
      i := FirstMisread(tokens, gaps, j);
    } else {
      i := n;
      forall j | 0 < j < n
        ensures !SignAfterSuffix(tokens[..n][j - 1].kind, tokens[..n][j].kind)
        ensures Stops(tokens[..n][j - 1], gaps[..n][j - 1] + Spell(tokens[..n][j]))
      {
        assert !Misread(tokens, gaps, j) && !Misread(tokens, gaps, j - 1);
      }
      assert n > 0 ==> !Misread(tokens, gaps, n - 1);
    }
  }

  lemma FrontFits(tokens: seq<Token>, n: nat)
    requires AllFit(tokens) && n <= |tokens|
    ensures AllFit(tokens[..n])
  {
    hide FitsAfter;
    forall i | 0 <= i < n
      ensures FitsAfter(tokens[..n][..i], tokens[..n][i])
    {
      assert tokens[..n][..i] == tokens[..i];
    }
  }
}
