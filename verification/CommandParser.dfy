/** The command line tokenizer and the escaping that protects an argument from it. */
module CommandParser {
  datatype ParseState = Default | Text | StringFormat

  /** Length of the run of backslashes at the front. */
  function SlashRun(s: string): (n: nat)
    ensures n <= |s|
    ensures forall i :: 0 <= i < n ==> s[i] == '\\'
    ensures n < |s| ==> s[n] != '\\'
  {
    if s == "" || s[0] != '\\' then 0 else 1 + SlashRun(s[1..])
  }

  function Slashes(n: nat): (s: string)
    ensures |s| == n
  {
    if n == 0 then "" else "\\" + Slashes(n - 1)
  }

  /** What the parser does with the next characters: how many it uses, what it adds to the
      current token, whether the token ends, and the state it goes on in. */
  datatype Chunk = Chunk(used: nat, text: string, ends: bool, state: ParseState)

  function Next(s: string, state: ParseState, first: bool): (c: Chunk)
    requires s != ""
    ensures 1 <= c.used <= |s|
  {
    match state
    case Default => NextDefault(s, first)
    case Text => NextText(s)
    case StringFormat => NextFormat(s)
  }

  function NextDefault(s: string, first: bool): (c: Chunk)
    requires s != ""
    ensures 1 <= c.used <= |s|
  {
    if s[0] == '\t' || s[0] == ' ' then Chunk(1, "", first, Default)
    else if s[0] == ',' then Chunk(1, "", true, Default)
    else if s[0] == '"' then Chunk(1, "", false, Text)
    else if s[0] != '\\' then Chunk(1, [s[0]], false, Default)
    else
      var n := SlashRun(s);
      var next := if n < |s| then s[n] else '\0';
      if next == '"' then
        Chunk(n + 1, Slashes(n / 2) + (if n % 2 == 1 then "\"" else ""), false, if n % 2 == 1 then Default else Text)
      else if n % 2 == 0 then Chunk(n, Slashes(n), false, Default)
      else if next == '\0' then Chunk(n, Slashes(n - 1) + "\\", false, Default)
      else if next == '\t' || next == ' ' then Chunk(n + 1, Slashes(n - 1) + " ", false, Default)
      else if next == ',' then Chunk(n + 1, Slashes(n - 1) + ",", false, Default)
      else Chunk(n + 1, Slashes(n - 1) + "\\" + [next], false, Default)
  }

  function NextText(s: string): (c: Chunk)
    requires s != ""
    ensures 1 <= c.used <= |s|
  {
    if s[0] == '"' then Chunk(1, "", false, Default)
    else if s[0] == '{' then Chunk(1, "{", false, StringFormat)
    else if s[0] != '\\' then Chunk(1, [s[0]], false, Text)
    else
      var n := SlashRun(s);
      var next := if n < |s| then s[n] else '\0';
      if next == '{' then Chunk(n + 1, Slashes(n / 2) + "{", false, if n % 2 == 0 then StringFormat else Text)
      else if next == '"' then
        Chunk(n + 1, Slashes(n / 2) + (if n % 2 == 1 then "\"" else ""), false, if n % 2 == 1 then Text else Default)
      else Chunk(n, Slashes(n), false, Text)
  }

  function NextFormat(s: string): (c: Chunk)
    requires s != ""
    ensures 1 <= c.used <= |s|
  {
    var next := if 1 < |s| then s[1] else '\0';
    if s[0] == '{' then (if next == '{' then Chunk(2, "{{", false, StringFormat) else Chunk(1, "{", false, StringFormat))
    else if s[0] == '}' then (if next == '}' then Chunk(2, "}}", false, StringFormat) else Chunk(1, "}", false, Text))
    else if s[0] == '\\' && (next == '"' || next == '\\') then Chunk(2, [next], false, StringFormat)
    else Chunk(1, [s[0]], false, StringFormat)
  }

  /** The tokens of `s` when `data` is the token being collected behind `tokens`. */
  function Parse(s: string, state: ParseState, data: string, tokens: seq<string>): seq<string>
    decreases |s|
  {
    if s == "" then tokens + [data]
    else
      var c := Next(s, state, tokens == []);
      if c.ends then Parse(s[c.used..], c.state, "", tokens + [data])
      else Parse(s[c.used..], c.state, data + c.text, tokens)
  }

  /** Whether reading `s` ever puts the parser into its format state. */
  predicate EntersFormat(s: string, state: ParseState, first: bool)
    decreases |s|
  {
    s != "" &&
      var c := Next(s, state, first);
      c.state == StringFormat || EntersFormat(s[c.used..], c.state, first && !c.ends)
  }

  function Tokens(command: string): seq<string> {
    Parse(command, Default, "", [])
  }

  /** The length of the run of backslashes at index `i`. */
  method CountSlashes(command: string, i: nat) returns (slashCount: nat)
    requires i < |command| && command[i] == '\\'
    ensures slashCount == SlashRun(command[i..])
  {
    slashCount := 1;
    assert command[i..][1..] == command[i + 1..];
    while i + slashCount < |command| && command[i + slashCount] == '\\'
      invariant 1 <= slashCount <= |command| - i
      invariant SlashRun(command[i..]) == slashCount + SlashRun(command[i + slashCount..])
    {
      assert command[i + slashCount..][1..] == command[i + slashCount + 1..];
      slashCount := slashCount + 1;
    }
  }

  lemma ParseEnd(state: ParseState, data: string, tokens: seq<string>)
    ensures Parse("", state, data, tokens) == tokens + [data]
    ensures !EntersFormat("", state, tokens == [])
  {
  }

  class Command {
    var data: string
    var tokens: seq<string>

    constructor (command: string)
      ensures tokens == Tokens(command) && data == ""
    {
      data, tokens := "", [];
      new;
      ReadAll(command);
    }

    method ReadAll(command: string)
      requires data == "" && tokens == []
      modifies this
      ensures tokens == Tokens(command) && data == ""
    {
      hide Next, Parse, EntersFormat;
      var state, i := Default, 0;
      assert command[0..] == command;
      while i < |command|
        invariant 0 <= i <= |command|
        invariant Parse(command[i..], state, data, tokens) == Tokens(command)
      {
        ghost var c := Next(command[i..], state, tokens == []);
        ParseStep(command[i..], state, data, tokens);
        assert command[i..][c.used..] == command[i + c.used..];
        var used;
        used, state := ReadChunk(command, i, state);
        i := i + used;
      }
      assert command[i..] == "";
      ParseEnd(state, data, tokens);
      tokens := tokens + [data];
      data := "";
    }

    method ReadChunk(command: string, i: nat, state0: ParseState) returns (used: nat, state: ParseState)
      requires i < |command|
      modifies this
      ensures var c := Next(command[i..], state0, old(tokens) == []);
        && used == c.used && state == c.state
        && tokens == (if c.ends then old(tokens) + [old(data)] else old(tokens))
        && data == if c.ends then "" else old(data) + c.text
    {
      hide NextDefault, NextText, NextFormat;
      match state0 {
        case Default => used, state := ReadDefault(command, i);
        case Text => used, state := ReadText(command, i);
        case StringFormat => used, state := ReadFormat(command, i);
      }
    }

    /** Adds a run of backslashes to the current token. */
    method AppendBackslashes(count: nat)
      modifies this`data
      ensures data == old(data) + Slashes(count)
    {
      var left := count;
      while left > 0
        invariant 0 <= left <= count
        invariant data + Slashes(left) == old(data) + Slashes(count)
      {
        assert data + Slashes(left) == data + "\\" + Slashes(left - 1);
        data := data + "\\";
        left := left - 1;
      }
      assert data + Slashes(0) == data;
    }

    method ReadDefault(command: string, i: nat) returns (used: nat, state: ParseState)
      requires i < |command|
      modifies this
      ensures var c := NextDefault(command[i..], old(tokens) == []);
        && used == c.used && state == c.state
        && tokens == (if c.ends then old(tokens) + [old(data)] else old(tokens))
        && data == if c.ends then "" else old(data) + c.text
    {
      var ch := command[i];
      used, state := 1, Default;
      if ch == '\t' || ch == ' ' {
        if tokens == [] {
          tokens := tokens + [data];
          data := "";
        }
      } else if ch == ',' {
        tokens := tokens + [data];
        data := "";
      } else if ch == '\\' {
        used, state := ReadDefaultSlashes(command, i);
      } else if ch == '"' {
        state := Text;
      } else {
        data := data + [ch];
      }
    }

    method ReadDefaultSlashes(command: string, i: nat) returns (used: nat, state: ParseState)
      requires i < |command| && command[i] == '\\'
      modifies this`data
      ensures var c := NextDefault(command[i..], tokens == []);
        used == c.used && state == c.state && !c.ends && data == old(data) + c.text
    {
      hide Slashes, SlashRun;
      state := Default;
      var slashCount := CountSlashes(command, i);
      var nextch := if i + slashCount < |command| then command[i + slashCount] else '\0';
      if nextch == '"' {
        AppendBackslashes(slashCount / 2);
        used := slashCount + 1;
        if slashCount % 2 == 1 {
          data := data + [nextch];
        } else {
          state := Text;
        }
      } else {
        AppendBackslashes(slashCount / 2 * 2);
        if slashCount % 2 == 0 {
          used := slashCount;
        } else if nextch == '\0' {
          data := data + "\\";
          used := slashCount;
        } else {
          used := slashCount + 1;
          if nextch == '\t' || nextch == ' ' {
            data := data + " ";
          } else if nextch == ',' {
            data := data + [nextch];
          } else {
            data := data + "\\";
            data := data + [nextch];
          }
        }
      }
    }

    method ReadText(command: string, i: nat) returns (used: nat, state: ParseState)
      requires i < |command|
      modifies this`data
      ensures var c := NextText(command[i..]);
        used == c.used && state == c.state && !c.ends && data == old(data) + c.text
    {
      var ch := command[i];
      used, state := 1, Text;
      if ch == '\\' {
        var slashCount := CountSlashes(command, i);
        var nextch := if i + slashCount < |command| then command[i + slashCount] else '\0';
        if nextch == '"' || nextch == '{' {
          AppendBackslashes(slashCount / 2);
          used := slashCount + 1;
          if nextch == '{' {
            data := data + [nextch];
            if slashCount % 2 == 0 {
              state := StringFormat;
            }
          } else if slashCount % 2 == 1 {
            data := data + [nextch];
          } else {
            state := Default;
          }
        } else {
          AppendBackslashes(slashCount);
          used := slashCount;
        }
      } else if ch == '"' {
        state := Default;
      } else if ch == '{' {
        state := StringFormat;
        data := data + [ch];
      } else {
        data := data + [ch];
      }
    }

    method ReadFormat(command: string, i: nat) returns (used: nat, state: ParseState)
      requires i < |command|
      modifies this`data
      ensures var c := NextFormat(command[i..]);
        used == c.used && state == c.state && !c.ends && data == old(data) + c.text
    {
      var ch := command[i];
      var nextch := if i + 1 < |command| then command[i + 1] else '\0';
      used, state := 1, StringFormat;
      if ch == '{' {
        data := data + [ch];
        if nextch == '{' {
          data := data + [nextch];
          used := 2;
        }
      } else if ch == '}' {
        data := data + [ch];
        if nextch == '}' {
          data := data + [nextch];
          used := 2;
        } else {
          state := Text;
        }
      } else if ch == '\\' && (nextch == '"' || nextch == '\\') {
        data := data + [nextch];
        used := 2;
      } else {
        data := data + [ch];
      }
    }

    method GetText() returns (text: string)
      ensures text == if tokens != [] then tokens[0] else ""
    {
      text := if tokens != [] then tokens[0] else "";
    }

    method GetArgCount() returns (count: nat)
      ensures count == if tokens != [] then |tokens| - 1 else 0
    {
      count := if tokens != [] then |tokens| - 1 else 0;
    }

    method GetArg(argnum: nat) returns (arg: string)
      requires argnum + 1 < |tokens|
      ensures arg == tokens[argnum + 1]
    {
      arg := tokens[argnum + 1];
    }
  }

  // ----- escaping -----

  predicate IsSpecial(ch: char) {
    ch == '"' || ch == '{'
  }

  /** How the front of a nonempty argument is escaped, and how many characters that covers. */
  function EscapePiece(a: string): (r: (string, nat))
    requires a != ""
    ensures 1 <= r.1 <= |a|
  {
    if a[0] != '\\' then ((if IsSpecial(a[0]) then "\\" else "") + [a[0]], 1)
    else
      var n := SlashRun(a);
      if n == |a| then (Slashes(2 * n), n)
      else if IsSpecial(a[n]) then (Slashes(2 * n + 1) + [a[n]], n + 1)
      else (Slashes(n), n)
  }

  /** Protects an argument that will stand between double quotes. */
  function Escape(a: string): string
    decreases |a|
  {
    if a == "" then "" else EscapePiece(a).0 + Escape(a[EscapePiece(a).1..])
  }

  lemma Assoc(x: string, y: string, z: string)
    ensures x + y + z == x + (y + z)
  {
  }

  method EscapeArgument(argument: string) returns (result: string)
    ensures result == Escape(argument)
  {
    hide Escape, EscapePiece;
    result := "";
    var i := 0;
    assert argument[0..] == argument && "" + Escape(argument) == Escape(argument);
    while i < |argument|
      invariant 0 <= i <= |argument|
      invariant result + Escape(argument[i..]) == Escape(argument)
    {
      ghost var rest := argument[i..];
      var piece, used := EscapeFront(argument, i);
      EscapeUnfold(rest);
      assert rest[used..] == argument[i + used..];
      Assoc(result, piece, Escape(argument[i + used..]));
      result := result + piece;
      i := i + used;
    }
    NoSlashes();
    assert argument[i..] == "" && result + "" == result;
  }

  /** The body of the escaping loop. */
  method EscapeFront(argument: string, i: nat) returns (piece: string, used: nat)
    requires i < |argument|
    ensures (piece, used) == EscapePiece(argument[i..])
  {
    hide Slashes, SlashRun;
    piece, used := "", 1;
    if argument[i] != '\\' {
      if argument[i] == '"' || argument[i] == '{' {
        piece := "\\";
      }
      piece := piece + [argument[i]];
      return;
    }
    used := CountSlashes(argument, i);
    if i + used == |argument| {
      piece := Slashes(2 * used);
    } else if argument[i + used] == '"' || argument[i + used] == '{' {
      piece := Slashes(2 * used + 1) + [argument[i + used]];
      used := used + 1;
    } else {
      piece := Slashes(used);
    }
  }

  lemma EscapeUnfold(a: string)
    requires a != ""
    ensures Escape(a) == EscapePiece(a).0 + Escape(a[EscapePiece(a).1..])
  {
    hide EscapePiece;
  }

  lemma {:induction false} SlashRunOf(n: nat, s: string)
    requires s == "" || s[0] != '\\'
    ensures SlashRun(Slashes(n) + s) == n
  {
    if n == 0 {
      assert Slashes(n) + s == s;
    } else {
      assert (Slashes(n) + s)[1..] == Slashes(n - 1) + s;
      SlashRunOf(n - 1, s);
    }
  }

  lemma {:induction false} RunIsSlashes(a: string)
    ensures a == Slashes(SlashRun(a)) + a[SlashRun(a)..]
  {
    if a != "" && a[0] == '\\' {
      var n := SlashRun(a[1..]);
      RunIsSlashes(a[1..]);
      assert a[1..][n..] == a[n + 1..];
      assert a == "\\" + (Slashes(n) + a[n + 1..]) == "\\" + Slashes(n) + a[n + 1..];
    } else {
      assert a[0..] == a && Slashes(0) + a == a;
    }
  }

  lemma ParseStep(s: string, state: ParseState, data: string, tokens: seq<string>)
    requires s != ""
    ensures var c := Next(s, state, tokens == []);
      Parse(s, state, data, tokens) ==
        if c.ends then Parse(s[c.used..], c.state, "", tokens + [data])
        else Parse(s[c.used..], c.state, data + c.text, tokens)
    ensures var c := Next(s, state, tokens == []);
      EntersFormat(s, state, tokens == []) <==>
        c.state == StringFormat || EntersFormat(s[c.used..], c.state, tokens == [] && !c.ends)
  {
    hide Next;
  }

  /** Consumes `head` in one step. */
  lemma Eat(head: string, rest: string, state: ParseState, data: string, tokens: seq<string>, c: Chunk)
    requires head != "" && c == Next(head + rest, state, tokens == []) && c.used == |head| && !c.ends
    ensures Parse(head + rest, state, data, tokens) == Parse(rest, c.state, data + c.text, tokens)
    ensures EntersFormat(head + rest, state, tokens == []) <==>
      c.state == StringFormat || EntersFormat(rest, c.state, tokens == [])
  {
    hide Next, Parse, EntersFormat;
    ParseStep(head + rest, state, data, tokens);
    assert (head + rest)[|head|..] == rest;
  }

  lemma EatOrdinary(ch: char, rest: string, data: string, tokens: seq<string>)
    requires ch != '\\' && !IsSpecial(ch)
    ensures Parse([ch] + rest, Text, data, tokens) == Parse(rest, Text, data + [ch], tokens)
    ensures EntersFormat([ch] + rest, Text, tokens == []) <==> EntersFormat(rest, Text, tokens == [])
  {
    hide Parse, EntersFormat;
    Eat([ch], rest, Text, data, tokens, Chunk(1, [ch], false, Text));
  }

  /** 2n+1 slashes and a special character stand for n slashes and that character. */
  lemma EatSpecial(n: nat, ch: char, rest: string, data: string, tokens: seq<string>)
    requires IsSpecial(ch)
    ensures var s := Slashes(2 * n + 1) + [ch] + rest;
      && Parse(s, Text, data, tokens) == Parse(rest, Text, data + (Slashes(n) + [ch]), tokens)
      && (EntersFormat(s, Text, tokens == []) <==> EntersFormat(rest, Text, tokens == []))
  {
    hide Parse, EntersFormat;
    var s := Slashes(2 * n + 1) + [ch] + rest;
    Assoc(Slashes(2 * n + 1), [ch], rest);
    SlashRunOf(2 * n + 1, [ch] + rest);
    assert s[2 * n + 1] == ch;
    Eat(Slashes(2 * n + 1) + [ch], rest, Text, data, tokens, Chunk(2 * n + 2, Slashes(n) + [ch], false, Text));
  }

  /** 2n slashes and the closing quote stand for n slashes. */
  lemma EatClose(n: nat, rest: string, data: string, tokens: seq<string>)
    ensures var s := Slashes(2 * n) + "\"" + rest;
      && Parse(s, Text, data, tokens) == Parse(rest, Default, data + Slashes(n), tokens)
      && (EntersFormat(s, Text, tokens == []) <==> EntersFormat(rest, Default, tokens == []))
  {
    hide Parse, EntersFormat;
    var s := Slashes(2 * n) + "\"" + rest;
    Assoc(Slashes(2 * n), "\"", rest);
    SlashRunOf(2 * n, "\"" + rest);
    assert s[2 * n] == '"';
    assert Slashes(n) + "" == Slashes(n);
    Eat(Slashes(2 * n) + "\"", rest, Text, data, tokens, Chunk(2 * n + 1, Slashes(n), false, Default));
  }

  /** Slashes in front of an ordinary character stand for themselves. */
  lemma EatSlashes(n: nat, rest: string, data: string, tokens: seq<string>)
    requires n > 0 && rest != "" && rest[0] != '\\' && !IsSpecial(rest[0])
    ensures Parse(Slashes(n) + rest, Text, data, tokens) == Parse(rest, Text, data + Slashes(n), tokens)
    ensures EntersFormat(Slashes(n) + rest, Text, tokens == []) <==> EntersFormat(rest, Text, tokens == [])
  {
    hide Parse, EntersFormat;
    var s := Slashes(n) + rest;
    SlashRunOf(n, rest);
    assert s[n] == rest[0];
    Eat(Slashes(n), rest, Text, data, tokens, Chunk(n, Slashes(n), false, Text));
  }

  /** Reading an escaped argument and the closing quote adds exactly the argument to the
      current token and leaves the quotes, without entering the format state. */
  lemma {:induction false} ParseEscaped(a: string, rest: string, data: string, tokens: seq<string>)
    ensures var s := Escape(a) + "\"" + rest;
      && Parse(s, Text, data, tokens) == Parse(rest, Default, data + a, tokens)
      && (EntersFormat(s, Text, tokens == []) <==> EntersFormat(rest, Default, tokens == []))
    decreases |a|
  {
    hide Parse, EntersFormat, SlashRun, Escape, Slashes, IsSpecial;
    if a == "" {
      EatClose(0, rest, data, tokens);
      NoSlashes();
      assert data + "" == data;
    } else {
      EscapeUnfold(a);
      RunIsSlashes(a);
      var n := SlashRun(a);
      if a[0] != '\\' {
        ParseEscaped(a[1..], rest, data + [a[0]], tokens);
        EscapedOrdinary(a[0], Escape(a[1..]) + "\"" + rest, data, tokens);
        Assoc((if IsSpecial(a[0]) then "\\" else "") + [a[0]], Escape(a[1..]), "\"");
        assert data + [a[0]] + a[1..] == data + a;
        assert Escape(a) + "\"" + rest
            == (if IsSpecial(a[0]) then "\\" else "") + [a[0]] + (Escape(a[1..]) + "\"" + rest);
      } else if n == |a| {
        NoSlashes();
        EatClose(n, rest, data, tokens);
        assert a[n..] == "" && Slashes(n) + "" == Slashes(n) && Slashes(2 * n) + "" == Slashes(2 * n);
      } else if IsSpecial(a[n]) {
        var t := Escape(a[n + 1..]) + "\"" + rest;
        assert Escape(a) + "\"" + rest == Slashes(2 * n + 1) + [a[n]] + t;
        EatSpecial(n, a[n], t, data, tokens);
        ParseEscaped(a[n + 1..], rest, data + (Slashes(n) + [a[n]]), tokens);
        assert a == Slashes(n) + [a[n]] + a[n + 1..];
        assert data + (Slashes(n) + [a[n]]) + a[n + 1..] == data + a;
      } else {
        var t := Escape(a[n..]) + "\"" + rest;
        assert Escape(a) + "\"" + rest == Slashes(n) + t;
        EscapeStart(a[n..]);
        EatSlashes(n, t, data, tokens);
        ParseEscaped(a[n..], rest, data + Slashes(n), tokens);
        assert data + Slashes(n) + a[n..] == data + a;
      }
    }
  }

  lemma NoSlashes()
    ensures Slashes(0) == "" && Escape("") == ""
  {
  }

  /** An escaped argument starts with the argument's own ordinary first character. */
  lemma EscapeStart(a: string)
    requires a != "" && a[0] != '\\' && !IsSpecial(a[0])
    ensures Escape(a) != "" && Escape(a)[0] == a[0]
  {
    hide SlashRun;
  }

  lemma EscapedOrdinary(ch: char, rest: string, data: string, tokens: seq<string>)
    requires ch != '\\'
    ensures var s := (if IsSpecial(ch) then "\\" else "") + [ch] + rest;
      && Parse(s, Text, data, tokens) == Parse(rest, Text, data + [ch], tokens)
      && (EntersFormat(s, Text, tokens == []) <==> EntersFormat(rest, Text, tokens == []))
  {
    hide Parse, EntersFormat;
    if IsSpecial(ch) {
      assert Slashes(1) == "\\" && Slashes(0) + [ch] == [ch];
      EatSpecial(0, ch, rest, data, tokens);
    } else {
      EatOrdinary(ch, rest, data, tokens);
      assert "" + [ch] + rest == [ch] + rest;
    }
  }

  // ----- whole commands -----

  /** A command name the tokenizer and the splitter take as it is. */
  predicate PlainName(name: string) {
    name != "" && forall i :: 0 <= i < |name| ==> PlainChar(name[i])
  }

  predicate PlainChar(ch: char) {
    ch != '\t' && ch != ' ' && ch != ',' && ch != '\\' && ch != '"' && ch != ';' && ch != '\r' && ch != '\n'
  }

  function Quoted(a: string): string {
    "\"" + Escape(a) + "\""
  }

  function QuotedList(args: seq<string>): string {
    if args == [] then ""
    else if |args| == 1 then Quoted(args[0])
    else Quoted(args[0]) + "," + QuotedList(args[1..])
  }

  /** A command as a script writes it: the name, then the quoted arguments. */
  function CommandText(name: string, args: seq<string>): string {
    name + (if args == [] then "" else " " + QuotedList(args))
  }

  lemma {:induction false} ParseName(name: string, rest: string, data: string, tokens: seq<string>)
    requires forall i :: 0 <= i < |name| ==> PlainChar(name[i])
    ensures Parse(name + rest, Default, data, tokens) == Parse(rest, Default, data + name, tokens)
    ensures EntersFormat(name + rest, Default, tokens == []) <==> EntersFormat(rest, Default, tokens == [])
    decreases |name|
  {
    hide Parse, EntersFormat;
    if name == "" {
      assert name + rest == rest && data + name == data;
    } else {
      ParseStep(name + rest, Default, data, tokens);
      assert (name + rest)[1..] == name[1..] + rest;
      ParseName(name[1..], rest, data + [name[0]], tokens);
      assert data + [name[0]] + name[1..] == data + name;
    }
  }

  lemma {:induction false} ParseQuotedList(args: seq<string>, tokens: seq<string>)
    requires args != [] && tokens != []
    ensures Parse(QuotedList(args), Default, "", tokens) == tokens + args
    ensures !EntersFormat(QuotedList(args), Default, false)
    decreases |args|
  {
    hide Parse, EntersFormat, Escape;
    if |args| == 1 {
      ParseQuoted(args[0], "", tokens);
      assert QuotedList(args) == Quoted(args[0]) + "";
      ParseEnd(Default, args[0], tokens);
      assert args == [args[0]];
    } else {
      var more := QuotedList(args[1..]);
      ParseQuoted(args[0], "," + more, tokens);
      Assoc(Quoted(args[0]), ",", more);
      ParseComma(more, args[0], tokens);
      ParseQuotedList(args[1..], tokens + [args[0]]);
      assert tokens + [args[0]] + args[1..] == tokens + args;
    }
  }

  lemma ParseQuoted(a: string, rest: string, tokens: seq<string>)
    ensures Parse(Quoted(a) + rest, Default, "", tokens) == Parse(rest, Default, a, tokens)
    ensures EntersFormat(Quoted(a) + rest, Default, tokens == []) <==> EntersFormat(rest, Default, tokens == [])
  {
    hide Parse, EntersFormat, Escape;
    var s := Escape(a) + "\"" + rest;
    assert Quoted(a) + rest == "\"" + s;
    Eat("\"", s, Default, "", tokens, Chunk(1, "", false, Text));
    ParseEscaped(a, rest, "", tokens);
    assert "" + a == a && "" + "" == "";
  }

  lemma ParseComma(rest: string, data: string, tokens: seq<string>)
    ensures Parse("," + rest, Default, data, tokens) == Parse(rest, Default, "", tokens + [data])
    ensures EntersFormat("," + rest, Default, tokens == []) <==> EntersFormat(rest, Default, false)
  {
    hide Parse, EntersFormat;
    ParseStep("," + rest, Default, data, tokens);
    assert ("," + rest)[1..] == rest;
  }

  /** Escaping round-trips: a plain name with any arguments at all tokenizes back to exactly
      that name and those arguments, and nothing is taken for a format expression. */
  lemma CommandRoundTrip(name: string, args: seq<string>)
    requires PlainName(name)
    ensures Tokens(CommandText(name, args)) == [name] + args
    ensures !EntersFormat(CommandText(name, args), Default, true)
  {
    hide Parse, EntersFormat, QuotedList;
    var rest := if args == [] then "" else " " + QuotedList(args);
    ParseName(name, rest, "", []);
    assert "" + name == name;
    if args == [] {
      ParseEnd(Default, name, []);
      assert [] + [name] == [name] + args;
    } else {
      ParseStep(rest, Default, name, []);
      assert rest[1..] == QuotedList(args);
      assert [] + [name] == [name];
      ParseQuotedList(args, [name]);
    }
  }
}
