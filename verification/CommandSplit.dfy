/** Splitting a command line at its semicolons, and the whole path from a line of quoted
    commands to the names and arguments that are executed. */
module CommandSplit {
  import opened CommandParser
  import opened Strings

  function Flush(current: string, commands: seq<string>): seq<string> {
    if current != "" then commands + [current] else commands
  }

  /** The commands in `s` when `current` has been collected behind `commands`. */
  function Split(s: string, inquote: bool, inescape: bool, current: string, commands: seq<string>): seq<string>
    decreases |s|
  {
    if s == "" then Flush(current, commands)
    else
      var ch := s[0];
      var inquote' := if ch == '"' && !inescape then !inquote else inquote;
      var inescape' := ch == '\\' && !inescape;
      if ch == ';' && !inquote' then Split(s[1..], inquote', inescape', "", Flush(current, commands))
      else Split(s[1..], inquote', inescape', current + [ch], commands)
  }

  /** A leading `$`, with the spaces behind it, asks for the line to be formatted first. */
  function Formatted(cmd: string, format: string -> string): string {
    if cmd != "" && cmd[0] == '$' then format(SkipSpaces(cmd[1..])) else cmd
  }

  function SkipSpaces(s: string): string {
    if s != "" && s[0] == ' ' then SkipSpaces(s[1..]) else s
  }

  function Commands(cmd: string, format: string -> string): seq<string> {
    Split(Formatted(cmd, format), false, false, "", [])
  }

  method CmdSplit(cmd0: string, format: string -> string) returns (commands: seq<string>)
    ensures commands == Commands(cmd0, format)
  {
    var cmd := cmd0;
    if cmd != "" && cmd[0] == '$' {
      cmd := cmd[1..];
      while cmd != "" && cmd[0] == ' '
        invariant SkipSpaces(cmd) == SkipSpaces(cmd0[1..])
        decreases |cmd|
      {
        cmd := cmd[1..];
      }
      cmd := format(cmd);
    }
    commands := [];
    var inquote, inescape := false, false;
    var split := "";
    assert cmd[0..] == cmd;
    for i := 0 to |cmd|
      invariant Split(cmd[i..], inquote, inescape, split, commands) == Commands(cmd0, format)
    {
      var ch := cmd[i];
      assert cmd[i..][1..] == cmd[i + 1..];
      if ch == '"' {
        if !inescape {
          inquote := !inquote;
        }
        inescape := false;
      } else if ch == '\\' {
        inescape := !inescape;
      } else {
        inescape := false;
      }
      if ch == ';' && !inquote {
        if split != "" {
          commands := commands + [split];
        }
        split := "";
      } else {
        split := split + [ch];
      }
    }
    assert cmd[|cmd|..] == "";
    if split != "" {
      commands := commands + [split];
    }
  }

  // ----- the splitter and the tokenizer agree on escaped arguments -----

  lemma SplitStep(ch: char, rest: string, inquote: bool, inescape: bool, current: string, commands: seq<string>)
    requires ch != ';' || inquote
    ensures Split([ch] + rest, inquote, inescape, current, commands) ==
      Split(rest, if ch == '"' && !inescape then !inquote else inquote, ch == '\\' && !inescape, current + [ch], commands)
  {
    assert ([ch] + rest)[1..] == rest;
  }

  lemma {:induction false} SplitSlashes(n: nat, rest: string, inquote: bool, inescape: bool, current: string, commands: seq<string>)
    ensures Split(Slashes(n) + rest, inquote, inescape, current, commands) ==
      Split(rest, inquote, if n == 0 then inescape else (n % 2 == 1) != inescape, current + Slashes(n), commands)
  {
    hide Split;
    if n == 0 {
      assert Slashes(n) + rest == rest && current + Slashes(n) == current;
    } else {
      assert Slashes(n) + rest == "\\" + (Slashes(n - 1) + rest);
      SplitStep('\\', Slashes(n - 1) + rest, inquote, inescape, current, commands);
      SplitSlashes(n - 1, rest, inquote, !inescape, current + "\\", commands);
      assert current + "\\" + Slashes(n - 1) == current + Slashes(n);
    }
  }

  /** No piece of an escaped argument ends the quotes or leaves a backslash pending, except
      slashes in front of an ordinary character, which that character settles. */
  lemma SplitPiece(a: string, rest: string, current: string, commands: seq<string>)
    requires a != ""
    ensures var (piece, used) := EscapePiece(a);
      var pending := a[used - 1] == '\\' && used < |a| && used % 2 == 1;
      Split(piece + rest, true, false, current, commands) == Split(rest, true, pending, current + piece, commands)
    ensures var (piece, used) := EscapePiece(a);
      a[used - 1] == '\\' && used < |a| ==> a[used] != '\\' && !IsSpecial(a[used])
  {
    hide Split, Slashes;
    var (piece, used) := EscapePiece(a);
    if a[0] != '\\' {
      if IsSpecial(a[0]) {
        assert piece + rest == "\\" + ([a[0]] + rest);
        SplitStep('\\', [a[0]] + rest, true, false, current, commands);
        SplitStep(a[0], rest, true, true, current + "\\", commands);
        Assoc(current, "\\", [a[0]]);
      } else {
        assert piece + rest == [a[0]] + rest && piece == [a[0]];
        SplitStep(a[0], rest, true, false, current, commands);
      }
    } else {
      var n := SlashRun(a);
      if n < |a| && IsSpecial(a[n]) {
        Assoc(Slashes(2 * n + 1), [a[n]], rest);
        SplitSlashes(2 * n + 1, [a[n]] + rest, true, false, current, commands);
        SplitStep(a[n], rest, true, true, current + Slashes(2 * n + 1), commands);
        Assoc(current, Slashes(2 * n + 1), [a[n]]);
      } else if n < |a| {
        SplitSlashes(n, rest, true, false, current, commands);
      } else {
        SplitSlashes(2 * n, rest, true, false, current, commands);
      }
    }
  }

  /** The splitter stays inside the quotes over an escaped argument and leaves them at the closing one. */
  lemma {:induction false} SplitEscaped(a: string, pending: bool, rest: string, current: string, commands: seq<string>)
    requires pending ==> a != "" && a[0] != '\\' && !IsSpecial(a[0])
    ensures Split(Escape(a) + "\"" + rest, true, pending, current, commands)
         == Split(rest, false, false, current + (Escape(a) + "\""), commands)
    decreases |a|
  {
    hide Split, EscapePiece;
    if a == "" {
      assert Escape(a) + "\"" + rest == "\"" + rest && Escape(a) + "\"" == "\"";
      SplitStep('"', rest, true, false, current, commands);
    } else {
      var (piece, used) := EscapePiece(a);
      var t := Escape(a[used..]) + "\"" + rest;
      assert Escape(a) + "\"" + rest == piece + t;
      if pending {
        OrdinaryPiece(a);
        SplitStep(a[0], t, true, true, current, commands);
        SplitEscaped(a[1..], false, rest, current + piece, commands);
      } else {
        SplitPiece(a, t, current, commands);
        var pending' := a[used - 1] == '\\' && used < |a| && used % 2 == 1;
        SplitEscaped(a[used..], pending', rest, current + piece, commands);
      }
      assert current + piece + (Escape(a[used..]) + "\"") == current + (Escape(a) + "\"");
    }
  }

  lemma OrdinaryPiece(a: string)
    requires a != "" && a[0] != '\\' && !IsSpecial(a[0])
    ensures EscapePiece(a) == ([a[0]], 1)
  {
    assert "" + [a[0]] == [a[0]];
  }

  lemma {:induction false} SplitName(name: string, rest: string, current: string, commands: seq<string>)
    requires forall i :: 0 <= i < |name| ==> PlainChar(name[i])
    ensures Split(name + rest, false, false, current, commands) == Split(rest, false, false, current + name, commands)
    decreases |name|
  {
    hide Split;
    if name == "" {
      assert name + rest == rest && current + name == current;
    } else {
      assert name + rest == [name[0]] + (name[1..] + rest);
      SplitStep(name[0], name[1..] + rest, false, false, current, commands);
      SplitName(name[1..], rest, current + [name[0]], commands);
      assert current + [name[0]] + name[1..] == current + name;
    }
  }

  lemma SplitQuoted(a: string, rest: string, current: string, commands: seq<string>)
    ensures Split(Quoted(a) + rest, false, false, current, commands) == Split(rest, false, false, current + Quoted(a), commands)
  {
    hide Split, Escape;
    assert Quoted(a) + rest == "\"" + (Escape(a) + "\"" + rest);
    SplitStep('"', Escape(a) + "\"" + rest, false, false, current, commands);
    SplitEscaped(a, false, rest, current + "\"", commands);
    assert current + "\"" + (Escape(a) + "\"") == current + Quoted(a);
  }

  lemma {:induction false} SplitQuotedList(args: seq<string>, rest: string, current: string, commands: seq<string>)
    ensures Split(QuotedList(args) + rest, false, false, current, commands)
         == Split(rest, false, false, current + QuotedList(args), commands)
    decreases |args|
  {
    hide Split, Quoted;
    if args == [] {
      assert "" + rest == rest && current + "" == current;
    } else if |args| == 1 {
      SplitQuoted(args[0], rest, current, commands);
    } else {
      var more := QuotedList(args[1..]);
      assert QuotedList(args) + rest == Quoted(args[0]) + ("," + (more + rest));
      SplitQuoted(args[0], "," + (more + rest), current, commands);
      SplitStep(',', more + rest, false, false, current + Quoted(args[0]), commands);
      SplitQuotedList(args[1..], rest, current + Quoted(args[0]) + ",", commands);
      assert current + Quoted(args[0]) + "," + more == current + QuotedList(args);
    }
  }

  lemma SplitText(name: string, args: seq<string>, rest: string, commands: seq<string>)
    requires PlainName(name)
    ensures Split(CommandText(name, args) + rest, false, false, "", commands)
         == Split(rest, false, false, CommandText(name, args), commands)
  {
    hide Split, QuotedList;
    var list := if args == [] then "" else " " + QuotedList(args);
    assert CommandText(name, args) + rest == name + (list + rest);
    SplitName(name, list + rest, "", commands);
    assert "" + name == name;
    if args == [] {
      assert list + rest == rest && CommandText(name, args) == name;
    } else {
      assert list + rest == " " + (QuotedList(args) + rest);
      SplitStep(' ', QuotedList(args) + rest, false, false, name, commands);
      SplitQuotedList(args, rest, name + " ", commands);
      assert name + " " + QuotedList(args) == CommandText(name, args);
    }
  }

  // ----- where a line is cut -----

  /** An odd run of backslashes stands in front of this place. */
  predicate Escaped(s: string, i: nat)
    requires i <= |s|
  {
    i > 0 && s[i - 1] == '\\' && !Escaped(s, i - 1)
  }

  /** The quotes before this place that are not escaped. */
  function Quotes(s: string, i: nat): nat
    requires i <= |s|
  {
    if i == 0 then 0 else Quotes(s, i - 1) + if s[i - 1] == '"' && !Escaped(s, i - 1) then 1 else 0
  }

  /** A semicolon separates commands if the quotes before it are closed, escaped or not itself. */
  predicate Separates(s: string, i: nat)
    requires i < |s|
  {
    s[i] == ';' && Quotes(s, i) % 2 == 0
  }

  /** The parts between separators that are not empty, from `start` on, when none is found before `i`. */
  function Parts(s: string, start: nat, i: nat): seq<string>
    requires start <= i <= |s|
    decreases |s| - i
  {
    if i == |s| then Flush(s[start..], [])
    else if Separates(s, i) then Flush(s[start..i], []) + Parts(s, i + 1, i + 1)
    else Parts(s, start, i + 1)
  }

  lemma {:induction false} SplitAtSeparators(s: string, start: nat, i: nat, commands: seq<string>)
    requires start <= i <= |s|
    ensures Split(s[i..], Quotes(s, i) % 2 == 1, Escaped(s, i), s[start..i], commands) == commands + Parts(s, start, i)
    decreases |s| - i
  {
    hide Split, Quotes, Escaped, Flush;
    if i == |s| {
      SplitEnd(s[start..], commands, Quotes(s, i) % 2 == 1, Escaped(s, i));
      FlushMore(s[start..], commands);
      assert s[i..] == "" && s[start..i] == s[start..];
    } else {
      var ch := s[i];
      assert s[i..] == [ch] + s[i + 1..];
      OneFurther(s, i);
      if Separates(s, i) {
        SplitSeparator(s[i + 1..], s[start..i], commands, Escaped(s, i));
        SplitAtSeparators(s, i + 1, i + 1, Flush(s[start..i], commands));
        assert s[i + 1..i + 1] == "";
        FlushMore(s[start..i], commands);
        Append(commands, Flush(s[start..i], []), Parts(s, i + 1, i + 1));
      } else {
        SplitStep(ch, s[i + 1..], Quotes(s, i) % 2 == 1, Escaped(s, i), s[start..i], commands);
        SplitAtSeparators(s, start, i + 1, commands);
        assert s[start..i] + [ch] == s[start..i + 1];
      }
    }
  }

  lemma FlushMore(current: string, commands: seq<string>)
    ensures Flush(current, commands) == commands + Flush(current, [])
  {
  }

  lemma Append(x: seq<string>, y: seq<string>, z: seq<string>)
    ensures x + y + z == x + (y + z)
  {
  }

  lemma OneFurther(s: string, i: nat)
    requires i < |s|
    ensures Escaped(s, i + 1) <==> s[i] == '\\' && !Escaped(s, i)
    ensures Quotes(s, i + 1) == Quotes(s, i) + if s[i] == '"' && !Escaped(s, i) then 1 else 0
  {
  }

  /** A line is cut exactly at the semicolons in front of which the quotes are closed, and empty commands are
      dropped. */
  lemma CutAtSeparators(cmd: string, format: string -> string)
    requires cmd == "" || cmd[0] != '$'
    ensures Commands(cmd, format) == Parts(cmd, 0, 0)
  {
    hide Split, Parts;
    SplitAtSeparators(cmd, 0, 0, []);
    assert cmd[0..] == cmd && cmd[0..0] == "" && [] + Parts(cmd, 0, 0) == Parts(cmd, 0, 0);
  }

  /** A dollar sign and the spaces behind it ask for the rest to be formatted first. */
  lemma FormattedFirst(n: nat, text: string, format: string -> string)
    requires text == "" || text[0] != ' '
    ensures Commands("$" + (Spaces(n) + text), format) == Parts(format(text), 0, 0)
  {
    hide Split, Parts;
    var line := format(text);
    SkipAll(n, text);
    assert ("$" + (Spaces(n) + text))[1..] == Spaces(n) + text;
    SplitAtSeparators(line, 0, 0, []);
    assert line[0..] == line && line[0..0] == "" && [] + Parts(line, 0, 0) == Parts(line, 0, 0);
  }

  function Spaces(n: nat): string {
    seq(n, _ => ' ')
  }

  lemma {:induction false} SkipAll(n: nat, text: string)
    requires text == "" || text[0] != ' '
    ensures SkipSpaces(Spaces(n) + text) == text
  {
    if n == 0 {
      assert Spaces(0) + text == text;
    } else {
      assert (Spaces(n) + text)[1..] == Spaces(n - 1) + text;
      SkipAll(n - 1, text);
    }
  }

  // ----- whole lines -----

  datatype Call = Call(name: string, args: seq<string>)

  function Texts(calls: seq<Call>): (r: seq<string>)
    ensures |r| == |calls|
  {
    seq(|calls|, i requires 0 <= i < |calls| => CommandText(calls[i].name, calls[i].args))
  }

  /** The commands joined by semicolons. */
  function Line(calls: seq<Call>): string {
    if calls == [] then ""
    else if |calls| == 1 then CommandText(calls[0].name, calls[0].args)
    else CommandText(calls[0].name, calls[0].args) + ";" + Line(calls[1..])
  }

  predicate PlainCalls(calls: seq<Call>) {
    forall i :: 0 <= i < |calls| ==> PlainName(calls[i].name)
  }

  lemma {:induction false} SplitLine(calls: seq<Call>, commands: seq<string>)
    requires PlainCalls(calls)
    ensures Split(Line(calls), false, false, "", commands) == commands + Texts(calls)
    decreases |calls|
  {
    hide Split, CommandText, Texts;
    if calls == [] {
      assert Texts(calls) == [] && commands + [] == commands;
      SplitEnd("", commands, false, false);
    } else {
      var text := CommandText(calls[0].name, calls[0].args);
      TextNotEmpty(calls[0].name, calls[0].args);
      if |calls| == 1 {
        assert text + "" == text;
        SplitText(calls[0].name, calls[0].args, "", commands);
        SplitEnd(text, commands, false, false);
        TextsFirst(calls, commands);
        assert Texts(calls[1..]) == [] && commands + [text] + [] == commands + [text];
      } else {
        var more := Line(calls[1..]);
        SplitFirst(calls[0], more, commands);
        SplitLine(calls[1..], commands + [text]);
        TextsFirst(calls, commands);
      }
    }
  }

  lemma TextsFirst(calls: seq<Call>, commands: seq<string>)
    requires calls != []
    ensures commands + [CommandText(calls[0].name, calls[0].args)] + Texts(calls[1..]) == commands + Texts(calls)
  {
    hide CommandText;
    assert Texts(calls) == [CommandText(calls[0].name, calls[0].args)] + Texts(calls[1..]);
  }

  lemma SplitFirst(call: Call, more: string, commands: seq<string>)
    requires PlainName(call.name)
    ensures
      var text := CommandText(call.name, call.args);
      Split(text + ";" + more, false, false, "", commands) == Split(more, false, false, "", commands + [text])
  {
    hide Split, CommandText;
    var text := CommandText(call.name, call.args);
    TextNotEmpty(call.name, call.args);
    Assoc(text, ";", more);
    SplitText(call.name, call.args, ";" + more, commands);
    SplitSeparator(more, text, commands, false);
  }

  lemma SplitEnd(current: string, commands: seq<string>, inquote: bool, inescape: bool)
    ensures Split("", inquote, inescape, current, commands) == Flush(current, commands)
  {
  }

  lemma SplitSeparator(rest: string, current: string, commands: seq<string>, inescape: bool)
    ensures Split(";" + rest, false, inescape, current, commands) == Split(rest, false, false, "", Flush(current, commands))
  {
    assert (";" + rest)[1..] == rest;
  }

  lemma TextNotEmpty(name: string, args: seq<string>)
    requires PlainName(name)
    ensures CommandText(name, args) != "" && CommandText(name, args)[0] == name[0]
  {
  }

  // ----- execution -----

  /** The name that the command table is searched for: everything before the first space. */
  function CommandName(s: string): string {
    if s == "" || s[0] == ' ' then "" else [s[0]] + CommandName(s[1..])
  }

  lemma {:induction false} QuotedListEnds(args: seq<string>)
    requires args != []
    ensures QuotedList(args) != "" && QuotedList(args)[|QuotedList(args)| - 1] == '"'
    decreases |args|
  {
    hide Escape;
    if |args| > 1 {
      QuotedListEnds(args[1..]);
    }
  }

  lemma TrimKeepsText(name: string, args: seq<string>)
    requires PlainName(name)
    ensures Trim(CommandText(name, args)) == CommandText(name, args)
  {
    hide QuotedList;
    var text := CommandText(name, args);
    TextNotEmpty(name, args);
    assert PlainChar(name[0]) && PlainChar(name[|name| - 1]);
    if args == [] {
      assert text == name;
    } else {
      QuotedListEnds(args);
      assert text[|text| - 1] == '"';
    }
  }

  lemma {:induction false} NameOfText(name: string, rest: string)
    requires forall i :: 0 <= i < |name| ==> PlainChar(name[i])
    requires rest == "" || rest[0] == ' '
    ensures CommandName(name + rest) == name
    decreases |name|
  {
    if name == "" {
      assert name + rest == rest;
    } else {
      assert (name + rest)[1..] == name[1..] + rest;
      NameOfText(name[1..], rest);
    }
  }

  /** From a line to what is executed: for every list of plainly named commands with any
      arguments, joined by semicolons, the executor looks up exactly the original names and
      passes exactly the original arguments, whatever quotes, braces, commas, semicolons and
      backslashes these contain. */
  lemma LineRoundTrip(calls: seq<Call>, format: string -> string)
    requires PlainCalls(calls) && (calls != [] ==> calls[0].name[0] != '$')
    ensures var commands := Commands(Line(calls), format);
      && |commands| == |calls|
      && forall i :: 0 <= i < |calls| ==>
           && CommandName(Trim(commands[i])) == calls[i].name
           && Tokens(Trim(commands[i])) == [calls[i].name] + calls[i].args
  {
    hide Split, CommandText, Parse, Trim, CommandName;
    if calls != [] {
      LineStart(calls);
    }
    SplitLine(calls, []);
    var commands := Commands(Line(calls), format);
    assert [] + Texts(calls) == Texts(calls);
    forall i | 0 <= i < |calls|
      ensures CommandName(Trim(commands[i])) == calls[i].name
      ensures Tokens(Trim(commands[i])) == [calls[i].name] + calls[i].args
    {
      TextRoundTrip(calls[i].name, calls[i].args);
    }
  }

  lemma TextRoundTrip(name: string, args: seq<string>)
    requires PlainName(name)
    ensures var text := Trim(CommandText(name, args));
      CommandName(text) == name && Tokens(text) == [name] + args
  {
    hide Trim, CommandName, Parse, QuotedList;
    TrimKeepsText(name, args);
    CommandRoundTrip(name, args);
    NameOfText(name, if args == [] then "" else " " + QuotedList(args));
  }

  lemma LineStart(calls: seq<Call>)
    requires PlainCalls(calls) && calls != []
    ensures Line(calls) != "" && Line(calls)[0] == calls[0].name[0]
  {
    hide CommandText;
    TextNotEmpty(calls[0].name, calls[0].args);
  }
}
