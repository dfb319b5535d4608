/** How a command line without quotes is read, what backslashes do outside and inside quotes, and
    format expressions. */
module CommandReading {
  import opened CommandParser

  predicate IsGap(ch: char) {
    ch == ' ' || ch == '\t'
  }

  predicate Gap(s: string) {
    forall i :: 0 <= i < |s| ==> IsGap(s[i])
  }

  /** Unquoted text of one argument; backslashes are allowed. */
  predicate RawText(s: string) {
    forall i :: 0 <= i < |s| ==> !IsGap(s[i]) && s[i] != ',' && s[i] != '"'
  }

  predicate EndsInBackslash(s: string) {
    s != "" && s[|s| - 1] == '\\'
  }

  // ----- outside quotes -----

  /** One round of the loop on a text of which the parser uses exactly the front. */
  lemma Use(front: string, rest: string, state: ParseState, data: string, tokens: seq<string>)
    requires front != "" && Next(front + rest, state, tokens == []).used == |front|
    ensures var c := Next(front + rest, state, tokens == []);
      Parse(front + rest, state, data, tokens) ==
        if c.ends then Parse(rest, c.state, "", tokens + [data]) else Parse(rest, c.state, data + c.text, tokens)
  {
    hide Next, EntersFormat;
    ParseStep(front + rest, state, data, tokens);
    assert (front + rest)[|front|..] == rest;
  }

  /** Any other character is taken as it is. */
  lemma ReadPlainChar(ch: char, rest: string, data: string, tokens: seq<string>)
    requires !IsGap(ch) && ch != ',' && ch != '"' && ch != '\\'
    ensures Parse([ch] + rest, Default, data, tokens) == Parse(rest, Default, data + [ch], tokens)
  {
    hide Parse;
    Use([ch], rest, Default, data, tokens);
  }

  /** Unquoted text is read as it is written, backslashes included. */
  lemma {:induction false} ReadRaw(a: string, rest: string, data: string, tokens: seq<string>)
    requires RawText(a) && (rest == "" || !EndsInBackslash(a))
    ensures Parse(a + rest, Default, data, tokens) == Parse(rest, Default, data + a, tokens)
    decreases |a|
  {
    hide Parse, Next, SlashRun, Slashes;
    if a == "" {
      assert a + rest == rest && data + a == data;
    } else if a[0] != '\\' {
      assert a + rest == [a[0]] + (a[1..] + rest);
      ReadPlainChar(a[0], a[1..] + rest, data, tokens);
      ReadRaw(a[1..], rest, data + [a[0]], tokens);
      assert data + [a[0]] + a[1..] == data + a;
    } else {
      var n := SlashRun(a);
      RunIsFirst(a);
      if n == |a| {
        SlashesAtEnd(n, data, tokens);
        assert a + rest == Slashes(n) && data + a == data + Slashes(n);
      } else {
        var ch, more := a[n], a[n + 1..];
        Regroup(Slashes(n), [ch], more, rest);
        SlashesBeforePlain(n, ch, more + rest, data, tokens);
        ReadRaw(more, rest, data + Slashes(n) + [ch], tokens);
        Regroup(data, Slashes(n), [ch], more);
      }
    }
  }

  lemma Regroup(w: string, x: string, y: string, z: string)
    ensures w + (x + y) + z == w + (x + (y + z)) && w + x + y + z == w + (x + (y + z))
  {
  }

  /** A raw text that begins with backslashes is a run of them, and more raw text behind it. */
  lemma RunIsFirst(a: string)
    requires RawText(a) && a != "" && a[0] == '\\'
    ensures var n := SlashRun(a);
      && 0 < n <= |a|
      && (n == |a| ==> a == Slashes(n) && EndsInBackslash(a))
      && (n < |a| ==>
           && a == Slashes(n) + ([a[n]] + a[n + 1..]) && RawText(a[n + 1..]) && a[n] != '\\'
           && !IsGap(a[n]) && a[n] != ',' && a[n] != '"'
           && (EndsInBackslash(a[n + 1..]) ==> EndsInBackslash(a)))
  {
    hide Slashes, SlashRun, IsGap;
    var n := SlashRun(a);
    RunIsSlashes(a);
    if n < |a| {
      Cut(a, n);
      assert RawText(a[n + 1..]);
    } else {
      assert a[n..] == "" && Slashes(n) + "" == Slashes(n);
    }
  }

  lemma Cut(a: string, n: nat)
    requires n < |a|
    ensures a[n..] == [a[n]] + a[n + 1..]
  {
  }

  lemma SlashesAtEnd(n: nat, data: string, tokens: seq<string>)
    ensures Parse(Slashes(n), Default, data, tokens) == Parse("", Default, data + Slashes(n), tokens)
  {
    hide Parse;
    if n == 0 {
      assert data + Slashes(0) == data;
    } else {
      SlashRunOf(n, "");
      assert Slashes(n) + "" == Slashes(n);
      OneMoreSlash(n);
      Use(Slashes(n), "", Default, data, tokens);
    }
  }

  lemma {:induction false} OneMoreSlash(n: nat)
    requires n > 0
    ensures Slashes(n) == Slashes(n - 1) + "\\" && Slashes(n)[0] == '\\'
  {
    if n > 1 {
      OneMoreSlash(n - 1);
    } else {
      assert Slashes(0) == "";
    }
  }

  /** Backslashes in front of an ordinary character are kept. */
  lemma SlashesBeforePlain(n: nat, ch: char, rest: string, data: string, tokens: seq<string>)
    requires n > 0 && !IsGap(ch) && ch != ',' && ch != '"' && ch != '\\'
    ensures Parse(Slashes(n) + ([ch] + rest), Default, data, tokens) == Parse(rest, Default, data + Slashes(n) + [ch], tokens)
  {
    hide Parse, Slashes;
    var s := Slashes(n) + ([ch] + rest);
    SlashRunOf(n, [ch] + rest);
    OneMoreSlash(n);
    assert s[n] == ch;
    if n % 2 == 0 || ch == '\0' {
      Use(Slashes(n), [ch] + rest, Default, data, tokens);
      ReadPlainChar(ch, rest, data + Slashes(n), tokens);
    } else {
      assert s == Slashes(n) + [ch] + rest;
      Use(Slashes(n) + [ch], rest, Default, data, tokens);
      assert data + (Slashes(n) + [ch]) == data + Slashes(n) + [ch];
    }
  }

  /** An odd run of backslashes makes the blank or comma behind it part of the argument, a tab as a space. */
  lemma EscapedSeparator(n: nat, ch: char, rest: string, data: string, tokens: seq<string>)
    requires n % 2 == 1 && (IsGap(ch) || ch == ',')
    ensures Parse(Slashes(n) + ([ch] + rest), Default, data, tokens)
         == Parse(rest, Default, data + Slashes(n - 1) + (if ch == ',' then "," else " "), tokens)
  {
    hide Parse, Slashes;
    var s := Slashes(n) + ([ch] + rest);
    SlashRunOf(n, [ch] + rest);
    OneMoreSlash(n);
    assert s[n] == ch && s == Slashes(n) + [ch] + rest;
    Use(Slashes(n) + [ch], rest, Default, data, tokens);
    var last := if ch == ',' then "," else " ";
    assert data + (Slashes(n - 1) + last) == data + Slashes(n - 1) + last;
  }

  /** An even run does not, and is kept. */
  lemma EvenRun(n: nat, ch: char, rest: string, data: string, tokens: seq<string>)
    requires n > 0 && n % 2 == 0 && (IsGap(ch) || ch == ',')
    ensures Parse(Slashes(n) + ([ch] + rest), Default, data, tokens) == Parse([ch] + rest, Default, data + Slashes(n), tokens)
  {
    hide Parse, Slashes;
    SlashRunOf(n, [ch] + rest);
    OneMoreSlash(n);
    assert (Slashes(n) + ([ch] + rest))[n] == ch;
    Use(Slashes(n), [ch] + rest, Default, data, tokens);
  }

  /** In front of a quote backslashes are halved; an odd one makes the quote an ordinary character. */
  lemma SlashesBeforeQuote(n: nat, rest: string, data: string, tokens: seq<string>)
    ensures Parse(Slashes(n) + ("\"" + rest), Default, data, tokens) ==
      if n % 2 == 0 then Parse(rest, Text, data + Slashes(n / 2), tokens)
      else Parse(rest, Default, data + Slashes(n / 2) + "\"", tokens)
  {
    hide Parse, Slashes;
    var s := Slashes(n) + ("\"" + rest);
    SlashRunOf(n, "\"" + rest);
    assert s[n] == '"' && s == Slashes(n) + "\"" + rest;
    if n > 0 {
      OneMoreSlash(n);
    }
    Use(Slashes(n) + "\"", rest, Default, data, tokens);
    assert Slashes(0) == "" by { NoSlashes(); }
    assert data + (Slashes(n / 2) + "\"") == data + Slashes(n / 2) + "\"";
    assert data + (Slashes(n / 2) + "") == data + Slashes(n / 2);
  }

  /** Blanks behind the name are dropped. */
  lemma {:induction false} DropGap(gap: string, rest: string, data: string, tokens: seq<string>)
    requires Gap(gap) && tokens != []
    ensures Parse(gap + rest, Default, data, tokens) == Parse(rest, Default, data, tokens)
    decreases |gap|
  {
    hide Parse;
    if gap == "" {
      assert gap + rest == rest;
    } else {
      assert gap + rest == [gap[0]] + (gap[1..] + rest);
      Use([gap[0]], gap[1..] + rest, Default, data, tokens);
      assert data + "" == data;
      DropGap(gap[1..], rest, data, tokens);
    }
  }

  /** The first blank ends the name, a comma ends any token. */
  lemma EndName(gap: string, rest: string, name: string)
    requires Gap(gap) && gap != ""
    ensures Parse(gap + rest, Default, name, []) == Parse(rest, Default, "", [name])
  {
    hide Parse;
    assert gap + rest == [gap[0]] + (gap[1..] + rest);
    Use([gap[0]], gap[1..] + rest, Default, name, []);
    assert [] + [name] == [name];
    DropGap(gap[1..], rest, "", [name]);
  }

  /** Arguments as they are usually typed, with a comma and any blanks between them. */
  function Typed(args: seq<string>, before: string, behind: string): string {
    if args == [] then ""
    else if |args| == 1 then args[0]
    else args[0] + (before + ("," + (behind + Typed(args[1..], before, behind))))
  }

  /** Only the last argument may end in a backslash; elsewhere that would escape what follows. */
  predicate RawArguments(args: seq<string>) {
    forall i :: 0 <= i < |args| ==> RawText(args[i]) && (i < |args| - 1 ==> !EndsInBackslash(args[i]))
  }

  lemma {:induction false} ReadTyped(args: seq<string>, before: string, behind: string, tokens: seq<string>)
    requires args != [] && tokens != [] && RawArguments(args) && Gap(before) && Gap(behind)
    ensures Parse(Typed(args, before, behind), Default, "", tokens) == tokens + args
    decreases |args|
  {
    hide Parse, RawText, Gap;
    if |args| == 1 {
      ReadRaw(args[0], "", "", tokens);
      assert args[0] + "" == args[0] && "" + args[0] == args[0] && args == [args[0]];
      ParseEnd(Default, args[0], tokens);
    } else {
      ReadFirst(args[0], before, behind, Typed(args[1..], before, behind), tokens);
      OthersAreRaw(args);
      ReadTyped(args[1..], before, behind, tokens + [args[0]]);
      assert tokens + [args[0]] + args[1..] == tokens + args;
    }
  }

  lemma OthersAreRaw(args: seq<string>)
    requires |args| > 1 && RawArguments(args)
    ensures RawArguments(args[1..])
  {
    hide RawText, EndsInBackslash;
    forall i | 0 <= i < |args| - 1
      ensures RawText(args[1..][i]) && (i < |args| - 2 ==> !EndsInBackslash(args[1..][i]))
    {
      assert args[1..][i] == args[i + 1];
    }
  }

  lemma ReadFirst(arg: string, before: string, behind: string, more: string, tokens: seq<string>)
    requires tokens != [] && RawText(arg) && !EndsInBackslash(arg) && Gap(before) && Gap(behind)
    ensures Parse(arg + (before + ("," + (behind + more))), Default, "", tokens) == Parse(more, Default, "", tokens + [arg])
  {
    hide Parse, RawText, Gap, EntersFormat;
    ReadRaw(arg, before + ("," + (behind + more)), "", tokens);
    assert "" + arg == arg;
    DropGap(before, "," + (behind + more), arg, tokens);
    ParseComma(behind + more, arg, tokens);
    DropGap(behind, more, "", tokens + [arg]);
  }

  /** A command as it is usually typed: a plain name, blanks, and arguments without blanks, commas and quotes,
      which may hold backslashes as paths do, come back as they were typed. */
  lemma TypedCommand(name: string, gap: string, args: seq<string>, before: string, behind: string)
    requires PlainName(name) && Gap(gap) && gap != "" && Gap(before) && Gap(behind)
    requires args != [] && RawArguments(args)
    ensures Tokens(name + (gap + Typed(args, before, behind))) == [name] + args
  {
    hide Parse, Gap, RawArguments, Typed, EntersFormat;
    ParseName(name, gap + Typed(args, before, behind), "", []);
    assert "" + name == name;
    EndName(gap, Typed(args, before, behind), name);
    ReadTyped(args, before, behind, [name]);
  }

  // ----- inside quotes -----

  /** Blanks, commas and semicolons are ordinary inside quotes. */
  lemma {:induction false} ReadQuoted(a: string, rest: string, data: string, tokens: seq<string>)
    requires forall i :: 0 <= i < |a| ==> a[i] != '"' && a[i] != '{' && a[i] != '\\'
    ensures Parse(a + rest, Text, data, tokens) == Parse(rest, Text, data + a, tokens)
    decreases |a|
  {
    hide Parse;
    if a == "" {
      assert a + rest == rest && data + a == data;
    } else {
      assert a + rest == [a[0]] + (a[1..] + rest);
      Use([a[0]], a[1..] + rest, Text, data, tokens);
      ReadQuoted(a[1..], rest, data + [a[0]], tokens);
      assert data + [a[0]] + a[1..] == data + a;
    }
  }

  /** In front of a quote or a brace backslashes are halved. An odd one makes it an ordinary character; else
      the quote ends the quotes, and the brace begins a format expression. */
  lemma SlashesInQuotes(n: nat, ch: char, rest: string, data: string, tokens: seq<string>)
    requires ch == '"' || ch == '{'
    ensures Parse(Slashes(n) + ([ch] + rest), Text, data, tokens) ==
      if n % 2 == 1 then Parse(rest, Text, data + Slashes(n / 2) + [ch], tokens)
      else if ch == '"' then Parse(rest, Default, data + Slashes(n / 2), tokens)
      else Parse(rest, StringFormat, data + Slashes(n / 2) + "{", tokens)
  {
    hide Parse, Slashes;
    var s := Slashes(n) + ([ch] + rest);
    SlashRunOf(n, [ch] + rest);
    assert s[n] == ch && s == Slashes(n) + [ch] + rest;
    if n > 0 {
      OneMoreSlash(n);
    }
    Use(Slashes(n) + [ch], rest, Text, data, tokens);
    assert Slashes(0) == "" by { NoSlashes(); }
    assert data + (Slashes(n / 2) + [ch]) == data + Slashes(n / 2) + [ch];
    assert data + (Slashes(n / 2) + "") == data + Slashes(n / 2);
    assert "" + "{" == "{" && data + "{" == data + "" + "{";
  }

  /** Anywhere else inside quotes they are kept. */
  lemma OtherSlashesInQuotes(n: nat, rest: string, data: string, tokens: seq<string>)
    requires n > 0 && (rest != "" ==> rest[0] != '"' && rest[0] != '{' && rest[0] != '\\')
    ensures Parse(Slashes(n) + rest, Text, data, tokens) == Parse(rest, Text, data + Slashes(n), tokens)
  {
    hide Parse, Slashes;
    SlashRunOf(n, rest);
    OneMoreSlash(n);
    assert rest != "" ==> (Slashes(n) + rest)[n] == rest[0];
    Use(Slashes(n), rest, Text, data, tokens);
  }

  // ----- format expressions -----

  /** Text inside a format expression: closing braces only in pairs, and no backslash. */
  predicate FormatText(s: string) {
    s == "" || (s[0] != '\\' && if s[0] == '}' then |s| > 1 && s[1] == '}' && FormatText(s[2..]) else FormatText(s[1..]))
  }

  /** A format expression is kept as it is written, quotes and commas included, up to the first closing
      brace that is not one of a pair. */
  lemma {:induction false} ReadFormatText(s: string, rest: string, data: string, tokens: seq<string>)
    requires FormatText(s) && (rest == "" || rest[0] != '}')
    ensures Parse(s + ("}" + rest), StringFormat, data, tokens) == Parse(rest, Text, data + s + "}", tokens)
    decreases |s|
  {
    hide Parse;
    var all := s + ("}" + rest);
    if s == "" {
      assert all == "}" + rest && data + s == data;
      Use("}", rest, StringFormat, data, tokens);
    } else if s[0] == '}' || (s[0] == '{' && |s| > 1 && s[1] == '{') {
      assert all == [s[0], s[1]] + (s[2..] + ("}" + rest));
      assert all[1] == s[1];
      Use([s[0], s[1]], s[2..] + ("}" + rest), StringFormat, data, tokens);
      ReadFormatText(s[2..], rest, data + [s[0], s[1]], tokens);
      assert data + [s[0], s[1]] + s[2..] == data + s;
    } else {
      assert all == [s[0]] + (s[1..] + ("}" + rest));
      assert all[1] == if |s| > 1 then s[1] else '}';
      Use([s[0]], s[1..] + ("}" + rest), StringFormat, data, tokens);
      ReadFormatText(s[1..], rest, data + [s[0]], tokens);
      assert data + [s[0]] + s[1..] == data + s;
    }
  }

  /** Inside it a backslash gives way to a quote or another backslash behind it, and is kept otherwise. */
  lemma FormatBackslash(ch: char, rest: string, data: string, tokens: seq<string>)
    ensures Parse("\\" + ([ch] + rest), StringFormat, data, tokens) ==
      if ch == '"' || ch == '\\' then Parse(rest, StringFormat, data + [ch], tokens)
      else Parse([ch] + rest, StringFormat, data + "\\", tokens)
  {
    hide Parse;
    var s := "\\" + ([ch] + rest);
    assert s[1] == ch;
    if ch == '"' || ch == '\\' {
      assert s == ['\\', ch] + rest;
      Use(['\\', ch], rest, StringFormat, data, tokens);
    } else {
      Use("\\", [ch] + rest, StringFormat, data, tokens);
    }
  }

  /** A whole argument made of text and a format expression. */
  lemma FormatArgument(name: string, gap: string, text: string, s: string)
    requires PlainName(name) && Gap(gap) && gap != "" && FormatText(s)
    requires forall i :: 0 <= i < |text| ==> text[i] != '"' && text[i] != '{' && text[i] != '\\'
    ensures Tokens(name + (gap + ("\"" + (text + ("{" + (s + ("}" + "\"")))))))
         == [name, text + "{" + s + "}"]
  {
    hide Parse, Gap, FormatText, EntersFormat;
    var inner := s + ("}" + "\"");
    ParseName(name, gap + ("\"" + (text + ("{" + inner))), "", []);
    assert "" + name == name;
    EndName(gap, "\"" + (text + ("{" + inner)), name);
    assert Slashes(0) == "" by { NoSlashes(); }
    SlashesBeforeQuote(0, text + ("{" + inner), "", [name]);
    assert "" + ("\"" + (text + ("{" + inner))) == "\"" + (text + ("{" + inner)) && "" + "" == "";
    ReadQuoted(text, "{" + inner, "", [name]);
    assert "" + text == text;
    SlashesInQuotes(0, '{', inner, text, [name]);
    assert "" + (['{'] + inner) == "{" + inner && text + "" + "{" == text + "{";
    ReadFormatText(s, "\"", text + "{", [name]);
    SlashesInQuotes(0, '"', "", text + "{" + s + "}", [name]);
    assert "" + (['"'] + "") == "\"" && text + "{" + s + "}" + "" == text + "{" + s + "}";
    ParseEnd(Default, text + "{" + s + "}", [name]);
  }
}
