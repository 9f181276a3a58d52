/**
 The command-line tokenizer of the web page, a twin of the one in CommandLine: the two go through
 the same states except at line breaks, and differ otherwise only in the empty tokens the page drops.
 */
module ComputePage {
  import opened CommandLine

  predicate Ascii(s: string) {
    forall i :: 0 <= i < |s| ==> s[i] < '\U{80}'
  }

  predicate NoLineBreaks(s: string) {
    forall i :: 0 <= i < |s| ==> s[i] != '\n' && s[i] != '\r'
  }

  /** White space to String.prototype.trim. */
  predicate IsJsSpace(c: char) {
    c in "\t\n\U{B}\U{C}\r \U{A0}\U{1680}\U{2028}\U{2029}\U{202F}\U{205F}\U{3000}\U{FEFF}"
        || '\U{2000}' <= c <= '\U{200A}'
  }

  function JsTrimLeft(s: string): string {
    if s != "" && IsJsSpace(s[0]) then JsTrimLeft(s[1..]) else s
  }

  function JsTrimRight(s: string): string {
    if s != "" && IsJsSpace(s[|s| - 1]) then JsTrimRight(s[..|s| - 1]) else s
  }

  function JsTrim(s: string): string { JsTrimRight(JsTrimLeft(s)) }

  /** The page pushes a token only if it is not empty. */
  function JsPush(l: Lexer): Lexer {
    if l.current != "" then Push(l) else l
  }

  /** One turn of the page's loop. */
  function JsStep(l: Lexer, c: char, rest: string): Lexer {
    if l.escape then StepEscaped(l, c)
    else match c
      case '\\' =>
        if l.single && !QuoteOrBackslash(rest) then Put(l, [c]) else l.(escape := true)
      case '\'' =>
        if l.double then Put(l, [c])
        else if l.single then JsPush(l.(single := false))
        else l.(single := true)
      case '"' =>
        if l.single then Put(l, [c])
        else if l.double then JsPush(l.(double := false))
        else l.(double := true)
      case _ =>
        if c in " \t" && !l.single && !l.double then JsPush(l) else Put(l, [c])
  }

  function JsStateAt(s: string, i: nat): Lexer
    requires i <= |s|
  {
    if i == 0 then Init else JsStep(JsStateAt(s, i - 1), s[i - 1], s[i..])
  }

  function JsTokens(s: string): seq<string> { Finish(JsStateAt(s, |s|)) }

  function JsParse(line: string): (string, seq<string>) {
    var tokens := JsTokens(JsTrim(line));
    if tokens == [] then ("", []) else (tokens[0], tokens[1..])
  }

  /** parseCommandLine */
  method ParseCommandLine(cmdLine: string) returns (command: string, args: seq<string>)
    ensures (command, args) == JsParse(cmdLine)
  {
    var s := JsTrim(cmdLine);
    if s == "" {
      return "", [];
    }
    var tokens: seq<string> := [];
    var current, inSingle, inDouble, escapeNext := "", false, false, false;
    for i := 0 to |s|
      invariant Lexer(tokens, current, inSingle, inDouble, escapeNext) == JsStateAt(s, i)
    {
      var c := s[i];
      if escapeNext {
        escapeNext := false;
        if inSingle {
          current := current + if c == '\'' || c == '\\' then [c] else ['\\', c];
        } else {
          current := current + [Escaped(c)];
        }
      } else if c == '\\' {
        if inSingle && !(i + 1 < |s| && (s[i + 1] == '\'' || s[i + 1] == '\\')) {
          current := current + [c];
        } else {
          escapeNext := true;
        }
      } else if c == '\'' {
        if inDouble {
          current := current + [c];
        } else if inSingle {
          inSingle := false;
          if current != "" {
            tokens, current := tokens + [current], "";
          }
        } else {
          inSingle := true;
        }
      } else if c == '"' {
        if inSingle {
          current := current + [c];
        } else if inDouble {
          inDouble := false;
          if current != "" {
            tokens, current := tokens + [current], "";
          }
        } else {
          inDouble := true;
        }
      } else if c == ' ' || c == '\t' {
        if inSingle || inDouble {
          current := current + [c];
        } else if current != "" {
          tokens, current := tokens + [current], "";
        }
      } else {
        current := current + [c];
      }
    }
    if current != "" || inSingle || inDouble {
      tokens := tokens + [current];
    }
    if tokens == [] {
      return "", [];
    }
    command, args := tokens[0], tokens[1..];
  }

  // ---------- what both tokenizers keep ----------

  /** The quote flags exclude each other, and an escape inside single quotes is always followed by a
      quote or a backslash: the branch that copies the backslash literally is dead. */
  predicate WellQuoted(l: Lexer, rest: string) {
    && !(l.single && l.double)
    && (l.single && l.escape ==> QuoteOrBackslash(rest))
  }

  lemma {:induction false} AlwaysWellQuoted(s: string, i: nat)
    requires i <= |s|
    ensures WellQuoted(StateAt(s, i), s[i..])
    ensures WellQuoted(JsStateAt(s, i), s[i..])
  {
    if i > 0 {
      AlwaysWellQuoted(s, i - 1);
    }
  }

  function NonEmpty(tokens: seq<string>): seq<string> {
    if tokens == [] then []
    else NonEmpty(tokens[..|tokens| - 1]) + if tokens[|tokens| - 1] == "" then [] else [tokens[|tokens| - 1]]
  }

  lemma NonEmptySnoc(tokens: seq<string>, t: string)
    ensures NonEmpty(tokens + [t]) == NonEmpty(tokens) + if t == "" then [] else [t]
  {
    assert (tokens + [t])[..|tokens + [t]| - 1] == tokens;
  }

  /** The same state, up to what a view of the tokens does not show. */
  predicate AlikeTo(view: seq<string> -> seq<string>, l: Lexer, js: Lexer) {
    && l.current == js.current && l.single == js.single && l.double == js.double && l.escape == js.escape
    && view(l.tokens) == view(js.tokens)
  }

  /** The same state, up to empty tokens already pushed. */
  predicate Alike(l: Lexer, js: Lexer) { AlikeTo(NonEmpty, l, js) }

  /** A line break outside quotes and not behind a backslash: a separator for the server, a character of
      the token for the page. */
  predicate Loose(l: Lexer, c: char) {
    (c == '\n' || c == '\r') && !l.escape && !l.single && !l.double
  }

  /** How many of the first i characters are loose line breaks. */
  function LooseBreaks(s: string, i: nat): nat
    requires i <= |s|
  {
    if i == 0 then 0 else LooseBreaks(s, i - 1) + if Loose(JsStateAt(s, i - 1), s[i - 1]) then 1 else 0
  }

  lemma StepAlikeTo(view: seq<string> -> seq<string>, l: Lexer, js: Lexer, c: char, rest: string)
    requires AlikeTo(view, l, js) && !Loose(l, c)
    requires view(Push(l).tokens) == view(JsPush(js).tokens)
    ensures AlikeTo(view, Step(l, c, rest), JsStep(js, c, rest))
  {
  }

  lemma StepAlike(l: Lexer, js: Lexer, c: char, rest: string)
    requires Alike(l, js) && !Loose(l, c)
    ensures Alike(Step(l, c, rest), JsStep(js, c, rest))
  {
    NonEmptySnoc(l.tokens, l.current);
    NonEmptySnoc(js.tokens, js.current);
    assert NonEmpty(l.tokens) + [] == NonEmpty(l.tokens);
    StepAlikeTo(NonEmpty, l, js, c, rest);
  }

  /** Without loose line breaks the two tokenizers go through the same states. */
  lemma {:induction false} SameStates(s: string, i: nat)
    requires i <= |s| && LooseBreaks(s, i) == 0
    ensures Alike(StateAt(s, i), JsStateAt(s, i))
  {
    if i > 0 {
      SameStates(s, i - 1);
      StepAlike(StateAt(s, i - 1), JsStateAt(s, i - 1), s[i - 1], s[i..]);
    }
  }

  // ---------- with loose line breaks they never agree ----------

  /** Line breaks in a token, and in a list of tokens. */
  function Breaks(t: string): nat {
    if t == "" then 0
    else Breaks(t[..|t| - 1]) + if t[|t| - 1] == '\n' || t[|t| - 1] == '\r' then 1 else 0
  }

  function BreaksIn(tokens: seq<string>): nat {
    if tokens == [] then 0 else BreaksIn(tokens[..|tokens| - 1]) + Breaks(tokens[|tokens| - 1])
  }

  lemma BreaksInSnoc(tokens: seq<string>, t: string)
    ensures BreaksIn(tokens + [t]) == BreaksIn(tokens) + Breaks(t)
  {
    assert (tokens + [t])[..|tokens|] == tokens;
  }

  lemma BreaksSnoc(t: string, c: char)
    ensures Breaks(t + [c]) == Breaks(t) + if c == '\n' || c == '\r' then 1 else 0
  {
    assert (t + [c])[..|t|] == t;
  }

  function BreaksOf(l: Lexer): nat { BreaksIn(l.tokens) + Breaks(l.current) }

  predicate SameFlags(l: Lexer, js: Lexer) {
    l.single == js.single && l.double == js.double && l.escape == js.escape
  }

  lemma PushKeeps(l: Lexer)
    ensures BreaksOf(Push(l)) == BreaksOf(l) == BreaksOf(JsPush(l))
  {
    BreaksInSnoc(l.tokens, l.current);
  }

  lemma PutAdds(l: Lexer, c: char)
    ensures BreaksOf(Put(l, [c])) == BreaksOf(l) + Breaks([c])
    ensures BreaksOf(Put(l, ['\\', c])) == BreaksOf(l) + Breaks([c])
  {
    BreaksSnoc(l.current, c);
    BreaksSnoc([], c);
    BreaksSnoc(l.current, '\\');
    BreaksSnoc(l.current + ['\\'], c);
    assert l.current + ['\\'] + [c] == l.current + ['\\', c];
    assert [] + [c] == [c];
  }

  lemma OneBreak(c: char)
    ensures Breaks([c]) == if c == '\n' || c == '\r' then 1 else 0
  {
    BreaksSnoc([], c);
    assert [] + [c] == [c];
  }

  /** A measure of a lexer that a turn changes as it changes the number of line breaks. */
  ghost predicate CountsLike(size: Lexer -> nat) {
    && (forall l: Lexer, single, double, escape :: size(l.(single := single, double := double,
              escape := escape)) == size(l))
    && (forall l: Lexer :: size(Push(l)) == size(l))
    && (forall l: Lexer, c :: size(Put(l, [c])) == size(l) + if c == '\n' || c == '\r' then 1 else 0)
    && (forall l: Lexer, c :: size(Put(l, ['\\', c])) == size(l) + if c == '\n' || c == '\r' then 1 else 0)
  }

  lemma BreaksCount()
    ensures CountsLike(BreaksOf)
  {
    forall l: Lexer ensures BreaksOf(Push(l)) == BreaksOf(l) {
      PushKeeps(l);
    }
    forall l: Lexer, c
      ensures BreaksOf(Put(l, [c])) == BreaksOf(l) + if c == '\n' || c == '\r' then 1 else 0
      ensures BreaksOf(Put(l, ['\\', c])) == BreaksOf(l) + if c == '\n' || c == '\r' then 1 else 0
    {
      PutAdds(l, c);
      OneBreak(c);
    }
  }

  /** What a turn adds on the server and on the page. */
  function Adds(l: Lexer, c: char): nat {
    var kept := if l.escape && !l.single then Escaped(c) else c;
    if (kept == '\n' || kept == '\r') && !Loose(l, c) then 1 else 0
  }

  function JsAdds(l: Lexer, c: char): nat { Adds(l, c) + if Loose(l, c) then 1 else 0 }

  lemma StepAdds(size: Lexer -> nat, l: Lexer, c: char, rest: string)
    requires CountsLike(size)
    ensures size(Step(l, c, rest)) == size(l) + Adds(l, c)
  {
  }

  lemma JsStepAdds(size: Lexer -> nat, l: Lexer, c: char, rest: string)
    requires CountsLike(size)
    ensures size(JsStep(l, c, rest)) == size(l) + JsAdds(l, c)
  {
  }

  lemma SameFlagsStep(l: Lexer, js: Lexer, c: char, rest: string)
    requires SameFlags(l, js)
    ensures SameFlags(Step(l, c, rest), JsStep(js, c, rest)) && Adds(l, c) == Adds(js, c)
  {
  }

  lemma BreaksStep(l: Lexer, c: char, rest: string)
    ensures BreaksOf(Step(l, c, rest)) == BreaksOf(l) + Adds(l, c)
  {
    BreaksCount();
    StepAdds(BreaksOf, l, c, rest);
  }

  lemma JsBreaksStep(l: Lexer, c: char, rest: string)
    ensures BreaksOf(JsStep(l, c, rest)) == BreaksOf(l) + JsAdds(l, c)
  {
    BreaksCount();
    JsStepAdds(BreaksOf, l, c, rest);
  }

  lemma StepCounts(l: Lexer, js: Lexer, c: char, rest: string, n: nat)
    requires SameFlags(l, js) && BreaksOf(js) == BreaksOf(l) + n
    ensures SameFlags(Step(l, c, rest), JsStep(js, c, rest))
    ensures BreaksOf(JsStep(js, c, rest)) == BreaksOf(Step(l, c, rest)) + n + if Loose(js, c) then 1 else 0
  {
    SameFlagsStep(l, js, c, rest);
    BreaksStep(l, c, rest);
    JsBreaksStep(js, c, rest);
  }

  /** The page keeps as many line breaks more as there are loose ones. */
  lemma {:induction false} CountsDiffer(s: string, i: nat)
    requires i <= |s|
    ensures SameFlags(StateAt(s, i), JsStateAt(s, i))
    ensures BreaksOf(JsStateAt(s, i)) == BreaksOf(StateAt(s, i)) + LooseBreaks(s, i)
  {
    if i > 0 {
      CountsDiffer(s, i - 1);
      StepCounts(StateAt(s, i - 1), JsStateAt(s, i - 1), s[i - 1], s[i..], LooseBreaks(s, i - 1));
    }
  }

  lemma {:induction false} NonEmptyKeepsBreaks(tokens: seq<string>)
    ensures BreaksIn(NonEmpty(tokens)) == BreaksIn(tokens)
  {
    if tokens != [] {
      var front, last := tokens[..|tokens| - 1], tokens[|tokens| - 1];
      NonEmptyKeepsBreaks(front);
      if last == "" {
        assert NonEmpty(front) + [] == NonEmpty(front);
      } else {
        BreaksInSnoc(NonEmpty(front), last);
      }
    }
  }

  lemma FinishKeeps(l: Lexer)
    ensures BreaksIn(NonEmpty(Finish(l))) == BreaksOf(l)
  {
    NonEmptyKeepsBreaks(Finish(l));
    BreaksInSnoc(l.tokens, l.current);
  }

  lemma {:induction false} SameTrimLeft(s: string)
    requires Ascii(s)
    ensures TrimLeft(Embed(s)) == Embed(JsTrimLeft(s)) && Ascii(JsTrimLeft(s))
    ensures NoLineBreaks(s) ==> NoLineBreaks(JsTrimLeft(s))
    decreases |s|
  {
    if s != "" && IsJsSpace(s[0]) {
      assert Embed(s)[1..] == Embed(s[1..]);
      SameTrimLeft(s[1..]);
    }
  }

  lemma {:induction false} SameTrimRight(s: string)
    requires Ascii(s)
    ensures TrimRight(Embed(s)) == Embed(JsTrimRight(s))
    ensures NoLineBreaks(s) ==> NoLineBreaks(JsTrimRight(s))
    decreases |s|
  {
    if s != "" && IsJsSpace(s[|s| - 1]) {
      assert Embed(s)[..|s| - 1] == Embed(s[..|s| - 1]);
      SameTrimRight(s[..|s| - 1]);
    }
  }

  function All(parsed: (string, seq<string>)): seq<string> { [parsed.0] + parsed.1 }

  /** On every ASCII line, the page and the server find the same non-empty tokens if and only if no line
      break of the trimmed line is loose. */
  lemma SameTokensIff(line: string)
    requires Ascii(line)
    ensures NonEmpty(All(Parse(Embed(line)))) == NonEmpty(All(JsParse(line)))
            <==> LooseBreaks(JsTrim(line), |JsTrim(line)|) == 0
  {
    SameTrimLeft(line);
    SameTrimRight(JsTrimLeft(line));
    CleanEmbed(JsTrim(line));
    SameFinishIff(JsTrim(line));
    AllOrEmpty(Tokens(JsTrim(line)), Parse(Embed(line)));
    AllOrEmpty(JsTokens(JsTrim(line)), JsParse(line));
  }

  lemma SameFinishIff(s: string)
    ensures NonEmpty(Tokens(s)) == NonEmpty(JsTokens(s)) <==> LooseBreaks(s, |s|) == 0
  {
    var l, js := StateAt(s, |s|), JsStateAt(s, |s|);
    LexFromState(s, |s|);
    assert Tokens(s) == Finish(l);
    if LooseBreaks(s, |s|) == 0 {
      SameStates(s, |s|);
      NonEmptySnoc(l.tokens, l.current);
      NonEmptySnoc(js.tokens, js.current);
    } else {
      CountsDiffer(s, |s|);
      FinishKeeps(l);
      FinishKeeps(js);
    }
  }

  lemma {:induction false} NoBreaksNoneLoose(s: string, i: nat)
    requires i <= |s| && NoLineBreaks(s)
    ensures LooseBreaks(s, i) == 0
  {
    if i > 0 {
      NoBreaksNoneLoose(s, i - 1);
    }
  }

  /** In particular on every ASCII line without line breaks. */
  lemma SameTokens(line: string)
    requires Ascii(line) && NoLineBreaks(line)
    ensures NonEmpty(All(Parse(Embed(line)))) == NonEmpty(All(JsParse(line)))
  {
    SameTrimLeft(line);
    SameTrimRight(JsTrimLeft(line));
    NoBreaksNoneLoose(JsTrim(line), |JsTrim(line)|);
    SameTokensIff(line);
  }

  /** But not on two words on two lines. */
  lemma TwoLines()
    ensures NonEmpty(All(Parse(Embed("a\nb")))) != NonEmpty(All(JsParse("a\nb")))
  {
    assert JsTrim("a\nb") == "a\nb";
    var s := "a\nb";
    assert JsStateAt(s, 1) == JsStep(Init, 'a', s[1..]) == Put(Init, ['a']);
    assert Loose(JsStateAt(s, 1), s[1]);
    assert LooseBreaks(s, 2) > 0 && LooseBreaks(s, 3) > 0;
    SameTokensIff(s);
  }

  lemma AllOrEmpty(tokens: seq<string>, parsed: (string, seq<string>))
    requires parsed == if tokens == [] then ("", []) else (tokens[0], tokens[1..])
    ensures NonEmpty(All(parsed)) == NonEmpty(tokens)
  {
    if tokens == [] {
      NonEmptySnoc([], "");
      assert [""] + [] == [] + [""];
    } else {
      assert All(parsed) == tokens;
    }
  }

  /** The page reads a line printed by JoinCommandLine as the command and its non-empty arguments if and
      only if the line has no loose line break. */
  lemma PageReadsPrintedLine(command: string, args: seq<string>, line: string)
    requires command != "" && Ascii(line)
    requires Embed(line) == Join(Embed(command), EmbedAll(args))
    ensures NonEmpty(All(JsParse(line))) == NonEmpty([command] + args)
            <==> LooseBreaks(JsTrim(line), |JsTrim(line)|) == 0
  {
    SameTokensIff(line);
    RoundTrip(Embed(command), EmbedAll(args));
    CleanEmbed(command);
    CleanEmbedAll(args);
  }
}
