/**
 Command lines: the tokenizer, and the printer that is meant to be its inverse.

 A Go string is a sequence of bytes that `range` decodes into runes, an undecodable byte yielding
 U+FFFD. A GoString is that sequence of decoding units.
 */
module CommandLine {
  import opened Bytes

  datatype Unit =
    | Rune(c: char)
    | Bad(b: byte)    // a byte that is not part of valid UTF-8

  type GoString = seq<Unit>

  const REPLACEMENT: char := '\U{FFFD}'

  /** The rune `range` yields. */
  function RuneOf(u: Unit): char {
    match u
    case Rune(c) => c
    case Bad(_) => REPLACEMENT
  }

  /** The string written back rune by rune. */
  function Clean(g: GoString): string {
    seq(|g|, i requires 0 <= i < |g| => RuneOf(g[i]))
  }

  function CleanAll(gs: seq<GoString>): seq<string> {
    seq(|gs|, i requires 0 <= i < |gs| => Clean(gs[i]))
  }

  /** A string of runes as a Go string. */
  function Embed(s: string): GoString {
    seq(|s|, i requires 0 <= i < |s| => Rune(s[i]))
  }

  function EmbedAll(ss: seq<string>): seq<GoString> {
    seq(|ss|, i requires 0 <= i < |ss| => Embed(ss[i]))
  }

  predicate ValidUtf8(g: GoString) {
    forall i :: 0 <= i < |g| ==> g[i].Rune?
  }

  /** unicode.IsSpace */
  predicate IsSpace(c: char) {
    c in "\t\n\U{B}\U{C}\r \U{85}\U{A0}\U{1680}\U{2028}\U{2029}\U{202F}\U{205F}\U{3000}"
        || '\U{2000}' <= c <= '\U{200A}'
  }

  function TrimLeft(g: GoString): GoString {
    if g != [] && IsSpace(RuneOf(g[0])) then TrimLeft(g[1..]) else g
  }

  function TrimRight(g: GoString): GoString {
    if g != [] && IsSpace(RuneOf(g[|g| - 1])) then TrimRight(g[..|g| - 1]) else g
  }

  /** strings.TrimSpace */
  function TrimSpace(g: GoString): GoString { TrimRight(TrimLeft(g)) }

  // ---------- the tokenizer ----------

  datatype Lexer = Lexer(tokens: seq<string>, current: string, single: bool, double: bool, escape: bool)

  const Init := Lexer([], "", false, false, false)

  function Escaped(r: char): char {
    match r
    case 'n' => '\n'
    case 't' => '\t'
    case 'r' => '\r'
    case _ => r
  }

  function Put(l: Lexer, s: string): Lexer { l.(current := l.current + s) }

  function Push(l: Lexer): Lexer { l.(tokens := l.tokens + [l.current], current := "") }

  /** A rune after a backslash. */
  function StepEscaped(l: Lexer, r: char): Lexer {
    var l := l.(escape := false);
    if !l.single then Put(l, [Escaped(r)])
    else if r == '\'' || r == '\\' then Put(l, [r])
    else Put(l, ['\\', r])
  }

  predicate QuoteOrBackslash(rest: string) {
    rest != "" && (rest[0] == '\'' || rest[0] == '\\')
  }

  /** One turn of the loop, on a rune and what follows it. */
  function Step(l: Lexer, r: char, rest: string): Lexer {
    if l.escape then StepEscaped(l, r)
    else match r
      case '\\' =>
        if l.single && !QuoteOrBackslash(rest) then Put(l, [r]) else l.(escape := true)
      case '\'' =>
        if l.double then Put(l, [r])
        else if l.single then Push(l.(single := false))
        else l.(single := true)
      case '"' =>
        if l.single then Put(l, [r])
        else if l.double then Push(l.(double := false))
        else l.(double := true)
      case _ =>
        if r in " \t\n\r" && !l.single && !l.double then
          if l.current != "" then Push(l) else l
        else Put(l, [r])
  }

  /** The state after the first i runes. */
  function StateAt(s: string, i: nat): Lexer
    requires i <= |s|
  {
    if i == 0 then Init else Step(StateAt(s, i - 1), s[i - 1], s[i..])
  }

  /** What the loop does from here to the end of the input. */
  function Lex(l: Lexer, s: string): Lexer
    decreases |s|
  {
    if s == "" then l else Lex(Step(l, s[0], s[1..]), s[1..])
  }

  function Finish(l: Lexer): seq<string> {
    if l.current != "" || l.single || l.double then l.tokens + [l.current] else l.tokens
  }

  function Tokens(s: string): seq<string> { Finish(Lex(Init, s)) }

  /** ParseCommandLine: the first token and the others. */
  function Parse(g: GoString): (string, seq<string>) {
    var tokens := Tokens(Clean(TrimSpace(g)));
    if tokens == [] then ("", []) else (tokens[0], tokens[1..])
  }

  lemma {:induction false} LexFromState(s: string, i: nat)
    requires i <= |s|
    ensures Lex(StateAt(s, i), s[i..]) == Lex(Init, s)
  {
    if i == 0 {
      assert s[0..] == s;
    } else {
      LexFromState(s, i - 1);
      assert s[i - 1..][1..] == s[i..];
    }
  }

  // ---------- the printer ----------

  predicate Special(u: Unit) {
    IsSpace(RuneOf(u)) || RuneOf(u) in "\"'\\"
  }

  predicate NeedsQuoting(g: GoString) {
    exists i :: 0 <= i < |g| && Special(g[i])
  }

  function EscapeUnit(u: Unit): GoString {
    var r := RuneOf(u);
    if r == '"' then [Rune('\\'), Rune('"')]
    else if r == '\\' then [Rune('\\'), Rune('\\')]
    else [Rune(r)]
  }

  function EscapeAll(g: GoString): GoString {
    if g == [] then [] else EscapeAll(g[..|g| - 1]) + EscapeUnit(g[|g| - 1])
  }

  /** QuoteArg */
  function Quote(g: GoString): GoString {
    if g == [] then [Rune('"'), Rune('"')]
    else if !NeedsQuoting(g) then g
    else [Rune('"')] + EscapeAll(g) + [Rune('"')]
  }

  function JoinArgs(args: seq<GoString>): GoString {
    if args == [] then [] else JoinArgs(args[..|args| - 1]) + [Rune(' ')] + Quote(args[|args| - 1])
  }

  /** JoinCommandLine */
  function Join(command: GoString, args: seq<GoString>): GoString {
    if command == [] then [] else Quote(command) + JoinArgs(args)
  }

  // ---------- the round trip ----------

  lemma CleanAppend(a: GoString, b: GoString)
    ensures Clean(a + b) == Clean(a) + Clean(b)
  {
  }

  predicate Plain(s: string) {
    forall i :: 0 <= i < |s| ==> s[i] !in "\"'\\ \t\n\r"
  }

  /** A run of plain runes outside escapes is copied. */
  lemma {:induction false} LexPlain(l: Lexer, s: string, rest: string)
    requires Plain(s) && !l.escape
    ensures Lex(l, s + rest) == Lex(Put(l, s), rest)
    decreases |s|
  {
    if s == "" {
      assert s + rest == rest;
      assert l.current + "" == l.current;
    } else {
      assert (s + rest)[1..] == s[1..] + rest;
      LexPlain(Put(l, [s[0]]), s[1..], rest);
      assert l.current + [s[0]] + s[1..] == l.current + s;
    }
  }

  /** An escaped text inside double quotes is read back as the text. */
  lemma {:induction false} LexEscaped(l: Lexer, g: GoString, rest: string)
    requires l.double && !l.single && !l.escape
    ensures Lex(l, Clean(EscapeAll(g)) + rest) == Lex(Put(l, Clean(g)), rest)
    decreases |g|
  {
    if g == [] {
      assert Clean(EscapeAll(g)) + rest == rest;
      assert l.current + Clean(g) == l.current;
    } else {
      var n := |g| - 1;
      var one := Clean(EscapeUnit(g[n]));
      CleanAppend(EscapeAll(g[..n]), EscapeUnit(g[n]));
      Assoc(Clean(EscapeAll(g[..n])), one, rest);
      LexEscaped(l, g[..n], one + rest);
      LexEscapedOne(Put(l, Clean(g[..n])), g[n], rest);
      assert Clean(g) == Clean(g[..n]) + [RuneOf(g[n])];
      Assoc(l.current, Clean(g[..n]), [RuneOf(g[n])]);
    }
  }

  lemma LexEscapedOne(l: Lexer, u: Unit, rest: string)
    requires l.double && !l.single && !l.escape
    ensures Lex(l, Clean(EscapeUnit(u)) + rest) == Lex(Put(l, [RuneOf(u)]), rest)
  {
    var s := Clean(EscapeUnit(u));
    assert (s + rest)[1..] == s[1..] + rest;
    if |s| == 1 {
      assert s[1..] + rest == rest;
    } else {
      assert (s + rest)[1..][1..] == rest;
    }
  }

  /** At the start of a token. */
  predicate Boundary(l: Lexer) {
    l.current == "" && !l.single && !l.double && !l.escape
  }

  /** The end of the input or a separator. */
  predicate EndsToken(rest: string) {
    rest == "" || rest[0] == ' '
  }

  /** A quoted argument is read back as one token equal to its cleaned text. */
  lemma LexQuote(l: Lexer, g: GoString, rest: string)
    requires Boundary(l) && EndsToken(rest)
    ensures var end := l.(tokens := l.tokens + [Clean(g)]);
            if rest == "" then Finish(Lex(l, Clean(Quote(g)) + rest)) == end.tokens
            else Lex(l, Clean(Quote(g)) + rest) == Lex(end, rest[1..])
  {
    if g != [] && !NeedsQuoting(g) {
      LexPlain(l, Clean(g), rest);
      assert "" + Clean(g) == Clean(g);
    } else {
      LexQuoted(l, g, rest);
    }
    if rest != "" {
      LexSpace(l.(tokens := l.tokens + [Clean(g)]), rest);
    }
  }

  lemma LexSpace(l: Lexer, rest: string)
    requires Boundary(l) && rest != "" && rest[0] == ' '
    ensures Lex(l, rest) == Lex(l, rest[1..])
  {
  }

  lemma LexQuoted(l: Lexer, g: GoString, rest: string)
    requires Boundary(l)
    requires g == [] || NeedsQuoting(g)
    ensures Lex(l, Clean(Quote(g)) + rest) == Lex(l.(tokens := l.tokens + [Clean(g)]), rest)
  {
    var body, close := Clean(EscapeAll(g)), ['"'] + rest;
    CleanQuoted(g, rest);
    LexFirst(l, '"', body + close);
    var inside := l.(double := true);
    LexEscaped(inside, g, close);
    assert "" + Clean(g) == Clean(g);
    LexFirst(Put(inside, Clean(g)), '"', rest);
  }

  lemma LexFirst(l: Lexer, r: char, rest: string)
    ensures Lex(l, [r] + rest) == Lex(Step(l, r, rest), rest)
  {
    assert ([r] + rest)[1..] == rest;
  }

  lemma CleanQuoted(g: GoString, rest: string)
    requires g == [] || NeedsQuoting(g)
    ensures Clean(Quote(g)) + rest == ['"'] + (Clean(EscapeAll(g)) + (['"'] + rest))
  {
    var q := [Rune('"')];
    assert Quote(g) == q + EscapeAll(g) + q;
    CleanAround(q, EscapeAll(g), rest);
  }

  lemma CleanAround(q: GoString, body: GoString, rest: string)
    ensures Clean(q + body + q) + rest == Clean(q) + (Clean(body) + (Clean(q) + rest))
  {
    CleanAppend(q + body, q);
    CleanAppend(q, body);
    Assoc(Clean(q) + Clean(body), Clean(q), rest);
    Assoc(Clean(q), Clean(body), Clean(q) + rest);
  }

  lemma {:induction false} LexArgs(l: Lexer, g: GoString, args: seq<GoString>, rest: string)
    requires Boundary(l) && EndsToken(rest)
    ensures var end := l.(tokens := l.tokens + [Clean(g)] + CleanAll(args));
            if rest == "" then Finish(Lex(l, Clean(Quote(g) + JoinArgs(args)) + rest)) == end.tokens
            else Lex(l, Clean(Quote(g) + JoinArgs(args)) + rest) == Lex(end, rest[1..])
    decreases |args|
  {
    if args == [] {
      assert Quote(g) + JoinArgs(args) == Quote(g);
      assert l.tokens + [Clean(g)] + CleanAll(args) == l.tokens + [Clean(g)];
      LexQuote(l, g, rest);
    } else {
      var n := |args| - 1;
      var front, last := args[..n], args[n];
      var tail := [' '] + (Clean(Quote(last)) + rest);
      LexArgs(l, g, front, tail);
      var mid := l.(tokens := l.tokens + [Clean(g)] + CleanAll(front));
      assert tail[1..] == Clean(Quote(last)) + rest;
      LexQuote(mid, last, rest);
      CleanAllSnoc(l.tokens + [Clean(g)], args);
      CleanJoin(g, args, rest);
    }
  }

  lemma CleanAllSnoc(tokens: seq<string>, args: seq<GoString>)
    requires args != []
    ensures tokens + CleanAll(args) == tokens + CleanAll(args[..|args| - 1]) + [Clean(args[|args| - 1])]
  {
  }

  lemma CleanJoin(g: GoString, args: seq<GoString>, rest: string)
    requires args != []
    ensures var front, last := args[..|args| - 1], args[|args| - 1];
            Clean(Quote(g) + JoinArgs(args)) + rest
            == Clean(Quote(g) + JoinArgs(front)) + ([' '] + (Clean(Quote(last)) + rest))
  {
    var front, last := args[..|args| - 1], args[|args| - 1];
    CleanThree(Quote(g), JoinArgs(front), Quote(last), rest);
  }

  lemma CleanThree(a: GoString, b: GoString, c: GoString, rest: string)
    ensures Clean(a + (b + [Rune(' ')] + c)) + rest == Clean(a + b) + ([' '] + (Clean(c) + rest))
  {
    assert a + (b + [Rune(' ')] + c) == (a + b) + ([Rune(' ')] + c);
    CleanAppend(a + b, [Rune(' ')] + c);
    CleanAppend([Rune(' ')], c);
    assert Clean([Rune(' ')]) == [' '];
  }

  /** Neither end is white space, so that TrimSpace has nothing to do. */
  predicate Tight(g: GoString) {
    g != [] && !IsSpace(RuneOf(g[0])) && !IsSpace(RuneOf(g[|g| - 1]))
  }

  lemma QuoteIsTight(g: GoString)
    ensures Tight(Quote(g))
  {
    if g != [] && !NeedsQuoting(g) {
      assert !Special(g[0]) && !Special(g[|g| - 1]);
    }
  }

  lemma JoinIsTight(command: GoString, args: seq<GoString>)
    requires command != []
    ensures Tight(Join(command, args))
  {
    QuoteIsTight(command);
    if args != [] {
      QuoteIsTight(args[|args| - 1]);
    }
  }

  /** Printing and parsing: for every non-empty command and every argument list, whatever bytes they
      consist of, the parser returns them, with each undecodable byte replaced by U+FFFD. */
  lemma RoundTrip(command: GoString, args: seq<GoString>)
    requires command != []
    ensures Parse(Join(command, args)) == (Clean(command), CleanAll(args))
  {
    JoinIsTight(command, args);
    TokensOfJoin(command, args);
    assert [Clean(command)] + CleanAll(args) != [];
  }

  lemma TokensOfJoin(command: GoString, args: seq<GoString>)
    ensures Tokens(Clean(Quote(command) + JoinArgs(args))) == [Clean(command)] + CleanAll(args)
  {
    var line := Clean(Quote(command) + JoinArgs(args));
    LexArgs(Init, command, args, "");
    assert line + "" == line;
    assert [] + [Clean(command)] + CleanAll(args) == [Clean(command)] + CleanAll(args);
  }

  lemma CleanEmbed(s: string)
    ensures Clean(Embed(s)) == s && ValidUtf8(Embed(s))
  {
  }

  lemma EmbedCleanIff(g: GoString)
    ensures Embed(Clean(g)) == g <==> ValidUtf8(g)
  {
    if Embed(Clean(g)) == g {
      CleanEmbed(Clean(g));
    }
  }

  /** The exact condition under which printing and parsing give back what was printed: everything is
      valid UTF-8, and an empty command has no arguments. */
  lemma RoundTripIff(command: GoString, args: seq<GoString>)
    ensures var (c, a) := Parse(Join(command, args));
            (Embed(c) == command && EmbedAll(a) == args) <==>
            ValidUtf8(command) && (forall i :: 0 <= i < |args| ==> ValidUtf8(args[i])) && (command == [] ==> args == [])
  {
    var (c, a) := Parse(Join(command, args));
    if command == [] {
      assert Clean(TrimSpace([])) == "";
    } else {
      RoundTrip(command, args);
      EmbedCleanIff(command);
      forall i | 0 <= i < |args| ensures EmbedAll(a)[i] == args[i] <==> ValidUtf8(args[i]) {
        EmbedCleanIff(args[i]);
      }
    }
  }

  /** Re-parsing the print of any parsed line with a non-empty first token gives the same tokens. */
  lemma Reparse(line: GoString)
    requires Parse(line).0 != ""
    ensures Parse(Join(Embed(Parse(line).0), EmbedAll(Parse(line).1))) == Parse(line)
  {
    var (c, a) := Parse(line);
    RoundTrip(Embed(c), EmbedAll(a));
    CleanEmbed(c);
    CleanEmbedAll(a);
  }

  lemma CleanEmbedAll(ss: seq<string>)
    ensures CleanAll(EmbedAll(ss)) == ss
  {
    forall i | 0 <= i < |ss| ensures CleanAll(EmbedAll(ss))[i] == ss[i] {
      CleanEmbed(ss[i]);
    }
  }

  // ---------- the loops ----------

  /** What the loop looks at after a backslash inside single quotes. */
  predicate QuoteOrBackslashAt(g: GoString, i: nat) {
    i < |g| && (g[i] == Rune('\'') || g[i] == Rune('\\'))
  }

  lemma Lookahead(g: GoString, i: nat)
    requires i < |g|
    ensures Clean(g)[i] == RuneOf(g[i])
    ensures QuoteOrBackslash(Clean(g)[i + 1..]) <==> QuoteOrBackslashAt(g, i + 1)
  {
    if i + 1 < |g| {
      assert Clean(g)[i + 1..][0] == RuneOf(g[i + 1]);
    }
  }

  method ParseTokens(g: GoString) returns (tokens: seq<string>)
    ensures tokens == Tokens(Clean(g))
  {
    tokens := [];
    var current, inSingle, inDouble, escapeNext := "", false, false, false;
    ghost var s := Clean(g);
    var i := 0;
    while i < |g|
      invariant 0 <= i <= |g|
      invariant Lexer(tokens, current, inSingle, inDouble, escapeNext) == StateAt(s, i)
    {
      var r := RuneOf(g[i]);
      Lookahead(g, i);
      assert StateAt(s, i + 1) == Step(StateAt(s, i), r, s[i + 1..]);
      if escapeNext {
        escapeNext := false;
        if inSingle {
          current := current + if r == '\'' || r == '\\' then [r] else ['\\', r];
        } else {
          current := current + [Escaped(r)];
        }
      } else if r == '\\' {
        if inSingle {
          if QuoteOrBackslashAt(g, i + 1) {
            escapeNext := true;
          } else {
            current := current + [r];
          }
        } else {
          escapeNext := true;
        }
      } else if r == '\'' {
        if inDouble {
          current := current + [r];
        } else if inSingle {
          inSingle := false;
          tokens := tokens + [current];
          current := "";
        } else {
          inSingle := true;
        }
      } else if r == '"' {
        if inSingle {
          current := current + [r];
        } else if inDouble {
          inDouble := false;
          tokens := tokens + [current];
          current := "";
        } else {
          inDouble := true;
        }
      } else if r in " \t\n\r" {
        if inSingle || inDouble {
          current := current + [r];
        } else if |current| > 0 {
          tokens := tokens + [current];
          current := "";
        }
      } else {
        current := current + [r];
      }
      i := i + 1;
    }
    LexFromState(s, |s|);
    if |current| > 0 || inSingle || inDouble {
      tokens := tokens + [current];
    }
  }

  method ParseCommandLine(cmdLine: GoString) returns (command: string, args: seq<string>)
    ensures (command, args) == Parse(cmdLine)
  {
    var trimmed := TrimSpace(cmdLine);
    if trimmed == [] {
      return "", [];
    }
    var tokens := ParseTokens(trimmed);
    if tokens == [] {
      return "", [];
    }
    command, args := tokens[0], tokens[1..];
  }

  lemma EscapeNext(arg: GoString, i: nat)
    requires i < |arg|
    ensures [Rune('"')] + EscapeAll(arg[..i]) + EscapeUnit(arg[i]) == [Rune('"')] + EscapeAll(arg[..i + 1])
  {
    assert arg[..i + 1][..i] == arg[..i];
    Assoc([Rune('"')], EscapeAll(arg[..i]), EscapeUnit(arg[i]));
  }

  method QuoteArg(arg: GoString) returns (result: GoString)
    ensures result == Quote(arg)
  {
    if arg == [] {
      return [Rune('"'), Rune('"')];
    }
    var needsQuoting := false;
    var i := 0;
    while i < |arg| && !needsQuoting
      invariant 0 <= i <= |arg|
      invariant !needsQuoting ==> forall k :: 0 <= k < i ==> !Special(arg[k])
      invariant needsQuoting ==> NeedsQuoting(arg)
      decreases |arg| - i, !needsQuoting
    {
      if Special(arg[i]) {
        needsQuoting := true;
      } else {
        i := i + 1;
      }
    }
    if !needsQuoting {
      return arg;
    }
    result := [Rune('"')];
    i := 0;
    while i < |arg|
      invariant 0 <= i <= |arg|
      invariant result == [Rune('"')] + EscapeAll(arg[..i])
    {
      var r := RuneOf(arg[i]);
      EscapeNext(arg, i);
      if r == '"' {
        result := result + [Rune('\\'), Rune('"')];
      } else if r == '\\' {
        result := result + [Rune('\\'), Rune('\\')];
      } else {
        result := result + [Rune(r)];
      }
      i := i + 1;
    }
    assert arg[..|arg|] == arg;
    result := result + [Rune('"')];
  }

  method JoinCommandLine(command: GoString, args: seq<GoString>) returns (result: GoString)
    ensures result == Join(command, args)
  {
    if command == [] {
      return [];
    }
    result := QuoteArg(command);
    var i := 0;
    while i < |args|
      invariant 0 <= i <= |args|
      invariant result == Quote(command) + JoinArgs(args[..i])
    {
      var quoted := QuoteArg(args[i]);
      assert args[..i + 1][..i] == args[..i];
      Assoc(Quote(command), JoinArgs(args[..i]), [Rune(' ')]);
      Assoc(Quote(command), JoinArgs(args[..i]) + [Rune(' ')], quoted);
      result := result + [Rune(' ')];
      result := result + quoted;
      i := i + 1;
    }
    assert args[..|args|] == args;
  }
}
