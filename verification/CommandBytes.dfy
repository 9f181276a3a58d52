/**
 Command lines as the byte strings they are. CommandLine works on decoding units; here the units come
 out of bytes by UTF-8 decoding, and the lines that are printed decode piece by piece, because what
 stands between the pieces is ASCII.
 */
module CommandBytes {
  import opened Bytes
  import opened CommandLine
  import U = Utf8

  /** How characters and their bytes go together; UTF8 below is the one there is. */
  datatype Runes = Runes(decode: seq<byte> -> char, encode: char -> seq<byte>)

  /** A valid character is decoded without loss. */
  ghost predicate Lossless(r: Runes, s: seq<byte>) { U.Width(s) == |s| > 0 ==> r.encode(r.decode(s)) == s }

  /** A rune is encoded as one valid character that decodes to it, ASCII as itself. */
  ghost predicate Encodes(r: Runes, c: char) {
    && U.Width(r.encode(c)) == |r.encode(c)| > 0 && r.decode(r.encode(c)) == c
    && (c < '\U{80}' ==> r.encode(c) == [c as int])
  }

  ghost predicate Right(r: Runes) {
    && (forall s :: Lossless(r, s)) && (forall c :: Encodes(r, c))
    && r.encode(CommandLine.REPLACEMENT) == U.REPLACEMENT
  }

  /** What `range` sees in a string. */
  function Decode(r: Runes, s: seq<byte>): GoString
    decreases |s|
  {
    if s == [] then []
    else if U.Width(s) == 0 then [Bad(s[0])] + Decode(r, s[1..])
    else [Rune(r.decode(s[..U.Width(s)]))] + Decode(r, s[U.Width(s)..])
  }

  function UnitBytes(r: Runes, u: Unit): seq<byte> {
    match u
    case Rune(c) => r.encode(c)
    case Bad(b) => [b]
  }

  function Encode(r: Runes, g: GoString): seq<byte> {
    if g == [] then [] else UnitBytes(r, g[0]) + Encode(r, g[1..])
  }

  // ---------- strings ----------

  /** The first unit of a string, and how many bytes it takes. */
  lemma FirstUnit(r: Runes, s: seq<byte>) returns (u: Unit, n: nat)
    requires Right(r) && s != []
    ensures 0 < n <= |s| && Decode(r, s) == [u] + Decode(r, s[n..]) && UnitBytes(r, u) == s[..n]
  {
    n := U.Width(s);
    if n == 0 {
      u, n := Bad(s[0]), 1;
    } else {
      U.WidthOfPrefix(s);
      assert Lossless(r, s[..n]);
      u := Rune(r.decode(s[..n]));
    }
  }

  lemma EncodeCons(r: Runes, u: Unit, g: GoString)
    ensures Encode(r, [u] + g) == UnitBytes(r, u) + Encode(r, g)
  {
    assert ([u] + g)[1..] == g;
  }

  /** Decoding loses nothing. */
  lemma {:induction false} DecodeEncodes(r: Runes, s: seq<byte>)
    requires Right(r)
    ensures Encode(r, Decode(r, s)) == s
    decreases |s|
  {
    if s != [] {
      var u, n := FirstUnit(r, s);
      DecodeEncodes(r, s[n..]);
      EncodeCons(r, u, Decode(r, s[n..]));
      assert s == s[..n] + s[n..];
    }
  }

  lemma {:induction false} EncodeAppend(r: Runes, a: GoString, b: GoString)
    ensures Encode(r, a + b) == Encode(r, a) + Encode(r, b)
  {
    if a == [] {
      assert a + b == b;
    } else {
      assert (a + b)[1..] == a[1..] + b;
      EncodeAppend(r, a[1..], b);
    }
  }

  lemma DecodeCons(r: Runes, front: seq<byte>, rest: seq<byte>)
    requires U.Width(front) == |front| > 0
    ensures Decode(r, front + rest) == [Rune(r.decode(front))] + Decode(r, rest)
  {
    U.WidthOfFront(front, rest);
    assert (front + rest)[..|front|] == front && (front + rest)[|front|..] == rest;
  }

  lemma DecodeBad(r: Runes, s: seq<byte>)
    requires s != [] && U.Width(s) == 0
    ensures Decode(r, s) == [Bad(s[0])] + Decode(r, s[1..])
  {
  }

  /** A string ends, or goes on, as it did. */
  lemma DecodeAppendFront(r: Runes, a: seq<byte>, b: seq<byte>) returns (u: Unit, n: nat)
    requires a != [] && (b == [] || b[0] < 0x80)
    ensures 0 < n <= |a|
    ensures Decode(r, a) == [u] + Decode(r, a[n..]) && Decode(r, a + b) == [u] + Decode(r, a[n..] + b)
  {
    n := U.Width(a);
    if n == 0 {
      U.WidthBeforeAscii(a, b);
      assert (a + b)[1..] == a[1..] + b;
      DecodeBad(r, a);
      DecodeBad(r, a + b);
      u, n := Bad(a[0]), 1;
    } else {
      U.WidthOfPrefix(a);
      assert a == a[..n] + a[n..];
      DecodeCons(r, a[..n], a[n..]);
      Assoc(a[..n], a[n..], b);
      DecodeCons(r, a[..n], a[n..] + b);
      u := Rune(r.decode(a[..n]));
    }
  }

  /** What follows in ASCII, or not at all, does not change how a string decodes. */
  lemma {:induction false} DecodeAppend(r: Runes, a: seq<byte>, b: seq<byte>)
    requires b == [] || b[0] < 0x80
    ensures Decode(r, a + b) == Decode(r, a) + Decode(r, b)
    decreases |a|
  {
    if a == [] {
      assert a + b == b;
    } else {
      var u, n := DecodeAppendFront(r, a, b);
      DecodeAppend(r, a[n..], b);
      Assoc([u], Decode(r, a[n..]), Decode(r, b));
    }
  }

  /** These units are what their bytes decode to. */
  predicate Stable(r: Runes, g: GoString) { Decode(r, Encode(r, g)) == g }

  lemma StableDecoded(r: Runes, s: seq<byte>)
    requires Right(r)
    ensures Stable(r, Decode(r, s))
  {
    DecodeEncodes(r, s);
  }

  lemma {:induction false} StableRunes(r: Runes, g: GoString)
    requires Right(r) && ValidUtf8(g)
    ensures Stable(r, g) && U.Valid(Encode(r, g))
  {
    if g != [] {
      assert Encodes(r, g[0].c);
      StableRunes(r, g[1..]);
      DecodeCons(r, r.encode(g[0].c), Encode(r, g[1..]));
      U.ValidFront(r.encode(g[0].c), Encode(r, g[1..]));
    }
  }

  predicate StartsInAscii(g: GoString) { g == [] || (g[0].Rune? && g[0].c < '\U{80}') }

  lemma StableAppend(r: Runes, a: GoString, b: GoString)
    requires Right(r) && Stable(r, a) && Stable(r, b) && StartsInAscii(b)
    ensures Stable(r, a + b)
  {
    if b != [] {
      assert Encodes(r, b[0].c);
    }
    EncodeAppend(r, a, b);
    DecodeAppend(r, Encode(r, a), Encode(r, b));
  }

  lemma {:induction false} EscapedIsRunes(g: GoString)
    ensures ValidUtf8(EscapeAll(g))
  {
    if g != [] {
      EscapedIsRunes(g[..|g| - 1]);
    }
  }

  lemma StableQuote(r: Runes, g: GoString)
    requires Right(r) && Stable(r, g)
    ensures Stable(r, Quote(g))
  {
    if g == [] || NeedsQuoting(g) {
      EscapedIsRunes(g);
      StableRunes(r, Quote(g));
    }
  }

  predicate AllStable(r: Runes, args: seq<GoString>) { forall i :: 0 <= i < |args| ==> Stable(r, args[i]) }

  lemma {:induction false} StableJoinArgs(r: Runes, args: seq<GoString>)
    requires Right(r) && AllStable(r, args)
    ensures Stable(r, JoinArgs(args)) && StartsInAscii(JoinArgs(args))
  {
    if args != [] {
      var front, quoted := args[..|args| - 1], Quote(args[|args| - 1]);
      StableJoinArgs(r, front);
      StableQuote(r, args[|args| - 1]);
      SpaceBefore(r, quoted);
      StableAppend(r, JoinArgs(front), [Rune(' ')] + quoted);
      Assoc(JoinArgs(front), [Rune(' ')], quoted);
    }
  }

  lemma SpaceBefore(r: Runes, g: GoString)
    requires Right(r) && Stable(r, g)
    ensures Stable(r, [Rune(' ')] + g)
  {
    assert ([Rune(' ')] + g)[1..] == g;
    assert Encodes(r, ' ');
    DecodeCons(r, r.encode(' '), Encode(r, g));
  }

  function DecodeAll(r: Runes, ss: seq<seq<byte>>): (all: seq<GoString>)
    ensures |all| == |ss|
  {
    seq(|ss|, i requires 0 <= i < |ss| => Decode(r, ss[i]))
  }

  /** The line JoinCommandLine prints, and what ParseCommandLine makes of a line, in bytes. */
  function JoinBytes(r: Runes, command: seq<byte>, args: seq<seq<byte>>): seq<byte> {
    Encode(r, Join(Decode(r, command), DecodeAll(r, args)))
  }

  function TextBytes(r: Runes, s: string): seq<byte> { Encode(r, Embed(s)) }

  function AllTextBytes(r: Runes, ss: seq<string>): (all: seq<seq<byte>>)
    ensures |all| == |ss|
  {
    seq(|ss|, i requires 0 <= i < |ss| => TextBytes(r, ss[i]))
  }

  function ParseBytes(r: Runes, line: seq<byte>): (seq<byte>, seq<seq<byte>>) {
    var (c, a) := Parse(Decode(r, line));
    (TextBytes(r, c), AllTextBytes(r, a))
  }

  /** A printed line decodes to the pieces it was put together from. */
  lemma JoinDecodes(r: Runes, command: seq<byte>, args: seq<seq<byte>>)
    requires Right(r)
    ensures Decode(r, JoinBytes(r, command, args)) == Join(Decode(r, command), DecodeAll(r, args))
  {
    var c, a := Decode(r, command), DecodeAll(r, args);
    StableDecoded(r, command);
    forall i | 0 <= i < |a| ensures Stable(r, a[i]) {
      StableDecoded(r, args[i]);
    }
    StableJoinArgs(r, a);
    StableQuote(r, c);
    StableAppend(r, Quote(c), JoinArgs(a));
  }

  // ---------- the round trip ----------

  /** Written back rune by rune, a string is what JSON would make of it. */
  lemma {:induction false} CleanBytes(r: Runes, s: seq<byte>)
    requires Right(r)
    ensures TextBytes(r, Clean(Decode(r, s))) == U.Coerce(s)
    decreases |s|
  {
    if s != [] {
      var w := U.Width(s);
      var rest := if w == 0 then s[1..] else s[w..];
      var d, e := Decode(r, s), Embed(Clean(Decode(r, s)));
      CleanBytes(r, rest);
      U.WidthOfPrefix(s);
      assert d[1..] == Decode(r, rest);
      assert e[0] == Rune(RuneOf(d[0])) && e[1..] == Embed(Clean(Decode(r, rest)));
      if w == 0 {
        assert e[0] == Rune(CommandLine.REPLACEMENT);
      } else {
        assert Lossless(r, s[..w]);
      }
    }
  }

  function CoerceAll(ss: seq<seq<byte>>): (r: seq<seq<byte>>)
    ensures |r| == |ss|
  {
    seq(|ss|, i requires 0 <= i < |ss| => U.Coerce(ss[i]))
  }

  lemma RoundTripWith(r: Runes, command: seq<byte>, args: seq<seq<byte>>)
    requires Right(r) && command != []
    ensures ParseBytes(r, JoinBytes(r, command, args)) == (U.Coerce(command), CoerceAll(args))
  {
    var c, a := Decode(r, command), DecodeAll(r, args);
    JoinDecodes(r, command, args);
    assert c != [];
    RoundTrip(c, a);
    CleanBytes(r, command);
    forall i | 0 <= i < |args| ensures AllTextBytes(r, CleanAll(a))[i] == CoerceAll(args)[i] {
      CleanBytes(r, args[i]);
    }
    assert AllTextBytes(r, CleanAll(a)) == CoerceAll(args);
  }

  lemma CoerceAllIff(ss: seq<seq<byte>>)
    ensures CoerceAll(ss) == ss <==> forall i :: 0 <= i < |ss| ==> U.Valid(ss[i])
  {
    forall i | 0 <= i < |ss| ensures CoerceAll(ss)[i] == ss[i] <==> U.Valid(ss[i]) {
      U.CoerceKeepsValid(ss[i]);
    }
  }

  lemma RoundTripWithIff(r: Runes, command: seq<byte>, args: seq<seq<byte>>)
    requires Right(r)
    ensures ParseBytes(r, JoinBytes(r, command, args)) == (command, args) <==>
            U.Valid(command) && (forall i :: 0 <= i < |args| ==> U.Valid(args[i])) && (command == [] ==> args == [])
  {
    if command == [] {
      EmptyLine(r, args);
    } else {
      RoundTripWith(r, command, args);
      U.CoerceKeepsValid(command);
      CoerceAllIff(args);
    }
  }

  lemma EmptyLine(r: Runes, args: seq<seq<byte>>)
    ensures ParseBytes(r, JoinBytes(r, [], args)) == ([], [])
  {
    assert Join([], DecodeAll(r, args)) == [];
    assert Clean(TrimSpace([])) == "";
    assert Parse([]) == ("", []);
    assert AllTextBytes(r, []) == [];
  }

  // ---------- UTF-8 ----------

  function Low(b: byte): int { b - 0x80 }

  /** The code point of a valid character. */
  function CodePoint(s: seq<byte>): (n: int)
    requires U.Width(s) == |s| > 0
    ensures 0 <= n < 0xD800 || 0xE000 <= n < 0x11_0000
  {
    var first: int := s[0];
    if |s| == 1 then first
    else if |s| == 2 then (first - 0xC0) * 0x40 + Low(s[1])
    else if |s| == 3 then (first - 0xE0) * 0x1000 + Low(s[1]) * 0x40 + Low(s[2])
    else (first - 0xF0) * 0x4_0000 + Low(s[1]) * 0x1000 + Low(s[2]) * 0x40 + Low(s[3])
  }

  function CharOf(s: seq<byte>): char {
    if U.Width(s) == |s| > 0 then CodePoint(s) as char else CommandLine.REPLACEMENT
  }

  /** strings.Builder.WriteRune */
  function EncodeRune(c: char): seq<byte> {
    var n := c as int;
    if n < 0x80 then [n]
    else if n < 0x800 then [0xC0 + n / 0x40, 0x80 + n % 0x40]
    else if n < 0x1_0000 then [0xE0 + n / 0x1000, 0x80 + n / 0x40 % 0x40, 0x80 + n % 0x40]
    else [0xF0 + n / 0x4_0000, 0x80 + n / 0x1000 % 0x40, 0x80 + n / 0x40 % 0x40, 0x80 + n % 0x40]
  }

  const UTF8 := Runes(CharOf, EncodeRune)

  lemma Recompose(n: nat)
    ensures n == n / 0x40 * 0x40 + n % 0x40
    ensures n / 0x40 == n / 0x1000 * 0x40 + n / 0x40 % 0x40
    ensures n / 0x1000 == n / 0x4_0000 * 0x40 + n / 0x1000 % 0x40
  {
  }

  lemma RuneWidth(c: char)
    ensures U.Width(EncodeRune(c)) == |EncodeRune(c)| > 0
  {
    Recompose(c as int);
  }

  lemma RuneDecodes(c: char)
    ensures U.Width(EncodeRune(c)) == |EncodeRune(c)| > 0
    ensures CharOf(EncodeRune(c)) == c
  {
    RuneWidth(c);
    Recompose(c as int);
    assert CodePoint(EncodeRune(c)) == c as int;
  }

  lemma CharEncodes(s: seq<byte>)
    requires U.Width(s) == |s| > 0
    ensures EncodeRune(CharOf(s)) == s
  {
    if |s| == 2 {
      Digit(s[0] - 0xC0, Low(s[1]));
    } else if |s| == 3 {
      ThreeDigits(s[0] - 0xE0, Low(s[1]), Low(s[2]));
    } else if |s| == 4 {
      FourDigits(s[0] - 0xF0, Low(s[1]), Low(s[2]), Low(s[3]));
    }
  }

  lemma Digit(high: int, low: int)
    requires 0 <= low < 0x40
    ensures (high * 0x40 + low) / 0x40 == high && (high * 0x40 + low) % 0x40 == low
  {
  }

  lemma ThreeDigits(a: int, b: int, c: int)
    requires 0 <= b < 0x40 && 0 <= c < 0x40
    ensures var n := a * 0x1000 + b * 0x40 + c;
            n / 0x1000 == a && n / 0x40 == a * 0x40 + b && n / 0x40 % 0x40 == b && n % 0x40 == c
  {
    Digit(a * 0x40 + b, c);
    Digit(a, b);
  }

  lemma FourDigits(a: int, b: int, c: int, d: int)
    requires 0 <= b < 0x40 && 0 <= c < 0x40 && 0 <= d < 0x40
    ensures var n := a * 0x4_0000 + b * 0x1000 + c * 0x40 + d;
            && n / 0x4_0000 == a && n / 0x1000 % 0x40 == b && n / 0x40 % 0x40 == c && n % 0x40 == d
  {
    Digit(a * 0x1000 + b * 0x40 + c, d);
    ThreeDigits(a, b, c);
  }

  lemma Utf8IsRight()
    ensures Right(UTF8)
  {
    forall s ensures Lossless(UTF8, s) {
      if U.Width(s) == |s| > 0 {
        CharEncodes(s);
      }
    }
    forall c ensures Encodes(UTF8, c) {
      RuneDecodes(c);
    }
  }

  // ---------- the round trip ----------

  /** Printing and parsing byte strings: for every non-empty command and all arguments, the parser returns
      them, with every byte that begins no valid character replaced by U+FFFD. */
  lemma RoundTripBytes(command: seq<byte>, args: seq<seq<byte>>)
    requires command != []
    ensures ParseBytes(UTF8, JoinBytes(UTF8, command, args)) == (U.Coerce(command), CoerceAll(args))
  {
    Utf8IsRight();
    RoundTripWith(UTF8, command, args);
  }

  /** The exact condition under which the byte strings come back as they were: all of them are valid UTF-8,
      and an empty command has no arguments. */
  lemma RoundTripBytesIff(command: seq<byte>, args: seq<seq<byte>>)
    ensures ParseBytes(UTF8, JoinBytes(UTF8, command, args)) == (command, args) <==>
            U.Valid(command) && (forall i :: 0 <= i < |args| ==> U.Valid(args[i])) && (command == [] ==> args == [])
  {
    Utf8IsRight();
    RoundTripWithIff(UTF8, command, args);
  }

  /** For instance, the byte 0xFF comes back as the three bytes of U+FFFD. */
  lemma BadByteIsReplaced()
    ensures ParseBytes(UTF8, JoinBytes(UTF8, [0xFF], [])) == (U.REPLACEMENT, [])
  {
    RoundTripBytes([0xFF], []);
    LoneBadByte(0xFF);
    assert CoerceAll([]) == [];
  }

  lemma LoneBadByte(b: byte)
    requires b >= 0x80
    ensures U.Coerce([b]) == U.REPLACEMENT
  {
    assert U.Coerce([b]) == U.REPLACEMENT + U.Coerce([b][1..]);
    assert U.Coerce([b][1..]) == [];
  }
}
