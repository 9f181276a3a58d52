/** UTF-8 as Go decodes it, and what a string keeps when it is put into JSON text and read back. */
module Utf8 {
  import opened Bytes

  predicate Tail(b: byte) { 0x80 <= b <= 0xBF }

  /** The second byte a first byte allows, which rules out overlong forms, surrogates and code points
      above U+10FFFF (Table 3-7 of the Unicode standard). */
  predicate SecondFits(b0: byte, b1: byte) {
    if b0 == 0xE0 then 0xA0 <= b1 <= 0xBF
    else if b0 == 0xED then 0x80 <= b1 <= 0x9F
    else if b0 == 0xF0 then 0x90 <= b1 <= 0xBF
    else if b0 == 0xF4 then 0x80 <= b1 <= 0x8F
    else Tail(b1)
  }

  /** How many bytes the character in front takes, or 0 if no valid character is in front. */
  function Width(s: seq<byte>): (w: nat)
    ensures w <= 4 && w <= |s|
  {
    if s == [] then 0
    else if s[0] < 0x80 then 1
    else if 0xC2 <= s[0] <= 0xDF then
      if |s| >= 2 && Tail(s[1]) then 2 else 0
    else if 0xE0 <= s[0] <= 0xEF then
      if |s| >= 3 && SecondFits(s[0], s[1]) && Tail(s[2]) then 3 else 0
    else if 0xF0 <= s[0] <= 0xF4 then
      if |s| >= 4 && SecondFits(s[0], s[1]) && Tail(s[2]) && Tail(s[3]) then 4 else 0
    else 0
  }

  predicate Valid(s: seq<byte>) {
    s == [] || (Width(s) > 0 && Valid(s[Width(s)..]))
  }

  /** U+FFFD */
  const REPLACEMENT: seq<byte> := [0xEF, 0xBF, 0xBD]

  /** What json.Marshal makes of a string, read back: every byte that begins no valid character is
      replaced by U+FFFD. */
  function Coerce(s: seq<byte>): seq<byte> {
    if s == [] then []
    else if Width(s) == 0 then REPLACEMENT + Coerce(s[1..])
    else s[..Width(s)] + Coerce(s[Width(s)..])
  }

  /** Nothing gets shorter, and only valid text keeps its length and its bytes. */
  lemma {:induction false} CoerceKeepsValid(s: seq<byte>)
    ensures |Coerce(s)| >= |s|
    ensures |Coerce(s)| == |s| <==> Valid(s)
    ensures Coerce(s) == s <==> Valid(s)
    decreases |s|
  {
    if s != [] {
      var w := Width(s);
      if w == 0 {
        CoerceKeepsValid(s[1..]);
      } else {
        CoerceKeepsValid(s[w..]);
        assert s == s[..w] + s[w..];
      }
    }
  }

  lemma WidthOfFront(front: seq<byte>, rest: seq<byte>)
    requires Width(front) == |front| > 0
    ensures Width(front + rest) == |front|
  {
  }

  lemma WidthOfPrefix(s: seq<byte>)
    ensures Width(s[..Width(s)]) == Width(s)
  {
  }

  /** ASCII completes no character. */
  lemma WidthBeforeAscii(front: seq<byte>, rest: seq<byte>)
    requires front != [] && Width(front) == 0 && (rest == [] || rest[0] < 0x80)
    ensures Width(front + rest) == 0
  {
    if rest == [] {
      assert front + rest == front;
    }
  }

  lemma {:induction false} ValidFront(front: seq<byte>, rest: seq<byte>)
    requires Width(front) == |front| > 0
    ensures Valid(front + rest) <==> Valid(rest)
  {
    WidthOfFront(front, rest);
    assert (front + rest)[|front|..] == rest;
  }

  /** What comes out is always valid, so a second trip changes nothing. */
  lemma {:induction false} CoerceIsValid(s: seq<byte>)
    ensures Valid(Coerce(s)) && Coerce(Coerce(s)) == Coerce(s)
    decreases |s|
  {
    if s != [] {
      var w := Width(s);
      if w == 0 {
        CoerceIsValid(s[1..]);
        ValidFront(REPLACEMENT, Coerce(s[1..]));
      } else {
        CoerceIsValid(s[w..]);
        ValidFront(s[..w], Coerce(s[w..]));
      }
    }
    CoerceKeepsValid(Coerce(s));
  }

  lemma {:induction false} AsciiIsValid(s: seq<byte>)
    requires forall i :: 0 <= i < |s| ==> s[i] < 0x80
    ensures Valid(s)
    decreases |s|
  {
    if s != [] {
      AsciiIsValid(s[1..]);
    }
  }
}
