/**
 The wire format of the stream multiplexer: an 8-byte header (stream ID, payload length)
 followed by the payload, as writeData puts it on the connection and readLoop takes it off.
 */
module Framing {
  import opened Bytes

  const HEADER_SIZE: nat := 8

  /** "GET " read as a big-endian length: readLoop stops for good when it meets it. */
  const GET_LENGTH: uint32 := 0x4745_5420

  datatype Frame = Frame(id: uint32, payload: seq<byte>)

  const GET: seq<byte> := [0x47, 0x45, 0x54, 0x20]
  const POST: seq<byte> := [0x50, 0x4F, 0x53, 0x54]
  const PUT: seq<byte> := [0x50, 0x55, 0x54, 0x20]
  const HEAD: seq<byte> := [0x48, 0x45, 0x41, 0x44]
  const DELE: seq<byte> := [0x44, 0x45, 0x4C, 0x45]
  const OPTI: seq<byte> := [0x4F, 0x50, 0x54, 0x49]

  predicate LooksLikeHttp(data: seq<byte>) {
    |data| >= 4 && data[..4] in [GET, POST, PUT, HEAD, DELE, OPTI]
  }

  /** Both ends refuse HTTP-looking payloads on stream 0. */
  predicate Refused(f: Frame) {
    f.id == 0 && LooksLikeHttp(f.payload)
  }

  /** The bytes writeData sends; the length field holds uint32(len(data)), which truncates. */
  function Encode(f: Frame): (bytes: seq<byte>)
    ensures |bytes| == HEADER_SIZE + |f.payload|
  {
    PutUint32(f.id) + PutUint32(|f.payload| % TWO_TO_THE_32) + f.payload
  }

  function EncodeAll(fs: seq<Frame>): seq<byte> {
    if fs == [] then [] else Encode(fs[0]) + EncodeAll(fs[1..])
  }

  /** What the front of the received bytes is to readLoop. */
  datatype Parsed =
    | Incomplete
    | BadLength(rest: seq<byte>)
    | Whole(frame: Frame, rest: seq<byte>)

  function Parse(wire: seq<byte>): (p: Parsed)
    ensures p.Whole? ==> |p.rest| < |wire|
  {
    if |wire| < HEADER_SIZE then Incomplete
    else
      var length := Uint32(wire[4..8]);
      if length == GET_LENGTH then BadLength(wire[8..])
      else if |wire| < HEADER_SIZE + length then Incomplete
      else Whole(Frame(Uint32(wire[..4]), wire[8..8 + length]), wire[8 + length..])
  }

  /** Why readLoop is not decoding: it waits for bytes, or a guard made it stop for good. */
  datatype Halt = Waiting | GetLength | HttpOnControl

  /** What readLoop makes of a byte stream: the frames delivered, the bytes not yet used, its state. */
  datatype Decoded = Decoded(frames: seq<Frame>, rest: seq<byte>, halt: Halt)

  function Decode(wire: seq<byte>): Decoded
    decreases |wire|
  {
    match Parse(wire)
    case Incomplete => Decoded([], wire, Waiting)
    case BadLength(rest) => Decoded([], rest, GetLength)
    case Whole(f, rest) =>
      if Refused(f) then Decoded([], rest, HttpOnControl)
      else var d := Decode(rest); Decoded([f] + d.frames, d.rest, d.halt)
  }

  /** The frames the wire format can carry. */
  predicate Transmittable(f: Frame) {
    |f.payload| < TWO_TO_THE_32 && |f.payload| != GET_LENGTH && !Refused(f)
  }

  predicate AllTransmittable(fs: seq<Frame>) {
    forall i :: 0 <= i < |fs| ==> Transmittable(fs[i])
  }

  lemma {:induction false} EncodeAllAppend(a: seq<Frame>, b: seq<Frame>)
    ensures EncodeAll(a + b) == EncodeAll(a) + EncodeAll(b)
  {
    if a == [] {
      assert a + b == b;
    } else {
      assert (a + b)[1..] == a[1..] + b;
      EncodeAllAppend(a[1..], b);
    }
  }

  lemma Layout(id: seq<byte>, length: seq<byte>, payload: seq<byte>, more: seq<byte>)
    requires |id| == |length| == 4
    ensures var w := id + length + payload + more;
            var n := |payload|;
            w[..4] == id && w[4..8] == length && w[8..8 + n] == payload && w[8 + n..] == more
  {
  }

  lemma ParseParts(id: seq<byte>, length: seq<byte>, payload: seq<byte>, more: seq<byte>)
    requires |id| == |length| == 4 && Uint32(length) == |payload| != GET_LENGTH
    ensures Parse(id + length + payload + more) == Whole(Frame(Uint32(id), payload), more)
  {
    Layout(id, length, payload, more);
  }

  lemma Fits(n: nat)
    requires n < TWO_TO_THE_32
    ensures n % TWO_TO_THE_32 == n
  {
  }

  /** The three parts of an encoded frame, without how the numbers become bytes. */
  lemma EncodeParts(f: Frame) returns (id: seq<byte>, length: seq<byte>)
    requires |f.payload| < TWO_TO_THE_32
    ensures |id| == |length| == 4 && Uint32(id) == f.id && Uint32(length) == |f.payload|
    ensures Encode(f) == id + length + f.payload
  {
    Fits(|f.payload|);
    id := WordOf(f.id);
    length := WordOf(|f.payload|);
  }

  lemma ParseEncode(f: Frame, more: seq<byte>)
    requires Transmittable(f)
    ensures Parse(Encode(f) + more) == Whole(f, more)
  {
    var id, length := EncodeParts(f);
    ParseParts(id, length, f.payload, more);
  }

  lemma EncodeParse(wire: seq<byte>)
    requires Parse(wire).Whole?
    ensures var p := Parse(wire);
            && |p.frame.payload| < TWO_TO_THE_32 && |p.frame.payload| != GET_LENGTH
            && wire == Encode(p.frame) + p.rest
  {
    GetThenPut(wire[..4]);
    GetThenPut(wire[4..8]);
    var f := Parse(wire).frame;
    assert |f.payload| % TWO_TO_THE_32 == |f.payload|;
    assert wire[..8] == wire[..4] + wire[4..8];
    assert wire[..8 + |f.payload|] == wire[..8] + f.payload;
  }

  /** More bytes behind a complete frame, or behind a bad length, change nothing in front. */
  lemma ParseAppend(a: seq<byte>, b: seq<byte>)
    requires !Parse(a).Incomplete?
    ensures Parse(a + b) == Parse(a).(rest := Parse(a).rest + b)
  {
    var w := a + b;
    assert w[..4] == a[..4] && w[4..8] == a[4..8];
    var length := Uint32(a[4..8]);
    if length == GET_LENGTH {
      assert w[8..] == a[8..] + b;
    } else {
      assert w[8..8 + length] == a[8..8 + length];
      assert w[8 + length..] == a[8 + length..] + b;
    }
  }

  lemma EncodeAllCons(fs: seq<Frame>, more: seq<byte>)
    requires fs != []
    ensures EncodeAll(fs) + more == Encode(fs[0]) + (EncodeAll(fs[1..]) + more)
  {
    Assoc(Encode(fs[0]), EncodeAll(fs[1..]), more);
  }

  lemma DecodeEncode(f: Frame, more: seq<byte>)
    requires Transmittable(f)
    ensures Decode(Encode(f) + more) == Decode(more).(frames := [f] + Decode(more).frames)
  {
    ParseEncode(f, more);
  }

  /** Decoding undoes encoding, for any list of transmittable frames and whatever follows it. */
  lemma {:induction false} DecodeEncodeAll(fs: seq<Frame>, more: seq<byte>)
    requires AllTransmittable(fs)
    ensures Decode(EncodeAll(fs) + more) == Decode(more).(frames := fs + Decode(more).frames)
  {
    if fs == [] {
      assert EncodeAll(fs) + more == more;
      assert fs + Decode(more).frames == Decode(more).frames;
    } else {
      var tail := EncodeAll(fs[1..]) + more;
      var d := Decode(more);
      EncodeAllCons(fs, more);
      DecodeEncodeAll(fs[1..], more);
      DecodeEncode(fs[0], tail);
      Assoc([fs[0]], fs[1..], d.frames);
      assert [fs[0]] + fs[1..] == fs;
    }
  }

  lemma EncodeAllPush(f: Frame, fs: seq<Frame>, rest: seq<byte>)
    ensures EncodeAll([f] + fs) + rest == Encode(f) + (EncodeAll(fs) + rest)
  {
    assert ([f] + fs)[1..] == fs;
    EncodeAllCons([f] + fs, rest);
  }

  /** One turn of the decoder. */
  lemma DecodeWhole(wire: seq<byte>)
    requires Parse(wire).Whole? && !Refused(Parse(wire).frame)
    ensures var p := Parse(wire);
            && |p.rest| < |wire|
            && Decode(wire) == Decode(p.rest).(frames := [p.frame] + Decode(p.rest).frames)
  {
  }

  lemma {:induction false} DecodedTransmittable(wire: seq<byte>)
    ensures AllTransmittable(Decode(wire).frames)
    decreases |wire|
  {
    var p := Parse(wire);
    if p.Whole? && !Refused(p.frame) {
      DecodeWhole(wire);
      DecodedTransmittable(p.rest);
      assert Transmittable(p.frame) by {
        EncodeParse(wire);
      }
    }
  }

  /** Encoding undoes decoding: unless a guard fired, no received byte is lost or invented,
      and everything decoded is transmittable. */
  lemma {:induction false} EncodeDecode(wire: seq<byte>)
    ensures AllTransmittable(Decode(wire).frames)
    ensures Decode(wire).halt == Waiting ==>
              && EncodeAll(Decode(wire).frames) + Decode(wire).rest == wire
              && Parse(Decode(wire).rest).Incomplete?
    decreases |wire|
  {
    DecodedTransmittable(wire);
    var p := Parse(wire);
    if p.Whole? && !Refused(p.frame) {
      var d := Decode(p.rest);
      DecodeWhole(wire);
      EncodeDecode(p.rest);
      EncodeParse(wire);
      EncodeAllPush(p.frame, d.frames, d.rest);
    }
  }

  /** The exact condition under which a batch of frames survives the wire format. */
  lemma RoundTripIff(fs: seq<Frame>)
    ensures Decode(EncodeAll(fs)) == Decoded(fs, [], Waiting) <==> AllTransmittable(fs)
  {
    if AllTransmittable(fs) {
      DecodeEncodeAll(fs, []);
      assert EncodeAll(fs) + [] == EncodeAll(fs);
      assert fs + [] == fs;
    } else {
      EncodeDecode(EncodeAll(fs));
    }
  }

  /** A payload whose length spells "GET " does not survive: zeros on stream 1, for instance. */
  lemma LostFrame(f: Frame)
    requires f == Frame(1, seq(GET_LENGTH, _ => 0))
    ensures Decode(EncodeAll([f])) != Decoded([f], [], Waiting)
  {
    RoundTripIff([f]);
    assert !Transmittable([f][0]);
  }

  /** Chunking is irrelevant: decoding a first part and going on with its remainder plus what
      arrives later is decoding everything at once; after a guard fired nothing more is delivered. */
  lemma {:induction false} DecodeAppend(a: seq<byte>, b: seq<byte>)
    ensures Decode(a).halt == Waiting ==>
              var d := Decode(Decode(a).rest + b);
              Decode(a + b) == d.(frames := Decode(a).frames + d.frames)
    ensures Decode(a).halt != Waiting ==>
              Decode(a + b) == Decode(a).(rest := Decode(a).rest + b)
    decreases |a|
  {
    var p := Parse(a);
    if p.Incomplete? {
      assert [] + Decode(a + b).frames == Decode(a + b).frames;
    } else {
      ParseAppend(a, b);
      if p.Whole? && !Refused(p.frame) {
        DecodeWhole(a);
        DecodeWhole(a + b);
        DecodeAppend(p.rest, b);
        Assoc([p.frame], Decode(p.rest).frames, Decode(Decode(p.rest).rest + b).frames);
      }
    }
  }

  /** Having delivered these frames, readLoop has this much of the byte stream left. */
  predicate Remaining(all: seq<byte>, delivered: seq<Frame>, left: seq<byte>) {
    Decode(all) == Decode(left).(frames := delivered + Decode(left).frames)
  }

  lemma RemainingStart(all: seq<byte>)
    ensures Remaining(all, [], all)
  {
    assert [] + Decode(all).frames == Decode(all).frames;
  }

  /** One more turn of the loop. */
  lemma RemainingStep(all: seq<byte>, delivered: seq<Frame>, left: seq<byte>)
    requires Remaining(all, delivered, left)
    ensures var p := Parse(left);
            && delivered <= Decode(all).frames
            && (p.Whole? && !Refused(p.frame) ==> Remaining(all, delivered + [p.frame], p.rest))
            && (!(p.Whole? && !Refused(p.frame)) ==> Decode(all).frames == delivered)
            && (|left| < HEADER_SIZE ==> Decode(all).halt == Waiting && Decode(all).rest == left)
            && (|left| >= HEADER_SIZE && !p.Whole? ==>
                  Decode(all).halt != Waiting || |Decode(all).rest| >= HEADER_SIZE)
            && (p.Whole? && Refused(p.frame) ==> Decode(all).halt != Waiting)
  {
    var p := Parse(left);
    if p.Whole? && !Refused(p.frame) {
      Assoc(delivered, [p.frame], Decode(p.rest).frames);
    } else {
      assert delivered + [] == delivered;
    }
  }

  /** Decoding a prefix of what is sent gives a prefix of the frames sent; the bytes left over
      are the beginning of the first frame not yet delivered. */
  lemma DecodePrefix(fs: seq<Frame>, k: nat)
    requires AllTransmittable(fs)
    requires k <= |EncodeAll(fs)|
    ensures var d := Decode(EncodeAll(fs)[..k]);
            && d.halt == Waiting
            && d.frames <= fs
            && EncodeAll(d.frames) + d.rest == EncodeAll(fs)[..k]
            && d.rest <= EncodeAll(fs[|d.frames|..])
            && (|d.frames| < |fs| ==> |d.rest| < |Encode(fs[|d.frames|])|)
  {
    PrefixFrames(fs, k);
    var d := Decode(EncodeAll(fs)[..k]);
    var rest := fs[|d.frames|..];
    assert fs == d.frames + rest;
    RestIsPrefix(d.frames, rest, d.rest, k);
    if rest != [] && |d.rest| >= |Encode(rest[0])| {
      EncodeAllCons(rest, []);
      assert EncodeAll(rest) + [] == EncodeAll(rest);
      WholeFrame(rest[0], d.rest, EncodeAll(rest[1..]) + []);
    }
  }

  lemma RestIsPrefix(front: seq<Frame>, back: seq<Frame>, rest: seq<byte>, k: nat)
    requires k <= |EncodeAll(front + back)|
    requires EncodeAll(front) + rest == EncodeAll(front + back)[..k]
    ensures rest <= EncodeAll(back)
  {
    EncodeAllAppend(front, back);
    AfterPrefix(EncodeAll(front), rest, EncodeAll(back), k);
  }

  /** Bytes that begin like an encoded frame and are as long are not an incomplete frame. */
  lemma WholeFrame(f: Frame, bytes: seq<byte>, more: seq<byte>)
    requires Transmittable(f)
    requires |bytes| >= |Encode(f)|
    requires bytes <= Encode(f) + more
    ensures Parse(bytes).Whole?
  {
    var n := |Encode(f)|;
    ParseEncode(f, bytes[n..]);
    assert bytes[..n] == (Encode(f) + more)[..n] == Encode(f);
    assert bytes == Encode(f) + bytes[n..];
  }

  lemma PrefixFrames(fs: seq<Frame>, k: nat)
    requires AllTransmittable(fs)
    requires k <= |EncodeAll(fs)|
    ensures var d := Decode(EncodeAll(fs)[..k]);
            && d.halt == Waiting
            && d.frames <= fs
            && EncodeAll(d.frames) + d.rest == EncodeAll(fs)[..k]
            && Parse(d.rest).Incomplete?
  {
    var a, b := EncodeAll(fs)[..k], EncodeAll(fs)[k..];
    assert EncodeAll(fs) == a + b;
    RoundTripIff(fs);
    DecodeAppend(a, b);
    EncodeDecode(a);
  }
}
