/**
 Control packets: a 4-byte length and the packet's JSON text, written as two frames on stream 0.
 JSON is abstract: a codec whose decoder inverts its encoder and whose encodings start with '{'.
 */
module Packet {
  import opened Bytes
  import opened Framing
  import opened Connection
  import opened Multiplexer
  import MD = MuxDelivery
  import MR = MuxRun

  datatype Option<+T> = None | Some(value: T)

  datatype Codec<!P> = Codec(marshal: P -> seq<byte>, unmarshal: seq<byte> -> Option<P>)

  const OPEN_BRACE: byte := 0x7B

  ghost predicate Lawful<P(!new)>(codec: Codec<P>) {
    forall p :: codec.unmarshal(codec.marshal(p)) == Some(p)
                && codec.marshal(p) != [] && codec.marshal(p)[0] == OPEN_BRACE
  }

  /** The largest length ReadPacket accepts: 10 MiB. */
  const MAX_CONTROL_PACKET: nat := 10 * 1024 * 1024
  const MAX_PACKET: nat := 1024 * 1024 * 1024

  /** The bytes of a packet; the length field is uint32(len(data)). */
  function EncodePacket<P>(codec: Codec<P>, p: P): seq<byte> {
    var data := codec.marshal(p);
    PutUint32(|data| % TWO_TO_THE_32) + data
  }

  function EncodePackets<P>(codec: Codec<P>, ps: seq<P>): seq<byte> {
    if ps == [] then [] else EncodePacket(codec, ps[0]) + EncodePackets(codec, ps[1..])
  }

  /** The frames WritePacket makes of a packet. */
  function PacketFrames<P>(codec: Codec<P>, p: P): seq<Frame> {
    var data := codec.marshal(p);
    [Frame(0, PutUint32(|data| % TWO_TO_THE_32)), Frame(0, data)]
  }

  datatype ReadOutcome<+P> =
    | Received(packet: P, rest: seq<byte>)
    | ReadFailed
    | TooLarge(length: uint32)
    | BadPacket

  /** What ReadPacket makes of the bytes of the control stream. */
  function Read<P>(codec: Codec<P>, bytes: seq<byte>): (r: ReadOutcome<P>)
    ensures r.Received? ==> |bytes| >= 4 && Uint32(bytes[..4]) <= MAX_CONTROL_PACKET
    ensures r.Received? ==> |r.rest| == |bytes| - 4 - Uint32(bytes[..4])
  {
    if |bytes| < 4 then ReadFailed
    else
      var length := Uint32(bytes[..4]);
      if length == GET_LENGTH || length > MAX_PACKET || length > MAX_CONTROL_PACKET then TooLarge(length)
      else if |bytes| < 4 + length then ReadFailed
      else match codec.unmarshal(bytes[4..4 + length])
        case None => BadPacket
        case Some(p) => Received(p, bytes[4 + length..])
  }

  /** The packets a loop over ReadPacket gets. */
  function ReadAll<P>(codec: Codec<P>, bytes: seq<byte>): seq<P>
    decreases |bytes|
  {
    match Read(codec, bytes)
    case Received(p, rest) => [p] + ReadAll(codec, rest)
    case _ => []
  }

  method WritePacket<P>(mux: Multiplexer, control: Stream, codec: Codec<P>, p: P) returns (ok: bool)
    requires control.id == 0
    modifies mux.conn`wire
    ensures ok ==> mux.conn.wire == old(mux.conn.wire) + EncodeAll(PacketFrames(codec, p))
  {
    var data := codec.marshal(p);
    var _, headerOk := mux.Write(control, PutUint32(|data| % TWO_TO_THE_32));
    if !headerOk {
      return false;
    }
    var _, dataOk := mux.Write(control, data);
    ok := dataOk;
    TwoFrames(PacketFrames(codec, p));
    Assoc(old(mux.conn.wire), Encode(PacketFrames(codec, p)[0]), Encode(PacketFrames(codec, p)[1]));
  }

  lemma TwoFrames(fs: seq<Frame>)
    requires |fs| == 2
    ensures EncodeAll(fs) == Encode(fs[0]) + Encode(fs[1])
  {
    assert fs[1..][1..] == [];
    assert EncodeAll(fs[1..]) == Encode(fs[1]);
  }

  /** ReadPacket, over a reader that yields its bytes in arbitrary pieces. */
  method ReadPacket<P>(r: Conn, codec: Codec<P>) returns (outcome: ReadOutcome<P>)
    modifies r`incoming
    ensures outcome == Read(codec, old(r.incoming))
    ensures outcome.Received? ==> r.incoming == outcome.rest
  {
    ghost var bytes := r.incoming;
    var prefix, prefixOk := r.ReadFull(4);
    if !prefixOk {
      return ReadFailed;
    }
    assert prefix == bytes[..4];
    var length := Uint32(prefix);
    if length == GET_LENGTH {
      return TooLarge(length);
    }
    if length > MAX_PACKET {
      return TooLarge(length);
    }
    if length > MAX_CONTROL_PACKET {
      return TooLarge(length);
    }
    var data, dataOk := r.ReadFull(length);
    if !dataOk {
      return ReadFailed;
    }
    assert data == bytes[4..4 + length];
    assert r.incoming == bytes[4 + length..];
    match codec.unmarshal(data) {
      case None => outcome := BadPacket;
      case Some(p) => outcome := Received(p, r.incoming);
    }
  }

  predicate Small<P>(codec: Codec<P>, p: P) {
    |codec.marshal(p)| <= MAX_CONTROL_PACKET
  }

  /** A small packet passes every guard of writeData and readLoop, and neither of its frames can be
      taken for an end-of-file marker. */
  lemma SmallPassesGuards<P(!new)>(codec: Codec<P>, p: P)
    requires Lawful(codec) && Small(codec, p)
    ensures AllTransmittable(PacketFrames(codec, p))
    ensures forall f :: f in PacketFrames(codec, p) ==> f.payload != []
  {
    var data := codec.marshal(p);
    var prefix := PutUint32(|data| % TWO_TO_THE_32);
    assert prefix[0] == 0;
    assert prefix[..4][0] == 0 && !LooksLikeHttp(prefix);
    assert data[0] == OPEN_BRACE;
    assert |data| >= 4 ==> data[..4][0] == OPEN_BRACE;
  }

  lemma ReadEncoded<P(!new)>(codec: Codec<P>, p: P, more: seq<byte>)
    requires Lawful(codec) && |codec.marshal(p)| < TWO_TO_THE_32
    ensures Read(codec, EncodePacket(codec, p) + more) ==
            if Small(codec, p) then Received(p, more) else TooLarge(|codec.marshal(p)|)
  {
    var data := codec.marshal(p);
    var bytes := EncodePacket(codec, p) + more;
    assert |data| % TWO_TO_THE_32 == |data|;
    PutThenGet(|data|);
    assert bytes[..4] == PutUint32(|data|);
    assert bytes[4..4 + |data|] == data;
    assert bytes[4 + |data|..] == more;
  }

  /** A control packet gets through - its frames pass the guards of both ends and ReadPacket returns
      it - exactly if its text is at most 10 MiB. WritePacket itself never refuses one. */
  lemma GetsThroughIff<P(!new)>(codec: Codec<P>, p: P, more: seq<byte>)
    requires Lawful(codec)
    ensures AllTransmittable(PacketFrames(codec, p)) && Read(codec, EncodePacket(codec, p) + more) == Received(p, more)
            <==> Small(codec, p)
  {
    if Small(codec, p) {
      SmallPassesGuards(codec, p);
      ReadEncoded(codec, p, more);
    } else if AllTransmittable(PacketFrames(codec, p)) {
      assert Transmittable(PacketFrames(codec, p)[1]);
      ReadEncoded(codec, p, more);
    }
  }

  /** Texts that are a brace and anything. */
  function Braced(): Codec<seq<byte>> {
    Codec(p => [OPEN_BRACE] + p, b => if b != [] && b[0] == OPEN_BRACE then Some(b[1..]) else None)
  }

  lemma BracedIsLawful()
    ensures Lawful(Braced())
  {
    forall p: seq<byte> ensures Braced().unmarshal(Braced().marshal(p)) == Some(p) {
      assert ([OPEN_BRACE] + p)[1..] == p;
    }
  }

  /** For instance, a text of 10 MiB and one byte goes out in two frames that every guard lets pass, and
      ReadPacket refuses it. */
  lemma OversizeIsRefused(p: seq<byte>)
    requires p == seq(MAX_CONTROL_PACKET, _ => 0)
    ensures Lawful(Braced()) && AllTransmittable(PacketFrames(Braced(), p))
    ensures Read(Braced(), EncodePacket(Braced(), p)) == TooLarge(MAX_CONTROL_PACKET + 1)
  {
    BracedIsLawful();
    var data := Braced().marshal(p);
    assert data[0] == OPEN_BRACE && |data| == MAX_CONTROL_PACKET + 1;
    assert data[..4][0] == OPEN_BRACE;
    ReadEncoded(Braced(), p, []);
    assert EncodePacket(Braced(), p) + [] == EncodePacket(Braced(), p);
  }

  lemma ReadTruncated<P(!new)>(codec: Codec<P>, p: P, bytes: seq<byte>, more: seq<byte>)
    requires Lawful(codec) && Small(codec, p)
    requires bytes <= EncodePacket(codec, p) + more && |bytes| < |EncodePacket(codec, p)|
    ensures Read(codec, bytes) == ReadFailed
  {
    if |bytes| >= 4 {
      AnnouncedLength(codec.marshal(p), bytes, more);
    }
  }

  lemma AnnouncedLength(data: seq<byte>, bytes: seq<byte>, more: seq<byte>)
    requires |data| < TWO_TO_THE_32 && 4 <= |bytes| && bytes <= PutUint32(|data|) + data + more
    ensures Uint32(bytes[..4]) == |data|
  {
    var w := PutUint32(|data|);
    PutThenGet(|data|);
    assert bytes[..4] == (w + data + more)[..4] == w;
  }

  /** Whatever part of a series of small packets has arrived, the packets read from it are the first
      ones of the series, and all of them once everything is there. */
  lemma {:induction false} ReadPrefix<P(!new)>(codec: Codec<P>, ps: seq<P>, bytes: seq<byte>)
    requires Lawful(codec) && (forall p :: p in ps ==> Small(codec, p))
    requires bytes <= EncodePackets(codec, ps)
    ensures ReadAll(codec, bytes) <= ps
    ensures bytes == EncodePackets(codec, ps) ==> ReadAll(codec, bytes) == ps
    decreases |ps|
  {
    if ps != [] {
      var first, others := EncodePacket(codec, ps[0]), EncodePackets(codec, ps[1..]);
      assert Small(codec, ps[0]);
      if |bytes| < |first| {
        ReadTruncated(codec, ps[0], bytes, others);
      } else {
        var rest := bytes[|first|..];
        assert bytes == first + rest by {
          assert bytes[..|first|] == (first + others)[..|first|] == first;
        }
        AfterPrefix(first, rest, others, |bytes|);
        ReadEncoded(codec, ps[0], rest);
        ReadPrefix(codec, ps[1..], rest);
        assert ps == [ps[0]] + ps[1..];
      }
    }
  }

  /** The payloads of the frames of a series of packets. */
  function AllPayloads<P>(codec: Codec<P>, ps: seq<P>): seq<seq<byte>> {
    if ps == [] then []
    else [PacketFrames(codec, ps[0])[0].payload, PacketFrames(codec, ps[0])[1].payload] + AllPayloads(codec, ps[1..])
  }

  lemma {:induction false} FlattenPayloads<P>(codec: Codec<P>, ps: seq<P>)
    ensures Flatten(AllPayloads(codec, ps)) == EncodePackets(codec, ps)
  {
    if ps != [] {
      var a, b := PacketFrames(codec, ps[0])[0].payload, PacketFrames(codec, ps[0])[1].payload;
      FlattenAppend([a, b], AllPayloads(codec, ps[1..]));
      assert [a, b] == [a] + [b];
      FlattenAppend([a], [b]);
      FlattenSingle(a);
      FlattenSingle(b);
      FlattenPayloads(codec, ps[1..]);
    }
  }

  /** The control plane over the multiplexer: in every run of the two ends in which the control stream
      carries nothing but small packets (the last one perhaps only half written), what the reader of
      stream 0 has received parses as the first packets of the series - however writers of other
      streams interleave, and however the bytes are cut up on the way. */
  lemma ControlDelivery<P(!new)>(codec: Codec<P>, ps: seq<P>, actions: seq<MR.Action>, end: MR.Mux)
    requires Lawful(codec) && (forall p :: p in ps ==> Small(codec, p))
    requires MR.Runs(MR.Start(), actions, end) && !end.outOfStep
    requires MR.On(0, end.sent) <= AllPayloads(codec, ps)
    ensures ReadAll(codec, MR.StreamOf(end, 0).returned) <= ps
    ensures MR.On(0, end.sent) == AllPayloads(codec, ps)
            && MR.StreamOf(end, 0).returned == Flatten(MR.On(0, end.sent)) ==>
              ReadAll(codec, MR.StreamOf(end, 0).returned) == ps
  {
    var returned := MR.StreamOf(end, 0).returned;
    MD.EndToEnd(actions, end, 0);
    FlattenPayloads(codec, ps);
    var sent := MR.On(0, end.sent);
    assert AllPayloads(codec, ps) == sent + AllPayloads(codec, ps)[|sent|..];
    FlattenAppend(sent, AllPayloads(codec, ps)[|sent|..]);
    assert returned <= Flatten(sent);
    ReadPrefix(codec, ps, returned);
  }
}
