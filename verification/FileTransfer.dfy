/**
 Uploads and downloads of files over a stream of the multiplexer. An upload is one line of JSON with
 the size and the checksum, then the bytes of the file; the receiver keeps the file only if all of it
 arrived and the checksum is right. JSON and SHA-256 are abstract.
 */
module FileTransfer {
  import opened Bytes
  import opened Packet
  import MD = MuxDelivery
  import MR = MuxRun

  const NEWLINE: byte := 0x0A
  const COPY_BUFFER: nat := 32 * 1024

  /** What the header says; the size is an int64 and may be negative. */
  datatype FileInfo = FileInfo(size: int, checksum: string)

  type Digest = seq<byte> -> string

  /** The decoder inverts the encoder, and JSON text has no raw line break (section 7 of RFC 8259). */
  ghost predicate OneLine(codec: Codec<FileInfo>) {
    forall info :: codec.unmarshal(codec.marshal(info)) == Some(info) && NEWLINE !in codec.marshal(info)
  }

  /** The state of one path. */
  datatype FileState = Absent | Present(content: seq<byte>)

  /** The first line of these bytes and what follows it. */
  function FirstLine(bytes: seq<byte>): Option<(seq<byte>, seq<byte>)> {
    if bytes == [] then None
    else if bytes[0] == NEWLINE then Some(([], bytes[1..]))
    else match FirstLine(bytes[1..])
      case None => None
      case Some(p) => Some(([bytes[0]] + p.0, p.1))
  }

  predicate Acceptable(digest: Digest, info: FileInfo, body: seq<byte>) {
    0 <= info.size <= |body| && digest(body[..info.size]) == info.checksum
  }

  /** The state of the path after everything that will ever arrive on the stream has arrived. */
  function Receive(codec: Codec<FileInfo>, digest: Digest, bytes: seq<byte>, before: FileState): FileState {
    match FirstLine(bytes)
    case None => before
    case Some((line, body)) =>
      match codec.unmarshal(line)
      case None => before
      case Some(info) => if Acceptable(digest, info, body) then Present(body[..info.size]) else Absent
  }

  /** The bytes of an upload. */
  function Upload(codec: Codec<FileInfo>, info: FileInfo, body: seq<byte>): seq<byte> {
    codec.marshal(info) + [NEWLINE] + body
  }

  lemma {:induction false} FirstLineOf(line: seq<byte>, rest: seq<byte>)
    requires NEWLINE !in line
    ensures FirstLine(line + [NEWLINE] + rest) == Some((line, rest))
    ensures FirstLine(line) == None
  {
    var all := line + [NEWLINE] + rest;
    if line == [] {
      assert all == [NEWLINE] + rest;
    } else {
      FirstLineOf(line[1..], rest);
      assert all[1..] == line[1..] + [NEWLINE] + rest;
      assert [line[0]] + line[1..] == line;
    }
  }

  /** An upload is stored exactly if the announced number of bytes followed and they have the
      announced checksum; then exactly these bytes are stored, and otherwise nothing. */
  lemma UploadStoredIff(codec: Codec<FileInfo>, digest: Digest, info: FileInfo, body: seq<byte>, before: FileState)
    requires OneLine(codec)
    ensures Receive(codec, digest, Upload(codec, info, body), before)
            == if Acceptable(digest, info, body) then Present(body[..info.size]) else Absent
  {
    FirstLineOf(codec.marshal(info), body);
  }

  /** The header Send makes of a file. */
  function Describe(digest: Digest, content: seq<byte>): FileInfo { FileInfo(|content|, digest(content)) }

  /** A file that does not change during the upload arrives as it is. */
  lemma UploadRoundTrip(codec: Codec<FileInfo>, digest: Digest, content: seq<byte>, before: FileState)
    requires OneLine(codec)
    ensures Receive(codec, digest, Upload(codec, Describe(digest, content), content), before) == Present(content)
  {
    assert content[..|content|] == content;
    UploadStoredIff(codec, digest, Describe(digest, content), content, before);
  }

  /** All or nothing. If only the first k bytes of an upload arrive, the path is untouched while the
      header is incomplete; after that it holds the whole file if all of its bytes are among the k, and
      nothing otherwise. */
  lemma UploadPrefix(codec: Codec<FileInfo>, digest: Digest, info: FileInfo, body: seq<byte>, k: nat, before: FileState)
    requires OneLine(codec) && k <= |Upload(codec, info, body)|
    ensures var header := |codec.marshal(info)| + 1;
            Receive(codec, digest, Upload(codec, info, body)[..k], before)
            == if k < header then before
               else if info.size <= k - header && Acceptable(digest, info, body) then Present(body[..info.size])
               else Absent
  {
    var line, all := codec.marshal(info), Upload(codec, info, body);
    if k <= |line| {
      assert all[..k] == line[..k];
      FirstLineOf(line[..k], []);
    } else {
      var part := body[..k - |line| - 1];
      assert all[..k] == line + [NEWLINE] + part;
      UploadStoredIff(codec, digest, info, part, before);
      if 0 <= info.size <= |part| {
        assert part[..info.size] == body[..info.size];
      }
    }
  }

  // ---------- over the multiplexer ----------

  /** The payloads of an upload: the header line, the chunks, and possibly the marker. */
  function UploadPayloads(codec: Codec<FileInfo>, info: FileInfo, chunks: seq<seq<byte>>): seq<seq<byte>> {
    [codec.marshal(info) + [NEWLINE]] + chunks
  }

  lemma FlattenUpload(codec: Codec<FileInfo>, info: FileInfo, chunks: seq<seq<byte>>)
    ensures Flatten(UploadPayloads(codec, info, chunks)) == Upload(codec, info, Flatten(chunks))
  {
    assert UploadPayloads(codec, info, chunks)[1..] == chunks;
  }

  /** Uploads over the multiplexer. However the upload was cut into frames, mixed with other streams
      and cut up by the connection, as long as nothing is put behind a torn frame, what the receiver
      makes of the bytes it has been given so far is the file as before, no file, or exactly the
      announced bytes with the announced checksum - also when Read answers EOF because the connection
      ended. Once it has answered EOF for another reason, it is what the whole upload calls for. */
  lemma UploadOverMux(codec: Codec<FileInfo>, digest: Digest, info: FileInfo, chunks: seq<seq<byte>>, before: FileState,
                      mux: seq<MR.Action>, m: MR.Mux, id: uint32)
    requires OneLine(codec) && MR.Runs(MR.Start(), mux, m) && !m.outOfStep
    requires MR.On(id, m.sent) == UploadPayloads(codec, info, chunks)
    ensures var got := Receive(codec, digest, MR.StreamOf(m, id).returned, before);
            var body := Flatten(chunks);
            && (got == before || got == Absent || (Acceptable(digest, info, body) && got == Present(body[..info.size])))
            && (MR.StreamOf(m, id).eofs > 0 ==>
                  || MD.EndedAtBoundary(m)
                  || got == if Acceptable(digest, info, body) then Present(body[..info.size]) else Absent)
  {
    var returned := MR.StreamOf(m, id).returned;
    var body := Flatten(chunks);
    var all := Upload(codec, info, body);
    FlattenUpload(codec, info, chunks);
    MD.EndToEnd(mux, m, id);
    MD.EndOfFile(mux, m, id);
    assert returned <= all;
    assert returned == all[..|returned|];
    UploadPrefix(codec, digest, info, body, |returned|, before);
    if MR.StreamOf(m, id).eofs > 0 && !MD.EndedAtBoundary(m) {
      UploadStoredIff(codec, digest, info, body, before);
    }
  }

  // ---------- the receiver ----------

  datatype ReadResult = Data(bytes: seq<byte>) | Eof | Failed | TimedOut

  /** The reading side of a stream: the bytes still to come before Read answers io.EOF for the first time,
      cut up arbitrarily. */
  class Source {
    var bytes: seq<byte>
    const reliable: bool

    method Read(max: nat) returns (r: ReadResult)
      requires max > 0
      modifies this
      ensures r.Data? ==> 0 < |r.bytes| <= max && old(bytes) == r.bytes + bytes
      ensures !r.Data? ==> bytes == old(bytes)
      ensures r.Eof? ==> bytes == []
      ensures r.Failed? || r.TimedOut? ==> !reliable
    {
      if !reliable {
        if * {
          return Failed;
        }
        if * {
          return TimedOut;
        }
      }
      if bytes == [] {
        return Eof;
      }
      var n: nat :| 0 < n <= max && n <= |bytes|;
      r := Data(bytes[..n]);
      bytes := bytes[n..];
    }
  }

  /** The directory tree, as far as it matters: what is at each path. */
  class Disk {
    var files: map<string, seq<byte>>
    var failedRemovals: nat
    const reliable: bool

    function At(path: string): FileState
      reads this
    {
      if path in files then Present(files[path]) else Absent
    }

    /** os.Create, which empties an existing file. */
    method Create(path: string) returns (ok: bool)
      modifies this`files
      ensures files == if ok then old(files)[path := []] else old(files)
      ensures reliable ==> ok
    {
      if !reliable {
        if * {
          return false;
        }
      }
      files := files[path := []];
      ok := true;
    }

    method Append(path: string, data: seq<byte>) returns (ok: bool)
      requires path in files
      modifies this`files
      ensures ok ==> files == old(files)[path := old(files)[path] + data]
      ensures !ok ==> !reliable && path in files && files == old(files)[path := files[path]]
    {
      if !reliable {
        if * {
          files := files[path := files[path] + data[..|data| / 2]];
          return false;
        }
      }
      files := files[path := files[path] + data];
      ok := true;
    }

    /** os.Remove, whose error nobody looks at. */
    method Remove(path: string)
      modifies this
      ensures || (files == old(files) - {path} && failedRemovals == old(failedRemovals))
              || (!reliable && files == old(files) && failedRemovals == old(failedRemovals) + 1)
    {
      if !reliable {
        if * {
          failedRemovals := failedRemovals + 1;
          return;
        }
      }
      files := files - {path};
    }

    method Checksum(path: string, digest: Digest) returns (sum: Option<string>)
      requires path in files
      ensures sum.Some? ==> sum.value == digest(files[path])
      ensures sum.None? ==> !reliable
    {
      if !reliable {
        if * {
          return None;
        }
      }
      sum := Some(digest(files[path]));
    }
  }

  /** The header scan, byte by byte. */
  method ReadLine(source: Source) returns (line: Option<seq<byte>>)
    modifies source
    ensures line.Some? ==> FirstLine(old(source.bytes)) == Some((line.value, source.bytes))
    ensures line.None? && source.reliable ==> FirstLine(old(source.bytes)) == None
  {
    var read := [];
    while true
      invariant old(source.bytes) == read + source.bytes && NEWLINE !in read
      decreases |source.bytes|
    {
      ghost var left := source.bytes;
      var r := source.Read(1);
      if !r.Data? {
        assert r.Eof? ==> old(source.bytes) == read;
        FirstLineOf(read, []);
        return None;
      }
      assert left == [r.bytes[0]] + source.bytes;
      if r.bytes[0] == NEWLINE {
        assert old(source.bytes) == read + [NEWLINE] + source.bytes;
        FirstLineOf(read, source.bytes);
        return Some(read);
      }
      assert old(source.bytes) == (read + [r.bytes[0]]) + source.bytes;
      read := read + [r.bytes[0]];
    }
  }

  /** How io.CopyN ended: all copied, the stream ended early, or something failed. */
  datatype CopyResult = Copied(count: nat) | Short(count: nat) | Broken

  /** io.CopyN into a file that was just created; with a negative count it copies nothing and reports
      no error. */
  method CopyN(source: Source, disk: Disk, path: string, n: int) returns (r: CopyResult)
    requires path in disk.files && disk.files[path] == []
    modifies source, disk`files
    ensures path in disk.files && disk.files == old(disk.files)[path := disk.files[path]]
    ensures r.Copied? ==>
              && r.count == Max(n, 0) <= |old(source.bytes)|
              && disk.files[path] == old(source.bytes)[..Max(n, 0)]
    ensures r.Short? ==> r.count == |old(source.bytes)| < n && disk.files[path] == old(source.bytes)
    ensures r.Broken? ==> !source.reliable || !disk.reliable
  {
    var copied := 0;
    while copied < n
      invariant 0 <= copied <= Max(n, 0)
      invariant copied <= |old(source.bytes)| && source.bytes == old(source.bytes)[copied..]
      invariant path in disk.files && disk.files == old(disk.files)[path := disk.files[path]]
      invariant disk.files[path] == old(source.bytes)[..copied]
    {
      var got := source.Read(Min(COPY_BUFFER, n - copied));
      if got.Eof? {
        return Short(copied);
      }
      if !got.Data? {
        return Broken;
      }
      assert old(source.bytes)[..copied + |got.bytes|] == old(source.bytes)[..copied] + got.bytes;
      var ok := disk.Append(path, got.bytes);
      if !ok {
        return Broken;
      }
      copied := copied + |got.bytes|;
    }
    r := Copied(copied);
  }

  /** receiveFile. Nothing but the path it was given changes. If the receiver gives up before it has a
      header or cannot create the file, the path is as it was. After that it holds the announced bytes
      with the announced checksum, or nothing, or what could not be removed. If nothing fails or times
      out, it holds what the bytes of the stream call for. */
  method ReceiveFile(codec: Codec<FileInfo>, digest: Digest, source: Source, disk: Disk, path: string)
    returns (created: bool)
    modifies source, disk
    ensures disk.files - {path} == old(disk.files) - {path}
    ensures !created ==> disk.At(path) == old(disk.At(path))
    ensures created ==>
              exists line, body, info ::
                && FirstLine(old(source.bytes)) == Some((line, body)) && codec.unmarshal(line) == Some(info)
                && (|| disk.At(path) == Absent
                    || (Acceptable(digest, info, body) && disk.At(path) == Present(body[..info.size]))
                    || disk.failedRemovals > old(disk.failedRemovals))
    ensures source.reliable && disk.reliable ==>
              disk.At(path) == Receive(codec, digest, old(source.bytes), old(disk.At(path)))
  {
    created := false;
    var line := ReadLine(source);
    if line.None? {
      return;
    }
    var info := codec.unmarshal(line.value);
    if info.None? {
      return;
    }
    created := disk.Create(path);
    if !created {
      return;
    }
    ghost var body := source.bytes;
    assert FirstLine(old(source.bytes)) == Some((line.value, body));
    KeepIfWhole(info.value, digest, source, disk, path);
  }

  /** The rest of receiveFile, once the file was created. */
  method KeepIfWhole(info: FileInfo, digest: Digest, source: Source, disk: Disk, path: string)
    requires path in disk.files && disk.files[path] == []
    modifies source, disk
    ensures disk.files - {path} == old(disk.files) - {path}
    ensures var body := old(source.bytes);
            || disk.At(path) == Absent
            || (Acceptable(digest, info, body) && disk.At(path) == Present(body[..info.size]))
            || disk.failedRemovals > old(disk.failedRemovals)
    ensures source.reliable && disk.reliable ==>
              var body := old(source.bytes);
              disk.At(path) == if Acceptable(digest, info, body) then Present(body[..info.size]) else Absent
  {
    var r := CopyN(source, disk, path, info.size);
    if !r.Copied? || r.count != info.size {
      disk.Remove(path);
      return;
    }
    var sum := disk.Checksum(path, digest);
    if sum.None? || sum.value != info.checksum {
      disk.Remove(path);
    }
  }

  /** Get, from the answer of the server on. Success means that the file has the announced checksum and
      is a beginning of what the server sent, at most as long as announced: a stream that ends early is
      not an error by itself. If nothing fails and the checksum tells the content announced from its
      parts, the download succeeds if and only if all of it arrived. A failure after the file was created
      leaves no file unless it cannot be removed. */
  method ReceiveDownload(info: FileInfo, digest: Digest, source: Source, disk: Disk, path: string)
    returns (created: bool, ok: bool)
    modifies source, disk
    ensures disk.files - {path} == old(disk.files) - {path}
    ensures !created ==> !ok && disk.files == old(disk.files)
    ensures created && !ok ==> disk.At(path) == Absent || disk.failedRemovals > old(disk.failedRemovals)
    ensures ok ==>
              && disk.At(path) == Present(Taken(info, old(source.bytes)))
              && digest(Taken(info, old(source.bytes))) == info.checksum
    ensures source.reliable && disk.reliable ==> (ok <==> digest(Taken(info, old(source.bytes))) == info.checksum)
    ensures source.reliable && disk.reliable ==>
              forall content ::
                Announced(digest, info, content, old(source.bytes)) && TellsFromParts(digest, content)
                ==> (ok <==> content <= old(source.bytes))
  {
    forall content | Announced(digest, info, content, source.bytes) && TellsFromParts(digest, content)
      ensures digest(Taken(info, source.bytes)) == info.checksum <==> content <= source.bytes
    {
      TakenIsWhole(digest, info, content, source.bytes);
    }
    ok := false;
    created := disk.Create(path);
    if !created {
      return;
    }
    var r := CopyN(source, disk, path, info.size);
    if r.Broken? {
      disk.Remove(path);
      return;
    }
    assert disk.files[path] == Taken(info, old(source.bytes));
    var sum := disk.Checksum(path, digest);
    if sum.None? || sum.value != info.checksum {
      disk.Remove(path);
      return;
    }
    ok := true;
  }

  /** What a download takes from the stream. */
  function Taken(info: FileInfo, bytes: seq<byte>): seq<byte> { bytes[..Min(Max(info.size, 0), |bytes|)] }

  // ---------- downloads that end early ----------

  /** The digest tells the content from every proper beginning of it. */
  ghost predicate TellsFromParts(digest: Digest, content: seq<byte>) {
    forall k :: 0 <= k < |content| ==> digest(content[..k]) != digest(content)
  }

  /** The content announced, and a beginning of it or more arrived. */
  predicate Announced(digest: Digest, info: FileInfo, content: seq<byte>, arrived: seq<byte>) {
    info == Describe(digest, content) && (arrived <= content || content <= arrived)
  }

  lemma TakenIsWhole(digest: Digest, info: FileInfo, content: seq<byte>, arrived: seq<byte>)
    requires Announced(digest, info, content, arrived)
    ensures Taken(info, arrived) == if content <= arrived then content else arrived
    ensures TellsFromParts(digest, content) ==> (digest(Taken(info, arrived)) == info.checksum <==> content <= arrived)
  {
    if content <= arrived {
      assert arrived[..|content|] == content;
    } else {
      assert arrived[..|arrived|] == arrived == content[..|arrived|];
    }
  }

  /** A download that gets `arrived` is accepted exactly if it got everything. */
  predicate JudgedRight(digest: Digest, content: seq<byte>, arrived: seq<byte>) {
    digest(Taken(Describe(digest, content), arrived)) == digest(content) <==> content <= arrived
  }

  /** The exact condition: for every way a download may end early the checksum gives it away, if and only
      if it tells the content from each of its proper beginnings. */
  lemma EarlyEndsRefusedIff(digest: Digest, content: seq<byte>)
    ensures (forall arrived :: Announced(digest, Describe(digest, content), content, arrived) ==>
               JudgedRight(digest, content, arrived))
            <==> TellsFromParts(digest, content)
  {
    var info := Describe(digest, content);
    forall arrived | Announced(digest, info, content, arrived) && TellsFromParts(digest, content)
      ensures JudgedRight(digest, content, arrived)
    {
      TakenIsWhole(digest, info, content, arrived);
    }
    if forall arrived :: Announced(digest, info, content, arrived) ==> JudgedRight(digest, content, arrived) {
      forall k | 0 <= k < |content| ensures digest(content[..k]) != digest(content) {
        assert Announced(digest, info, content, content[..k]) && JudgedRight(digest, content, content[..k]);
        TakenIsWhole(digest, info, content, content[..k]);
      }
    }
  }

  /** With a checksum that is the same for everything, one of two zeros is accepted for both. */
  lemma ShortDownloadAccepted()
    ensures exists digest: Digest, content: seq<byte>, arrived: seq<byte> ::
              && arrived < content
              && digest(Taken(Describe(digest, content), arrived)) == Describe(digest, content).checksum
  {
    var digest: Digest := bytes => "";
    var content: seq<byte>, arrived: seq<byte> := [0, 0], [0];
    assert arrived < content;
    assert digest(Taken(Describe(digest, content), arrived)) == Describe(digest, content).checksum;
  }

  // ---------- the sender ----------

  /** The writing side of a stream. */
  class Sink {
    var payloads: seq<seq<byte>>
    var closed: bool
    const reliable: bool

    method Write(data: seq<byte>) returns (ok: bool)
      modifies this
      ensures payloads == if ok then old(payloads) + [data] else old(payloads)
      ensures closed == old(closed) && (reliable ==> ok)
    {
      if !reliable {
        if * {
          return false;
        }
      }
      payloads := payloads + [data];
      ok := true;
    }
  }

  /** Send, from the answer of the server on; `info` was taken before, so `content` may differ by now.
      The payloads are those of an upload, without empty chunks, all of it on success and a beginning of
      it on failure; the stream is closed in any case. */
  method SendUpload(codec: Codec<FileInfo>, info: FileInfo, content: seq<byte>, sink: Sink) returns (ok: bool)
    requires sink.payloads == []
    modifies sink
    ensures sink.closed
    ensures sink.payloads == [] ||
            exists chunks ::
              && sink.payloads == UploadPayloads(codec, info, chunks) && Flatten(chunks) <= content
              && (forall c :: c in chunks ==> 0 < |c| <= COPY_BUFFER)
              && (ok ==> Flatten(chunks) == content)
    ensures ok ==> sink.payloads != []
    ensures sink.reliable ==> ok
  {
    ok := sink.Write(codec.marshal(info) + [NEWLINE]);
    if ok {
      ghost var chunks;
      ok, chunks := CopyContent(codec, info, content, sink);
    }
    sink.closed := true;
  }

  lemma FlattenMore(chunks: seq<seq<byte>>, content: seq<byte>, written: nat, n: nat)
    requires written + n <= |content| && Flatten(chunks) == content[..written]
    ensures Flatten(chunks + [content[written..written + n]]) == content[..written + n]
  {
    FlattenAppend(chunks, [content[written..written + n]]);
    FlattenSingle(content[written..written + n]);
  }

  /** io.Copy from the file to the stream. */
  method CopyContent(codec: Codec<FileInfo>, info: FileInfo, content: seq<byte>, sink: Sink)
    returns (ok: bool, ghost chunks: seq<seq<byte>>)
    requires sink.payloads == UploadPayloads(codec, info, [])
    modifies sink
    ensures sink.payloads == UploadPayloads(codec, info, chunks) && Flatten(chunks) <= content
    ensures forall c :: c in chunks ==> 0 < |c| <= COPY_BUFFER
    ensures ok ==> Flatten(chunks) == content
    ensures sink.reliable ==> ok
  {
    var written := 0;
    chunks := [];
    while written < |content|
      invariant written <= |content| && Flatten(chunks) == content[..written]
      invariant sink.payloads == UploadPayloads(codec, info, chunks)
      invariant forall c :: c in chunks ==> 0 < |c| <= COPY_BUFFER
    {
      var n := Min(COPY_BUFFER, |content| - written);
      var chunk := content[written..written + n];
      ok := sink.Write(chunk);
      if !ok {
        return;
      }
      FlattenMore(chunks, content, written, n);
      Assoc([codec.marshal(info) + [NEWLINE]], chunks, [chunk]);
      chunks := chunks + [chunk];
      written := written + n;
    }
    assert content[..written] == content;
    ok := true;
  }
}
