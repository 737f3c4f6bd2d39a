/** relay/relay_stream_wire.go: the reader of the streaming response format, against the agent's writer
    (desktop/agent/relay_stream_wire.go). JSON parsing of the headers is a parameter. */
module StreamWire {
  import opened Wrappers
  import opened Wire

  const MAX_CHUNK: nat := 0x100_0000   // 16 MiB
  const MAX_HEADERS: nat := 0x10_0000  // 1 MiB

  datatype Failure =
    | NoVersion | BadVersion | NoStatus | BadStatus | NoHeadersLen | HeadersTooLarge | NoHeaders | BadHeaders
    | NoChunkLen | ChunkTooLarge | ChunkCut

  /** What the HTTP client got, how much of the stream was taken, and whether the reader gave up. */
  datatype Outcome<H> = Outcome(head: Option<(nat, H)>, body: seq<byte>, consumed: nat, failure: Option<Failure>)

  // ----- The writer's format -----

  predicate ValidChunks(chunks: seq<seq<byte>>) {
    forall i :: 0 <= i < |chunks| ==> 0 < |chunks[i]| <= 16_777_216
  }

  function EncodeChunks(chunks: seq<seq<byte>>): seq<byte>
    requires ValidChunks(chunks)
  {
    if chunks == [] then BE32(0) else BE32(|chunks[0]|) + chunks[0] + EncodeChunks(chunks[1..])
  }

  function Concat(chunks: seq<seq<byte>>): seq<byte> {
    if chunks == [] then [] else chunks[0] + Concat(chunks[1..])
  }

  /** Everything after the magic byte. */
  function Encode(status: nat, headers: seq<byte>, chunks: seq<seq<byte>>): seq<byte>
    requires status < 0x1_0000 && |headers| <= MAX_HEADERS
    requires ValidChunks(chunks)
  {
    [1] + BE16(status) + BE32(|headers|) + headers + EncodeChunks(chunks)
  }

  // ----- The reader -----

  datatype Body = Body(bytes: seq<byte>, consumed: nat, failure: Option<Failure>)

  /** Chunk loop; a chunk cut short by the end of the stream is still forwarded as far as it goes. */
  function ReadBody(s: seq<byte>): (r: Body)
    ensures r.consumed <= |s|
    decreases |s|
  {
    if |s| < 4 then Body([], |s|, Some(NoChunkLen))
    else
      var n := UInt32(s[..4]);
      if n == 0 then Body([], 4, None)
      else if n > MAX_CHUNK then Body([], 4, Some(ChunkTooLarge))
      else if |s| < 4 + n then Body(s[4..], |s|, Some(ChunkCut))
      else
        var rest := ReadBody(s[4 + n..]);
        Body(s[4..4 + n] + rest.bytes, 4 + n + rest.consumed, rest.failure)
  }

  function Refuse<H>(consumed: nat, f: Failure): Outcome<H> { Outcome(None, [], consumed, Some(f)) }

  function Read<H>(parse: seq<byte> -> Option<H>, s: seq<byte>): (r: Outcome<H>)
    ensures r.consumed <= |s|
  {
    if |s| < 1 then Refuse(0, NoVersion)
    else if s[0] != 1 then Refuse(1, BadVersion)
    else if |s| < 3 then Refuse(|s|, NoStatus)
    else
      var status := UInt16(s[1..3]);
      if status < 100 || status > 599 then Refuse(3, BadStatus)
      else if |s| < 7 then Refuse(|s|, NoHeadersLen)
      else
        var h := UInt32(s[3..7]);
        if h > MAX_HEADERS then Refuse(7, HeadersTooLarge)
        else if |s| < 7 + h then Refuse(|s|, NoHeaders)
        else
          var headers := parse(s[7..7 + h]);
          if headers.None? then Refuse(7 + h, BadHeaders)
          else
            var b := ReadBody(s[7 + h..]);
            Outcome(Some((status, headers.value)), b.bytes, 7 + h + b.consumed, b.failure)
  }

  // ----- Round trip -----

  lemma ReadBodyOfChunk(c: seq<byte>, tail: seq<byte>)
    requires 0 < |c| <= MAX_CHUNK
    ensures var s, r := BE32(|c|) + c + tail, ReadBody(tail);
      ReadBody(s) == Body(c + r.bytes, 4 + |c| + r.consumed, r.failure)
  {
    hide BE32, UInt32;
    var s := BE32(|c|) + c + tail;
    assert s[..4] == BE32(|c|) && s[4..4 + |c|] == c && s[4 + |c|..] == tail;
  }

  lemma {:induction false} ReadBodyOfEncoded(chunks: seq<seq<byte>>, rest: seq<byte>)
    requires ValidChunks(chunks)
    ensures ReadBody(EncodeChunks(chunks) + rest) == Body(Concat(chunks), |EncodeChunks(chunks)|, None)
  {
    hide BE32, UInt32;
    if chunks == [] {
      assert (EncodeChunks(chunks) + rest)[..4] == BE32(0);
    } else {
      var tail := EncodeChunks(chunks[1..]) + rest;
      ReadBodyOfEncoded(chunks[1..], rest);
      ReadBodyOfChunk(chunks[0], tail);
      assert EncodeChunks(chunks) + rest == BE32(|chunks[0]|) + chunks[0] + tail;
    }
  }

  lemma HeaderParts(status: nat, headers: seq<byte>, tail: seq<byte>)
    requires status < 0x1_0000 && |headers| <= MAX_HEADERS
    ensures var s := [1] + BE16(status) + BE32(|headers|) + headers + tail;
      && |s| == 7 + |headers| + |tail| && s[0] == 1 && s[1..3] == BE16(status) && s[3..7] == BE32(|headers|)
      && s[7..7 + |headers|] == headers && s[7 + |headers|..] == tail
  {
  }

  /** The reader emits exactly what the agent wrote, whatever the chunk boundaries, and takes exactly the
      encoding off the stream. */
  lemma ReadsWhatWasWritten<H>(parse: seq<byte> -> Option<H>, status: nat, headers: seq<byte>, chunks: seq<seq<byte>>, rest: seq<byte>)
    requires 100 <= status <= 599 && |headers| <= MAX_HEADERS && parse(headers).Some?
    requires ValidChunks(chunks)
    ensures Read(parse, Encode(status, headers, chunks) + rest)
         == Outcome(Some((status, parse(headers).value)), Concat(chunks), |Encode(status, headers, chunks)|, None)
  {
    hide BE16, UInt16, BE32, UInt32, ReadBody, EncodeChunks, Concat;
    HeaderParts(status, headers, EncodeChunks(chunks) + rest);
    assert Encode(status, headers, chunks) + rest
        == [1] + BE16(status) + BE32(|headers|) + headers + (EncodeChunks(chunks) + rest);
    ReadBodyOfEncoded(chunks, rest);
  }

  // ----- Truncation -----

  /** The body bytes among the first k bytes of encoded chunks. */
  function Arrived(chunks: seq<seq<byte>>, k: nat): seq<byte> {
    if chunks == [] || k < 4 then []
    else if k < 4 + |chunks[0]| then chunks[0][..k - 4]
    else chunks[0] + Arrived(chunks[1..], k - 4 - |chunks[0]|)
  }

  lemma {:induction false} ArrivedIsPrefix(chunks: seq<seq<byte>>, k: nat)
    ensures Arrived(chunks, k) <= Concat(chunks)
  {
    if chunks != [] && k >= 4 + |chunks[0]| { ArrivedIsPrefix(chunks[1..], k - 4 - |chunks[0]|); }
  }

  lemma {:induction false} CutBody(chunks: seq<seq<byte>>, k: nat)
    requires ValidChunks(chunks)
    requires k < |EncodeChunks(chunks)|
    ensures ReadBody(EncodeChunks(chunks)[..k]) == Body(Arrived(chunks, k), k, ReadBody(EncodeChunks(chunks)[..k]).failure)
    ensures ReadBody(EncodeChunks(chunks)[..k]).failure.Some?
  {
    hide BE32, UInt32, ReadBody;
    if k < 4 {
      ShortBody(EncodeChunks(chunks)[..k]);
    } else if chunks != [] {
      var c, tail := chunks[0], EncodeChunks(chunks[1..]);
      if 4 + |c| <= k {
        CutBody(chunks[1..], k - 4 - |c|);
        ReadBodyOfChunk(c, tail[..k - 4 - |c|]);
        assert (BE32(|c|) + c + tail)[..k] == BE32(|c|) + c + tail[..k - 4 - |c|];
      } else {
        CutChunk(c, k - 4);
        assert (BE32(|c|) + c + tail)[..k] == BE32(|c|) + c[..k - 4];
      }
    }
  }

  lemma ShortBody(s: seq<byte>)
    requires |s| < 4
    ensures ReadBody(s) == Body([], |s|, Some(NoChunkLen))
  {
  }

  lemma CutChunk(c: seq<byte>, k: nat)
    requires k < |c| <= MAX_CHUNK
    ensures ReadBody(BE32(|c|) + c[..k]) == Body(c[..k], 4 + k, Some(ChunkCut))
  {
    hide BE32, UInt32;
    var s := BE32(|c|) + c[..k];
    assert s[..4] == BE32(|c|) && s[4..] == c[..k];
  }

  /** On every strict prefix the reader fails, having taken all of it and passed on whatever was complete: the
      status and headers once they are there, and every byte of the body that arrived. */
  lemma TruncationIsNoticed<H>(parse: seq<byte> -> Option<H>, status: nat, headers: seq<byte>, chunks: seq<seq<byte>>, k: nat)
    requires 100 <= status <= 599 && |headers| <= MAX_HEADERS && parse(headers).Some?
    requires ValidChunks(chunks)
    requires k < |Encode(status, headers, chunks)|
    ensures var o, h := Read(parse, Encode(status, headers, chunks)[..k]), |headers|;
      && o.failure.Some? && o.consumed == k && o.body <= Concat(chunks)
      && (if k < 7 + h then o.head.None? && o.body == []
          else o.head == Some((status, parse(headers).value)) && o.body == Arrived(chunks, k - 7 - h))
  {
    hide BE16, UInt16, BE32, UInt32, ReadBody, EncodeChunks, Concat, Arrived;
    var s := Encode(status, headers, chunks);
    HeaderParts(status, headers, EncodeChunks(chunks));
    if 1 <= k { assert s[..k][0] == 1; }
    if 3 <= k { assert s[..k][1..3] == s[1..3]; }
    if 7 <= k { assert s[..k][3..7] == s[3..7]; }
    var h := |headers|;
    if 7 + h <= k {
      assert s[..k][7..7 + h] == s[7..7 + h];
      assert s[..k][7 + h..] == EncodeChunks(chunks)[..k - 7 - h];
      CutBody(chunks, k - 7 - h);
      ArrivedIsPrefix(chunks, k - 7 - h);
    }
  }

  /** Whatever the stream, nothing at all is passed on if and only if the version is not 1, the status is outside
      100..599, the headers are over 1 MiB or do not parse, or the stream ends before their end. */
  lemma NothingPassedOnIff<H>(parse: seq<byte> -> Option<H>, s: seq<byte>)
    ensures Read(parse, s).head.None? <==>
      !(&& |s| >= 7 && s[0] == 1 && 100 <= UInt16(s[1..3]) <= 599
        && UInt32(s[3..7]) <= 1_048_576 && |s| >= 7 + UInt32(s[3..7]) && parse(s[7..7 + UInt32(s[3..7])]).Some?)
    ensures Read(parse, s).head.None? ==> Read(parse, s).body == [] && Read(parse, s).failure.Some?
  {
    hide UInt16, UInt32, ReadBody;
  }

  // ----- Only encodings are accepted -----

  lemma EncodeCons(c: seq<byte>, rest: seq<seq<byte>>)
    requires 0 < |c| <= MAX_CHUNK && ValidChunks(rest)
    ensures ValidChunks([c] + rest) && Concat([c] + rest) == c + Concat(rest)
    ensures EncodeChunks([c] + rest) == BE32(|c|) + c + EncodeChunks(rest)
  {
    assert ([c] + rest)[1..] == rest;
  }

  lemma {:induction false} AcceptedBody(s: seq<byte>) returns (chunks: seq<seq<byte>>)
    requires ReadBody(s).failure.None?
    ensures ValidChunks(chunks)
    ensures s[..ReadBody(s).consumed] == EncodeChunks(chunks) && Concat(chunks) == ReadBody(s).bytes
    decreases |s|
  {
    hide BE32, UInt32, EncodeChunks, Concat;
    Reencode32(s[..4]);
    var n := UInt32(s[..4]);
    if n == 0 {
      chunks := [];
      NoChunks();
    } else {
      var c := s[4..4 + n];
      var rest := AcceptedBody(s[4 + n..]);
      EncodeCons(c, rest);
      chunks := [c] + rest;
      var r := ReadBody(s[4 + n..]).consumed;
      assert s[..4 + n + r] == s[..4] + c + s[4 + n..][..r];
    }
  }

  lemma NoChunks()
    ensures EncodeChunks([]) == BE32(0) && Concat([]) == []
  {
  }

  /** A clean end is reported only for a stream that starts with an encoding of what was emitted. */
  lemma AcceptsOnlyEncodings<H>(parse: seq<byte> -> Option<H>, s: seq<byte>)
      returns (status: nat, headers: seq<byte>, chunks: seq<seq<byte>>)
    requires Read(parse, s).failure.None?
    ensures 100 <= status <= 599 && |headers| <= MAX_HEADERS && parse(headers).Some?
    ensures ValidChunks(chunks)
    ensures s[..Read(parse, s).consumed] == Encode(status, headers, chunks)
    ensures Read(parse, s).head == Some((status, parse(headers).value)) && Read(parse, s).body == Concat(chunks)
  {
    hide BE16, UInt16, BE32, UInt32, ReadBody, EncodeChunks, Concat;
    status := UInt16(s[1..3]);
    var h := UInt32(s[3..7]);
    headers := s[7..7 + h];
    chunks := AcceptedBody(s[7 + h..]);
    Reencode16(s[1..3]);
    Reencode32(s[3..7]);
    PrefixByParts(s, h, ReadBody(s[7 + h..]).consumed);
  }

  lemma PrefixByParts(s: seq<byte>, h: nat, b: nat)
    requires 7 + h + b <= |s|
    ensures s[..7 + h + b] == [s[0]] + s[1..3] + s[3..7] + s[7..7 + h] + s[7 + h..][..b]
  {
  }

  // ----- The loop itself -----

  /** One round of the chunk loop, by position in the whole stream. */
  lemma ReadBodyAt(s: seq<byte>, pos: nat)
    requires pos <= |s|
    ensures var r := ReadBody(s[pos..]);
      if |s| < pos + 4 then r == Body([], |s| - pos, Some(NoChunkLen))
      else
        var n := UInt32(s[pos..pos + 4]);
        if n == 0 then r == Body([], 4, None)
        else if n > MAX_CHUNK then r == Body([], 4, Some(ChunkTooLarge))
        else if |s| < pos + 4 + n then r == Body(s[pos + 4..], |s| - pos, Some(ChunkCut))
        else
          var rest := ReadBody(s[pos + 4 + n..]);
          r == Body(s[pos + 4..pos + 4 + n] + rest.bytes, 4 + n + rest.consumed, rest.failure)
  {
    hide UInt32;
    if pos + 4 <= |s| {
      var n := UInt32(s[pos..pos + 4]);
      assert s[pos..][..4] == s[pos..pos + 4] && s[pos..][4..] == s[pos + 4..];
      if pos + 4 + n <= |s| {
        assert s[pos..][4..4 + n] == s[pos + 4..pos + 4 + n] && s[pos..][4 + n..] == s[pos + 4 + n..];
      }
    }
  }

  /** The chunk loop; `pos` walks the stream and `w` collects what the client gets. */
  method CopyChunks(stream: seq<byte>) returns (r: Body)
    ensures r == ReadBody(stream)
  {
    hide UInt32, ReadBody;
    var pos, w := 0, [];
    assert stream[0..] == stream;
    while true
      invariant pos <= |stream|
      invariant var left := ReadBody(stream[pos..]);
        ReadBody(stream) == Body(w + left.bytes, pos + left.consumed, left.failure)
      decreases |stream| - pos
    {
      ReadBodyAt(stream, pos);
      assert w + [] == w;
      if |stream| < pos + 4 {
        return Body(w, |stream|, Some(NoChunkLen));
      }
      var chunkLen := UInt32(stream[pos..pos + 4]);
      if chunkLen == 0 {
        return Body(w, pos + 4, None);
      }
      if chunkLen > MAX_CHUNK {
        return Body(w, pos + 4, Some(ChunkTooLarge));
      }
      if |stream| < pos + 4 + chunkLen {
        return Body(w + stream[pos + 4..], |stream|, Some(ChunkCut));
      }
      var chunk := stream[pos + 4..pos + 4 + chunkLen];
      ghost var rest := ReadBody(stream[pos + 4 + chunkLen..]).bytes;
      assert w + (chunk + rest) == (w + chunk) + rest;
      w := w + chunk;
      pos := pos + 4 + chunkLen;
    }
  }

  /** The sequence of reads, each with its own way to fail. */
  method ReadStreamingResponse<H>(parse: seq<byte> -> Option<H>, stream: seq<byte>) returns (o: Outcome<H>)
    ensures o == Read(parse, stream)
  {
    hide UInt16, UInt32, ReadBody;
    if |stream| < 1 { return Refuse(0, NoVersion); }
    if stream[0] != 1 { return Refuse(1, BadVersion); }
    if |stream| < 3 { return Refuse(|stream|, NoStatus); }
    var status := UInt16(stream[1..3]);
    if status < 100 || status > 599 { return Refuse(3, BadStatus); }
    if |stream| < 7 { return Refuse(|stream|, NoHeadersLen); }
    var headersLen := UInt32(stream[3..7]);
    if headersLen > MAX_HEADERS { return Refuse(7, HeadersTooLarge); }
    if |stream| < 7 + headersLen { return Refuse(|stream|, NoHeaders); }
    var headers := parse(stream[7..7 + headersLen]);
    if headers.None? { return Refuse(7 + headersLen, BadHeaders); }
    var body := CopyChunks(stream[7 + headersLen..]);
    return Outcome(Some((status, headers.value)), body.bytes, 7 + headersLen + body.consumed, body.failure);
  }
}
