// The MacTCP receive path (src/mactcp/tcp_io.c): the stream index kept in
// a peer's connection handle, the fetch loop appending the driver's
// receive chunks to the peer's 8192-byte input buffer, and extracting
// whole frames (10-byte header, payload, 2-byte CRC trailer) from the
// front of that buffer, then moving the unconsumed tail to the front.
//
// What each TCPNoCopyRcv call returned (a timeout, an error, or the
// chunks of its read-data structure up to the first empty entry) and what
// each TCPStatus call reported are inputs; the driver calls themselves,
// the TickCount clock and the callbacks are not modelled. The frames a
// call consumes are returned in order, for the message callback and the
// PONG reply to act on.
module TcpIo {
  import opened PtTypes
  import opened PtErrors
  import Protocol
  import NetPosix

  /** Size of a peer's input framing buffer. */
  const FRAME_BUF_SIZE: int := 8192
  /** Header plus trailer: the least a frame occupies. */
  const FRAME_OVERHEAD: int := 12
  /** ASR flags of a stream. */
  const ASR_DATA_ARRIVED: bv8 := 0x01
  const ASR_CONN_CLOSED: bv8 := 0x02
  /** The buffer is not read into once fewer than this many bytes are free. */
  const FETCH_HEADROOM: int := 1500

  /**
   * pt_peer_stream_idx: the connection handle stores stream index + 1 so
   * that stream 0 is not NULL; no peer or no connection gives -1.
   */
  function StreamIdx(peerPresent: bool, connection: nat): (r: int)
    ensures r == -1 <==> !peerPresent || connection == 0
    ensures r >= 0 ==> r + 1 == connection
  {
    if !peerPresent || connection == 0 then -1 else connection - 1
  }

  // ---------------------------------------------------------------------
  // Frames
  // ---------------------------------------------------------------------

  /** A consumed frame: its decoded header and its payload. */
  datatype Msg = Msg(hdr: Protocol.MessageHeader, payload: bytes)

  /** Why extraction stopped: too few bytes for the next frame, a bad frame, or a DISCONNECT. */
  datatype Stop = Waiting | Corrupt | Disconnect

  /** What a scan of the buffer yields: the frames, the bytes they take, and the stop reason. */
  datatype Scan = Scan(frames: seq<Msg>, consumed: nat, stop: Stop)

  /** Frames `fs` taking `n` bytes, followed by the scan `p` of what comes after them. */
  function Prepend(fs: seq<Msg>, n: nat, p: Scan): (r: Scan)
  {
    Scan(fs + p.frames, n + p.consumed, p.stop)
  }

  /**
   * The CRC test of a frame with `len` payload bytes at the front of `buf`:
   * the trailer, read high byte first, is the CRC of header and payload.
   */
  predicate TrailerOk(buf: bytes, len: int)
    requires 0 <= len && FRAME_OVERHEAD + len <= |buf|
  {
    Protocol.Crc16(buf[..10 + len]) as int == Protocol.FromBe16(buf[10 + len], buf[11 + len])
  }

  /**
   * The frame scan of the receive loop over buffered bytes `buf`: with at
   * least 12 bytes, the header must decode; the frame is taken only once
   * all 10 + length + 2 of its bytes are present; its trailer must be the
   * CRC of header and payload; a DISCONNECT frame ends the scan.
   */
  function Extract(buf: bytes): (r: Scan)
    ensures r.consumed <= |buf|
    decreases |buf|
  {
    if |buf| < FRAME_OVERHEAD then Scan([], 0, Waiting)
    else
      var d := Protocol.MessageDecodeHeader(buf);
      if d.Err? then Scan([], 0, Corrupt)
      else
        var len := d.value.payloadLen;
        if |buf| < FRAME_OVERHEAD + len then Scan([], 0, Waiting)
        else if !TrailerOk(buf, len) then Scan([], 0, Corrupt)
        else
          var m := Msg(d.value, buf[10..10 + len]);
          var n := FRAME_OVERHEAD + len;
          if d.value.mtype == Protocol.MSG_TYPE_DISCONNECT then Scan([m], n, Disconnect)
          else
            var rest := Extract(buf[n..]);
            Prepend([m], n, rest)
  }

  /** Every frame the scan takes is a well-formed frame: its header, payload and CRC trailer. */
  function Wire(m: Msg): (r: bytes)
  {
    Protocol.MessageHeaderWire(m.hdr) + m.payload + Protocol.CrcBytes(Protocol.Crc16(Protocol.MessageHeaderWire(m.hdr) + m.payload))
  }

  function Wires(ms: seq<Msg>): (r: bytes)
  {
    if |ms| == 0 then [] else Wire(ms[0]) + Wires(ms[1..])
  }

  /** A frame the scan accepts at the front of `buf` is the wire form of the message taken. */
  lemma FrameAtFront(buf: bytes, h: Protocol.MessageHeader)
    requires Protocol.MessageDecodeHeader(buf) == Ok(h)
    requires FRAME_OVERHEAD + h.payloadLen <= |buf| && TrailerOk(buf, h.payloadLen)
    ensures buf[..FRAME_OVERHEAD + h.payloadLen] == Wire(Msg(h, buf[10..10 + h.payloadLen]))
  {
    var len := h.payloadLen;
    var c := Protocol.Crc16(buf[..10 + len]);
    Protocol.MessageDecodeHeaderSound(buf);
    assert buf[..10 + len] == Protocol.MessageHeaderWire(h) + buf[10..10 + len];
    NetPosix.TrailerMatches(c, buf[10 + len..12 + len]);
    assert buf[..12 + len] == buf[..10 + len] + buf[10 + len..12 + len];
  }

  /** The scan of a buffer holding at least a header and trailer's worth, case by case. */
  lemma ExtractCases(buf: bytes)
    requires |buf| >= FRAME_OVERHEAD
    ensures var d := Protocol.MessageDecodeHeader(buf);
            d.Err? ==> Extract(buf) == Scan([], 0, Corrupt)
    ensures var d := Protocol.MessageDecodeHeader(buf);
            d.Ok? && |buf| < FRAME_OVERHEAD + d.value.payloadLen ==> Extract(buf) == Scan([], 0, Waiting)
    ensures var d := Protocol.MessageDecodeHeader(buf);
            d.Ok? && FRAME_OVERHEAD + d.value.payloadLen <= |buf| && !TrailerOk(buf, d.value.payloadLen) ==>
              Extract(buf) == Scan([], 0, Corrupt)
    ensures var d := Protocol.MessageDecodeHeader(buf);
            d.Ok? && FRAME_OVERHEAD + d.value.payloadLen <= |buf| && TrailerOk(buf, d.value.payloadLen)
            && d.value.mtype == Protocol.MSG_TYPE_DISCONNECT ==>
              Extract(buf) == Scan([Msg(d.value, buf[10..10 + d.value.payloadLen])], FRAME_OVERHEAD + d.value.payloadLen, Disconnect)
  {
  }

  /** Taking frames one more at a time. */
  lemma PrependAssoc(fs: seq<Msg>, k: nat, m: Msg, n: nat, p: Scan)
    ensures Prepend(fs, k, Prepend([m], n, p)) == Prepend(fs + [m], k + n, p)
  {
    assert fs + ([m] + p.frames) == (fs + [m]) + p.frames;
  }

  /** One step of the scan past an accepted frame that is not a DISCONNECT. */
  lemma ExtractStep(buf: bytes, h: Protocol.MessageHeader)
    requires Protocol.MessageDecodeHeader(buf) == Ok(h) && h.mtype != Protocol.MSG_TYPE_DISCONNECT
    requires FRAME_OVERHEAD + h.payloadLen <= |buf| && TrailerOk(buf, h.payloadLen)
    ensures Extract(buf) == Prepend([Msg(h, buf[10..10 + h.payloadLen])], FRAME_OVERHEAD + h.payloadLen,
                                    Extract(buf[FRAME_OVERHEAD + h.payloadLen..]))
  {
    var d := Protocol.MessageDecodeHeader(buf);
    assert d.value == h;
  }

  /** A scan that consumes nothing takes no frame. */
  lemma ExtractNothing(buf: bytes)
    requires Extract(buf).consumed == 0
    ensures Extract(buf).frames == []
  {
    if |buf| >= FRAME_OVERHEAD {
      ExtractCases(buf);
    }
  }

  /**
   * The consumed bytes are exactly the taken frames, each re-encodable:
   * the scan only ever takes valid frames, in order, from the front.
   */
  lemma {:induction false} ExtractTakesFrames(buf: bytes)
    ensures buf[..Extract(buf).consumed] == Wires(Extract(buf).frames)
    decreases |buf|
  {
    var p := Extract(buf);
    if p.consumed == 0 {
      ExtractNothing(buf);
    } else {
      var h := Protocol.MessageDecodeHeader(buf).value;
      var n := FRAME_OVERHEAD + h.payloadLen;
      var m := Msg(h, buf[10..10 + h.payloadLen]);
      FrameAtFront(buf, h);
      if h.mtype == Protocol.MSG_TYPE_DISCONNECT {
        assert p.frames == [m] && p.consumed == n;
        assert Wires([m]) == Wire(m) + Wires([]);
      } else {
        var rest := Extract(buf[n..]);
        ExtractStep(buf, h);
        ExtractTakesFrames(buf[n..]);
        assert p.frames == [m] + rest.frames;
        assert p.frames[1..] == rest.frames;
        assert buf[..p.consumed] == buf[..n] + buf[n..][..rest.consumed];
      }
    }
  }

  /** The bytes of `Wire(m) + rest` at the offsets the scan reads. */
  lemma WireFields(m: Msg, rest: bytes)
    requires m.hdr.version == Protocol.PROTOCOL_VERSION && Protocol.ValidMessageType(m.hdr.mtype)
    requires |m.payload| == m.hdr.payloadLen
    ensures var buf := Wire(m) + rest;
            && |buf| >= FRAME_OVERHEAD + m.hdr.payloadLen
            && Protocol.MessageDecodeHeader(buf) == Ok(m.hdr)
            && buf[10..10 + m.hdr.payloadLen] == m.payload
            && TrailerOk(buf, m.hdr.payloadLen)
            && buf[FRAME_OVERHEAD + m.hdr.payloadLen..] == rest
  {
    var w := Protocol.MessageHeaderWire(m.hdr);
    var c := Protocol.Crc16(w + m.payload);
    var trailer := Protocol.CrcBytes(c);
    WireLayout(w, m.payload, trailer, rest);
    Protocol.MessageHeaderRoundTrip(m.hdr, m.payload + trailer + rest);
    NetPosix.TrailerMatches(c, trailer);
  }

  /** Where header, payload, trailer and what follows sit in a frame's bytes. */
  lemma WireLayout(w: bytes, p: bytes, t: bytes, rest: bytes)
    requires |w| == 10 && |t| == 2
    ensures var buf := w + p + t + rest;
            && buf == w + (p + t + rest) && buf[..10 + |p|] == w + p && buf[10..10 + |p|] == p
            && buf[10 + |p|] == t[0] && buf[11 + |p|] == t[1] && buf[12 + |p|..] == rest
  {
    var buf := w + p + t + rest;
    assert buf == w + (p + t + rest);
    assert buf[..10 + |p|] == w + p;
    assert buf[10..10 + |p|] == p;
    assert buf[12 + |p|..] == rest;
  }

  /** A buffer holding one well-formed non-DISCONNECT frame followed by more bytes yields that frame first. */
  lemma ExtractFrameFirst(m: Msg, rest: bytes)
    requires m.hdr.version == Protocol.PROTOCOL_VERSION && Protocol.ValidMessageType(m.hdr.mtype)
    requires |m.payload| == m.hdr.payloadLen && m.hdr.mtype != Protocol.MSG_TYPE_DISCONNECT
    ensures Extract(Wire(m) + rest) == Prepend([m], |Wire(m)|, Extract(rest))
  {
    WireFields(m, rest);
    ExtractStep(Wire(m) + rest, m.hdr);
  }

  // ---------------------------------------------------------------------
  // The input buffer
  // ---------------------------------------------------------------------

  /** The bytes of the leading chunks that fit: appending stops at an empty chunk or one that would overflow. */
  function FitCount(len: int, chunks: seq<bytes>): (k: nat)
    ensures k <= |chunks|
    decreases |chunks|
  {
    if |chunks| == 0 || |chunks[0]| == 0 || len + |chunks[0]| > FRAME_BUF_SIZE then 0
    else 1 + FitCount(len + |chunks[0]|, chunks[1..])
  }

  function Concat(cs: seq<bytes>): (r: bytes)
  {
    if |cs| == 0 then [] else Concat(cs[..|cs| - 1]) + cs[|cs| - 1]
  }

  lemma ConcatAppend(cs: seq<bytes>, c: bytes)
    ensures Concat(cs + [c]) == Concat(cs) + c
  {
    assert (cs + [c])[..|cs|] == cs;
  }

  /** The chunks counted by FitCount fit the buffer together. */
  lemma {:induction false} FitCountFits(len: int, chunks: seq<bytes>)
    requires 0 <= len <= FRAME_BUF_SIZE
    ensures len + |Concat(chunks[..FitCount(len, chunks)])| <= FRAME_BUF_SIZE
    decreases |chunks|
  {
    var k := FitCount(len, chunks);
    if k > 0 {
      FitCountFits(len + |chunks[0]|, chunks[1..]);
      ConcatFront(chunks[..k]);
      assert chunks[..k][1..] == chunks[1..][..k - 1];
    }
  }

  /** Appending chunk `k` after the first `k` chunks' bytes gives the first `k + 1` chunks' bytes. */
  lemma AppendStep(start: bytes, chunks: seq<bytes>, k: int, before: bytes, after: bytes)
    requires 0 <= k < |chunks|
    requires before == start + Concat(chunks[..k]) && after == before + chunks[k]
    ensures after == start + Concat(chunks[..k + 1])
  {
    assert chunks[..k + 1] == chunks[..k] + [chunks[k]];
    ConcatAppend(chunks[..k], chunks[k]);
  }

  lemma {:induction false} ConcatFront(cs: seq<bytes>)
    requires |cs| > 0
    ensures Concat(cs) == cs[0] + Concat(cs[1..])
    decreases |cs|
  {
    if |cs| > 1 {
      var n := |cs| - 1;
      ConcatFront(cs[..n]);
      assert cs[..n][1..] == cs[1..][..n - 1];
      assert cs[..n][0] == cs[0];
    } else {
      assert cs[1..] == [];
    }
  }

  /**
   * The loop invariant of ScanFrames carried past one accepted frame `m`
   * of `n` bytes that is not a DISCONNECT: the frames taken so far and the
   * scan of the rest still make up the scan `total` of the whole buffer.
   */
  lemma ScanAdvance(data: bytes, total: Scan, frames: seq<Msg>, consumed: int, tail: Scan, m: Msg, n: int,
                    frames': seq<Msg>, consumed': int, tail': Scan)
    requires 0 <= consumed && 0 <= n && consumed + n <= |data|
    requires total == Prepend(frames, consumed, tail) && tail == Extract(data[consumed..])
    requires Protocol.MessageDecodeHeader(data[consumed..]) == Ok(m.hdr) && m.hdr.mtype != Protocol.MSG_TYPE_DISCONNECT
    requires n == FRAME_OVERHEAD + m.hdr.payloadLen
    requires TrailerOk(data[consumed..], m.hdr.payloadLen) && m.payload == data[consumed..][10..10 + m.hdr.payloadLen]
    requires frames' == frames + [m] && consumed' == consumed + n && tail' == Extract(data[consumed'..])
    ensures total == Prepend(frames', consumed', tail')
  {
    var rest := data[consumed..];
    ExtractStep(rest, m.hdr);
    assert rest[n..] == data[consumed'..];
    PrependAssoc(frames, consumed, m, n, tail');
  }

  /**
   * The CRC test of the receive loop: the expected value is read from the
   * trailer high byte first, the actual one is the CRC of the header
   * continued over the payload when there is one.
   */
  method CheckFrameCrc(frame: bytes, len: int) returns (ok: bool)
    requires 0 <= len && FRAME_OVERHEAD + len <= |frame|
    ensures ok <==> TrailerOk(frame, len)
  {
    var expected := Protocol.FromBe16(frame[10 + len], frame[11 + len]);
    var actual := Protocol.Crc16(frame[..10]);
    if len > 0 {
      actual := Protocol.Crc16Update(actual, frame[10..10 + len]);
    }
    ok := actual as int == expected;
    NetPosix.CrcContinues(frame[..10], frame[10..10 + len]);
    assert frame[..10] + frame[10..10 + len] == frame[..10 + len];
  }

  /** What the front of the unconsumed bytes holds: too little yet, a bad frame, or a whole valid frame. */
  datatype Front = Short | Bad | Whole(m: Msg, n: nat)

  /**
   * One pass of the frame loop's checks on the unconsumed bytes `rest`:
   * decode the header (bad if it fails), wait for the whole frame, then
   * check its CRC (bad if it fails).
   */
  method ReadFront(rest: bytes) returns (f: Front)
    requires |rest| >= FRAME_OVERHEAD
    ensures f.Short? ==> Extract(rest) == Scan([], 0, Waiting)
    ensures f.Bad? ==> Extract(rest) == Scan([], 0, Corrupt)
    ensures f.Whole? ==>
              && Protocol.MessageDecodeHeader(rest) == Ok(f.m.hdr)
              && f.n == FRAME_OVERHEAD + f.m.hdr.payloadLen && f.n <= |rest|
              && TrailerOk(rest, f.m.hdr.payloadLen) && f.m.payload == rest[10..10 + f.m.hdr.payloadLen]
  {
    ExtractCases(rest);
    var d := Protocol.MessageDecodeHeader(rest);
    if d.Err? {
      return Bad;
    }
    var len := d.value.payloadLen;
    if |rest| < FRAME_OVERHEAD + len {
      return Short;
    }
    var crcOk := CheckFrameCrc(rest, len);
    if !crcOk {
      return Bad;
    }
    f := Whole(Msg(d.value, rest[10..10 + len]), FRAME_OVERHEAD + len);
  }

  /**
   * The frame loop of pt_mactcp_tcp_recv over the buffered bytes: while a
   * header and trailer's worth remains, decode the header (stop as corrupt
   * if it fails), wait for the whole frame, check its CRC (corrupt if it
   * fails), take it, and stop after a DISCONNECT.
   */
  method ScanFrames(data: bytes) returns (stop: Stop, consumed: nat, frames: seq<Msg>)
    ensures Scan(frames, consumed, stop) == Extract(data)
  {
    consumed := 0;
    frames := [];
    ghost var total := Extract(data);
    ghost var tail := total;
    assert data[0..] == data;
    while |data| - consumed >= FRAME_OVERHEAD
      invariant 0 <= consumed <= |data|
      invariant total == Prepend(frames, consumed, tail)
      invariant tail == Extract(data[consumed..])
      decreases |data| - consumed
    {
      var rest := data[consumed..];
      var f := ReadFront(rest);
      match f
      case Short =>
        assert frames + [] == frames;
        return Waiting, consumed, frames;
      case Bad =>
        assert frames + [] == frames;
        return Corrupt, consumed, frames;
      case Whole(m, n) =>
        if m.hdr.mtype == Protocol.MSG_TYPE_DISCONNECT {
          ExtractCases(rest);
          return Disconnect, consumed + n, frames + [m];
        }
        ghost var frames0, consumed0, tail0 := frames, consumed, tail;
        frames := frames + [m];
        consumed := consumed + n;
        tail := Extract(data[consumed..]);
        ScanAdvance(data, total, frames0, consumed0, tail0, m, n, frames, consumed, tail);
    }
    assert frames + [] == frames;
    stop := Waiting;
  }

  /**
   * One TCPNoCopyRcv call of the fetch loop: it timed out, failed (with the
   * connection closing or not), or returned chunks, together with whether
   * the TCPStatus call after it reported more unread data.
   */
  datatype Read = Timeout | Failed(closing: bool) | Data(chunks: seq<bytes>, moreUnread: bool)

  /** What the fetch loop appends, and whether it ended on a closing connection. */
  datatype Fetched = Fetched(bytes: bytes, closed: bool)

  /** Rounds of the fetch loop per receive call. */
  const MAX_FETCH_LOOPS: nat := 8

  /**
   * The fetch loop from round `round` on, with `len` bytes buffered: no
   * read once fewer than 1500 bytes are free; a timeout or an error ends
   * it (an error from a closing connection reports the close); a read that
   * appends nothing ends it; after fewer than 8 rounds a status reporting
   * no unread data ends it. Reads past the end of `calls` time out.
   */
  function FetchFrom(len: int, calls: seq<Read>, round: nat): (r: Fetched)
    decreases MAX_FETCH_LOOPS - round
  {
    if round >= MAX_FETCH_LOOPS || round >= |calls| || len >= FRAME_BUF_SIZE - FETCH_HEADROOM then Fetched([], false)
    else match calls[round]
      case Timeout => Fetched([], false)
      case Failed(closing) => Fetched([], closing)
      case Data(chunks, more) =>
        var got := Concat(chunks[..FitCount(len, chunks)]);
        if |got| == 0 || (round + 1 < MAX_FETCH_LOOPS && !more) then Fetched(got, false)
        else
          var rest := FetchFrom(len + |got|, calls, round + 1);
          Fetched(got + rest.bytes, rest.closed)
  }

  /** The fetched bytes never overflow the input buffer. */
  lemma {:induction false} FetchFits(len: int, calls: seq<Read>, round: nat)
    requires 0 <= len <= FRAME_BUF_SIZE
    ensures len + |FetchFrom(len, calls, round).bytes| <= FRAME_BUF_SIZE
    decreases MAX_FETCH_LOOPS - round
  {
    if round < MAX_FETCH_LOOPS && round < |calls| && len < FRAME_BUF_SIZE - FETCH_HEADROOM && calls[round].Data? {
      var chunks := calls[round].chunks;
      FitCountFits(len, chunks);
      var got := Concat(chunks[..FitCount(len, chunks)]);
      FetchFits(len + |got|, calls, round + 1);
    }
  }

  /** The fetched bytes so far and the fetch from the current round on make up the whole fetch. */
  function Join(acc: bytes, f: Fetched): (r: Fetched)
  {
    Fetched(acc + f.bytes, f.closed)
  }

  /** The fetch loop's invariant carried past a round that appended `got` and goes on. */
  lemma FetchAdvance(total: Fetched, acc: bytes, len: int, calls: seq<Read>, round: nat, got: bytes,
                     acc': bytes, len': int)
    requires round < MAX_FETCH_LOOPS && round < |calls| && len < FRAME_BUF_SIZE - FETCH_HEADROOM && calls[round].Data?
    requires got == Concat(calls[round].chunks[..FitCount(len, calls[round].chunks)])
    requires |got| > 0 && (round + 1 < MAX_FETCH_LOOPS ==> calls[round].moreUnread)
    requires total == Join(acc, FetchFrom(len, calls, round))
    requires acc' == acc + got && len' == len + |got|
    ensures total == Join(acc', FetchFrom(len', calls, round + 1))
  {
    var rest := FetchFrom(len', calls, round + 1);
    assert FetchFrom(len, calls, round) == Fetched(got + rest.bytes, rest.closed);
    assert acc + (got + rest.bytes) == acc' + rest.bytes;
  }

  /** A fetch that stops with `got` appended and `closed` reported. */
  lemma FetchEnds(total: Fetched, acc: bytes, f: Fetched, got: bytes, closed: bool, acc': bytes)
    requires total == Join(acc, f) && f == Fetched(got, closed) && acc' == acc + got
    ensures total == Fetched(acc', closed)
  {
  }

  /**
   * The input side of one peer: the stream's ASR flags (set by the
   * driver's notifier) and the peer's framing buffer with its fill level.
   */
  class PeerInput {
    var asrFlags: bv8
    var ibuf: array<byte>
    var ibuflen: int

    predicate Valid()
      reads this
    {
      ibuf.Length == FRAME_BUF_SIZE && 0 <= ibuflen <= FRAME_BUF_SIZE
    }

    /** The bytes waiting in the buffer. */
    function Buffered(): (r: bytes)
      requires Valid()
      reads this, ibuf
      ensures |r| == ibuflen
    {
      ibuf[..ibuflen]
    }

    /** An empty buffer with no flags pending. */
    constructor ()
      ensures Valid() && ibuflen == 0 && asrFlags == 0 && fresh(ibuf)
    {
      asrFlags := 0;
      ibuf := new byte[FRAME_BUF_SIZE](_ => 0);
      ibuflen := 0;
    }

    /** The memcpy of one chunk after the buffered bytes. */
    method Append(c: bytes)
      requires Valid() && ibuflen + |c| <= FRAME_BUF_SIZE
      modifies this, ibuf
      ensures Valid() && ibuf == old(ibuf) && asrFlags == old(asrFlags)
      ensures ibuflen == old(ibuflen) + |c| && Buffered() == old(Buffered()) + c
    {
      forall i | 0 <= i < |c| {
        ibuf[ibuflen + i] := c[i];
      }
      ibuflen := ibuflen + |c|;
    }

    /**
     * The copy loop over one read's chunks: each chunk is appended while
     * it fits; an empty chunk ends the list and the first chunk that would
     * overflow ends the copy.
     */
    method AppendChunks(chunks: seq<bytes>) returns (k: int)
      requires Valid()
      modifies this, ibuf
      ensures Valid() && ibuf == old(ibuf) && asrFlags == old(asrFlags)
      ensures k == FitCount(old(ibuflen), chunks)
      ensures Buffered() == old(Buffered()) + Concat(chunks[..k])
    {
      k := 0;
      ghost var start := Buffered();
      FitCountFits(ibuflen, chunks);
      while k < |chunks| && |chunks[k]| > 0
        invariant 0 <= k <= |chunks| && Valid() && ibuf == old(ibuf) && asrFlags == old(asrFlags)
        invariant Buffered() == start + Concat(chunks[..k])
        invariant FitCount(old(ibuflen), chunks) == k + FitCount(ibuflen, chunks[k..])
      {
        var c := chunks[k];
        assert chunks[k..][0] == c;
        if ibuflen + |c| > FRAME_BUF_SIZE {
          break;
        }
        assert chunks[k..][1..] == chunks[k + 1..];
        ghost var before := Buffered();
        Append(c);
        AppendStep(start, chunks, k, before, Buffered());
        k := k + 1;
      }
      if k < |chunks| && |chunks[k]| == 0 {
        assert chunks[k..][0] == chunks[k];
      }
      if k == |chunks| {
        assert chunks[k..] == [];
      }
    }

    /**
     * The fetch loop of pt_mactcp_tcp_recv: up to 8 reads, each appending
     * its chunks, as FetchFrom describes. Reports whether a read failed
     * on a closing connection.
     */
    method FetchData(calls: seq<Read>) returns (closed: bool)
      requires Valid()
      modifies this, ibuf
      ensures Valid() && ibuf == old(ibuf) && asrFlags == old(asrFlags)
      ensures Buffered() == old(Buffered()) + FetchFrom(old(ibuflen), calls, 0).bytes
      ensures closed == FetchFrom(old(ibuflen), calls, 0).closed
    {
      ghost var total := FetchFrom(ibuflen, calls, 0);
      ghost var acc: bytes := [];
      assert old(Buffered()) + [] == old(Buffered());
      var round: nat := 0;
      closed := false;
      while round < MAX_FETCH_LOOPS
        invariant Valid() && ibuf == old(ibuf) && asrFlags == old(asrFlags)
        invariant Buffered() == old(Buffered()) + acc
        invariant total == Join(acc, FetchFrom(ibuflen, calls, round))
        decreases MAX_FETCH_LOOPS - round
      {
        if round >= |calls| || ibuflen >= FRAME_BUF_SIZE - FETCH_HEADROOM {
          break;
        }
        match calls[round]
        case Timeout =>
          break;
        case Failed(closing) =>
          FetchEnds(total, acc, FetchFrom(ibuflen, calls, round), [], closing, acc + []);
          assert acc + [] == acc;
          return closing;
        case Data(chunks, more) =>
          var len := ibuflen;
          ghost var acc0 := acc;
          var k := AppendChunks(chunks);
          ghost var got := Concat(chunks[..k]);
          acc := acc + got;
          assert Buffered() == old(Buffered()) + acc;
          if ibuflen == len || (round + 1 < MAX_FETCH_LOOPS && !more) {
            FetchEnds(total, acc0, FetchFrom(len, calls, round), got, false, acc);
            return false;
          }
          FetchAdvance(total, acc0, len, calls, round, got, acc, ibuflen);
          round := round + 1;
      }
      FetchEnds(total, acc, FetchFrom(ibuflen, calls, round), [], false, acc + []);
      assert acc + [] == acc;
    }

    /**
     * The tail shift after the frame loop: the bytes past `consumed` move to
     * the front; with everything consumed the buffer is emptied, and with
     * nothing consumed it is left as it is.
     */
    method ShiftTail(consumed: int)
      requires Valid() && 0 <= consumed <= ibuflen
      modifies this, ibuf
      ensures Valid() && ibuf == old(ibuf) && asrFlags == old(asrFlags)
      ensures Buffered() == old(Buffered())[consumed..]
    {
      var remaining := ibuflen - consumed;
      if consumed > 0 && remaining > 0 {
        forall i | 0 <= i < remaining {
          ibuf[i] := ibuf[consumed + i];
        }
        ibuflen := remaining;
      } else if remaining == 0 {
        ibuflen := 0;
      }
    }

    /**
     * What processing the bytes `input` leaves, with `flags` the ASR flags
     * before it: the frames Extract takes are reported; a DISCONNECT empties
     * the buffer and gives -1; a bad frame empties it and gives the number
     * of frames taken before it; otherwise the unconsumed tail is kept, the
     * number of frames is returned, and when frames were taken, less than
     * half the buffer is in use and the driver reports unread data, the
     * DATA_ARRIVED flag is raised again.
     */
    ghost predicate Processed(input: bytes, flags: bv8, moreUnread: bool, r: int, frames: seq<Msg>)
      requires Valid()
      reads this, ibuf
    {
      var p := Extract(input);
      && frames == p.frames
      && (p.stop == Disconnect ==> r == -1 && ibuflen == 0 && asrFlags == flags)
      && (p.stop == Corrupt ==> r == |p.frames| && ibuflen == 0 && asrFlags == flags)
      && (p.stop == Waiting ==>
            && r == |p.frames| && p.consumed <= |input| && Buffered() == input[p.consumed..]
            && asrFlags == if r > 0 && ibuflen < FRAME_BUF_SIZE / 2 && moreUnread then flags | ASR_DATA_ARRIVED else flags)
    }

    /**
     * The frame loop, tail shift and closing status check of
     * pt_mactcp_tcp_recv, with the status call's report of unread data an
     * input.
     */
    method ProcessFrames(moreUnread: bool) returns (r: int, frames: seq<Msg>)
      requires Valid()
      modifies this, ibuf
      ensures Valid() && ibuf == old(ibuf)
      ensures Processed(old(Buffered()), old(asrFlags), moreUnread, r, frames)
    {
      ghost var input := Buffered();
      var stop, consumed;
      stop, consumed, frames := ScanFrames(ibuf[..ibuflen]);
      match stop
      case Disconnect =>
        ibuflen := 0;
        r := -1;
      case Corrupt =>
        ibuflen := 0;
        r := |frames|;
      case Waiting =>
        r := |frames|;
        ShiftTail(consumed);
        if r > 0 && ibuflen < FRAME_BUF_SIZE / 2 && moreUnread {
          asrFlags := asrFlags | ASR_DATA_ARRIVED;
        }
    }

    /**
     * The receive entry point for one poll, for a peer whose connection
     * handle is `connection`: a handle that names no stream (NULL, or past
     * the stream table) gives 0 and touches nothing; a pending CONN_CLOSED
     * flag is cleared and gives -1 before anything is read; a pending
     * DATA_ARRIVED flag is cleared and the fetch loop runs, giving -1 when a
     * read finds the connection closing; then the buffered frames are
     * processed.
     */
    method Recv(connection: nat, calls: seq<Read>, moreUnread: bool) returns (r: int, frames: seq<Msg>)
      requires Valid()
      modifies this, ibuf
      ensures Valid() && ibuf == old(ibuf)
      ensures !(0 <= StreamIdx(true, connection) < MAX_PEERS) ==>
        r == 0 && frames == [] && unchanged(this) && unchanged(ibuf)
      ensures !(0 <= StreamIdx(true, connection) < MAX_PEERS) <==> connection == 0 || connection > MAX_PEERS
      ensures 0 <= StreamIdx(true, connection) < MAX_PEERS && old(asrFlags) & ASR_CONN_CLOSED != 0 ==>
        r == -1 && frames == [] && asrFlags == old(asrFlags) & !ASR_CONN_CLOSED && Buffered() == old(Buffered())
      ensures 0 <= StreamIdx(true, connection) < MAX_PEERS && old(asrFlags) & ASR_CONN_CLOSED == 0 ==>
        var f := if old(asrFlags) & ASR_DATA_ARRIVED != 0 then FetchFrom(old(ibuflen), calls, 0) else Fetched([], false);
        if f.closed then
          r == -1 && frames == [] && asrFlags == old(asrFlags) & !ASR_DATA_ARRIVED && Buffered() == old(Buffered()) + f.bytes
        else
          Processed(old(Buffered()) + f.bytes, old(asrFlags) & !ASR_DATA_ARRIVED, moreUnread, r, frames)
    {
      var idx := StreamIdx(true, connection);
      if idx < 0 || idx >= MAX_PEERS {
        return 0, [];
      }
      if asrFlags & ASR_CONN_CLOSED != 0 {
        asrFlags := asrFlags & !ASR_CONN_CLOSED;
        return -1, [];
      }
      if asrFlags & ASR_DATA_ARRIVED != 0 {
        asrFlags := asrFlags & !ASR_DATA_ARRIVED;
        var closed := FetchData(calls);
        if closed {
          return -1, [];
        }
      } else {
        assert asrFlags & !ASR_DATA_ARRIVED == asrFlags;
        assert old(Buffered()) + [] == old(Buffered());
      }
      r, frames := ProcessFrames(moreUnread);
    }
  }

  // ---------------------------------------------------------------------
  // The 16-bit frame length
  // ---------------------------------------------------------------------

  /** `expected_len` as the C code computes it: 10 + payload_len + 2 stored in a uint16_t. */
  function FrameLenAsWritten(payloadLen: uint16): (r: uint16)
    ensures payloadLen <= 0xFFFF - FRAME_OVERHEAD ==> r == FRAME_OVERHEAD + payloadLen
    ensures payloadLen > 0xFFFF - FRAME_OVERHEAD ==> r == payloadLen + FRAME_OVERHEAD - 0x1_0000 && r < FRAME_OVERHEAD
  {
    U16(Protocol.MESSAGE_HEADER_SIZE + payloadLen + Protocol.CRC_SIZE)
  }

  /** The completeness test of the receive loop as written. */
  predicate FrameCompleteAsWritten(remaining: int, payloadLen: uint16)
  {
    remaining >= FrameLenAsWritten(payloadLen)
  }

  /**
   * A header announcing 65524 payload bytes passes the as-written test
   * with only 12 bytes buffered: the wrapped length is 0, and the trailer
   * is then read 65534 bytes into an 8192-byte buffer.
   */
  lemma FrameLenWraps()
    ensures FrameLenAsWritten(65524) == 0
    ensures FrameCompleteAsWritten(FRAME_OVERHEAD, 65524)
    ensures Protocol.MESSAGE_HEADER_SIZE + 65524 >= FRAME_BUF_SIZE
  {
  }

  /**
   * The test Extract uses instead, in unbounded arithmetic: a frame is
   * complete only when all its bytes are buffered, so its trailer lies
   * inside the buffer.
   */
  predicate FrameComplete(remaining: int, payloadLen: uint16)
  {
    remaining >= FRAME_OVERHEAD + payloadLen
  }

  lemma FrameCompleteInBounds(buf: bytes, payloadLen: uint16)
    requires FrameComplete(|buf|, payloadLen)
    ensures Protocol.MESSAGE_HEADER_SIZE + payloadLen + 1 < |buf|
    ensures FrameCompleteAsWritten(|buf|, payloadLen)
  {
  }
}
