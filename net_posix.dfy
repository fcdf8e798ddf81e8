// The POSIX networking layer's bookkeeping (src/posix/net_posix.c): the
// O(1) swap-back set of peers with open sockets, the latency and link
// quality estimate kept from PING/PONG round trips, the per-peer TCP
// receive state machine (header, then payload, then CRC trailer) with
// the CRC check of a completed message, and the peer counts of
// PeerTalk_GetGlobalStats.
//
// Sockets are not modelled: what one recv() call returned is an input
// (`RecvResult`), and so is the clock reading.
module NetPosix {
  import opened PtTypes
  import opened PtErrors
  import Peer
  import Protocol

  /** Slots of the active-peer arrays, and the "not listed" position. */
  const SLOTS: int := 16
  const NOT_LISTED: byte := 0xFF

  /** A set of slot indexes below `n` has at most `n` members. */
  lemma {:induction false} BoundedSetSize(s: set<int>, n: nat)
    requires forall x :: x in s ==> 0 <= x < n
    ensures |s| <= n
  {
    if n > 0 {
      BoundedSetSize(s - {n - 1}, n - 1);
    } else {
      assert forall x :: x in s ==> false;
      assert s == {};
    }
  }

  // ---------------------------------------------------------------------
  // Active peers
  // ---------------------------------------------------------------------

  /**
   * `active_peers[0 .. active_count)` lists the slot indexes with an open
   * socket; `active_position` maps each slot index back to its place in
   * that list, or 0xFF when the slot is not listed. `members` is the set
   * the two arrays encode.
   */
  class ActivePeers {
    var peers: array<byte>
    var position: array<byte>
    var count: int
    var fdDirty: bool
    ghost var members: set<int>

    /** The list and the reverse map agree, and the list holds each member once. */
    ghost predicate Valid()
      reads this, peers, position
    {
      && peers.Length == SLOTS && position.Length == SLOTS && peers != position
      && 0 <= count <= SLOTS && |members| == count
      && (forall i :: 0 <= i < count ==> peers[i] < SLOTS && peers[i] as int in members && position[peers[i]] as int == i)
      && (forall p :: 0 <= p < SLOTS ==> (p in members <==> position[p] != NOT_LISTED))
      && (forall p :: p in members ==> 0 <= p < SLOTS && position[p] as int < count && peers[position[p]] as int == p)
    }

    /** The state pt_posix_init leaves: an empty list and every position 0xFF. */
    constructor ()
      ensures Valid() && members == {} && count == 0 && fdDirty
      ensures forall p :: 0 <= p < SLOTS ==> position[p] == NOT_LISTED
    {
      peers := new byte[SLOTS](_ => 0);
      position := new byte[SLOTS](_ => NOT_LISTED);
      count := 0;
      fdDirty := true;
      members := {};
    }

    /** pt_posix_add_active_peer: a listed peer is left alone, a new one is appended. */
    method Add(idx: byte)
      requires Valid() && idx < SLOTS
      modifies this, peers, position
      ensures Valid() && peers == old(peers) && position == old(position)
      ensures members == old(members) + {idx as int}
      ensures idx as int in old(members) ==>
        count == old(count) && fdDirty == old(fdDirty) && unchanged(peers) && unchanged(position)
      ensures idx as int !in old(members) ==>
        count == old(count) + 1 && peers[old(count)] == idx && position[idx] as int == old(count) && fdDirty
      ensures forall i :: 0 <= i < old(count) ==> peers[i] == old(peers[i])
    {
      if position[idx] != NOT_LISTED {
        return;
      }
      BoundedSetSize(members + {idx as int}, SLOTS);
      peers[count] := idx;
      position[idx] := count as byte;
      members := members + {idx as int};
      count := count + 1;
      fdDirty := true;
    }

    /**
     * pt_posix_remove_active_peer: an unlisted peer is left alone; a listed
     * one is replaced by the last entry, which takes over its position.
     */
    method Remove(idx: byte)
      requires Valid() && idx < SLOTS
      modifies this, peers, position
      ensures Valid() && peers == old(peers) && position == old(position)
      ensures members == old(members) - {idx as int}
      ensures idx as int !in old(members) ==>
        count == old(count) && fdDirty == old(fdDirty) && unchanged(peers) && unchanged(position)
      ensures idx as int in old(members) ==>
        count == old(count) - 1 && position[idx] == NOT_LISTED && fdDirty
        && (old(position[idx]) as int < count ==> peers[old(position[idx])] == old(peers[count - 1]))
        && (forall i :: 0 <= i < count && i != old(position[idx]) as int ==> peers[i] == old(peers[i]))
    {
      var pos := position[idx];
      if pos == NOT_LISTED {
        return;
      }
      if (pos as int) < count - 1 {
        var last := peers[count - 1];
        peers[pos] := last;
        position[last] := pos;
      }
      position[idx] := NOT_LISTED;
      members := members - {idx as int};
      count := count - 1;
      fdDirty := true;
    }
  }

  // ---------------------------------------------------------------------
  // Latency and quality
  // ---------------------------------------------------------------------

  /** calculate_quality: the link score for a smoothed latency in milliseconds. */
  function Quality(latencyMs: uint16): (r: byte)
    ensures r in {100, 90, 75, 50, 25}
    ensures r == 100 <==> latencyMs < 5
    ensures r == 90 <==> 5 <= latencyMs < 10
    ensures r == 75 <==> 10 <= latencyMs < 20
    ensures r == 50 <==> 20 <= latencyMs < 50
    ensures r == 25 <==> 50 <= latencyMs
  {
    if latencyMs < 5 then 100
    else if latencyMs < 10 then 90
    else if latencyMs < 20 then 75
    else if latencyMs < 50 then 50
    else 25
  }

  /** A slower link never scores higher. */
  lemma QualityMonotone(a: uint16, b: uint16)
    requires a <= b
    ensures Quality(b) <= Quality(a)
  {
  }

  /** The latency fields of a peer's statistics and its outstanding ping time (0 = none). */
  datatype PingStats = PingStats(latencyMs: uint16, quality: byte, pingSentTime: uint32)

  /** The round-trip time: the tick difference, wrapping like the C unsigned arithmetic, kept to 16 bits. */
  function Rtt(pingSentTime: uint32, now: uint32): (r: uint16)
    ensures pingSentTime <= now < pingSentTime + 0x1_0000 ==> r == now - pingSentTime
    ensures now < pingSentTime && now + 0x1_0000_0000 - pingSentTime < 0x1_0000 ==> r == now + 0x1_0000_0000 - pingSentTime
  {
    U16(U32(now - pingSentTime))
  }

  /**
   * update_peer_latency: without an outstanding ping nothing changes;
   * otherwise the first sample becomes the latency and later ones are
   * averaged in with weight 1/4 (rounded down), the quality follows the new
   * latency and the ping is no longer outstanding.
   */
  function UpdateLatency(s: PingStats, now: uint32): (r: PingStats)
    ensures s.pingSentTime == 0 ==> r == s
    ensures s.pingSentTime != 0 ==>
      var rtt := Rtt(s.pingSentTime, now);
      && r.pingSentTime == 0 && r.quality == Quality(r.latencyMs)
      && (s.latencyMs == 0 ==> r.latencyMs == rtt)
      && (s.latencyMs != 0 ==>
            && Min(s.latencyMs, rtt) <= r.latencyMs <= Max(s.latencyMs, rtt)
            && 4 * r.latencyMs <= 3 * s.latencyMs + rtt < 4 * r.latencyMs + 4)
  {
    if s.pingSentTime == 0 then s
    else
      var rtt := Rtt(s.pingSentTime, now);
      var latency := if s.latencyMs == 0 then rtt else (s.latencyMs * 3 + rtt) / 4;
      PingStats(latency, Quality(latency), 0)
  }

  /** A sample equal to the current estimate leaves it unchanged. */
  lemma LatencySteady(s: PingStats, now: uint32)
    requires s.pingSentTime != 0 && Rtt(s.pingSentTime, now) == s.latencyMs
    ensures UpdateLatency(s, now).latencyMs == s.latencyMs
  {
  }

  // ---------------------------------------------------------------------
  // Receive state machine
  // ---------------------------------------------------------------------

  datatype RecvState = AwaitHeader | AwaitPayload | AwaitCrc

  /** What one recv() call gave: bytes (none when the peer closed), no data yet, or an error. */
  datatype RecvResult = Got(chunk: bytes) | WouldBlock | Failed

  /**
   * The CRC check of pt_recv_process_message: the CRC of the header,
   * continued over the payload when there is one, against the trailer read
   * high byte first. It accepts exactly when the trailer is the CRC of
   * header and payload together.
   */
  function FrameCrcOk(header: bytes, payload: bytes, trailer: bytes): (r: bool)
    requires |trailer| == Protocol.CRC_SIZE
    ensures r <==> Protocol.Crc16(header + payload) as int == Protocol.FromBe16(trailer[0], trailer[1])
    ensures r <==> trailer == Protocol.CrcBytes(Protocol.Crc16(header + payload))
  {
    var expected := Protocol.Crc16(header);
    var expected' := if |payload| > 0 then Protocol.Crc16Update(expected, payload) else expected;
    CrcContinues(header, payload);
    TrailerMatches(Protocol.Crc16(header + payload), trailer);
    expected' as int == Protocol.FromBe16(trailer[0], trailer[1])
  }

  /** Continuing the header's CRC over the payload, skipped for an empty one, is the CRC of both. */
  lemma CrcContinues(header: bytes, payload: bytes)
    ensures (if |payload| > 0 then Protocol.Crc16Update(Protocol.Crc16(header), payload) else Protocol.Crc16(header))
            == Protocol.Crc16(header + payload)
  {
    Protocol.Crc16Composes(header, payload);
    if |payload| == 0 {
      assert header + payload == header;
    }
  }

  /** Reading the trailer high byte first gives `c` exactly when the trailer is `c`'s two bytes. */
  lemma TrailerMatches(c: bv16, trailer: bytes)
    requires |trailer| == Protocol.CRC_SIZE
    ensures c as int == Protocol.FromBe16(trailer[0], trailer[1]) <==> trailer == Protocol.CrcBytes(c)
  {
    Protocol.Be16RoundTrip(c as int);
    Protocol.FromBe16RoundTrip(trailer[0], trailer[1]);
    assert trailer == [trailer[0], trailer[1]];
  }

  /**
   * The receive buffer of one peer: the phase, the bytes the phase needs
   * and has, the three fixed buffers, and the decoded header.
   */
  class RecvBuffer {
    var state: RecvState
    var needed: int
    var received: int
    var header: array<byte>
    var payload: array<byte>
    var crc: array<byte>
    var hdr: Protocol.MessageHeader

    /** Each phase needs what its buffer holds; a payload phase needs exactly the header's length. */
    predicate Valid()
      reads this
    {
      && header.Length == Protocol.MESSAGE_HEADER_SIZE && payload.Length == MAX_MESSAGE_SIZE
      && crc.Length == Protocol.CRC_SIZE
      && header != payload && header != crc && payload != crc
      && 0 <= received <= needed
      && (state == AwaitHeader ==> needed == Protocol.MESSAGE_HEADER_SIZE)
      && (state == AwaitPayload ==> 0 < needed == hdr.payloadLen <= MAX_MESSAGE_SIZE)
      && (state == AwaitCrc ==> needed == Protocol.CRC_SIZE && hdr.payloadLen <= MAX_MESSAGE_SIZE)
    }

    /** A zeroed buffer, waiting for a header. */
    constructor ()
      ensures Valid() && state == AwaitHeader && received == 0
      ensures fresh(header) && fresh(payload) && fresh(crc)
    {
      state := AwaitHeader;
      needed := Protocol.MESSAGE_HEADER_SIZE;
      received := 0;
      header := new byte[Protocol.MESSAGE_HEADER_SIZE](_ => 0);
      payload := new byte[MAX_MESSAGE_SIZE](_ => 0);
      crc := new byte[Protocol.CRC_SIZE](_ => 0);
      hdr := Protocol.MessageHeader(0, 0, 0, 0, 0);
    }

    /** pt_recv_reset: back to waiting for 10 header bytes, none received. */
    method Reset()
      requires Valid()
      modifies this
      ensures Valid() && state == AwaitHeader && needed == Protocol.MESSAGE_HEADER_SIZE && received == 0
      ensures header == old(header) && payload == old(payload) && crc == old(crc) && hdr == old(hdr)
    {
      state := AwaitHeader;
      needed := Protocol.MESSAGE_HEADER_SIZE;
      received := 0;
    }

    /** The recv() into `a` at the current offset: the chunk lands at `a[received..]`. */
    method Store(a: array<byte>, chunk: bytes)
      requires received >= 0 && received + |chunk| <= a.Length
      modifies a
      ensures a[..] == old(a[..received]) + chunk + old(a[received + |chunk|..])
    {
      forall i | 0 <= i < |chunk| {
        a[received + i] := chunk[i];
      }
      assert a[..] == old(a[..received]) + chunk + old(a[received + |chunk|..]);
    }

    /**
     * pt_recv_header: no data leaves everything as it was (0); a recv
     * error or a closed connection is -1. Otherwise the bytes are added;
     * once all 10 are in, a header that fails to decode or announces more
     * than 8192 bytes is -1, and a good one moves to the payload phase
     * (or straight to the CRC phase for an empty payload) and gives 1.
     */
    method RecvHeader(res: RecvResult) returns (r: int)
      requires Valid() && state == AwaitHeader
      requires res.Got? ==> |res.chunk| <= needed - received
      modifies this, header
      ensures Valid() && header == old(header) && payload == old(payload) && crc == old(crc)
      ensures r in {-1, 0, 1}
      ensures (res.WouldBlock? || res.Failed? || (res.Got? && |res.chunk| == 0)) ==>
        r == (if res.WouldBlock? then 0 else -1) && unchanged(this) && unchanged(header)
      ensures res.Got? && |res.chunk| > 0 ==>
        var got := old(received) + |res.chunk|;
        && header[..] == old(header[..received]) + res.chunk + old(header[got..])
        && (got < old(needed) ==> r == 0 && state == AwaitHeader && received == got)
        && (got == old(needed) ==>
              var d := Protocol.MessageDecodeHeader(header[..]);
              && (d.Err? || d.value.payloadLen > MAX_MESSAGE_SIZE ==> r == -1)
              && (d.Ok? && d.value.payloadLen <= MAX_MESSAGE_SIZE ==>
                    && r == 1 && hdr == d.value && received == 0
                    && (d.value.payloadLen > 0 ==> state == AwaitPayload && needed == d.value.payloadLen)
                    && (d.value.payloadLen == 0 ==> state == AwaitCrc && needed == Protocol.CRC_SIZE)))
    {
      if !res.Got? {
        return if res.WouldBlock? then 0 else -1;
      }
      if |res.chunk| == 0 {
        return -1;
      }
      Store(header, res.chunk);
      received := received + |res.chunk|;
      if received < needed {
        return 0;
      }
      var d := Protocol.MessageDecodeHeader(header[..]);
      if d.Err? || d.value.payloadLen > MAX_MESSAGE_SIZE {
        return -1;
      }
      hdr := d.value;
      if hdr.payloadLen > 0 {
        state := AwaitPayload;
        needed := hdr.payloadLen;
      } else {
        state := AwaitCrc;
        needed := Protocol.CRC_SIZE;
      }
      received := 0;
      r := 1;
    }

    /** pt_recv_payload: as for the header; a complete payload moves to the CRC phase and gives 1. */
    method RecvPayload(res: RecvResult) returns (r: int)
      requires Valid() && state == AwaitPayload
      requires res.Got? ==> |res.chunk| <= needed - received
      modifies this, payload
      ensures Valid() && header == old(header) && payload == old(payload) && crc == old(crc) && hdr == old(hdr)
      ensures r in {-1, 0, 1}
      ensures (res.WouldBlock? || res.Failed? || (res.Got? && |res.chunk| == 0)) ==>
        r == (if res.WouldBlock? then 0 else -1) && unchanged(this) && unchanged(payload)
      ensures res.Got? && |res.chunk| > 0 ==>
        var got := old(received) + |res.chunk|;
        && payload[..] == old(payload[..received]) + res.chunk + old(payload[got..])
        && (got < old(needed) ==> r == 0 && state == AwaitPayload && received == got)
        && (got == old(needed) ==> r == 1 && state == AwaitCrc && needed == Protocol.CRC_SIZE && received == 0)
    {
      if !res.Got? {
        return if res.WouldBlock? then 0 else -1;
      }
      if |res.chunk| == 0 {
        return -1;
      }
      Store(payload, res.chunk);
      received := received + |res.chunk|;
      if received < needed {
        return 0;
      }
      state := AwaitCrc;
      needed := Protocol.CRC_SIZE;
      received := 0;
      r := 1;
    }

    /** pt_recv_crc: as for the header; both trailer bytes in gives 1 and the phase stays. */
    method RecvCrc(res: RecvResult) returns (r: int)
      requires Valid() && state == AwaitCrc
      requires res.Got? ==> |res.chunk| <= needed - received
      modifies this, crc
      ensures Valid() && header == old(header) && payload == old(payload) && crc == old(crc) && hdr == old(hdr)
      ensures state == AwaitCrc && needed == old(needed)
      ensures r in {-1, 0, 1}
      ensures (res.WouldBlock? || res.Failed? || (res.Got? && |res.chunk| == 0)) ==>
        r == (if res.WouldBlock? then 0 else -1) && unchanged(this) && unchanged(crc)
      ensures res.Got? && |res.chunk| > 0 ==>
        var got := old(received) + |res.chunk|;
        && crc[..] == old(crc[..received]) + res.chunk + old(crc[got..])
        && received == got && (r == 1 <==> got == old(needed)) && (r != 1 ==> r == 0)
    {
      if !res.Got? {
        return if res.WouldBlock? then 0 else -1;
      }
      if |res.chunk| == 0 {
        return -1;
      }
      Store(crc, res.chunk);
      received := received + |res.chunk|;
      r := if received >= needed then 1 else 0;
    }

    /**
     * The CRC check, byte count and disconnect test of
     * pt_recv_process_message: a frame whose trailer does not match is -1
     * and counts nothing; one that matches counts its size (header, payload
     * and trailer, 0 when nothing is counted) and is -1 when it is a
     * DISCONNECT, which tells the caller to close the connection, and 0
     * otherwise.
     */
    method ProcessMessage() returns (r: int, frameBytes: int)
      requires Valid() && state == AwaitCrc
      ensures r == 0 || r == -1
      ensures r == 0 <==> FrameCrcOk(header[..], payload[..hdr.payloadLen], crc[..]) && hdr.mtype != Protocol.MSG_TYPE_DISCONNECT
      ensures hdr.mtype == Protocol.MSG_TYPE_DISCONNECT ==> r == -1
      ensures frameBytes == if FrameCrcOk(header[..], payload[..hdr.payloadLen], crc[..])
                            then Protocol.MESSAGE_HEADER_SIZE + hdr.payloadLen + Protocol.CRC_SIZE else 0
    {
      var ok := FrameCrcOk(header[..], payload[..hdr.payloadLen], crc[..]);
      if !ok {
        return -1, 0;
      }
      frameBytes := Protocol.MESSAGE_HEADER_SIZE + hdr.payloadLen + Protocol.CRC_SIZE;
      if hdr.mtype == Protocol.MSG_TYPE_DISCONNECT {
        return -1, frameBytes;
      }
      r := 0;
    }
  }

  /** A fresh header phase fed the whole header of `h`: it completes into the next phase. */
  method FeedHeader(buf: RecvBuffer, h: Protocol.MessageHeader) returns (r: int)
    requires buf.Valid() && buf.state == AwaitHeader && buf.received == 0
    requires h.version == Protocol.PROTOCOL_VERSION && Protocol.ValidMessageType(h.mtype)
    requires h.payloadLen <= MAX_MESSAGE_SIZE
    modifies buf, buf.header
    ensures r == 1 && buf.Valid() && buf.hdr == h && buf.received == 0
    ensures buf.header[..] == Protocol.MessageHeaderWire(h)
    ensures buf.state == (if h.payloadLen > 0 then AwaitPayload else AwaitCrc)
    ensures buf.header == old(buf.header) && buf.payload == old(buf.payload) && buf.crc == old(buf.crc)
  {
    var wire := Protocol.MessageHeaderWire(h);
    r := buf.RecvHeader(Got(wire));
    assert buf.header[..] == wire;
    Protocol.MessageHeaderRoundTrip(h, []);
    assert wire + [] == wire;
  }

  /** A payload phase fed the whole payload: it completes into the CRC phase. */
  method FeedPayload(buf: RecvBuffer, data: bytes) returns (r: int)
    requires buf.Valid() && buf.state == AwaitPayload && buf.received == 0 && |data| == buf.needed
    modifies buf, buf.payload
    ensures r == 1 && buf.Valid() && buf.state == AwaitCrc && buf.received == 0 && buf.hdr == old(buf.hdr)
    ensures buf.payload[..|data|] == data
    ensures buf.header == old(buf.header) && buf.payload == old(buf.payload) && buf.crc == old(buf.crc)
    ensures unchanged(buf.header)
  {
    r := buf.RecvPayload(Got(data));
  }

  /** A CRC phase fed both trailer bytes: it completes with the trailer stored. */
  method FeedCrc(buf: RecvBuffer, trailer: bytes) returns (r: int)
    requires buf.Valid() && buf.state == AwaitCrc && buf.received == 0 && |trailer| == Protocol.CRC_SIZE
    modifies buf, buf.crc
    ensures r == 1 && buf.Valid() && buf.state == AwaitCrc && buf.hdr == old(buf.hdr)
    ensures buf.crc[..] == trailer
    ensures buf.header == old(buf.header) && buf.payload == old(buf.payload) && buf.crc == old(buf.crc)
    ensures unchanged(buf.header) && unchanged(buf.payload)
  {
    r := buf.RecvCrc(Got(trailer));
  }

  /**
   * A complete, well-formed frame delivered phase by phase in whole reads:
   * every phase completes, the frame is counted with its full size, and it
   * is accepted unless it is a DISCONNECT.
   */
  method ReceiveFrame(buf: RecvBuffer, h: Protocol.MessageHeader, data: bytes)
    returns (rHeader: int, rPayload: int, rCrc: int, rProcess: int, frameBytes: int)
    requires buf.Valid()
    requires h.version == Protocol.PROTOCOL_VERSION && Protocol.ValidMessageType(h.mtype)
    requires |data| == h.payloadLen <= MAX_MESSAGE_SIZE
    modifies buf, buf.header, buf.payload, buf.crc
    ensures rHeader == 1 && rPayload == 1 && rCrc == 1
    ensures rProcess == if h.mtype == Protocol.MSG_TYPE_DISCONNECT then -1 else 0
    ensures frameBytes == Protocol.MESSAGE_HEADER_SIZE + |data| + Protocol.CRC_SIZE
  {
    var trailer := Protocol.CrcBytes(Protocol.Crc16(Protocol.MessageHeaderWire(h) + data));
    buf.Reset();
    rHeader := FeedHeader(buf, h);
    rPayload := 1;
    if |data| > 0 {
      rPayload := FeedPayload(buf, data);
    }
    assert buf.payload[..|data|] == data;
    rCrc := FeedCrc(buf, trailer);
    rProcess, frameBytes := buf.ProcessMessage();
  }

  // ---------------------------------------------------------------------
  // Global statistics
  // ---------------------------------------------------------------------

  /** Slots in any state but UNUSED. */
  function CountUsed(s: seq<Peer.Peer>): (r: nat)
    ensures r <= |s|
  {
    if |s| == 0 then 0 else CountUsed(s[..|s| - 1]) + (if s[|s| - 1].state != Peer.UNUSED then 1 else 0)
  }

  /** Slots in the CONNECTED state. */
  function CountConnected(s: seq<Peer.Peer>): (r: nat)
  {
    if |s| == 0 then 0 else CountConnected(s[..|s| - 1]) + (if s[|s| - 1].state == Peer.CONNECTED then 1 else 0)
  }

  /** Every connected slot is a used slot. */
  lemma {:induction false} ConnectedAreUsed(s: seq<Peer.Peer>)
    ensures CountConnected(s) <= CountUsed(s)
  {
    if |s| > 0 {
      ConnectedAreUsed(s[..|s| - 1]);
    }
  }

  /** When the magic numbers mark exactly the used slots, the used slots are the live ones. */
  lemma {:induction false} UsedAreLive(s: seq<Peer.Peer>)
    requires forall i :: 0 <= i < |s| ==> (s[i].magicOk <==> s[i].state != Peer.UNUSED)
    ensures CountUsed(s) == Peer.CountLive(s)
  {
    if |s| > 0 {
      UsedAreLive(s[..|s| - 1]);
    }
  }

  /**
   * The peer counts of PeerTalk_GetGlobalStats: INVALID_STATE for a bad
   * context; otherwise the used slots as peers discovered and the
   * connected ones as peers connected (also reported as active streams).
   * For a consistent table the discovered count is the table's peer count.
   */
  method GlobalPeerCounts(table: Peer.PeerTable) returns (r: int, discovered: int, connected: int)
    requires table.Valid()
    ensures !table.ctxOk ==> r == ERR_INVALID_STATE
    ensures table.ctxOk ==>
      r == PT_OK && discovered == CountUsed(table.peers) && connected == CountConnected(table.peers)
    ensures 0 <= connected <= discovered <= SLOTS
    ensures table.ctxOk && table.Counted() ==> discovered == table.peerCount
  {
    discovered, connected := 0, 0;
    if !table.ctxOk {
      return ERR_INVALID_STATE, discovered, connected;
    }
    var i := 0;
    while i < table.maxPeers
      invariant 0 <= i <= |table.peers|
      invariant discovered == CountUsed(table.peers[..i]) && connected == CountConnected(table.peers[..i])
    {
      assert table.peers[..i + 1][..i] == table.peers[..i];
      if table.peers[i].state != Peer.UNUSED {
        discovered := discovered + 1;
        if table.peers[i].state == Peer.CONNECTED {
          connected := connected + 1;
        }
      }
      i := i + 1;
    }
    assert table.peers[..i] == table.peers;
    ConnectedAreUsed(table.peers);
    if table.Counted() {
      UsedAreLive(table.peers);
    }
    r := PT_OK;
  }
}
