// The streaming API (src/core/stream.c): one outgoing stream per peer
// that the poll loop sends chunk by chunk, bypassing the message queue.
//
// The per-peer stream state is a class updated in place. The caller's
// buffer becomes the stream's `data`; the completion callback is an
// output of the poll (`Completion`, present only when a callback was
// registered) and the platform send function's return is an input.
module Stream {
  import opened PtTypes
  import opened PtErrors
  import Peer

  /** The chunk used when the peer has no adaptive chunk size. */
  const DEFAULT_CHUNK: int := 1024

  /** One call of the completion callback: peer, bytes sent so far, status. */
  datatype Completion = Completion(peerId: uint16, bytesSent: int, status: int)

  class PeerStream {
    var active: bool
    var cancelled: bool
    var data: bytes
    var bytesSent: int
    var hasCallback: bool

    /**
     * The stream never runs past its data, and an active stream still has
     * bytes to send (completion clears `active`).
     */
    predicate Valid()
      reads this
    {
      0 <= bytesSent <= |data| <= MAX_STREAM_SIZE && (active ==> bytesSent < |data|)
    }

    /** A zero-filled stream, as the peer table allocates it. */
    constructor ()
      ensures Valid() && !active && !cancelled && data == [] && bytesSent == 0 && !hasCallback
    {
      active, cancelled, data, bytesSent, hasCallback := false, false, [], 0, false;
    }

    /** The callback call for an outcome, when a callback is registered. */
    function Notify(peerId: uint16, status: int): (c: Option<Completion>)
      reads this
      ensures c.Some? <==> hasCallback
      ensures c.Some? ==> c.value.bytesSent == bytesSent && c.value.status == status && c.value.peerId == peerId
    {
      if hasCallback then Some(Completion(peerId, bytesSent, status)) else None
    }

    /**
     * pt_stream_poll: nothing for an idle stream; a cancelled stream ends
     * with CANCELLED; otherwise the next chunk (the peer's chunk size, 1024
     * when unset, at most what remains) goes to the send function. Its
     * WOULD_BLOCK leaves everything for the next poll, another negative
     * result ends the stream with that error, and success advances the
     * stream, ending it with OK once every byte is sent.
     */
    method Poll(peerId: uint16, effectiveChunk: uint32, sendResult: int)
      returns (r: int, sent: Option<bytes>, done: Option<Completion>)
      requires Valid()
      modifies this
      ensures Valid()
      ensures data == old(data) && cancelled == old(cancelled) && hasCallback == old(hasCallback)
      ensures !old(active) ==> r == 0 && sent.None? && done.None? && unchanged(this)
      ensures old(active) && old(cancelled) ==>
        r == 0 && sent.None? && !active && bytesSent == old(bytesSent) && done == Notify(peerId, ERR_CANCELLED)
      ensures old(active) && !old(cancelled) ==>
        var chunk := Min(if effectiveChunk == 0 then DEFAULT_CHUNK else effectiveChunk as int, |data| - old(bytesSent));
        && 0 < chunk
        && sent == Some(data[old(bytesSent)..old(bytesSent) + chunk])
        && (sendResult == ERR_WOULD_BLOCK ==> r == 0 && done.None? && unchanged(this))
        && (sendResult != ERR_WOULD_BLOCK && sendResult < 0 ==>
              r == sendResult && !active && bytesSent == old(bytesSent) && done == Notify(peerId, sendResult))
        && (sendResult >= 0 ==>
              && r == 0 && bytesSent == old(bytesSent) + chunk
              && (active <==> bytesSent < |data|)
              && (active ==> done.None?)
              && (!active ==> bytesSent == |data| && done == Notify(peerId, PT_OK)))
    {
      r, sent, done := 0, None, None;
      if !active {
        return;
      }
      if cancelled {
        active := false;
        done := Notify(peerId, ERR_CANCELLED);
        return;
      }
      var chunk := if effectiveChunk == 0 then DEFAULT_CHUNK else effectiveChunk as int;
      var remaining := |data| - bytesSent;
      if chunk > remaining {
        chunk := remaining;
      }
      sent := Some(data[bytesSent..bytesSent + chunk]);
      if sendResult == ERR_WOULD_BLOCK {
        return;
      }
      if sendResult < 0 {
        active := false;
        done := Notify(peerId, sendResult);
        return sendResult, sent, done;
      }
      bytesSent := bytesSent + chunk;
      if bytesSent >= |data| {
        active := false;
        done := Notify(peerId, PT_OK);
      }
    }
  }

  /**
   * The checks of PeerTalk_StreamSend, in order: context, empty data,
   * size, peer, connection, a stream already running. None when all pass.
   */
  function StreamSendCheck(ctxOk: bool, len: nat, found: bool, connected: bool, active: bool): (r: Option<int>)
    ensures r.None? <==> ctxOk && 0 < len <= MAX_STREAM_SIZE && found && connected && !active
    ensures !ctxOk ==> r == Some(ERR_INVALID_STATE)
    ensures ctxOk && len == 0 ==> r == Some(ERR_INVALID_PARAM)
    ensures ctxOk && len > MAX_STREAM_SIZE ==> r == Some(ERR_MESSAGE_TOO_LARGE)
    ensures ctxOk && 0 < len <= MAX_STREAM_SIZE && !found ==> r == Some(ERR_PEER_NOT_FOUND)
    ensures ctxOk && 0 < len <= MAX_STREAM_SIZE && found && !connected ==> r == Some(ERR_NOT_CONNECTED)
    ensures ctxOk && 0 < len <= MAX_STREAM_SIZE && found && connected && active ==> r == Some(ERR_BUSY)
  {
    if !ctxOk then Some(ERR_INVALID_STATE)
    else if len == 0 then Some(ERR_INVALID_PARAM)
    else if len > MAX_STREAM_SIZE then Some(ERR_MESSAGE_TOO_LARGE)
    else if !found then Some(ERR_PEER_NOT_FOUND)
    else if !connected then Some(ERR_NOT_CONNECTED)
    else if active then Some(ERR_BUSY)
    else None
  }

  /** Whether the peer `peerId` is found and CONNECTED. */
  predicate PeerConnected(table: Peer.PeerTable, peerId: uint16)
    requires table.Valid()
    reads table
  {
    var f := table.FindById(peerId);
    f.Some? && table.peers[f.value].state == Peer.CONNECTED
  }

  /**
   * PeerTalk_StreamSend: after the checks, the stream starts from byte 0,
   * not cancelled, with the caller's data and callback. The stream of the
   * peer `peerId` is passed next to the table.
   */
  method StreamSend(table: Peer.PeerTable, peerId: uint16, data: bytes, hasCallback: bool, stream: PeerStream)
    returns (r: int)
    requires table.Valid() && stream.Valid() && |data| < 0x1_0000_0000
    modifies stream
    ensures var check := StreamSendCheck(table.ctxOk, |data|, table.FindById(peerId).Some?,
                                         PeerConnected(table, peerId), old(stream.active));
            && (check.Some? ==> r == check.value && unchanged(stream))
            && (check.None? ==>
                  && r == PT_OK && stream.active && !stream.cancelled && stream.bytesSent == 0
                  && stream.data == data && stream.hasCallback == hasCallback)
    ensures stream.Valid()
  {
    var found := table.FindById(peerId);
    var check := StreamSendCheck(table.ctxOk, |data|, found.Some?, PeerConnected(table, peerId), stream.active);
    if check.Some? {
      return check.value;
    }
    stream.data := data;
    stream.bytesSent := 0;
    stream.hasCallback := hasCallback;
    stream.cancelled := false;
    stream.active := true;
    r := PT_OK;
  }

  /** PeerTalk_StreamCancel: marks an active stream cancelled; the next poll ends it. */
  method StreamCancel(table: Peer.PeerTable, peerId: uint16, stream: PeerStream) returns (r: int)
    requires table.Valid() && stream.Valid()
    modifies stream
    ensures stream.Valid()
    ensures !table.ctxOk ==> r == ERR_INVALID_STATE && unchanged(stream)
    ensures table.ctxOk && table.FindById(peerId).None? ==> r == ERR_PEER_NOT_FOUND && unchanged(stream)
    ensures table.FindById(peerId).Some? && !old(stream.active) ==> r == ERR_NOT_FOUND && unchanged(stream)
    ensures table.FindById(peerId).Some? && old(stream.active) ==>
      r == PT_OK && stream.cancelled && stream.active && stream.data == old(stream.data)
      && stream.bytesSent == old(stream.bytesSent) && stream.hasCallback == old(stream.hasCallback)
  {
    if !table.ctxOk {
      return ERR_INVALID_STATE;
    }
    if table.FindById(peerId).None? {
      return ERR_PEER_NOT_FOUND;
    }
    if !stream.active {
      return ERR_NOT_FOUND;
    }
    stream.cancelled := true;
    r := PT_OK;
  }

  /** PeerTalk_StreamActive: 1 exactly when the context and peer are valid and a stream runs. */
  function StreamActive(table: Peer.PeerTable, peerId: uint16, stream: PeerStream): (r: int)
    requires table.Valid()
    reads table, stream
    ensures r == 1 <==> table.FindById(peerId).Some? && stream.active
    ensures r == 0 || r == 1
  {
    if !table.ctxOk then 0
    else if table.FindById(peerId).None? then 0
    else if stream.active then 1 else 0
  }

  /**
   * A stream started by StreamSend and polled with sends that all
   * succeed ends after a poll whose chunks, in order, are the data; the
   * last poll reports OK with every byte sent.
   */
  method StreamToCompletion(stream: PeerStream, peerId: uint16, effectiveChunk: uint32)
    returns (chunks: seq<bytes>, done: Option<Completion>)
    requires stream.Valid() && stream.active && !stream.cancelled && stream.bytesSent == 0
    modifies stream
    ensures !stream.active && stream.bytesSent == |stream.data| && stream.data == old(stream.data)
    ensures Concat(chunks) == stream.data
    ensures done == stream.Notify(peerId, PT_OK)
  {
    chunks, done := [], None;
    while stream.active
      invariant stream.Valid() && stream.data == old(stream.data) && !stream.cancelled
      invariant stream.hasCallback == old(stream.hasCallback)
      invariant Concat(chunks) == stream.data[..stream.bytesSent]
      invariant !stream.active ==> stream.bytesSent == |stream.data| && done == stream.Notify(peerId, PT_OK)
      decreases |stream.data| - stream.bytesSent
    {
      ghost var before := stream.bytesSent;
      var r, sent;
      r, sent, done := stream.Poll(peerId, effectiveChunk, 0);
      ConcatAppend(chunks, sent.value);
      assert stream.data[..stream.bytesSent] == stream.data[..before] + sent.value;
      chunks := chunks + [sent.value];
    }
  }

  function Concat(bs: seq<bytes>): (r: bytes)
  {
    if |bs| == 0 then [] else Concat(bs[..|bs| - 1]) + bs[|bs| - 1]
  }

  lemma ConcatAppend(bs: seq<bytes>, b: bytes)
    ensures Concat(bs + [b]) == Concat(bs) + b
  {
    assert (bs + [b])[..|bs|] == bs;
  }
}
