// The send path (src/core/send.c): batching of small messages into one
// framed packet, the drains the poll loop runs over the send queue and
// the direct buffer, and PeerTalk_SendEx with its validation, two-tier
// routing, backpressure and fragmentation.
//
// The platform send callbacks are inputs: `sendOk(k)` is what the k-th
// call of a batch callback returns, `sendOk` of the direct drain what its
// single call returns. The per-peer send queue and direct buffer are
// passed next to the peer table instead of being reached through it.
module Send {
  import opened PtTypes
  import opened PtErrors
  import opened Protocol
  import Queue
  import DirectBuffer
  import Peer

  const BATCH_MAX_SIZE: int := 1400
  const BATCH_HEADER: int := 4
  /** The message flag a batch header carries. */
  const MSG_FLAG_BATCH: byte := 0x08

  // ---------------------------------------------------------------------
  // Batch format
  // ---------------------------------------------------------------------

  /** One batch entry: the length high byte first, two reserved zero bytes, the data. */
  function Frame(m: bytes): (r: bytes)
    requires |m| < 0x1_0000
    ensures |r| == BATCH_HEADER + |m| && r[BATCH_HEADER..] == m
  {
    Be16(|m|) + [0, 0] + m
  }

  /** A batch payload holding `ms` in order. */
  function Frames(ms: seq<bytes>): (r: bytes)
    requires forall i :: 0 <= i < |ms| ==> |ms[i]| < 0x1_0000
  {
    if |ms| == 0 then [] else Frame(ms[0]) + Frames(ms[1..])
  }

  /** Reading a batch payload back into its messages; None for a malformed one. */
  function Unbatch(b: bytes): (r: Option<seq<bytes>>)
    decreases |b|
  {
    if |b| == 0 then Some([])
    else if |b| < BATCH_HEADER then None
    else
      var len := FromBe16(b[0], b[1]);
      if |b| < BATCH_HEADER + len then None
      else
        match Unbatch(b[BATCH_HEADER + len..])
        case None => None
        case Some(rest) => Some([b[BATCH_HEADER..BATCH_HEADER + len]] + rest)
  }

  /** Reading back the payload of a batch gives exactly the messages added, in order. */
  lemma {:induction false} UnbatchFrames(ms: seq<bytes>)
    requires forall i :: 0 <= i < |ms| ==> |ms[i]| < 0x1_0000
    ensures Unbatch(Frames(ms)) == Some(ms)
  {
    if |ms| > 0 {
      var f := Frame(ms[0]);
      var b := f + Frames(ms[1..]);
      Be16RoundTrip(|ms[0]|);
      assert b[0] == f[0] && b[1] == f[1];
      assert b[BATCH_HEADER + |ms[0]|..] == Frames(ms[1..]);
      assert b[BATCH_HEADER..BATCH_HEADER + |ms[0]|] == ms[0];
      UnbatchFrames(ms[1..]);
      assert [ms[0]] + ms[1..] == ms;
    }
  }

  lemma {:induction false} FramesAppend(ms: seq<bytes>, m: bytes)
    requires forall i :: 0 <= i < |ms| ==> |ms[i]| < 0x1_0000
    requires |m| < 0x1_0000
    ensures Frames(ms + [m]) == Frames(ms) + Frame(m)
  {
    if |ms| == 0 {
      assert ms + [m] == [m];
    } else {
      assert (ms + [m])[1..] == ms[1..] + [m];
      FramesAppend(ms[1..], m);
    }
  }

  /** The messages that fit into an empty batch; a drain drops the others. */
  function Kept(ms: seq<bytes>): (r: seq<bytes>)
    ensures forall i :: 0 <= i < |r| ==> BATCH_HEADER + |r[i]| <= BATCH_MAX_SIZE
    ensures |r| <= |ms|
  {
    if |ms| == 0 then []
    else Kept(ms[..|ms| - 1])
         + (if BATCH_HEADER + |ms[|ms| - 1]| <= BATCH_MAX_SIZE then [ms[|ms| - 1]] else [])
  }

  /** The payloads handed to the send callback, one after another. */
  function Flatten(bs: seq<bytes>): (r: bytes)
  {
    if |bs| == 0 then [] else Flatten(bs[..|bs| - 1]) + bs[|bs| - 1]
  }

  /** How many of the first `n` callback calls returned success. */
  function NumOk(sendOk: nat -> bool, n: nat): (r: nat)
    ensures r <= n
  {
    if n == 0 then 0 else NumOk(sendOk, n - 1) + (if sendOk(n - 1) then 1 else 0)
  }

  // ---------------------------------------------------------------------
  // pt_batch
  // ---------------------------------------------------------------------

  class Batch {
    var used: int
    var count: int
    const buffer: array<byte>

    /** The entries fit the 1400-byte buffer; every entry takes at least 4 bytes. */
    predicate Valid()
      reads this
    {
      buffer.Length == BATCH_MAX_SIZE && 0 <= used <= BATCH_MAX_SIZE
      && 0 <= count && BATCH_HEADER * count <= used && (count == 0 <==> used == 0)
    }

    /** The batch payload built so far. */
    function Contents(): (r: bytes)
      requires Valid()
      reads this, buffer
      ensures |r| == used
    {
      buffer[..used]
    }

    constructor ()
      ensures Valid() && used == 0 && count == 0 && fresh(buffer)
    {
      used := 0;
      count := 0;
      buffer := new byte[BATCH_MAX_SIZE];
    }

    /** pt_batch_init. */
    method Init()
      requires buffer.Length == BATCH_MAX_SIZE
      modifies this
      ensures Valid() && used == 0 && count == 0 && Contents() == []
    {
      used := 0;
      count := 0;
    }

    /**
     * pt_batch_add: -1 with nothing changed when the entry would pass 1400
     * bytes; otherwise the entry is appended and counted.
     */
    method Add(data: bytes) returns (r: int)
      requires Valid()
      modifies this, buffer
      ensures Valid()
      ensures r == (if old(used) + BATCH_HEADER + |data| > BATCH_MAX_SIZE then -1 else 0)
      ensures r != 0 ==> unchanged(this) && unchanged(buffer)
      ensures r == 0 ==> Contents() == old(Contents()) + Frame(data) && count == old(count) + 1
    {
      if used + BATCH_HEADER + |data| > BATCH_MAX_SIZE {
        return -1;
      }
      WriteBytes(buffer, used, Frame(data));
      used := used + BATCH_HEADER + |data|;
      count := count + 1;
      r := 0;
    }

    /**
     * pt_batch_prepare: nothing for an empty batch; otherwise the DATA
     * header with the BATCH flag, the peer's send sequence (which then
     * advances as a uint8_t) and the payload length.
     */
    function Prepare(sendSeq: byte): (r: (int, byte, MessageHeader))
      requires Valid()
      reads this
      ensures count == 0 ==> r.0 == 0 && r.1 == sendSeq
      ensures count > 0 ==> r.0 == used > 0 && r.1 == (sendSeq + 1) % 256
      ensures count > 0 ==> r.2 == MessageHeader(PROTOCOL_VERSION, MSG_TYPE_DATA, MSG_FLAG_BATCH, sendSeq, used)
    {
      if count == 0 then (0, sendSeq, MessageHeader(0, 0, 0, 0, 0))
      else (used, U8(sendSeq + 1), MessageHeader(PROTOCOL_VERSION, MSG_TYPE_DATA, MSG_FLAG_BATCH, sendSeq, used))
    }
  }

  /**
   * A prepared batch on the wire: its header decodes to a DATA message
   * with the BATCH flag whose length is the payload's, and the payload
   * reads back as the messages added.
   */
  lemma PreparedBatchReadsBack(ms: seq<bytes>, sendSeq: byte)
    requires forall i :: 0 <= i < |ms| ==> |ms[i]| < 0x1_0000
    requires 0 < |Frames(ms)| <= BATCH_MAX_SIZE
    ensures var h := MessageHeader(PROTOCOL_VERSION, MSG_TYPE_DATA, MSG_FLAG_BATCH, sendSeq, |Frames(ms)|);
            MessageDecodeHeader(MessageHeaderWire(h) + Frames(ms)) == Ok(h)
    ensures Unbatch(Frames(ms)) == Some(ms)
  {
    var h := MessageHeader(PROTOCOL_VERSION, MSG_TYPE_DATA, MSG_FLAG_BATCH, sendSeq, |Frames(ms)|);
    MessageHeaderRoundTrip(h, Frames(ms));
    UnbatchFrames(ms);
  }

  // ---------------------------------------------------------------------
  // Drains
  // ---------------------------------------------------------------------

  lemma FlattenAppend(bs: seq<bytes>, b: bytes)
    ensures Flatten(bs + [b]) == Flatten(bs) + b
  {
    assert (bs + [b])[..|bs|] == bs;
  }

  lemma KeptAppend(ms: seq<bytes>, m: bytes)
    ensures Kept(ms + [m]) == Kept(ms) + (if BATCH_HEADER + |m| <= BATCH_MAX_SIZE then [m] else [])
  {
    assert (ms + [m])[..|ms|] == ms;
  }

  /**
   * What a drain has done so far: the batches sent, then the batch being
   * built, are the framed messages popped minus the dropped ones; every
   * batch sent fits 1400 bytes; `r` counts the successful sends.
   */
  ghost predicate DrainInv(sent: seq<bytes>, building: bytes, popped: seq<bytes>, r: int, sendOk: nat -> bool)
  {
    Flatten(sent) + building == Frames(Kept(popped))
    && (forall i :: 0 <= i < |sent| ==> |sent[i]| <= BATCH_MAX_SIZE)
    && r == NumOk(sendOk, |sent|)
  }

  /** A message that fits an empty batch extends the batch being built. */
  lemma DrainInvAdd(sent: seq<bytes>, building: bytes, popped: seq<bytes>, r: int, sendOk: nat -> bool, msg: bytes)
    requires DrainInv(sent, building, popped, r, sendOk)
    requires BATCH_HEADER + |msg| <= BATCH_MAX_SIZE
    ensures DrainInv(sent, building + Frame(msg), popped + [msg], r, sendOk)
  {
    KeptAppend(popped, msg);
    FramesAppend(Kept(popped), msg);
  }

  /** A message too large for an empty batch is dropped: nothing else changes. */
  lemma DrainInvDrop(sent: seq<bytes>, building: bytes, popped: seq<bytes>, r: int, sendOk: nat -> bool, msg: bytes)
    requires DrainInv(sent, building, popped, r, sendOk)
    requires BATCH_HEADER + |msg| > BATCH_MAX_SIZE
    ensures DrainInv(sent, building, popped + [msg], r, sendOk)
  {
    KeptAppend(popped, msg);
    assert Kept(popped) + [] == Kept(popped);
  }

  /** Sending the batch being built moves it to the batches sent and counts the call. */
  lemma DrainInvFlush(sent: seq<bytes>, building: bytes, popped: seq<bytes>, r: int, sendOk: nat -> bool)
    requires DrainInv(sent, building, popped, r, sendOk)
    requires |building| <= BATCH_MAX_SIZE
    ensures DrainInv(sent + [building], [], popped, if sendOk(|sent|) then r + 1 else r, sendOk)
  {
    FlattenAppend(sent, building);
    assert (sent + [building])[..|sent|] == sent;
  }

  /**
   * One message of the drain loop: add it to the batch; when it does not
   * fit, send the batch, start a fresh one and add it there, dropping it
   * if it does not fit an empty batch either.
   */
  method BatchMessage(batch: Batch, msg: bytes, sendOk: nat -> bool, sent: seq<bytes>, r: int, ghost popped: seq<bytes>)
    returns (sent': seq<bytes>, r': int)
    requires batch.Valid() && DrainInv(sent, batch.Contents(), popped, r, sendOk)
    modifies batch, batch.buffer
    ensures batch.Valid() && DrainInv(sent', batch.Contents(), popped + [msg], r', sendOk)
  {
    var c0 := batch.Contents();
    var added := batch.Add(msg);
    if added == 0 {
      DrainInvAdd(sent, c0, popped, r, sendOk, msg);
      return sent, r;
    }
    DrainInvFlush(sent, c0, popped, r, sendOk);
    sent' := sent + [c0];
    r' := if sendOk(|sent|) then r + 1 else r;
    batch.Init();
    added := batch.Add(msg);
    if added == 0 {
      DrainInvAdd(sent', [], popped, r', sendOk, msg);
      assert [] + Frame(msg) == Frame(msg);
    } else {
      DrainInvDrop(sent', [], popped, r', sendOk, msg);
    }
  }

  /**
   * The commit of the drain loop, after a direct pop that named the head of
   * the highest non-empty level: that message leaves the front of the
   * priority order and the lists lose it.
   */
  method CommitNext(q: Queue.MessageQueue, ghost lists: seq<seq<int>>) returns (ghost lists': seq<seq<int>>)
    requires q.ExtOk() && Queue.ExtShape(lists, q.ext, q.slots[..]) && q.ring.count > 0
    requires q.pendingPrio == Queue.Highest(q.ext.prioHead) >= 0 && q.pendingSlot == q.ext.prioHead[q.pendingPrio]
    modifies q, q.slots
    ensures q.ExtOk() && q.slots == old(q.slots) && q.ring.count < old(q.ring.count)
    ensures Queue.ExtShape(lists', q.ext, q.slots[..])
    ensures Queue.Order(lists, old(q.slots[..])) == [old(q.slots[q.pendingSlot].data)] + Queue.Order(lists', q.slots[..])
  {
    Queue.PopTakesFirst(lists, q.ext, q.slots[..]);
    Queue.PriorityPopServesTop(lists, q.ext, q.slots[..]);
    lists' := lists[q.pendingPrio := lists[q.pendingPrio][1..]];
    q.Commit();
  }

  /**
   * The direct pop of the drain loop: when it finds nothing, no level
   * holds a message (or the count ran out); otherwise it names the head of
   * the highest non-empty level, ready for `CommitNext`.
   */
  method PopNext(q: Queue.MessageQueue, ghost lists: seq<seq<int>>) returns (pr: int, msg: bytes)
    requires q.ExtOk() && Queue.ExtShape(lists, q.ext, q.slots[..])
    modifies q
    ensures q.ExtOk() && q.ring == old(q.ring) && q.ext == old(q.ext) && q.slots == old(q.slots)
    ensures unchanged(q.slots)
    ensures pr != 0 ==> q.ring.count == 0 || Queue.Order(lists, q.slots[..]) == []
    ensures pr == 0 ==> && q.ring.count > 0
                        && q.pendingPrio == Queue.Highest(q.ext.prioHead) >= 0
                        && q.pendingSlot == q.ext.prioHead[q.pendingPrio]
                        && msg == q.slots[q.pendingSlot].data
  {
    Queue.PriorityPopServesTop(lists, q.ext, q.slots[..]);
    pr, msg := q.PopPriorityDirect();
  }

  /** Concatenation is associative. */
  lemma ConcatAssoc(a: seq<bytes>, b: seq<bytes>, c: seq<bytes>)
    ensures a + b + c == a + (b + c)
  {
  }

  /**
   * One turn of the drain loop: a direct pop, the message into the batch,
   * then the commit; `done` when the pop finds nothing. `lists` are the
   * queue's priority lists; the message taken is the first in their order.
   */
  method DrainStep(q: Queue.MessageQueue, batch: Batch, sendOk: nat -> bool, sent: seq<bytes>, r: int, popped: seq<bytes>,
                   ghost lists: seq<seq<int>>)
    returns (done: bool, sent': seq<bytes>, r': int, popped': seq<bytes>, ghost lists': seq<seq<int>>)
    requires q.ExtOk() && batch.Valid() && DrainInv(sent, batch.Contents(), popped, r, sendOk)
    requires Queue.ExtShape(lists, q.ext, q.slots[..])
    modifies q, q.slots, batch, batch.buffer
    ensures q.ExtOk() && q.slots == old(q.slots)
    ensures batch.Valid() && DrainInv(sent', batch.Contents(), popped', r', sendOk)
    ensures Queue.ExtShape(lists', q.ext, q.slots[..])
    ensures popped' + Queue.Order(lists', q.slots[..]) == popped + Queue.Order(lists, old(q.slots[..]))
    ensures done ==> q.ring.count == 0 || Queue.Order(lists', q.slots[..]) == []
    ensures !done ==> q.ring.count < old(q.ring.count)
  {
    sent', r', popped', lists' := sent, r, popped, lists;
    var pr, msg := PopNext(q, lists);
    if pr != 0 {
      return true, sent', r', popped', lists';
    }
    ghost var order := Queue.Order(lists, q.slots[..]);
    sent', r' := BatchMessage(batch, msg, sendOk, sent, r, popped);
    popped' := popped + [msg];
    lists' := CommitNext(q, lists);
    ConcatAssoc(popped, [msg], Queue.Order(lists', q.slots[..]));
    done := false;
  }

  /**
   * pt_drain_send_queue: pops messages in priority order with the direct
   * pop, commits each one only once it is in a batch (a full batch is
   * sent first), drops a message too large for an empty batch, and sends
   * what is left. The messages popped are the queue's messages in the
   * order the priority pops serve them, and the queue keeps the rest (none
   * unless its count ran out first); the batches sent, one after another,
   * are the framed messages popped minus the dropped ones; the result
   * counts the sends that succeeded.
   */
  method DrainSendQueue(q: Queue.MessageQueue, batch: Batch, sendOk: nat -> bool, ghost lists: seq<seq<int>>)
    returns (r: int, sent: seq<bytes>, popped: seq<bytes>, ghost rest: seq<seq<int>>)
    requires q.ExtOk() && batch.Valid()
    requires Queue.ExtShape(lists, q.ext, q.slots[..])
    modifies q, q.slots, batch, batch.buffer
    ensures q.ExtOk() && batch.Valid()
    ensures Queue.IsEmpty(old(q.ring)) == 1 ==> r == 0 && sent == [] && popped == [] && unchanged(q)
    ensures Queue.ExtShape(rest, q.ext, q.slots[..])
    ensures popped + Queue.Order(rest, q.slots[..]) == Queue.Order(lists, old(q.slots[..]))
    ensures q.ring.count == 0 || Queue.Order(rest, q.slots[..]) == []
    ensures Flatten(sent) == Frames(Kept(popped))
    ensures forall i :: 0 <= i < |sent| ==> |sent[i]| <= BATCH_MAX_SIZE
    ensures r == NumOk(sendOk, |sent|)
  {
    r, sent, popped, rest := 0, [], [], lists;
    if Queue.IsEmpty(q.ring) == 1 {
      return;
    }
    ghost var total := Queue.Order(lists, q.slots[..]);
    batch.Init();
    while true
      invariant q.ExtOk() && q.slots == old(q.slots)
      invariant batch.Valid() && DrainInv(sent, batch.Contents(), popped, r, sendOk)
      invariant Queue.ExtShape(rest, q.ext, q.slots[..])
      invariant popped + Queue.Order(rest, q.slots[..]) == total
      decreases q.ring.count
    {
      var done;
      done, sent, r, popped, rest := DrainStep(q, batch, sendOk, sent, r, popped, rest);
      if done {
        break;
      }
    }
    sent, r := FlushLast(batch, sendOk, sent, r, popped);
  }

  /** The end of the drain: a batch still holding messages is sent. */
  method FlushLast(batch: Batch, sendOk: nat -> bool, sent: seq<bytes>, r: int, ghost popped: seq<bytes>)
    returns (sent': seq<bytes>, r': int)
    requires batch.Valid() && DrainInv(sent, batch.Contents(), popped, r, sendOk)
    ensures Flatten(sent') == Frames(Kept(popped))
    ensures forall i :: 0 <= i < |sent'| ==> |sent'[i]| <= BATCH_MAX_SIZE
    ensures r' == NumOk(sendOk, |sent'|)
  {
    sent', r' := sent, r;
    var last := batch.Contents();
    if batch.count > 0 {
      FlattenAppend(sent, last);
      sent' := sent + [last];
      if sendOk(|sent'| - 1) {
        r' := r + 1;
      }
    } else {
      assert Flatten(sent) + last == Flatten(sent);
    }
  }

  /**
   * pt_drain_direct_buffer: nothing unless a message is QUEUED; otherwise
   * the message is handed to the send callback once, the buffer goes back
   * to IDLE whatever the outcome, and the result is 1 or -1.
   */
  method DrainDirectBuffer(buf: DirectBuffer.Buffer, sendOk: bool) returns (r: int, sent: Option<bytes>)
    requires buf.Valid()
    modifies buf
    ensures r == 0 <==> old(buf.state) != DirectBuffer.Queued
    ensures r == 0 ==> unchanged(buf) && sent.None?
    ensures r != 0 ==>
      buf.state == DirectBuffer.Idle && buf.length == 0 && buf.Valid()
      && sent == Some(old(buf.Contents())) && r == (if sendOk then 1 else -1)
    ensures buf.data == old(buf.data) && buf.capacity == old(buf.capacity)
  {
    if buf.Ready() == 0 {
      return 0, None;
    }
    var m := buf.MarkSending();
    if m != 0 {
      return 0, None;
    }
    sent := Some(buf.Contents());
    buf.Complete();
    r := if sendOk then 1 else -1;
  }

  // ---------------------------------------------------------------------
  // PeerTalk_SendEx
  // ---------------------------------------------------------------------

  /**
   * The fragment header format and flags, which live outside the send
   * path: the header is `headerSize` bytes for every argument, and
   * `msgFlag` is the message flag a queued fragment carries.
   */
  datatype FragmentCodec = FragmentCodec(
    headerSize: nat, msgFlag: bv8, firstFlag: bv8, lastFlag: bv8,
    encode: (uint16, uint16, uint16, bv8) -> bytes)

  ghost predicate CodecOk(c: FragmentCodec)
  {
    forall id, total, offset, flags :: |c.encode(id, total, offset, flags)| == c.headerSize
  }

  /** The context settings SendEx reads. */
  datatype SendConfig = SendConfig(enableFragmentation: bool, directThreshold: uint16, udpAvailable: bool)

  /** The flags of a fragment: FIRST at offset 0, LAST when the rest fits. */
  function FragmentFlags(c: FragmentCodec, offset: int, remaining: int, maxFrag: int): (f: bv8)
    ensures offset == 0 && remaining <= maxFrag ==> f == c.firstFlag | c.lastFlag
  {
    (if offset == 0 then c.firstFlag else 0) | (if remaining <= maxFrag then c.lastFlag else 0)
  }

  /** The payload room of a fragment: the peer maximum less the header, as a uint16_t. */
  function MaxFragment(effMax: uint16, headerSize: nat): (m: uint16)
    ensures headerSize <= effMax ==> m == effMax - headerSize
  {
    U16(effMax as int - headerSize)
  }

  /**
   * What the fragmenting branch of SendEx returns for a message of `len`
   * bytes, given the state and capacity of the peer's direct buffer.
   */
  function FragmentResult(st: DirectBuffer.State, capacity: int, effMax: uint16, headerSize: nat, len: int): (r: int)
  {
    var maxFrag := MaxFragment(effMax, headerSize);
    if maxFrag < 64 then ERR_MESSAGE_TOO_LARGE
    else if st != DirectBuffer.Idle then ERR_WOULD_BLOCK
    else if headerSize + Min(len, maxFrag as int) > capacity then ERR_MESSAGE_TOO_LARGE
    else if len <= maxFrag as int then PT_OK
    else ERR_WOULD_BLOCK
  }

  /**
   * A message SendEx fragments never goes out whole: the first fragment
   * takes the direct buffer, which is still QUEUED when the second one
   * comes, so the call ends with WOULD_BLOCK at best; a retry starts again
   * at offset 0.
   */
  lemma FragmentedSendNeverCompletes(st: DirectBuffer.State, capacity: int, effMax: uint16, headerSize: nat, len: int)
    requires 0 < effMax as int < len && headerSize <= effMax as int
    ensures FragmentResult(st, capacity, effMax, headerSize, len) != PT_OK
    ensures FragmentResult(st, capacity, effMax, headerSize, len) in {ERR_MESSAGE_TOO_LARGE, ERR_WOULD_BLOCK}
  {
  }

  /**
   * pt_send_fragment: the direct buffer must be IDLE and have room for the
   * header and the data; the fragment is then queued with the fragment
   * message flag.
   */
  method SendFragment(buf: DirectBuffer.Buffer, header: bytes, chunk: bytes, priority: byte, msgFlag: bv8)
    returns (r: int)
    requires buf.Valid() && |chunk| > 0
    modifies buf, buf.data
    ensures r == (if old(buf.state) != DirectBuffer.Idle then ERR_WOULD_BLOCK
                  else if |header| + |chunk| > old(buf.capacity) then ERR_MESSAGE_TOO_LARGE
                  else PT_OK)
    ensures r != PT_OK ==> unchanged(buf) && unchanged(buf.data)
    ensures r == PT_OK ==>
      buf.SendShape() && buf.state == DirectBuffer.Queued && buf.Contents() == header + chunk
      && buf.msgFlags == msgFlag && buf.priority == priority
      && buf.capacity == old(buf.capacity) && buf.data == old(buf.data)
  {
    if buf.Available() == 0 {
      return ERR_WOULD_BLOCK;
    }
    if |header| + |chunk| > buf.capacity {
      return ERR_MESSAGE_TOO_LARGE;
    }
    r := buf.Queue(header + chunk, priority);
    if r == PT_OK {
      buf.msgFlags := msgFlag;
    }
  }

  /**
   * The fragmenting branch of PeerTalk_SendEx: splits the message into
   * fragments of at most the peer maximum less the header and hands them
   * to the direct buffer one after another, stopping at the first error.
   */
  method SendFragmented(buf: DirectBuffer.Buffer, codec: FragmentCodec, data: bytes, priority: byte,
                        effMax: uint16, msgId: uint16) returns (r: int)
    requires buf.Valid() && CodecOk(codec) && 0 < |data| <= MAX_MESSAGE_SIZE
    modifies buf, buf.data
    ensures r == FragmentResult(old(buf.state), old(buf.capacity), effMax, codec.headerSize, |data|)
    ensures var maxFrag := MaxFragment(effMax, codec.headerSize);
            var first := Min(|data|, maxFrag as int);
            if maxFrag >= 64 && old(buf.state) == DirectBuffer.Idle && codec.headerSize + first <= old(buf.capacity) then
              && buf.SendShape() && buf.state == DirectBuffer.Queued
              && buf.Contents() == codec.encode(msgId, |data| as uint16, 0, FragmentFlags(codec, 0, |data|, maxFrag as int)) + data[..first]
              && buf.msgFlags == codec.msgFlag && buf.priority == priority
              && buf.capacity == old(buf.capacity) && buf.data == old(buf.data)
            else unchanged(buf) && unchanged(buf.data)
  {
    var maxFrag := MaxFragment(effMax, codec.headerSize) as int;
    if maxFrag < 64 {
      return ERR_MESSAGE_TOO_LARGE;
    }
    ghost var first := Min(|data|, maxFrag);
    ghost var header0 := codec.encode(msgId, |data| as uint16, 0, FragmentFlags(codec, 0, |data|, maxFrag));
    var offset, remaining := 0, |data|;
    while remaining > 0
      invariant 0 <= offset && offset + remaining == |data|
      invariant offset == 0 ==> unchanged(buf) && unchanged(buf.data)
      invariant offset != 0 ==>
        && offset == first && old(buf.state) == DirectBuffer.Idle && codec.headerSize + first <= old(buf.capacity)
        && buf.SendShape() && buf.state == DirectBuffer.Queued && buf.Contents() == header0 + data[..first]
        && buf.msgFlags == codec.msgFlag && buf.priority == priority
        && buf.capacity == old(buf.capacity) && buf.data == old(buf.data)
      decreases remaining
    {
      var fragLen := if remaining > maxFrag then maxFrag else remaining;
      var header := codec.encode(msgId, |data| as uint16, offset as uint16, FragmentFlags(codec, offset, remaining, maxFrag));
      var fr := SendFragment(buf, header, data[offset..offset + fragLen], priority, codec.msgFlag);
      if fr != PT_OK {
        return fr;
      }
      offset, remaining := offset + fragLen, remaining - fragLen;
    }
    return PT_OK;
  }

  /**
   * Backpressure as written: a 0-100 percentage against the float
   * thresholds 0.90 and 0.75, so any queued message at all rejects LOW
   * and NORMAL sends.
   */
  function PressureRejectsAsWritten(pressure: int, priority: int): (b: bool)
    requires 0 <= pressure <= 100
    ensures b <==> pressure >= 1 && (priority == PRIORITY_LOW || priority == PRIORITY_NORMAL)
  {
    (pressure as real >= 0.90 && priority == PRIORITY_LOW) || (pressure as real >= 0.75 && priority == PRIORITY_NORMAL)
  }

  /** Backpressure as intended: LOW refused from 90 percent, NORMAL from 75 percent. */
  function PressureRejects(pressure: int, priority: int): (b: bool)
    ensures b ==> priority == PRIORITY_LOW || priority == PRIORITY_NORMAL
    ensures priority == PRIORITY_LOW ==> (b <==> pressure >= 90)
    ensures priority == PRIORITY_NORMAL ==> (b <==> pressure >= 75)
  {
    (pressure >= 90 && priority == PRIORITY_LOW) || (pressure >= 75 && priority == PRIORITY_NORMAL)
  }

  /** A queue at 1 percent already refuses NORMAL sends as written, and not as intended. */
  lemma PressureAsWrittenAtOnePercent()
    ensures PressureRejectsAsWritten(1, PRIORITY_NORMAL) && PressureRejectsAsWritten(1, PRIORITY_LOW)
    ensures !PressureRejects(1, PRIORITY_NORMAL) && !PressureRejects(1, PRIORITY_LOW)
  {
  }

  /** Intended backpressure only grows with the pressure, and never touches HIGH or CRITICAL. */
  lemma PressureRejectsMonotone(p: int, p': int, priority: int)
    requires p <= p' && PressureRejects(p, priority)
    ensures PressureRejects(p', priority)
    ensures priority != PRIORITY_HIGH && priority != PRIORITY_CRITICAL
  {
  }

  /** The queue holds `data` in some slot. */
  ghost predicate Holds(q: Queue.MessageQueue, data: bytes)
    reads q, q.slots
  {
    exists i :: 0 <= i < q.slots.Length && q.slots[i].data == data
  }

  /** The plain push of tier 1: the message goes to the slot at the write index. */
  method PushPlain(q: Queue.MessageQueue, data: bytes, priority: int) returns (r: int)
    requires q.ExtOk() && 0 < |data| <= MAX_MESSAGE_SIZE && 0 <= priority < Queue.PRIO_COUNT
    modifies q, q.slots
    ensures q.ExtOk() && q.slots == old(q.slots)
    ensures r == (if |data| > Queue.SLOT_SIZE || old(q.ring.count) >= old(q.ring.capacity) then ERR_BUFFER_FULL else PT_OK)
    ensures r != PT_OK ==> q.ring == old(q.ring) && q.ext == old(q.ext) && unchanged(q.slots)
    ensures r == PT_OK ==> Holds(q, data)
  {
    ghost var w := q.ring.writeIdx;
    var pushed := q.Push(data, priority, 0);
    if pushed == PT_OK {
      assert q.slots[w].data == data;
      return PT_OK;
    }
    return ERR_BUFFER_FULL;
  }

  /** The coalescing push of tier 1 as written: a queued message with the key is replaced, else the slot at the write index is taken. */
  method PushKeyed(q: Queue.MessageQueue, data: bytes, priority: int, key: bv16, now: int) returns (r: int)
    requires q.ExtOk() && 0 < |data| <= MAX_MESSAGE_SIZE && 0 <= priority < Queue.PRIO_COUNT
    modifies q, q.slots
    ensures q.ExtOk() && q.slots == old(q.slots)
    ensures r == PT_OK || r == ERR_BUFFER_FULL
    ensures |data| > Queue.SLOT_SIZE ==> r == ERR_BUFFER_FULL
    ensures r != PT_OK ==> q.ring == old(q.ring) && q.ext == old(q.ext) && unchanged(q.slots)
    ensures r == PT_OK ==> Holds(q, data)
  {
    ghost var hit := Queue.HashHit(q.ext, q.slots[..], key);
    ghost var w := q.ring.writeIdx;
    var pushed := q.PushCoalesce(data, priority, key, now, false);
    if pushed != 0 {
      return ERR_BUFFER_FULL;
    }
    if hit.Some? {
      assert q.slots[hit.value].data == data;
    } else {
      assert q.slots[w].data == data;
    }
    return PT_OK;
  }

  /** The coalescing push of tier 1 with the corrected slot choice: a queued message with the key is replaced, else a free slot is taken. */
  method PushKeyedFree(q: Queue.MessageQueue, data: bytes, priority: int, key: bv16, now: int) returns (r: int)
    requires q.ExtOk() && 0 < |data| <= MAX_MESSAGE_SIZE && 0 <= priority < Queue.PRIO_COUNT
    modifies q, q.slots
    ensures q.ExtOk() && q.slots == old(q.slots)
    ensures r == PT_OK || r == ERR_BUFFER_FULL
    ensures |data| > Queue.SLOT_SIZE ==> r == ERR_BUFFER_FULL
    ensures r != PT_OK ==> q.ring == old(q.ring) && q.ext == old(q.ext) && unchanged(q.slots)
    ensures r == PT_OK ==> Holds(q, data)
  {
    ghost var hit := Queue.HashHit(q.ext, q.slots[..], key);
    ghost var f := if q.ring.count >= q.ring.capacity then None else Queue.FreeFrom(q.slots[..], q.ring.writeIdx, 0);
    var pushed := q.PushCoalesceFree(data, priority, key, now, false);
    if pushed != 0 {
      return ERR_BUFFER_FULL;
    }
    if hit.Some? {
      assert q.slots[hit.value].data == data;
    } else {
      assert q.slots[f.value].data == data;
    }
    return PT_OK;
  }

  /**
   * Tier 1 of SendEx as written: the float backpressure test, which
   * refuses LOW and NORMAL sends whenever anything is queued, then a
   * coalescing push at the write index when the COALESCABLE flag and a key
   * are given, else a plain push; a failed push is BUFFER_FULL.
   */
  method SendQueued(q: Queue.MessageQueue, data: bytes, priority: byte, flags: bv8, key: bv16, now: int)
    returns (r: int)
    requires q.ExtOk() && 0 < |data| <= MAX_MESSAGE_SIZE && priority as int <= PRIORITY_CRITICAL
    modifies q, q.slots
    ensures q.ExtOk() && q.slots == old(q.slots)
    ensures r == PT_OK || r == ERR_BUFFER_FULL
    ensures r != PT_OK ==> q.ring == old(q.ring) && q.ext == old(q.ext) && unchanged(q.slots)
    ensures r == PT_OK ==> Holds(q, data)
    ensures PressureRejectsAsWritten(Queue.Pressure(old(q.ring)), priority as int) ==> r == ERR_BUFFER_FULL
    ensures |data| > Queue.SLOT_SIZE ==> r == ERR_BUFFER_FULL
    ensures !PressureRejectsAsWritten(Queue.Pressure(old(q.ring)), priority as int) && |data| <= Queue.SLOT_SIZE
            && old(q.ring.count) < old(q.ring.capacity) && (flags & SEND_COALESCABLE == 0 || key == 0) ==>
      r == PT_OK
  {
    if PressureRejectsAsWritten(Queue.Pressure(q.ring), priority as int) {
      return ERR_BUFFER_FULL;
    }
    if flags & SEND_COALESCABLE != 0 && key != 0 {
      r := PushKeyed(q, data, priority as int, key, now);
    } else {
      r := PushPlain(q, data, priority as int);
    }
  }

  /**
   * Tier 1 of SendEx as intended: LOW refused from 90 percent and NORMAL
   * from 75 percent pressure, then the coalescing push with the corrected
   * slot choice, or a plain push; a failed push is BUFFER_FULL.
   */
  method SendQueuedIntended(q: Queue.MessageQueue, data: bytes, priority: byte, flags: bv8, key: bv16, now: int)
    returns (r: int)
    requires q.ExtOk() && 0 < |data| <= MAX_MESSAGE_SIZE && priority as int <= PRIORITY_CRITICAL
    modifies q, q.slots
    ensures q.ExtOk() && q.slots == old(q.slots)
    ensures r == PT_OK || r == ERR_BUFFER_FULL
    ensures r != PT_OK ==> q.ring == old(q.ring) && q.ext == old(q.ext) && unchanged(q.slots)
    ensures r == PT_OK ==> Holds(q, data)
    ensures PressureRejects(Queue.Pressure(old(q.ring)), priority as int) ==> r == ERR_BUFFER_FULL
    ensures |data| > Queue.SLOT_SIZE ==> r == ERR_BUFFER_FULL
    ensures !PressureRejects(Queue.Pressure(old(q.ring)), priority as int) && |data| <= Queue.SLOT_SIZE
            && old(q.ring.count) < old(q.ring.capacity) && (flags & SEND_COALESCABLE == 0 || key == 0) ==>
      r == PT_OK
  {
    if PressureRejects(Queue.Pressure(q.ring), priority as int) {
      return ERR_BUFFER_FULL;
    }
    if flags & SEND_COALESCABLE != 0 && key != 0 {
      r := PushKeyedFree(q, data, priority as int, key, now);
    } else {
      r := PushPlain(q, data, priority as int);
    }
  }

  /**
   * The checks that open PeerTalk_SendEx, in order: the context, the
   * message length and priority, the peer. None when all pass.
   */
  function Validate(ctxOk: bool, len: nat, priority: byte, found: bool): (r: Option<int>)
    ensures r.None? <==> ctxOk && 0 < len <= MAX_MESSAGE_SIZE && priority as int <= PRIORITY_CRITICAL && found
    ensures !ctxOk ==> r == Some(ERR_INVALID_STATE)
    ensures ctxOk && !(0 < len <= MAX_MESSAGE_SIZE && priority as int <= PRIORITY_CRITICAL) ==> r == Some(ERR_INVALID_PARAM)
    ensures ctxOk && 0 < len <= MAX_MESSAGE_SIZE && priority as int <= PRIORITY_CRITICAL && !found ==>
      r == Some(ERR_PEER_NOT_FOUND)
  {
    if !ctxOk then Some(ERR_INVALID_STATE)
    else if len == 0 || len > MAX_MESSAGE_SIZE then Some(ERR_INVALID_PARAM)
    else if priority as int > PRIORITY_CRITICAL then Some(ERR_INVALID_PARAM)
    else if !found then Some(ERR_PEER_NOT_FOUND)
    else None
  }

  /** Fragmentation applies: enabled, a negotiated maximum, and a message above it. */
  predicate Fragments(cfg: SendConfig, effMax: uint16, len: int)
  {
    cfg.enableFragmentation && effMax > 0 && len > effMax as int
  }

  /** The tier threshold: messages above it go to the direct buffer; 0 means 256. */
  function Threshold(directThreshold: uint16): (t: int)
    ensures 0 < t && (directThreshold != 0 ==> t == directThreshold as int)
  {
    if directThreshold == 0 then DirectBuffer.THRESHOLD else directThreshold as int
  }

  /** The UDP route was taken and the datagram went out. */
  predicate SentByUdp(cfg: SendConfig, flags: bv8, udpOk: bool)
  {
    flags & SEND_UNRELIABLE != 0 && cfg.udpAvailable && udpOk
  }

  /**
   * The routing part of PeerTalk_SendEx, after validation and
   * fragmentation: UDP for unreliable sends when it is there and works,
   * then the direct buffer above the threshold, else the send queue.
   */
  method SendRouted(cfg: SendConfig, data: bytes, priority: byte, flags: bv8, key: bv16, udpOk: bool, now: int,
                    direct: DirectBuffer.Buffer, hasQueue: bool, q: Queue.MessageQueue) returns (r: int)
    requires direct.Valid() && (hasQueue ==> q.ExtOk())
    requires 0 < |data| <= MAX_MESSAGE_SIZE && priority as int <= PRIORITY_CRITICAL
    modifies direct, direct.data, q, q.slots
    ensures SentByUdp(cfg, flags, udpOk) ==>
      r == PT_OK && unchanged(direct) && unchanged(direct.data) && unchanged(q) && unchanged(q.slots)
    ensures !SentByUdp(cfg, flags, udpOk) && |data| > Threshold(cfg.directThreshold) ==>
      && r == DirectBuffer.QueueStatus(old(direct.state), |data|, old(direct.capacity))
      && unchanged(q) && unchanged(q.slots)
      && (r == PT_OK ==> direct.SendShape() && direct.state == DirectBuffer.Queued && direct.Contents() == data
                         && direct.priority == priority)
    ensures !SentByUdp(cfg, flags, udpOk) && |data| <= Threshold(cfg.directThreshold) ==>
      && unchanged(direct) && unchanged(direct.data)
      && (!hasQueue ==> r == ERR_INVALID_STATE && unchanged(q) && unchanged(q.slots))
      && (hasQueue ==>
            && q.ExtOk() && (r == PT_OK || r == ERR_BUFFER_FULL)
            && (r == PT_OK ==> Holds(q, data))
            && (PressureRejectsAsWritten(Queue.Pressure(old(q.ring)), priority as int) ==> r == ERR_BUFFER_FULL))
  {
    if SentByUdp(cfg, flags, udpOk) {
      return PT_OK;
    }
    if |data| > Threshold(cfg.directThreshold) {
      r := direct.Queue(data, priority);
      return;
    }
    if !hasQueue {
      return ERR_INVALID_STATE;
    }
    r := SendQueued(q, data, priority, flags, key, now);
  }

  /**
   * PeerTalk_SendEx. The peer's direct buffer and send queue (absent when
   * `hasQueue` is false) are passed next to the table; `nextMessageId` is
   * the context's fragment message counter, `udpOk` what the UDP send
   * returns and `now` the clock a coalescing push stamps.
   */
  method SendEx(table: Peer.PeerTable, cfg: SendConfig, codec: FragmentCodec, peerId: uint16, data: bytes,
                priority: byte, flags: bv8, key: bv16, nextMessageId: uint32, udpOk: bool, now: int,
                direct: DirectBuffer.Buffer, hasQueue: bool, q: Queue.MessageQueue)
    returns (r: int, nextMessageId': uint32)
    requires table.Valid() && direct.Valid() && CodecOk(codec) && |data| < 0x1_0000
    requires hasQueue ==> q.ExtOk()
    modifies direct, direct.data, q, q.slots
    ensures var v := Validate(table.ctxOk, |data|, priority, table.FindById(peerId).Some?);
            v.Some? ==>
              && r == v.value && nextMessageId' == nextMessageId
              && unchanged(direct) && unchanged(direct.data) && unchanged(q) && unchanged(q.slots)
    ensures var found := table.FindById(peerId);
            Validate(table.ctxOk, |data|, priority, found.Some?).None? ==>
              var effMax := table.peers[found.value].effectiveMaxMsg;
              && (Fragments(cfg, effMax, |data|) ==>
                    && r == FragmentResult(old(direct.state), old(direct.capacity), effMax, codec.headerSize, |data|)
                    && nextMessageId' == U32(nextMessageId as int + 1)
                    && unchanged(q) && unchanged(q.slots))
              && (!Fragments(cfg, effMax, |data|) ==> nextMessageId' == nextMessageId)
              && (!Fragments(cfg, effMax, |data|) && SentByUdp(cfg, flags, udpOk) ==>
                    r == PT_OK && unchanged(direct) && unchanged(direct.data) && unchanged(q) && unchanged(q.slots))
              && (!Fragments(cfg, effMax, |data|) && !SentByUdp(cfg, flags, udpOk) && |data| > Threshold(cfg.directThreshold) ==>
                    && r == DirectBuffer.QueueStatus(old(direct.state), |data|, old(direct.capacity))
                    && unchanged(q) && unchanged(q.slots)
                    && (r == PT_OK ==> direct.SendShape() && direct.state == DirectBuffer.Queued && direct.Contents() == data))
              && (!Fragments(cfg, effMax, |data|) && !SentByUdp(cfg, flags, udpOk) && |data| <= Threshold(cfg.directThreshold) ==>
                    && unchanged(direct) && unchanged(direct.data)
                    && (!hasQueue ==> r == ERR_INVALID_STATE)
                    && (hasQueue ==>
                          && q.ExtOk() && (r == PT_OK || r == ERR_BUFFER_FULL) && (r == PT_OK ==> Holds(q, data))
                          && (PressureRejectsAsWritten(Queue.Pressure(old(q.ring)), priority as int) ==> r == ERR_BUFFER_FULL)))
  {
    nextMessageId' := nextMessageId;
    var found := table.FindById(peerId);
    var v := Validate(table.ctxOk, |data|, priority, found.Some?);
    if v.Some? {
      return v.value, nextMessageId';
    }
    var effMax := table.peers[found.value].effectiveMaxMsg;
    if Fragments(cfg, effMax, |data|) {
      var msgId := U16(nextMessageId as int);
      nextMessageId' := U32(nextMessageId as int + 1);
      r := SendFragmented(direct, codec, data, priority, effMax, msgId);
      return;
    }
    r := SendRouted(cfg, data, priority, flags, key, udpOk, now, direct, hasQueue, q);
  }

  /**
   * PeerTalk_Send: SendEx at NORMAL priority with no flags and no key, so
   * never over UDP and never coalesced; in the queue tier the float
   * backpressure test refuses it as soon as anything is queued.
   */
  method SendDefault(table: Peer.PeerTable, cfg: SendConfig, codec: FragmentCodec, peerId: uint16, data: bytes,
                     nextMessageId: uint32, udpOk: bool, now: int,
                     direct: DirectBuffer.Buffer, hasQueue: bool, q: Queue.MessageQueue)
    returns (r: int, nextMessageId': uint32)
    requires table.Valid() && direct.Valid() && CodecOk(codec) && |data| < 0x1_0000
    requires hasQueue ==> q.ExtOk()
    modifies direct, direct.data, q, q.slots
    ensures var v := Validate(table.ctxOk, |data|, PRIORITY_NORMAL as byte, table.FindById(peerId).Some?);
            v.Some? ==> r == v.value && nextMessageId' == nextMessageId
    ensures var found := table.FindById(peerId);
            Validate(table.ctxOk, |data|, PRIORITY_NORMAL as byte, found.Some?).None?
            && !Fragments(cfg, table.peers[found.value].effectiveMaxMsg, |data|) && |data| <= Threshold(cfg.directThreshold) && hasQueue ==>
              && (r == PT_OK || r == ERR_BUFFER_FULL) && (r == PT_OK ==> Holds(q, data))
              && (Queue.Pressure(old(q.ring)) >= 1 ==> r == ERR_BUFFER_FULL)
  {
    r, nextMessageId' := SendEx(table, cfg, codec, peerId, data, PRIORITY_NORMAL as byte, 0, 0,
                                nextMessageId, udpOk, now, direct, hasQueue, q);
  }
}
