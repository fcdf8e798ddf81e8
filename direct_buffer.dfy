// Tier-2 direct buffers (src/core/direct_buffer.c): one preallocated
// buffer per peer and direction for messages above the 256-byte queue
// threshold. A send buffer holds one message at a time and moves
// IDLE -> QUEUED -> SENDING -> IDLE; a receive buffer is only scratch
// storage and never changes state.
//
// The C struct becomes a class whose `data` field is the allocated array;
// a NULL `data` pointer is an array of length 0. Allocation is an input
// (`allocOk`), since the allocator is outside the model.
module DirectBuffer {
  import opened PtTypes
  import opened PtErrors

  const DEFAULT_SIZE: int := 4096
  const MAX_SIZE: int := 8192
  /** Messages longer than this go to a direct buffer instead of the queue. */
  const THRESHOLD: int := 256

  datatype State = Idle | Queued | Sending

  /** The capacity init allocates for a requested one, or init's error. */
  function InitCapacity(capacity: uint16): (r: Result<int>)
    ensures r.Ok? <==> capacity <= MAX_SIZE
    ensures r.Ok? ==> 0 < r.value <= MAX_SIZE
    ensures r.Ok? && capacity != 0 ==> r.value == capacity
    ensures capacity == 0 ==> r == Ok(DEFAULT_SIZE)
    ensures r.Err? ==> r.code == ERR_INVALID_PARAM
  {
    var c := if capacity == 0 then DEFAULT_SIZE else capacity;
    if c > MAX_SIZE then Err(ERR_INVALID_PARAM) else Ok(c)
  }

  /** Status of queueing a message of `length` bytes into a send buffer. */
  function QueueStatus(st: State, length: nat, capacity: int): (r: int)
    ensures r == PT_OK <==> 0 < length <= capacity && st == Idle
    ensures r == ERR_INVALID_PARAM <==> length == 0
    ensures r == ERR_WOULD_BLOCK <==> length != 0 && st != Idle
    ensures r == ERR_MESSAGE_TOO_LARGE <==> length != 0 && st == Idle && length > capacity
  {
    if length == 0 then ERR_INVALID_PARAM
    else if st != Idle then ERR_WOULD_BLOCK
    else if length > capacity then ERR_MESSAGE_TOO_LARGE
    else PT_OK
  }

  class Buffer {
    var state: State
    var length: int
    var capacity: int
    var priority: int
    var msgFlags: bv8
    var data: array<byte>

    /** The fields agree with the allocation: the message fits in capacity, capacity in the array. */
    predicate Valid()
      reads this
    {
      0 <= length <= capacity <= data.Length && capacity <= MAX_SIZE
    }

    /** Valid, and a buffer that is QUEUED or SENDING holds a message. */
    predicate SendShape()
      reads this
    {
      Valid() && (state != Idle ==> length > 0)
    }

    /** The message bytes the buffer holds. */
    function Contents(): (r: bytes)
      requires Valid()
      reads this, data
      ensures |r| == length
    {
      data[..length]
    }

    /** A zero-filled struct, as the peer table allocates it. */
    constructor ()
      ensures SendShape() && state == Idle && length == 0 && capacity == 0
      ensures data.Length == 0 && priority == 0 && msgFlags == 0
    {
      state := Idle;
      length := 0;
      capacity := 0;
      priority := 0;
      msgFlags := 0;
      data := new byte[0];
    }

    /** pt_direct_buffer_init. */
    method Init(cap: uint16, allocOk: bool) returns (r: int)
      modifies this
      ensures InitCapacity(cap).Err? ==> r == ERR_INVALID_PARAM && unchanged(this)
      ensures InitCapacity(cap).Ok? && !allocOk ==>
        r == ERR_NO_MEMORY && data.Length == 0 && state == old(state) && length == old(length)
        && capacity == old(capacity) && priority == old(priority) && msgFlags == old(msgFlags)
      ensures InitCapacity(cap).Ok? && allocOk ==>
        r == PT_OK && fresh(data) && data.Length == capacity == InitCapacity(cap).value
        && state == Idle && length == 0 && priority == PRIORITY_NORMAL && msgFlags == 0 && SendShape()
    {
      var c := InitCapacity(cap);
      if c.Err? {
        return c.code;
      }
      if !allocOk {
        data := new byte[0];
        return ERR_NO_MEMORY;
      }
      data := new byte[c.value];
      state := Idle;
      length := 0;
      capacity := c.value;
      priority := PRIORITY_NORMAL;
      msgFlags := 0;
      return PT_OK;
    }

    /** pt_direct_buffer_free: the allocation goes and the buffer is an empty idle one. */
    method Free()
      modifies this
      ensures SendShape() && data.Length == 0 && state == Idle && length == 0 && capacity == 0
      ensures priority == old(priority) && msgFlags == old(msgFlags)
    {
      data := new byte[0];
      state := Idle;
      length := 0;
      capacity := 0;
    }

    /** The message copy of pt_memcpy, into the start of `data`. */
    method CopyIn(src: bytes)
      requires |src| <= data.Length
      modifies data
      ensures data[..|src|] == src
      ensures data[|src|..] == old(data[|src|..])
    {
      forall i | 0 <= i < |src| {
        data[i] := src[i];
      }
    }

    /** pt_direct_buffer_queue: copies a message in and marks it QUEUED, only from IDLE. */
    method Queue(src: bytes, prio: byte) returns (r: int)
      requires Valid() && |src| < 0x1_0000
      modifies this, data
      ensures r == QueueStatus(old(state), |src|, old(capacity))
      ensures r == PT_OK ==>
        SendShape() && state == Queued && length == |src| && Contents() == src && priority == prio
        && msgFlags == 0 && data == old(data) && capacity == old(capacity)
      ensures r != PT_OK ==> unchanged(this) && unchanged(data)
      ensures old(SendShape()) ==> SendShape()
    {
      r := QueueStatus(state, |src|, capacity);
      if r != PT_OK {
        return;
      }
      CopyIn(src);
      length := |src|;
      priority := prio;
      msgFlags := 0;
      state := Queued;
    }

    /** pt_direct_buffer_mark_sending: QUEUED -> SENDING, anything else is refused with -1. */
    method MarkSending() returns (r: int)
      modifies this
      ensures r == 0 <==> old(state) == Queued
      ensures r == 0 || r == -1
      ensures r == 0 ==> state == Sending
      ensures r != 0 ==> state == old(state)
      ensures length == old(length) && capacity == old(capacity) && data == old(data)
      ensures priority == old(priority) && msgFlags == old(msgFlags)
      ensures old(SendShape()) ==> SendShape()
    {
      if state != Queued {
        return -1;
      }
      state := Sending;
      return 0;
    }

    /** pt_direct_buffer_complete: back to IDLE and empty, whatever the state was. */
    method Complete()
      modifies this
      ensures state == Idle && length == 0
      ensures capacity == old(capacity) && data == old(data)
      ensures priority == old(priority) && msgFlags == old(msgFlags)
      ensures old(Valid()) ==> SendShape()
    {
      length := 0;
      state := Idle;
    }

    /** pt_direct_buffer_ready: 1 exactly when a message waits to be sent. */
    function Ready(): (r: int)
      reads this
      ensures r == 1 <==> state == Queued
      ensures r == 0 || r == 1
      ensures r == 1 ==> Available() == 0
    {
      if state == Queued then 1 else 0
    }

    /** pt_direct_buffer_available: 1 exactly when a new message may be queued. */
    function Available(): (r: int)
      reads this
      ensures r == 1 <==> state == Idle
      ensures r == 0 || r == 1
      ensures r == 1 <==> QueueStatus(state, 1, MAX_SIZE) == PT_OK
    {
      if state == Idle then 1 else 0
    }

    /** pt_direct_buffer_receive: stores an incoming message; the state is never touched. */
    method Receive(src: bytes) returns (r: int)
      requires Valid() && |src| < 0x1_0000
      modifies this, data
      ensures r == (if |src| > old(capacity) then ERR_MESSAGE_TOO_LARGE else PT_OK)
      ensures r == PT_OK ==> Valid() && length == |src| && Contents() == src && data == old(data)
      ensures r != PT_OK ==> unchanged(this) && unchanged(data)
      ensures state == old(state) && capacity == old(capacity)
      ensures priority == old(priority) && msgFlags == old(msgFlags)
    {
      if |src| > capacity {
        return ERR_MESSAGE_TOO_LARGE;
      }
      CopyIn(src);
      length := |src|;
      r := PT_OK;
    }
  }

  /**
   * One send cycle of a direct buffer: queue, mark sending, complete. A
   * second message is refused while the first is in flight and accepted
   * once it has completed.
   */
  method SendCycle(b: Buffer, m1: bytes, m2: bytes) returns (r1: int, rBusy: int, rMark: int, r2: int)
    requires b.Valid() && b.state == Idle
    requires 0 < |m1| <= b.capacity && 0 < |m2| <= b.capacity
    modifies b, b.data
    ensures r1 == PT_OK && rBusy == ERR_WOULD_BLOCK && rMark == 0 && r2 == PT_OK
    ensures b.Valid() && b.state == Queued && b.Contents() == m2
  {
    r1 := b.Queue(m1, PRIORITY_NORMAL);
    rBusy := b.Queue(m2, PRIORITY_NORMAL);
    rMark := b.MarkSending();
    var rBusy2 := b.Queue(m2, PRIORITY_NORMAL);
    assert rBusy2 == ERR_WOULD_BLOCK;
    b.Complete();
    r2 := b.Queue(m2, PRIORITY_NORMAL);
  }
}
