// TCP streams over MacTCP (src/mactcp/tcp_mactcp.c): the asynchronous
// notification routine (ASR) that records driver events as flags, and the
// creation and release of the per-peer stream slots. The driver calls
// (TCPCreate, TCPRelease, TCPRcvBfrReturn) and the memory manager arrive as
// their results.
module TcpMacTcp {
  import opened PtTypes
  import opened PtErrors
  import opened MacTcpDriver

  // The ASR event codes of MacTCP.
  const TCP_CLOSING: int := 1
  const TCP_ULP_TIMEOUT: int := 2
  const TCP_TERMINATE: int := 3
  const TCP_DATA_ARRIVAL: int := 4
  const TCP_URGENT: int := 5
  const TCP_ICMP_RECEIVED: int := 6

  /** Every bit of `before` is still set in `after`. */
  predicate Keeps(after: bv8, before: bv8)
  {
    after & before == before
  }

  /** `flags` has `bit` set. */
  predicate Has(flags: bv8, bit: bv8)
  {
    flags & bit == bit
  }

  /** `after` is `before` with `bit` ORed in. */
  predicate Adds(after: bv8, before: bv8, bit: bv8)
  {
    after == before | bit
  }

  /** The `(int16_t)` cast of an unsigned short. */
  function Int16(u: uint16): (v: int)
    ensures -0x8000 <= v < 0x8000
    ensures v == u || v == u - 0x1_0000
  {
    if u < 0x8000 then u else u - 0x1_0000
  }

  /** The events the `switch` of the ASR has a case for. */
  predicate Known(event: int)
  {
    TCP_CLOSING <= event <= TCP_ICMP_RECEIVED
  }

  /** The flag the ASR sets in `asr_flags` for an event, 0 for an unknown one. */
  function AsrBit(event: int): (b: bv8)
  {
    if event == TCP_DATA_ARRIVAL then ASR_DATA_ARRIVED
    else if event == TCP_CLOSING || event == TCP_TERMINATE then ASR_CONN_CLOSED
    else if event == TCP_ULP_TIMEOUT then ASR_TIMEOUT
    else if event == TCP_URGENT then ASR_URGENT_DATA
    else if event == TCP_ICMP_RECEIVED then ASR_ICMP_RECEIVED
    else 0
  }

  /** The event the ASR records in `log_events`, 0 for events it does not log. */
  function LogBit(event: int): (b: bv8)
  {
    if event == TCP_DATA_ARRIVAL then LOG_EVT_DATA_ARRIVED
    else if event == TCP_CLOSING then LOG_EVT_CONN_CLOSED
    else if event == TCP_TERMINATE then LOG_EVT_TERMINATED
    else if event == TCP_ICMP_RECEIVED then LOG_EVT_ICMP
    else 0
  }

  /**
   * pt_tcp_asr on a stream's hot record: each event ORs its flag into
   * `asr_flags` and, for the logged ones, its event into `log_events`;
   * a terminate also keeps the reason as a signed 16-bit code.
   */
  function Asr(hot: TcpStream, event: int, reason: uint16): (h: TcpStream)
    ensures Adds(h.asrFlags, hot.asrFlags, AsrBit(event)) && Adds(h.logEvents, hot.logEvents, LogBit(event))
    ensures h.logErrorCode == (if event == TCP_TERMINATE then Int16(reason) else hot.logErrorCode)
    ensures h.(asrFlags := hot.asrFlags, logEvents := hot.logEvents, logErrorCode := hot.logErrorCode) == hot
  {
    var code := if event == TCP_TERMINATE then Int16(reason) else hot.logErrorCode;
    hot.(asrFlags := hot.asrFlags | AsrBit(event), logEvents := hot.logEvents | LogBit(event),
         logErrorCode := code)
  }

  /**
   * Which event sets what: data arrival, closing and terminate, timeout,
   * urgent data and ICMP each set their own flag, and only data arrival,
   * closing, terminate and ICMP are logged.
   */
  lemma AsrRecords(hot: TcpStream, event: int, reason: uint16)
    requires Known(event)
    ensures var h := Asr(hot, event, reason);
      (event == TCP_DATA_ARRIVAL ==> Has(h.asrFlags, ASR_DATA_ARRIVED) && Has(h.logEvents, LOG_EVT_DATA_ARRIVED))
      && (event == TCP_CLOSING ==> Has(h.asrFlags, ASR_CONN_CLOSED) && Has(h.logEvents, LOG_EVT_CONN_CLOSED))
      && (event == TCP_TERMINATE ==> Has(h.asrFlags, ASR_CONN_CLOSED) && Has(h.logEvents, LOG_EVT_TERMINATED))
      && (event == TCP_ULP_TIMEOUT ==> Has(h.asrFlags, ASR_TIMEOUT) && h.logEvents == hot.logEvents)
      && (event == TCP_URGENT ==> Has(h.asrFlags, ASR_URGENT_DATA) && h.logEvents == hot.logEvents)
      && (event == TCP_ICMP_RECEIVED ==> Has(h.asrFlags, ASR_ICMP_RECEIVED) && Has(h.logEvents, LOG_EVT_ICMP))
  {
    var h := Asr(hot, event, reason);
    var a, l := AsrBit(event), LogBit(event);
    assert Has(h.asrFlags, a) by { assert h.asrFlags == hot.asrFlags | a; }
    if l == 0 {
      assert h.logEvents == hot.logEvents | 0;
    } else {
      assert Has(h.logEvents, l) by { assert h.logEvents == hot.logEvents | l; }
    }
  }

  /** An event the `switch` does not list leaves the record as it was. */
  lemma AsrUnknownIgnored(hot: TcpStream, event: int, reason: uint16)
    requires !Known(event)
    ensures Asr(hot, event, reason) == hot
  {
    var h := Asr(hot, event, reason);
    assert h.asrFlags == hot.asrFlags | 0;
    assert h.logEvents == hot.logEvents | 0;
  }

  /**
   * The ASR only sets bits: no flag or logged event is ever cleared, and
   * nothing but the two flag bytes and the error code changes.
   */
  lemma AsrOnlySets(hot: TcpStream, event: int, reason: uint16)
    ensures var h := Asr(hot, event, reason);
      Keeps(h.asrFlags, hot.asrFlags) && Keeps(h.logEvents, hot.logEvents)
  {
    var h := Asr(hot, event, reason);
    var a, l := AsrBit(event), LogBit(event);
    assert Keeps(hot.asrFlags | a, hot.asrFlags);
    assert Keeps(hot.logEvents | l, hot.logEvents);
  }

  /** A repeated event adds nothing: the flags the ASR sets are sticky. */
  lemma AsrIdempotent(hot: TcpStream, event: int, reason: uint16)
    ensures Asr(Asr(hot, event, reason), event, reason) == Asr(hot, event, reason)
  {
    var h := Asr(hot, event, reason);
    var a, l := AsrBit(event), LogBit(event);
    assert (hot.asrFlags | a) | a == hot.asrFlags | a;
    assert (hot.logEvents | l) | l == hot.logEvents | l;
  }

  /**
   * The ASR entry for peer stream `idx`: its hot record gets the event, no
   * other stream changes.
   */
  method TcpAsr(md: MacTcpData, idx: int, event: int, reason: uint16)
    requires md.Valid() && 0 <= idx < MAX_PEERS
    modifies md.tcp
    ensures md.tcp[..] == old(md.tcp[..])[idx := Asr(old(md.tcp[idx]), event, reason)]
  {
    md.tcp[idx] := Asr(md.tcp[idx], event, reason);
  }

  // ---------------------------------------------------------------------
  // Receive buffer allocation
  // ---------------------------------------------------------------------

  /**
   * The allocation loop of pt_mactcp_tcp_create from `size` on, where
   * `allocOk(k)` is whether attempt k succeeds: the first size that can be
   * allocated, halving after each failure, giving up below 4096.
   */
  function Allocation(size: nat, k: nat, allocOk: nat -> bool): (r: Option<nat>)
    ensures r.Some? ==> RCV_BUF_MIN <= r.value <= size
    decreases size
  {
    if size < RCV_BUF_MIN then None
    else if allocOk(k) then Some(size)
    else Allocation(size / 2, k + 1, allocOk)
  }

  /** The sizes the loop tries when every attempt fails: `size`, half of it, ... down to 4096. */
  function Tried(size: nat): (t: seq<nat>)
    decreases size
  {
    if size < RCV_BUF_MIN then [] else [size] + Tried(size / 2)
  }

  /** No attempt is below 4096, the first is `size` and each retry halves the previous size. */
  lemma {:induction false} TriedHalves(size: nat)
    ensures forall i :: 0 <= i < |Tried(size)| ==> RCV_BUF_MIN <= Tried(size)[i] <= size
    ensures size >= RCV_BUF_MIN ==> |Tried(size)| > 0 && Tried(size)[0] == size
    ensures forall i :: 0 < i < |Tried(size)| ==> Tried(size)[i] == Tried(size)[i - 1] / 2
    decreases size
  {
    if size >= RCV_BUF_MIN {
      TriedHalves(size / 2);
      var t := Tried(size);
      assert t == [size] + Tried(size / 2);
      forall i | 0 < i < |t|
        ensures t[i] == t[i - 1] / 2
      {
        if i > 1 {
          assert t[i] == Tried(size / 2)[i - 1] && t[i - 1] == Tried(size / 2)[i - 2];
        }
      }
    }
  }

  /**
   * The allocation loop tries the sizes in order and stops at the first
   * success: it finds nothing exactly when every attempt fails, and the
   * size it keeps is a tried one whose attempt succeeded after all the
   * earlier ones failed.
   */
  lemma {:induction false} AllocationFirstSuccess(size: nat, k: nat, allocOk: nat -> bool)
    ensures var r := Allocation(size, k, allocOk);
      (r.None? <==> forall j :: k <= j < k + |Tried(size)| ==> !allocOk(j))
      && (r.Some? ==> exists i :: 0 <= i < |Tried(size)| && Tried(size)[i] == r.value && allocOk(k + i)
                                  && forall j :: k <= j < k + i ==> !allocOk(j))
    decreases size
  {
    if size >= RCV_BUF_MIN {
      AllocationFirstSuccess(size / 2, k + 1, allocOk);
      var t := Tried(size);
      assert t == [size] + Tried(size / 2);
      var r := Allocation(size, k, allocOk);
      if allocOk(k) {
        assert t[0] == r.value;
      } else {
        assert r == Allocation(size / 2, k + 1, allocOk);
        if r.Some? {
          var i :| 0 <= i < |Tried(size / 2)| && Tried(size / 2)[i] == r.value && allocOk(k + 1 + i)
                   && forall j :: k + 1 <= j < k + 1 + i ==> !allocOk(j);
          assert t[i + 1] == r.value;
        }
      }
    }
  }

  // ---------------------------------------------------------------------
  // Create and release
  // ---------------------------------------------------------------------

  /** What TCPCreate answers: a stream, the system-wide limit, or another error. */
  datatype CreateOutcome = StreamCreated(stream: nat) | InsufficientResources | CreateFailed

  /**
   * The slot after pt_mactcp_tcp_create allocated `bufSize` bytes and the
   * driver answered: an IDLE stream with no peer and nothing outstanding, or,
   * when TCPCreate fails, UNUSED again with the buffer freed.
   */
  function AfterCreate(s: TcpStream, bufSize: nat, outcome: CreateOutcome): (r: TcpStream)
    ensures r.rcvBufferSize == bufSize && r.asrFlags == 0 && r.logEvents == 0 && r.logErrorCode == 0
    ensures outcome.StreamCreated? ==>
      r.state == IDLE && r.stream == outcome.stream && r.hasBuffer
      && r.peerIdx == -1 && r.rdsOutstanding == 0
    ensures !outcome.StreamCreated? ==>
      r.state == UNUSED && !r.hasBuffer && r.stream == s.stream && r.peerIdx == s.peerIdx
      && r.rdsOutstanding == s.rdsOutstanding
    ensures r.asyncPending == s.asyncPending && r.asyncResult == s.asyncResult
  {
    var creating := s.(hasBuffer := true, rcvBufferSize := bufSize, asrFlags := 0, logEvents := 0,
                       logErrorCode := 0, state := CREATING);
    match outcome
    case StreamCreated(p) => creating.(stream := p, state := IDLE, rdsOutstanding := 0, peerIdx := -1)
    case _ => creating.(hasBuffer := false, state := UNUSED)
  }

  /** The result pt_mactcp_tcp_create returns once TCPCreate has answered. */
  function CreateCode(outcome: CreateOutcome): (r: int)
    ensures r == PT_OK <==> outcome.StreamCreated?
    ensures outcome.InsufficientResources? <==> r == ERR_RESOURCE
    ensures outcome.CreateFailed? <==> r == -1
  {
    match outcome
    case StreamCreated(_) => PT_OK
    case InsufficientResources => ERR_RESOURCE
    case CreateFailed => -1
  }

  /**
   * pt_mactcp_tcp_create: -1 for an index outside the table or a slot in
   * use; otherwise the buffer sized for the memory situation is allocated,
   * halving on failure down to 4096 (-1 when nothing can be had), and the
   * slot is handed to TCPCreate.
   */
  method TcpCreate(md: MacTcpData, idx: int, freeMem: int, maxBlock: int, mtu: Option<uint16>,
                   allocOk: nat -> bool, outcome: CreateOutcome) returns (r: int)
    requires md.Valid()
    modifies md.tcp
    ensures !(0 <= idx < MAX_PEERS) || old(md.tcp[idx].state) != UNUSED ==>
      r == -1 && md.tcp[..] == old(md.tcp[..])
    ensures 0 <= idx < MAX_PEERS && old(md.tcp[idx].state) == UNUSED ==>
      var size := Allocation(BufferSizeForMemory(freeMem, maxBlock, mtu), 0, allocOk);
      (size.None? ==> r == -1 && md.tcp[..] == old(md.tcp[..])[idx := old(md.tcp[idx]).(hasBuffer := false)])
      && (size.Some? ==>
            r == CreateCode(outcome)
            && md.tcp[..] == old(md.tcp[..])[idx := AfterCreate(old(md.tcp[idx]), size.value, outcome)])
  {
    if idx < 0 || idx >= MAX_PEERS {
      return -1;
    }
    if md.tcp[idx].state != UNUSED {
      return -1;
    }
    var size: nat := BufferSizeForMemory(freeMem, maxBlock, mtu);
    ghost var wanted := size;
    var k: nat := 0;
    var got := false;
    while size >= RCV_BUF_MIN
      invariant Allocation(wanted, 0, allocOk) == Allocation(size, k, allocOk)
      decreases size
    {
      if allocOk(k) {
        got := true;
        break;
      }
      size := size / 2;
      k := k + 1;
    }
    if !got {
      md.tcp[idx] := md.tcp[idx].(hasBuffer := false);
      return -1;
    }
    md.tcp[idx] := md.tcp[idx].(hasBuffer := true, rcvBufferSize := size, asrFlags := 0, logEvents := 0,
                                logErrorCode := 0, state := CREATING);
    match outcome {
      case StreamCreated(p) =>
        md.tcp[idx] := md.tcp[idx].(stream := p, state := IDLE, rdsOutstanding := 0, peerIdx := -1);
      case _ =>
        md.tcp[idx] := md.tcp[idx].(hasBuffer := false, state := UNUSED);
    }
    r := CreateCode(outcome);
  }

  /**
   * The slot after pt_mactcp_tcp_release of a stream in use: outstanding
   * receive buffers returned, the buffer freed, UNUSED with no stream and
   * no peer. The flags and the remembered buffer size are left as they were.
   */
  function Released(s: TcpStream): (r: TcpStream)
    ensures r.state == UNUSED && r.stream == 0 && r.peerIdx == -1
    ensures !r.hasBuffer && r.rdsOutstanding == 0
    ensures r.asrFlags == s.asrFlags && r.logEvents == s.logEvents && r.rcvBufferSize == s.rcvBufferSize
  {
    s.(rdsOutstanding := 0, hasBuffer := false, stream := 0, peerIdx := -1, state := UNUSED)
  }

  /**
   * pt_mactcp_tcp_release: -1 for an index outside the table, 0 with no
   * effect for an UNUSED slot, otherwise 0 with the slot released, whatever
   * the driver answers.
   */
  method TcpRelease(md: MacTcpData, idx: int) returns (r: int)
    requires md.Valid()
    modifies md.tcp
    ensures !(0 <= idx < MAX_PEERS) ==> r == -1 && md.tcp[..] == old(md.tcp[..])
    ensures 0 <= idx < MAX_PEERS ==> r == 0
    ensures 0 <= idx < MAX_PEERS && old(md.tcp[idx].state) == UNUSED ==> md.tcp[..] == old(md.tcp[..])
    ensures 0 <= idx < MAX_PEERS && old(md.tcp[idx].state) != UNUSED ==>
      md.tcp[..] == old(md.tcp[..])[idx := Released(old(md.tcp[idx]))]
  {
    if idx < 0 || idx >= MAX_PEERS {
      return -1;
    }
    if md.tcp[idx].state == UNUSED {
      return 0;
    }
    if md.tcp[idx].rdsOutstanding > 0 {
      md.tcp[idx] := md.tcp[idx].(rdsOutstanding := 0);
    }
    md.tcp[idx] := md.tcp[idx].(state := RELEASING);
    md.tcp[idx] := md.tcp[idx].(hasBuffer := false);
    md.tcp[idx] := md.tcp[idx].(stream := 0, peerIdx := -1, state := UNUSED);
    return 0;
  }

  /**
   * A slot fresh from the reset comes back from create-then-release, or
   * from a create the driver refuses, as it was, except for the buffer size
   * it remembers and the cleared error code.
   */
  lemma CreateReleaseRestores(s: TcpStream, bufSize: nat, outcome: CreateOutcome)
    requires Unused(s)
    ensures outcome.StreamCreated? ==>
      Released(AfterCreate(s, bufSize, outcome)) == s.(rcvBufferSize := bufSize, logErrorCode := 0)
    ensures !outcome.StreamCreated? ==>
      AfterCreate(s, bufSize, outcome) == s.(rcvBufferSize := bufSize, logErrorCode := 0)
  {
  }
}
