// The MacTCP driver layer (src/mactcp/mactcp_driver.c, mactcp_defs.h): the
// per-stream records, the receive-buffer sizing arithmetic, the limits query
// and the reset of every stream at start-up. The driver calls themselves
// (TCPGlobalInfo, UDPMaxMTUSize, FreeMem, MaxBlock) arrive as their results.
module MacTcpDriver {
  import opened PtTypes
  import opened PtErrors

  // Stream states (pt_stream_state).
  const UNUSED: byte := 0
  const CREATING: byte := 1
  const IDLE: byte := 2
  const LISTENING: byte := 3
  const CONNECTING: byte := 4
  const CONNECTED: byte := 5
  const CLOSING: byte := 6
  const RELEASING: byte := 7

  // Flags the ASR sets in `asr_flags`.
  const ASR_DATA_ARRIVED: bv8 := 0x01
  const ASR_CONN_CLOSED: bv8 := 0x02
  const ASR_URGENT_DATA: bv8 := 0x04
  const ASR_ICMP_RECEIVED: bv8 := 0x08
  const ASR_TIMEOUT: bv8 := 0x10

  // Events the ASR records in `log_events` for the main loop to log.
  const LOG_EVT_DATA_ARRIVED: bv8 := 0x01
  const LOG_EVT_CONN_CLOSED: bv8 := 0x02
  const LOG_EVT_TERMINATED: bv8 := 0x04
  const LOG_EVT_ICMP: bv8 := 0x08

  // Receive buffer sizes and free-memory thresholds.
  const RCV_BUF_MIN: nat := 4096
  const RCV_BUF_CHAR: nat := 8192
  const RCV_BUF_MAX: nat := 65536
  const MEM_PLENTY: int := 2048 * 1024
  const MEM_MODERATE: int := 1024 * 1024
  const MEM_LOW: int := 512 * 1024

  /** The limits assumed when TCPGlobalInfo fails, and always for UDP. */
  const DEFAULT_LIMIT: uint16 := 64
  /** The Mac tick rate. */
  const TICKS_PER_SECOND: nat := 60

  /**
   * A TCP stream: its hot fields (the ones the ASR touches) and, from the
   * cold record, whether a receive buffer is allocated and its size.
   * `peerIdx` is the signed 8-bit peer index, -1 for none.
   */
  datatype TcpStream = TcpStream(
    stream: nat, asyncResult: int, logErrorCode: int, state: byte, asrFlags: bv8,
    asyncPending: byte, rdsOutstanding: byte, logEvents: bv8, peerIdx: int,
    hasBuffer: bool, rcvBufferSize: nat)

  /** The discovery UDP stream, hot and cold. */
  datatype UdpStream = UdpStream(
    stream: nat, state: byte, asrFlags: bv8, asyncPending: byte, dataReady: byte,
    hasBuffer: bool, rcvBufferSize: nat)

  /** A slot free for tcp_create: no driver stream, no buffer, no peer, nothing pending. */
  predicate Unused(s: TcpStream)
  {
    s.state == UNUSED && s.stream == 0 && !s.hasBuffer && s.rcvBufferSize == 0
    && s.peerIdx == -1 && s.asrFlags == 0 && s.logEvents == 0
    && s.asyncPending == 0 && s.rdsOutstanding == 0
  }

  // ---------------------------------------------------------------------
  // Buffer sizing
  // ---------------------------------------------------------------------

  /**
   * pt_mactcp_optimal_buffer_size: 4 x MTU + 1024, as the MacTCP guide
   * recommends, clamped to [4096, 65536]; 8192 when the MTU query fails
   * (`None`).
   */
  function OptimalBufferSize(mtu: Option<uint16>): (size: nat)
    ensures RCV_BUF_MIN <= size <= RCV_BUF_MAX
    ensures mtu.None? ==> size == RCV_BUF_CHAR
    ensures mtu.Some? && RCV_BUF_MIN <= 4 * mtu.value + 1024 <= RCV_BUF_MAX ==>
      size == 4 * mtu.value + 1024
    ensures mtu.Some? && 4 * mtu.value + 1024 < RCV_BUF_MIN ==> size == RCV_BUF_MIN
    ensures mtu.Some? && 4 * mtu.value + 1024 > RCV_BUF_MAX ==> size == RCV_BUF_MAX
  {
    match mtu
    case None => RCV_BUF_CHAR
    case Some(m) =>
      var optimal := 4 * m + 1024;
      if optimal < RCV_BUF_MIN then RCV_BUF_MIN
      else if optimal > RCV_BUF_MAX then RCV_BUF_MAX
      else optimal
  }

  /** A larger MTU never gives a smaller optimal buffer. */
  lemma OptimalMonotone(m1: uint16, m2: uint16)
    requires m1 <= m2
    ensures OptimalBufferSize(Some(m1)) <= OptimalBufferSize(Some(m2))
  {
  }

  /** C's `long` division by 2, which truncates toward zero. */
  function Half(n: int): (h: int)
    ensures n >= 0 ==> 2 * h <= n < 2 * h + 2
    ensures n < 0 ==> 2 * h >= n > 2 * h - 2
  {
    if n >= 0 then n / 2 else -((-n) / 2)
  }

  /** The size the free-memory tiers pick before the MaxBlock check. */
  function TierSize(freeMem: int, mtu: Option<uint16>): (size: nat)
    ensures freeMem > MEM_PLENTY ==> size == OptimalBufferSize(mtu)
    ensures MEM_MODERATE < freeMem <= MEM_PLENTY ==> size == RCV_BUF_CHAR
    ensures freeMem <= MEM_MODERATE ==> size == RCV_BUF_MIN
  {
    if freeMem > MEM_PLENTY then OptimalBufferSize(mtu)
    else if freeMem > MEM_MODERATE then RCV_BUF_CHAR
    else if freeMem > MEM_LOW then RCV_BUF_MIN
    else RCV_BUF_MIN
  }

  /**
   * pt_mactcp_buffer_size_for_memory: the tier's size, unless it is larger
   * than half the largest free block, in which case the minimum.
   */
  function BufferSizeForMemory(freeMem: int, maxBlock: int, mtu: Option<uint16>): (size: nat)
    ensures RCV_BUF_MIN <= size <= RCV_BUF_MAX
    ensures size == TierSize(freeMem, mtu) || size == RCV_BUF_MIN
    ensures TierSize(freeMem, mtu) <= Half(maxBlock) ==> size == TierSize(freeMem, mtu)
    ensures TierSize(freeMem, mtu) > Half(maxBlock) ==> size == RCV_BUF_MIN
    ensures size <= Half(maxBlock) || size == RCV_BUF_MIN
  {
    var size := TierSize(freeMem, mtu);
    if size > Half(maxBlock) then RCV_BUF_MIN else size
  }

  /**
   * The headroom rule does not hold at the minimum: with a largest block
   * under 8 KB the size is still 4096, more than half of it.
   */
  lemma MinimumIgnoresHeadroom()
    ensures BufferSizeForMemory(3000000, 6000, Some(1500)) == RCV_BUF_MIN > Half(6000)
  {
  }

  /**
   * More free memory can give a smaller buffer: on Ethernet (MTU 1500) the
   * optimal size is 7024, below the 8192 a machine with between 1 and 2 MB
   * free gets.
   */
  lemma PlentyBelowModerate()
    ensures BufferSizeForMemory(3000000, 1000000, Some(1500)) == 7024
    ensures BufferSizeForMemory(1500000, 1000000, Some(1500)) == RCV_BUF_CHAR
  {
  }

  /**
   * Every size the function returns is one of the three the tiers use, the
   * optimal one only with more than 2 MB free.
   */
  lemma {:induction false} SizeSources(freeMem: int, maxBlock: int, mtu: Option<uint16>)
    ensures var size := BufferSizeForMemory(freeMem, maxBlock, mtu);
      size == RCV_BUF_MIN || size == RCV_BUF_CHAR
      || (freeMem > MEM_PLENTY && size == OptimalBufferSize(mtu))
  {
    var size := BufferSizeForMemory(freeMem, maxBlock, mtu);
    if size != RCV_BUF_MIN {
      assert size == TierSize(freeMem, mtu);
    }
  }

  // ---------------------------------------------------------------------
  // Stream reset
  // ---------------------------------------------------------------------

  /**
   * A peer stream after pt_mactcp_init_streams: unused; the async result and
   * logged error code, which the reset does not touch, are kept.
   */
  function ResetTcp(s: TcpStream): (r: TcpStream)
    ensures Unused(r)
    ensures r.asyncResult == s.asyncResult && r.logErrorCode == s.logErrorCode
  {
    s.(stream := 0, state := UNUSED, asrFlags := 0, asyncPending := 0, rdsOutstanding := 0,
       peerIdx := -1, logEvents := 0, hasBuffer := false, rcvBufferSize := 0)
  }

  /**
   * The listener after the reset: like a peer stream, except that the reset
   * leaves its `rds_outstanding` alone.
   */
  function ResetListener(s: TcpStream): (r: TcpStream)
    ensures r.state == UNUSED && r.stream == 0 && !r.hasBuffer && r.rcvBufferSize == 0
    ensures r.peerIdx == -1 && r.asrFlags == 0 && r.logEvents == 0 && r.asyncPending == 0
    ensures r.rdsOutstanding == s.rdsOutstanding
    ensures r.asyncResult == s.asyncResult && r.logErrorCode == s.logErrorCode
  {
    s.(stream := 0, state := UNUSED, asrFlags := 0, asyncPending := 0,
       peerIdx := -1, logEvents := 0, hasBuffer := false, rcvBufferSize := 0)
  }

  /** The discovery stream after the reset: unused, no buffer, nothing pending or ready. */
  function ResetUdp(s: UdpStream): (r: UdpStream)
    ensures r.state == UNUSED && r.stream == 0 && !r.hasBuffer && r.rcvBufferSize == 0
    ensures r.asrFlags == 0 && r.asyncPending == 0 && r.dataReady == 0
  {
    UdpStream(0, UNUSED, 0, 0, 0, false, 0)
  }

  /** The MacTCP platform data: limits, the discovery, listener and peer streams, timing. */
  class MacTcpData {
    var maxTcpConnections: uint16
    var maxUdpStreams: uint16
    var discovery: UdpStream
    var listener: TcpStream
    /** tcp_hot/tcp_cold: one stream per peer slot. */
    const tcp: array<TcpStream>
    var lastAnnounceTick: uint32
    var ticksPerSecond: nat

    predicate Valid()
      reads this
    {
      tcp.Length == MAX_PEERS
    }

    /** The zero-filled platform data that follows the context. */
    constructor ()
      ensures Valid() && fresh(tcp)
      ensures discovery.state == UNUSED && listener.state == UNUSED
      ensures forall i :: 0 <= i < tcp.Length ==> tcp[i].state == UNUSED
    {
      var zero := TcpStream(0, 0, 0, UNUSED, 0, 0, 0, 0, 0, false, 0);
      maxTcpConnections, maxUdpStreams := 0, 0;
      discovery := UdpStream(0, UNUSED, 0, 0, 0, false, 0);
      listener := zero;
      tcp := new TcpStream[MAX_PEERS](_ => zero);
      lastAnnounceTick, ticksPerSecond := 0, 0;
    }

    /**
     * pt_mactcp_query_limits: the driver's connection limit, or 64 with
     * result -1 when TCPGlobalInfo fails (`None`); UDP is always 64.
     */
    method QueryLimits(globalInfo: Option<uint16>) returns (r: int)
      modifies this
      ensures maxUdpStreams == DEFAULT_LIMIT
      ensures globalInfo.None? ==> r == -1 && maxTcpConnections == DEFAULT_LIMIT
      ensures globalInfo.Some? ==> r == 0 && maxTcpConnections == globalInfo.value
      ensures discovery == old(discovery) && listener == old(listener)
      ensures lastAnnounceTick == old(lastAnnounceTick) && ticksPerSecond == old(ticksPerSecond)
    {
      if globalInfo.None? {
        maxTcpConnections := DEFAULT_LIMIT;
        maxUdpStreams := DEFAULT_LIMIT;
        return -1;
      }
      maxTcpConnections := globalInfo.value;
      maxUdpStreams := DEFAULT_LIMIT;
      return 0;
    }

    /**
     * pt_mactcp_init_streams: every peer stream, the listener and the
     * discovery stream reset to unused with no buffer; no announcement yet
     * and 60 ticks a second.
     */
    method InitStreams()
      requires Valid()
      modifies this, tcp
      ensures Valid()
      ensures discovery == ResetUdp(old(discovery)) && listener == ResetListener(old(listener))
      ensures forall i :: 0 <= i < tcp.Length ==> tcp[i] == ResetTcp(old(tcp[i]))
      ensures forall i :: 0 <= i < tcp.Length ==> Unused(tcp[i])
      ensures lastAnnounceTick == 0 && ticksPerSecond == TICKS_PER_SECOND
      ensures maxTcpConnections == old(maxTcpConnections) && maxUdpStreams == old(maxUdpStreams)
    {
      discovery := ResetUdp(discovery);
      listener := ResetListener(listener);
      var i := 0;
      while i < MAX_PEERS
        invariant 0 <= i <= MAX_PEERS
        invariant forall j :: 0 <= j < i ==> tcp[j] == ResetTcp(old(tcp[j]))
        invariant forall j :: i <= j < tcp.Length ==> tcp[j] == old(tcp[j])
        invariant discovery == ResetUdp(old(discovery)) && listener == ResetListener(old(listener))
        invariant maxTcpConnections == old(maxTcpConnections) && maxUdpStreams == old(maxUdpStreams)
      {
        tcp[i] := ResetTcp(tcp[i]);
        i := i + 1;
      }
      lastAnnounceTick := 0;
      ticksPerSecond := TICKS_PER_SECOND;
    }
  }
}
