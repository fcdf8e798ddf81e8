// The version and lookup helpers of the public API (src/core/pt_version.c):
// the message for each error code, the transports compiled in, and the peer
// name lookup behind the context check.
module Version {
  import opened PtTypes
  import opened PtErrors
  import Peer
  import Context

  /** PT_VERSION_STRING (include/peertalk.h:66). */
  const VERSION := "1.0.0"

  const UNKNOWN_ERROR := "Unknown error"

  /**
   * The codes the `switch` of PeerTalk_ErrorString lists: 0 down to -26
   * and INTERNAL, which is every PeerTalk_Error but BUSY (-27) and
   * CANCELLED (-28).
   */
  predicate Listed(error: int)
  {
    ERR_RESOURCE <= error <= PT_OK || error == ERR_INTERNAL
  }

  /** PeerTalk_Version. */
  function Version(): (v: string)
    ensures |v| == 5 && v[1] == '.' && v[3] == '.'
  {
    VERSION
  }

  /** The cases of the `switch`: the fixed message of a listed code, `None` for the default. */
  function Message(error: int): (m: Option<string>)
    ensures m.Some? <==> Listed(error)
    ensures m.Some? ==> m.value != UNKNOWN_ERROR && |m.value| > 0
  {
    if error == PT_OK then Some("Success")
    else if error == ERR_INVALID_PARAM then Some("Invalid parameter")
    else if error == ERR_NO_MEMORY then Some("Out of memory")
    else if error == ERR_NOT_INITIALIZED then Some("Not initialized")
    else if error == ERR_ALREADY_INITIALIZED then Some("Already initialized")
    else if error == ERR_INVALID_STATE then Some("Invalid state")
    else if error == ERR_NOT_SUPPORTED then Some("Not supported on this platform")
    else if error == ERR_NETWORK then Some("Network error")
    else if error == ERR_TIMEOUT then Some("Operation timed out")
    else if error == ERR_CONNECTION_REFUSED then Some("Connection refused")
    else if error == ERR_CONNECTION_CLOSED then Some("Connection closed")
    else if error == ERR_NO_NETWORK then Some("No network available")
    else if error == ERR_NOT_CONNECTED then Some("Not connected")
    else if error == ERR_WOULD_BLOCK then Some("Operation would block")
    else if error == ERR_BUFFER_FULL then Some("Buffer full")
    else if error == ERR_QUEUE_EMPTY then Some("Queue empty")
    else if error == ERR_MESSAGE_TOO_LARGE then Some("Message too large")
    else if error == ERR_BACKPRESSURE then Some("Send backpressure (slow peer)")
    else if error == ERR_PEER_NOT_FOUND then Some("Peer not found")
    else if error == ERR_DISCOVERY_ACTIVE then Some("Discovery already active")
    else if error == ERR_CRC then Some("CRC validation failed")
    else if error == ERR_MAGIC then Some("Invalid magic number")
    else if error == ERR_TRUNCATED then Some("Truncated message")
    else if error == ERR_VERSION then Some("Protocol version mismatch")
    else if error == ERR_NOT_POWER2 then Some("Size must be power of 2")
    else if error == ERR_PLATFORM then Some("Platform-specific error")
    else if error == ERR_RESOURCE then Some("Resource exhausted")
    else if error == ERR_INTERNAL then Some("Internal error")
    else None
  }

  /**
   * PeerTalk_ErrorString: the fixed message of a listed code, "Unknown
   * error" for anything else.
   */
  function ErrorString(error: int): (s: string)
    ensures s == UNKNOWN_ERROR <==> !Listed(error)
    ensures |s| > 0
  {
    match Message(error)
    case Some(m) => m
    case None => UNKNOWN_ERROR
  }

  /**
   * The protocol errors read as the decoders' callers expect, and the two
   * codes added for streaming, BUSY and CANCELLED, have no case of their own.
   */
  lemma ErrorStringExamples()
    ensures ErrorString(ERR_CRC) == "CRC validation failed"
    ensures ErrorString(ERR_MAGIC) == "Invalid magic number"
    ensures ErrorString(ERR_VERSION) == "Protocol version mismatch"
    ensures ErrorString(ERR_BUSY) == UNKNOWN_ERROR && ErrorString(ERR_CANCELLED) == UNKNOWN_ERROR
  {
  }

  /**
   * PeerTalk_GetAvailableTransports: TCP and UDP when the TCP/IP stack is
   * compiled in, APPLETALK (ADSP and NBP) when AppleTalk is.
   */
  function AvailableTransports(hasTcpIp: bool, hasAppleTalk: bool): (t: bv8)
    ensures (t & TRANSPORT_TCP != 0) == hasTcpIp && (t & TRANSPORT_UDP != 0) == hasTcpIp
    ensures (t & TRANSPORT_APPLETALK == TRANSPORT_APPLETALK) == hasAppleTalk
    ensures (t & TRANSPORT_ADSP != 0) == hasAppleTalk
    ensures t & 0xF0 == 0
  {
    (if hasTcpIp then TRANSPORT_TCP | TRANSPORT_UDP else TRANSPORT_NONE)
    | (if hasAppleTalk then TRANSPORT_APPLETALK else TRANSPORT_NONE)
  }

  /**
   * PeerTalk_GetPeerName: NULL (`None`) for a missing or invalid context,
   * otherwise what pt_get_peer_name gives, "" for an index past the table.
   */
  function GetPeerName(table: Peer.PeerTable?, nameIdx: byte): (r: Option<string>)
    requires table != null ==> table.Valid()
    reads table
    ensures r.None? <==> table == null || !table.ctxOk
    ensures r.Some? && nameIdx < Context.NAME_SLOTS ==> r.value == table.names[nameIdx]
    ensures r.Some? && nameIdx >= Context.NAME_SLOTS ==> r.value == ""
  {
    if table == null || !table.ctxOk then None
    else Some(Context.GetPeerName(table, nameIdx))
  }
}
