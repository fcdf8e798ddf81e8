// PeerTalk_Error codes and the protocol-level constants shared by
// several components (include/peertalk.h).
module PtErrors {

  const PT_OK: int := 0
  const ERR_INVALID_PARAM: int := -1
  const ERR_NO_MEMORY: int := -2
  const ERR_NOT_INITIALIZED: int := -3
  const ERR_ALREADY_INITIALIZED: int := -4
  const ERR_NETWORK: int := -5
  const ERR_TIMEOUT: int := -6
  const ERR_CONNECTION_REFUSED: int := -7
  const ERR_CONNECTION_CLOSED: int := -8
  const ERR_BUFFER_FULL: int := -9
  const ERR_INVALID_STATE: int := -10
  const ERR_PEER_NOT_FOUND: int := -11
  const ERR_DISCOVERY_ACTIVE: int := -12
  const ERR_NO_NETWORK: int := -13
  const ERR_PLATFORM: int := -14
  const ERR_QUEUE_EMPTY: int := -15
  const ERR_MESSAGE_TOO_LARGE: int := -16
  const ERR_NOT_SUPPORTED: int := -17
  const ERR_NOT_CONNECTED: int := -18
  const ERR_WOULD_BLOCK: int := -19
  const ERR_CRC: int := -20
  const ERR_MAGIC: int := -21
  const ERR_TRUNCATED: int := -22
  const ERR_VERSION: int := -23
  const ERR_NOT_POWER2: int := -24
  const ERR_BACKPRESSURE: int := -25
  const ERR_RESOURCE: int := -26
  const ERR_BUSY: int := -27
  const ERR_CANCELLED: int := -28
  const ERR_INTERNAL: int := -99

  /** Aliases declared next to the codes above. */
  const ERR_INVALID: int := ERR_INVALID_PARAM
  const ERR_NOT_FOUND: int := ERR_PEER_NOT_FOUND

  /** Sizes and limits of the public API. */
  const MAX_PEER_NAME: int := 31
  const MAX_PEERS: int := 16
  const MAX_MESSAGE_SIZE: int := 8192
  const MAX_STREAM_SIZE: int := 65536

  /** Transport bits. */
  const TRANSPORT_NONE: bv8 := 0x00
  const TRANSPORT_TCP: bv8 := 0x01
  const TRANSPORT_UDP: bv8 := 0x02
  const TRANSPORT_ADSP: bv8 := 0x04
  const TRANSPORT_NBP: bv8 := 0x08
  const TRANSPORT_APPLETALK: bv8 := 0x0C
  const TRANSPORT_ALL: bv8 := 0xFF

  /** Message priorities. */
  const PRIORITY_LOW: int := 0
  const PRIORITY_NORMAL: int := 1
  const PRIORITY_HIGH: int := 2
  const PRIORITY_CRITICAL: int := 3

  /** Send flags of PeerTalk_SendEx. */
  const SEND_UNRELIABLE: bv8 := 0x01
  const SEND_COALESCABLE: bv8 := 0x02
  const SEND_NO_DELAY: bv8 := 0x04
  const SEND_UDP_NO_QUEUE: bv8 := 0x08
}
