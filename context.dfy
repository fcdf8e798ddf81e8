// Context lifecycle and the peer-level public calls (src/core/pt_init.c):
// PeerTalk_Init with its configuration defaults, shutdown, the peer name
// lookup, the peer listing, broadcast, queue status and the lookup
// wrappers.
//
// `struct pt_context` is the class `Context`; its peer part is the
// `Peer.PeerTable` it owns, whose `ctxOk` flag stands for the context's
// magic number. A NULL config is `None`; allocation, the peer-list
// allocation and the platform's init are inputs that may fail. Each
// per-peer PeerTalk_Send inside a broadcast is an input too: the result
// the send gave for that slot.
module Context {
  import opened PtTypes
  import opened PtErrors
  import Peer
  import Queue

  /** Configuration defaults for fields left 0. */
  const TRANSPORT_ALL: uint16 := 0xFF
  const DEFAULT_DISCOVERY_PORT: uint16 := 7353
  const DEFAULT_TCP_PORT: uint16 := 7354
  const DEFAULT_UDP_PORT: uint16 := 7355
  const DEFAULT_DISCOVERY_INTERVAL: uint16 := 5000
  const DEFAULT_PEER_TIMEOUT: uint16 := 15000
  const DEFAULT_DIRECT_SIZE: uint16 := 4096
  /** Messages above this many bytes take the direct-buffer tier. */
  const DIRECT_THRESHOLD: int := 256
  /** Entries of the peer id -> slot index table, and its "no slot" mark. */
  const MAX_PEER_ID: int := 256
  const NO_INDEX: byte := 0xFF

  /** PeerTalk_Config; `localName` is the C string before the terminating NUL. */
  datatype Config = Config(
    localName: string,
    transports: uint16, discoveryPort: uint16, tcpPort: uint16, udpPort: uint16,
    maxPeers: uint16, recvBufferSize: uint16, sendBufferSize: uint16,
    discoveryInterval: uint16, peerTimeout: uint16, directBufferSize: uint16,
    maxMessageSize: uint16, preferredChunk: uint16,
    autoAccept: byte, autoCleanup: byte, logLevel: byte, enableFragmentation: byte)

  /** A configuration field after defaulting: `d` when it was 0, itself otherwise. */
  predicate Defaulted(before: int, after: int, d: int)
  {
    (before == 0 ==> after == d) && (before != 0 ==> after == before)
  }

  /**
   * The defaults Init applies to the copied configuration. Only these eight
   * fields are defaulted; every other field is copied as given.
   */
  function WithDefaults(c: Config): (r: Config)
    ensures Defaulted(c.transports, r.transports, TRANSPORT_ALL)
    ensures Defaulted(c.discoveryPort, r.discoveryPort, DEFAULT_DISCOVERY_PORT)
    ensures Defaulted(c.tcpPort, r.tcpPort, DEFAULT_TCP_PORT)
    ensures Defaulted(c.udpPort, r.udpPort, DEFAULT_UDP_PORT)
    ensures Defaulted(c.maxPeers, r.maxPeers, MAX_PEERS)
    ensures Defaulted(c.discoveryInterval, r.discoveryInterval, DEFAULT_DISCOVERY_INTERVAL)
    ensures Defaulted(c.peerTimeout, r.peerTimeout, DEFAULT_PEER_TIMEOUT)
    ensures Defaulted(c.directBufferSize, r.directBufferSize, DEFAULT_DIRECT_SIZE)
    ensures r.transports != 0 && r.discoveryPort != 0 && r.tcpPort != 0 && r.udpPort != 0
    ensures r.maxPeers != 0 && r.discoveryInterval != 0 && r.peerTimeout != 0 && r.directBufferSize != 0
    ensures r.localName == c.localName && r.recvBufferSize == c.recvBufferSize
    ensures r.sendBufferSize == c.sendBufferSize && r.maxMessageSize == c.maxMessageSize
    ensures r.preferredChunk == c.preferredChunk && r.autoAccept == c.autoAccept
    ensures r.autoCleanup == c.autoCleanup && r.logLevel == c.logLevel
    ensures r.enableFragmentation == c.enableFragmentation
  {
    c.(transports := if c.transports == 0 then TRANSPORT_ALL else c.transports,
       discoveryPort := if c.discoveryPort == 0 then DEFAULT_DISCOVERY_PORT else c.discoveryPort,
       tcpPort := if c.tcpPort == 0 then DEFAULT_TCP_PORT else c.tcpPort,
       udpPort := if c.udpPort == 0 then DEFAULT_UDP_PORT else c.udpPort,
       maxPeers := if c.maxPeers == 0 then MAX_PEERS as uint16 else c.maxPeers,
       discoveryInterval := if c.discoveryInterval == 0 then DEFAULT_DISCOVERY_INTERVAL else c.discoveryInterval,
       peerTimeout := if c.peerTimeout == 0 then DEFAULT_PEER_TIMEOUT else c.peerTimeout,
       directBufferSize := if c.directBufferSize == 0 then DEFAULT_DIRECT_SIZE else c.directBufferSize)
  }

  /** Defaulting a configuration that is already defaulted changes nothing. */
  lemma DefaultsIdempotent(c: Config)
    ensures WithDefaults(WithDefaults(c)) == WithDefaults(c)
  {
  }

  /** The local peer's info as Init fills it: id 0, the TCP port, all configured transports, no name index. */
  function LocalInfo(c: Config): (r: Peer.Info)
    ensures r.id == 0 && r.address == 0 && r.port == c.tcpPort && r.transportsAvailable == c.transports as bv16
    ensures r.transportConnected == 0 && r.nameIdx == NO_INDEX as int && r.connected == 0
  {
    Peer.ZeroInfo.(port := c.tcpPort, transportsAvailable := c.transports as bv16, nameIdx := NO_INDEX as int)
  }

  /** A name Init refuses: its first character is the terminator. */
  predicate EmptyName(name: string)
  {
    |name| == 0 || name[0] == '\0'
  }

  class Context {
    var config: Config
    var directThreshold: int
    var directBufferSize: uint16
    var localInfo: Peer.Info
    var nextPeerId: int
    var peerIdToIndex: seq<byte>
    var initialized: bool
    /** Stays 0: Init copies `config.enable_fragmentation` into the config only. */
    var enableFragmentation: byte
    var table: Peer.PeerTable

    /** The zero-filled allocation, with the context magic number set. */
    constructor ()
      ensures fresh(table) && table.ctxOk && table.peers == [] && table.maxPeers == 0
      ensures table.peerCount == 0 && table.Counted() && table.names == seq(NAME_SLOTS, _ => "")
      ensures !initialized && enableFragmentation == 0 && nextPeerId == 0
    {
      config := Config("", 0, 0, 0, 0, 0, 0, 0, 0, 0, 0, 0, 0, 0, 0, 0, 0);
      directThreshold := 0;
      directBufferSize := 0;
      localInfo := Peer.ZeroInfo;
      nextPeerId := 0;
      peerIdToIndex := seq(MAX_PEER_ID, _ => 0);
      initialized := false;
      enableFragmentation := 0;
      table := new Peer.PeerTable();
    }

    /** The fields a successful Init sets from the caller's configuration `c`, the peer slots aside. */
    ghost predicate ConfiguredFrom(c: Config)
      reads this, table
    {
      && config == WithDefaults(c)
      && directThreshold == DIRECT_THRESHOLD
      && directBufferSize == config.directBufferSize
      && localInfo == LocalInfo(config)
      && nextPeerId == 1
      && peerIdToIndex == seq(MAX_PEER_ID, _ => NO_INDEX)
      && initialized && enableFragmentation == 0
      && table.ctxOk && table.peerCount == 0
    }

    /** The state the bounded Init leaves: configured, with one slot per name-table entry at most. */
    ghost predicate InitialisedFrom(c: Config)
      reads this, table
    {
      && ConfiguredFrom(c) && table.Counted()
      && table.peers == Peer.InitialPeers(Min(config.maxPeers as int, NAME_SLOTS))
    }
  }

  const NAME_SLOTS: int := Peer.NAME_SLOTS

  /**
   * PeerTalk_Init: NULL for a missing configuration, an empty local name,
   * or a failure of the allocation, of the peer-list set-up or of the
   * platform's init; otherwise a fresh initialised context. The peer list
   * gets `max_peers` slots as configured, so the table invariant (every
   * slot's name index inside the 16-entry name table) holds exactly when
   * `max_peers` is at most 16.
   */
  method Init(config: Option<Config>, allocOk: bool, listOk: bool, platformOk: bool) returns (ctx: Context?)
    ensures ctx != null <==> config.Some? && !EmptyName(config.value.localName) && allocOk && listOk && platformOk
    ensures ctx != null ==> fresh(ctx) && fresh(ctx.table) && ctx.ConfiguredFrom(config.value)
    ensures ctx != null ==>
      && ctx.table.maxPeers == ctx.config.maxPeers
      && ctx.table.peers == Peer.InitialPeers(ctx.config.maxPeers as int)
      && (ctx.table.Counted() <==> ctx.config.maxPeers as int <= NAME_SLOTS)
  {
    if config.None? || EmptyName(config.value.localName) || !allocOk {
      return null;
    }
    var c := new Context();
    c.config := WithDefaults(config.value);
    c.directThreshold := DIRECT_THRESHOLD;
    c.directBufferSize := c.config.directBufferSize;
    c.localInfo := LocalInfo(c.config);
    c.nextPeerId := 1;
    c.peerIdToIndex := seq(MAX_PEER_ID, _ => NO_INDEX);
    var r := c.table.ListInit(c.config.maxPeers, listOk);
    if r != 0 || !platformOk {
      return null;
    }
    c.initialized := true;
    ctx := c;
  }

  /**
   * PeerTalk_Init with the peer list clamped to 16 slots, one per
   * name-table entry, so that every slot's name index stays inside the
   * table; the rest of the model works on a context set up this way.
   */
  method InitBounded(config: Option<Config>, allocOk: bool, listOk: bool, platformOk: bool) returns (ctx: Context?)
    ensures ctx != null <==> config.Some? && !EmptyName(config.value.localName) && allocOk && listOk && platformOk
    ensures ctx != null ==> fresh(ctx) && fresh(ctx.table) && ctx.InitialisedFrom(config.value)
  {
    if config.None? || EmptyName(config.value.localName) || !allocOk {
      return null;
    }
    var c := new Context();
    c.config := WithDefaults(config.value);
    c.directThreshold := DIRECT_THRESHOLD;
    c.directBufferSize := c.config.directBufferSize;
    c.localInfo := LocalInfo(c.config);
    c.nextPeerId := 1;
    c.peerIdToIndex := seq(MAX_PEER_ID, _ => NO_INDEX);
    var r := c.table.ListInitBounded(c.config.maxPeers, listOk);
    if r != 0 || !platformOk {
      return null;
    }
    c.initialized := true;
    ctx := c;
  }

  /** PeerTalk_Shutdown: a valid context is marked uninitialised and loses its magic number. */
  method Shutdown(ctx: Context)
    modifies ctx, ctx.table
    ensures old(ctx.table.ctxOk) ==> !ctx.initialized && !ctx.table.ctxOk
    ensures !old(ctx.table.ctxOk) ==> unchanged(ctx) && unchanged(ctx.table)
    ensures ctx.table.peers == old(ctx.table.peers) && ctx.table.names == old(ctx.table.names)
  {
    if !ctx.table.ctxOk {
      return;
    }
    ctx.initialized := false;
    ctx.table.ctxOk := false;
  }

  /** PeerTalk_Poll: INVALID_PARAM for a bad context, NETWORK when the platform poll fails. */
  function Poll(ctxOk: bool, platformPollOk: bool): (r: int)
    ensures r == PT_OK <==> ctxOk && platformPollOk
    ensures !ctxOk ==> r == ERR_INVALID_PARAM
    ensures ctxOk && !platformPollOk ==> r == ERR_NETWORK
  {
    if !ctxOk then ERR_INVALID_PARAM
    else if !platformPollOk then ERR_NETWORK
    else PT_OK
  }

  /**
   * pt_get_peer_name: the name-table entry, or "" for a bad context or an
   * index past the 16-entry table.
   */
  function GetPeerName(table: Peer.PeerTable, nameIdx: byte): (r: string)
    requires table.Valid()
    reads table
    ensures table.ctxOk && nameIdx < NAME_SLOTS as byte ==> r == table.names[nameIdx]
    ensures !table.ctxOk || nameIdx >= NAME_SLOTS as byte ==> r == ""
    ensures Peer.CString(r) && |r| <= Peer.NAME_MAX
  {
    if !table.ctxOk then ""
    else if nameIdx >= NAME_SLOTS as byte then ""
    else table.names[nameIdx]
  }

  // ---------------------------------------------------------------------
  // Listing
  // ---------------------------------------------------------------------

  /** The info of every occupied slot, in slot order. */
  function Listed(s: seq<Peer.Peer>): (r: seq<Peer.Info>)
  {
    if |s| == 0 then []
    else Listed(s[..|s| - 1]) + (if Peer.Live(s[|s| - 1]) then [Peer.GetInfo(s[|s| - 1])] else [])
  }

  /** One listed entry per occupied slot. */
  lemma {:induction false} ListedCount(s: seq<Peer.Peer>)
    ensures |Listed(s)| == Peer.CountLive(s)
  {
    if |s| > 0 {
      ListedCount(s[..|s| - 1]);
    }
  }

  /** Every listed entry is the info of an occupied slot. */
  lemma {:induction false} ListedFromLive(s: seq<Peer.Peer>, k: int)
    requires 0 <= k < |Listed(s)|
    ensures exists i :: 0 <= i < |s| && Peer.Live(s[i]) && Listed(s)[k] == Peer.GetInfo(s[i])
  {
    var n := |s| - 1;
    if k < |Listed(s[..n])| {
      ListedFromLive(s[..n], k);
      var i :| 0 <= i < n && Peer.Live(s[..n][i]) && Listed(s[..n])[k] == Peer.GetInfo(s[..n][i]);
      assert s[i] == s[..n][i];
    } else {
      assert Peer.Live(s[n]) && Listed(s)[k] == Peer.GetInfo(s[n]);
    }
  }

  /** The listing of a prefix of the slots is a prefix of the full listing. */
  lemma {:induction false} ListedPrefix(s: seq<Peer.Peer>, i: int)
    requires 0 <= i <= |s|
    ensures |Listed(s[..i])| <= |Listed(s)|
    ensures Listed(s)[..|Listed(s[..i])|] == Listed(s[..i])
    decreases |s| - i
  {
    if i == |s| {
      assert s[..i] == s;
    } else {
      var n := |s| - 1;
      ListedPrefix(s[..n], i);
      assert s[..n][..i] == s[..i];
    }
  }

  /**
   * PeerTalk_GetPeers: INVALID_STATE for a bad context; otherwise the
   * infos of the occupied slots, in slot order, as many as the caller's
   * buffer of `maxOut` entries holds.
   */
  method GetPeers(table: Peer.PeerTable, maxOut: uint16) returns (r: int, infos: seq<Peer.Info>)
    requires table.Valid()
    ensures !table.ctxOk ==> r == ERR_INVALID_STATE && infos == []
    ensures table.ctxOk ==>
      r == PT_OK && infos == Listed(table.peers)[..Min(maxOut as int, |Listed(table.peers)|)]
    ensures |infos| <= maxOut as int
  {
    infos := [];
    if !table.ctxOk {
      return ERR_INVALID_STATE, infos;
    }
    var i := 0;
    while i < table.maxPeers && |infos| < maxOut as int
      invariant 0 <= i <= |table.peers|
      invariant infos == Listed(table.peers[..i]) && |infos| <= maxOut as int
    {
      assert table.peers[..i + 1][..i] == table.peers[..i];
      var p := table.peers[i];
      if p.state != Peer.UNUSED && p.magicOk {
        infos := infos + [Peer.GetInfo(p)];
      }
      i := i + 1;
    }
    ListedPrefix(table.peers, i);
    if i == |table.peers| {
      assert table.peers[..i] == table.peers;
    }
    r := PT_OK;
  }

  /** PeerTalk_GetPeer: the info of the peer with this id, or the lookup's error. */
  function GetPeer(table: Peer.PeerTable, peerId: uint16): (r: Result<Peer.Info>)
    requires table.Valid()
    reads table
    ensures !table.ctxOk ==> r == Err(ERR_INVALID_STATE)
    ensures table.ctxOk && table.FindById(peerId).None? ==> r == Err(ERR_PEER_NOT_FOUND)
    ensures table.ctxOk && table.FindById(peerId).Some? ==> r == Ok(Peer.GetInfo(table.peers[table.FindById(peerId).value]))
    ensures r.Ok? ==> r.value.id == peerId && exists i :: 0 <= i < |table.peers| && Peer.Live(table.peers[i]) && r.value == Peer.GetInfo(table.peers[i])
  {
    if !table.ctxOk then Err(ERR_INVALID_STATE)
    else
      var f := table.FindById(peerId);
      if f.None? then Err(ERR_PEER_NOT_FOUND) else Ok(Peer.GetInfo(table.peers[f.value]))
  }

  /**
   * PeerTalk_FindPeerByAddress: the id of the first used slot with this
   * address and port, with its info, or 0 when there is none.
   */
  method FindPeerByAddress(table: Peer.PeerTable, ip: uint32, port: uint16) returns (id: int, info: Option<Peer.Info>)
    requires table.Valid()
    ensures var f := if table.ctxOk then Peer.FirstAddr(table.peers, ip, port, 0) else None;
            && (f.None? ==> id == 0 && info.None?)
            && (f.Some? ==> 0 <= f.value < |table.peers| && id == f.value + 1 && id != 0
                            && info == Some(Peer.GetInfo(table.peers[f.value])))
  {
    var f := table.FindByAddr(ip, port);
    if f.None? {
      return 0, None;
    }
    var p := table.peers[f.value];
    return p.id, Some(Peer.GetInfo(p));
  }

  // ---------------------------------------------------------------------
  // Broadcast
  // ---------------------------------------------------------------------

  /** A slot a broadcast sends to: CONNECTED with a valid magic number. */
  predicate Reached(p: Peer.Peer)
  {
    p.state == Peer.CONNECTED && p.magicOk
  }

  /** The loop's counters: sends that succeeded and the last failure's code. */
  datatype Tally = Tally(sent: nat, lastErr: int)

  /** The counters after sending to the reached slots of `s`, slot `i` giving `results[i]`. */
  function Broadcasted(s: seq<Peer.Peer>, results: seq<int>): (t: Tally)
    requires |results| == |s|
  {
    if |s| == 0 then Tally(0, PT_OK)
    else
      var n := |s| - 1;
      var t := Broadcasted(s[..n], results[..n]);
      if !Reached(s[n]) then t
      else if results[n] == PT_OK then t.(sent := t.sent + 1)
      else t.(lastErr := results[n])
  }

  /** The broadcast's status from its counters. */
  function Outcome(t: Tally): (r: int)
    ensures r == PT_OK <==> t.sent > 0
    ensures t.sent == 0 && t.lastErr == PT_OK ==> r == ERR_PEER_NOT_FOUND
    ensures t.sent == 0 && t.lastErr != PT_OK ==> r == t.lastErr
  {
    if t.sent == 0 then (if t.lastErr != PT_OK then t.lastErr else ERR_PEER_NOT_FOUND) else PT_OK
  }

  /** Something was sent exactly when some reached slot's send succeeded. */
  lemma {:induction false} BroadcastSent(s: seq<Peer.Peer>, results: seq<int>)
    requires |results| == |s|
    ensures Broadcasted(s, results).sent > 0 <==> exists i :: 0 <= i < |s| && Reached(s[i]) && results[i] == PT_OK
  {
    if |s| > 0 {
      var n := |s| - 1;
      BroadcastSent(s[..n], results[..n]);
      if exists i :: 0 <= i < n && Reached(s[..n][i]) && results[..n][i] == PT_OK {
        var i :| 0 <= i < n && Reached(s[..n][i]) && results[..n][i] == PT_OK;
        assert s[i] == s[..n][i] && results[i] == results[..n][i];
      }
      if exists i :: 0 <= i < |s| && Reached(s[i]) && results[i] == PT_OK {
        var i :| 0 <= i < |s| && Reached(s[i]) && results[i] == PT_OK;
        if i < n {
          assert s[..n][i] == s[i] && results[..n][i] == results[i];
        }
      }
    }
  }

  /**
   * The last failure is OK exactly when every reached slot's send
   * succeeded; otherwise it is the code some reached slot's send failed with.
   */
  lemma {:induction false} BroadcastLastErr(s: seq<Peer.Peer>, results: seq<int>)
    requires |results| == |s|
    ensures var e := Broadcasted(s, results).lastErr;
            && (e == PT_OK <==> forall i :: 0 <= i < |s| && Reached(s[i]) ==> results[i] == PT_OK)
            && (e != PT_OK ==> exists i :: 0 <= i < |s| && Reached(s[i]) && results[i] == e)
  {
    if |s| > 0 {
      var n := |s| - 1;
      BroadcastLastErr(s[..n], results[..n]);
      var e := Broadcasted(s[..n], results[..n]).lastErr;
      if e != PT_OK {
        var i :| 0 <= i < n && Reached(s[..n][i]) && results[..n][i] == e;
        assert s[i] == s[..n][i] && results[i] == results[..n][i];
      }
      forall i | 0 <= i < n
        ensures s[i] == s[..n][i] && results[i] == results[..n][i]
      {
      }
    }
  }

  /**
   * What a broadcast reports: OK when any reached peer took the message;
   * PEER_NOT_FOUND when no peer was reached; otherwise the error one of the
   * reached peers' sends failed with.
   */
  lemma BroadcastOutcome(s: seq<Peer.Peer>, results: seq<int>)
    requires |results| == |s|
    ensures var r := Outcome(Broadcasted(s, results));
            && (r == PT_OK <==> exists i :: 0 <= i < |s| && Reached(s[i]) && results[i] == PT_OK)
            && ((forall i :: 0 <= i < |s| ==> !Reached(s[i])) ==> r == ERR_PEER_NOT_FOUND)
            && (r != PT_OK && r != ERR_PEER_NOT_FOUND ==> exists i :: 0 <= i < |s| && Reached(s[i]) && results[i] == r)
  {
    BroadcastSent(s, results);
    BroadcastLastErr(s, results);
  }

  /**
   * PeerTalk_Broadcast: INVALID_STATE for a bad context, INVALID_PARAM for
   * an empty or oversized message; otherwise one send per reached slot,
   * `results[i]` being what the send to slot i returned, and the status
   * those sends add up to.
   */
  method Broadcast(table: Peer.PeerTable, data: bytes, results: seq<int>) returns (r: int)
    requires table.Valid() && |data| < 0x1_0000 && |results| == |table.peers|
    ensures !table.ctxOk ==> r == ERR_INVALID_STATE
    ensures table.ctxOk && (|data| == 0 || |data| > MAX_MESSAGE_SIZE) ==> r == ERR_INVALID_PARAM
    ensures table.ctxOk && 0 < |data| <= MAX_MESSAGE_SIZE ==> r == Outcome(Broadcasted(table.peers, results))
  {
    if !table.ctxOk {
      return ERR_INVALID_STATE;
    }
    if |data| == 0 || |data| > MAX_MESSAGE_SIZE {
      return ERR_INVALID_PARAM;
    }
    var sent, lastErr := 0, PT_OK;
    var i := 0;
    while i < table.maxPeers
      invariant 0 <= i <= |table.peers|
      invariant Tally(sent, lastErr) == Broadcasted(table.peers[..i], results[..i])
    {
      assert table.peers[..i + 1][..i] == table.peers[..i];
      assert results[..i + 1][..i] == results[..i];
      var p := table.peers[i];
      if p.state == Peer.CONNECTED && p.magicOk {
        var err := results[i];
        if err == PT_OK {
          sent := sent + 1;
        } else {
          lastErr := err;
        }
      }
      i := i + 1;
    }
    assert table.peers[..i] == table.peers && results[..i] == results;
    r := Outcome(Tally(sent, lastErr));
  }

  // ---------------------------------------------------------------------
  // Queue status
  // ---------------------------------------------------------------------

  /**
   * PeerTalk_GetQueueStatus: INVALID_STATE for a bad context,
   * PEER_NOT_FOUND for an unknown peer, INVALID_STATE when the peer has no
   * send queue or its magic number is bad; otherwise the messages pending
   * and the slots still free, which together are the capacity.
   */
  method GetQueueStatus(table: Peer.PeerTable, peerId: uint16, hasQueue: bool, q: Queue.MessageQueue)
    returns (r: int, pending: int, available: int)
    requires table.Valid() && q.Valid()
    ensures !table.ctxOk ==> r == ERR_INVALID_STATE
    ensures table.ctxOk && table.FindById(peerId).None? ==> r == ERR_PEER_NOT_FOUND
    ensures table.FindById(peerId).Some? && (!hasQueue || !q.ring.magicOk) ==> r == ERR_INVALID_STATE
    ensures r == PT_OK <==> table.FindById(peerId).Some? && hasQueue && q.ring.magicOk
    ensures r == PT_OK ==>
      pending == q.ring.count && 0 <= available && pending + available == q.ring.capacity
  {
    pending, available := 0, 0;
    if !table.ctxOk {
      return ERR_INVALID_STATE, pending, available;
    }
    if table.FindById(peerId).None? {
      return ERR_PEER_NOT_FOUND, pending, available;
    }
    if !hasQueue || !q.ring.magicOk {
      return ERR_INVALID_STATE, pending, available;
    }
    pending := q.ring.count;
    available := q.ring.capacity - q.ring.count;
    r := PT_OK;
  }
}
