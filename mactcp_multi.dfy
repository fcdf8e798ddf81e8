// MacTCP with optional AppleTalk (src/mactcp/mactcp_multi.c): which
// transports came up, the per-peer transport masks, and the deduplication
// of peers discovered over several transports by name. The MacTCP and
// AppleTalk start-up, shutdown and poll routines arrive as their results.
module MacTcpMulti {
  import opened PtTypes
  import Peer

  // The transport bits of mactcp_multi.h (its AppleTalk bit is 0x04, not
  // the public API's ADSP|NBP).
  const NONE: bv8 := 0x00
  const TCP: bv8 := 0x01
  const UDP: bv8 := 0x02
  const APPLETALK: bv8 := 0x04
  const ALL: bv8 := 0x07

  const PREFER_TCP: byte := 0x01
  const PREFER_APPLETALK: byte := 0x02

  /** Some bit of `bits` is set in `mask`. */
  predicate HasAny(mask: bv8, bits: bv8)
  {
    mask & bits != 0
  }

  /** No bit outside `bits` is set in `mask`. */
  predicate Within(mask: bv8, bits: bv8)
  {
    mask & !bits == 0
  }

  /** The transports that came up: TCP and UDP with MacTCP, APPLETALK with AppleTalk. */
  function Available(macTcpOk: bool, appleTalkOk: bool): (t: bv8)
    ensures HasAny(t, TCP) == macTcpOk && HasAny(t, UDP) == macTcpOk
    ensures HasAny(t, APPLETALK) == appleTalkOk
    ensures Within(t, ALL)
    ensures t == NONE <==> !macTcpOk && !appleTalkOk
  {
    (if macTcpOk then TCP | UDP else NONE) | (if appleTalkOk then APPLETALK else NONE)
  }

  /** pt_mactcp_multi_data beyond the MacTCP part. */
  class MultiData {
    /** Whether the AppleTalk data pointer is set. */
    var appletalk: bool
    var transportsAvailable: bv8
    var transportsActive: bv8
    var preferredTransport: byte
    var appletalkLinked: bool

    constructor ()
      ensures !appletalk && transportsAvailable == NONE && transportsActive == NONE
    {
      appletalk := false;
      transportsAvailable, transportsActive := NONE, NONE;
      preferredTransport := 0;
      appletalkLinked := false;
    }
  }

  /**
   * pt_mactcp_multi_init: MacTCP first, then AppleTalk when its routines
   * are registered; -1 for a NULL context or when neither came up, 0
   * otherwise. `macTcpOk` and `appleTalkOk` are what their init routines
   * report.
   */
  method Init(md: MultiData?, appleTalkLinked: bool, macTcpOk: bool, appleTalkOk: bool) returns (r: int)
    modifies md
    ensures md == null ==> r == -1
    ensures md != null ==>
      md.appletalkLinked == appleTalkLinked && md.appletalk == (appleTalkLinked && appleTalkOk)
      && md.transportsAvailable == Available(macTcpOk, appleTalkLinked && appleTalkOk)
      && md.transportsActive == NONE && md.preferredTransport == PREFER_TCP
    ensures md != null ==> (r == -1 <==> md.transportsAvailable == NONE) && (r == 0 || r == -1)
  {
    if md == null {
      return -1;
    }
    md.appletalk := false;
    md.transportsAvailable := NONE;
    md.transportsActive := NONE;
    md.preferredTransport := PREFER_TCP;
    md.appletalkLinked := appleTalkLinked;
    var macTcpUp := false;
    var appleTalkUp := false;
    if macTcpOk {
      md.transportsAvailable := md.transportsAvailable | (TCP | UDP);
      macTcpUp := true;
    }
    if appleTalkLinked && appleTalkOk {
      md.appletalk := true;
      md.transportsAvailable := md.transportsAvailable | APPLETALK;
      appleTalkUp := true;
    }
    if !macTcpUp && !appleTalkUp {
      return -1;
    }
    return 0;
  }

  /**
   * pt_mactcp_multi_shutdown: AppleTalk is shut down when it is up and its
   * shutdown routine registered, MacTCP when it came up (`macTcpDown`
   * reports that call); afterwards no transport is available or active.
   */
  method Shutdown(md: MultiData?, shutdownLinked: bool) returns (macTcpDown: bool)
    modifies md
    ensures md == null ==> !macTcpDown
    ensures md != null ==>
      macTcpDown == HasAny(old(md.transportsAvailable), TCP | UDP)
      && md.appletalk == (old(md.appletalk) && !shutdownLinked)
      && md.transportsAvailable == NONE && md.transportsActive == NONE
      && md.appletalkLinked == old(md.appletalkLinked) && md.preferredTransport == old(md.preferredTransport)
  {
    if md == null {
      return false;
    }
    if md.appletalk && shutdownLinked {
      md.appletalk := false;
    }
    macTcpDown := HasAny(md.transportsAvailable, TCP | UDP);
    md.transportsAvailable := NONE;
    md.transportsActive := NONE;
  }

  /** Which routines pt_mactcp_multi_poll calls, and its result. */
  datatype PollCalls = PollCalls(result: int, macTcp: bool, appleTalk: bool)

  /**
   * pt_mactcp_multi_poll: -1 for a NULL context; otherwise MacTCP is polled
   * when TCP or UDP is available and AppleTalk when it is up and its poll
   * routine registered.
   */
  function Poll(md: MultiData?, pollLinked: bool): (c: PollCalls)
    reads md
    ensures md == null ==> c == PollCalls(-1, false, false)
    ensures md != null ==>
      c.result == 0 && (c.macTcp <==> HasAny(md.transportsAvailable, TCP | UDP))
      && (c.appleTalk <==> md.appletalk && pollLinked)
  {
    if md == null then PollCalls(-1, false, false)
    else PollCalls(0, HasAny(md.transportsAvailable, TCP | UDP), md.appletalk && pollLinked)
  }

  /** pt_mactcp_multi_get_transports: NONE for a NULL context. */
  function GetTransports(md: MultiData?): (t: bv8)
    reads md
    ensures md == null ==> t == NONE
    ensures md != null ==> t == md.transportsAvailable
  {
    if md == null then NONE else md.transportsAvailable
  }

  /** pt_mactcp_multi_has_transport: whether any of the bits is available. */
  function HasTransport(md: MultiData?, transport: bv8): (r: bool)
    reads md
    ensures r <==> md != null && HasAny(md.transportsAvailable, transport)
    ensures r ==> HasAny(GetTransports(md), transport)
  {
    md != null && HasAny(md.transportsAvailable, transport)
  }

  /** After a successful init the query reports exactly the transports that came up. */
  lemma InitThenHas(macTcpOk: bool, appleTalkOk: bool)
    ensures HasAny(Available(macTcpOk, appleTalkOk), TCP) == macTcpOk
    ensures HasAny(Available(macTcpOk, appleTalkOk), TCP | UDP) == macTcpOk
    ensures HasAny(Available(macTcpOk, appleTalkOk), APPLETALK) == appleTalkOk
  {
    var t := Available(macTcpOk, appleTalkOk);
    assert HasAny(t, TCP | UDP) == (HasAny(t, TCP) || HasAny(t, UDP)) by {
      assert t & (TCP | UDP) == (t & TCP) | (t & UDP);
    }
  }

  // ---------------------------------------------------------------------
  // Per-peer transport masks
  // ---------------------------------------------------------------------

  /**
   * The uint8_t flag as the 16-bit mask sees it: the C code promotes it, so
   * only its low byte can be set.
   */
  function Wide(flag: bv8): (w: bv16)
    ensures w & 0xFF00 == 0
  {
    flag as bv16
  }

  /** Every bit of `flag` is set in the mask. */
  predicate Holds(t: bv16, flag: bv16)
  {
    t & flag == flag
  }

  /** No bit of `flag` is set in the mask. */
  predicate Lacks(t: bv16, flag: bv16)
  {
    t & flag == 0
  }

  /** `a` and `b` agree on every bit outside `flag`. */
  predicate SameOutside(a: bv16, b: bv16, flag: bv16)
  {
    a & !flag == b & !flag
  }

  /** `transports_available |= flag`. */
  function AddTransport(t: bv16, flag: bv16): (r: bv16)
    ensures Holds(r, flag)
  {
    t | flag
  }

  /** Adding a transport leaves every other bit of the mask alone. */
  lemma AddKeepsOthers(t: bv16, flag: bv16)
    ensures SameOutside(AddTransport(t, flag), t, flag)
  {
    assert (t | flag) & !flag == t & !flag;
  }

  /**
   * `transports_available &= ~flag`: the complement is taken on the
   * promoted value, so bits above the flag's byte survive.
   */
  function RemoveTransport(t: bv16, flag: bv16): (r: bv16)
    ensures Lacks(r, flag)
  {
    t & !flag
  }

  /** Removing a transport leaves every other bit of the mask alone. */
  lemma RemoveKeepsOthers(t: bv16, flag: bv16)
    ensures SameOutside(RemoveTransport(t, flag), t, flag)
  {
    assert (t & !flag) & !flag == t & !flag;
  }

  /** Removing a transport undoes adding it, whatever the mask held before. */
  lemma RemoveUndoesAdd(t: bv16, flag: bv16)
    ensures RemoveTransport(AddTransport(t, flag), flag) == RemoveTransport(t, flag)
  {
    assert (t | flag) & !flag == t & !flag;
  }

  /** Adding a transport the mask lacked and removing it again restores the mask. */
  lemma AddRemoveRestores(t: bv16, flag: bv16)
    requires Lacks(t, flag)
    ensures RemoveTransport(AddTransport(t, flag), flag) == t
  {
    RemoveUndoesAdd(t, flag);
    assert t & !flag == t;
  }

  /** Adding a transport twice is adding it once. */
  lemma AddIdempotent(t: bv16, flag: bv16)
    ensures AddTransport(AddTransport(t, flag), flag) == AddTransport(t, flag)
  {
    assert (t | flag) | flag == t | flag;
  }

  /** The peer with another transport mask. */
  function WithTransports(p: Peer.Peer, t: bv16): (r: Peer.Peer)
    ensures r.info.transportsAvailable == t && Peer.Live(r) == Peer.Live(p)
    ensures r.(info := p.info) == p && r.info.(transportsAvailable := p.info.transportsAvailable) == p.info
  {
    p.(info := p.info.(transportsAvailable := t))
  }

  /** Slot `i` gets mask `t`; nothing else in the table changes. */
  method SetTransports(table: Peer.PeerTable, i: int, t: bv16)
    requires table.Valid() && 0 <= i < |table.peers|
    modifies table
    ensures table.Valid() && table.names == old(table.names) && table.ctxOk == old(table.ctxOk)
    ensures table.peerCount == old(table.peerCount) && table.maxPeers == old(table.maxPeers)
    ensures table.peers == old(table.peers)[i := WithTransports(old(table.peers)[i], t)]
    ensures old(table.Counted()) ==> table.Counted()
  {
    var p := WithTransports(table.peers[i], t);
    Peer.CountLiveUpdate(table.peers, i, p);
    table.peers := table.peers[i := p];
  }

  /**
   * pt_mactcp_multi_peer_add_transport: the flag joins peer `peer`'s mask;
   * a NULL peer (`None`) is ignored.
   */
  method PeerAddTransport(table: Peer.PeerTable, peer: Option<int>, flag: bv8)
    requires table.Valid() && (peer.Some? ==> 0 <= peer.value < |table.peers|)
    modifies table
    ensures table.Valid() && table.names == old(table.names) && table.ctxOk == old(table.ctxOk)
    ensures table.peerCount == old(table.peerCount) && table.maxPeers == old(table.maxPeers)
    ensures peer.None? ==> table.peers == old(table.peers)
    ensures peer.Some? ==>
      var p := old(table.peers)[peer.value];
      table.peers == old(table.peers)[peer.value := WithTransports(p, AddTransport(p.info.transportsAvailable, Wide(flag)))]
    ensures old(table.Counted()) ==> table.Counted()
  {
    if peer.None? {
      return;
    }
    var i := peer.value;
    SetTransports(table, i, AddTransport(table.peers[i].info.transportsAvailable, Wide(flag)));
  }

  /**
   * pt_mactcp_multi_peer_remove_transport: the flag leaves peer `peer`'s
   * mask; a NULL peer (`None`) is ignored.
   */
  method PeerRemoveTransport(table: Peer.PeerTable, peer: Option<int>, flag: bv8)
    requires table.Valid() && (peer.Some? ==> 0 <= peer.value < |table.peers|)
    modifies table
    ensures table.Valid() && table.names == old(table.names) && table.ctxOk == old(table.ctxOk)
    ensures table.peerCount == old(table.peerCount) && table.maxPeers == old(table.maxPeers)
    ensures peer.None? ==> table.peers == old(table.peers)
    ensures peer.Some? ==>
      var p := old(table.peers)[peer.value];
      table.peers == old(table.peers)[peer.value := WithTransports(p, RemoveTransport(p.info.transportsAvailable, Wide(flag)))]
    ensures old(table.Counted()) ==> table.Counted()
  {
    if peer.None? {
      return;
    }
    var i := peer.value;
    SetTransports(table, i, RemoveTransport(table.peers[i].info.transportsAvailable, Wide(flag)));
  }

  /**
   * pt_mactcp_multi_peer_get_transports: NONE for a NULL peer, otherwise
   * the low byte of the 16-bit mask, which is what the uint8_t result keeps.
   */
  function PeerGetTransports(p: Option<Peer.Peer>): (t: bv8)
    ensures p.None? ==> t == NONE
    ensures p.Some? ==> t as bv16 == p.value.info.transportsAvailable & 0xFF
  {
    if p.None? then NONE else (p.value.info.transportsAvailable & 0xFF) as bv8
  }

  // ---------------------------------------------------------------------
  // Deduplication by name
  // ---------------------------------------------------------------------

  /** The first slot from `k` on that is in use and carries `name`. */
  function NamedSlot(peers: seq<Peer.Peer>, names: seq<string>, name: string, k: nat): (r: Option<int>)
    requires k <= |peers| <= |names|
    decreases |peers| - k
    ensures r.Some? ==> k <= r.value < |peers| && peers[r.value].state != Peer.UNUSED && names[r.value] == name
    ensures r.Some? ==> forall j :: k <= j < r.value ==> peers[j].state == Peer.UNUSED || names[j] != name
    ensures r.None? ==> forall j :: k <= j < |peers| ==> peers[j].state == Peer.UNUSED || names[j] != name
  {
    if k == |peers| then None
    else if peers[k].state != Peer.UNUSED && names[k] == name then Some(k)
    else NamedSlot(peers, names, name, k + 1)
  }

  /** The peer pt_peer_find_by_name finds: none for an empty name or a context that is not valid. */
  function Named(table: Peer.PeerTable, name: string): (r: Option<int>)
    requires table.Valid()
    reads table
    ensures r.Some? ==> table.ctxOk && name != "" && 0 <= r.value < |table.peers|
  {
    if !table.ctxOk || name == "" then None else NamedSlot(table.peers, table.names, name, 0)
  }

  /** A TCP discovery with an address: the one that may replace a known peer's address. */
  predicate TcpAddress(flags: bv8, ip: uint32)
  {
    HasAny(flags, TCP) && ip != 0
  }

  /**
   * A known peer seen again: the transport joins its mask, a TCP discovery
   * with an address moves it there, and it was seen now.
   */
  function Refreshed(p: Peer.Peer, flags: bv8, ip: uint32, port: uint16, now: uint32): (r: Peer.Peer)
    ensures r.lastSeen == now && r.info.transportsAvailable == AddTransport(p.info.transportsAvailable, Wide(flags))
    ensures TcpAddress(flags, ip) ==> r.info.address == ip && r.info.port == port
    ensures !TcpAddress(flags, ip) ==> r.info.address == p.info.address && r.info.port == p.info.port
    ensures r.state == p.state && r.magicOk == p.magicOk && r.id == p.id && r.nameIdx == p.nameIdx
  {
    var q := WithTransports(p, AddTransport(p.info.transportsAvailable, Wide(flags)));
    var moved := if TcpAddress(flags, ip) then q.(info := q.info.(address := ip, port := port)) else q;
    moved.(lastSeen := now)
  }

  /** The address a new peer is created with: the TCP one, or 0:0 for AppleTalk only. */
  function CreateAddress(flags: bv8, ip: uint32, port: uint16): (a: (uint32, uint16))
    ensures HasAny(flags, TCP) ==> a == (ip, port)
    ensures !HasAny(flags, TCP) ==> a == (0, 0)
  {
    if HasAny(flags, TCP) then (ip, port) else (0, 0)
  }

  /** The known-name branch: refresh slot `i` in place. */
  method RefreshKnown(table: Peer.PeerTable, i: int, flags: bv8, ip: uint32, port: uint16, now: uint32)
    requires table.Valid() && 0 <= i < |table.peers|
    modifies table
    ensures table.Valid() && table.names == old(table.names) && table.ctxOk == old(table.ctxOk)
    ensures table.peerCount == old(table.peerCount) && table.maxPeers == old(table.maxPeers)
    ensures table.peers == old(table.peers)[i := Refreshed(old(table.peers)[i], flags, ip, port, now)]
    ensures old(table.Counted()) ==> table.Counted()
  {
    var p := table.peers[i];
    Peer.CountLiveUpdate(table.peers, i, Refreshed(p, flags, ip, port, now));
    table.peers := table.peers[i := Refreshed(p, flags, ip, port, now)];
  }

  /** pt_peer_find_by_name, read as the first live slot with that name. */
  method Lookup(table: Peer.PeerTable, name: string) returns (found: Option<int>)
    requires table.Valid() && Peer.CString(name)
    ensures found == Named(table, name)
  {
    found := table.FindByName(name);
    if table.ctxOk && name != "" {
      var expected := NamedSlot(table.peers, table.names, name, 0);
      if found.Some? && expected.Some? {
        assert !(found.value < expected.value) && !(expected.value < found.value);
      }
    }
  }

  /** The new-peer branch as written: pt_peer_create, then the mask set to exactly `flags`. */
  method CreateNew(table: Peer.PeerTable, name: string, ip: uint32, port: uint16, flags: bv8, now: uint32)
    returns (r: Option<int>)
    requires table.Valid() && Peer.CString(name)
    modifies table
    ensures table.Valid() && table.ctxOk == old(table.ctxOk) && table.maxPeers == old(table.maxPeers)
    ensures old(table.Counted()) ==> table.Counted()
    ensures r.Some? ==> 0 <= r.value < |table.peers| && table.peers[r.value].state != Peer.UNUSED
    ensures r.Some? ==>
      var a := CreateAddress(flags, ip, port);
      table.peers[r.value].info.transportsAvailable == Wide(flags)
      && table.peers[r.value].info.address == a.0 && table.peers[r.value].info.port == a.1
      && (name != "" ==> table.names[r.value] == Peer.StoredName(name))
    ensures table.ctxOk ==>
      var a := CreateAddress(flags, ip, port);
      (Peer.FirstAddr(old(table.peers), a.0, a.1, 0).Some? ==> r == Peer.FirstAddr(old(table.peers), a.0, a.1, 0))
      && (Peer.FirstAddr(old(table.peers), a.0, a.1, 0).None? ==> r == Peer.FirstUnused(old(table.peers), 0))
  {
    var a := CreateAddress(flags, ip, port);
    r := table.Create(name, a.0, a.1, now);
    if r.Some? {
      SetTransports(table, r.value, Wide(flags));
    }
  }

  /**
   * pt_mactcp_multi_find_or_create_peer as written: NULL for a NULL context
   * or name; a peer already known by this name gets the transport added;
   * otherwise pt_peer_create runs with the TCP address (0:0 for AppleTalk
   * only) and the peer it returns gets exactly `flags`. pt_peer_create
   * first looks the address up, so a known peer at that address is taken
   * over and renamed.
   */
  method FindOrCreatePeer(table: Peer.PeerTable?, name: Option<string>, ip: uint32, port: uint16,
                          flags: bv8, now: uint32) returns (r: Option<int>)
    requires table != null ==> table.Valid()
    requires name.Some? ==> Peer.CString(name.value)
    modifies table
    ensures table == null || name.None? ==> r.None?
    ensures table != null ==> table.Valid() && table.ctxOk == old(table.ctxOk) && table.maxPeers == old(table.maxPeers)
    ensures table != null ==> (old(table.Counted()) ==> table.Counted())
    ensures r.Some? ==> 0 <= r.value < |table.peers| && table.peers[r.value].state != Peer.UNUSED
    ensures table != null && name.Some? && old(Named(table, name.value)).Some? ==>
      var i := old(Named(table, name.value)).value;
      r == Some(i) && table.names == old(table.names)
      && table.peers == old(table.peers)[i := Refreshed(old(table.peers)[i], flags, ip, port, now)]
    ensures table != null && name.Some? && old(Named(table, name.value)).None? && r.Some? ==>
      var a := CreateAddress(flags, ip, port);
      table.peers[r.value].info.transportsAvailable == Wide(flags)
      && table.peers[r.value].info.address == a.0 && table.peers[r.value].info.port == a.1
      && (name.value != "" ==> table.names[r.value] == Peer.StoredName(name.value))
    ensures table != null && name.Some? && old(Named(table, name.value)).None? && table.ctxOk ==>
      var a := CreateAddress(flags, ip, port);
      (Peer.FirstAddr(old(table.peers), a.0, a.1, 0).Some? ==> r == Peer.FirstAddr(old(table.peers), a.0, a.1, 0))
      && (Peer.FirstAddr(old(table.peers), a.0, a.1, 0).None? ==> r == Peer.FirstUnused(old(table.peers), 0))
  {
    if table == null || name.None? {
      return None;
    }
    var found := Lookup(table, name.value);
    if found.Some? {
      RefreshKnown(table, found.value, flags, ip, port, now);
      return found;
    }
    r := CreateNew(table, name.value, ip, port, flags, now);
  }

  /** A live AppleTalk-only peer "Alpha" in slot 0 of a one-slot table. */
  function AlphaPeer(): (p: Peer.Peer)
    ensures Peer.Live(p) && p.info.address == 0 && p.info.port == 0
  {
    Peer.Peer(1, Peer.DISCOVERED, true, 0, 0, 0, 1, 0, 0, 0,
              Peer.ZeroInfo.(transportsAvailable := APPLETALK as bv16), 0)
  }

  /**
   * AppleTalk-only peers collapse into one: with "Alpha" known at 0:0, an
   * AppleTalk discovery of "Beta" finds no peer by name, and the address
   * lookup of pt_peer_create then returns Alpha's slot, which
   * FindOrCreatePeer renames to "Beta".
   */
  lemma AppleTalkPeersCollapse()
    ensures var peers, names := [AlphaPeer()], ["Alpha"] + seq(15, _ => "");
      NamedSlot(peers, names, "Beta", 0).None?
      && CreateAddress(APPLETALK, 0, 0) == (0, 0)
      && Peer.FirstAddr(peers, 0, 0, 0) == Some(0)
      && Peer.StoredName("Beta") != names[0]
  {
    var peers, names := [AlphaPeer()], ["Alpha"] + seq(15, _ => "");
    assert names[0] == "Alpha";
    assert NamedSlot(peers, names, "Beta", 1).None?;
    assert "Beta"[0] != "Alpha"[0];
  }

  /**
   * The new-peer branch with a fresh slot for every AppleTalk-only peer: a
   * TCP discovery still goes through pt_peer_create, which merges peers by
   * address, but an AppleTalk-only one takes the first unused slot, so no
   * known peer is overwritten.
   */
  method CreateSeparate(table: Peer.PeerTable, name: string, ip: uint32, port: uint16, flags: bv8, now: uint32)
    returns (r: Option<int>)
    requires table.Valid() && Peer.CString(name)
    modifies table
    ensures table.Valid() && table.ctxOk == old(table.ctxOk) && table.maxPeers == old(table.maxPeers)
    ensures old(table.Counted()) ==> table.Counted()
    ensures r.Some? ==> 0 <= r.value < |table.peers| && table.peers[r.value].state != Peer.UNUSED
    ensures r.Some? ==> table.peers[r.value].info.transportsAvailable == Wide(flags)
    ensures !HasAny(flags, TCP) ==>
      r == (if old(table.ctxOk) then Peer.FirstUnused(old(table.peers), 0) else None)
      && (r.Some? ==>
            old(table.peers)[r.value].state == Peer.UNUSED
            && table.peers[r.value].info.address == 0 && table.peers[r.value].info.port == 0
            && table.names == old(table.names)[r.value := Peer.StoredName(name)]
            && forall j :: 0 <= j < |table.peers| && j != r.value ==> table.peers[j] == old(table.peers)[j])
  {
    if HasAny(flags, TCP) {
      r := CreateNew(table, name, ip, port, flags, now);
      return;
    }
    r := table.FindUnused();
    if r.None? {
      return;
    }
    var k := r.value;
    var p := Peer.Created(table.peers[k], 0, 0, now);
    p := WithTransports(p, Wide(flags));
    Peer.CountLiveUpdate(table.peers, k, p);
    table.peers := table.peers[k := p];
    table.names := table.names[k := Peer.StoredName(name)];
    table.peerCount := U16(table.peerCount + 1);
  }

  /**
   * find_or_create_peer with that new-peer branch: the known-name and NULL
   * cases as written, and a new AppleTalk-only peer in a slot that was free.
   */
  method FindOrCreatePeerSeparate(table: Peer.PeerTable?, name: Option<string>, ip: uint32, port: uint16,
                                  flags: bv8, now: uint32) returns (r: Option<int>)
    requires table != null ==> table.Valid()
    requires name.Some? ==> Peer.CString(name.value)
    modifies table
    ensures table == null || name.None? ==> r.None?
    ensures table != null ==> table.Valid() && table.ctxOk == old(table.ctxOk) && table.maxPeers == old(table.maxPeers)
    ensures table != null ==> (old(table.Counted()) ==> table.Counted())
    ensures r.Some? ==> 0 <= r.value < |table.peers| && table.peers[r.value].state != Peer.UNUSED
    ensures table != null && name.Some? && old(Named(table, name.value)).Some? ==>
      var i := old(Named(table, name.value)).value;
      r == Some(i) && table.names == old(table.names)
      && table.peers == old(table.peers)[i := Refreshed(old(table.peers)[i], flags, ip, port, now)]
    ensures table != null && name.Some? && old(Named(table, name.value)).None? && !HasAny(flags, TCP) ==>
      r == (if old(table.ctxOk) then Peer.FirstUnused(old(table.peers), 0) else None)
      && (r.Some? ==>
            old(table.peers)[r.value].state == Peer.UNUSED
            && table.peers[r.value].info.transportsAvailable == Wide(flags)
            && table.peers[r.value].info.address == 0 && table.peers[r.value].info.port == 0
            && table.names == old(table.names)[r.value := Peer.StoredName(name.value)]
            && forall j :: 0 <= j < |table.peers| && j != r.value ==> table.peers[j] == old(table.peers)[j])
  {
    if table == null || name.None? {
      return None;
    }
    var found := Lookup(table, name.value);
    if found.Some? {
      RefreshKnown(table, found.value, flags, ip, port, now);
      return found;
    }
    r := CreateSeparate(table, name.value, ip, port, flags, now);
  }
}
