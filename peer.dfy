// The peer table of a PeerTalk context (src/core/peer.c): a fixed array
// of peer slots with 1-based ids, a central table of peer names, lookups
// by id, address, name and free slot, peer creation and destruction, the
// peer state machine, the timeout test and the public info snapshot.
//
// The peer part of `struct pt_context` is the class `PeerTable`; a peer
// slot is the value `Peer`, and the slot array is a `seq<Peer>` field the
// methods reassign. A NULL or bad-magic context is the flag `ctxOk`; a
// peer's magic number is the flag `magicOk`. Clock readings are inputs.
module Peer {
  import opened PtTypes
  import opened PtErrors

  /** Peer states (a `uint8_t`, so values above 5 can occur and are refused). */
  const UNUSED: byte := 0
  const DISCOVERED: byte := 1
  const CONNECTING: byte := 2
  const CONNECTED: byte := 3
  const DISCONNECTING: byte := 4
  const FAILED: byte := 5

  /** Entries of the central name table, and the longest stored name. */
  const NAME_SLOTS: int := 16
  const NAME_MAX: int := 31

  /** PeerTalk_PeerInfo, the public snapshot of a peer. */
  datatype Info = Info(
    address: uint32, id: int, flags: int, transportsAvailable: bv16, transportConnected: int,
    port: uint16, latencyMs: int, queuePressure: int, connected: int, nameIdx: int)

  const ZeroInfo: Info := Info(0, 0, 0, 0, 0, 0, 0, 0, 0, 0)

  /** One peer slot: the hot fields, the cold `info` and the ping timestamp. */
  datatype Peer = Peer(
    id: int, state: byte, magicOk: bool, nameIdx: int, lastSeen: uint32, latencyMs: int,
    addressCount: int, sendSeq: byte, recvSeq: byte, effectiveMaxMsg: uint16,
    info: Info, pingSentTime: uint32)

  /** A slot that a peer occupies: not UNUSED, with the valid magic number. */
  predicate Live(p: Peer)
  {
    p.state != UNUSED && p.magicOk
  }

  /** A C string: no NUL inside. */
  predicate CString(s: string)
  {
    forall i :: 0 <= i < |s| ==> s[i] != '\0'
  }

  // ---------------------------------------------------------------------
  // List initialisation
  // ---------------------------------------------------------------------

  /** Slot i after pt_peer_list_init: id i+1, UNUSED, no magic, name index i as a uint8_t. */
  function EmptySlot(i: nat): (p: Peer)
    requires i < 0xFFFF
    ensures p.id == i + 1 && p.state == UNUSED && !p.magicOk && !Live(p)
    ensures p.nameIdx == i % 256
    ensures i < 256 ==> p.nameIdx == i
  {
    Peer(U16(i + 1), UNUSED, false, U8(i), 0, 0, 0, 0, 0, 0, ZeroInfo, 0)
  }

  /** The slot array pt_peer_list_init builds for `n` slots. */
  function InitialPeers(n: nat): (r: seq<Peer>)
    requires n < 0x1_0000
    ensures |r| == n
    ensures forall i :: 0 <= i < n ==> r[i] == EmptySlot(i)
  {
    seq(n, i requires 0 <= i < n => EmptySlot(i))
  }

  /** Number of occupied slots. */
  function CountLive(s: seq<Peer>): (r: nat)
    ensures r <= |s|
  {
    if |s| == 0 then 0 else CountLive(s[..|s| - 1]) + (if Live(s[|s| - 1]) then 1 else 0)
  }

  lemma {:induction false} CountLiveNone(s: seq<Peer>)
    requires forall i :: 0 <= i < |s| ==> !Live(s[i])
    ensures CountLive(s) == 0
  {
    if |s| > 0 {
      CountLiveNone(s[..|s| - 1]);
    }
  }

  /** Replacing one slot changes the count by the change in that slot's liveness. */
  lemma {:induction false} CountLiveUpdate(s: seq<Peer>, i: int, p: Peer)
    requires 0 <= i < |s|
    ensures CountLive(s[i := p]) + (if Live(s[i]) then 1 else 0)
         == CountLive(s) + (if Live(p) then 1 else 0)
  {
    var n := |s| - 1;
    if i < n {
      assert s[i := p][..n] == s[..n][i := p];
      CountLiveUpdate(s[..n], i, p);
    } else {
      assert s[i := p][..n] == s[..n];
    }
  }

  /** An occupied slot makes the count positive. */
  lemma {:induction false} CountLivePositive(s: seq<Peer>, i: int)
    requires 0 <= i < |s| && Live(s[i])
    ensures CountLive(s) > 0
  {
    var n := |s| - 1;
    if i < n {
      CountLivePositive(s[..n], i);
    }
  }

  // ---------------------------------------------------------------------
  // Lookup specifications
  // ---------------------------------------------------------------------

  predicate AddrMatch(p: Peer, ip: uint32, port: uint16)
  {
    p.state != UNUSED && p.info.address == ip && p.info.port == port
  }

  /** The first slot from `k` on that is in use with this address and port. */
  function FirstAddr(s: seq<Peer>, ip: uint32, port: uint16, k: nat): (r: Option<int>)
    requires k <= |s|
    decreases |s| - k
    ensures r.Some? ==> k <= r.value < |s| && AddrMatch(s[r.value], ip, port)
    ensures r.Some? ==> forall j :: k <= j < r.value ==> !AddrMatch(s[j], ip, port)
    ensures r.None? ==> forall j :: k <= j < |s| ==> !AddrMatch(s[j], ip, port)
  {
    if k == |s| then None
    else if AddrMatch(s[k], ip, port) then Some(k)
    else FirstAddr(s, ip, port, k + 1)
  }

  /** The first UNUSED slot from `k` on. */
  function FirstUnused(s: seq<Peer>, k: nat): (r: Option<int>)
    requires k <= |s|
    decreases |s| - k
    ensures r.Some? ==> k <= r.value < |s| && s[r.value].state == UNUSED
    ensures r.Some? ==> forall j :: k <= j < r.value ==> s[j].state != UNUSED
    ensures r.None? ==> forall j :: k <= j < |s| ==> s[j].state != UNUSED
  {
    if k == |s| then None
    else if s[k].state == UNUSED then Some(k)
    else FirstUnused(s, k + 1)
  }

  /** A name the table stores: at most 31 characters, cut from the given one. */
  function StoredName(name: string): (r: string)
    ensures |r| == Min(|name|, NAME_MAX) && r == name[..|r|]
    ensures CString(name) ==> CString(r)
  {
    if |name| > NAME_MAX then name[..NAME_MAX] else name
  }

  /** The peer a create puts into free slot `p`: cold data cleared, DISCOVERED, valid magic. */
  function Created(p: Peer, ip: uint32, port: uint16, now: uint32): (r: Peer)
    ensures Live(r) && r.state == DISCOVERED
    ensures r.id == p.id && r.nameIdx == p.nameIdx
    ensures r.info.address == ip && r.info.port == port && r.info.connected == 0
    ensures r.lastSeen == now && r.latencyMs == 0 && r.sendSeq == 0 && r.recvSeq == 0
  {
    p.(magicOk := true, state := DISCOVERED, info := ZeroInfo.(address := ip, port := port),
       addressCount := 1, latencyMs := 0, lastSeen := now, pingSentTime := 0, sendSeq := 0, recvSeq := 0)
  }

  /** The slot a destroy leaves: UNUSED, magic cleared, address and port zero. */
  function Destroyed(p: Peer): (r: Peer)
    ensures !Live(r) && r.state == UNUSED && !r.magicOk
    ensures r.id == p.id && r.nameIdx == p.nameIdx
    ensures r.info.address == 0 && r.info.port == 0 && r.info.connected == 0
  {
    p.(magicOk := false, state := UNUSED, info := p.info.(address := 0, port := 0, connected := 0))
  }

  // ---------------------------------------------------------------------
  // State machine, timeout, info
  // ---------------------------------------------------------------------

  /** The transition table of pt_peer_set_state. */
  function Allowed(from: byte, to: byte): (r: bool)
    ensures r && to == CONNECTED ==> from == DISCOVERED || from == CONNECTING
    ensures r && to == FAILED ==> from == CONNECTING || from == CONNECTED
    ensures r && to == DISCONNECTING ==> from == CONNECTED
    ensures r && to == CONNECTING ==> from == DISCOVERED
    ensures r && from == UNUSED ==> to == DISCOVERED
    ensures r ==> from <= FAILED && to <= FAILED
    ensures from != UNUSED && from <= FAILED ==> Allowed(from, UNUSED)
  {
    if from == UNUSED then to == DISCOVERED
    else if from == DISCOVERED then to == CONNECTING || to == CONNECTED || to == DISCOVERED || to == UNUSED
    else if from == CONNECTING then to == CONNECTED || to == FAILED || to == UNUSED
    else if from == CONNECTED then to == DISCONNECTING || to == FAILED || to == UNUSED
    else if from == DISCONNECTING then to == UNUSED
    else if from == FAILED then to == UNUSED || to == DISCOVERED
    else false
  }

  /**
   * pt_peer_is_timed_out: 0 for a peer never seen, otherwise whether the
   * 32-bit tick difference exceeds the timeout.
   */
  function IsTimedOut(lastSeen: uint32, now: uint32, timeout: uint32): (r: int)
    ensures r == 0 || r == 1
    ensures lastSeen == 0 ==> r == 0
    ensures lastSeen != 0 && lastSeen <= now ==> (r == 1 <==> now - lastSeen > timeout)
    ensures lastSeen != 0 && now < lastSeen ==> (r == 1 <==> 0x1_0000_0000 + now - lastSeen > timeout)
  {
    if lastSeen == 0 then 0
    else if U32(now - lastSeen) > timeout then 1
    else 0
  }

  /** pt_peer_get_info: the cold info with id, latency and name index from the hot data. */
  function GetInfo(p: Peer): (r: Info)
    ensures r.connected == 1 <==> p.state == CONNECTED
    ensures r.connected == 0 || r.connected == 1
    ensures r.id == p.id && r.latencyMs == p.latencyMs && r.nameIdx == p.nameIdx
    ensures r.address == p.info.address && r.port == p.info.port
    ensures r.queuePressure == p.info.queuePressure
  {
    p.info.(id := p.id, latencyMs := p.latencyMs, nameIdx := p.nameIdx,
            connected := if p.state == CONNECTED then 1 else 0)
  }

  // ---------------------------------------------------------------------
  // The peer table
  // ---------------------------------------------------------------------

  class PeerTable {
    var ctxOk: bool
    var peers: seq<Peer>
    var names: seq<string>
    var maxPeers: int
    var peerCount: uint16

    /** Slot i has id i+1 and owns name entry i, which the 16-entry table holds. */
    predicate Valid()
      reads this
    {
      |peers| == maxPeers <= NAME_SLOTS && |names| == NAME_SLOTS
      && (forall i :: 0 <= i < |peers| ==> peers[i].id == i + 1 && peers[i].nameIdx == i)
      && (forall k :: 0 <= k < |names| ==> CString(names[k]) && |names[k]| <= NAME_MAX)
    }

    /**
     * Valid, and `peer_count` counts the occupied slots, with the magic
     * number set exactly on the slots that are not UNUSED.
     */
    predicate Counted()
      reads this
    {
      Valid() && peerCount == CountLive(peers)
      && forall i :: 0 <= i < |peers| ==> (peers[i].magicOk <==> peers[i].state != UNUSED)
    }

    /** A zeroed context with a valid magic number and no slots yet. */
    constructor ()
      ensures ctxOk && peers == [] && maxPeers == 0 && peerCount == 0 && Counted()
      ensures names == seq(NAME_SLOTS, _ => "")
    {
      ctxOk := true;
      peers := [];
      names := seq(NAME_SLOTS, _ => "");
      maxPeers := 0;
      peerCount := 0;
    }

    /**
     * pt_peer_list_init as written: `n` slots, slot i with name index
     * (uint8_t)i, whatever `n` is. Only for n <= 16 do the name indexes
     * stay inside the name table.
     */
    method ListInit(n: uint16, allocOk: bool) returns (r: int)
      requires |names| == NAME_SLOTS && forall k :: 0 <= k < |names| ==> CString(names[k]) && |names[k]| <= NAME_MAX
      modifies this
      ensures !old(ctxOk) ==> r == ERR_INVALID_PARAM && unchanged(this)
      ensures old(ctxOk) && !allocOk ==> r == ERR_NO_MEMORY && unchanged(this)
      ensures old(ctxOk) && allocOk ==>
        r == 0 && peers == InitialPeers(n) && maxPeers == n && peerCount == 0
        && names == old(names) && ctxOk
      ensures old(ctxOk) && allocOk ==> (Counted() <==> n <= NAME_SLOTS)
    {
      if !ctxOk {
        return ERR_INVALID_PARAM;
      }
      if !allocOk {
        return ERR_NO_MEMORY;
      }
      var s: seq<Peer> := [];
      var i := 0;
      while i < n
        invariant 0 <= i <= n
        invariant s == InitialPeers(i)
      {
        s := s + [EmptySlot(i)];
        i := i + 1;
      }
      peers := s;
      maxPeers := n;
      peerCount := 0;
      CountLiveNone(peers);
      if n > NAME_SLOTS {
        assert peers[NAME_SLOTS].nameIdx == NAME_SLOTS;
      }
      return 0;
    }

    /**
     * The list initialisation with the slot count bounded by the name
     * table: at most 16 slots, so every slot owns a name entry.
     */
    method ListInitBounded(n: uint16, allocOk: bool) returns (r: int)
      requires |names| == NAME_SLOTS && forall k :: 0 <= k < |names| ==> CString(names[k]) && |names[k]| <= NAME_MAX
      modifies this
      ensures !old(ctxOk) ==> r == ERR_INVALID_PARAM && unchanged(this)
      ensures old(ctxOk) && !allocOk ==> r == ERR_NO_MEMORY && unchanged(this)
      ensures old(ctxOk) && allocOk ==>
        r == 0 && peers == InitialPeers(Min(n, NAME_SLOTS)) && peerCount == 0 && Counted() && ctxOk
    {
      r := ListInit(Min(n, NAME_SLOTS), allocOk);
    }

    /** pt_peer_list_free. */
    method ListFree()
      modifies this
      ensures peers == [] && maxPeers == 0 && peerCount == 0
      ensures ctxOk == old(ctxOk) && names == old(names)
      ensures old(Valid()) ==> Counted()
    {
      peers := [];
      maxPeers := 0;
      peerCount := 0;
    }

    /** pt_peer_find_by_id: the live slot with this id, found by index id-1. */
    function FindById(id: uint16): (r: Option<int>)
      requires Valid()
      reads this
      ensures r.Some? ==> 0 <= r.value < |peers| && peers[r.value].id == id && Live(peers[r.value])
      ensures r.None? <==> !ctxOk || id == 0 || id > maxPeers || !Live(peers[id - 1])
    {
      if !ctxOk || id == 0 || id > maxPeers then None
      else
        var index := U8(id - 1);
        if peers[index].state == UNUSED || !peers[index].magicOk then None else Some(index)
    }

    /** pt_peer_find_by_addr: a linear scan for the first used slot with this address and port. */
    method FindByAddr(ip: uint32, port: uint16) returns (r: Option<int>)
      ensures r == (if ctxOk then FirstAddr(peers, ip, port, 0) else None)
    {
      if !ctxOk {
        return None;
      }
      var i := 0;
      while i < |peers|
        invariant 0 <= i <= |peers|
        invariant FirstAddr(peers, ip, port, 0) == FirstAddr(peers, ip, port, i)
      {
        if AddrMatch(peers[i], ip, port) {
          return Some(i);
        }
        i := i + 1;
      }
      return None;
    }

    /** pt_peer_find_unused: the first UNUSED slot. */
    method FindUnused() returns (r: Option<int>)
      ensures r == (if ctxOk then FirstUnused(peers, 0) else None)
    {
      if !ctxOk {
        return None;
      }
      var i := 0;
      while i < |peers|
        invariant 0 <= i <= |peers|
        invariant FirstUnused(peers, 0) == FirstUnused(peers, i)
      {
        if peers[i].state == UNUSED {
          return Some(i);
        }
        i := i + 1;
      }
      return None;
    }

    /**
     * pt_peer_find_by_name: NULL for an empty name, otherwise the first used
     * slot whose table name is exactly `name`.
     */
    method FindByName(name: string) returns (r: Option<int>)
      requires Valid() && CString(name)
      ensures r.Some? ==>
        name != "" && ctxOk && 0 <= r.value < |peers| && peers[r.value].state != UNUSED && names[r.value] == name
      ensures r.Some? ==> forall j :: 0 <= j < r.value ==> peers[j].state == UNUSED || names[j] != name
      ensures r.None? ==>
        !ctxOk || name == "" || forall j :: 0 <= j < |peers| ==> peers[j].state == UNUSED || names[j] != name
    {
      if !ctxOk || name == "" {
        return None;
      }
      var i := 0;
      while i < |peers|
        invariant 0 <= i <= |peers|
        invariant forall j :: 0 <= j < i ==> peers[j].state == UNUSED || names[j] != name
      {
        if peers[i].state != UNUSED {
          var eq := NamesEqual(names[peers[i].nameIdx], name);
          if eq {
            return Some(i);
          }
        }
        i := i + 1;
      }
      return None;
    }

    /**
     * pt_peer_create: a known address refreshes that peer (and its name when
     * one is given); otherwise the first free slot becomes a DISCOVERED peer
     * and the count grows, or the result is NULL when the table is full.
     */
    method Create(name: string, ip: uint32, port: uint16, now: uint32) returns (r: Option<int>)
      requires Valid() && CString(name)
      modifies this
      ensures ctxOk == old(ctxOk) && maxPeers == old(maxPeers) && Valid()
      ensures !ctxOk ==> r.None? && unchanged(this)
      ensures ctxOk && FirstAddr(old(peers), ip, port, 0).Some? ==>
        var i := FirstAddr(old(peers), ip, port, 0).value;
        r == Some(i) && peerCount == old(peerCount)
        && peers == old(peers)[i := old(peers)[i].(lastSeen := now)]
        && names == (if name == "" then old(names) else old(names)[i := StoredName(name)])
      ensures ctxOk && FirstAddr(old(peers), ip, port, 0).None? ==>
        r == FirstUnused(old(peers), 0)
        && (r.None? ==> unchanged(this))
        && (r.Some? ==>
              peers == old(peers)[r.value := Created(old(peers)[r.value], ip, port, now)]
              && names == old(names)[r.value := StoredName(name)]
              && peerCount == U16(old(peerCount) + 1))
      ensures r.Some? ==>
        0 <= r.value < |peers| && peers[r.value].info.address == ip
        && peers[r.value].info.port == port && peers[r.value].state != UNUSED
      ensures old(Counted()) ==> Counted()
    {
      var found := FindByAddr(ip, port);
      if found.Some? {
        var i := found.value;
        CountLiveUpdate(peers, i, peers[i].(lastSeen := now));
        peers := peers[i := peers[i].(lastSeen := now)];
        if name != "" {
          names := names[peers[i].nameIdx := StoredName(name)];
        }
        return found;
      }
      r := FindUnused();
      if r.None? {
        return;
      }
      var k := r.value;
      CountLiveUpdate(peers, k, Created(peers[k], ip, port, now));
      peers := peers[k := Created(peers[k], ip, port, now)];
      names := names[peers[k].nameIdx := StoredName(name)];
      peerCount := U16(peerCount + 1);
    }

    /**
     * pt_peer_destroy: a slot with a valid magic number is released and the
     * count drops, never below 0; any other slot is left alone.
     */
    method Destroy(i: int)
      requires Valid() && 0 <= i < |peers|
      modifies this
      ensures Valid() && ctxOk == old(ctxOk) && maxPeers == old(maxPeers)
      ensures !old(peers[i].magicOk) ==> unchanged(this)
      ensures old(peers[i].magicOk) ==>
        peers == old(peers)[i := Destroyed(old(peers)[i])]
        && names == old(names)[i := ""]
        && peerCount == (if old(peerCount) > 0 then old(peerCount) - 1 else 0)
      ensures old(Counted()) ==> Counted()
    {
      if !peers[i].magicOk {
        return;
      }
      CountLiveUpdate(peers, i, Destroyed(peers[i]));
      if Live(peers[i]) {
        CountLivePositive(peers, i);
      }
      names := names[peers[i].nameIdx := ""];
      peers := peers[i := Destroyed(peers[i])];
      if peerCount > 0 {
        peerCount := peerCount - 1;
      }
    }

    /**
     * pt_peer_set_state: a slot without the magic number is refused with
     * INVALID_PARAM, a transition outside the table with INVALID_STATE, and
     * only an allowed transition changes the state.
     */
    method SetState(i: int, to: byte) returns (r: int)
      requires Valid() && 0 <= i < |peers|
      modifies this
      ensures r == (if !old(peers[i].magicOk) then ERR_INVALID_PARAM
                    else if !Allowed(old(peers[i].state), to) then ERR_INVALID_STATE
                    else 0)
      ensures r == 0 ==> peers == old(peers)[i := old(peers)[i].(state := to)]
      ensures r != 0 ==> peers == old(peers)
      ensures names == old(names) && peerCount == old(peerCount) && ctxOk == old(ctxOk)
      ensures maxPeers == old(maxPeers) && Valid()
      ensures old(Counted()) && old(peers[i].state) != UNUSED && to != UNUSED ==> Counted()
    {
      if !peers[i].magicOk {
        return ERR_INVALID_PARAM;
      }
      if !Allowed(peers[i].state, to) {
        return ERR_INVALID_STATE;
      }
      CountLiveUpdate(peers, i, peers[i].(state := to));
      peers := peers[i := peers[i].(state := to)];
      return 0;
    }
  }

  /** The character-by-character comparison of pt_peer_find_by_name. */
  method NamesEqual(a: string, b: string) returns (eq: bool)
    requires CString(a) && CString(b)
    ensures eq <==> a == b
  {
    var i := 0;
    while i < |a| && i < |b| && a[i] == b[i]
      invariant 0 <= i <= |a| && 0 <= i <= |b|
      invariant a[..i] == b[..i]
    {
      i := i + 1;
    }
    var ca := if i < |a| then a[i] else '\0';
    var cb := if i < |b| then b[i] else '\0';
    eq := ca == cb;
    if !eq {
      assert i < |a| && i < |b| ==> a[i] != b[i];
    } else {
      assert i == |a| && i == |b|;
      assert a == a[..i] && b == b[..i];
    }
  }

  /**
   * With more than 16 slots, the as-written list initialisation gives slot
   * 16 the name index 16, one past the end of the 16-entry name table that
   * create and destroy then write through.
   */
  lemma NameIndexEscapes()
    ensures InitialPeers(17)[16].nameIdx == NAME_SLOTS
    ensures forall n :: NAME_SLOTS < n < 0x1_0000 ==> InitialPeers(n)[NAME_SLOTS].nameIdx >= NAME_SLOTS
  {
  }
}
