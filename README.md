# PeerTalk core in Dafny

PeerTalk is a C library for peer-to-peer messaging between Classic Mac OS
machines (MacTCP, Open Transport, AppleTalk) and POSIX hosts, with two
Python tools beside it. This project models its deterministic core and
proves properties of that model:

- the wire codec (`protocol.dfy`): CRC-16/KERMIT and the discovery
  ("PTLK"), message-header ("PTMG") and UDP ("PTUD") framings;
- the per-peer message queue (`queue.dfy`): a power-of-two ring with four
  priority lists threaded through its slots, a 32-bucket coalesce hash and
  the pressure and backpressure rules;
- the tier-2 direct buffer (`direct_buffer.dfy`) and the peer table with
  its state machine (`peer.dfy`);
- the send path (`send.dfy`): batching, the two drains, and
  `PeerTalk_SendEx` with validation, routing, backpressure and
  fragmentation; the streaming API (`stream.dfy`);
- the public calls of `pt_init.c` (`context.dfy`) and `pt_version.c`
  (`version.dfy`);
- the platform logic that can be separated from I/O: the POSIX active-peer
  set, latency estimate and receive state machine (`net_posix.dfy`), the
  MacTCP frame extraction (`tcp_io.dfy`), ASR flags and stream slots
  (`tcp_mactcp.dfy`), driver buffer sizing (`mactcp_driver.dfy`) and the
  multi-transport peer table (`mactcp_multi.dfy`);
- the portability layer (`compat.dfy`, `atomic_flags.dfy`, `printf.dfy`)
  and the two PT_Log back ends (`log_types.dfy`, `log_posix.dfy`,
  `log_mac.dfy`);
- the interrupt-safety checker `tools/validators/isr_safety.py`
  (`isr_safety.dfy`) and the function index of
  `tools/book_indexer/build_index.py` (`book_index.dfy`).

Objects that the C code updates in place (queue, direct buffer, peer table,
batch, stream, receive buffer, logs, context) are classes whose methods
state their new state; their meaning (FIFO order, priority order, list
shape, round trips) is stated by functions and proved in lemmas. Pure
mappings and the Python tools' string processing are functions and
lemmas, with the tools' loops as methods proved equal to them. Where the
code as written does something its authors evidently did not intend, the
model keeps the code as written in the public operation and adds the
corrected form beside it (see "## Findings").

## Model

| member | source | states |
|---|---|---|
| Protocol.Crc16UpdateAppend | src/core/protocol.c:64-70 | feeding `a ++ b` to the CRC register is feeding `a`, then `b` |
| Protocol.Crc16Composes | src/core/protocol.c:55-70 | continuing `pt_crc16(a)` with `pt_crc16_update` over `b` gives `pt_crc16(a ++ b)` |
| Protocol.Crc16TwoSteps | src/core/protocol.c:64-69 | two bytes are two table steps `crc = (crc >> 8) ^ table[(crc ^ b) & 0xFF]` |
| Protocol.Crc16CheckSteps12 | src/core/protocol.c:16-49 | the register after "12" from 0 is 0xBDEB (table values for those bytes) |
| Protocol.Crc16CheckSteps34 | src/core/protocol.c:16-49 | "34" takes the register from 0xBDEB to 0x8832 |
| Protocol.Crc16CheckSteps56 | src/core/protocol.c:16-49 | "56" takes the register from 0x8832 to 0x11FD |
| Protocol.Crc16CheckSteps78 | src/core/protocol.c:16-49 | "78" takes the register from 0x11FD to 0x8B19 |
| Protocol.Crc16CheckSteps9 | src/core/protocol.c:16-49 | "9" takes the register from 0x8B19 to 0x2189 |
| Protocol.Crc16CheckFirstFour | src/core/protocol.c:16-49 | "1234" takes the register from 0 to 0x8832 |
| Protocol.Crc16CheckNextFour | src/core/protocol.c:16-49 | "5678" takes the register from 0x8832 to 0x8B19 |
| Protocol.Crc16ThreePieces | src/core/protocol.c:55-70 | the CRC of a buffer is the update over three consecutive pieces |
| Protocol.Crc16CheckValue | src/core/protocol.c:16-62 | CRC-16/KERMIT check value: the CRC of "123456789" is 0x2189 |
| Protocol.Crc16UpdateBuf | src/core/protocol.c:64-70 | the byte loop returns the fold of the table step over the first `len` bytes |
| Protocol.Crc16Buf | src/core/protocol.c:55-62 | `pt_crc16` is that fold started from 0 |
| Protocol.Crc16Check | src/core/protocol.c:72-75 | 1 exactly when the CRC equals `expected`, otherwise 0 |
| Protocol.Be16 | src/core/protocol.c:115-121 | a 16-bit value as two bytes whose big-endian reading is the value |
| Protocol.Be16RoundTrip | src/core/protocol.c:115-121 | reading back the two big-endian bytes gives the value |
| Protocol.FromBe16RoundTrip | src/core/protocol.c:115-121 | writing back a big-endian reading gives the two bytes |
| Protocol.WriteBytes | src/core/protocol.c:105-133 | stores bytes at an offset and changes nothing else in the buffer |
| Protocol.DiscoveryHeader | src/core/protocol.c:107-121 | the discovery header is 12 bytes |
| Protocol.DiscoveryBody | src/core/protocol.c:107-128 | the CRC-covered bytes are header plus name, 12 + name_len bytes |
| Protocol.DiscoveryWire | src/core/protocol.c:104-135 | an encoded discovery packet is 14 + name_len bytes |
| Protocol.DiscoveryEncode | src/core/protocol.c:81-136 | INVALID for name_len > 31 or an unknown type, BUFFER_FULL for a short buffer (buffer untouched), else writes exactly the 14 + name_len packet bytes and returns that count |
| Protocol.DiscoveryDecode | src/core/protocol.c:138-241 | a buffer under 14 bytes is TRUNCATED; every error is one of TRUNCATED, MAGIC, VERSION, INVALID, CRC |
| Protocol.DiscoveryHeaderFields | src/core/protocol.c:107-121 | the header holds magic, version, type, flags, port, transports and name_len at their offsets |
| Protocol.DiscoveryHeaderOfBytes | src/core/protocol.c:174-207 | twelve header bytes are the header of the packet decoded from them |
| Protocol.DiscoveryFields | src/core/protocol.c:174-207 | the decoded packet takes its fields from the fixed offsets and its name from the name_len bytes after the header |
| Protocol.DiscoveryDecodeSound | src/core/protocol.c:138-241 | a successfully decoded packet has version 1, a known type and a name of at most 31 bytes |
| Protocol.DiscoveryBodyOfBytes | src/core/protocol.c:219-231 | the bytes the decoder checks the CRC over are the body of the decoded packet |
| Protocol.DiscoveryWireFields | src/core/protocol.c:104-135 | an encoded packet has every field at its offset, the name after the header and the body before the CRC |
| Protocol.DiscoveryRoundTrip | src/core/protocol.c:81-241 | decoding an encoded version-1 packet of a known type gives the packet back, whatever follows it |
| Protocol.DiscoveryVersionRejected | src/core/protocol.c:112 | encode accepts any version, decode reports VERSION for every version other than 1 (also src/core/protocol.c:164-172) |
| Protocol.DiscoveryPrefixTruncated | src/core/protocol.c:145-212 | every strict prefix of a valid packet decodes to TRUNCATED |
| Protocol.DiscoveryBadCrcRejected | src/core/protocol.c:214-231 | a valid body with any other trailer decodes to CRC |
| Protocol.MessageHeaderWire | src/core/protocol.c:247-266 | the message header is 10 bytes |
| Protocol.MessageEncodeHeader | src/core/protocol.c:247-266 | writes exactly the 10 header bytes, returns 10 and leaves the rest of the buffer alone |
| Protocol.MessageDecodeHeader | src/core/protocol.c:268-326 | a buffer under 10 bytes is TRUNCATED; every error is one of TRUNCATED, MAGIC, VERSION, INVALID |
| Protocol.MessageDecodeHeaderSound | src/core/protocol.c:268-326 | a decoded header has version 1 and a type in 1..6 |
| Protocol.MessageHeaderWireFields | src/core/protocol.c:254-263 | the encoded header holds magic, version, type, flags, sequence and the big-endian length at their offsets |
| Protocol.MessageHeaderRoundTrip | src/core/protocol.c:247-326 | decoding an encoded version-1 header of a known type gives every field back |
| Protocol.MessageHeaderRejected | src/core/protocol.c:293-309 | an encoded header with another version is VERSION; with version 1 and an unknown type it is INVALID |
| Protocol.UdpWire | src/core/protocol.c:341-359 | a UDP datagram is 8 + payload_len bytes |
| Protocol.UdpEncode | src/core/protocol.c:332-362 | BUFFER_FULL with the buffer untouched when it is too short, else writes header and payload and returns 8 + payload_len |
| Protocol.UdpDecode | src/core/protocol.c:364-417 | a buffer under 8 bytes is TRUNCATED; every error is TRUNCATED or MAGIC |
| Protocol.UdpDecodeSound | src/core/protocol.c:390-416 | a decoded datagram's payload starts at offset 8, lies inside the buffer, and the first 8 + payload_len bytes are the encoding of the decoded port and payload |
| Protocol.UdpWireFields | src/core/protocol.c:341-353 | the encoded header holds the magic, the sender port and the payload length |
| Protocol.UdpRoundTrip | src/core/protocol.c:332-417 | decoding an encoded datagram gives its port, payload offset 8 and payload length |
| Protocol.UdpPrefixTruncated | src/core/protocol.c:370-404 | a datagram cut before the end of its payload decodes to TRUNCATED |
| Queue.PowerOfTwoValues | src/core/queue.c:8-11 | the bit test `v != 0 && (v & (v-1)) == 0` holds for exactly the sixteen powers of two below 0x10000 |
| Queue.PowerOfTwoNotNone | src/core/queue.c:8-11 | an accepted capacity is below `PT_SLOT_NONE`, so no slot index collides with the end-of-list marker |
| Queue.Bucket | src/core/queue.h:91 | `PT_COALESCE_HASH(key)` is a bucket in 0..31 |
| Queue.AdvanceIsModulo | src/core/queue.c:152 | stepping an index is `(i + 1) % capacity`, which the mask computes for a power-of-two capacity |
| Queue.PosIsModulo | src/core/queue.c:152 | the k-th slot after `start` is `(start + k) % capacity` |
| Queue.Window | src/core/queue.c:274-321 | the messages of `n` ring slots from `start` on, one per slot |
| Queue.WindowPush | src/core/queue.c:126-155 | writing the slot just past a window appends its message and keeps every earlier slot live |
| Queue.WindowPop | src/core/queue.c:306-313 | clearing the first slot of a window leaves the rest of it from the next index on |
| Queue.Highest | src/core/queue.c:584-591 | the level the priority pops serve: its head is set and every level above has none; -1 when no head is set |
| Queue.HighestIsTop | src/core/queue.c:584-591 | a level with a head and none above it is the one the search from CRITICAL down stops at |
| Queue.TailLinked | src/core/queue.c:135-149 | after an append only the previous tail's link changes, and it points at the new slot |
| Queue.Unhash | src/core/queue.c:604-609 | a removed slot's bucket is cleared only when it still names that slot and the key is nonzero |
| Queue.FirstCoalescable | src/core/queue.c:472-493 | the backward search finds the first USED and COALESCABLE slot among its positions, or none of them is |
| Queue.BackIndexIsNewest | src/core/queue.c:476-481 | searching back from `write_idx` visits the newest queued messages, newest first |
| Queue.CoalesceTargetsNewest | src/core/queue.c:466-493 | the last-four search only ever picks one of the `n` newest queued messages |
| Queue.ListsAppend | src/core/queue.c:135-149 | linking an unlisted slot after the tail of level p appends it to that level's list and leaves the others |
| Queue.ListsRemoveHead | src/core/queue.c:596-618 | removing the head of level p drops exactly that slot from its list; head, tail and count follow |
| Queue.HeadsMatchLists | src/core/queue.c:584-591 | under the list shape a level has a head exactly when its list is non-empty, and the head is the first slot |
| Queue.Appended | src/core/queue.c:140-148 | the tables after an append: the hash is untouched and every entry stays a slot index |
| Queue.Unlinked | src/core/queue.c:596-609 | the tables after a head leaves its level stay within range |
| Queue.AppendKeepsShape | src/core/queue.c:135-149 | an append keeps the tables describing the lists exactly, with the new slot at the tail of its level |
| Queue.EmptyShape | src/core/queue.c:530-556 | the tables `pt_queue_ext_init` leaves describe four empty lists |
| Queue.UnlinkKeepsShape | src/core/queue.c:596-618 | unlinking the head of a non-empty level keeps the tables describing the lists, minus that head |
| Queue.Count | src/core/queue.c:385-392 | 0 for an uninitialised queue, otherwise the count, never above capacity |
| Queue.FreeSlots | src/core/queue.c:394-401 | free slots and count add up to the capacity (0 uninitialised) |
| Queue.Pressure | src/core/queue.c:403-421 | fill level in percent, always within 0..100 |
| Queue.IsFull | src/core/queue.c:423-430 | 1 exactly when an initialised queue has no free slot |
| Queue.IsEmpty | src/core/queue.c:432-439 | 1 exactly when the count is 0; an uninitialised queue reads as empty |
| Queue.PressureFull | src/core/queue.c:403-430 | the pressure reaches 100 exactly when the queue is full |
| Queue.BackpressureLevels | src/core/queue.c:889-905 | BLOCKING, HEAVY, LIGHT and NONE exactly at 90%, 75% and 50% of the slots |
| Queue.DropsByPressure | src/core/queue.c:917-934 | CRITICAL is never dropped, HIGH is dropped from 90% pressure, LOW and NORMAL from 75% |
| Queue.Queued | src/core/queue.c:274-321 | the FIFO view: `count` messages from `read_idx` on |
| Queue.PushEnqueues | src/core/queue.c:126-157 | a push's message joins the back of the FIFO view |
| Queue.PopDequeues | src/core/queue.c:294-318 | a FIFO pop hands out the front message and the rest stay queued in order |
| Queue.ReplaceQueued | src/core/queue.c:484-490 | replacing a queued slot's data replaces that one message of the FIFO view |
| Queue.CoalesceReplacesRecent | src/core/queue.c:466-493 | the last-four coalesce replaces one of the (at most four) newest messages and leaves the rest |
| Queue.Hashed | src/core/queue.c:768-772 | entering a new slot in the hash touches only the hash (a zero key is never entered) |
| Queue.HashHit | src/core/queue.c:720-738 | a hit names a USED slot holding the key; a miss with a set bucket means that slot is unused or holds another key |
| Queue.NewSlotIsHit | src/core/queue.c:755-772 | after a keyed slot is appended and hashed, the next push with that key finds it |
| Queue.PriorityPopServesTop | src/core/queue.c:584-618 | while any message is listed there is a top level; a priority pop removes its head and one message from the total |
| Queue.KeyedAppendKeepsShape | src/core/queue.c:755-772 | a new slot from a coalescing push joins the tail of its level as with a plain push |
| Queue.OverwriteScenario | src/core/queue.c:744-750 | a concrete four-slot run of pushes and a priority pop that leaves `write_idx` on a listed slot with the push allowed |
| Queue.OverwriteBreaksLists | src/core/queue.c:744-784 | in that state the coalescing push overwrites the head of level 0 and no lists fit the tables afterwards |
| Queue.FreeFrom | src/core/queue.c:748 | the first slot from `write_idx` round the ring that is not USED, or none when all are |
| Queue.FreeSlotKeepsShape | src/core/queue.c:748-772 | taking an unused slot keeps the lists exact and every listed slot USED |
| Queue.PriorityPopKeepsListedUsed | src/core/queue.c:596-618 | a priority pop keeps every listed slot USED |
| Queue.Order | src/core/queue.c:584-618 | the messages in the order the priority pops serve them: level CRITICAL first, each level from head to tail; one message per listed slot |
| Queue.ListedDataFrame | src/core/queue.c:596-618 | rewriting a slot that is not on a list leaves that list's messages unchanged |
| Queue.ListedDataPop | src/core/queue.c:596-618 | taking the head off a list without repeats, and clearing its slot, takes off exactly its first message |
| Queue.OrderStep | src/core/queue.c:584-618 | when one level loses its first message and no other level's messages change, the whole order loses its first message, provided no higher level holds any |
| Queue.PopTakesFirst | src/core/queue.c:584-618 | a priority pop hands out the first message of the order, and the order that remains is the rest of it |
| Queue.MessageQueue.Init | src/core/queue.c:17-66 | INVALID_PARAM unless the capacity is a power of two, NO_MEMORY when allocation fails (queue unchanged), else count 0, indices 0 and, for at most 32 slots, empty tables |
| Queue.MessageQueue.ExtInit | src/core/queue.c:508-569 | above 32 slots nothing changes; otherwise every list, link and bucket is emptied and the pending pop and ISR flags cleared |
| Queue.MessageQueue.Free | src/core/queue.c:68-83 | releases the slots and zeroes the header; an uninitialised queue is untouched |
| Queue.MessageQueue.Reset | src/core/queue.c:85-95 | an initialised queue gets indices and count 0 and `has_data` 0; the slots and priority tables are left |
| Queue.MessageQueue.Append | src/core/queue.c:126-157 | writes the slot, links it after the tail of its level and advances `write_idx` and the count |
| Queue.MessageQueue.Push | src/core/queue.c:101-188 | INVALID_PARAM for an uninitialised queue or more than 256 bytes, BUFFER_FULL when full, both with no change; else appends at `write_idx` with no key |
| Queue.MessageQueue.PushIsr | src/core/queue.c:190-268 | the checks of `Push`; the slot at `write_idx` becomes level 0 and USED (READY too for the Open Transport variant) and no list is touched |
| Queue.MessageQueue.Pop | src/core/queue.c:274-321 | INVALID_PARAM uninitialised, QUEUE_EMPTY for no count or a slot not USED (not READY on Open Transport); else hands out the front message, clears it, advances `read_idx` and clears `has_data` at count 0 |
| Queue.MessageQueue.Peek | src/core/queue.c:323-356 | the message `Pop` would hand out, with nothing changed |
| Queue.MessageQueue.Consume | src/core/queue.c:358-379 | drops the front message without looking at its flags; no-op when uninitialised or empty |
| Queue.MessageQueue.Coalesce | src/core/queue.c:445-496 | 0 exactly when one of the last `min(count, 4)` slots is USED and COALESCABLE; the first such slot found gets the new data |
| Queue.MessageQueue.TopLevel | src/core/queue.c:584-591 | the level search the priority pops share returns `Highest` of the heads |
| Queue.MessageQueue.Unlink | src/core/queue.c:596-618 | slot h leaves level p: head, tail, count and hash updated, slot cleared, count decremented |
| Queue.MessageQueue.PopPriority | src/core/queue.c:574-627 | -1 with no change when the count is 0 or no level has a head; else removes and returns the head of the top level |
| Queue.MessageQueue.PopPriorityDirect | src/core/queue.c:632-665 | names the head `PopPriority` would take and records it as pending; the count and lists are unchanged |
| Queue.MessageQueue.Commit | src/core/queue.c:670-705 | unlinks and clears the pending slot; the caller must have just done a successful direct pop |
| Queue.MessageQueue.PushCoalesce | src/core/queue.c:710-859 | rejects empty or oversized data; a hash hit replaces that slot's data in place; otherwise -1 when full, else a new slot at `write_idx`, appended and hashed; ISR variant notes hit, collision and full |
| Queue.MessageQueue.InsertAtWrite | src/core/queue.c:741-784 | the miss path: note a collision, -1 when full, else take the slot at `write_idx` |
| Queue.MessageQueue.Replace | src/core/queue.c:731-737 | a coalesce hit rewrites only that slot's data and, outside an ISR, its timestamp |
| Queue.MessageQueue.AppendKeyed | src/core/queue.c:753-784 | a new slot appended at `w` and entered in the hash under its key |
| Queue.MessageQueue.FindFree | src/core/queue.c:744-748 | none when full, else the first slot from `write_idx` that is not USED |
| Queue.MessageQueue.PushCoalesceFree | src/core/queue.c:710-784 | the coalescing push with the slot choice its comment describes: a new message goes into the first unused slot from `write_idx` |
| Queue.MessageQueue.InsertFree | src/core/queue.c:741-784 | the miss path of the corrected push: note a collision, then take a free slot or fail |
| Queue.MessageQueue.TryPush | src/core/queue.c:910-949 | drops (-1, no change, level reported before the push) when the policy says so; otherwise the coalescing push as written: a hash hit replaces that slot, a miss takes the slot at `write_idx` (appended and hashed), and the level is reported after it |
| Queue.MessageQueue.TryPushFree | src/core/queue.c:910-949 | the same drop policy, followed by the corrected coalescing push whose miss takes the first unused slot from `write_idx` (also src/core/queue.c:744-784) |
| Queue.MessageQueue.CheckIsrFlags | src/core/queue.c:864-880 | with a log, reports the ISR flags and clears them; without one nothing changes |
| DirectBuffer.InitCapacity | src/core/direct_buffer.c:16-44 | capacity 0 becomes 4096, above 8192 is INVALID_PARAM, any other request is kept |
| DirectBuffer.QueueStatus | src/core/direct_buffer.c:66-82 | PT_OK exactly for a non-empty message that fits an IDLE buffer; INVALID_PARAM for length 0, WOULD_BLOCK when not IDLE, MESSAGE_TOO_LARGE when it does not fit |
| DirectBuffer.Buffer.Init | src/core/direct_buffer.c:16-44 | INVALID_PARAM with no change for an oversized request, NO_MEMORY when allocation fails, else an IDLE empty buffer of the chosen capacity |
| DirectBuffer.Buffer.Free | src/core/direct_buffer.c:46-60 | releases the data and leaves an empty IDLE buffer of capacity 0 |
| DirectBuffer.Buffer.CopyIn | src/core/direct_buffer.c:84 | copies the message into the start of the buffer and leaves the rest |
| DirectBuffer.Buffer.Queue | src/core/direct_buffer.c:66-93 | the status `QueueStatus` gives; on success QUEUED with the bytes, length and priority; otherwise nothing changes |
| DirectBuffer.Buffer.MarkSending | src/core/direct_buffer.c:95-107 | 0 and SENDING exactly from QUEUED; -1 with the state unchanged otherwise |
| DirectBuffer.Buffer.Complete | src/core/direct_buffer.c:109-118 | IDLE with length 0 from any state |
| DirectBuffer.Buffer.Ready | src/core/direct_buffer.c:120-126 | 1 exactly when QUEUED, and then the buffer is not available |
| DirectBuffer.Buffer.Available | src/core/direct_buffer.c:128-134 | 1 exactly when IDLE, which is exactly when a one-byte message would be accepted |
| DirectBuffer.Buffer.Receive | src/core/direct_buffer.c:140-160 | MESSAGE_TOO_LARGE with no change when the message does not fit, else stores it; the state is never touched |
| DirectBuffer.SendCycle | src/core/direct_buffer.c:66-118 | queue, a refused second queue (WOULD_BLOCK), mark sending, complete, and the second message is then accepted |
| Peer.EmptySlot | src/core/peer.c:30-36 | slot i gets id i+1, UNUSED, no magic and name index `(uint8_t)i` |
| Peer.InitialPeers | src/core/peer.c:30-36 | the slot array of `pt_peer_list_init`: slot i is `EmptySlot(i)` |
| Peer.CountLiveUpdate | src/core/peer.c:294-327 | replacing one slot changes the number of live slots by the change in that slot's liveness |
| Peer.FirstAddr | src/core/peer.c:119-129 | the first in-use slot from k on with this address and port; none of the slots before it matches |
| Peer.FirstUnused | src/core/peer.c:181-197 | the first UNUSED slot from k on; no earlier slot is UNUSED |
| Peer.StoredName | src/core/peer.c:217-223 | the stored name is the given one cut to at most 31 characters (also src/core/peer.c:281-287) |
| Peer.Created | src/core/peer.c:236-278 | a created peer is DISCOVERED with a valid magic, the address and port given, the tick count and zeroed statistics |
| Peer.Destroyed | src/core/peer.c:315-322 | a destroyed slot is UNUSED with magic, address and port cleared; id and name index stay |
| Peer.Allowed | src/core/peer.c:348-384 | the transition table: into CONNECTED only from DISCOVERED or CONNECTING, from UNUSED only to DISCOVERED, every live state may go to UNUSED, and so on |
| Peer.IsTimedOut | src/core/peer.c:439-450 | 0 for a peer never seen; otherwise 1 exactly when the 32-bit tick difference exceeds the timeout |
| Peer.GetInfo | src/core/peer.c:491-507 | the cold info with id, latency and name index from the hot data; `connected` is 1 exactly in CONNECTED |
| Peer.PeerTable.ListInit | src/core/peer.c:11-47 | INVALID_PARAM for a bad context, NO_MEMORY on allocation failure, else the initial slots, `peer_count` 0; the name indexes fit the table exactly when at most 16 slots |
| Peer.PeerTable.ListInitBounded | src/core/peer.c:11-47 | the corrected initialisation: at most 16 slots, so every name index is inside the name table |
| Peer.PeerTable.ListFree | src/core/peer.c:49-59 | no slots, `max_peers` and `peer_count` 0 |
| Peer.PeerTable.FindById | src/core/peer.c:65-90 | none for id 0, id above `max_peers`, or a slot not in use; else slot id-1 |
| Peer.PeerTable.FindByAddr | src/core/peer.c:92-130 | the first in-use slot with this address and port |
| Peer.PeerTable.FindUnused | src/core/peer.c:181-197 | the first UNUSED slot |
| Peer.PeerTable.FindByName | src/core/peer.c:132-179 | none for an empty name; else the first in-use slot whose stored name is exactly the name |
| Peer.PeerTable.Create | src/core/peer.c:203-304 | a known address returns that peer with the count unchanged; otherwise the first UNUSED slot becomes DISCOVERED and the count grows, or none when full |
| Peer.PeerTable.Destroy | src/core/peer.c:306-329 | a slot with the valid magic becomes `Destroyed` and the count drops, never below 0; any other slot is left alone |
| Peer.PeerTable.SetState | src/core/peer.c:335-420 | INVALID_PARAM without the magic, INVALID_STATE for a transition outside the table (state unchanged), else the new state |
| Peer.NamesEqual | src/core/peer.c:165-174 | the character loop says equal exactly when the names are equal |
| Peer.NameIndexEscapes | src/core/peer.c:30-35 | with more than 16 slots, slot 16 gets name index 16, outside the 16-entry name table |
| Send.Frame | src/core/send.c:112-122 | a batch entry is the 4-byte header followed by exactly the message bytes |
| Send.UnbatchFrames | src/core/send.c:108-126 | the batch layout is unambiguous: walking the length prefixes of the framed messages gives back the messages themselves, in the order they were added |
| Send.Kept | src/core/send.c:231-240 | every message the drain keeps fits an empty 1400-byte batch, and no message is invented |
| Send.Batch.Init | src/core/send.c:103-106 | a reset batch is empty: no bytes used, no entries |
| Send.Batch.Add | src/core/send.c:108-126 | refuses with -1 and changes nothing when the entry would pass `PT_BATCH_MAX_SIZE`; otherwise the payload grows by exactly that entry and the count by one |
| Send.Batch.Prepare | src/core/send.c:138-163 | 0 for an empty batch; otherwise the payload length, a DATA header with the BATCH flag carrying the peer's send sequence, which advances modulo 256 |
| Send.PreparedBatchReadsBack | src/core/send.c:138-163 | the header a prepared batch goes out with decodes back to itself, and its payload reads back as the messages added |
| Send.BatchMessage | src/core/send.c:219-243 | one message of the drain keeps the drain invariant: it joins the batch, or the full batch is sent first, or it is dropped when even an empty batch cannot hold it |
| Send.DrainStep | src/core/send.c:219-243 | one turn of the drain loop keeps the queue and batch invariants; the message it pops is the next one of the priority order, so the messages popped so far followed by the order left stay the same sequence; it stops only when nothing is listed or the count ran out |
| Send.PopNext | src/core/send.c:219-225 | the direct pop of the drain: nothing when no message is listed, otherwise the head of the top level, recorded as pending (also src/core/queue.c:632-665) |
| Send.CommitNext | src/core/send.c:236-240 | committing the pending head removes the first message of the priority order and leaves the rest in order (also src/core/queue.c:670-705) |
| Send.FlushLast | src/core/send.c:246-254 | at the end of the drain a batch still holding messages is sent, so the batches sent concatenate to all the framed messages kept |
| Send.DrainSendQueue | src/core/send.c:199-258 | nothing for an empty queue; otherwise the messages popped are a prefix of the old queue's messages in priority order and the queue keeps exactly the rest (none unless the count ran out), the batches sent concatenate to the framed messages popped minus those too large for a batch, each batch fits 1400 bytes, and the result counts the successful send calls |
| Send.DrainDirectBuffer | src/core/send.c:264-302 | 0 and nothing changed unless the direct buffer is QUEUED; otherwise exactly its bytes are handed to the send callback once and the buffer returns to IDLE whether the send worked or not |
| Send.FragmentFlags | src/core/send.c:408-414 | the first fragment carries FIRST, the one that finishes the message carries LAST, and a message in one fragment carries both |
| Send.MaxFragment | src/core/send.c:390-391 | a fragment's payload room is the peer's maximum less the fragment header |
| Send.FragmentedSendNeverCompletes | src/core/send.c:405-443 | a message that needs more than one fragment never ends with PT_OK: the second fragment finds the direct buffer still QUEUED |
| Send.SendFragment | src/core/send.c:28-80 | WOULD_BLOCK when the direct buffer is not IDLE, MESSAGE_TOO_LARGE when header and data pass its capacity, both with nothing changed; otherwise the buffer is QUEUED holding the fragment header followed by the chunk |
| Send.SendFragmented | src/core/send.c:375-444 | the result of fragmenting follows the state of the direct buffer and the peer maximum, and the first fragment queued is the header for offset 0 followed by the message's first chunk |
| Send.PressureRejectsAsWritten | src/core/send.c:502-522 | compares the 0..100 pressure of `pt_queue_pressure` with 0.90 and 0.75, so any pressure of 1 percent or more refuses LOW and NORMAL |
| Send.PressureRejects | src/core/send.c:502-522 | as intended: LOW refused from 90 percent, NORMAL from 75 percent, HIGH and CRITICAL never |
| Send.PressureAsWrittenAtOnePercent | src/core/send.c:502-522 | at 1 percent the code as written refuses NORMAL and LOW, the intended rule refuses neither |
| Send.PressureRejectsMonotone | src/core/send.c:502-522 | a priority refused at some pressure stays refused at any higher pressure |
| Send.PushPlain | src/core/send.c:528-531 | a plain push fails with BUFFER_FULL and nothing changed when the slot is too small or the queue is full; otherwise the queue holds the message |
| Send.PushKeyed | src/core/send.c:525-527 | the coalescing push as written (slot at `write_idx` on a miss) either succeeds and the queue holds the message, or fails with BUFFER_FULL and nothing changed |
| Send.PushKeyedFree | src/core/send.c:525-527 | the same outcomes through the corrected coalescing push, which takes a free slot on a miss (also src/core/queue.c:744-784) |
| Send.SendQueued | src/core/send.c:493-547 | tier 1 as written: refused with BUFFER_FULL whenever the float pressure test refuses (any pressure of 1 percent or more for LOW and NORMAL) or the message passes a slot; accepted when not refused, a slot fits and the queue has room for a plain push; on failure the queue is as it was, on PT_OK it holds the message |
| Send.SendQueuedIntended | src/core/send.c:493-547 | tier 1 as intended: the same outcomes with LOW refused from 90 percent and NORMAL from 75 percent, and the corrected coalescing push |
| Send.Validate | src/core/send.c:346-363 | the argument checks in order: INVALID_STATE for no context, INVALID_PARAM for a length outside 1..`PT_MAX_MESSAGE_SIZE` or a priority above CRITICAL, PEER_NOT_FOUND for an unknown peer, and none exactly when all pass |
| Send.Threshold | src/core/send.c:465-469 | the direct threshold is positive and is the configured one unless that is 0 |
| Send.SendRouted | src/core/send.c:446-547 | an unreliable send that UDP takes is PT_OK with no buffer touched; otherwise a message above the threshold gets the direct buffer's queue status and the rest go through tier 1 |
| Send.SendEx | src/core/send.c:334-548 | a validation failure returns its error with nothing changed; past validation, a fragmentable message takes the fragmenting branch and consumes one message id, and any other goes through the routing |
| Send.SendDefault | src/core/send.c:563-572 | `PeerTalk_Send` is `PeerTalk_SendEx` at NORMAL priority, no flags, no key; so, as written, a queued send is refused with BUFFER_FULL at any pressure of 1 percent or more |
| Stream.PeerStream.constructor | src/core/stream.c:64-76 | a stream starts inactive, not cancelled, with nothing sent and no callback |
| Stream.PeerStream.Notify | src/core/stream.c:178-183 | the completion callback is called exactly when one is registered, with the peer, the outcome and the bytes sent so far (also src/core/stream.c:216-221, src/core/stream.c:235-240) |
| Stream.PeerStream.Poll | src/core/stream.c:157-244 | nothing for an idle stream; a cancelled stream ends with CANCELLED; otherwise the next chunk (the chunk size, 1024 when 0, at most what remains) is offered to the send function: WOULD_BLOCK leaves everything for the next poll, another error ends the stream with that error, and a send that reaches the end ends it with OK |
| Stream.StreamSendCheck | src/core/stream.c:30-63 | the checks of `PeerTalk_StreamSend` in order: INVALID_STATE, INVALID_PARAM for empty data, MESSAGE_TOO_LARGE, PEER_NOT_FOUND, NOT_CONNECTED, BUSY, and none exactly when all pass |
| Stream.StreamSend | src/core/stream.c:18-79 | a refused call leaves the stream untouched; an accepted one starts it at byte 0, not cancelled, with the caller's data and callback |
| Stream.StreamCancel | src/core/stream.c:85-115 | INVALID_STATE, PEER_NOT_FOUND, or NOT_FOUND for an idle stream, each with nothing changed; an active stream is marked cancelled and keeps running until the next poll |
| Stream.StreamActive | src/core/stream.c:121-140 | 1 exactly when the context is valid, the peer exists and its stream is active, else 0 |
| Stream.StreamToCompletion | src/core/stream.c:186-243 | polling a started stream whose sends all succeed hands out chunks that concatenate to the data, in order, and ends with OK and every byte sent |
| Context.WithDefaults | src/core/pt_init.c:50-77 | each of the eight configuration fields takes its default exactly when it is 0 and is kept as given otherwise (transports 0xFF, ports 7353/7354/7355, 16 peers, 5000 ms, 15000 ms, 4096 bytes) |
| Context.DefaultsIdempotent | src/core/pt_init.c:53-77 | defaulting is idempotent: a defaulted configuration is its own default |
| Context.LocalInfo | src/core/pt_init.c:94-100 | the local peer is id 0 with no address yet, the TCP port, every configured transport, nothing connected and no name index |
| Context.Context.constructor | src/core/pt_init.c:44-48 | a zero-filled context that carries the magic number, with an empty peer list |
| Context.Init | src/core/pt_init.c:19-154 | NULL exactly for a missing configuration, an empty local name, or a failed allocation, peer-list set-up or platform init; otherwise a fresh context holding the defaulted configuration and the local info, with a peer list of `max_peers` slots as written, whose name indices stay within the 16-entry table exactly when `max_peers` is at most 16 |
| Context.InitBounded | src/core/pt_init.c:19-154 | the same outcomes, with the peer list capped at 16 slots so every name index stays inside the name table (also src/core/peer.c:11-47) |
| Context.Shutdown | src/core/pt_init.c:160-190 | a valid context is marked uninitialised and loses its magic number; an invalid one is left alone |
| Context.Poll | src/core/pt_init.c:196-212 | PT_OK exactly when the context is valid and the platform poll succeeds; INVALID_PARAM for a bad context, NETWORK for a failed platform poll |
| Context.GetPeerName | src/core/pt_init.c:244-255 | the name-table entry for a valid context and an index below 16, "" otherwise; the result is always a terminated name of at most 31 characters |
| Context.ListedCount | src/core/pt_init.c:465-482 | the listing holds one entry per occupied peer slot |
| Context.ListedFromLive | src/core/pt_init.c:465-482 | every listed entry is the info of an occupied slot |
| Context.GetPeers | src/core/pt_init.c:448-485 | INVALID_STATE and nothing for a bad context; otherwise the infos of the occupied slots in slot order, cut at the caller's `max_peers` |
| Context.GetPeer | src/core/pt_init.c:542-563 | INVALID_STATE for a bad context, PEER_NOT_FOUND for an unknown id, otherwise exactly the info of the slot the id lookup finds, which is occupied and carries that id |
| Context.FindPeerByAddress | src/core/pt_init.c:609-631 | the id and info of the first occupied slot with this address and port, or 0 and nothing when there is none or the context is bad |
| Context.Outcome | src/core/pt_init.c:691-704 | OK exactly when some send succeeded; PEER_NOT_FOUND when nothing was sent and nothing failed; otherwise the last failure |
| Context.BroadcastSent | src/core/pt_init.c:664-689 | the count of sends is positive exactly when some connected peer's send succeeded |
| Context.BroadcastLastErr | src/core/pt_init.c:664-689 | the recorded failure is OK exactly when every connected peer's send succeeded, and otherwise is the code one of them failed with |
| Context.BroadcastOutcome | src/core/pt_init.c:649-705 | a broadcast reports OK when any connected peer took the message, PEER_NOT_FOUND when no peer was reached, and otherwise the error of a reached peer's send |
| Context.Broadcast | src/core/pt_init.c:649-705 | INVALID_STATE for a bad context, INVALID_PARAM for an empty or oversized message, and otherwise the outcome of one send per connected slot |
| Context.GetQueueStatus | src/core/pt_init.c:723-757 | INVALID_STATE for a bad context, PEER_NOT_FOUND for an unknown peer, INVALID_STATE for a missing or bad queue; otherwise pending is the queue's count and pending plus available is its capacity |
| Version.Version | src/core/pt_version.c:13-16 | the version is the five-character "x.y.z" string |
| Version.Message | src/core/pt_version.c:22-96 | a listed error code has its own non-empty message, different from "Unknown error"; any other code has none |
| Version.ErrorString | src/core/pt_version.c:22-97 | "Unknown error" exactly for a code without its own case, and never an empty string |
| Version.ErrorStringExamples | src/core/pt_version.c:75-95 | CRC, MAGIC and VERSION read "CRC validation failed", "Invalid magic number" and "Protocol version mismatch"; BUSY and CANCELLED fall to "Unknown error" |
| Version.AvailableTransports | src/core/pt_version.c:103-116 | TCP and UDP exactly when the TCP/IP stack is built in, the AppleTalk bits exactly when AppleTalk is, and nothing else |
| Version.GetPeerName | src/core/pt_version.c:122-128 | NULL exactly for a missing or invalid context, otherwise the name-table entry, "" for an index past the table |
| MacTcpDriver.OptimalBufferSize | src/mactcp/mactcp_driver.c:196-233 | 4 x MTU + 1024 clamped to 4096..65536, and 8192 when the MTU query fails |
| MacTcpDriver.OptimalMonotone | src/mactcp/mactcp_driver.c:196-233 | a larger MTU never gives a smaller buffer |
| MacTcpDriver.Half | src/mactcp/mactcp_driver.c:249-288 | halving a C `long` truncates toward zero |
| MacTcpDriver.TierSize | src/mactcp/mactcp_driver.c:249-288 | more than 2 MB free gives the optimal size, more than 1 MB gives 8192, less gives 4096 |
| MacTcpDriver.BufferSizeForMemory | src/mactcp/mactcp_driver.c:249-288 | the tier's size unless it passes half the largest free block, then 4096; always within 4096..65536 |
| MacTcpDriver.MinimumIgnoresHeadroom | src/mactcp/mactcp_driver.c:249-288 | with a largest block under 8 KB the size is still 4096, more than half of it |
| MacTcpDriver.PlentyBelowModerate | src/mactcp/mactcp_driver.c:196-288 | on Ethernet more free memory can give a smaller buffer: 7024 with over 2 MB free against 8192 with between 1 and 2 MB |
| MacTcpDriver.SizeSources | src/mactcp/mactcp_driver.c:249-288 | every size returned is 4096, 8192 or the optimal one, the optimal one only with more than 2 MB free |
| MacTcpDriver.ResetTcp | src/mactcp/mactcp_driver.c:326-336 | a peer stream after the reset is unused with no buffer, keeping only the fields the reset does not touch |
| MacTcpDriver.ResetListener | src/mactcp/mactcp_driver.c:316-323 | the listener is reset like a peer stream except that its `rds_outstanding` is left alone |
| MacTcpDriver.ResetUdp | src/mactcp/mactcp_driver.c:307-313 | the discovery stream after the reset is unused with no buffer and nothing pending or ready |
| MacTcpDriver.MacTcpData.constructor | src/mactcp/mactcp_driver.c:352-376 | the zero-filled platform data has every stream unused |
| MacTcpDriver.MacTcpData.QueryLimits | src/mactcp/mactcp_driver.c:145-177 | the driver's TCP connection limit, or 64 with result -1 when the query fails; UDP is always 64 |
| MacTcpDriver.MacTcpData.InitStreams | src/mactcp/mactcp_driver.c:301-341 | every peer stream, the listener and the discovery stream are reset, no announcement has been made and a second is 60 ticks |
| NetPosix.ActivePeers.constructor | src/posix/net_posix.c:198-199 | the active set starts empty with every position 0xFF, which satisfies the set's invariant |
| NetPosix.ActivePeers.Add | src/posix/net_posix.c:622-633 | a listed peer leaves the set as it was; a new one is appended and its position recorded, keeping `active_position[active_peers[i]] == i` and 0xFF for every unlisted peer |
| NetPosix.ActivePeers.Remove | src/posix/net_posix.c:641-660 | an unlisted peer leaves the set as it was; a listed one leaves the set, the last entry moves into its place and takes over its position, and the invariant is kept |
| NetPosix.Quality | src/posix/net_posix.c:1143-1155 | the quality is 100, 90, 75, 50 or 25 for a latency below 5, 10, 20, 50 ms or above |
| NetPosix.QualityMonotone | src/posix/net_posix.c:1143-1155 | a higher latency never gets a better quality |
| NetPosix.Rtt | src/posix/net_posix.c:1171-1172 | the round trip is the tick difference modulo 2^32, cut to 16 bits |
| NetPosix.UpdateLatency | src/posix/net_posix.c:1163-1188 | no pending ping changes nothing; otherwise the first sample becomes the latency, a later one gives `(3 * old + rtt) / 4`, the quality follows the new latency and the ping is cleared |
| NetPosix.LatencySteady | src/posix/net_posix.c:1175-1180 | a sample equal to the current latency leaves the average where it is |
| NetPosix.FrameCrcOk | src/posix/net_posix.c:1371-1386 | a message passes exactly when its big-endian trailer is the CRC-16 of header and payload together |
| NetPosix.CrcContinues | src/posix/net_posix.c:1372-1376 | the header's CRC continued over the payload is the CRC of both, including for an empty payload |
| NetPosix.TrailerMatches | src/posix/net_posix.c:1379 | reading the trailer high byte first gives a value exactly when the trailer is that value's two bytes |
| NetPosix.RecvBuffer.constructor | src/posix/net_posix.c:1199-1203 | a new receive buffer waits for a 10-byte header with nothing received |
| NetPosix.RecvBuffer.Reset | src/posix/net_posix.c:1199-1203 | back to the header phase, needing 10 bytes, with 0 received |
| NetPosix.RecvBuffer.RecvHeader | src/posix/net_posix.c:1216-1276 | no data is 0 with nothing changed; an error or a closed connection is -1; a completed header that fails to decode or announces more than 8192 bytes is -1; a good one moves to the payload phase needing its length, or to the CRC phase needing 2 bytes for an empty payload |
| NetPosix.RecvBuffer.RecvPayload | src/posix/net_posix.c:1283-1318 | the payload bytes land after those already received; a completed payload moves to the CRC phase needing 2 bytes and gives 1 |
| NetPosix.RecvBuffer.RecvCrc | src/posix/net_posix.c:1325-1357 | the trailer bytes land after those already received; both in gives 1 |
| NetPosix.RecvBuffer.ProcessMessage | src/posix/net_posix.c:1366-1425 | 0 exactly when the trailer matches the CRC and the frame is not a DISCONNECT (a DISCONNECT is always -1); the frame's full size (10 + payload + 2) for the statistics exactly when the CRC matches |
| NetPosix.FeedHeader | src/posix/net_posix.c:1242-1273 | a header phase fed a whole well-formed header completes into the next phase |
| NetPosix.FeedPayload | src/posix/net_posix.c:1309-1315 | a payload phase fed the whole payload completes into the CRC phase |
| NetPosix.FeedCrc | src/posix/net_posix.c:1325-1357 | a CRC phase fed both trailer bytes completes with the trailer stored |
| NetPosix.ReceiveFrame | src/posix/net_posix.c:1216-1425 | a well-formed frame read phase by phase passes every phase with its full size counted, and is accepted unless it is a DISCONNECT: the state machine and the encoder agree |
| NetPosix.ConnectedAreUsed | src/posix/net_posix.c:2003-2010 | the connected count never exceeds the used count |
| NetPosix.UsedAreLive | src/posix/net_posix.c:2003-2010 | when the magic numbers mark exactly the used slots, counting used slots counts the live peers |
| NetPosix.GlobalPeerCounts | src/posix/net_posix.c:1979-2019 | INVALID_STATE for a bad context; otherwise the used slots as peers discovered and the connected ones as peers connected and as active streams |
| TcpIo.StreamIdx | src/mactcp/tcp_io.c:42-47 | -1 exactly for no peer or a NULL connection; otherwise the stream index, one below the stored handle |
| TcpIo.Extract | src/mactcp/tcp_io.c:365-453 | the frame scan never consumes more than the buffered bytes |
| TcpIo.FrameAtFront | src/mactcp/tcp_io.c:382-394 | a frame the scan accepts at the front of the buffer is byte for byte the wire form of the message it takes |
| TcpIo.ExtractCases | src/mactcp/tcp_io.c:368-407 | with a header and trailer's worth buffered: a header that does not decode stops the scan as corrupt, a frame not yet complete waits, a bad trailer stops as corrupt, a DISCONNECT ends the scan after that frame, and any other frame is taken and the scan goes on (also src/mactcp/tcp_io.c:438-442) |
| TcpIo.ExtractStep | src/mactcp/tcp_io.c:406-452 | past an accepted frame that is not a DISCONNECT, the scan of the buffer is that frame followed by the scan of the rest |
| TcpIo.ExtractNothing | src/mactcp/tcp_io.c:365-453 | a scan that consumes no bytes takes no frame |
| TcpIo.ExtractTakesFrames | src/mactcp/tcp_io.c:365-453 | the bytes consumed are exactly the wire forms of the frames taken, in order from the front of the buffer |
| TcpIo.ExtractFrameFirst | src/mactcp/tcp_io.c:365-453 | a buffer that starts with a well-formed frame yields that frame first and then scans what follows: the scan and the encoder agree |
| TcpIo.FitCountFits | src/mactcp/tcp_io.c:291-303 | the chunks the copy loop accepts fit the input buffer together |
| TcpIo.CheckFrameCrc | src/mactcp/tcp_io.c:389-396 | the CRC test passes exactly when the trailer, read high byte first, is the CRC of header and payload |
| TcpIo.ReadFront | src/mactcp/tcp_io.c:369-403 | one pass of the loop's checks on the unconsumed bytes agrees with the scan: waiting, corrupt, or a whole frame whose header decodes and whose trailer matches |
| TcpIo.ScanFrames | src/mactcp/tcp_io.c:365-453 | the frame loop over the buffered bytes takes exactly the frames, consumes exactly the bytes and stops for exactly the reason the scan describes |
| TcpIo.FetchFits | src/mactcp/tcp_io.c:251-358 | what the fetch loop appends never overflows the 8192-byte input buffer |
| TcpIo.PeerInput.Append | src/mactcp/tcp_io.c:300-302 | the chunk lands right after the buffered bytes and the length grows by its size |
| TcpIo.PeerInput.AppendChunks | src/mactcp/tcp_io.c:291-303 | the chunks up to the first empty one or the first that would overflow are appended in order, and no other |
| TcpIo.PeerInput.FetchData | src/mactcp/tcp_io.c:234-358 | up to 8 reads append their chunks after the buffered bytes; the result reports whether a read failed on a closing connection |
| TcpIo.PeerInput.ShiftTail | src/mactcp/tcp_io.c:459-469 | after the frame loop the buffer holds exactly the bytes past those consumed |
| TcpIo.PeerInput.ProcessFrames | src/mactcp/tcp_io.c:365-490 | the frames handed on are those the scan takes, the result counts them or is -1 after a DISCONNECT, a corrupt stream empties the buffer, and more unread data sets DATA_ARRIVED again |
| TcpIo.PeerInput.Recv | src/mactcp/tcp_io.c:201-491 | a connection handle that names no stream (NULL or past the 16 streams) gives 0 and changes nothing; otherwise a pending CONN_CLOSED is cleared and gives -1 before anything is read; a pending DATA_ARRIVED is cleared and runs the fetch, -1 on a closing connection; then the buffered frames are processed |
| TcpIo.FrameLenAsWritten | src/mactcp/tcp_io.c:382 | the frame length stored in a uint16_t is 10 + length + 2 up to 65523 payload bytes and wraps below 12 above that |
| TcpIo.FrameLenWraps | src/mactcp/tcp_io.c:382-391 | a header announcing 65524 payload bytes wraps the frame length to 0 and passes the completeness test with 12 bytes buffered |
| TcpIo.FrameCompleteInBounds | src/mactcp/tcp_io.c:382-391 | with the length computed without wrap-around, a frame counted complete has its trailer inside the buffer, and the as-written test agrees on it |
| TcpMacTcp.Int16 | src/mactcp/tcp_mactcp.c:95 | the `(int16_t)` cast keeps an unsigned short below 0x8000 and wraps a larger one to its negative reading |
| TcpMacTcp.Asr | src/mactcp/tcp_mactcp.c:64-115 | each event ORs its flag into `asr_flags` and, for the logged events, its bit into `log_events`; a terminate also keeps the reason as a signed 16-bit code; nothing else in the record changes |
| TcpMacTcp.AsrRecords | src/mactcp/tcp_mactcp.c:77-110 | data arrival, closing, terminate, timeout, urgent data and ICMP each set their own flag (closing and terminate the same one), and only data arrival, closing, terminate and ICMP are logged |
| TcpMacTcp.AsrUnknownIgnored | src/mactcp/tcp_mactcp.c:77-110 | an event the switch does not list leaves the record as it was |
| TcpMacTcp.AsrOnlySets | src/mactcp/tcp_mactcp.c:64-115 | the interrupt handler never clears a flag or a logged event |
| TcpMacTcp.AsrIdempotent | src/mactcp/tcp_mactcp.c:64-115 | a repeated event adds nothing: the flags are sticky |
| TcpMacTcp.TcpAsr | src/mactcp/tcp_mactcp.c:64-115 | the handler updates only the hot record of the stream it was registered for |
| TcpMacTcp.Allocation | src/mactcp/tcp_mactcp.c:169-196 | a buffer size found by the allocation loop lies between 4096 and the size asked for |
| TcpMacTcp.TriedHalves | src/mactcp/tcp_mactcp.c:175-183 | the sizes tried start at the size asked for, halve after each failure and never go below 4096 |
| TcpMacTcp.AllocationFirstSuccess | src/mactcp/tcp_mactcp.c:175-196 | the loop stops at the first size whose allocation succeeds, and finds nothing exactly when every attempt fails |
| TcpMacTcp.AfterCreate | src/mactcp/tcp_mactcp.c:197-248 | once TCPCreate answers, the slot is IDLE with its stream, its buffer and no peer, or, on failure, UNUSED again with the buffer freed; the flags are cleared either way |
| TcpMacTcp.CreateCode | src/mactcp/tcp_mactcp.c:225-254 | 0 exactly when TCPCreate succeeds, RESOURCE exactly when the driver is out of streams, -1 for any other failure |
| TcpMacTcp.TcpCreate | src/mactcp/tcp_mactcp.c:141-255 | -1 with nothing changed for a bad index or a slot in use; otherwise the buffer sized for the memory situation is allocated, halving down to 4096, -1 when nothing can be had, then the slot follows the driver's answer; no other slot changes |
| TcpMacTcp.Released | src/mactcp/tcp_mactcp.c:373-412 | a released slot is UNUSED with no stream, no peer, no buffer and nothing outstanding |
| TcpMacTcp.TcpRelease | src/mactcp/tcp_mactcp.c:355-417 | -1 for a bad index, 0 with nothing changed for an UNUSED slot, otherwise 0 with the slot released whatever the driver answers; no other slot changes |
| TcpMacTcp.CreateReleaseRestores | src/mactcp/tcp_mactcp.c:141-255 | create then release, or a create the driver refuses, gives a reset slot back as it was apart from the remembered buffer size and the cleared error code (also src/mactcp/tcp_mactcp.c:355-417) |
| MacTcpMulti.Available | src/mactcp/mactcp_multi.c:91-120 | TCP and UDP exactly when MacTCP came up, APPLETALK exactly when AppleTalk did, and none only when neither did |
| MacTcpMulti.Init | src/mactcp/mactcp_multi.c:72-137 | -1 for a NULL context; otherwise the available transports are those that came up, and the result is -1 exactly when none did |
| MacTcpMulti.Shutdown | src/mactcp/mactcp_multi.c:139-163 | AppleTalk is shut down when it is up and registered, MacTCP when TCP or UDP is available, and afterwards no transport is available or active |
| MacTcpMulti.Poll | src/mactcp/mactcp_multi.c:169-189 | -1 for a NULL context; otherwise MacTCP is polled exactly when TCP or UDP is available and AppleTalk exactly when it is up and registered |
| MacTcpMulti.GetTransports | src/mactcp/mactcp_multi.c:195-204 | NONE for a NULL context, otherwise the available mask |
| MacTcpMulti.HasTransport | src/mactcp/mactcp_multi.c:206-215 | true exactly when the context exists and some of the asked bits are available |
| MacTcpMulti.InitThenHas | src/mactcp/mactcp_multi.c:91-120 | after init the query reports exactly the transports that came up (also src/mactcp/mactcp_multi.c:206-215) |
| MacTcpMulti.Wide | src/mactcp/mactcp_multi.c:284-289 | the `uint8_t` flag promoted to the 16-bit mask has no bit above its low byte |
| MacTcpMulti.AddTransport | src/mactcp/mactcp_multi.c:289 | the added flag's bits are set |
| MacTcpMulti.AddKeepsOthers | src/mactcp/mactcp_multi.c:289 | adding a transport leaves every other bit alone |
| MacTcpMulti.RemoveTransport | src/mactcp/mactcp_multi.c:298 | the removed flag's bits are clear |
| MacTcpMulti.RemoveKeepsOthers | src/mactcp/mactcp_multi.c:298 | removing a transport leaves every other bit alone, including those above the flag's byte |
| MacTcpMulti.RemoveUndoesAdd | src/mactcp/mactcp_multi.c:289-298 | removing a transport undoes adding it |
| MacTcpMulti.AddRemoveRestores | src/mactcp/mactcp_multi.c:289-298 | adding a transport the mask lacked and removing it again restores the mask |
| MacTcpMulti.AddIdempotent | src/mactcp/mactcp_multi.c:289 | adding a transport twice is adding it once |
| MacTcpMulti.SetTransports | src/mactcp/mactcp_multi.c:273-298 | one peer's mask changes and nothing else in the table |
| MacTcpMulti.PeerAddTransport | src/mactcp/mactcp_multi.c:283-290 | the flag joins the peer's mask; a NULL peer is ignored |
| MacTcpMulti.PeerRemoveTransport | src/mactcp/mactcp_multi.c:292-299 | the flag leaves the peer's mask; a NULL peer is ignored |
| MacTcpMulti.PeerGetTransports | src/mactcp/mactcp_multi.c:301-307 | NONE for a NULL peer, otherwise the low byte of its mask |
| MacTcpMulti.NamedSlot | src/mactcp/mactcp_multi.c:241 | the name lookup finds the first used slot carrying the name, and none exactly when no used slot does |
| MacTcpMulti.Named | src/mactcp/mactcp_multi.c:241 | no peer is found for an empty name or an invalid context |
| MacTcpMulti.Refreshed | src/mactcp/mactcp_multi.c:249-258 | a known peer seen again gains the transport, moves to the TCP address when one is given with the TCP flag, and is marked seen now; nothing else changes |
| MacTcpMulti.CreateAddress | src/mactcp/mactcp_multi.c:264-269 | a new peer gets the TCP address with the TCP flag and 0:0 otherwise |
| MacTcpMulti.RefreshKnown | src/mactcp/mactcp_multi.c:243-260 | the known peer's slot is refreshed in place and nothing else in the table changes |
| MacTcpMulti.Lookup | src/mactcp/mactcp_multi.c:241 | the lookup loop finds the same peer as the name search |
| MacTcpMulti.CreateNew | src/mactcp/mactcp_multi.c:264-278 | the new peer is made by `pt_peer_create` with the chosen address, and its mask becomes exactly the flags |
| MacTcpMulti.FindOrCreatePeer | src/mactcp/mactcp_multi.c:221-281 | NULL for a NULL context or name; a peer known by the name is refreshed; otherwise one is created and carries exactly the flags |
| MacTcpMulti.AppleTalkPeersCollapse | src/mactcp/mactcp_multi.c:264-269 | with an AppleTalk-only peer known at 0:0, a second AppleTalk-only name finds nothing by name and is then merged by address into the first |
| MacTcpMulti.CreateSeparate | src/mactcp/mactcp_multi.c:264-278 | corrected: an AppleTalk-only peer takes the first free slot of its own, and carries exactly the flags |
| MacTcpMulti.FindOrCreatePeerSeparate | src/mactcp/mactcp_multi.c:221-281 | corrected: as written for NULL and known names, while a new AppleTalk-only peer gets a slot that was free |
| AtomicFlags.SetBitSets | src/core/pt_compat.c:97-99 | after setting bit n it reads as set |
| AtomicFlags.ClearBitClears | src/core/pt_compat.c:101-103 | after clearing bit n it reads as clear |
| AtomicFlags.ClearUnsetBit | src/core/pt_compat.c:101-103 | clearing a bit that is already clear leaves the word unchanged |
| AtomicFlags.SetKeepsOtherBits | src/core/pt_compat.c:97-99 | setting bit n leaves every other bit as it was |
| AtomicFlags.ClearKeepsOtherBits | src/core/pt_compat.c:101-103 | clearing bit n leaves every other bit as it was |
| AtomicFlags.Flags.SetBit | src/core/pt_compat.c:97-99 | the word gains bit n and nothing else changes (also src/core/pt_compat.c:140-142) |
| AtomicFlags.Flags.ClearBit | src/core/pt_compat.c:101-103 | the word loses bit n and nothing else changes (also src/core/pt_compat.c:144-146) |
| AtomicFlags.Flags.TestBit | src/core/pt_compat.c:105-107 | reports exactly bit n of the word (also src/core/pt_compat.c:148-150) |
| AtomicFlags.Flags.TestAndClearBit | src/core/pt_compat.c:109-114 | reports bit n as it was before and leaves it clear, every other bit kept (also src/core/pt_compat.c:152-157) |
| AtomicFlags.Flags.OtSetBit | src/core/pt_compat.c:185-190 | the Open Transport byte-and-bit form sets logical bit n of the word, like the POSIX one |
| AtomicFlags.Flags.OtClearBit | src/core/pt_compat.c:192-197 | the Open Transport form clears logical bit n of the word |
| AtomicFlags.Flags.OtTestBit | src/core/pt_compat.c:199-204 | the Open Transport form reports logical bit n of the word |
| AtomicFlags.Flags.OtTestAndClearBit | src/core/pt_compat.c:206-215 | the Open Transport form tests, then clears only a set bit |
| AtomicFlags.WithByteAt | src/core/pt_compat.c:186-189 | writing a byte of the word back unchanged leaves the word unchanged |
| AtomicFlags.OtSetBitIsSetBit | src/core/pt_compat.c:185-190 | bit `n % 8` of byte `3 - n / 8` of the big-endian word is logical bit n, so setting it sets bit n |
| AtomicFlags.OtClearBitIsClearBit | src/core/pt_compat.c:192-197 | clearing that byte's bit clears logical bit n |
| AtomicFlags.OtTestBitIsTestBit | src/core/pt_compat.c:199-204 | testing that byte's bit tests logical bit n |
| AtomicFlags.OtTestAndClearIsTestAndClear | src/core/pt_compat.c:206-215 | the Open Transport test-and-clear reports bit n and leaves the same word as the POSIX one |
| Compat.StrLen | src/core/pt_compat.c:284-290 | the length of a C string is the index of its first NUL: no NUL before it, and a NUL at it when it is inside the buffer |
| Compat.StrncpyTerminates | src/core/pt_compat.c:292-306 | with room for one byte the copy is always terminated, holds `src` cut to `n - 1` characters, and is NUL-padded to `n` bytes |
| Compat.Strncpy | src/core/pt_compat.c:241-247 | the first `n` bytes of the destination become the terminated, padded copy and nothing past them is touched (also src/core/pt_compat.c:292-306) |
| Compat.Strlen | src/core/pt_compat.c:284-290 | the loop returns the index of the first NUL |
| Compat.MemcpyIsr | src/core/pt_compat.c:314-322 | exactly `n` bytes of the source land in the destination, which is unchanged past them |
| Compat.Memset | src/core/pt_compat.c:262-270 | the first `n` bytes become `c` cut to a byte and nothing past them changes |
| Compat.Compare | src/core/pt_compat.c:272-282 | byte-string comparison is 0 exactly for equal strings and otherwise -1 or 1 |
| Compat.Memcmp | src/core/pt_compat.c:272-282 | the loop's result is the lexicographic comparison of the first `n` bytes |
| Compat.CompareFirstDifference | src/core/pt_compat.c:276-280 | the first differing byte decides the comparison |
| Compat.DigitCharValue | src/core/pt_compat.c:370 | each digit table entry, upper or lower case, reads back as its index |
| Compat.DigitsRoundTrip | src/core/pt_compat.c:383-390 | the base-10 or base-16 digits of a number read back as that number |
| Compat.NumeralRoundTrip | src/core/pt_compat.c:383-390 | the numeral, "0" for zero, reads back as the number |
| Compat.MagnitudeDigits | src/core/pt_compat.c:366-386 | a 32-bit magnitude has at most ten digits, so the 32-character buffer never cuts the conversion short |
| Compat.Magnitude | src/core/pt_compat.c:375-380 | the printed magnitude is the negation of a negative signed value, and otherwise the value read as an unsigned 32-bit number |
| Compat.PaddedTextLength | src/core/pt_compat.c:397-423 | the padded text is exactly as long as the width, or as the sign and digits when those are longer |
| Compat.PaddedTextUnpadded | src/core/pt_compat.c:397-399 | with no room to pad the text is the sign followed by the digits |
| Compat.FormatIntTextMeaning | src/core/pt_compat.c:363-433 | the formatted text is the sign and the digits of the magnitude, padded to the width with spaces before the sign or zeros after it, cut to `bufsize - 1` characters; with room it reads back as the value |
| Compat.FormatSignedDecimal | src/core/pt_compat.c:363-433 | a signed value printed unpadded into a roomy buffer is its decimal numeral, after a '-' when negative |
| Compat.ReversedDigits | src/core/pt_compat.c:382-390 | the conversion loop leaves the numeral's digits least significant first, at most ten of them |
| Compat.PadRun | src/core/pt_compat.c:403-423 | a padding loop writes its fill character until the pad runs out or the buffer's last byte is reached, touching nothing else |
| Compat.CopyReversed | src/core/pt_compat.c:425-429 | the digit loop copies the converted characters back in reading order until the buffer's last byte, touching nothing else |
| Compat.WritePadded | src/core/pt_compat.c:397-429 | the write phase puts at most `bufsize - 1` characters of the padded layout into the buffer and returns how many |
| Compat.FormatIntLayout | src/core/pt_compat.c:382-429 | the layout of the converted digits and sign, cut to the buffer, is the formatted text |
| Compat.FormatInt | src/core/pt_compat.c:363-433 | nothing for a zero-size buffer; otherwise the corrected formatter writes the formatted text and a terminator and returns its length |
| Compat.FormatIntDropsDigit | src/core/pt_compat.c:426-429 | as written, -123 prints as "-12"; the corrected formatter prints "-123" |
| Compat.FormatIntAsWrittenDiffers | src/core/pt_compat.c:426-429 | as written, non-negative values print as corrected and every negative value that fits loses its last digit |
| Compat.FormatIntAsWrittenLayout | src/core/pt_compat.c:382-429 | the formatter as written is the layout of the converted digits and sign copied from index 1 for a negative value, cut to the buffer |
| Compat.FormatSignedDecimalAsWritten | src/core/pt_compat.c:382-429 | unpadded signed decimal as written: a non-negative value is its numeral, a negative one is '-' and the numeral of its magnitude without its last digit |
| Compat.FormatIntAsWrittenInto | src/core/pt_compat.c:363-433 | nothing for a zero-size buffer; otherwise the formatter as written writes its text and a terminator into the buffer, shorter than the buffer, and nothing outside it |
| Printf.At | src/core/pt_compat.c:441-471 | reading the format past its end gives the terminator |
| Printf.Signed32 | src/core/pt_compat.c:473-481 | an integer argument read as a 32-bit `int` or `long` is its two's-complement value, equal to it modulo 2^32 |
| Printf.ParseWidth | src/core/pt_compat.c:458-461 | the width is read from a maximal run of decimal digits |
| Printf.ParseSpec | src/core/pt_compat.c:447-468 | the flag, width and length modifier are read from inside the format |
| Printf.StrText | src/core/pt_compat.c:515-519 | a `%s` argument prints "(null)" for NULL and otherwise its characters up to the terminator |
| Printf.Piece | src/core/pt_compat.c:471-544 | every conversion leaves the terminator's place free, except `%p` as written (see the findings) |
| Printf.RenderFrom | src/core/pt_compat.c:441-547 | the rendered text extends what is already written and never fills the terminator's place |
| Printf.Render | src/core/pt_compat.c:435-551 | at most `size - 1` characters come before the terminator |
| Printf.IntConversion | src/core/pt_compat.c:472-502 | an integer conversion writes the text of `pt_format_int` as written into the places left and nothing outside them |
| Printf.PointerConversion | src/core/pt_compat.c:503-513 | `%p` writes "0x" when it fits, then eight zero-padded lower-case hex digits, into the places left and nothing outside them |
| Printf.StringConversion | src/core/pt_compat.c:514-521 | `%s` writes the string, or "(null)", cut to the places left before the terminator |
| Printf.PutChar | src/core/pt_compat.c:522-543 | a character is written only while a place is left before the terminator's |
| Printf.NumberConversion | src/core/pt_compat.c:472-513 | an integer conversion writes exactly its piece of the text |
| Printf.TextConversion | src/core/pt_compat.c:514-543 | `%s`, `%c`, `%%` and unknown conversions write exactly their piece of the text |
| Printf.Convert | src/core/pt_compat.c:471-544 | one conversion reads as many arguments as it consumes and writes exactly its piece at the current position |
| Printf.ReadSpec | src/core/pt_compat.c:449-468 | the loop reading the flag, width and length modifier agrees with the specification parser |
| Printf.Step | src/core/pt_compat.c:441-547 | one pass of the main loop advances in the format and keeps what is left to render unchanged |
| Printf.Vsnprintf | src/core/pt_compat.c:435-551 | nothing for a zero-size buffer; otherwise the rendered text, at most `size - 1` characters, then a terminator, and the count of characters written |
| Printf.RenderPlain | src/core/pt_compat.c:442-444 | a format without '%' renders as itself, cut to `size - 1` characters |
| Printf.RenderNullString | src/core/pt_compat.c:516 | a NULL string argument prints "(null)" |
| Printf.RenderUnknownConversion | src/core/pt_compat.c:535-543 | an unknown conversion is copied with its '%', as far as there is room |
| Printf.RenderSignedDecimal | src/core/pt_compat.c:472-478 | as written, `%d` prints a non-negative 32-bit value as its decimal numeral, and a negative one as '-' followed by the numeral of its magnitude without the last digit (also src/core/pt_compat.c:425-428) |
| Printf.PointerEndAsWritten | src/core/pt_compat.c:503-513 | as written, `%p` ends, and places its terminator, at the buffer's size exactly when the size is 2 (also src/core/pt_compat.c:549) |
| Printf.PointerRoomAsWrittenDiffers | src/core/pt_compat.c:505 | the test `pos < size - 3` on unsigned sizes differs from the intended one only for a size of 2, where it wraps |
| Printf.PointerOverrun | src/core/pt_compat.c:503-513 | with two places, `%p` as written writes "0x" into both and the terminator one past the buffer; the intended test keeps the text inside (also src/core/pt_compat.c:549) |
| PtLog.LevelName | src/log/pt_log_posix.c:86-92 | levels 0..4 are named "---", "ERR", "WRN", "INF", "DBG"; "???" exactly for any other value (also src/log/pt_log_posix.c:411-416) |
| PtLog.PassesMonotone | src/log/pt_log_posix.c:276-279 | raising the configured level or enabling more categories never filters out a message that passed before |
| PtLog.PassesAll | src/log/pt_log_posix.c:276-279 | with every category enabled only the level decides, and level NONE silences every real message |
| PtLog.Stamp | src/log/pt_log_posix.c:300-301 | the timestamp field is the decimal count zero-padded to eight places, longer only past 99999999 |
| PtLog.Prefix | src/log/pt_log_posix.c:300-301 | the line prefix "[timestamp][LVL] " is 16 to 18 characters, opening with '[' and closing with "] " |
| PtLog.AfterFlush | src/log/pt_log_posix.c:207-215 | a flush empties the buffer only into an open file and otherwise leaves the position |
| PtLog.PerfText | src/log/pt_log_posix.c:342-365 | a performance line opens with the timestamp and "[INF] PERF ", then the label when there is a non-empty one |
| PtLog.PerfTextHoldsLabel | src/log/pt_log_posix.c:342-353 | the label appears whole in the performance text, so a long label makes a long text |
| LogPosix.AppendFitsWithFile | src/log/pt_log_posix.c:217-241 | with a file open the buffered append never passes the 512-byte buffer |
| LogPosix.AppendOverflowsWithoutFile | src/log/pt_log_posix.c:217-241 | with the FILE bit set and no file open the flush cannot empty the buffer, and a third 200-character line is copied to bytes 400..599 of 512 |
| LogPosix.Line | src/log/pt_log_posix.c:292-311 | a log line is the prefix followed by the message cut to the line, ended by a newline, and shorter than 256 characters |
| LogPosix.LineOfShortMessage | src/log/pt_log_posix.c:300-311 | a short message without a newline appears whole between the prefix and one added newline |
| LogPosix.PerfLine | src/log/pt_log_posix.c:338-367 | the performance line written is the performance text cut to the 256-character line, and the whole text when it fits |
| LogPosix.PerfLengthAsWrittenExceedsLine | src/log/pt_log_posix.c:344-367 | as written, the length passed on is the full text's, which with a 250-character label passes the 256-character line the text was cut to |
| LogPosix.Thousandths | src/log/pt_log_posix.c:294 | the `/ 1000` truncates toward zero, as in C, also for a negative microsecond difference (also src/log/pt_log_posix.c:396) |
| LogPosix.ElapsedMsClose | src/log/pt_log_posix.c:388-398 | without wrap-around the elapsed count is the time in milliseconds, off by less than one |
| LogPosix.Log.constructor | src/log/pt_log_posix.c:100-118 | a new log has level INFO, every category, console output, sequence 1, no file, no callbacks and an empty buffer |
| LogPosix.Log.FlushToFile | src/log/pt_log_posix.c:207-215 | the buffer moves into an open file: what reaches the file, counting the buffer, is unchanged, nothing lost or reordered |
| LogPosix.Log.Append | src/log/pt_log_posix.c:239-240 | the line is appended after the buffered bytes |
| LogPosix.Log.WriteDirect | src/log/pt_log_posix.c:224-234 | a line longer than the buffer goes straight to the open file and, with the CONSOLE bit, to the console |
| LogPosix.Log.WriteBuffered | src/log/pt_log_posix.c:238-246 | a line that fits is buffered for the file when the FILE bit is set and copied to the console when the CONSOLE bit is set |
| LogPosix.Log.WriteLine | src/log/pt_log_posix.c:217-247 | every line reaches the console exactly when the CONSOLE bit is set, and reaches the file stream, in order, exactly when it is routed there |
| LogPosix.Log.Write | src/log/pt_log_posix.c:266-322 | a message the level and category filter stops changes nothing; one that passes is written as its line and handed to the callback when the CALLBACK bit is set and one is installed |
| LogPosix.Log.PerfOutput | src/log/pt_log_posix.c:338-368 | the performance line goes through `write_line` when the FILE or CONSOLE bit is set |
| LogPosix.Log.Perf | src/log/pt_log_posix.c:324-371 | a missing entry or one whose category is filtered changes nothing; otherwise the entry goes to the performance callback and its line to the text outputs |
| LogPosix.Log.Flush | src/log/pt_log_posix.c:373-382 | with a file open the buffered text is appended to the file and the buffer emptied; without one nothing changes |
| LogPosix.Log.Destroy | src/log/pt_log_posix.c:120-131 | the buffered text is flushed into an open file before it is closed |
| LogPosix.Create | src/log/pt_log_posix.c:100-118 | NULL when the allocation fails, otherwise a fresh log with the defaults |
| LogPosix.GetLevel | src/log/pt_log_posix.c:141-143 | NONE for a NULL log, otherwise the configured level |
| LogPosix.GetCategories | src/log/pt_log_posix.c:149-151 | 0 for a NULL log, otherwise the categories |
| LogPosix.GetOutput | src/log/pt_log_posix.c:157-159 | 0 for a NULL log, otherwise the outputs |
| LogPosix.SetLevel | src/log/pt_log_posix.c:137-139 | the level is stored cut to a byte |
| LogPosix.SetCategories | src/log/pt_log_posix.c:145-147 | the categories are stored |
| LogPosix.SetOutput | src/log/pt_log_posix.c:153-155 | the outputs are stored |
| LogPosix.SetAutoFlush | src/log/pt_log_posix.c:199-201 | the auto-flush flag is stored |
| LogPosix.SetCallbacks | src/log/pt_log_posix.c:185-197 | the message and performance callbacks are installed or removed |
| LogPosix.SetFile | src/log/pt_log_posix.c:161-183 | -1 for a NULL log; otherwise the current file is closed, no name leaves none open, a failed open is -1 and a successful one adds the FILE bit |
| LogPosix.NextSeq | src/log/pt_log_posix.c:400-409 | 0 for a NULL log, otherwise the counter before its 32-bit increment |
| LogPosix.FirstSequenceNumbers | src/log/pt_log_posix.c:100-118 | a fresh log numbers its first three calls 1, 2, 3 (also src/log/pt_log_posix.c:400-409) |
| LogMac.PascalString | src/log/pt_log_mac.c:101-108 | the Pascal form is a length byte counting the characters that follow, at most 255 of them, a prefix of the C string with no NUL among them |
| LogMac.PascalStringRoundTrip | src/log/pt_log_mac.c:101-108 | reading the converted name back gives the C string up to its NUL, cut to 255 characters |
| LogMac.CToPstr | src/log/pt_log_mac.c:101-108 | the loop fills the array with the Pascal form and leaves the rest of it alone |
| LogMac.Cut | src/log/pt_log_mac.c:422-425 | the formatted message is cut at its end or at 160 characters, whichever comes first |
| LogMac.Line | src/log/pt_log_mac.c:431-432 | the line is the prefix, the cut message and a carriage return, and always fits its 192-byte array |
| LogMac.LineHoldsMessage | src/log/pt_log_mac.c:425-432 | a message of at most 160 characters appears whole, and a longer one loses everything after its 160th character |
| LogMac.OpenFileKeepsRoom | src/log/pt_log_mac.c:343-374 | with a file open the buffer is never left full, and any line shorter than the buffer is buffered |
| LogMac.AppendFitsWithFile | src/log/pt_log_mac.c:349-373 | with a file open the copy as written always fits the buffer |
| LogMac.AppendOverflowsWithoutFile | src/log/pt_log_mac.c:335-373 | with the FILE bit set and no file open the flush cannot empty the buffer, and a second 175-character line is copied past the 256-byte buffer |
| LogMac.Ticks | src/log/pt_log_mac.c:300-301 | the elapsed ticks are the unsigned difference of two readings of the 32-bit tick counter |
| LogMac.DivMsExact | src/log/pt_log_mac.c:311 | without wrap-around the divide form is the elapsed time rounded down to a millisecond |
| LogMac.ShiftMsClose | src/log/pt_log_mac.c:307-308 | the shift form used on a 68000 is never ahead of the divide form and falls behind by about one millisecond every 24 ticks |
| LogMac.DivMsAsWrittenAgrees | src/log/pt_log_mac.c:311 | the 32-bit product and the exact one agree until the product passes 32 bits |
| LogMac.DivMsAsWrittenWraps | src/log/pt_log_mac.c:311 | after 4294968 ticks, about 19.9 hours, the 32-bit product wraps and the elapsed time reads 11 ms instead of 71582800 |
| LogMac.Log.constructor | src/log/pt_log_mac.c:169-187 | a new log has level INFO, every category, console output, sequence 1, the clock read now, no file, no callbacks and an empty buffer |
| LogMac.Log.FlushBuffer | src/log/pt_log_mac.c:335-341 | the buffer moves into an open file: what reaches the file, counting the buffer, is unchanged |
| LogMac.Log.Append | src/log/pt_log_mac.c:363-373 | the inline copy and `BlockMoveData` both append the line after the buffered bytes |
| LogMac.Log.WriteDirect | src/log/pt_log_mac.c:354-359 | a line as long as the buffer or longer goes straight to the open file |
| LogMac.Log.WriteToBuffer | src/log/pt_log_mac.c:343-374 | the line reaches the file stream, in order, exactly when it is routed there, and the buffer position follows |
| LogMac.Log.Output | src/log/pt_log_mac.c:436-441 | a line for the file is written to the buffer and flushed when auto-flush is on (also src/log/pt_log_mac.c:492-495) |
| LogMac.Log.Write | src/log/pt_log_mac.c:393-450 | a message the filter stops changes nothing; one that passes is written as its line when the FILE bit is set and its cut text handed to the callback when the CALLBACK bit is set and one is installed |
| LogMac.Log.PerfOutput | src/log/pt_log_mac.c:464-496 | the performance line reaches the file only when the FILE bit is set and the level is at least INFO |
| LogMac.Log.Perf | src/log/pt_log_mac.c:452-497 | a missing entry or one whose category is filtered changes nothing; otherwise the entry goes to the performance callback and its line to the file |
| LogMac.Log.Flush | src/log/pt_log_mac.c:499-502 | with a file open the buffered text is appended to the file and the buffer emptied; without one nothing changes |
| LogMac.Log.Destroy | src/log/pt_log_mac.c:189-199 | the buffered text is flushed into an open file before it is closed |
| LogMac.Create | src/log/pt_log_mac.c:169-187 | NULL when `NewPtrClear` fails, otherwise a fresh log with the defaults |
| LogMac.GetLevel | src/log/pt_log_mac.c:209-211 | NONE for a NULL log, otherwise the configured level |
| LogMac.GetCategories | src/log/pt_log_mac.c:217-219 | 0 for a NULL log, otherwise the categories |
| LogMac.GetOutput | src/log/pt_log_mac.c:225-227 | 0 for a NULL log, otherwise the outputs |
| LogMac.SetLevel | src/log/pt_log_mac.c:205-207 | the level is stored cut to a byte |
| LogMac.SetCategories | src/log/pt_log_mac.c:213-215 | the categories are stored |
| LogMac.SetOutput | src/log/pt_log_mac.c:221-223 | the outputs are stored |
| LogMac.SetAutoFlush | src/log/pt_log_mac.c:286-288 | any non-zero value turns auto-flush on |
| LogMac.SetCallbacks | src/log/pt_log_mac.c:272-284 | the message and performance callbacks are installed or removed |
| LogMac.SetFile | src/log/pt_log_mac.c:229-270 | -1 for a NULL log; otherwise the current file is closed, no name leaves none open, a failed create or open is -1, and a successful open adds the FILE bit |
| LogMac.NextSeq | src/log/pt_log_mac.c:315-318 | 0 for a NULL log, otherwise the counter before its 32-bit increment |
| LogMac.ElapsedMs | src/log/pt_log_mac.c:294-313 | 0 for a NULL log; otherwise, by the divide form, the 32-bit wrapped product `ticks * 1000` divided by 60, which is the elapsed time in whole milliseconds while that product does not wrap; by the shift form, the 32-bit shift-and-add conversion of the elapsed ticks, never ahead of the elapsed time while it fits in 32 bits |
| IsrSafety.Find | tools/validators/isr_safety.py:114 | `str.find`: the first index at or after the start holding the character, none exactly when there is no such index |
| IsrSafety.Split | tools/validators/isr_safety.py:70-104 | `str.split` on one character: at least one piece, none holding the separator |
| IsrSafety.SplitJoin | tools/validators/isr_safety.py:70-104 | splitting and joining back with the separator gives the text again |
| IsrSafety.SplitCount | tools/validators/isr_safety.py:104-111 | a text splits into one piece more than it holds separators, so line numbers counted by newlines agree with the split lines |
| IsrSafety.CountPrefix | tools/validators/isr_safety.py:111-127 | a longer prefix never holds fewer newlines, so a callback never ends before it starts |
| IsrSafety.Strip | tools/validators/isr_safety.py:66 | `str.strip`: a slice `s[a..b]` of the text with only white space before `a` and from `b` on, and no white space at either of its own ends (also tools/validators/isr_safety.py:176) |
| IsrSafety.ClosingBrace | tools/validators/isr_safety.py:118-127 | the extent of a callback: the nesting stays positive up to its end, which is one past the `}` that brings it back to zero, or the end of the text |
| IsrSafety.ScanBraces | tools/validators/isr_safety.py:114-125 | the brace-counting loop stops one past the matching closing brace |
| IsrSafety.HeaderSpan | tools/validators/isr_safety.py:108-128 | the span of one match: nothing when no `{` follows, else the match's line and the line of the closing brace |
| IsrSafety.SpanInText | tools/validators/isr_safety.py:108-128 | a span carries the matched name and starts no later than it ends, on a line of the text |
| IsrSafety.UniqueDistinct | tools/validators/isr_safety.py:130-136 | after deduplication no two callbacks share a name |
| IsrSafety.UniqueNames | tools/validators/isr_safety.py:130-136 | deduplication keeps every name found and adds none |
| IsrSafety.UniqueFirsts | tools/validators/isr_safety.py:130-136 | deduplication keeps exactly the spans that are the first of their name |
| IsrSafety.UniqueInOrder | tools/validators/isr_safety.py:130-136 | the kept spans are a subsequence of the input: they appear at strictly increasing positions, each the first of its name |
| IsrSafety.CollectSpans | tools/validators/isr_safety.py:106-128 | the spans of every match, convention by convention, in order |
| IsrSafety.FindCallbacks | tools/validators/isr_safety.py:80-138 | `find_callback_functions`: the spans of all matches, keeping the first of each name |
| IsrSafety.ParseRule | tools/validators/isr_safety.py:65-75 | a database line gives a rule exactly when its stripped text is not empty, does not start with `#` and holds exactly two `\|`; the rule's three fields hold no `\|` and joined back with `\|` are the stripped line |
| IsrSafety.Lookup | tools/validators/isr_safety.py:75 | the entry with the name, or none exactly when no entry has it (also tools/validators/isr_safety.py:157) |
| IsrSafety.TableLastWins | tools/validators/isr_safety.py:64-77 | the rule table holds each name once, with the rule of the last line that defines it |
| IsrSafety.PutStores | tools/validators/isr_safety.py:75 | a dictionary store files the rule under its name and keeps the names distinct |
| IsrSafety.PutKeeps | tools/validators/isr_safety.py:75 | a store leaves every other name with the rule it had |
| IsrSafety.LoadRules | tools/validators/isr_safety.py:55-77 | none exactly when the database is missing (exit status 2), otherwise the table of its lines |
| IsrSafety.BeforeLineComment | tools/validators/isr_safety.py:163 | a prefix of the line holding no `//`: the whole line when it has no `//`, otherwise the text up to where the first `//` starts |
| IsrSafety.StripBlocks | tools/validators/isr_safety.py:165 | the block-comment removal never lengthens the line and leaves a line without `/*` as it is |
| IsrSafety.SkipSpaces | tools/validators/isr_safety.py:159 | the `\s*` between a name and its parenthesis: the first position that is not white space |
| IsrSafety.CallFromExists | tools/validators/isr_safety.py:159-167 | the search finds `\bNAME\s*\(` exactly when it matches at some position |
| IsrSafety.Marks | tools/validators/isr_safety.py:161-167 | which lines of a body call the routine |
| IsrSafety.ReportsSound | tools/validators/isr_safety.py:161-178 | every report is the report of a marked line |
| IsrSafety.ReportsComplete | tools/validators/isr_safety.py:161-178 | every marked line is reported |
| IsrSafety.ReportsOrdered | tools/validators/isr_safety.py:161-178 | one rule's reports go in line order, at most one per line, inside the body |
| IsrSafety.FunctionViolationsSound | tools/validators/isr_safety.py:141-180 | every report of a callback is the report of a line calling some rule's routine |
| IsrSafety.FunctionViolationsComplete | tools/validators/isr_safety.py:141-180 | every line calling a rule's routine is reported under that rule |
| IsrSafety.BodyLine | tools/validators/isr_safety.py:151-171 | line `i` of a callback is line `start + i` of the text and lies inside the span |
| IsrSafety.ViolationInSpan | tools/validators/isr_safety.py:141-180 | every report lies inside its callback, names it and carries the category and reason of the rule of its call |
| IsrSafety.ViolationLine | tools/validators/isr_safety.py:167-176 | the line a report points at calls the reported routine, and the report's context is that line stripped |
| IsrSafety.CheckFunction | tools/validators/isr_safety.py:141-180 | `check_function_for_violations`: rule by rule, line by line, the reports of the callback |
| IsrSafety.RuleLines | tools/validators/isr_safety.py:161-178 | the inner loop yields the reports of one rule over the callback's lines |
| IsrSafety.ContentInSpans | tools/validators/isr_safety.py:183-197 | every report of a text lies inside one of its callbacks and points at a line calling the routine |
| IsrSafety.CheckContent | tools/validators/isr_safety.py:183-197 | none exactly when the database is missing; otherwise the reports of every callback found, in order |
| IsrSafety.CheckFile | tools/validators/isr_safety.py:200-207 | an unreadable file gives no reports; a readable one with the database missing stops the run |
| IsrSafety.CheckDirectory | tools/validators/isr_safety.py:210-218 | the reports of the files in order, stopping exactly when a readable file meets a missing database |
| IsrSafety.Run | tools/validators/isr_safety.py:273-314 | content first, then a file or directory, then the default directories; exit 2 for a missing target or database, else 1 exactly when something is reported |
| BookIndex.Token | tools/book_indexer/build_index.py:98 | the first piece of the split: a prefix of the line holding no separator, ended by a separator or the end of the line |
| BookIndex.KeepExactly | tools/book_indexer/build_index.py:104-149 | the ten filters together keep exactly the tokens of three or more characters that start upper-case, do not end or contain an OCR mark, do not start with a table marker and are not common words |
| BookIndex.DigitLedRejected | tools/book_indexer/build_index.py:107-146 | a token starting with a digit is never kept, although the comment at step 10 says such names are kept |
| BookIndex.LineName | tools/book_indexer/build_index.py:88-149 | the name a line gives, if any, passes the filters and is a prefix of the stripped line |
| BookIndex.NamesSound | tools/book_indexer/build_index.py:80-151 | every name extracted comes from a line of the window and passes the filters |
| BookIndex.NamesComplete | tools/book_indexer/build_index.py:80-151 | every line of the window that yields a name contributes it |
| BookIndex.WindowStep | tools/book_indexer/build_index.py:82-86 | reading line `i + 1` adds it to the window exactly when its number lies between the start and end lines |
| BookIndex.WindowDone | tools/book_indexer/build_index.py:85-86 | past the end line the rest of the book adds nothing, so breaking out there loses nothing |
| BookIndex.ReadLine | tools/book_indexer/build_index.py:88-149 | a line of the window adds its name, if any, after those of the lines before it |
| BookIndex.ExtractTable | tools/book_indexer/build_index.py:60-151 | `extract_table`: the names of the lines numbered `start` to `end`, in line order |
| BookIndex.SafeTables | tools/book_indexer/build_index.py:168-200 | the first pass's key tests pick exactly the three tables the second pass calls safe: B-3, C-1 and C-2 |
| BookIndex.MovesTables | tools/book_indexer/build_index.py:172 | the key test for moving memory picks B-1 alone |
| BookIndex.PassRecord | tools/book_indexer/build_index.py:174-189 | after the first pass a name has a record exactly when some table lists it, and that record is its listings replayed on the record of its first table |
| BookIndex.ReplayTables | tools/book_indexer/build_index.py:174-189 | a record's tables are its listings in order, its book that of its first table, and it moves memory exactly when B-1 lists it |
| BookIndex.ReplayUnsafeOnly | tools/book_indexer/build_index.py:185-189 | with no safe table among the listings, the record is unsafe exactly when B-1 lists the name, else unknown |
| BookIndex.ReplaySafe | tools/book_indexer/build_index.py:185-189 | with a safe table and no B-1 among the listings, the record is safe |
| BookIndex.Classified | tools/book_indexer/build_index.py:174-208 | after both passes: safe when a safe table and no unsafe one lists the name, unsafe when B-1 does and no safe table, unknown otherwise; call-dependent exactly when safe and unsafe tables both list it |
| BookIndex.IndexOf | tools/book_indexer/build_index.py:153-210 | over any stream of listings the index has the listed names, each with the book of its first table, every listing in order, and the verdicts of `Classified` |
| BookIndex.IndexRecord | tools/book_indexer/build_index.py:21-58 | the same for the six tables in order, skipping books that are missing (also tools/book_indexer/build_index.py:153-210) |
| BookIndex.RecordName | tools/book_indexer/build_index.py:175-189 | the first pass's loop body files one listing under the name's record |
| BookIndex.RecordNames | tools/book_indexer/build_index.py:174-189 | the inner loop files every name of one table |
| BookIndex.MarkConflicts | tools/book_indexer/build_index.py:194-208 | the second pass turns every record listed by both a safe and an unsafe table into unknown and call-dependent, and leaves the rest |
| BookIndex.BuildFunctionIndex | tools/book_indexer/build_index.py:153-210 | `build_function_index`: the first pass table by table, skipping missing books, then the conflict pass |

## Left out

General:

- Sockets, MacTCP and Open Transport driver calls, the File Manager, `FreeMem`/`MaxBlock`, `gettimeofday` and `TickCount`: their results are inputs (`RecvResult`, `allocOk`, `sendOk`, tick and clock readings); the platform files that only wrap them are not part of this model.
- Concurrency and interrupt timing: everything is single-threaded. The ISR push variants, the ASR and the volatile flags are modelled as ordinary sequential updates, and the POSIX log's mutex is left out.
- Floating point: the backpressure test of `send.c` compares a 0..100 integer with `0.90f`/`0.75f`; it is modelled by its integer meaning (`Send.PressureRejectsAsWritten`, pressure 1 or more).
- Logging calls inside the library (`PT_CTX_*`, `PT_LOG_*`, `last_pressure_level`) do nothing in the model.
- Memory layout: struct sizes, alignment and the hot/cold split are not modelled; allocation is a boolean input that may fail.
- Message formatting in the log `Write` members: `LogPosix.Log.Write` and `LogMac.Log.Write` take the message already formatted; the format string and its arguments are not modelled there (`printf.dfy` models the Classic Mac formatter separately).
- Presentation: `display_violations`, the command-line parsing and the coloured output of the checker; the tables index, error-code index, keyword index and JSON output of the book indexer.

Caller obligations and undefined behaviour (each states a requirement that the C code leaves to its callers, or replaces an out-of-bounds access):

- LogMac.Log.Write: requires `StrLen(msg) < 192`, because `vsprintf` into the 192-byte line is unbounded in C and a longer message overruns it.
- LogMac.Log.Perf: requires the performance text to be under 192 characters, because `sprintf` into the 192-byte line is unbounded in C.
- LogPosix.Log.WriteBuffered: skips the copy that would pass the 512-byte buffer; in C, with the FILE bit set and no file open, the flush cannot empty the buffer and `memcpy` writes past it (as written: `LogPosix.AppendEndAsWritten`, `LogPosix.AppendOverflowsWithoutFile`; see "## Findings").
- LogPosix.Log.Perf: writes the performance line cut to 255 characters; C passes `snprintf`'s full return value as the length, which can exceed the 256-byte line and read past it (as written: `LogPosix.PerfLengthAsWrittenExceedsLine`).
- LogMac.Log.WriteToBuffer: skips the copy that would pass the 256-byte buffer; C copies it whenever the FILE bit is set (as written: `LogMac.AppendEndAsWritten`, `LogMac.AppendOverflowsWithoutFile`).
- Printf.PointerConversion: uses the intended room test `PointerRoom`; C's `pos < size - 3` on unsigned sizes writes the terminator one past a two-place buffer (as written: `Printf.PointerRoomAsWritten`, `Printf.PointerEndAsWritten`, `Printf.PointerOverrun`).
- TcpIo.Extract: tests frame completeness with `FrameComplete` in unbounded arithmetic; C's 16-bit `expected_len` wraps for a payload length above 65523 and the CRC trailer is then read outside the 8192-byte buffer (as written: `TcpIo.FrameLenAsWritten`, `TcpIo.FrameLenWraps`).
- Queue.MessageQueue.Commit: requires a pending slot and a nonzero count; the C function checks nothing and must only follow a successful `pt_queue_pop_priority_direct`.
- Queue.MessageQueue.Push: requires the priority tables to be initialised (capacity at most 32) whenever the queue is; above 32 slots `pt_queue_ext_init` leaves them uninitialised while `pt_queue_push` still appends to them.
- Queue.MessageQueue.PopPriority, Queue.MessageQueue.PushCoalesce, Queue.MessageQueue.TryPush and the other priority operations: require the same, through `ExtOk()`.

Paths and details not modelled:

- Null pointers: a NULL data pointer, NULL output pointers and a NULL peer are not representable; the INVALID_PARAM results of `PeerTalk_GetPeers` and `PeerTalk_GetPeer` for NULL outputs (src/core/pt_init.c:460-462 and 550-552), and of `pt_mactcp_tcp_recv` for a NULL or bad-magic peer (src/mactcp/tcp_io.c:217-218), are left out. Bad-magic contexts are modelled by the `ctxOk` flag.
- Protocol decoders: the C decoders fill the caller's out-structure field by field and may leave it partly written when a later check fails; the model returns either the whole record or the error, so partial writes are not modelled.
- NetPosix.RecvBuffer.ProcessMessage: the statistics update of `net_posix.c:1388-1393` is returned as `frameBytes` instead of being applied to per-peer counters, and the dispatch of DATA, PING and PONG messages to callbacks is not modelled; only the -1 result for DISCONNECT is.
- IsrSafety.Finder: the nine regular expressions that find callback headers are abstracted as a parameter giving, per convention, the matches in text order; which text they match is not modelled, so the model proves everything after that search (extents, deduplication, reports) for any such search result.
- IsrSafety.IsSpace, IsrSafety.IsWord and the character tests of `BookIndex` (`IsUpper`, `IsLower`, `IsDigit`, `IsAlnum`): ASCII only, whereas Python's `\s`, `\w`, `str.isupper`, `str.isdigit` and `str.isalnum` also accept other Unicode characters. `IsSpace` holds the ten ASCII characters Python counts as white space: space, tab, line feed, carriage return, vertical tab, form feed and the separators U+001C to U+001F; U+0085, U+00A0 and the other non-ASCII spaces are not modelled.
- IsrSafety.CheckDirectory: the files of `Path.rglob("*.c")` are a given sequence; the order and the file system walk are not modelled.
- Protocol.Crc16: the 256-entry table is given as in the source; that each entry equals the bitwise division by the reflected polynomial 0x8408 is not proved.
- Send.SendFragmented: the fragment header format (`PT_FRAGMENT_HEADER_SIZE`, `pt_fragment_encode` and the fragment flags) is not part of this model and is a parameter.
- Printf.Vsnprintf: the `l` length modifier is accepted and ignored (int and long are both 32 bits); varargs are a sequence of `Arg` values, and a missing or mismatched argument reads as 0 or NULL.
- Queue: `& capacity_mask` is modelled as `% capacity`, which it equals for the power-of-two capacities `pt_queue_init` accepts.

## Findings

Nothing was executed: each row follows from the source text and a proof about the model.

| source | as written | input that shows it | evidently intended | confidence | as-written member | corrected member |
|---|---|---|---|---|---|---|
| src/core/queue.c:744-750 | `pt_queue_push_coalesce` writes a new message into the slot at `write_idx` even when a priority pop has left that slot still listed | capacity 4: A (level 0) and B (level 3) pushed, a priority pop takes B, C and D (level 0) pushed; `write_idx` is back at slot 0, which still holds A, the head of level 0, and the next push overwrites it | the comment "Find free slot (use write_idx as starting point)": take the first unused slot from `write_idx` | high, not executed | Queue.MessageQueue.PushCoalesce, Queue.MessageQueue.TryPush, Queue.OverwriteScenario, Queue.OverwriteBreaksLists | Queue.MessageQueue.PushCoalesceFree, Queue.MessageQueue.TryPushFree, Queue.FreeSlotKeepsShape |
| src/core/peer.c:30-36, src/core/pt_init.c:112 | `pt_peer_list_init` gives slot i name index i for every slot, but the name table has 16 entries, and `PeerTalk_Init` passes `max_peers` without a cap | `max_peers` = 20: slot 16 gets name index 16, and creating a peer there writes its name past the table (peer.c:290-291) | at most 16 slots, or name indices kept below 16 | high, not executed | Peer.PeerTable.ListInit, Context.Init, Peer.NameIndexEscapes | Peer.PeerTable.ListInitBounded, Context.InitBounded |
| src/core/send.c:502-522 | the 0..100 integer pressure is compared with `0.90f` and `0.75f` | a NORMAL send at 50 percent pressure is refused with BUFFER_FULL | LOW refused from 90 percent, NORMAL from 75 percent | high, not executed | Send.PressureRejectsAsWritten, Send.SendQueued, Send.PressureAsWrittenAtOnePercent | Send.PressureRejects, Send.SendQueuedIntended, Send.PressureRejectsMonotone |
| src/core/pt_compat.c:425-428 | for a negative value the reversed digits are copied from index 1, which skips the last digit | `%d` of -123 prints "-12" | "-123", the value tests/test_compat.c:246-247 expect | high, not executed | Compat.FormatIntAsWrittenInto, Compat.FormatIntDropsDigit, Compat.FormatIntAsWrittenDiffers, Printf.RenderSignedDecimal | Compat.FormatInt, Compat.FormatIntTextMeaning |
| src/core/pt_compat.c:503-513 | `%p` tests `pos < size - 3` on unsigned sizes | a buffer of size 2: "0x" fills both places and the terminator lands at index 2 | "0x" only when it leaves room for the terminator | medium, not executed | Printf.PointerEndAsWritten, Printf.PointerOverrun | Printf.PointerConversion, Printf.PointerRoomAsWrittenDiffers |
| src/log/pt_log_posix.c:217-241 | with the FILE bit set and no file open the flush does not reset `buffer_pos`, and the line is still copied into the 512-byte buffer | `PT_LogSetOutput(FILE)` without `PT_LogSetFile`, then three 200-character lines: the third goes to bytes 400..599 | skip the buffer when no file can take it | high, not executed | LogPosix.AppendOverflowsWithoutFile | LogPosix.Log.WriteBuffered, LogPosix.Log.WriteLine |
| src/log/pt_log_posix.c:344-367 | `PT_LogPerf` passes `snprintf`'s return value, the length of the whole text, to `write_line` | a 250-character label: the length passed exceeds the 256-byte line | the length actually written, at most 255 | high, not executed | LogPosix.PerfLengthAsWrittenExceedsLine | LogPosix.PerfLine, LogPosix.Log.Perf |
| src/log/pt_log_mac.c:335-373 | as on POSIX, with the FILE bit set and no file open the line is copied into the 256-byte buffer that the flush could not empty | two 175-character lines: the second goes to bytes 175..349 | skip the buffer when no file can take it | high, not executed | LogMac.AppendOverflowsWithoutFile | LogMac.Log.WriteToBuffer |
| src/log/pt_log_mac.c:311 | `elapsed_ticks * 1000UL` is computed in a 32-bit unsigned long and wraps | 4294968 ticks (about 19.9 hours): 11 ms instead of 71582800 | the elapsed time in milliseconds | medium, not executed | LogMac.ElapsedMs, LogMac.DivMsAsWrittenWraps | LogMac.DivMsExact, LogMac.DivMsAsWrittenAgrees |
| src/mactcp/tcp_io.c:382-391 | `expected_len` is a `uint16_t`, so 10 + payload length + 2 wraps for a payload length above 65523 | a header announcing 65524 payload bytes with 12 bytes buffered passes the completeness test, and the trailer is read 65534 bytes into the 8192-byte buffer | the full frame length in wider arithmetic | medium, not executed | TcpIo.FrameLenAsWritten, TcpIo.FrameLenWraps | TcpIo.FrameCompleteInBounds, TcpIo.ExtractTakesFrames |
| src/mactcp/mactcp_multi.c:264-269 | a new AppleTalk-only peer is created at address 0:0 through `pt_peer_create`, which first looks the address up (peer.c:213-229) | an AppleTalk-only peer is known; a second AppleTalk-only name finds nothing by name, is merged into the first by address, and renames it | a separate peer for each new name | high, not executed | MacTcpMulti.FindOrCreatePeer, MacTcpMulti.AppleTalkPeersCollapse | MacTcpMulti.FindOrCreatePeerSeparate, MacTcpMulti.CreateSeparate |

The public operations keep the code as written where its behaviour is defined (`Queue.MessageQueue.TryPush`, `Send.SendQueued`, `Context.Init`, `Printf.Vsnprintf`, `LogMac.ElapsedMs`); where the code as written reads or writes outside an array (the log buffers, `%p`, the 16-bit frame length), the operation takes the corrected form and the as-written form is kept beside it, as listed under "## Left out".
