# Verification of cmsgqueue

Dafny models of the stateful core of the message queue server, each proved against what the
code and its comments promise. Check everything with `dafny verify dfyconfig.toml`.

| file | models |
|---|---|
| Common, Bits | shared types; bit strings, powers of two, division |
| Frames, FrameParser | the wire format and the streaming parser with its bounded buffer, queue and hold |
| Timers | event-loop timers: one dispatcher, any number of threads that add and delete |
| OtelRing, MpscQueue | the two lock-free structures, one step per access to shared memory |
| HpackInt, HpackTable, Huffman, HuffmanTable, HuffmanOverrun, HpackHeader, HpackRecall, HpackExamples | HPACK (RFC 7541): integers, dynamic table in its arena, Huffman code, header fields, what indices refer to, the examples of appendix C |
| Gateway | dialing, cancelling and installing inter-cluster connections under two levels of locks |
| Slab | the slab allocator over a flat byte memory |
| Subjects, Rewriting, Accounts, Gates | subjects and maps, accounts and their permission rows, subscribe and delivery gates |
| SessionCache | the open-addressed LRU session cache |
| Crc32c, Idempo | checksums; the idempotency window |

How the models are built:

- A function that changes a struct is a method of a class with the struct's fields; its loops
  are loops. Its contract ties the new state to a specification function or states the
  property outright.
- A protocol between threads is a set of steps. In Timers, OtelRing and MpscQueue the steps
  form a transition function, and the theorems are about every sequence of enabled steps. In
  Gateway each region under the main lock is a method; between its slot-lock regions
  `Interfere` does what writers can, and between main-lock regions `Environment` does what
  any thread can. What a call has missed is told from the histories of writes, installs and
  cancellations: if they show nothing of a cluster, nothing happened to its slot.
- Allocation failure, clocks, sockets, probes, write results and scheduling are arbitrary:
  nondeterministic choices in the methods, or parameters. What the system answers is a
  parameter where a result is promised for a favourable answer: the block malloc gives to the
  slab, whether a parser has plenty of memory, whether a dial gets a socket and its peer.
- History that the code does not keep (bytes fed, callbacks started, sockets' peers, numbers
  accepted, sessions freed) is ghost state or a history field, so that properties of whole
  runs can be stated.
- Unsigned wrap-around is written out where it can happen: the 64-bit Huffman accumulator,
  the 32-bit HPACK decoder, the 32-bit cancel generation, saturating timer expiry, hash
  arithmetic.

Where the code and its documentation differ, or a natural claim is false, the model follows
the code:

- The telemetry ring may drop a span when it is not full, because an offer reads `wpos`
  before `rpos`: `DroppedWhileEmpty` is a run that does. `DropReason` gives the exact condition.
- A cancelled dial is caught by a 32-bit counter, so 2^32 cancellations in between would hide
  it. `CancelledDial` says so, and `WrappedRun` is such a run.
- The session cache header speaks of up to 1024 entries; the code holds at most its 64 buckets.
- The Huffman decoder refuses what the standard refuses only while its 64-bit accumulator
  holds the pending bits. After 30 ones, which no text has, and 27 bits more, the next byte
  makes it go on with a symbol the input does not have (`MisreadIs`, and `MisreadInserts` for a
  header field) or shift by 64 and more (`OnesUndefined`). `FollowsIff` and `UndefinedIff` give
  the exact conditions, `DecodeConforms` and `FieldAgrees` the agreement with the standard under
  them. No encoding of a text is affected (`DecodesEncoding`).
- A del that waits for a callback can clear a newer timer that has got the same id in the same
  slot, once the id counter has gone all the way round. `HollowsIff` says exactly when,
  `NoTimerLost` gives the bound on the adds, and `TimerLost` a run that reaches it.
- New slab pages have twice the first capacity each; they do not keep doubling.
- A string with an embedded zero byte enters the HPACK table up to that byte, as the C string
  functions see it.
- A map whose source has more than eight stars is accepted and rewrites nothing
  (`TooManyStars`, `AcceptedButIdle`).

## Model

| member | source | states |
|---|---|---|
| Frames.FrameEncode | src/proto/cmq_parser.c:498-518 | Refuses exactly an oversize payload or a short buffer; otherwise the buffer starts with the encoding of the frame and the rest of it is untouched |
| Frames.HeadOfEncoded | src/proto/cmq_parser.c:244-310 | The head of any stream that starts with an encoded acceptable frame is that frame, and what follows it is left |
| Frames.HeadSpelled | src/proto/cmq_parser.c:244-310 | Conversely, a complete head is the encoding of its frame: no other bytes parse to it |
| Frames.HeadStable | src/proto/cmq_parser.c:235-280 | A head once decided, good or bad, is not changed by more input |
| Frames.RoundTrip | src/proto/cmq_parser.c:231-333 | The whole-stream parse of any sequence of encoded frames is that sequence, with nothing left over |
| Frames.ParseAccounts | src/proto/cmq_parser.c:231-333 | The whole-stream parse accounts for every byte: its frames spell what it read, and it stops only at a bad or an incomplete head |
| Frames.ParsePrefix | src/proto/cmq_parser.c:231-333 | A longer stream parses to more frames, never to others, and once bad stays bad |
| Parser.FrameParser.constructor | src/proto/cmq_parser.c:92-125 | A new parser has the configured payload cap within its limits and holds nothing |
| Parser.FrameParser.Push | src/proto/cmq_parser.c:58-90 | A frame joins the queue unless 64 frames or twice the cap in bytes are queued; want of memory, which a parser with plenty never has, is fatal and said so |
| Parser.FrameParser.Compact | src/proto/cmq_parser.c:322-330 | Moving the unread bytes to the front in place changes none of them |
| Parser.FrameParser.ReadHeader | src/proto/cmq_parser.c:245-279 | The header checks refuse exactly the heads that are bad, and the length read is that of the frame |
| Parser.FrameParser.TakeFrame | src/proto/cmq_parser.c:282-309 | The frame at the front is queued and its bytes are gone from the buffer, or nothing changes and the reason is want of memory or a full queue |
| Parser.FrameParser.ParseInbuf | src/proto/cmq_parser.c:231-333 | What the loop queues, spelled out, followed by what it leaves, is what was unread; it stops only for want of bytes or of queue space, or with a cause for its error |
| Parser.FrameParser.HoldAppend | src/proto/cmq_parser.c:187-209 | Bytes go behind the hold unless it would pass one maximal frame or memory runs out |
| Parser.FrameParser.EnsureInbuf | src/proto/cmq_parser.c:211-223 | Growing the buffer keeps the unread bytes; it fails only for want of memory or address space |
| Parser.FrameParser.AppendChunk | src/proto/cmq_parser.c:423-435 | A chunk is copied behind the unread bytes, after compacting or growing |
| Parser.FrameParser.FeedStep | src/proto/cmq_parser.c:384-442 | One turn of the feed loop takes a chunk or parks the rest, keeps all bytes in order, and stops only with a cause |
| Parser.FrameParser.FlushHold | src/proto/cmq_parser.c:352-360 | The parked bytes are fed again from the front, none lost |
| Parser.FrameParser.Feed | src/proto/cmq_parser.c:335-445 | Delivered and queued frames, unread input, hold and, after a fatal error only, lost bytes spell exactly the bytes fed; -1 exactly with an error and no frame left, 0 exactly when no frame came, nothing is held and none is complete |
| Parser.FrameParser.Drain | src/proto/cmq_parser.c:447-469 | Draining keeps that account, makes progress whenever it queues a frame, and with an empty queue leaves nothing that could become a frame; its answer is exact in the same way |
| Parser.FrameParser.Next | src/proto/cmq_parser.c:480-496 | The oldest frame moves from the queue to the caller |
| Parser.FrameParser.Faithful | src/proto/cmq_parser.c:231-469 | At any moment of any run of feed, drain and next the frames so far are a prefix of the whole-stream parse of the bytes fed, all of it once nothing is left to take, and an error has a cause |
| Parser.FrameParser.PeerRoundTrip | src/proto/cmq_parser.c:335-518 | Frames a peer encoded come out as sent however they were chunked; a prefix of them if the stream was cut |
| Parser.FrameParser.DeliverAll | src/proto/cmq_parser.c:447-496 | Popping and draining in turn ends, and without allocation failure or bad bytes has delivered every complete frame: backpressure never wedges |
| Parser.TookKeeps | src/proto/cmq_parser.c:231-333 | Taking frames off the input and putting them behind the queue loses and reorders no byte |
| Parser.AnyChunking | src/proto/cmq_parser.c:335-445 | However the bytes are split into frames, unread input and the rest, the whole-stream parse starts with those frames |
| Timers.StepKeeps | src/net/cmq_ev.c:136-186 | Every lock region of the dispatcher and of add and del, in any interleaving, keeps the invariant of the timer table |
| Timers.RevokedNeverStarts | src/net/cmq_ev.c:1002-1062 | In every run, a callback whose timer a del has taken never starts afterwards |
| Timers.DeletedIsQuiet | src/net/cmq_ev.c:1019-1044 | Once a cross-thread del has returned 0 the callback of that timer neither runs nor ever starts |
| Timers.OneShotFiresOnce | src/net/cmq_ev.c:154-172 | A timer added without an interval starts at most once in any run |
| Timers.SlotNotReused | src/net/cmq_ev.c:952-954 | While a callback runs, no step but its own end changes whose slot it is |
| Timers.FinishFindsItsTimer | src/net/cmq_ev.c:162-184 | After its callback the dispatcher always finds its own timer in the slot: the guard for a slot reused under another id never fires |
| Timers.AddFailsOnlyWhenFull | src/net/cmq_ev.c:952-1000 | An add fails only when every slot is armed or inside its callback: the search for an id cannot run out |
| Timers.DelRefuses | src/net/cmq_ev.c:1002-1018 | A del is refused exactly for an id that no armed timer holds: unknown, or of a one-shot already committed to fire |
| Timers.EvLoop.PickTimerId | src/net/cmq_ev.c:956-974 | The search loop is the first id, from the counter on, that no slot holds |
| Timers.EvLoop.TimerAdd | src/net/cmq_ev.c:948-1000 | The locked region does the add step: first slot that is neither armed nor firing, saturated expiry, fresh id |
| Timers.EvLoop.TimerDel | src/net/cmq_ev.c:1002-1058 | The region up to the first unlock does the del step, with its four outcomes |
| Timers.EvLoop.DelPoll | src/net/cmq_ev.c:1026-1043 | One look of a waiting del: it is done exactly when the callback has ended or the slot has another id |
| Timers.EvLoop.BeginFire | src/net/cmq_ev.c:142-156 | The first region on a slot does the scan step: a due timer is marked firing and a one-shot disarmed |
| Timers.EvLoop.EndFire | src/net/cmq_ev.c:162-184 | The second region does the finish step: a cancelled or one-shot timer is cleared, a repeating one rescheduled |
| Timers.EvLoop.TimersDispatch | src/net/cmq_ev.c:136-186 | A pass over the table, with others at work between its regions, is the dispatch event and a sequence of events that ends with the pass over, so that PassStartsDue and every theorem about runs apply to it; it starts no callback that was revoked before |
| OtelRing.StepKeeps | src/server/cmq_otel.c:86-149 | Every atomic access and every cell copied, by many offering threads and one poller, keeps the ring invariant |
| OtelRing.PolledAreAccepted | src/server/cmq_otel.c:86-149 | In every run the positions stay within one ring of each other and the polled spans are exactly the accepted ones in ticket order, whole |
| OtelRing.UnreadNotOverwritten | src/server/cmq_otel.c:97-104 | No step of any run changes a slot that is ready and not yet polled |
| OtelRing.DropReason | src/server/cmq_otel.c:91-96 | The test an offer is dropped by holds exactly when the ring is full or the poller has passed the stale position read before |
| OtelRing.LooksFullIsUnsigned | src/server/cmq_otel.c:93-93 | The model's full test is the code's unsigned 64-bit comparison |
| MpscQueue.StepKeeps | src/core/cmq_queue.c:30-94 | Every access to shared memory by pushing threads and the popping one keeps the queue invariant |
| MpscQueue.Fifo | src/core/cmq_queue.c:30-94 | In every run the popped items are a prefix of the pushed ones in tail-exchange order, and what is missing is waiting |
| MpscQueue.NoUseAfterFree | src/core/cmq_queue.c:30-39 | No step of any run reads, writes or frees a node that is not allocated, though addresses are reused |
| MpscQueue.EmptyPop | src/core/cmq_queue.c:31-34 | A pop finds nothing exactly when nothing waits or the oldest waiting push has yet to link |
| HpackInt.IntEncode | src/server/cmq_hpack.c:77-99 | Refuses exactly bad arguments and short buffers; otherwise the buffer holds the section 5.1 encoding and nothing outside it changes |
| HpackInt.IntDecode | src/server/cmq_hpack.c:101-129 | The loop with its 32-bit arithmetic computes the decoding function on every input |
| HpackInt.DecodeIntExact | src/server/cmq_hpack.c:101-129 | The decoder's value and length are those of section 5.1 of RFC 7541 wherever the number is within its limit and its five bytes, and it refuses the rest |
| HpackInt.IntRoundTrip | src/server/cmq_hpack.c:77-129 | Decoding an encoding gives the number back and its exact length, whatever follows |
| HpackTable.EvictionIsMinimal | src/server/cmq_hpack.c:350-356 | Eviction keeps the longest run of newest entries that fits |
| HpackTable.RoomEnough | src/server/cmq_hpack.c:365-368 | The slot limit never decides an eviction and the arena never overflows |
| HpackTable.InsertOk | src/server/cmq_hpack.c:358-382 | Insertion keeps the size within the limit, oversize entries included |
| HpackTable.DynTable.EvictOldest | src/server/cmq_hpack.c:331-348 | The oldest entry goes and compacting the arena in place changes no other |
| HpackTable.DynTable.SetMax | src/server/cmq_hpack.c:350-356 | A limit is refused exactly above 4096; a smaller one evicts from the oldest end until the table fits |
| HpackTable.DynTable.Add | src/server/cmq_hpack.c:358-382 | The arena and its descriptors do the insertion of section 4.4; refused exactly for an empty or oversize string |
| HpackTable.DynTable.Get | src/server/cmq_hpack.c:384-394 | Lookup i is the i-th newest entry, or nothing |
| Huffman.HuffEncode | src/server/cmq_hpack.c:188-213 | Refuses exactly the empty text, one over 256 bytes and one that does not fit; otherwise the output is the codes of the text and fewer than eight ones, whatever is left in the unmasked accumulator |
| Huffman.HuffDecode | src/server/cmq_hpack.c:215-251 | For every input the loops over the accumulator, wrap-around and every shift included, come to what Decode says of the pending bits: a text left terminated in the buffer, a refusal, or a shift of 64 and more |
| Huffman.EncodesUnique | src/server/cmq_hpack.c:132-251 | Bytes stand for at most one text, for any prefix-free code without a code of ones only |
| Huffman.DecodedIsPrefix | src/server/cmq_hpack.c:215-240 | Whatever the decoder has put out is a prefix of any text the bits stand for |
| Huffman.Accumulate | src/server/cmq_hpack.c:194-199 | Shifting a code into the 64-bit accumulator leaves its pending low bits right though the high ones are never cleared |
| HuffmanTable.AppendixBIsGood | src/server/cmq_hpack.c:131-186 | The 256 codes of the table are prefix-free and none is all ones |
| HuffmanTable.Between | src/server/cmq_hpack.c:131-186 | The code is canonical: drawn out to 30 bits, the codes of each length lie between its start and the next length's |
| HpackHeader.StayInStep | src/server/cmq_hpack.c:422-491 | By the code's reader and by the standard's alike: from equal tables, decoding a block of any headers the encoder takes and the buffers hold gives exactly them, consumes every byte, and ends with the encoder's table, evictions and oversize entries included |
| HpackHeader.HeaderRoundTrip | src/server/cmq_hpack.c:422-491 | One header: the decoder reads exactly it and its table takes the same insertion |
| HpackHeader.StrRoundTrip | src/server/cmq_hpack.c:253-284 | An encoded string reads back with its exact length |
| HpackHeader.StrEncode | src/server/cmq_hpack.c:253-262 | Refuses exactly empty, oversize and unfitting strings; otherwise writes the literal and nothing outside it |
| HpackHeader.StrDecode | src/server/cmq_hpack.c:264-284 | For every input comes to what the code's reader finds: a literal, raw or Huffman, left terminated in the buffer, none, or an undefined shift. StrAgrees says when this is what the standard reads |
| HpackHeader.Find | src/server/cmq_hpack.c:406-420 | Lookup over both tables: the entry of section 2.3.3, if it fits the buffers; the table is unchanged |
| HpackHeader.HdrEncodeInc | src/server/cmq_hpack.c:422-434 | Writes an incremental literal and inserts the header, or refuses and leaves the table alone |
| HpackHeader.HdrDecodeDyn | src/server/cmq_hpack.c:436-491 | For every input comes to what the code's reader finds: field, size update, refused or undefined, with the same strings, length and table; what it refuses changes no table. FieldAgrees says when this is what the standard reads |
| HpackHeader.Exchange | src/server/cmq_hpack.c:422-491 | The code of both ends over any sequence of headers: both tables end equal and every header arrives |
| Gateway.CmqGateway.SlotCloseFd | src/cluster/cmq_gateway.c:102-110 | A slot is cleared and its socket, if any, closed: only an open socket is ever closed |
| Gateway.CmqGateway.SlotInstall | src/cluster/cmq_gateway.c:113-125 | A dial's socket becomes owned by one slot and no longer by the dial |
| Gateway.CmqGateway.HasLivePeer | src/cluster/cmq_gateway.c:133-165 | The rescanning loop ends; without a live peer no slot of the cluster is connected, and a live one was connected before |
| Gateway.CmqGateway.ClaimInstall | src/cluster/cmq_gateway.c:183-232 | A slot is claimed or left as it was; a free one always is, and a live peer of the cluster is kept |
| Gateway.CmqGateway.PlaceDialedFd | src/cluster/cmq_gateway.c:237-250 | The socket is placed unless every slot of a full table is in use |
| Gateway.CmqGateway.FinishDial | src/cluster/cmq_gateway.c:380-416 | A dial installs only with its generation and endpoint current and no live peer; it gives up only if it was cancelled or moved, or every slot of a full table is in use |
| Gateway.CmqGateway.UnlockedDialInstall | src/cluster/cmq_gateway.c:352-420 | With other threads at work at every unlocked point, the dial's socket ends in a slot or closed and the dial is over; 0 only if a slot of the cluster was connected when the outcome was decided; with a socket and a peer to be had, -1 only because of a full table or what other threads did |
| Gateway.CmqGateway.AddRemote | src/cluster/cmq_gateway.c:422-473 | Refuses exactly bad arguments and a full table; a changed endpoint counts one cancellation and leaves the cluster without a connected slot |
| Gateway.CmqGateway.ConnectLocked | src/cluster/cmq_gateway.c:475-540 | The locked half of connect: a live peer, a dial begun with a current snapshot, or a refusal with its reason; the rescans end |
| Gateway.CmqGateway.ConnectRemote | src/cluster/cmq_gateway.c:475-615 | Connect with others at work keeps every invariant, and answers 0 only if a slot of the cluster was connected at some moment of the call; with a socket to be had and a peer that takes the connection, -1 only for an unknown cluster, one being dialed, a full table, or a socket installed or a cancellation by another thread during the call |
| Gateway.CmqGateway.Disconnect | src/cluster/cmq_gateway.c:617-653 | Leaves no connected slot of the cluster, counts one cancellation if it is known, and trims the table |
| Gateway.CmqGateway.CancelledDial | src/cluster/cmq_gateway.c:381-386 | A dial begun before a disconnect or an endpoint change, with or without its socket by then, does not install, whatever happens in between, short of 2^32 cancellations |
| Gateway.CmqGateway.WriteOne | src/cluster/cmq_gateway.c:686-718 | A write happens exactly when the slot still has that socket and cluster, and then to a socket dialed for that cluster; exactly a hard failure clears the slot and closes its open socket; otherwise no slot and no socket changes |
| Gateway.CmqGateway.Forward | src/cluster/cmq_gateway.c:655-723 | At most one peer, and none without one; a target that is connected at the end and was not connected anew during the call is written to exactly once, in every interleaving; every write goes to the target's own socket, whole writes are counted as sent and the rest as deferred |
| Gateway.CmqGateway.Broadcast | src/cluster/cmq_gateway.c:725-786 | Every cluster that is connected at the end and was not connected anew during the call is written to, none twice and each over its own socket; whole writes are counted as sent and the rest of the snapshot as deferred |
| Gateway.CmqGateway.Snapshot | src/cluster/cmq_gateway.c:664-679 | Every slot still connected at the end and wanted is in the snapshot, one per cluster, and no other cluster; no more than were connected before and, for a broadcast, no fewer than after |
| Gateway.CmqGateway.AnyRun | src/cluster/cmq_gateway.c:352-786 | After any run: each connected slot's socket was dialed for its cluster and to the endpoint registered now, no cluster has two, every write went to its target, and every install had no cancellation modulo 2^32 |
| Gateway.NothingLeaks | src/cluster/cmq_gateway.c:352-420 | With no dial in flight every open socket is in exactly one slot |
| Slab.Create | src/core/cmq_slab.c:72-89 | An empty allocator, refused exactly for objects too small for a link, more objects than the index list can number, a first page too large to measure, and want of memory |
| Slab.PageCreate | src/core/cmq_slab.c:43-70 | A page's aligned slots lie inside its block and overlap no other page; refused exactly if it is too large to measure or malloc gives no block |
| Slab.CmqSlab.Alloc | src/core/cmq_slab.c:139-190 | A new object overlaps no live one and is the first fit: the slot freed last in the first page with room, else the next unused, else the first of a new page, which is added only when all are full; null only when the count is at its limit, or every page is full and a page of twice the first capacity is not to be had |
| Slab.CmqSlab.Free | src/core/cmq_slab.c:192-224 | A live object is freed, heads its page's list, and no byte of another changes; a double, foreign or misaligned free changes nothing; the page cache agrees with the linear search |
| Slab.CmqSlab.FindPage | src/core/cmq_slab.c:104-118 | The first page whose slots contain the address |
| Slab.CmqSlab.OnFreelist | src/core/cmq_slab.c:120-137 | The guarded walk through the objects finds a slot exactly when it is on the list |
| Slab.CmqSlab.UserWrite | src/core/cmq_slab.c:120-137 | A caller's write into an object it holds disturbs no free list and no counter |
| Slab.LiveDisjoint | src/core/cmq_slab.c:139-190 | Live objects are pairwise disjoint |
| Slab.FreedKeeps | src/core/cmq_slab.c:207-221 | Threading a freed slot through its own memory leaves every free list linked, acyclic and exactly the freed slots below the mark |
| Slab.OnePage | src/core/cmq_slab.c:194-206 | The cached page can only be the page a linear search finds |
| Slab.AnyRun | src/core/cmq_slab.c:139-224 | Over any run of allocations, caller writes and frees of any address, live objects stay disjoint and the count is their number |
| Accounts.AccountManager.Create | src/enterprise/cmq_account.c:289-344 | Succeeds exactly for a good name that is known or finds room; the account is active, all others and all rows as before |
| Accounts.AccountManager.Ensure | src/enterprise/cmq_account.c:346-392 | As create, but a deleted account of that name is refused |
| Accounts.AccountManager.Delete | src/enterprise/cmq_account.c:394-414 | Succeeds exactly for an active account; it, its row and every rule that names it are gone, and rows this empties |
| Accounts.AccountManager.ClearPerms | src/enterprise/cmq_account.c:585-598 | The account's row goes and its maps leave the total |
| Accounts.AccountManager.PurgePeer | src/enterprise/cmq_account.c:603-636 | Every other row loses its rules that name the peer, and goes if that empties it |
| Accounts.AccountManager.FindOrCreate | src/enterprise/cmq_account.c:660-683 | The row of an active account is found or appended: the table is never full then |
| Accounts.AccountManager.AddRule | src/enterprise/cmq_account.c:778-811 | Export or import: accepted exactly as the checks say; the rule joins the account's row once and nothing else changes |
| Accounts.AccountManager.RemoveRule | src/enterprise/cmq_account.c:813-834 | All of the account's rules on the subject go, and the row if that empties it |
| Accounts.AccountManager.AddMap | src/enterprise/cmq_account.c:1031-1069 | A valid map is added or its destination replaced, within sixteen, and the total follows |
| Accounts.AccountManager.RemoveMap | src/enterprise/cmq_account.c:1071-1093 | The account's map of that source goes, and the row if that empties it |
| Accounts.RoomForRow | src/enterprise/cmq_account.c:664-676 | An active account without a row leaves fewer rows than accounts, so the table-full failure is unreachable |
| Accounts.DeleteKeeps | src/enterprise/cmq_account.c:394-410 | After a deletion rows are again non-empty, one per account, owned by active accounts, with active peers, and the map total is their sum |
| Accounts.NoMention | src/enterprise/cmq_account.c:603-636 | No rule that is left names the deleted account |
| Accounts.NothingOf | src/enterprise/cmq_account.c:324-325 | Clearing and purging for a reclaimed slot find nothing to do |
| Gates.AnyRun | src/enterprise/cmq_account.c:289-1093 | Any run of creations, deletions and edits keeps the invariant of accounts and rows |
| Gates.SubscribeGate | src/enterprise/cmq_account.c:1220-1238 | The loops compute the subscribe gate |
| Gates.DeliverGate | src/enterprise/cmq_account.c:1263-1321 | The loops compute the delivery gate |
| Gates.ExportOfferedTo | src/enterprise/cmq_account.c:1155-1169 | Whether another account exports the subject to this one |
| Gates.ImportExportPairOk | src/enterprise/cmq_account.c:1187-1218 | Whether a matching pair of import and export exists |
| Gates.RefusedGetsNothing | src/enterprise/cmq_account.c:1220-1321 | A refused subscription by an active account could get the subject from no other account |
| Gates.AllowedHasASource | src/enterprise/cmq_account.c:1220-1321 | In every reachable state a gated subscription is allowed exactly when another active account may deliver the subject, or an import that names the account itself is answered by its own exports |
| Gates.RewriteSubject | src/enterprise/cmq_account.c:1104-1129 | The first map that captures the subject decides; without one the subject is copied |
| Gates.RewrittenIsPlain | src/enterprise/cmq_account.c:1104-1129 | In every reachable state an account's maps turn a well-formed wildcard-free subject into one |
| Subjects.SubjectMatch | src/enterprise/cmq_account.c:912-933 | For every well-formed pattern: each star one token, a final '>' any number, and else token by token |
| Subjects.MatchCapture | src/enterprise/cmq_account.c:942-977 | The character walk computes the capture function |
| Subjects.CaptureIffMatch | src/enterprise/cmq_account.c:912-977 | For a well-formed pattern with at most eight stars capture succeeds exactly when matching does, with the tokens under the stars and the text under the '>' |
| Subjects.TooManyStars | src/enterprise/cmq_account.c:960-961 | With more stars than that capture never succeeds |
| Subjects.AclSubjectOk | src/enterprise/cmq_account.c:700-720 | Accepts exactly the well-formed patterns shorter than 256 |
| Subjects.DestTemplateOk | src/enterprise/cmq_account.c:723-757 | Accepts exactly the destinations whose tokens, references and wildcards the source supports |
| Subjects.CountSrcWildcards | src/enterprise/cmq_account.c:759-771 | Counts the star tokens and finds a '>' token |
| Subjects.ApplyDest | src/enterprise/cmq_account.c:979-1020 | Writes the expansion and its terminator, or refuses exactly a missing capture, an empty result or one that does not fit |
| Subjects.RewriteOne | src/enterprise/cmq_account.c:1022-1029 | No match, refused, or the expansion of the captures |
| Subjects.RewriteIsPlain | src/enterprise/cmq_account.c:1022-1061 | For an accepted map and a well-formed wildcard-free subject it captures, rewriting is refused only for an empty result or overflow and otherwise gives such a subject |
| Subjects.EmptyRewrite | src/enterprise/cmq_account.c:1005-1017 | The result is empty exactly for a destination of '>' alone that captured nothing |
| Subjects.IdentityMap | src/enterprise/cmq_account.c:979-1029 | Mapping a pattern without '$' to itself is accepted and changes no subject it captures |
| Subjects.PatternWildcardOnly | src/enterprise/cmq_account.c:1138-1152 | Whether the pattern is wildcards to its end, a '>' only last; for a well-formed pattern, exactly whether all its tokens are wildcards |
| SessionCache.SessionTable.Locate | src/enterprise/cmq_tls_session_cache.c:124-148 | Probing finds an id exactly when it is in the table, else the first free bucket of its path, else that all are held |
| SessionCache.SessionTable.Insert | src/enterprise/cmq_tls_session_cache.c:110-171 | The id has the new session and all others theirs; an id is evicted exactly when a new one finds all 64 buckets held, and then no id held was used longer ago; the session replaced or evicted is freed |
| SessionCache.SessionTable.Lookup | src/enterprise/cmq_tls_session_cache.c:173-199 | Returns the session last inserted for the id unless it has been evicted since; exactly then the id counts as used now, and nothing else changes |
| SessionCache.SessionTable.Destroy | src/enterprise/cmq_tls_session_cache.c:93-108 | Frees what is held, so that every session inserted has been freed exactly once |
| SessionCache.SessionTable.Oldest | src/enterprise/cmq_tls_session_cache.c:150-159 | A bucket with the smallest time |
| SessionCache.AddKeeps | src/enterprise/cmq_tls_session_cache.c:128-140 | A new id in the first free bucket keeps every id reachable over occupied buckets |
| SessionCache.EvictKeeps | src/enterprise/cmq_tls_session_cache.c:160-167 | With all buckets held any may be given to a new id and all ids stay reachable |
| Crc32c.CrcChains | src/core/cmq_crc32c.c:87-93 | The checksum of a whole is the chained checksum of its pieces, for any split |
| Crc32c.ChangeIsSeen | src/core/cmq_crc32c.c:42-93 | Any change within four consecutive bytes changes the checksum, whatever surrounds them and however long the data |
| Crc32c.Tail | src/core/cmq_crc32c.c:42-56 | The software byte and bit loops compute the register |
| Crc32c.RawByEights | src/core/cmq_crc32c.c:58-70 | The loop of eight bytes an instruction, then the tail, computes the same register |
| Crc32c.InstructionIsBytes | src/core/cmq_crc32c.c:63-69 | The instruction, at its bit-serial meaning, over any bytes is the byte loop over them |
| Crc32c.Checksum | src/core/cmq_crc32c.c:87-93 | Inverted before and after, and nothing for no data |
| Crc32c.Consume | src/core/cmq_crc32c.c:103-120 | Without the flag the length is kept; with it the trailer is stripped exactly when it is the checksum of the rest |
| Idempo.IdempoTable.Find | src/server/cmq_idempo.c:85-97 | The producer's slot, else a free one, else that all are taken by others |
| Idempo.IdempoTable.Check | src/server/cmq_idempo.c:99-139 | Rejects a number exactly when it was accepted before or is at least 64 behind the producer's largest; a new producer only when all slots are taken; and accepts each pair at most once in any run |
| Idempo.LargerKeeps | src/server/cmq_idempo.c:116-125 | Moving the window up keeps the mask true of the numbers accepted |
| Idempo.SmallerKeeps | src/server/cmq_idempo.c:126-138 | Setting a clear bit keeps the mask true of the numbers accepted |
| Timers.AddKeeps | src/net/cmq_ev.c:948-1000 | An add keeps the invariant, though ids wrap and slots are reused |
| Timers.DelKeeps | src/net/cmq_ev.c:1002-1057 | A del keeps it in all its outcomes: from within the callback, of a firing repeater, of an idle timer |
| Timers.FinishKeeps | src/net/cmq_ev.c:162-184 | The end of a callback keeps it: cancelled and one-shot timers are cleared, repeaters rescheduled |
| HpackTable.DynTable.Relocate | src/server/cmq_hpack.c:336-345 | Copying the surviving strings to a scratch arena and fixing their offsets leaves what each descriptor denotes as it was |
| HpackTable.DynTable.EvictFor | src/server/cmq_hpack.c:364-367 | Evicts exactly until the entry fits, and everything for an entry that never does |
| Gateway.CmqGateway.BeginDial | src/cluster/cmq_gateway.c:44-63 | Refused exactly while the cluster is marked as dialing; else a snapshot of endpoint and generation |
| Gateway.CmqGateway.EndDial | src/cluster/cmq_gateway.c:65-72 | The dial is over and the cluster no longer marked |
| Gateway.CmqGateway.SearchSlots | src/cluster/cmq_gateway.c:493-540 | The rescanning search ends, with a live peer that was connected or a slot of the table |
| Gateway.CmqGateway.ReuseSlot | src/cluster/cmq_gateway.c:542-587 | Finds none only when every slot was connected |
| Gateway.CmqGateway.CloseMatching | src/cluster/cmq_gateway.c:446-453 | No slot of the cluster stays connected |
| Gateway.CmqGateway.Trim | src/cluster/cmq_gateway.c:639-649 | The last slot left is in use; slots change only by writers that fail |
| Gateway.InstalledKeeps | src/cluster/cmq_gateway.c:113-125 | Handing a dial's socket to a slot keeps sockets owned once, one live slot a cluster, and what slots say of their sockets true |
| Gateway.CancelledKeeps | src/cluster/cmq_gateway.c:442-445 | A cancellation keeps every dial's snapshot equal to the generation exactly when no cancellation, modulo 2^32, has come since |
| Slab.CmqSlab.LocatePage | src/core/cmq_slab.c:194-206 | Cache or search: the one page that contains the address |
| Slab.PoppedKeeps | src/core/cmq_slab.c:145-164 | Taking the head of a free list through the link in the object keeps all lists and gives a slot nobody holds |
| Slab.WrittenKeeps | src/core/cmq_slab.c:120-137 | A write inside a live object breaks no list, though the links live in objects |
| Accounts.ScrubKeeps | src/enterprise/cmq_account.c:603-636 | Purging keeps rows in order, one per account, with no peer that is gone, and loses no map |
| Subjects.WalkIsMatch | src/enterprise/cmq_account.c:916-932 | For a well-formed pattern the character walk decides exactly the meaning by tokens |
| Subjects.CatchIs | src/enterprise/cmq_account.c:942-977 | Capture from any point on is exact, including how many slots for stars are left |
| Gates.DeliverableHasAPair | src/enterprise/cmq_account.c:1187-1321 | What may be delivered from another account has a matching pair of import and export |
| Gates.MapsKeepPlain | src/enterprise/cmq_account.c:1104-1129 | A list of accepted maps turns wildcard-free subjects into such |
| SessionCache.ProbesCover | src/enterprise/cmq_tls_session_cache.c:124-127 | From any start sixty-four probes meet every bucket |
| SessionCache.PresentIsMet | src/enterprise/cmq_tls_session_cache.c:124-148 | Probing meets an id that is in the table before any free bucket |
| Crc32c.TurnFormula | src/core/cmq_crc32c.c:51-51 | The masked branch-free form of one turn is the shift with the polynomial taken off when a one falls out |
| Idempo.FirstKeeps | src/server/cmq_idempo.c:108-114 | A producer's first number sets up a mask true of the numbers accepted |
| Huffman.DecodeConforms | src/server/cmq_hpack.c:215-251 | For any prefix-free code without a code of ones only: unless a byte overruns the accumulator, the decoder returns exactly the text the input encodes, if one fits, and otherwise refuses |
| Huffman.OverrunIsNoText | src/server/cmq_hpack.c:215-251 | An input that overruns the accumulator encodes no text at all |
| Huffman.DecodesEncoding | src/server/cmq_hpack.c:215-251 | The encoding of a text that fits never overruns and decodes to the text |
| HuffmanTable.StuckIsOnes | src/server/cmq_hpack.c:131-186 | The table is complete: of 30 bits and more exactly those led by 30 ones start with no code |
| HuffmanOverrun.FollowsIff | src/server/cmq_hpack.c:220-241 | The text and the pending bits of the decoder are those of the input exactly when no byte comes after a fitting text, 30 ones and at least 27 more bits |
| HuffmanOverrun.NarrowOverrun | src/server/cmq_hpack.c:221-240 | A byte with 57 to 60 bits pending: the one to four ones lost read as zeros, and a symbol comes out that the input does not have |
| HuffmanOverrun.WideOverrun | src/server/cmq_hpack.c:221-240 | A byte with more than 60 bits pending: a shift by 64 and more |
| HuffmanOverrun.UndefinedIff | src/server/cmq_hpack.c:221-240 | Over all inputs: the decoder makes an undefined shift exactly when a byte comes with more than 60 bits pending |
| HuffmanOverrun.MisreadIs | src/server/cmq_hpack.c:215-251 | Nine bytes that encode nothing and decode, by defined shifts only, to a text of nine bytes |
| HuffmanOverrun.OnesUndefined | src/server/cmq_hpack.c:215-251 | Nine bytes of ones, whatever follows, lead to an undefined shift |
| HuffmanOverrun.HuffRoundTrip | src/server/cmq_hpack.c:188-251 | Encoding and decoding over the table of the standard gives back every text of 1 to 256 bytes that fits the buffers |
| HpackHeader.StrAgrees | src/server/cmq_hpack.c:264-284 | A string literal that does not overrun the Huffman decoder is read as the standard reads it; of any other the standard reads nothing |
| HpackHeader.FieldAgrees | src/server/cmq_hpack.c:436-491 | A header field none of whose strings overruns is read as the standard reads it, table included; any other is malformed to the standard |
| HpackHeader.MisreadInserts | src/server/cmq_hpack.c:436-491 | A field the standard calls malformed that the code accepts and puts into its table |
| OtelRing.DroppedWhileEmpty | src/server/cmq_otel.c:91-96 | A run in which an offer is dropped with the ring empty |
| Subjects.AcceptedButIdle | src/enterprise/cmq_account.c:942-961 | For 9 to 127 stars: a map that is accepted, with a subject its source matches and it does not capture |
| Timers.HollowsIff | src/net/cmq_ev.c:1026-1036 | A step takes callback and id from an armed timer exactly when a waiting del meets another timer under the same id in its slot |
| Timers.NoTimerLost | src/net/cmq_ev.c:948-1062 | In a run of fewer than 2^31 - 1 adds this does not happen: every armed timer has its callback and its id |
| Crc32c.BurstIsSeen | src/core/cmq_crc32c.c:42-93 | Messages that differ within 32 consecutive bits, wherever these start, have different checksums |
| Crc32c.BurstIsRejected | src/core/cmq_crc32c.c:103-120 | A checksummed message with a burst of up to 32 changed bits anywhere, in payload, trailer or across both, is refused |
| Crc32c.BurstDiffers | src/core/cmq_crc32c.c:42-56 | From any register up to 32 bits are told apart |
| Crc32c.TurnLinear | src/core/cmq_crc32c.c:49-52 | The difference of two registers turns like a register |
| Timers.TimerLost | src/net/cmq_ev.c:948-1062 | A run of exactly 2^31 - 1 adds in which it does: the bound is exact |
| Gateway.CmqGateway.WrappedDial | src/cluster/cmq_gateway.c:381-386 | In a gateway with one cluster a dial whose cluster is disconnected 2^32 times installs all the same |
| Gateway.WrappedRun | src/cluster/cmq_gateway.c:352-420 | The same from the creation of the gateway on, for any cluster |
| OtelRing.RunLosesNone | src/server/cmq_otel.c:86-149 | In every run each accepted span not yet polled is ready, being written, or just copied by the poller |
| OtelRing.EmptyPoll | src/server/cmq_otel.c:139-144 | A poll finds nothing exactly when no accepted span is left or the oldest is still being written |
| Crc32c.SealedIff | src/core/cmq_crc32c.c:87-120 | A message is accepted exactly when the register over all of it, trailer included, is one constant |
| Crc32c.BitsOfWord | src/core/cmq_crc32c.c:111-114 | The bits of up to four bytes are those of the little-endian word the code makes of them |
| Timers.StartsWhenDue | src/net/cmq_ev.c:142-156 | In every run a callback starts only in a pass whose time has reached the time of its add plus its delay, or of the pass that last called it plus its interval, capped at the largest 64-bit number |
| Timers.DueStarts | src/net/cmq_ev.c:142-156 | And conversely the scan of a slot whose armed timer has reached that time starts it |
| Timers.PassStartsDue | src/net/cmq_ev.c:136-186 | By the end of any pass, whatever other threads do meanwhile, every timer that was armed and due when it began has been started or deleted |
| Timers.RunHolds | src/net/cmq_ev.c:948-1000 | In every run with fewer than INT_MAX adds, a registration that is neither deleted nor, for a one-shot, started is in an armed slot |
| Timers.DelTakesItsTimer | src/net/cmq_ev.c:1002-1058 | A del that is not refused revokes the armed timer that has this id, and changes no slot with another id |
| Timers.EvLoop.DispatchSlot | src/net/cmq_ev.c:142-184 | One slot of a pass: a scan step and, if it starts a callback, its finish step, with other threads' steps around them |
| Frames.Layout | src/proto/cmq_parser.c:245-298 | The bytes of a frame in numbers: magic, version, flags, operation, length low byte first, payload; a compressed frame is taken for exactly five operations |
| HpackRecall.Recall | src/server/cmq_hpack.c:358-491 | After any headers index 62 + i reads once more the header i places before the last, exactly if the headers from it on fit the table; otherwise it is malformed |
| HpackRecall.RecallName | src/server/cmq_hpack.c:436-491 | A literal named by index 62 + i has the name of the header i places before the last, and enters the table exactly if it is an incremental one |
| HpackRecall.RecallResized | src/server/cmq_hpack.c:350-356 | After headers and a size update an index finds exactly what fits the new limit and the old one; an update above 4096 is malformed |
| HpackRecall.TableAfter | src/server/cmq_hpack.c:358-382 | The table after any headers is they and what was there before, newest first, as far as they fit |
| HpackRecall.NewestFirst | src/server/cmq_hpack.c:384-420 | Byte 0xBE reads the entry inserted last |
| HpackRecall.OlderByOne | src/server/cmq_hpack.c:384-420 | An insertion moves every entry that stays to the next index |
| HpackRecall.ReadUpdate | src/server/cmq_hpack.c:350-356 | A size update of at most 4096 lets the rest of the block be read with that limit; any other is malformed |
| HpackRecall.HuffmanString | src/server/cmq_hpack.c:264-284 | A string literal in the Huffman code is read as the text it encodes, by the code as by the standard |
| HpackExamples.Integers | src/server/cmq_hpack.c:77-129 | The integers of RFC 7541, appendix C.1, both ways |
| HpackExamples.StaticEntries | src/server/cmq_hpack.c:12-75 | Entries of the static table by their numbers, and none at 0 and 62 |
| HpackExamples.FirstRequest | src/server/cmq_hpack.c:436-491 | The first request of RFC 7541, appendix C.3, from an empty table |
| HpackExamples.SecondRequest | src/server/cmq_hpack.c:436-491 | The second, which refers to what the first has left in the table |
| HpackExamples.ThirdRequest | src/server/cmq_hpack.c:436-491 | The third, which refers past the second's entry to the first's |
| HpackExamples.NoCacheCoded | src/server/cmq_hpack.c:132-186 | The Huffman string of RFC 7541, appendix C.4.2, is no-cache |
| HuffmanTable.LargerSymbolLargerCode | src/server/cmq_hpack.c:131-186 | Of two symbols with codes of one length the larger has the larger code |
| HuffmanTable.ShorterCodeFirst | src/server/cmq_hpack.c:131-186 | A shorter code comes before every longer one, both drawn out to 30 bits |
| HpackInt.IntTooLarge | src/server/cmq_hpack.c:101-129 | A number above the decoder's limit is refused though it can be spelled out |
| Gateway.LaterTrans | src/cluster/cmq_gateway.c:655-723 | Over any steps a slot that is connected and whose cluster has had no new socket has been so all along |
| Gateway.UnderwayBlocked | src/cluster/cmq_gateway.c:380-416 | What blocks a dial that was free to go when it began is a full table or another thread's install or cancellation |
| Gateway.CmqGateway.WriteAll | src/cluster/cmq_gateway.c:681-719 | Each peer of a snapshot in turn, with other threads between: all whose slot is at the end as it was, with no new socket, are written to, none twice |
| Gates.CrossDelivery | src/enterprise/cmq_account.c:1263-1321 | In every reachable state one account delivers a subject to another exactly if both are active, an export of the one matches and names the other or all, and an import of the other matches and names the one or all |
| Gates.SelfDelivery | src/enterprise/cmq_account.c:1263-1321 | An active account delivers to itself everything if it has no exports, else what an export of it matches whatever its target, and inboxes |
| Gates.LocalAllowed | src/enterprise/cmq_account.c:1220-1238 | A subject that no other account offers to this one and that none of its imports claims may be subscribed to by any active account |
| Gates.FirstMapDecides | src/enterprise/cmq_account.c:1104-1129 | The rewrite of a subject is by the first map of the account that captures it |
| Accounts.OnlyMentions | src/enterprise/cmq_account.c:603-636 | Of every other account's rules exactly those that name the deleted one go; its maps stay |
| Rewriting.MapMeans | src/enterprise/cmq_account.c:942-1029 | What a map does, token by token: a plain token stands for itself, $n for the token under the n-th star, a star for the token under the star whose turn it is, and a final '>' for all that stands under the source's |
| Rewriting.ReferenceAlone | src/enterprise/cmq_account.c:979-1029 | A destination $n alone gives the token under the n-th star |
| Rewriting.MirrorGivesBack | src/enterprise/cmq_account.c:979-1029 | A map that puts each star's reference in the star's place gives every subject back |
| Crc32c.CheckValue | src/core/cmq_crc32c.c:87-93 | The checksum of the digits 1 to 9 is the published check value |
| SessionCache.KnownHashes | src/enterprise/cmq_tls_session_cache.c:48-56 | Published FNV-1a values |
| Timers.DelOutcome | src/net/cmq_ev.c:1002-1058 | A del of an armed timer goes at once if its callback is not running, else it waits for it, except from inside a callback, where it never waits |
| OtelRing.OffersAccounted | src/server/cmq_otel.c:86-108 | In every run each offer made has a ticket, is counted as dropped exactly once, or is still trying |
| Accounts.UpsertMeans | src/enterprise/cmq_account.c:1031-1061 | Adding a map keeps every other map in its place; the map of that source gets the new destination where it stands, or comes last |
| Gates.Grant | src/enterprise/cmq_account.c:778-880 | An export and the matching import together let every subject of the pattern through, and nothing that could be delivered between two accounts is lost |
| Rewriting.ReferenceAccepted | src/enterprise/cmq_account.c:723-757 | A destination $n is accepted exactly if the source has an n-th star |

## Left out

- src/cluster/cmq_route.c and src/cluster/cmq_leaf.c: the gateway's protocol again, with more paths and socket framing.
- src/enterprise/cmq_acl.c, src/cluster/cmq_blocklist.c, src/enterprise/cmq_quota.c, src/server/cmq_subject_rl.c: ad hoc matchers and clock-driven windows.
- TLS, JWT, compression, MQTT, WebSocket and HTTP/2 sessions, configuration, logging and monitoring: thin layers over libraries, or I/O.
- Destroy paths, the dying flag and in-flight counts of the queue, the gateway, the event loop and the account manager: their safety rests on timed waits.
- epoll and kqueue watchers of src/net/cmq_ev.c; only the timer table is modelled.
- Parser.FrameParser.Feed: the payload cap is fixed for the life of a parser; changing it in mid-stream, reset, the node slab behind the frame queue and the capacity of the hold are not modelled. The queue is a sequence, and feed's call of itself for the held bytes is the same loop entered with nothing on hold.
- OtelRing.PolledAreAccepted: positions are unbounded, so the wrap of a 64-bit position is not modelled, and atomic accesses are taken to be sequentially consistent.
- MpscQueue.Fifo: atomic accesses are taken to be sequentially consistent, and destroy is not modelled.
- Timers.EvLoop.TimersDispatch: the callback is arbitrary adds and dels; what else it does is not modelled.
- HpackHeader.HdrEncodeInc: only the encoder for incremental literals is modelled, besides every form the decoder takes; encoding an indexed field is one integer.
- Gateway.CmqGateway.ConnectRemote: authentication data, non-blocking mode and the ping time of a slot are not modelled; the dialing flag is kept as the code keeps it, and of it only that a connect is refused while it is set, since a cancelled dial clears a newer dial's flag. Which probes of a peer fail is arbitrary.
- Slab.CmqSlab.Alloc: destroy and the alignment of accesses are not modelled.
- Accounts.AccountManager.Create: counters, epochs and limits of an account are not modelled.
- Gates: the publish gate (account_can_export) is the same-account part of the delivery gate.
- SessionCache.SessionTable.Insert: the mutex and the attachment to a TLS configuration are not modelled.
- Crc32c.RawByEights: the two processor instructions are one bit-serial function of the bytes they load.
- Idempo.IdempoTable.Check: encoding and parsing of the header that carries producer and number are not modelled.
