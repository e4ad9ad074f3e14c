# A verified model of the vendored libwayland

The repository vendors libwayland 1.21.90 under `untitled/src/`. This project models its
stateful core in Dafny and proves what the code keeps over every run.

| file | what it models |
|---|---|
| `Wrappers.dfy` | results of calls that can fail |
| `ObjectMap.dfy`, `SlotTable.dfy` | `wl_map`: first as values, then as two growing arrays of tagged words with a free list threaded through them, proved to compute the same |
| `IdProtocol.dfy` | a client and a server joined by a request channel, an event channel and a stream of fds; ids, zombies, `delete_id` and fd alignment over all interleavings |
| `Interfaces.dfy` | interfaces, parameters, and what the words of an event name |
| `ServerIds.dfy` | ids the server allocates: exactly when an event is refused or misread, and which runs are free of both |
| `Words.dfy`, `RingBuffer.dfy` | little-endian words, and the 4096-byte ring buffers with free-running 32-bit counters |
| `Connection.dfy` | sending, queueing, flushing and reading with arbitrary partial sends and failures; order and ownership of fds |
| `Frames.dfy` | the two parse loops; independence of how the stream is cut into reads |
| `Signature.dfy`, `Closure.dfy` | signatures, marshalling, serializing and demarshalling, on the ring buffer of received fds and the object table |
| `EventDecoding.dfy` | the demarshaller reads the same objects and ids off the bytes as the id protocol off the words |
| `Delivery.dfy` | the whole way of a stream of closures and their fds from sender to receiver |
| `ReaderProtocol.dfy` | prepare, read, cancel and sleep, by any number of threads |
| `ProxyLifetime.dfy` | exact reference counts of proxies held by queued and dispatching closures |
| `TimerHeap.dfy` | the timer heap with back-indices, its amortized capacity, due lists and the timerfd; whole runs against a plain table of deadlines |
| `Signals.dfy` | intrusive lists and mutation-safe emission on linked nodes, nested emissions included |
| `Registry.dfy` | globals and the registries that announce them |
| `Scanner.dfy` | printed signatures and the shared types table, against the runtime's reader |

Conventions. Code that works in place is modelled by classes, arrays and loops, each
proved against a function or predicate on values, and the theorems are about those.
The socket, the clock and the callbacks are not fixed: a send may take any non-empty part
or fail, a read may return any part of the stream with any control messages, and what a
callback does is given as data over which the theorems quantify (a script of changes, for
signals even with emissions inside emissions). A multi-threaded run is a sequence of
operations under the display's mutex. Object pointers in the table are multiples of 4, and
bit operations on tagged words are written as arithmetic.

Where code and comments disagree, the model follows the code:

- `display_protocol_error` (untitled/src/wayland-client.c:207-214) explains that no thread can
  sleep in `read_events` while an error event is dispatched. A thread can, whatever queue it
  waits for, as an event leaves its queue before it is handled; only undispatched events of
  its own queue rule it out. It is not forgotten, since some thread is still prepared
  (`ReaderProtocol.ErrorWhileAsleep`, `ReaderProtocol.Display.SleeperHasReader`).
- `destroy_queued_closure` is said to unref all proxies in a closure's arguments
  (untitled/src/wayland-client.c:265-268). Arguments that were destroyed before dispatch have
  been nulled by then and keep their reference. So a destroyed proxy stays in memory if a
  queued event named it when it was destroyed and is then dispatched
  (`ProxyLifetime.NamedIsLost`), and is freed otherwise (`ProxyLifetime.UnnamedIsFreed`,
  `ProxyLifetime.Client.FreedUnlessLost`), unless the map still leads to it as told below.
- The scanner's error message allows `allow-null` on arrays (untitled/src/scanner.c:836), but
  `is_nullable_type` accepts only strings and objects.

Properties that do not hold for all runs. Alignment of the fd stream and safe reuse of ids
hold for ids the client allocates (`ServerIds.ClientIdRunsAreSound`). For ids the server
allocates there is neither a zombie nor a `delete_id`: the client may discard an event with
its fds, read an event through the proxy of an earlier object, or refuse an event because of
a gap, of an entry that is not NULL, or of an argument that it does not know or for which it
has the proxy of an earlier object of another interface. For any event in any reachable state
`ServerIds.RefusedIff` says exactly when it is refused and `ServerIds.StaysAlignedIff` exactly
when alignment is kept. `ServerIds.DiscardedFdLeaks`, `ServerIds.StaleProxyMisaligns`,
`ServerIds.StaleArgumentIsRefused` and `ServerIds.UnheardIdLeavesGap` are runs that fail, and
`ServerIds.OrderlyRunsAreSound` gives rules for the single steps under which every run, with
ids from both sides, is free of all this.

That the server accepts every new id of the client holds if proxies are created by the
requests that announce them (`IdProtocol.NewIdsAreNeverRejected`). With the public
`wl_proxy_create` an id can be announced before a smaller one, and
`IdProtocol.RejectedIffAhead` says that this is exactly when one is refused.

That the id map of a client leads to no destroyed proxy holds if the `delete_id` events name
ids of the client, as those of the library's server do. `display_handle_delete_id` marks any
live proxy, and when the application then destroys one whose id is the server's,
`proxy_destroy` only calls `wl_map_remove`, which does nothing for such ids on the client's
side (untitled/src/wayland-client.c:503-504, untitled/src/wayland-util.c:344-346). The entry
stays, the proxy is freed, and the next event for the id uses its memory.
`ProxyLifetime.Client.DestroyProxy` says that this is exactly when the map leads to a destroyed
proxy, `ProxyLifetime.StaleEntryIsUsed` what follows from it in every such state, and
`ProxyLifetime.FreedMemoryIsUsed` is a run that ends this way. `ProxyLifetime.Run` is free of it
if all `delete_id` events name ids of the client.

That a peer receives all that was sent holds if the fds that come ahead of their messages fit
its buffer, which holds 1024. A sender puts all buffered fds in front of however few bytes the
socket takes, so that more may come ahead (`Delivery.FdsOverrunPeer`), and then, by
`Delivery.ReceiverInStep` exactly then, a read fails.

The first error of a display can be lost, as an error event looks for one without the mutex
(`ReaderProtocol.FirstErrorLost`); `ReaderProtocol.ErrorStaysIff` says exactly when the
latched one stays.

## Model

| member | source | states |
|---|---|---|
| `ObjectMap.InsertNewValid` | untitled/src/wayland-util.c:196-242 | allocation keeps the free list duplicate-free, covering exactly the vacated own-side slots, and never touching the other side |
| `ObjectMap.InsertNewTakesUntakenId` | untitled/src/wayland-util.c:196-242 | unless the id space is exhausted, the allocated id is of the own range, was not taken, is bound to the given data and flag, and no other id changes; in a server map, and in a client map whose NULL object is in place, id 0 comes back exactly when the id space is exhausted |
| `ObjectMap.InsertAtValid` | untitled/src/wayland-util.c:245-279 | storing under an id that is not on the free list keeps the map well formed |
| `ObjectMap.InsertAtBinds` | untitled/src/wayland-util.c:245-279 | storing succeeds if and only if the id is in range and leaves no gap, and then binds that id and no other |
| `ObjectMap.ReserveNewAdmits` | untitled/src/wayland-util.c:282-331 | reserving succeeds if and only if the id is of the other side, in range, leaves no gap and its entry is NULL; no lookup changes |
| `ObjectMap.RemoveFreesForReuse` | untitled/src/wayland-util.c:334-355 | a removed own id is unbound, the others are untouched, and the next allocation returns that very id (last in, first out) |
| `SlotTable.TagRoundTrip` | untitled/src/wayland-util.c:177-179 | an aligned pointer and its flag survive tagging, and free-list links are told apart from pointers |
| `SlotTable.VacantLooksEmpty` | untitled/src/wayland-util.c:352-374 | every slot on the free list holds a link or, the last one, the untagged 0 |
| `SlotTable.WordArray.Add` | untitled/src/wayland-util.c:110-139 | growth by doubling keeps all earlier entries and adds one of unknown content |
| `SlotTable.ObjectTable.constructor` | untitled/src/wayland-util.c:182-186 | a new table stands for the empty map of its side |
| `SlotTable.ObjectTable.InsertNewEntry` | untitled/src/wayland-util.c:196-242 | the table of tagged words computes exactly the allocation of the abstract map, through growth and the threaded free list |
| `SlotTable.ObjectTable.InsertEntryAt` | untitled/src/wayland-util.c:245-279 | the table refines the abstract store, with the same error for the same ids and no change on an error |
| `SlotTable.ObjectTable.ReserveEntry` | untitled/src/wayland-util.c:282-331 | the table refines the abstract reservation, with the same error for the same ids |
| `SlotTable.ObjectTable.RemoveEntry` | untitled/src/wayland-util.c:334-355 | the table refines the abstract removal: the slot becomes the head of the threaded free list |
| `SlotTable.ObjectTable.LookupEntry` | untitled/src/wayland-util.c:358-378 | the pointer read through the tag bits is what the abstract map binds, NULL for vacant and reserved ids |
| `SlotTable.ObjectTable.LookupEntryFlags` | untitled/src/wayland-util.c:381-401 | the flag read through the tag bits is that of the abstract map |
| `IdProtocol.RequestInv` | untitled/src/wayland-client.c:655-681 | creating the proxies of a request and announcing their ids, or failing at any point, keeps the invariant of the two-endpoint id protocol |
| `IdProtocol.SendIdInv` | untitled/src/wayland-client.c:460-470 | announcing the id of a proxy that was created on its own, in whatever order, keeps it |
| `IdProtocol.ClientDestroyInv` | untitled/src/wayland-client.c:501-522 | destroying a proxy keeps it, leaving a zombie, a removed id or a NULL entry |
| `IdProtocol.ClientReadInv` | untitled/src/wayland-client.c:1465-1544 | parsing any pending event keeps it: discarding it, or reading its words by the interface of the client's own proxy, with the new ids, the arguments and their interfaces checked |
| `IdProtocol.ClientDispatchInv` | untitled/src/wayland-client.c:1035-1055 | handling a delete_id keeps it, for zombies and for live proxies |
| `IdProtocol.ServerReadInv` | untitled/src/connection.c:798-820 | reserving the next announced id on the server keeps it |
| `IdProtocol.ServerBindInv` | untitled/src/wayland-server.c:1843-1886 | creating the resource of a reserved id keeps it |
| `IdProtocol.ServerCreateInv` | untitled/src/wayland-server.c:1843-1886 | creating an object under an id of the server, or running out of ids, keeps it |
| `IdProtocol.ServerEventInv` | untitled/src/wayland-server.c:208-237 | posting an event whose words name any objects of the interfaces demanded, and announce any as new, in any order, keeps it |
| `IdProtocol.ServerDestroyInv` | untitled/src/wayland-server.c:739-758 | destroying a resource, with its delete_id, keeps it |
| `IdProtocol.StepInv` | untitled/src/wayland-server.c:328-458 | every step of either endpoint keeps it |
| `IdProtocol.RunInv` | untitled/src/wayland-server.c:328-458 | so the invariant holds after every list of steps of both endpoints, in any order |
| `IdProtocol.NewIdRejectedIff` | untitled/src/wayland-util.c:282-331 | in every reachable state the server refuses the next announced id if and only if it leaves a gap, and one under way will leave a gap if and only if some id was announced too early |
| `IdProtocol.RejectedIffAhead` | untitled/src/wayland-client.c:460-470 | over every run: an id that the server refuses is under way if and only if some step announced an id while a smaller one had never been announced, which takes a proxy created on its own |
| `IdProtocol.NewIdsAreNeverRejected` | untitled/src/connection.c:798-820 | in every run in which all proxies are created by the requests that announce them, the server accepts every new id the client announces |
| `IdProtocol.FreeIdsAreQuiet` | untitled/src/wayland-client.c:501-522 | in every run an id is on the client's free list only if the server's entry is NULL and no request, delete_id or event under way has it as sender, argument or new id |
| `IdProtocol.ClientIdEventsStayAligned` | untitled/src/wayland-client.c:1465-1544 | an event that names only client-allocated ids is never refused and takes exactly its own fds from the stream, whether its proxy is live or a zombie |
| `ServerIds.DemarshalIff` | untitled/src/connection.c:798-820 | an event's new ids can all be reserved and their proxies created if and only if each is a server id, in range, without a gap after the ids reserved before it, and with a NULL entry |
| `ServerIds.RefusedIff` | untitled/src/wayland-client.c:1482-1544 | in every reachable state with any event at the head: the client refuses it if and only if its sender is known and its opcode is unknown, or by the parameters of the client's own proxy fds are missing, the words do not fit, a new id is not admissible, or an argument is neither NULL nor a zombie and is unknown or of another interface than the message names; for senders the client allocated, and while no fd went astray, the event is read as it was meant and only ids of the server can be the cause |
| `ServerIds.StaysAlignedIff` | untitled/src/wayland-client.c:1482-1544 | in every reachable state in step with the fds, an event that is not refused keeps it so if and only if the client allocated its sender's id or expects as many fds as it carries, none if it discards it and those of its proxy's interface if it holds one, which may be a stale one |
| `ServerIds.OrderlyRunsAreSound` | untitled/src/wayland-client.c:1465-1544 | in every run, with ids allocated by both sides, whose steps create no server id anew while the client has or is to get a proxy under it, announce in order, use no argument before its announcement or after its destruction, and discard no announcement and no fds of a server id: every event is accepted, so arguments are of the interfaces named, the fds taken are the fds carried, the stream holds exactly the fds of the unparsed events, and the client fails only for local reasons |
| `ServerIds.ClientIdRunsAreSound` | untitled/src/wayland-client.c:372-404 | the same for every run in which the server creates no object of its own and posts no event that announces one, without further conditions |
| `ServerIds.SetupIsOrderly` | untitled/src/wayland-server.c:1843-1886 | a run in which the server creates and announces an object keeps to those rules |
| `ServerIds.ServerIdIsReusedAtOnce` | untitled/src/wayland-server.c:753-757 | in every reachable state a destroyed server id is given to the next object the server creates, and nothing is sent to the client |
| `ServerIds.DiscardedFdLeaks` | untitled/src/wayland-client.c:515-517 | a concrete run in which an event for a destroyed server object leaves its fd in the stream |
| `ServerIds.StaleProxyMisaligns` | untitled/src/wayland-server.c:753-757 | a concrete run without any discarded event that loses alignment, because the client reads an event through the proxy of an earlier object under the same id |
| `ServerIds.StaleArgumentIsRefused` | untitled/src/connection.c:923-931 | a concrete run in which the client refuses an event whose argument is a live object of the server, because under its id it still has the proxy of an earlier object of another interface |
| `ServerIds.UnheardIdLeavesGap` | untitled/src/wayland-util.c:282-331 | a concrete run in which the client refuses a new id it never heard of, since the id before it was announced by a discarded event |
| `RingBuffers.FillLevel` | untitled/src/connection.c:164-167 | head minus tail in 32 bits is the fill level, across wrap-around of the free-running counters |
| `RingBuffers.CellRangePieces` | untitled/src/connection.c:101-146 | the one or two pieces computed from masked head and tail are exactly the wanted cells, in order |
| `RingBuffers.RingBuffer.Put` | untitled/src/connection.c:75-98 | the contents grow by the given bytes; more than a whole buffer is refused without change |
| `RingBuffers.RingBuffer.Copy` | untitled/src/connection.c:149-161 | reads the first bytes of the contents without consuming them |
| `RingBuffers.RingBuffer.PutIov` | untitled/src/connection.c:101-122 | the pieces cover exactly the free cells, in the order in which they will be read |
| `RingBuffers.RingBuffer.GetIov` | untitled/src/connection.c:125-146 | the pieces cover exactly the live cells, in order |
| `RingBuffers.RingBuffer.Consume` | untitled/src/connection.c:228-231 | the contents lose their first bytes |
| `RingBuffers.RingBuffer.Produce` | untitled/src/connection.c:370-370 | bytes already stored in the free cells join the contents |
| `Connections.PacketKeepsLedger` | untitled/src/connection.c:289-328 | a partial send that takes all buffered fds keeps bytes and fds conserved, and every message's fds ahead of its bytes |
| `Connections.AcceptKeepsLedger` | untitled/src/connection.c:376-406 | accepting a message whose fds are buffered or sent keeps both |
| `Connections.CloseFds` | untitled/src/connection.c:184-201 | closes exactly the first fds of a buffer, all of them or the given number |
| `Connections.Connection.Transmit` | untitled/src/connection.c:289-321 | one sendmsg offers all buffered bytes and all buffered fds, and takes a prefix of the bytes with all the fds, or nothing |
| `Connections.Connection.SendSome` | untitled/src/connection.c:299-325 | after a successful round the fds that went along are closed and dropped, and the bytes taken are dropped |
| `Connections.Connection.Flush` | untitled/src/connection.c:289-328 | succeeds with everything sent and want_flush cleared, or fails with want_flush still set and bytes still buffered |
| `Connections.Connection.PutFd` | untitled/src/connection.c:428-437 | with fewer than 28 buffered fds the fd is just buffered; 28 force a flush first, which if it succeeds takes all of them, so that the fd is alone; there is always room |
| `Connections.Connection.PutMessage` | untitled/src/connection.c:376-406 | a message that fits behind what is buffered is just buffered; any other forces a flush first, after which it is buffered alone, or nothing of it is |
| `Connections.Connection.CopyFds` | untitled/src/connection.c:1041-1066 | a closure's fds are buffered in argument order; on a failure a prefix was passed on and the rest stays with the closure |
| `Connections.Connection.Send` | untitled/src/connection.c:1212-1265 | on success the message joins the accepted ones, on failure the owner's error is latched; either way every fd of the closure is buffered, sent or closed |
| `Connections.Connection.DestroyClosure` | untitled/src/connection.c:1367-1391 | every fd a closure still holds is closed once |
| `Connections.AdmitsEverything` | untitled/src/connection.c:256-286 | the fds kept, then those dropped, are all the fds of the control messages, in order, and none is dropped without an overflow |
| `Connections.Connection.DecodeCmsgs` | untitled/src/connection.c:256-286 | of the fds that are arriving, control messages are kept whole in order; from the first that does not fit on, all further fds are closed and an overflow is reported; none is still arriving afterwards |
| `Connections.Connection.Read` | untitled/src/connection.c:337-373 | received bytes join the contents in order, an end of file, an error or an overflow adds none; every fd the kernel delivered is buffered, in order, unless they overflow, and is buffered or closed if they do |
| `Connections.Connection.Destroy` | untitled/src/connection.c:210-219 | all buffered outgoing, then all received fds are closed; every fd the kernel duplicated or delivered for the connection was then closed exactly as often, or is still held by a closure |
| `Connections.Connection.TakeFd` | untitled/src/connection.c:842-855 | demarshalling takes the first received fd, which passes from the buffer to the closure, or finds none |
| `Connections.Connection.CloseFdsIn` | untitled/src/connection.c:204-207 | the first received fds, as many as asked for or all, are closed, and the rest stay |
| `Connections.RunConnection` | untitled/src/connection.c:1212-1265 | over every sequence of sends, queues, flushes, reads, takes and closes, with arbitrary partial sends and failures: sent then buffered bytes are the accepted messages, once any byte of a message is sent all its fds are, never more than 28 fds are buffered, want_flush is set while bytes up to the last accepted posted message are unsent, the error is latched if and only if a message was refused, exactly the fds of the messages up to that one are duplicated, and all fds the kernel duplicated or delivered are, with multiplicity, those closed, buffered or taken by closures |
| `Connections.RunToTheEnd` | untitled/src/connection.c:210-219 | after any such run and the destruction of the connection, the fds closed and those taken by closures are exactly the fds the kernel duplicated or delivered |
| `Frames.ParseTwoReads` | untitled/src/wayland-server.c:373-450 | parsing a first part and then its remainder with what follows is parsing both at once; the remainder is less than 4096 bytes |
| `Frames.SplittingDoesNotShow` | untitled/src/wayland-server.c:373-450 | every way of splitting a well-formed stream into reads gives the same result as parsing it whole, with nothing left over |
| `Frames.ServerLoop` | untitled/src/wayland-server.c:373-450 | the server's loop, which asks again how much is pending, computes the parse of the pending bytes and terminates |
| `Frames.ClientLoop` | untitled/src/wayland-client.c:1633-1641 | the client's loop, which counts down, computes the same parse and terminates |
| `Frames.Serve` | untitled/src/connection.c:337-373 | a receiver on a well-formed stream has, after any number of reads of any size, the state of parsing all received bytes at once, and room to read more |
| `Signatures.NextArgument` | untitled/src/connection.c:440-461 | returns the first argument described by the rest of a signature, its nullability, and where the remaining ones start |
| `Signatures.ArgCount` | untitled/src/connection.c:464-481 | counts the arguments a signature describes |
| `Signatures.GetSince` | untitled/src/connection.c:484-494 | the number that atoi reads at the start of a signature, 1 if there is none or it is 0 |
| `Closures.BufferSize` | untitled/src/connection.c:1070-1119 | the size in words of all values plus the header, modulo 2^32 |
| `Closures.PutValue` | untitled/src/connection.c:1139-1198 | a value is stored as its first word, its payload and padding, or overflow is reported, exactly when it does not fit; earlier words stay |
| `Closures.Serialize` | untitled/src/connection.c:1122-1209 | overflows if and only if the values need more words than the buffer has; otherwise the buffer holds the encoded message and the size is returned |
| `Closures.Write` | untitled/src/connection.c:1212-1237 | with the computed buffer size the overflow branch is taken if and only if the true word count does not fit 32 bits; a message of up to 4096 bytes is exactly 4 times the word count long and encodes the closure |
| `Closures.HeaderRead` | untitled/src/connection.c:1199-1202 | sender, opcode and exact size are recovered from the header of any message a connection accepts |
| `Closures.MessageIsFrame` | untitled/src/connection.c:1199-1202 | such a message is one well-formed frame |
| `Closures.AllArrive` | untitled/src/connection.c:727-858 | encoded values decode in order whatever the padding bytes are, taking the fds from the front of the stream and reserving every new id |
| `Closures.RoundTrip` | untitled/src/connection.c:686-871 | decoding the encoding of a closure gives back its values: numbers, strings, arrays and ids unchanged, objects as ids, fds under their received numbers |
| `Closures.ReadText` | untitled/src/connection.c:762-783 | a received string is the bytes before its first NUL |
| `Closures.ReadNewId` | untitled/src/connection.c:798-820 | a new id is refused if 0 or if the map cannot reserve it, and reserved otherwise |
| `Connections.PopFd` | untitled/src/connection.c:842-855 | takes the first received fd off the buffer |
| `Closures.CheckHeader` | untitled/src/connection.c:700-715 | messages shorter than their header and signatures of more than 20 arguments are refused with EINVAL before anything is read |
| `Closures.Demarshal` | untitled/src/connection.c:717-858 | the argument loop, on the object table and the fd ring buffer, computes the decoding function: same values, same error, same reserved ids, same fds taken |
| `Closures.Conclude` | untitled/src/connection.c:860-871 | a decoded message becomes a closure; after an error every fd taken for it is closed |
| `Closures.Marshal` | untitled/src/connection.c:598-671 | fails if there are more than 20 arguments or a NULL where none may be, and otherwise only when an fd cannot be duplicated, and then every duplicate made is closed; on success new objects became ids and fds became the duplicates, in order |
| `Closures.MarshalledIsSendable` | untitled/src/connection.c:598-671 | whatever wl_closure_marshal lets pass satisfies the receiver's checks, given strings without NUL, lengths of 32 bits and objects with an id |
| `EventDecoding.DecodedAsRead` | untitled/src/connection.c:727-858 | for any body, signature and parameters that match: decoding the bytes fails exactly when reading the words by the parameters fails, an fd lacks or a new id cannot be reserved; otherwise it names the same objects, takes the same fds and reserves the same ids |
| `EventDecoding.MessageDecodedAsRead` | untitled/src/connection.c:686-871 | so it does for whole messages, and both refuse more than 20 arguments |
| `Delivery.DeliveredAsSent` | untitled/src/connection.c:686-871 | decoded with its own fds first in line, a closure has the values it was sent with, objects as ids |
| `Delivery.SuppliedByLedger` | untitled/src/connection.c:289-328 | because fds are sent ahead of the bytes they belong to, whoever has received a message completely has received its fds |
| `Delivery.ReceiverInStep` | untitled/src/wayland-client.c:1605-1657 | for a receiver that starts with no fds, whose signatures depend on what it has got and on its map, and whose map changes between messages as handlers bind and free ids: after every read, whatever bytes the reads cut off the packets, as long as a packet's fds come no later than its first byte, exactly the messages received completely are parsed, into the closures sent, each with its own fds taken in order, and no parse ever lacks an fd; or a read has failed, if and only if more fds had come ahead of their messages than the 1024 the fd buffer holds |
| `Delivery.SentStreamArrives` | untitled/src/connection.c:289-328 | once everything a connection accepted is sent and read, in whatever packets and reads, with never more than 1024 fds ahead, the receiver has exactly the closures that were sent and the map they lead to, and no byte and no fd is left over |
| `Delivery.RunToPeer` | untitled/src/connection.c:1212-1265 | any run of a connection, with any partial sends and failures, seen from its peer: at the end of the run, whatever reads it does, the peer is in step or has failed, exactly if more fds came ahead than it has room for; and if no message was refused, nothing is buffered and the fds fit, it gets every accepted closure and nothing is left over |
| `Delivery.FewFdsFit` | untitled/src/connection.c:335-368 | a peer that has room for all the fds it is ever sent has room at every read |
| `Delivery.FdsOverrunPeer` | untitled/src/connection.c:253-282 | sixty understood messages of twenty fds, sent a byte at a time within all that a connection guarantees, make the peer fail |
| `ReaderProtocol.Display.FatalError` | untitled/src/wayland-client.c:145-156 | latches the first error only, EFAULT for none given, and wakes the sleepers exactly when it latches |
| `ReaderProtocol.Display.PrepareReadQueue` | untitled/src/wayland-client.c:1810-1828 | a thread is prepared if and only if its queue is empty |
| `ReaderProtocol.Display.CancelReadLocked` | untitled/src/wayland-client.c:1660-1665 | a prepared thread leaves, and the serial moves on exactly when it was the last |
| `ReaderProtocol.Display.QueueEvents` | untitled/src/wayland-client.c:1633-1641 | events join the ends of their queues in the order of arrival |
| `ReaderProtocol.Display.ReadEvents` | untitled/src/wayland-client.c:1703-1722 | the socket is read if and only if no error is latched and nobody else is prepared; the reader wakes all sleepers on every outcome, the others fall asleep, and after an error the thread only leaves |
| `ReaderProtocol.Display.WakeUp` | untitled/src/wayland-client.c:1645-1653 | a sleeper returns if and only if the serial has moved, with the latched error |
| `ReaderProtocol.Display.DispatchEvent` | untitled/src/wayland-client.c:1560-1569 | the first event leaves its queue |
| `ReaderProtocol.Display.CheckProtocolError` | untitled/src/wayland-client.c:171-177 | an error event passes the unlocked check exactly if no error is latched |
| `ReaderProtocol.Display.LatchProtocolError` | untitled/src/wayland-client.c:179-203 | an error event that passed is latched with the error number of its code, or EPROTO for other interfaces, whatever is latched by then, and nobody is woken |
| `ReaderProtocol.Display.ProtocolError` | untitled/src/wayland-client.c:171-218 | with nothing in between, an error event is latched exactly if it is the first error |
| `ReaderProtocol.RunLatched` | untitled/src/wayland-client.c:171-218 | from a latched error on, in every run, what is latched changes by the latching of error events that passed the check before, and by nothing else |
| `ReaderProtocol.ErrorStaysIff` | untitled/src/wayland-client.c:171-218 | the latched error number survives every run if and only if all error events that passed the check and wait for the mutex have this number, and the error event behind it if and only if they all are that event |
| `ReaderProtocol.FirstErrorLost` | untitled/src/wayland-client.c:171-203 | a concrete run in which an error event that passed the unlocked check overwrites the local error latched in between |
| `ReaderProtocol.Display.SleeperHasReader` | untitled/src/wayland-client.c:1645-1653 | as long as a sleeper has not been woken, some other thread is prepared and no undispatched event is in the sleeper's queue |
| `ReaderProtocol.Display.PreparedMissesNothing` | untitled/src/wayland-client.c:1755-1800 | while a thread is prepared its queue stays empty and nobody has read the socket |
| `ReaderProtocol.Display.Settle` | untitled/src/wayland-client.c:1848-1867 | once every prepared thread has read or cancelled, in any order and with any outcome, every sleeper can return |
| `ReaderProtocol.Run` | untitled/src/wayland-client.c:1605-1665 | in every run of any number of threads the reader count is the number of prepared threads, sleeping threads imply prepared ones, and every queue delivers in order of arrival |
| `ReaderProtocol.ErrorWhileAsleep` | untitled/src/wayland-client.c:207-214 | for every queue, a reachable state in which a thread sleeps in read_events for that queue while a protocol error is handled, which the comment there rules out |
| `ProxyLifetime.Client.Unref` | untitled/src/wayland-client.c:228-238 | both asserts hold: the count is positive, and the proxy is destroyed when the count drops to zero, when it is freed |
| `ProxyLifetime.Client.IncreaseArgsRefcount` | untitled/src/wayland-client.c:1438-1462 | a closure's proxies each gain exactly one counted reference per mention |
| `ProxyLifetime.Client.DestroyQueuedClosure` | untitled/src/wayland-client.c:269-294 | a closure gives back exactly the references it holds |
| `ProxyLifetime.Client.ValidateClosureObjects` | untitled/src/wayland-client.c:241-263 | exactly the destroyed arguments become NULL, and exactly their references are leaked |
| `ProxyLifetime.Client.CreateProxies` | untitled/src/wayland-client.c:1403-1435 | every new id gets a new live proxy with that id and interface, no two share one, and they are entered in the map in order |
| `ProxyLifetime.EnteredLast` | untitled/src/wayland-client.c:480-497 | the map then leads from each new id to the last proxy made for it, and from other ids to where it did |
| `ProxyLifetime.Client.LookupObjects` | untitled/src/connection.c:891-937 | ids resolve to the map's proxies, id 0 and zombies to NULL, and it is an error exactly if an id is unknown or its proxy is of another interface than the message names; and it is told exactly when an argument that is looked at leads to a proxy whose memory is gone |
| `ProxyLifetime.Client.QueueEvent` | untitled/src/wayland-client.c:1465-1544 | an event is discarded if and only if its object is a zombie or unknown; otherwise it uses freed memory if and only if the map leads from its object, or from an argument that is looked at, to a freed proxy; otherwise it is refused if and only if a new id is one of the client's or in use, or an argument does not resolve; and else it is queued with its new and known proxies and their references counted |
| `ProxyLifetime.Client.BeginDispatch` | untitled/src/wayland-client.c:1560-1585 | the first closure of any queue is dropped if its proxy was destroyed and otherwise dispatched with destroyed arguments nulled; in both cases exactly the destroyed proxies among its arguments are lost |
| `ProxyLifetime.Client.ReleaseClosure` | untitled/src/wayland-client.c:296-307 | a closure of a destroyed queue gives its references back, and nothing is lost |
| `ProxyLifetime.Client.EndDispatch` | untitled/src/wayland-client.c:1599-1602 | after the handler the closure's references are given back |
| `ProxyLifetime.Client.DestroyProxy` | untitled/src/wayland-client.c:501-522 | the id becomes a zombie, leaves the map, or, if it is one of the server's and a delete_id for it was handled, keeps its entry: exactly then the map leads to the destroyed proxy; the proxy survives as long as closures refer to it, and is recorded as named exactly if a queued closure names it as an argument |
| `ProxyLifetime.LeadsAfter` | untitled/src/wayland-util.c:334-355 | after a destruction the map leads to the destroyed proxy, from whatever id, if and only if it did before and the removal was of a server id, which the client's map ignores |
| `ProxyLifetime.EntryAfterDestroy` | untitled/src/wayland-client.c:501-515 | on the id map itself: marking the id a zombie, storing NULL or removing it changes this entry and no other, and the entry still leads to the proxy exactly in the case of a server id with a handled delete_id |
| `ProxyLifetime.Client.HandleDeleteId` | untitled/src/wayland-client.c:1034-1055 | the zombie of the id is forgotten, or the proxy that the map leads to is marked and no other, whatever the id; and freed memory is used exactly if that proxy was freed |
| `ProxyLifetime.Client.NoDangling` | untitled/src/wayland-client.c:1560-1602 | no queued or dispatching closure refers to a freed proxy |
| `ProxyLifetime.Client.FreedUnlessLost` | untitled/src/wayland-client.c:241-263 | a proxy is freed if and only if it is destroyed, no closure refers to it and no closure that names it as an argument was dispatched since it was destroyed; which takes a closure that named it when it was destroyed, or a map that still led to it |
| `ProxyLifetime.UnnamedIsFreed` | untitled/src/wayland-client.c:501-522 | a proxy that no queued closure names as an argument when the application destroys it, and to which the map does not lead afterwards, is, whatever happens later, freed exactly when no closure refers to it |
| `ProxyLifetime.NamedIsLost` | untitled/src/wayland-client.c:253-257 | a proxy that a closure queued later names is never freed, whatever happens before and afterwards, once such a closure was dispatched; which takes that one was queued when the proxy was destroyed, or that the map still led to it |
| `ProxyLifetime.Client.MapIsSafe` | untitled/src/wayland-client.c:501-522 | the id map leads to a destroyed or freed proxy only if its server id was announced as deleted before it was destroyed; otherwise the proxy it leads to is referenced |
| `ProxyLifetime.Run` | untitled/src/wayland-client.c:1465-1602 | in every run of creations, destructions of any proxies, events, interleaved dispatches from several queues, destroyed queues and any delete_ids, no closure refers to a freed proxy; and if the delete_ids name only ids of the client, no freed memory is ever used and the map never leads to a destroyed proxy |
| `ProxyLifetime.StaleEntryIsUsed` | untitled/src/wayland-client.c:503-504 | from every state in which a live proxy of a server id is in use by no closure, a delete_id for it followed by its destruction frees it with the map still leading to it, and the next event or delete_id for that id uses freed memory |
| `ProxyLifetime.FreedMemoryIsUsed` | untitled/src/wayland-util.c:344-346 | a concrete run, with an object that the server announces, that ends in the use of freed memory |
| `ProxyLifetime.LeakedProxy` | untitled/src/wayland-client.c:253-257 | a concrete run after which a destroyed proxy that nobody refers to stays in memory |
| `TimerHeaps.DownStep` | untitled/src/event-loop.c:400-414 | exchanging the moving key with its earlier child keeps heap order everywhere but at the new hole, where the parent fits |
| `TimerHeaps.UpStep` | untitled/src/event-loop.c:427-436 | exchanging it with its later parent keeps heap order everywhere but at the new hole, where the children fit |
| `TimerHeaps.RootIsEarliest` | untitled/src/event-loop.c:495-500 | the root of a heap-ordered array is the earliest |
| `TimerHeaps.SiftDown` | untitled/src/event-loop.c:387-418 | the timers are rearranged, each knows its slot, the sifted one fits its children and, if it moved, its parent |
| `TimerHeaps.SiftUp` | untitled/src/event-loop.c:421-439 | heap order holds afterwards, and nothing moves if the parent fits |
| `TimerHeaps.Resettle` | untitled/src/event-loop.c:465-469 | only one of sift-down and sift-up has any effect, and heap order holds afterwards |
| `TimerHeaps.TimerHeap.Disarm` | untitled/src/event-loop.c:443-470 | from any slot: heap order and all back-indices hold, exactly this timer is no longer armed |
| `TimerHeaps.TimerHeap.Arm` | untitled/src/event-loop.c:474-485 | heap order and back-indices hold, exactly this timer became armed, with its deadline; there is always room |
| `TimerHeaps.TimerHeap.SetDeadline` | untitled/src/event-loop.c:611-659 | the timer is armed with its deadline and the timerfd is never later than the earliest deadline |
| `TimerHeaps.TimerHeap.Update` | untitled/src/event-loop.c:611-659 | a positive delay arms the timer, any other disarms it, and the timerfd guarantee holds after both |
| `TimerHeaps.DeadlineIsExact` | untitled/src/event-loop.c:620-634 | the deadline is exactly the delay after now, normalized |
| `TimerHeaps.TimerHeap.Reserve` | untitled/src/event-loop.c:334-352 | there is room for one more timer; the operation is counted once, a full array is copied and counted, and copies stay within six elements per operation |
| `TimerHeaps.TimerHeap.Unreserve` | untitled/src/event-loop.c:355-370 | the array is halved exactly if it has at least 16 slots and three quarters are unused, cutting off no armed slot; the operation and the copies are counted, and stay within the bound |
| `TimerHeaps.TimerHeap.AddTimer` | untitled/src/event-loop.c:562-592 | a new disarmed timer, with all invariants kept |
| `TimerHeaps.TimerHeap.RemoveTimer` | untitled/src/event-loop.c:829-856 | the timer is disarmed, gives up its room and is marked so that it is not dispatched |
| `TimerHeaps.GrowPays` | untitled/src/event-loop.c:334-352 | a reallocation on growth is paid for by the operations since the last one |
| `TimerHeaps.ShrinkPays` | untitled/src/event-loop.c:355-370 | so is one on shrinking |
| `TimerHeaps.TimerHeap.CollectDue` | untitled/src/event-loop.c:495-512 | the due timers come out in deadline order as a linked list, those left are later than now, and the heap holds exactly those |
| `TimerHeaps.TimerHeap.RunCallbacks` | untitled/src/event-loop.c:521-528 | with callbacks that add, update and remove any timers, also those added by callbacks during the dispatch, exactly the due timers that no earlier callback removed are called, in order, and the heap afterwards is the table of deadlines that the callbacks lead to |
| `TimerHeaps.TimerHeap.Dispatch` | untitled/src/event-loop.c:489-530 | exactly the timers with a deadline not after now leave the heap, each once, in deadline order, their callbacks run as specified on the table of the others, and all invariants hold afterwards |
| `TimerHeaps.Run` | untitled/src/event-loop.c:334-530 | every run of additions, updates, removals and dispatches with any callbacks: the array heap, with its sifting and reallocations, is at every moment just a table of deadlines, in which an update sets one entry, a removal ends one, and a dispatch takes exactly the due ones, earliest first; the timerfd is never later than the earliest deadline and off without one; all reallocations together copied at most six elements per timer added or removed |
| `TimerHeaps.FiredIffNotRemovedBefore` | untitled/src/event-loop.c:521-528 | a due timer's callback runs if and only if the timer is there and no callback before it in the dispatch removed it |
| `TimerHeaps.FiredInOrder` | untitled/src/event-loop.c:521-528 | callbacks run in the order of the due list |
| `Signals.Insert` | untitled/src/wayland-util.c:45-51 | a ring of linked nodes stays a ring, with the node after the given one |
| `Signals.Remove` | untitled/src/wayland-util.c:54-60 | a ring stays a ring without the node, whose links are cleared |
| `Signals.Append` | untitled/src/wayland-server-core.h:445-448 | the listener joins at the end of the linked list |
| `Signals.EmitMutable` | untitled/src/wayland-server.c:2151-2184 | on linked nodes, with callbacks that add, remove and emit again, and inside outer emissions: exactly the listeners that the marker-free specification names are notified, and the list ends up as specified with both markers gone |
| `Signals.RunScript` | untitled/src/wayland-server.c:2179-2179 | a callback's changes to the linked list are those it makes to the list without markers |
| `Signals.NotifiedUnlessRemoved` | untitled/src/wayland-server.c:2135-2136 | a listener present at the start is notified if and only if no callback of a listener before it removed it |
| `Signals.NotifiedInOrder` | untitled/src/wayland-server.c:2151-2184 | listeners are notified once each, in list order |
| `Signals.NoNewcomerIsNotified` | untitled/src/wayland-server.c:2138-2139 | no listener added during an emission is notified by it |
| `Signals.FinalList` | untitled/src/wayland-server.c:2151-2184 | in the end the list holds the listeners that nobody removed, in their old order, followed by exactly those whose last change was to join |
| `Registries.Display.CreateGlobal` | untitled/src/wayland-server.c:1227-1270 | an invalid version is refused; otherwise the new global has a fresh name and every registry agrees with the globals again |
| `Registries.Display.RemoveGlobal` | untitled/src/wayland-server.c:1294-1310 | every registry whose client sees the global is told once, and all registries agree again |
| `Registries.Display.DestroyGlobal` | untitled/src/wayland-server.c:1313-1319 | a global not yet removed is removed first; then it is unlinked and all registries still agree |
| `Registries.Display.GetRegistry` | untitled/src/wayland-server.c:982-1010 | a new registry is told of exactly the visible globals that are not removed, each once |
| `Registries.Display.DestroyRegistry` | untitled/src/wayland-server.c:976-979 | the other registries are not disturbed |
| `Registries.Display.Bind` | untitled/src/wayland-server.c:914-951 | a request is granted if and only if a linked global has the name and interface, the version is between 1 and its own, and the client may see it; otherwise the first failing check is reported, in the order of the source |
| `Registries.Display.KnownCanBeBound` | untitled/src/wayland-server.c:914-951 | whatever a registry announced and has not withdrawn can be bound by its client, with the global's interface and any version up to its own |
| `Registries.Run` | untitled/src/wayland-server.c:982-1319 | after every sequence of create, remove, destroy, get_registry and destroyed registries, each registry's announced minus withdrawn names are those of the visible globals not removed, each announced and withdrawn at most once |
| `Scanner.PrintSignature` | untitled/src/scanner.c:1760-1801 | prints the version, if above 1, and the letters of the arguments |
| `Scanner.SignatureReadsBack` | untitled/src/scanner.c:1760-1801 | the runtime's parser recovers every argument's type and nullability, and atoi the version, from the printed signature, untyped new ids as string, number and id |
| `Scanner.ForwardDeclarations` | untitled/src/scanner.c:1507-1539 | a message is marked all-null exactly when no argument has an interface, and the null run is as long as the longest such message, attained by one of them |
| `Scanner.EmitTypes` | untitled/src/scanner.c:1714-1745 | the table grows by the entries of the messages that have an interface, one after the other; every message's entries from its offset on are those of its arguments, whether it shares the leading null run or has entries of its own |
| `Scanner.EmitTable` | untitled/src/scanner.c:1842-1863 | in the whole table of a protocol, entry k from any message's offset is its argument k's interface or NULL |
| `Scanner.EntriesCountAlikeIff` | untitled/src/scanner.c:1776-1779 | table entries and runtime arguments count alike if and only if no new id is untyped |
| `Scanner.ArgumentsAlike` | untitled/src/scanner.c:1714-1805 | without untyped new ids, entry k and runtime argument k are the same declared argument |
| `Scanner.UntypedShiftsEntries` | untitled/src/scanner.c:1776-1779 | a concrete emitted table in which the entry that the runtime looks up for an argument after an untyped new id is the interface of another message's argument |

## Left out

- Allocation failure: `malloc`, `zalloc` and `realloc` succeed, also in `wl_array_add` and in `wl_timer_heap_reserve`.
- Words are little-endian; other byte orders are not modelled, and neither is the retry of system calls after EINTR.
- The errno values of failed system calls are not told apart, except EAGAIN and the library's own EINVAL, ENOSPC, E2BIG, EOVERFLOW, EPIPE and ERANGE.
- `read_serial`, global names, reference counts and counters other than the ring buffers' head and tail do not wrap around.
- Closures.Demarshal: takes the message bytes as a sequence; copying them out of the input ring and consuming them is modelled in `Frames`.
- Signatures.GetSince: numbers that do not fit an int are not truncated.
- Closures.Conclude: the fds closed after an error are returned as a list; that an owned fd is closed once is modelled in `Connections`.
- Closures.Write: the write that follows is `Connections.Connection.Send`, which takes the bytes and fds of the message.
- Frames.Serve: well-formed streams have messages of 8 to 4096 bytes; `Frames.ServerLoop` and `Frames.ClientLoop` are proved for all bytes, given that a message shorter than its header stops the server.
- IdProtocol.StepInv: object arguments of requests and versions are left out; every new id of an event names its interface; the server posts only objects of the interfaces that the message names, which the library leaves to its caller; a refused event leaves the map as it was, as nothing is read after it.
- ServerIds.OrderlyRunsAreSound: goes one way; a run that breaks a rule need not fail, and exactly when a single event fails is `ServerIds.RefusedIff` and `ServerIds.StaysAlignedIff`.
- ProxyLifetime.Client.QueueEvent: of the reasons to refuse an event those that concern the map's proxies and the side of a new id are modelled; gaps among new ids, missing fds and words that do not fit are in `ServerIds.RefusedIff`.
- ProxyLifetime.Client.HandleDeleteId: when freed memory is used, the step is recorded as such and the run has no further effects; what the memory then holds is not modelled.
- ProxyLifetime.Run: which closures are the first of their queues is left open, so that there are more runs than the library has; proxy wrappers, tags and the proxies that fail half way through a request are not modelled.
- ReaderProtocol.Run: sleeping and waking are steps of their own; fairness of the scheduler is not modelled, and neither is the unlocked reading of `last_error` in `dispatch_queue`.
- Connections.RunConnection: duplicating an fd succeeds; that it may fail while marshalling is modelled in `Closures.Marshal`.
- Delivery.ReceiverInStep: fds keep their numbers on the way; what the new numbers are is up to the receiving kernel.
- Registries.Run: the filter is fixed per client and global, and clients are free of errors, as the documentation of `wl_display_set_global_filter` demands.
- Scanner.EmitTable: requests and events of all interfaces are one list, in the order in which they are emitted; parsing XML, headers and the sorted extern declarations are left out.
- Scanner.PrintSignature: messages are modelled after the parser has accepted them.
- Signals.EmitMutable: callbacks remove only listeners that are in the list and add only listeners that are not, as the list code demands.
- TimerHeaps.TimerHeap.Dispatch: dispatch from inside a callback is left out, and setting the timerfd succeeds.
- `wl_priv_signal_emit` and `wl_signal_emit` (the latter does not survive all removals) are left out; the former reverses the list at every emission.
- `wl_list_insert_list`, `wl_map_for_each` and the legacy flag of map entries are left out as easy.
- Calling handlers through libffi, logging and printing of closures, shared-memory buffers, socket creation and credentials, the fd, signal and idle event sources, and the JNI and Java layers are left out.
