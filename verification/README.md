# A model of the SensCord server, its WebSocket and SSDP code and its parsers

This project models parts of the SensCord SDK in Dafny and proves properties of them.

**The life of clients and resources in the multi-server.** Threads interleave freely: a state machine has
one action for each critical section or step outside of the locks, and a run is any sequence of enabled
actions. `ClientLists` and `MessageQueue` hold the guarded fields as classes, whose methods are the
critical sections; `ClientLifecycle` and `PublisherLifecycle` prove what all runs keep and that stopping
ends. `LockOrder` has the lock operations and joins of all threads, for any number of clients and
resources. `ResourceMap` is the map of open resources of one client, with the attaching of secondary
connections.

**The WebSocket code.** `Sha1` and `Base64` compute in place, with the words, shifts and bounds of the C
code, and are compared with `Fips180` (FIPS 180-4) and `Rfc4648`. `WebSocketFrame` is the frame parser, compared
with the frames of `Rfc6455` (sections 5.2 and 5.3). `Handshake` and `HandshakeAnswer` are the opening
handshake of sections 4.2.1 and 4.2.2. Where the C code is right only below a bound, the bound is proved in
both directions.

**SSDP.** `SsdpPacket` prints and parses the packets; `NeighborList` is the heap list of neighbours with
its change callback.

**Parsers and codecs.** `ConfigManager` is the pull parser of the server's configuration and its lookups,
`StructureCodec` the schema-driven Python codec, `PropertyKey` the property keys with appended tags,
`TemporalContrast` the walk over temporal-contrast buffers. `OrderedDict`, `CStrings`, `Decimal`,
`ByteInts` and `Wrappers` are shared helpers.

Loops and objects of the source are loops and classes here; each method is proved against a function of
its inputs or its old state, and the lemmas are about these functions. Integers are unbounded unless a width
matters; then it is written out: 32-bit words, one-byte lengths, the sign extension of shifted bytes in the
frame length, times modulo 2^64. What comes from outside (the core's answers, failing allocations and
threads, clocks, XML attributes, received chunks) is a parameter.

Places where the code and its comments or documentation differ, and the model follows the code:

- `sha1` tests `> 56` where the padding of FIPS 180-4 needs `>= 56`, so messages with a length of 56 mod 64
  are not padded.
- The lookup by "backward match" (`ConfigManager.SettingExactly`) asks whether a configured key ends with the requested key.
- A frame element counts if and only if it has no connection attribute or that of a listener that stands
  before it in the document; others are dropped, also one with an empty attribute
  (`ConfigManager.FrameCounts`, `LateListenerDropsFrame`, `EmptyNameDropsFrame`).
- A known element inside an unknown one is not skipped.
- A publisher whose close failed in the core stays in the map without its publisher and its thread; messages
  for it are dropped without being released, and the next close succeeds.
- A publisher whose restart failed because no thread was created stays stopped with its end flag clear; a
  message routed to it is put into the list and not released before the next start
  (`PublisherLifecycle.ReleasedExactly`, `LeftAfterFailedRestart`).
- A request line with two blanks after `GET` has its resource written behind a one-byte allocation
  (`Handshake.ResourceFitsExactly`), and so has a key of more than 219 bytes with its GUID
  (`HandshakeAnswer.KeptLengthIsLength`). The model gives these an undefined outcome.
- The Python codec raises for integers outside the 64-bit range of MessagePack, also in structures whose
  field types allow them (`StructureCodec.IntegersThatFit`, `OutOfRangeDoesNotFit`).

## Model

| member | source | states |
|---|---|---|
| ClientLists.ClientAdapterManager.Register | application/multi_server/src/client_adapter_manager.cpp:81-87 | Under the lock, the client is appended to `clients_` unless the end flag is set; then nothing changes. |
| ClientLists.ClientAdapterManager.Find | application/multi_server/src/client_adapter_manager.cpp:95-97 | The search loop returns the first position of the client, or the length when it is not registered. |
| ClientLists.ClientAdapterManager.Release | application/multi_server/src/client_adapter_manager.cpp:93-103 | A registered client moves, once, from its place in `clients_` to the end of the release list and the condition is signalled; for any other client nothing happens. |
| ClientLists.ClientAdapterManager.RequestStop | application/multi_server/src/client_adapter_manager.cpp:62-65 | The critical section of `Stop` changes the end flag and nothing else. |
| ClientLists.ClientAdapterManager.SwapReleaseList | application/multi_server/src/client_adapter_manager.cpp:161-163 | The whole release list is taken in order and left empty. |
| ClientLists.ClientAdapterManager.TakeLast | application/multi_server/src/client_adapter_manager.cpp:181-185 | One round of the drain loop takes exactly the last registered client. |
| ClientLifecycle.StepOwned | application/multi_server/src/client_adapter_manager.cpp:81-103 | Every action of every thread keeps each accepted client in exactly one of: registered, in the release list, in the batch of the reaper, in the hand of the thread in `Stop`, deleted. |
| ClientLifecycle.StepJoined | application/multi_server/src/client_adapter_manager.cpp:203-212 | Every action keeps: a client is deleted, and marked as joined, only after its own thread has ended. |
| ClientLifecycle.StepAsked | application/multi_server/src/client_adapter.cpp:61-68 | Every action keeps: a thread is joined only after the end flag of its client was set. |
| ClientLifecycle.StepCalled | application/multi_server/src/client_adapter_manager.cpp:93-103 | Every action keeps: a client in the release list or in a batch taken from it has called `Release` itself, so it is no longer receiving. |
| ClientLifecycle.StepOrdered | application/multi_server/src/client_adapter_manager.cpp:152-170 | Every action keeps: the reaper never sleeps while the end flag is set or the release list is not empty (no wakeup is lost), and `Stop` goes on to the drain only after the reaper has returned. |
| ClientLifecycle.RunKeeps | application/multi_server/src/client_adapter_manager.cpp:59-212 | All of these hold in every state of every interleaving of listener, client threads, reaper and `Stop`, from any state that satisfies them. |
| ClientLifecycle.OneOwner | application/multi_server/src/client_adapter_manager.cpp:81-103 | In every reachable state an accepted client occurs exactly once over all five places, has been deleted at most once, and only with its thread gone. |
| ClientLifecycle.StopDeletesAll | application/multi_server/src/client_adapter_manager.cpp:59-75 | When `Stop` has returned, both lists are empty, every client thread is gone and every client ever accepted has been deleted exactly once. |
| ClientLifecycle.StepDecreases | application/multi_server/src/client_adapter_manager.cpp:178-197 | Once the end flag is set, every action of any thread strictly decreases one measure; in particular the drain loop ends, because nothing adds to `clients_` any more. |
| ClientLifecycle.RunsAreBounded | application/multi_server/src/client_adapter_manager.cpp:178-197 | So no run after the call of `Stop` is longer than that measure, whatever the interleaving. |
| ClientLifecycle.HeldCanEnd | application/multi_server/src/client_adapter.cpp:61-68 | A client that is being joined was told to end and is still owned by the thread that joins it, so its own thread can go on whatever its peer does; one that was released has only to end. |
| ClientLifecycle.UnaidedExactly | application/multi_server/src/client_adapter_manager.cpp:59-75 | What does not count as acting by itself: a new connection, the call of `Stop`, a spurious wakeup, and a client leaving whose end flag is not set. |
| ClientLifecycle.NeverStuck | application/multi_server/src/client_adapter_manager.cpp:59-75 | Until `Stop` returns, some thread can act by itself: no join and no condition wait blocks all of them, without spurious wakeups and without any connected client leaving before its end flag is set. |
| ClientLifecycle.StopReturns | application/multi_server/src/client_adapter_manager.cpp:59-75 | From every reachable state in which `Stop` was called, with any number of clients still connected, every run is bounded, and one that no thread can continue by itself has `Stop` returned with every accepted client deleted once. |
| ClientLifecycle.ReleasedIsReaped | application/multi_server/src/client_adapter_manager.cpp:155-167 | While the manager runs, a client in the release list is never forgotten: the reaper can act, or it is joining a client that has called `Release` and has only to end. |
| LockOrder.ScriptsOrdered | application/multi_server/src/client_adapter_manager.cpp:111-133 | Every function of the server, in every thread that runs it, takes its locks in the order manager, resources, secondary, with the messaging and configuration locks innermost, releases them innermost first and holds none at a join. |
| LockOrder.ScriptsSpelledOut | application/multi_server/src/publisher_adapter.cpp:135-161 | The lock operations and joins of the functions that stop a thread, one by one. |
| LockOrder.AttachSpelledOut | application/multi_server/src/client_adapter_manager.cpp:111-133 | Those of attaching past one client, one by one. |
| LockOrder.RunsSpelledOut | application/multi_server/src/client_adapter.cpp:88-114 | Which functions each of the five kinds of threads runs. |
| LockOrder.EndReturns | application/multi_server/src/client_adapter.cpp:88-114 | A thread returns only behind the end of a block, and for good. |
| LockOrder.StepsWait | application/multi_server/src/client_adapter_manager.cpp:59-75 | A thread takes only locks that no thread holds and passes a join only after the joined thread has returned. |
| LockOrder.AttachOrdered | application/multi_server/src/client_adapter.cpp:578-591 | The nested case for any number of clients passed over: manager lock, then one client's resource lock at a time, then the secondary lock inside it. |
| LockOrder.StepKeeps | application/multi_server/src/publisher_adapter.cpp:135-161 | Every step of every thread keeps this discipline and the mutual exclusion of the locks. |
| LockOrder.WaitsDeeper | application/multi_server/src/client_adapter.cpp:596-614 | A thread that waits for a lock or a join waits only for threads that are strictly deeper in one common order of join levels and lock ranks. |
| LockOrder.NoDeadlock | application/multi_server/src/client_adapter.cpp:186-192 | In every reachable state, for any number of clients and resources, the wait-for graph of locks and joins has no cycle. |
| LockOrder.SomeoneGoesOn | application/multi_server/src/secondary_client_adapter.cpp:132-138 | From every waiting thread the graph leads, in at most eight edges, to a thread that can step or end. |
| LockOrder.ReachableGoesOn | application/multi_server/src/client_adapter_manager.cpp:59-75 | So in every reachable state each thread that has not returned can act itself, or waits, through at most eight edges, for a thread that can. |
| MessageQueue.PublisherAdapter.PushMessage | application/multi_server/src/publisher_adapter.cpp:190-200 | A message goes to the end of the list, with a notification, unless the adapter is stopped; then it is dropped. |
| MessageQueue.PublisherAdapter.PopMessage | application/multi_server/src/publisher_adapter.cpp:206-226 | One pass under the lock: sleep on an empty list, quit when stopped, else take the oldest message. |
| MessageQueue.PublisherAdapter.ReleaseRemaining | application/multi_server/src/publisher_adapter.cpp:147-157 | The stop drain releases every message left, once, in order, and empties the list. |
| PublisherLifecycle.StepConserves | application/multi_server/src/publisher_adapter.cpp:135-226 | Every action keeps two equations on sequences: arrived = taken + queued, and taken = released + the one in the consumer's hand. |
| PublisherLifecycle.StepInOrder | application/multi_server/src/publisher_adapter.cpp:172-181 | Every action keeps: what `DoMessage` has finished in a session is exactly a prefix of what arrived in it. |
| PublisherLifecycle.StepPhases | application/multi_server/src/publisher_adapter.cpp:206-217 | Every action keeps: the consumer never sleeps on a message or after a stop (no wakeup is lost), and a session accepts messages until its stop. |
| PublisherLifecycle.RunKeeps | application/multi_server/src/publisher_adapter.cpp:108-226 | These hold in every state of every interleaving of the receiving thread and the adapter's thread, over any number of sessions and with failing waits. |
| PublisherLifecycle.ReleasedOnceWhenStopped | application/multi_server/src/client_adapter.cpp:255-286 | Whenever the adapter is stopped, the messages put into its list are, in order of arrival and each once, those released and then those still in the list; nothing is still in the list if the end flag is set. While a session routes, none is refused. |
| PublisherLifecycle.ProcessedIsPrefix | application/multi_server/src/publisher_adapter.cpp:172-181 | In every reachable state the messages processed in the session are a prefix of those that arrived in it. |
| PublisherLifecycle.RefusedWhenStopped | application/multi_server/src/publisher_adapter.cpp:190-199 | A routed message is refused if and only if the adapter is stopped with its end flag set; otherwise it is put into the list, also after a restart whose thread could not be created, which leaves the flag clear. |
| PublisherLifecycle.RoutedIsReleased | application/multi_server/src/publisher_adapter.cpp:135-161 | A message routed while a session runs has been released, at its place in the order of arrival, whenever the adapter is stopped, even after further sessions; one routed while it is stopped is not released before the next start. |
| PublisherLifecycle.ReleasedExactly | application/multi_server/src/publisher_adapter.cpp:108-161 | A message is released in every continuation that ends stopped without a new start if and only if it is routed while a session is running. |
| PublisherLifecycle.RefusedIsNeverReleased | application/multi_server/src/publisher_adapter.cpp:190-199 | A message refused in a stopped adapter is not released in any later state of any run, restarts included. |
| PublisherLifecycle.LeftAfterFailedRestart | application/multi_server/src/publisher_adapter.cpp:108-128 | A run that shows it: after a session, a restart fails because no thread is created; a message routed then stays in the list, neither refused nor released, and neither thread can go on. |
| PublisherLifecycle.StopProgresses | application/multi_server/src/publisher_adapter.cpp:135-161 | Between the request to stop and the return of `StopMonitoring` the receiving or the adapter's thread can always take its next step, with no wakeup from outside, and every action decreases the measure. |
| PublisherLifecycle.FailedWaitEnds | application/multi_server/src/publisher_adapter.cpp:206-226 | After a failed wait no further message of the session is processed. |
| PublisherLifecycle.ListsBeforeStart | application/multi_server/src/publisher_adapter.cpp:190-200 | A message routed before the first start goes into the list. |
| PublisherLifecycle.StopIsBounded | application/multi_server/src/publisher_adapter.cpp:135-161 | So `StopMonitoring` returns after a bounded number of actions. |
| ResourceMap.ClientAdapter.OpenResource | application/multi_server/src/client_adapter.cpp:374-539 | One open request, including the null data, the refused open and the thread that cannot be created: map, answer and the fate of the adapter object. |
| ResourceMap.ClientAdapter.CloseAdapter | application/multi_server/src/publisher_adapter.cpp:86-102 | Closing a publisher succeeds if and only if every allocator lets go of its mapping and the core closes what is still open; it is given up whatever the core answers, and closing one that was given up succeeds without the core. |
| ResourceMap.ClientAdapter.MapAllocator | application/multi_server/src/publisher_adapter.cpp:505-527 | A message with memory of an allocator adds it to the adapter's allocators, once. |
| ResourceMap.ClientAdapter.CloseResource | application/multi_server/src/client_adapter.cpp:697-733 | One close request: not found; closed, erased and deleted; or kept and monitored again if that is still possible. |
| ResourceMap.ClientAdapter.CloseAllResource | application/multi_server/src/client_adapter.cpp:596-614 | The map is emptied, and each resource that was in it is stopped, closed and deleted, in this order, in the order of the ids. |
| ResourceMap.ClientAdapter.OnMonitoringFinished | application/multi_server/src/client_adapter.cpp:186-192 | At the end of a primary connection the secondary one is forgotten and everything is closed. |
| ResourceMap.StepKeeps | application/multi_server/src/client_adapter.cpp:417-570 | Every request keeps: the keys of the map are the live ids of the answers, exactly they have an adapter that was created and not deleted, and the events of every id are whole lives of adapters, one after the other, but for the live one. |
| ResourceMap.KeysAreLive | application/multi_server/src/client_adapter.cpp:417-570 | After every run of requests the keys are exactly the ids whose open was answered OK and whose close was not yet answered OK, and every other adapter ever created has been deleted once. |
| ResourceMap.KindsAreKept | application/multi_server/src/client_adapter.cpp:417-570 | A resource has the kind it was opened with until it is closed. |
| ResourceMap.AnswersSpelledOut | application/multi_server/src/client_adapter.cpp:255-264 | The one answer to each request, in particular not-found for a message or a close about an id that is not open. |
| ResourceMap.ExpectedExactly | application/multi_server/src/client_adapter.cpp:417-570 | The requests left out: an open for which the core hands out an id in the map, and a close of the other kind. |
| ResourceMap.FailedCloseCanBeRepeated | application/multi_server/src/client_adapter.cpp:712-725 | A failed close leaves the resource in the map; a later one can succeed, and for a publisher that was given up every later one does, whatever the core answers, but its messages are not monitored any more. |
| ResourceMap.TriplesAbout | application/multi_server/src/client_adapter.cpp:602-612 | In the events of closing everything, each id that was open has exactly stop, close, delete, and any other id nothing. |
| ResourceMap.EverythingDeleted | application/multi_server/src/client_adapter.cpp:596-614 | When the connection has ended, the events of each id are whole lives, each from the creation over the failed closes to the deletion; each resource still open has got stop, close and delete once, in this order. |
| ResourceMap.SetSecondaryAdapter | application/multi_server/src/client_adapter_manager.cpp:111-133 | The loop succeeds if and only if some client has the stream open; then exactly the first such client is changed. |
| ResourceMap.SecondaryClientAdapter.ConnectToPrimaryAdapter | application/multi_server/src/secondary_client_adapter.cpp:97-127 | Attaching succeeds if and only if the connection is not attached yet and the stream is open somewhere; it changes the first owner of the stream and the saved id, else nothing. |
| ResourceMap.SecondaryClientAdapter.OnMonitoringFinished | application/multi_server/src/secondary_client_adapter.cpp:132-138 | Detaching resets the first owner of the saved stream, if any, and always forgets the saved id. |
| Sha1.MixChIsCh | thirdparty/websocket/aw-sha1.h:59-65 | The form of Ch in the code equals the one of section 4.1.1 of FIPS 180-4 on all words. |
| Sha1.MixMajIsMaj | thirdparty/websocket/aw-sha1.h:72-75 | The form of Maj in the code equals the one of section 4.1.1 of FIPS 180-4 on all words. |
| Sha1.RotationsRotate | thirdparty/websocket/aw-sha1.h:49-49 | The shifted words that are or-ed are the rotations by 1, 5 and 30 places. |
| Sha1.PackSpells | thirdparty/websocket/aw-sha1.h:97-101 | Four bytes that are shifted and or-ed are the word they spell in base 256. |
| Sha1.BytesSpell | thirdparty/websocket/aw-sha1.h:121-125 | The four bytes of a word are its quotients and remainders in base 256, and packing them gives it back. |
| Sha1.AbcBegins | thirdparty/websocket/aw-sha1.h:41-65 | The values of the worked example of FIPS 180 for "abc": the initial words, the first round and the first expanded word. |
| Sha1.RingSlots | thirdparty/websocket/aw-sha1.h:63-63 | While the ring holds the last 16 words of the 80-word schedule, its four masked slots are the words t-3, t-8, t-14 and t-16 of section 6.1.2. |
| Sha1.ExpandSlot | thirdparty/websocket/aw-sha1.h:63-63 | The schedule line keeps the ring the last 16 words of the schedule and leaves word t in its slot (section 6.1.3). |
| Sha1.Rounds0To15 | thirdparty/websocket/aw-sha1.h:59-60 | The first loop is the first 16 rounds of section 6.1.2. |
| Sha1.Rounds16To19 | thirdparty/websocket/aw-sha1.h:62-65 | The second loop continues them to round 20 over the ring. |
| Sha1.Rounds20To39 | thirdparty/websocket/aw-sha1.h:67-70 | The third loop continues them to round 40 over the ring. |
| Sha1.Rounds40To59 | thirdparty/websocket/aw-sha1.h:72-75 | The fourth loop continues them to round 60 over the ring. |
| Sha1.Rounds60To79 | thirdparty/websocket/aw-sha1.h:77-80 | The fifth loop continues them to round 80 over the ring. |
| Sha1.Sha1Mix | thirdparty/websocket/aw-sha1.h:41-90 | `sha1mix` turns the hash value into the compression of FIPS 180-4 of it with the block in the ring. |
| Sha1.HashWhole | thirdparty/websocket/aw-sha1.h:96-104 | The block loop hashes exactly the whole 64-byte blocks, read as big-endian words. |
| Sha1.LoadTail | thirdparty/websocket/aw-sha1.h:106-111 | The rest of the message and the mark bit are laid into zeroed words, byte by byte. |
| Sha1.HashLast | thirdparty/websocket/aw-sha1.h:113-119 | The tail goes through one or two compressions, with the length in the last word. |
| Sha1.StoreDigest | thirdparty/websocket/aw-sha1.h:121-125 | The loop writes each word as four bytes, most significant first: read in base 256 they are the word again. |
| Sha1.FedIsPadded | thirdparty/websocket/aw-sha1.h:106-119 | The words that are hashed are the padded message of section 5.1.1 if and only if the message is shorter than 2^29 bytes and its length mod 64 is not 56. |
| Sha1.AbcIsPadded | thirdparty/websocket/aw-sha1.h:106-119 | "abc" is fed as the padded block of that example. |
| Sha1.FiftySixZeros | thirdparty/websocket/aw-sha1.h:113-119 | The padding first fails for messages of 56 bytes, such as 56 zeros: shorter ones are padded right. |
| Sha1.Sha1 | thirdparty/websocket/aw-sha1.h:92-126 | For every such message `sha1` returns the digest of FIPS 180-4; for every other one, the hash of the words that are fed. From the initial words 67452301 to c3d2e1f0 on, its 20 bytes are the five words in base 256, most significant byte first. |
| Rfc4648.DecodeEncode | thirdparty/websocket/aw-base64.h:42-63 | A reference decoder of section 4 of RFC 4648 recovers every byte string from its encoding. |
| Rfc4648.Vectors | thirdparty/websocket/aw-base64.h:50-59 | The encodings of "f", "fo" and "foo" in section 10 of RFC 4648. |
| Base64.LetterIsCharacter | thirdparty/websocket/aw-base64.h:39-39 | The table of 64 letters is Table 1 of RFC 4648. |
| Base64.TurnIsGroup | thirdparty/websocket/aw-base64.h:50-59 | One turn of the loop, less than 2^31 + 2 bytes before the end, writes the group of RFC 4648 for its one, two or three bytes, padding included. |
| Base64.WrongAbove | thirdparty/websocket/aw-base64.h:56-59 | For every length from 2^31 + 2 on there is an input that is encoded differently. |
| Base64.RefinesRfc4648 | thirdparty/websocket/aw-base64.h:42-63 | All inputs of length n are encoded as RFC 4648 says if and only if n < 2^31 + 2. |
| Base64.WriteTurn | thirdparty/websocket/aw-base64.h:49-59 | The loop body writes its four characters and nothing else, and steps by three. |
| Base64.Base64 | thirdparty/websocket/aw-base64.h:38-63 | Exactly `base64len(n)` characters are written, equal to RFC 4648 below the bound, and the rest of the buffer is kept; nothing is written when they do not fit. |
| WebSocketFrame.FrameLength | thirdparty/websocket/websocket.c:253-280 | For every frame, whatever follows its header, the length that is read is that of the payload, in the right number of bytes; but in the 64-bit form a sign bit in the fourth byte is refused, and only the low 32 bits are read, as a signed number. |
| WebSocketFrame.RefusedExactly | thirdparty/websocket/websocket.c:291-325 | An error is reported if and only if two bytes are there and, as numbers: the first is below 128, has an extension bit or an opcode other than 1, 2, 8, 9 and 10, the second is below 128, or a 64-bit length has arrived whose second byte is 128 or more. |
| WebSocketFrame.AcceptedIsFrame | thirdparty/websocket/websocket.c:305-325 | Whatever is accepted begins with the encoding of a valid frame, whose opcode and payload are the ones reported; except for 64-bit lengths with bits beyond the 31 that are read. |
| WebSocketFrame.EmptyFrame | thirdparty/websocket/websocket.c:303-335 | A frame without payload is reported by its opcode. |
| WebSocketFrame.LengthWraps | thirdparty/websocket/websocket.c:313-317 | A 64-bit length that is widened to 2^64 - 1 wraps around in the sum and passes the test for an incomplete frame: an undefined outcome. |
| WebSocketFrame.UnmaskedBytes | thirdparty/websocket/websocket.c:327-330 | Byte i of an accepted payload becomes the exclusive or of it and byte i mod 4 of the key. |
| WebSocketFrame.Check | thirdparty/websocket/websocket.c:282-325 | The decision on the bytes received so far: error, incomplete, empty, or accepted with payload position, length and trailing count. |
| WebSocketFrame.Unmask | thirdparty/websocket/websocket.c:327-330 | The loop combines the payload in place with the masking key of section 5.3 of RFC 6455 and changes no other byte. |
| WebSocketFrame.ParseInputFrame | thirdparty/websocket/websocket.c:282-336 | The whole call: its outcome, the buffer afterwards, and no byte changed beyond the input. |
| Rfc6455.MaskedTwice | thirdparty/websocket/websocket.c:327-330 | Masking twice with the same key gives the data back. |
| WebSocketFrame.SingleFrame | thirdparty/websocket/websocket.c:282-333 | A masked frame with any opcode of the five, any mask, any of the three length encodings, a payload of 1 to 2^31 - 1 bytes and any trailing bytes: opcode, exact length and trailing count are reported, the payload is unmasked in place, header and trailing bytes are kept. |
| WebSocketFrame.LongRefused | thirdparty/websocket/websocket.c:270-277 | No frame with a payload of 2^31 bytes or more is accepted with its length. |
| WebSocketFrame.RecoversExactly | thirdparty/websocket/websocket.c:253-333 | A frame is recovered if and only if its payload is shorter than 2^31 bytes. |
| WebSocketFrame.PrefixIncomplete | thirdparty/websocket/websocket.c:291-316 | Every strict prefix of such a frame is reported incomplete with no byte changed, so retrying is safe. |
| WebSocketFrame.StreamRecovered | thirdparty/websocket/websocket.c:282-336 | Any sequence of such frames, laid end to end and delivered in any chunks, is recovered as the same opcodes and payloads by calling the parser again and stepping over what it consumed. |
| Handshake.GetUptoLinefeed | thirdparty/websocket/websocket.c:54-69 | The copied value is the text up to the next line end, its length kept in one byte. |
| Handshake.CutIsWhole | thirdparty/websocket/websocket.c:57-67 | A value is copied whole if and only if it is shorter than 256 characters. |
| Handshake.NameIs | thirdparty/websocket/websocket.c:115-161 | The chain of comparisons gives a name if and only if the line starts with it, so the order of the comparisons is immaterial. |
| Handshake.LinesSpelledOut | thirdparty/websocket/websocket.c:115-161 | What a line of each of the seven names does, with the names and the values they are tested for spelled out. |
| Handshake.OtherLines | thirdparty/websocket/websocket.c:115-161 | A line that starts with none of the seven names does nothing. |
| Handshake.HandshakeData.ScanField | thirdparty/websocket/websocket.c:115-161 | One turn of the loop has the effect of one header line on the fields and flags and stays in that line. |
| Handshake.HandshakeData.ParseHandshake | thirdparty/websocket/websocket.c:71-180 | The whole call: incomplete, error or opening frame, with the fields that were stored, or undefined when the resource is written behind its allocation. |
| Handshake.AnswerExactly | thirdparty/websocket/websocket.c:80-86 | A request is incomplete if and only if two line ends in a row are missing, and refused when it does not start with `GET`. |
| Handshake.LineFeedEnds | thirdparty/websocket/websocket.c:114-114 | The loop also ends where the second character of a line is a line feed. |
| Handshake.ResourceFitsExactly | thirdparty/websocket/websocket.c:87-103 | The resource fits what is allocated for it if and only if no blank stands in the white space before it, or enough other white space does; when `GET ` is followed by a blank or a token: if and only if it is not followed by a blank. |
| Handshake.ScanCompletes | thirdparty/websocket/websocket.c:114-168 | Once the blank line has arrived, the scanning loop always reaches it. |
| Handshake.ScanIsFold | thirdparty/websocket/websocket.c:114-168 | The loop visits every header line exactly once, in order, and stops at the blank line. |
| Handshake.RequestRead | thirdparty/websocket/websocket.c:71-180 | A well-formed request is complete, its resource is read and its lines are taken one by one; the answer is the opening frame if and only if its lines, as a collection, ask for it, else the error frame. |
| Handshake.AskGranted | thirdparty/websocket/websocket.c:71-180 | The opening request of section 1.2 of RFC 6455 is granted, for any resource, host and key. |
| Handshake.Verdict | thirdparty/websocket/websocket.c:170-179 | The verdict of the loop holds if and only if the lines contain a host, a key, an upgrade and a connection header that ask for it, and neither a subprotocol nor another version. |
| Handshake.VerdictOrderIndependent | thirdparty/websocket/websocket.c:114-179 | Permuting the header lines does not change the verdict. |
| Handshake.PermutedRequests | thirdparty/websocket/websocket.c:71-180 | Two requests whose header lines are permutations of each other get the same answer. |
| Handshake.FieldsOrderIndependent | thirdparty/websocket/websocket.c:114-161 | Nor does it change the host and the key when the request says each only once. |
| HandshakeAnswer.AcceptIsRfc | thirdparty/websocket/websocket.c:189-199 | For every key shorter than 2^28 bytes whose length mod 64 is not 20, the accept value is the one of section 4.2.2 of RFC 6455. |
| HandshakeAnswer.FedExactly | thirdparty/websocket/aw-sha1.h:113-119 | For such lengths the hashed blocks are the padded key and GUID if and only if the length mod 64 is not 20. |
| HandshakeAnswer.ResponseSpelledOut | thirdparty/websocket/websocket.c:201-211 | The response is, spelled out, the one of section 4.2.2 of RFC 6455 for those keys. |
| HandshakeAnswer.KeptLengthIsLength | thirdparty/websocket/websocket.c:190-194 | The one-byte length is that of key and GUID, and what is allocated is enough for them, if and only if the key has at most 219 bytes. |
| HandshakeAnswer.LoadKey | thirdparty/websocket/websocket.c:189-194 | The key and the GUID are copied into one buffer; longer keys than 219 bytes are written behind it, an undefined outcome. |
| HandshakeAnswer.MakeAccept | thirdparty/websocket/websocket.c:195-199 | Although the key buffer is reused for the base64 text, the C string left in it is the accept value, for every key of at most 219 bytes; undefined for longer ones. |
| HandshakeAnswer.GetHandshakeAnswer | thirdparty/websocket/websocket.c:182-219 | The whole response is written and its length reported; in a buffer that is too small it is cut and ended by a zero; undefined for keys of more than 219 bytes. |
| SsdpPacket.TrimSpaces | thirdparty/lssdp/lssdp.cpp:1230-1244 | The two loops find exactly the part between the outer characters that are blank or not printable. |
| SsdpPacket.TrimExactly | thirdparty/lssdp/lssdp.cpp:1230-1244 | What is taken off are exactly the characters with codes up to 32 or from 127 on at both ends. |
| SsdpPacket.LineExactly | thirdparty/lssdp/lssdp.cpp:1107-1146 | The text before the first colon of a line, trimmed and in lower case, names the field, the rest, trimmed, is its value; nothing happens when either is empty. |
| SsdpPacket.NoName | thirdparty/lssdp/lssdp.cpp:1107-1146 | A line that starts with a colon or has none does nothing. |
| SsdpPacket.NamesSpelledOut | thirdparty/lssdp/lssdp.cpp:1147-1217 | Each of the nine names, in either case, sets its own field up to its own size; st has two names. |
| SsdpPacket.OtherNames | thirdparty/lssdp/lssdp.cpp:1147-1217 | Any other name sets nothing. |
| SsdpPacket.StoreExactly | thirdparty/lssdp/lssdp.cpp:1147-1217 | A field takes the value as far as it fits, and shows what a longer old text has behind it. |
| SsdpPacket.KindExactly | thirdparty/lssdp/lssdp.cpp:1068-1086 | The kind is the one whose first line, spelled out, the packet starts with and is longer than. |
| SsdpPacket.LineEndsExactly | thirdparty/lssdp/lssdp.cpp:1090-1095 | A line ends at a line feed behind a carriage return with something before it, and nowhere else. |
| SsdpPacket.GetColonIndex | thirdparty/lssdp/lssdp.cpp:1220-1228 | The first colon of the range, or none. |
| SsdpPacket.LssdpPacket.ParseFieldLine | thirdparty/lssdp/lssdp.cpp:1107-1218 | One line stores its trimmed value, cut to the array, in the field its lower-cased name belongs to, or changes nothing. |
| SsdpPacket.LssdpPacket.Parse | thirdparty/lssdp/lssdp.cpp:1050-1105 | The whole parser: the kind of packet, and the fields of all of its lines. |
| SsdpPacket.NeverCut | thirdparty/lssdp/lssdp.cpp:710-732 | Within the array sizes neither packet is ever cut at 2048 bytes. |
| SsdpPacket.LinesSpelledOut | thirdparty/lssdp/lssdp.cpp:710-732 | The six lines of both packets as the format strings spell them. |
| SsdpPacket.TextsSpelledOut | thirdparty/lssdp/lssdp.cpp:710-732 | Both packets around these lines, with the multicast address and port in the NOTIFY. |
| SsdpPacket.ScanIsFold | thirdparty/lssdp/lssdp.cpp:1088-1095 | The index loop takes every line exactly once, in order. |
| SsdpPacket.PrintedLine | thirdparty/lssdp/lssdp.cpp:1107-1218 | A printed line gives its trimmed value to the field of its name, and nothing when nothing is left of it. |
| SsdpPacket.ResponseRoundTrip | thirdparty/lssdp/lssdp.cpp:998-1019 | A printed RESPONSE, parsed, gives back every header value as trimming and the array sizes leave it, and no other field. |
| SsdpPacket.NotifyRoundTrip | thirdparty/lssdp/lssdp.cpp:710-732 | The same for a printed NOTIFY. |
| SsdpPacket.CleanReadBack | thirdparty/lssdp/lssdp.cpp:1230-1244 | For values that are empty or printable with no outer blanks, location, search target and connection come back exactly, the addresses cut to 127 bytes, all other fields empty. |
| SsdpPacket.CleanRoundTrip | thirdparty/lssdp/lssdp.cpp:1050-1105 | A RESPONSE or NOTIFY printed from such values and parsed gives exactly these fields. |
| SsdpPacket.ReadBackExactly | thirdparty/lssdp/lssdp.cpp:1107-1244 | The headers come back unchanged if and only if trimming leaves them alone and both addresses are shorter than their array. |
| NeighborList.Neighbor.Overwrite | thirdparty/lssdp/lssdp.cpp:1279-1333 | The matching node takes over every field of the packet, and the change flag is set if and only if one other than the time differs. |
| NeighborList.SsdpContext.Add | thirdparty/lssdp/lssdp.cpp:1265-1383 | The linked list stays intact and its contents become those of the ordered map with the packet put in; a missing allocation changes nothing and is reported. |
| NeighborList.SsdpContext.UpdateAt | thirdparty/lssdp/lssdp.cpp:1277-1340 | The update in place keeps the order of the list, and the callback runs if and only if the change can be seen. |
| NeighborList.SsdpContext.Append | thirdparty/lssdp/lssdp.cpp:1343-1382 | A new neighbour comes last, in a fresh node. |
| NeighborList.SsdpContext.RemoveAt | thirdparty/lssdp/lssdp.cpp:782-791 | Unlinking one node, first or not, keeps the rest of the list as it was. |
| NeighborList.SsdpContext.RemoveExpired | thirdparty/lssdp/lssdp.cpp:766-791 | The loop leaves exactly the entries with (now - time) mod 2^64 below the timeout, in their order, and tells whether any was removed. |
| NeighborList.UnexpiredExactly | thirdparty/lssdp/lssdp.cpp:770-775 | The same for the loop alone, in differences of 64-bit times. |
| NeighborList.SsdpContext.CheckTimeout | thirdparty/lssdp/lssdp.cpp:745-798 | The whole check: with a timeout or clock of 0 the list is left alone; otherwise an entry stays if and only if the time since it was heard, forwards or over the wrap of the 64-bit clock, is below the timeout. |
| NeighborList.SsdpContext.RemoveAll | thirdparty/lssdp/lssdp.cpp:1385-1400 | The list is emptied, with a callback if and only if it was not empty. |
| NeighborList.SsdpContext.NotifyIf | thirdparty/lssdp/lssdp.cpp:793-797 | An observer that copies the list in each callback agrees with the list, except for the times, after every operation. |
| NeighborList.ToldExactly | thirdparty/lssdp/lssdp.cpp:793-797 | One callback if and only if the length or one of the seven texts of some entry has changed. |
| NeighborList.AfterKeepsDistinct | thirdparty/lssdp/lssdp.cpp:1265-1383 | Every operation keeps the locations pairwise distinct. |
| NeighborList.RunListsPresent | thirdparty/lssdp/lssdp.cpp:745-798 | After every run of packets, checks and removals the list holds exactly the neighbours that each location's own history says are present. |
| NeighborList.RunIsOrderedMap | thirdparty/lssdp/lssdp.cpp:1265-1408 | Over every run the list is an insertion-ordered map: no location twice, a location is listed if and only if it was heard and neither expired nor removed since, with its last packet, older arrivals first. |
| StructureCodec.FitsEncodes | python/senscord/serialize.py:130-159 | A value that fits its schema is encoded without an exception, to something MessagePack can pack, its 64-bit integers and 32-bit lengths included. |
| StructureCodec.IntegersThatFit | python/senscord/serialize.py:130-159 | An integer or an enumeration fits a schema that asks for no structure or container if and only if its number is at least -2^63 and below 2^64. |
| StructureCodec.LengthsThatFit | python/senscord/serialize.py:130-159 | Texts and bytes fit if and only if they have at most 2^32 - 1 bytes. |
| StructureCodec.ListsThatFit | python/senscord/serialize.py:140-143 | A list fits if and only if it has at most 2^32 - 1 elements. |
| StructureCodec.OnlyDataPacks | python/senscord/serialize.py:154-159 | Enumerations and structures are nothing MessagePack can pack; encoding has to replace them. |
| StructureCodec.KeysThatDecode | python/senscord/serialize.py:194-202 | A dict is decoded if and only if the schema of its keys names no class that decoding rebuilds. |
| StructureCodec.OutOfRangeDoesNotFit | python/senscord/serialize.py:69-72 | A structure with any other number among its values does not fit, and what it is encoded to cannot be packed. |
| StructureCodec.EncodeTwice | python/senscord/serialize.py:130-159 | Encoding what was encoded, with the same schema, changes nothing. |
| StructureCodec.EncodeLeft | python/senscord/serialize.py:140-143 | Encoding overwrites lists in place, yet encoding what it leaves behind gives the same result. |
| StructureCodec.FalseStays | python/senscord/serialize.py:165-178 | A member that counts as false is not decoded, and is encoded again to the same bytes. |
| StructureCodec.MemberRoundTrip | python/senscord/serialize.py:165-178 | Every member is found under its name as bytes, and what it is decoded to has the same bytes. |
| StructureCodec.RoundTrip | python/senscord/serialize.py:113-210 | Decoding the bytes of a value that fits raises no exception, and encoding the result gives the same bytes, for nested structures, lists, dicts and enumerations, for all numbers and lengths MessagePack can hold. |
| StructureCodec.StructureRoundTrip | python/senscord/serialize.py:69-72 | A structure read from its own bytes is equal to it, and so is the structure itself after its lists were overwritten. |
| StructureCodec.DecodesToItself | python/senscord/serialize.py:180-210 | A value whose kinds the wire and the schema tell apart (no text, no enumeration, nothing empty that decoding would retype) is decoded to itself. |
| StructureCodec.BareListTuple | python/senscord/serialize.py:140-143 | A schema `(list,)` raises for every list that is not empty. |
| StructureCodec.EncodeElements | python/senscord/serialize.py:142-143 | The loop over a list overwrites every element with its encoding; so what is left of the list is what it is encoded to. |
| StructureCodec.DecodeElements | python/senscord/serialize.py:189-193 | The loop of decoding overwrites every element with what it is decoded to. |
| StructureCodec.SchemasSpelledOut | python/senscord/serialize.py:130-153 | The element of a list schema, and key and value of a dict schema written in either of its two ways. |
| StructureCodec.MembersEncoded | python/senscord/serialize.py:117-128 | Each member is encoded under its own name as text. |
| StructureCodec.MembersDecoded | python/senscord/serialize.py:165-178 | A member whose name is missing becomes None, one that counts as false stays as it is, any other is decoded; the name as text is tried before the name as bytes. |
| StructureCodec.FalseExactly | python/senscord/serialize.py:169-176 | What counts as false: None, false, zero and whatever is empty. |
| StructureCodec.PlainValues | python/senscord/serialize.py:130-210 | Without a schema a value is encoded and decoded as it is, but for enumerations; a schema of byte arrays makes bytes one. |
| StructureCodec.ToDict | python/senscord/serialize.py:117-128 | The loop fills the dict with one entry for each field, in order. |
| ConfigManager.ConfigManager.ParseConfig | application/multi_server/src/config_manager.cpp:345-382 | The nested pull loops compute the outcome of one state machine over the events, in status and configuration. |
| ConfigManager.ConfigManager.ParseServer | application/multi_server/src/config_manager.cpp:388-421 | The same for the server element, up to its closing tag. |
| ConfigManager.ConfigManager.ParseStreams | application/multi_server/src/config_manager.cpp:449-480 | The same for the streams element. |
| ConfigManager.ConfigManager.ParseStream | application/multi_server/src/config_manager.cpp:508-537 | The same for a stream element, which needs a key and is stored at its closing tag. |
| ConfigManager.ConfigManager.StoreStream | application/multi_server/src/config_manager.cpp:522-534 | The search loop overwrites the first stream with this key or appends. |
| ConfigManager.ConfigManager.ParseStreamChildNode | application/multi_server/src/config_manager.cpp:544-574 | The same for the frames of a stream. |
| ConfigManager.ConfigManager.ParseFrame | application/multi_server/src/config_manager.cpp:615-630 | A frame sets the entry of its connection if a listener has it, or the entry for all others if it names none. |
| ConfigManager.ConfigManager.ContainsListener | application/multi_server/src/config_manager.cpp:599-609 | The search loop finds whether a listener has this connection. |
| ConfigManager.ConfigManager.ParseDefaults | application/multi_server/src/config_manager.cpp:713-744 | The same for the defaults element. |
| ConfigManager.ConfigManager.ParseListeners | application/multi_server/src/config_manager.cpp:762-793 | The same for the listeners element, with its failing listeners. |
| ConfigManager.ConfigManager.ParseListener | application/multi_server/src/config_manager.cpp:818-842 | A listener succeeds if and only if it has a connection and exactly one of `address` and `addressPrimary`. |
| ConfigManager.FailsExactly | application/multi_server/src/config_manager.cpp:818-883 | Reading fails at a listener without a connection or with neither or both of the two address attributes, at a stream without a key, and nowhere else; any other listener is stored with the attributes it has. |
| ConfigManager.FailureIsFinal | application/multi_server/src/config_manager.cpp:345-382 | A document in which that happens anywhere is refused, with what was read before it. |
| ConfigManager.BufferingExactly | application/multi_server/src/config_manager.cpp:638-707 | Buffering is off only for "off", the number is the one written or 0 or -1, and the two formats have two names each. |
| ConfigManager.ServerSwitches | application/multi_server/src/config_manager.cpp:900-918 | The client switch follows "on" and "off" and stays as it is for anything else. |
| ConfigManager.StartsEmpty | application/multi_server/src/config_manager.cpp:319-327 | What is there before anything is read, and that reading nothing is no success. |
| ConfigManager.Num | application/multi_server/src/config_manager.cpp:51-80 | The number is -1 if and only if the attribute is a negative number in the range of 32 bits; otherwise it is the one written there, or 0. |
| ConfigManager.DecimalsRead | application/multi_server/src/config_manager.cpp:51-80 | Decimal digits, with or without a sign, are read up to the limits of 32 bits and refused beyond. |
| ConfigManager.NumbersRead | application/multi_server/src/config_manager.cpp:51-80 | Octal and hexadecimal numbers, and texts that are refused. |
| ConfigManager.PrintedNum | application/multi_server/src/config_manager.cpp:659-682 | A number from -1 to 2^31 - 1, printed in decimal digits, is read back. |
| ConfigManager.FrameRead | application/multi_server/src/config_manager.cpp:615-707 | The attributes of a frame, its number printed as text, are read as they were written, for every buffering, number and format, and stored if and only if the frame names no connection or one of a listener. |
| ConfigManager.DocumentRead | application/multi_server/src/config_manager.cpp:345-842 | A whole document, with listeners before and after its streams, each written with either address attribute and with or without a secondary address, is read successfully to exactly what it says: client switch, listeners, streams and defaults, without the frames whose listener comes later. |
| ConfigManager.FrameStored | application/multi_server/src/config_manager.cpp:615-630 | For such a document: a frame, of a stream or of the defaults, is stored if and only if it names no connection or that of a listener before the streams; the last frame of a connection wins. |
| ConfigManager.LateListenerDropsFrame | application/multi_server/src/config_manager.cpp:615-630 | A document that shows it: its only frame is dropped because its listener stands behind the streams. |
| ConfigManager.EmptyNameDropsFrame | application/multi_server/src/config_manager.cpp:623-630 | A document that shows that an empty connection attribute is not a missing one: its frame is dropped, as no listener has the empty name. |
| ConfigManager.UnknownIsIgnored | application/multi_server/src/config_manager.cpp:345-631 | Taking an element out, wherever it stands, changes neither status nor configuration if all names in it are outside the seven known ones. |
| ConfigManager.UnknownIsTransparent | application/multi_server/src/config_manager.cpp:428-443 | A known element inside an unknown one is read as if it stood outside. |
| ConfigManager.LastDefinitionWins | application/multi_server/src/config_manager.cpp:522-534 | In what was read every stream key occurs once, with its last definition, at the place of its first one. |
| ConfigManager.ListenersAreRead | application/multi_server/src/config_manager.cpp:762-842 | In any document, the listeners known at a place are those read before it, in order. |
| ConfigManager.FrameCounts | application/multi_server/src/config_manager.cpp:615-630 | In any document, wherever a frame of a stream or of the defaults stands: until a later one for its connection, the entry stored is its own if and only if it has no connection attribute or that of a listener read before; else the entry stays as it was. |
| ConfigManager.FrameDropped | application/multi_server/src/config_manager.cpp:615-630 | In any document, a frame that does not count can be taken out: status and configuration are the same. |
| ConfigManager.SettingsHaveListeners | application/multi_server/src/config_manager.cpp:615-630 | Whatever the document says, no setting is stored for a connection without a listener. |
| ConfigManager.ConfigManager.IsBackwardMatch | application/multi_server/src/config_manager.cpp:261-270 | The search from the only place where it can fit is the test whether the text ends with the suffix. |
| ConfigManager.ConfigManager.GetStreamSetting | application/multi_server/src/config_manager.cpp:234-253 | The one loop finds the exact key wherever it stands, else the first key that ends with it. |
| ConfigManager.SettingExactly | application/multi_server/src/config_manager.cpp:234-253 | The first stream with the key, else the first whose key ends with it, else none. |
| ConfigManager.ConfigManager.GetStreamConfigByStreamKey | application/multi_server/src/config_manager.cpp:186-227 | The result is the first that exists of: the stream's entry for the connection, its entry for all others, the defaults' entry for the connection, theirs for all others. |
| ConfigManager.LookupExactly | application/multi_server/src/config_manager.cpp:186-227 | Which of the four entries is found, case by case, and the built-in one without any. |
| ConfigManager.LookupAfterReading | application/multi_server/src/config_manager.cpp:186-253 | A stream named exactly is looked up by its last definition, whatever other keys end with its name. |
| PropertyKey.PropertyUtilsParam.ParseKey | python/senscord/senscord_property_utils.py:28-59 | The parser, with its three ways to refuse a key. |
| PropertyKey.PropertyUtilsParam.ParseAppendInfo | python/senscord/senscord_property_utils.py:62-77 | The loop assigns every piece that has a tag, later ones over earlier ones. |
| PropertyKey.PropertyUtilsParam.GetFullKey | python/senscord/senscord_property_utils.py:89-107 | The loop joins tags and values with commas between the brackets. |
| PropertyKey.SetChannelIdOf | python/senscord/senscord_property_utils.py:112-134 | The whole call, with its refusals of empty keys and ids outside of 32 bits. |
| PropertyKey.PlainKeyGetsChannel | python/senscord/senscord_property_utils.py:46-134 | A key without brackets becomes the key followed by `[ch=`, the id and `]`. |
| PropertyKey.RefusedExactly | python/senscord/senscord_property_utils.py:46-134 | The result is empty if and only if the key is empty, the id is outside of 32 bits, or the key has a closing bracket without an opening one, an opening one without a closing one at the end, or an opening one in first place. |
| PropertyKey.OtherTagStays | python/senscord/senscord_property_utils.py:62-107 | A key with another tag keeps it, with the channel behind a comma. |
| PropertyKey.LostPiece | python/senscord/senscord_property_utils.py:71-77 | A piece without an equals sign is lost. |
| PropertyKey.AppendedExactly | python/senscord/senscord_property_utils.py:68-71 | The appended information is what stands between the last opening and the first closing bracket. |
| PropertyKey.ClosedBeforeOpened | python/senscord/senscord_property_utils.py:68-71 | It is empty when the first closing bracket stands before the last opening one. |
| PropertyKey.ParsePrint | python/senscord/senscord_property_utils.py:28-107 | A printed key is parsed to the same base and tags; if the base has a closing bracket, to the same base and no tags. |
| PropertyKey.ParseIsStable | python/senscord/senscord_property_utils.py:28-107 | For every key that can be parsed, parsing, printing and parsing again gives the same base and the same tags. |
| PropertyKey.SetTwice | python/senscord/senscord_property_utils.py:80-134 | For every key and all ids, setting one id and then another equals setting the second. |
| PropertyKey.SetIsReadBack | python/senscord/senscord_property_utils.py:62-107 | The id can be read back, all other tags unchanged, if and only if the base has no closing bracket. |
| TemporalContrast.TemporalContrastData.ReadTimeslice | python/senscord/_temporal_contrast_data.py:114-142 | A timeslice is read if and only if its header and all of its events lie inside the buffer. |
| TemporalContrast.TemporalContrastData.FromBytes | python/senscord/_temporal_contrast_data.py:181-206 | The loop reads all slices or stores nothing. |
| TemporalContrast.EventArray.Next | python/senscord/_temporal_contrast_data.py:77-88 | Iteration gives the events in order, each read inside the buffer, then stops. |
| TemporalContrast.EventArray.GetItem | python/senscord/_temporal_contrast_data.py:103-107 | An index gives its event if and only if it is in range. |
| TemporalContrast.EventSpelledOut | python/senscord/_temporal_contrast_data.py:40-47 | The four numbers of an event by their bytes, least significant first, the polarity with its sign. |
| TemporalContrast.SliceSpelledOut | python/senscord/_temporal_contrast_data.py:125-142 | Where a timeslice has its timestamp and event count, and its size. |
| TemporalContrast.SucceedsExactly | python/senscord/_temporal_contrast_data.py:191-206 | Reading succeeds if and only if as many slices as the header says, each of 24 + 6 * events bytes, lie one behind the other from offset 16 inside the buffer. |
| TemporalContrast.RoundTrip | python/senscord/_temporal_contrast_data.py:124-206 | A buffer written in this layout is read back as the same slices, whatever the unread bytes of each of its headers and the bytes after the last slice. |

## Left out

- Sha1.FedIsPadded: the "only if" is about the blocks that are hashed; that a differently padded message also has a different digest would need the absence of collisions.
- HandshakeAnswer.FedExactly: likewise for the accept value of keys with a length of 20 mod 64.
- HandshakeAnswer.GetHandshakeAnswer: the source's assertion after a cut response.
- WebSocketFrame.StreamRecovered: frames with an empty payload, for which the parser neither checks the mask bytes nor reports trailing data; and `ws_connection.cpp`, which drops the rest of its buffer after some frames.
- Handshake.HandshakeData.ParseHandshake: requests with a zero byte, and bytes behind the received length.
- SsdpPacket.LssdpPacket.Parse: the copy of the method's text into the packet, which rests on `OSMemcpy`.
- NeighborList.SsdpContext.Add: the freed memory itself; a node that is freed is only no longer in the list.
- StructureCodec.EncodeLeft: works on values, so two attributes that share one list are treated as two lists; a class over the Python heap would add only the sharing.
- StructureCodec.RoundTrip: dict keys other than integers, enumerations, text and bytes; dict keys whose schema names a list, a dict or a structure, of which the source decodes only empty ones; structures whose class differs from the one in the schema; the limit on the nesting of what MessagePack packs and unpacks.
- PropertyKey.SetChannelIdOf: keys that are not valid UTF-8, and ids that are not integers.
- ConfigManager.ConfigManager.ParseConfig: the XML reader; the XML attributes arrive as texts; and reading a second file, before which `ClearConfig` keeps the connection-specific defaults.
- ResourceMap.KeysAreLive: assumes that the core hands out ids that are not in the map and that a close message names a resource of its own kind, as the code does.
- ClientLifecycle.HeldCanEnd: that a wait for data or a message being handled returns, so that the receive loop tests its end flag; leaving the loop is one step.
- ClientLifecycle.OneOwner: a client whose `Start` fails after `Register`, or that is registered after the end flag is set.
- ResourceMap.SecondaryClientAdapter.OnMonitoringFinished: the lifetime of a secondary connection whose stream was closed before it detaches.
- LockOrder.NoDeadlock: condition waits are a release followed by an acquire; that they are woken is proved in `ClientLifecycle` and `PublisherLifecycle`. The threads of stream adapters are taken to use their own locks one at a time, like publisher adapters.
- Stream adapters, `Core`, `Publisher`, allocators: only their answers.
- Sockets, network interfaces, sending, logging, argument parsing, the C# library (a twin of the Python property keys), the native bindings, property records and enumeration tables.
