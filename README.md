# nymcat room coordinator — a verified Dafny model

This project models the room coordinator of nymcat, a chat room that runs over
the Nym mixnet. The coordinator exists in two variants over the same message
types:

- **Mixnet room** (`simple.dfy`, module `Simple`). It keeps a registry of
  participants keyed by username. Each entry holds the participant's mixnet
  reply handle (sender tag) and its last-active time. The room also keeps a
  history of at most 100 items, a message counter and a broadcast counter.
  Inbound messages are dispatched by kind:
  - Join registers the sender, replies with a StateSync and tells the others.
  - Leave unregisters and tells the rest.
  - Text refreshes the sender, is recorded in the history and is relayed to everyone but its author.
  - StateSync is ignored.

  A prune task evicts participants idle for 300 seconds or more and sends a
  Leave for each of them to every remaining participant. Deliveries go through
  a bounded FIFO channel of capacity 1000. A single worker skips items older
  than 30 seconds and counts every send it attempts.
- **TCP-proxy room** (`room_server.dfy`, module `RoomServer`). Usernames map
  to connection ids, and every connection has an outbound channel. Broadcasts
  go to every connection, the sender's included. The clean-up of a closed
  connection removes every username bound to it and sends a Leave for each.
- **Shared pieces.** Messages and the log filter (`common.dfy`, module
  `Common`). The bounded history both rooms use (`history.dfy`, module
  `History`). Unordered listings of a hash map's keys (`enumeration.dfy`,
  module `Enumeration`). Concrete runs of the mixnet room that follow from the
  contracts alone (`scenarios.dfy`, module `Scenarios`).

Modelling conventions:

- Each task body, such as one dispatch or one prune tick, is a single atomic step under the room's mutex.
- Times are whole seconds, passed in as `now`.
- A serialized payload is modelled by the message it encodes.
- The mixnet room's dispatch returns the deliveries its spawned send tasks would queue. Spawn order is not fixed, so these deliveries are specified as a multiset.
- A proxy connection's channel is the sequence of messages pushed into it.

Behaviour of the code the model keeps:

- A producer that finds the delivery channel full waits for room (`send(..).await`); no send is refused. So `Enqueue` requires room, and the queue invariant keeps at most 1000 items.
- No task republishes a StateSync periodically. The mixnet room runs only a 60-second prune task and a 300-second statistics task.
- A participant's last-active time is set on Join and refreshed only by Text, and only if the author is already registered.
- The proxy room broadcasts Join, Leave and Text to every connection, the sender's included.

## Model

| member | source | states |
|---|---|---|
| Common.Log | src/common.rs:38-47 | a line is printed exactly when the level's discriminant is at most the current level's, and the printed line ends with the message |
| Common.LogLines | src/common.rs:41-43 | a printed line is exactly "[INFO] ", "[DEBUG] " or "[TRACE] " followed by the message |
| Common.DiscriminantInjective | src/common.rs:30-36 | distinct levels have distinct discriminants, so declaration order is a strict order |
| Common.SilentAtNone | src/common.rs:31-39 | at verbosity None no Info, Debug or Trace line is printed |
| Common.LogMonotone | src/common.rs:39 | a line printed at some verbosity is printed, unchanged, at every higher verbosity |
| Common.LogLevelsPrinted | src/common.rs:39-43 | at Trace every level prints; at Info only Info prints |
| Common.NonePassesEveryFilter | src/common.rs:39-44 | level None passes the level test for every verbosity, so logging at None always reaches the unreachable arm (hence Log requires level != None) |
| Common.PrefixIdentifiesLevel | src/common.rs:41-43 | the "[INFO] ", "[DEBUG] ", "[TRACE] " prefixes make the printed line determine its level |
| History.Appended | src/simple.rs:70-75 | appending to a history within capacity yields the last 100 items of old history plus the item; the result stays within 100 and ends with the item |
| History.AppendedAllKeepsLast | src/simple.rs:70-75 | any number of appends to a history within capacity leaves exactly the last 100 items of everything, in insertion order |
| History.FullAfterManyAppends | src/room_server.rs:35-40 | after at least 100 appends the history has exactly 100 items, the last 100 appended, whatever it held before |
| Enumeration.Keys | src/room_server.rs:182 | the collected keys list every key of the map exactly once |
| Enumeration.EnumerationLength | src/simple.rs:299 | a duplicate-free listing of the registry has exactly one entry per participant |
| Simple.IsActive | src/simple.rs:84-87 | a participant stays active exactly while now is less than its last activity plus 300 s, which keeps a last activity later than now |
| Simple.Recipients | src/simple.rs:440-446 | the recipients are registered usernames; when every key is its participant's username they are all usernames except the skipped one |
| Simple.SweepExact | src/simple.rs:83-94 | a participant is pruned exactly when now - last_active >= 300 (300 itself pruned); one active after now is kept; a kept entry is unchanged |
| Simple.SweepPartitions | src/simple.rs:77-97 | survivors and pruned usernames are disjoint and together make up the registry |
| Simple.SweepBoundary | src/simple.rs:84-85 | 299 idle seconds are kept, 300 are pruned |
| Simple.FanoutCount | src/simple.rs:440-446 | a broadcast carries only the given message and priority, and each sender tag gets as many copies as usernames registered under it |
| Simple.FanoutSize | src/simple.rs:456-471 | a broadcast queues exactly one delivery per recipient username |
| Simple.FanoutMembers | src/simple.rs:440-470 | every recipient username's tag gets the message, and nothing else is queued |
| Simple.BroadcastSkipsSender | src/simple.rs:440-446 | every participant other than the skipped username is reached; with distinct tags the skipped participant's own tag never is |
| Simple.LeaveFanoutSize | src/simple.rs:144-167 | the prune task queues |pruned| x |remaining| Leaves |
| Simple.LeaveFanoutReachesAll | src/simple.rs:149-166 | for each pruned username every remaining participant's tag gets a High-priority Leave naming it |
| Simple.LeaveFanoutOnlyLeaves | src/simple.rs:144-166 | the prune task queues nothing but High-priority Leaves for pruned usernames |
| Simple.RoomState.constructor | src/simple.rs:60-68 | a new room has no participants, empty history, zero counters and the given start time |
| Simple.RoomState.AddHistoryItem | src/simple.rs:70-75 | the history becomes Appended(old history, item) and stays within 100 |
| Simple.RoomState.PruneInactiveParticipants | src/simple.rs:77-97 | the registry becomes exactly the survivors, and the returned list names each pruned username once |
| Simple.RoomState.Usernames | src/simple.rs:295-301 | the StateSync participant list names every registered username exactly once |
| Simple.RoomState.QueueEach | src/simple.rs:456-471 | the queued deliveries are, as a multiset, one per given username at its sender tag |
| Simple.RoomState.BroadcastToParticipants | src/simple.rs:431-472 | the deliveries are, as a multiset, one per participant whose username differs from skip, with the given priority; none when there is no such participant |
| Simple.RoomState.OnJoin | src/simple.rs:277-334 | the joiner's entry is set (a re-join overwrites), the counter goes up by 1, a Medium StateSync with the history and all usernames goes to the joiner, and a High Join goes to every other username |
| Simple.RoomState.OnLeave | src/simple.rs:335-357 | the username is removed (a no-op if absent), the counter goes up by 1, and a High Leave goes to every remaining username other than the leaver |
| Simple.RoomState.OnText | src/simple.rs:358-393 | last_active is refreshed only for a registered author and nothing is inserted, the item is appended, the counter goes up by 1, and a Low Text goes to every username but the author |
| Simple.RoomState.OnMessage | src/simple.rs:255-398 | unparsed input, a missing sender tag or an inbound StateSync changes nothing and queues nothing; each other kind behaves as its arm |
| Simple.RoomState.PruneTick | src/simple.rs:134-168 | the sweep result, and as a multiset one High Leave per pruned username for every remaining participant |
| Simple.Elapsed | src/simple.rs:185 | the age of a queued message is now minus its stamp, and zero when the stamp lies after now |
| Simple.Stale | src/simple.rs:185 | a queued message is skipped exactly when more than 30 s have passed since its stamp |
| Simple.SentIsFreshInOrder | src/simple.rs:183-209 | the worker sends exactly the items not older than 30 s when dequeued, in queue order |
| Simple.SentIgnoresPriority | src/simple.rs:183-209 | items that differ only in priority are sent from the same positions: the queue is FIFO regardless of priority |
| Simple.DeliveryQueue.constructor | src/simple.rs:112 | a new channel is empty |
| Simple.DeliveryQueue.Enqueue | src/simple.rs:461-467 | a send with room appends the delivery stamped with the enqueue time, keeping at most 1000 items |
| Simple.DeliveryQueue.Step | src/simple.rs:183-205 | the head is removed; a stale head is skipped and not counted; any other head is sent and broadcast_count goes up by 1 |
| Simple.DeliveryQueue.Run | src/simple.rs:183-209 | after n dequeues the queue has lost its first n items, the sent items are Sent(first n, times), and broadcast_count grew by their number |
| RoomServer.BroadcastReach | src/room_server.rs:256-270 | a broadcast adds one copy of the message to exactly the connections other than exclude, and leaves exclude unchanged |
| RoomServer.UnboundExact | src/room_server.rs:133-141 | closing a connection unbinds exactly the usernames bound to it and keeps every other binding |
| RoomServer.ChannelsGrow | src/room_server.rs:140-150 | a Leave broadcast that excludes the already-removed connection reaches every remaining connection |
| RoomServer.RoomState.constructor | src/room_server.rs:27-33 | a new room has no participants, no history and no connections |
| RoomServer.RoomState.AddHistoryItem | src/room_server.rs:35-40 | push then remove(0) when over 100 is Appended(old history, item) |
| RoomServer.RoomState.Broadcast | src/room_server.rs:256-270 | every connection other than exclude gets one copy at the back of its channel; none is added or removed |
| RoomServer.RoomState.Register | src/room_server.rs:97-107 | a new connection's empty channel is registered under its id |
| RoomServer.RoomState.ParticipantNames | src/room_server.rs:180-183 | the StateSync participant list names every registered username exactly once |
| RoomServer.RoomState.HandleMessage | src/room_server.rs:161-234 | Join binds the username to this connection, broadcasts Join to all connections, then the joiner's channel receives the StateSync after its Join; Leave removes the username and broadcasts to all; Text appends to history and broadcasts to all with participants unchanged; StateSync or unparsed input changes nothing |
| RoomServer.RoomState.UsernamesOn | src/room_server.rs:134-138 | lists exactly the usernames bound to the connection, each once |
| RoomServer.RoomState.Close | src/room_server.rs:129-151 | the connection's channel is dropped, exactly the usernames bound to it are removed, others are untouched, and every remaining channel receives one Leave per removed username |
| Scenarios.FirstJoin | src/simple.rs:283-333 | a Join into an empty room yields exactly one delivery: a Medium StateSync with empty history and participants ["alice"] to the joiner |
| Scenarios.Rejoin | src/simple.rs:283-292 | two Joins under one username leave exactly one entry, holding the newer tag, and count two messages |
| Scenarios.TextSkipsAuthor | src/simple.rs:358-393 | with alice and bob registered, alice's Text is stored and relayed to bob only, at Low priority |
| Scenarios.SweepEvictsIdle | src/simple.rs:134-168 | alice idle 301 s is pruned alone, and exactly one High Leave("alice") is queued, to bob |

## Left out

- Transport I/O is not modelled. This covers the Nym mixnet client, `send_reply`, the proxy server, TCP sockets and framed codecs. A send is a delivery returned by the mixnet dispatch, or a message appended to a proxy connection's channel.
- tokio scheduling is not modelled. This covers `spawn`, `interval` ticks, the worker's 5 ms pause and the mutexes. Each task body is one atomic step, and the tick times are parameters.
- Parsing is an input of type `Option<ChatMessage>`. Serialization is assumed always to succeed, so the `if let Ok(..)` guards around `to_vec` are not modelled.
- Clocks and ids are parameters. `SystemTime`, `Instant` and uuid generation become whole seconds and given connection ids. Comparisons finer than a second (under 300 s, over 30 s) are therefore made on whole seconds.
- `message_count` and `broadcast_count` are unbounded naturals. The wrap-around of `usize` is not modelled; it is out of reach in practice.
- The statistics task, the final statistics, the banners, the colours and console printing are presentation only. The log calls inside the handlers are modelled only through `Common.Log`.
- `run_chat_client`, `get_username_color`, src/chat_client.rs and src/main.rs are client-side I/O and CLI glue. They are not part of this model.
- Simple.RoomState.PruneTick: states its Leaves as a multiset. The source queues them grouped by pruned username, in the registry's iteration order.
- Simple.RoomState.PruneTick: reads the remaining participants once, right after the sweep. The source re-reads them under a fresh lock for each pruned username, so a concurrent change could make later groups differ.
- Simple.RoomState.OnJoin: lists the StateSync before the broadcast deliveries. In the source they are separate spawned tasks whose order is not fixed. The registry write and the StateSync snapshot are one step here; the source takes two lock acquisitions.
- Simple.DeliveryQueue.Enqueue: requires room in the channel. A producer waiting for room is not modelled, nor is the channel closing.
- RoomServer.RoomState.Close: is the clean-up block as one step. What triggers it is a failed write or the end of the channel, which is transport I/O. The reader loop's end removes nothing; its sender stays registered in `connections`.
