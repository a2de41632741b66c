# DanmuFlow verification

DanmuFlow is a live-chat gateway: clients connect over WebSocket and join a room; what they send passes
a gate (content checks, sensitive words, rate limit), goes to a message bus, and is broadcast to the room
by the one gateway that owns the bus partition of the room. This project models that behaviour in Dafny and
proves the properties the gateway is built on. `dafny verify dfyconfig.toml` checks everything.

## How the model is built

Objects that the program changes under a mutex are classes here, with the same fields and one method per
operation; each method is proved against a specification of its effect on the whole object, in most cases a
pure step function. Parties that run concurrently are state
machines over those same step functions: an `Action` is what one party does under one lock, or one lock-free
read, or one channel operation; `Enabled` says when it can happen, `Apply` what it does, and `After` runs any
interleaving. The theorems are about every run of these machines.

| file | contents |
|---|---|
| `Ownership.dfy` | partition ownership and its revision, as a class and as observed without the lock |
| `Lifecycle.dfy`, `Connections.dfy` | handshakes, recheck, ownership monitor, shutdown, connection table |
| `RateLimit.dfy` | token bucket |
| `Routing.dfy`, `Publisher.dfy`, `Leases.dfy` | publishers sharing a lease directory; one publisher's loop; the directory |
| `PartitionConsumer.dfy` | offset commits across consumer-group generations and restarts |
| `Room.dfy`, `RoomObjects.dfy`, `RoomRegistry.dfy` | rooms, bounded client queues, registry, broadcast handler |
| `InMemoryBus.dfy`, `Pipeline.dfy`, `EndToEnd.dfy` | in-memory bus; bus, consumer and rooms; the gate in front of them |
| `MessageGate.dfy`, `Sensitive.dfy`, `Message.dfy` | the checks before publishing |
| `CloseBatch.dfy`, `ConnectionIO.dfy` | the close worker pool; reader, writer and teardown of one connection |
| `GoStrings.dfy`, `Sequences.dfy`, `Wrappers.dfy` | shared vocabulary |

Two claims about the program turn out to need a condition, which is proved to be exact:

- *Generation fencing.* That every registered connection which passed its recheck belongs to the current
  ownership revision once the monitor has caught up does not hold in every run. The monitor takes its first
  reading in its own goroutine, and a connection whose partition was lost before it is never noticed
  (`LateMonitorMissesConnection`). The property holds for good if and only if, at that first reading, every
  stale connection past its revision check still has its owner check before it and is bound to fail it
  (`FencedExactlyWhenClear`). It is enough that the reading comes before the first handshake's
  (`MonitorFirstIsPrompt`). Fencing already from the revision check on is stronger, and has its own exact
  condition (`FencedExactlyWhenPrompt`).
- *Routing convergence.* One complete, failure-free reconcile of every publisher is not enough to put every
  owned partition into the directory, because a publisher may withdraw a lease it wrote over the owner's
  (`OneIterationIsNotEnough`). One reconcile of the owner is enough if and only if no other publisher still has
  the partition to register, from an older snapshot, when the owner takes its own
  (`OneIterationIsEnoughExactlyWhen`); after a reconcile of every publisher that is so (`SettledIsUnthreatened`),
  hence one more of the owner suffices (`DirectoryConverges`).

Assumptions: distinct publisher tokens; a clock that does not go backwards and is never the zero time; at most
one session per partition and generation, and commits fenced by generation; lower-casing changes no character
into or out of white space.

## Model

| member | source | states |
|---|---|---|
| Ownership.KafkaOwnership.SetPartitionOwnership | internal/bus/kafka.go:257-285 | replaces the topic's partitions and the assigned set by exactly those given and raises the revision, or names the first assignment missing from the topic and changes nothing |
| Ownership.KafkaOwnership.ClearAssignedPartitions | internal/bus/kafka.go:287-302 | forgets all assignments, keeps the topic and raises the revision, even if nothing was assigned |
| Ownership.KafkaOwnership.LookupPartition | internal/bus/kafka.go:305-341 | the partitioner's choice for a room that is not blank, if it is a partition of the topic; otherwise none |
| Ownership.KafkaOwnership.Owns | internal/bus/kafka.go:315-327 | a room is owned exactly when it has a valid partition and that partition is assigned |
| Ownership.KafkaOwnership.AssignedPartitions | internal/bus/kafka.go:344-356 | a strictly ascending copy of exactly the assigned partitions |
| Ownership.FirstMissing | internal/bus/kafka.go:265-268 | no missing assignment exactly when all assignments are partitions of the topic; otherwise an assignment outside it |
| Ownership.StaysConsistent | internal/bus/kafka.go:274-278 | in every micro step of an update the revision and its history only grow, and the revision stands for the current snapshot except between the write and the raise |
| Ownership.ReachableOwnership | internal/bus/kafka.go:257-302 | in every reachable state the assigned set is within the topic, and each accepted install or clear has raised the revision by one |
| Ownership.HistoryIsWhatWasWritten | internal/bus/kafka.go:274-278 | in every reachable state revision r stands for what the r-th accepted update has installed, which is exactly its assignments, or for nothing after a clear |
| Ownership.ExactlyOneOwner | internal/bus/kafka.go:304-341 | if gateways see the same topic and their assignments partition it, every room with a valid partition is owned by exactly one: the one holding the partition the producer chooses |
| Lifecycle.FencedExactlyWhenClear | internal/httpserver/websocket.go:243-292 | for every run up to the monitor's first reading: in all continuations, whenever the monitor has caught up, each registered connection past its recheck was admitted at the current revision in a generation owning its room, if and only if at that reading every stale one past its revision check is bound to fail its owner check |
| Lifecycle.FencedExactlyWhenPrompt | internal/httpserver/websocket.go:287 | the same already from the revision check on holds throughout a run if and only if no connection past that check is stale at the monitor's first reading |
| Lifecycle.LateMonitorMissesConnection | internal/httpserver/server.go:274-289 | a run after which a connection of a lost generation has passed both checks and stays registered, while the monitor, whose first reading came late, has caught up |
| Lifecycle.MonitorFirstIsPrompt | internal/httpserver/server.go:278 | if the monitor reads the revision before any handshake does, both fencing conditions are met |
| Lifecycle.MonitorCatchesUp | internal/httpserver/server.go:281-289 | one tick, and one scan if the revision has changed, restore fencing, and a scan leaves the table empty |
| Lifecycle.UndisturbedHandshakeGoesLive | internal/httpserver/websocket.go:243-293 | a handshake of a user not yet seated, for a room the gateway owns, ends up registered and live at the current revision if nothing disturbs it |
| Lifecycle.JoinRefusedExactlyWhenSeated | internal/httpserver/websocket.go:271-276 | a handshake is turned away by its room exactly if another handler of the same user is seated in it |
| Lifecycle.HandlersAreNamed | internal/httpserver/websocket.go:229-240 | every handler serves a trimmed user and room name, neither of them empty |
| Lifecycle.DrainStopsArrivals | internal/httpserver/server.go:148-155 | draining does not end, and no handshake starts after it has begun |
| Lifecycle.HandlersNeverStuck | internal/httpserver/websocket.go:266-293 | until a handler is done it can take its next step, at the latest when a running ownership update has released its lock |
| Lifecycle.HandlerStepsAreFew | internal/httpserver/websocket.go:243-293 | every step brings a handler nearer to its end |
| Lifecycle.StaysWatched | internal/httpserver/websocket.go:285-292 | every step keeps the race between registration and scan closed: no rechecked connection is older than the revision the monitor knows |
| Lifecycle.EveryConnectionAccounted | internal/httpserver/websocket.go:91-142 | no connection is in two ownership batches; once closing, the table is within the shutdown snapshot and every connection ever registered was batched or removed by its handler |
| Lifecycle.StaysClosed | internal/httpserver/websocket.go:91-103 | after the closing flag is set it stays set, nothing is registered and the table only shrinks |
| Lifecycle.MembersAreSeatedHandlers | internal/httpserver/websocket.go:266-291 | in every reachable state the members of all rooms are exactly the handlers between join and leave, each with its own session |
| Lifecycle.LeaveClosesOwnQueue | internal/httpserver/websocket.go:374-379 | a handler's leave always succeeds, closes its own open queue and touches no other session |
| Lifecycle.ClosedQueuesStayClosed | internal/room/room.go:102-106 | over whole runs of many handlers a closed queue is never closed again nor written; only its writer still drains it |
| Connections.WebSocketConnections.Register | internal/httpserver/websocket.go:94-103 | adds the connection unless the table is closing |
| Connections.WebSocketConnections.Unregister | internal/httpserver/websocket.go:121-125 | removes just this connection |
| Connections.WebSocketConnections.CloseForOwnershipChange | internal/httpserver/websocket.go:108-119 | empties the table into a batch that holds every connection once |
| Connections.WebSocketConnections.CloseForServiceRestart | internal/httpserver/websocket.go:130-142 | sets the closing flag and hands out every connection once; the table keeps its entries |
| RateLimit.Limiter.New | internal/ratelimit/limiter.go:34-48 | refuses a rate or burst that is not positive, in this order |
| RateLimit.Limiter.Allow | internal/ratelimit/limiter.go:52-79 | the new bucket table and the decision are those of the pure step, for the caller's bucket only; RefusedExactly and StoredExactly say what they are |
| RateLimit.RefusedExactly | internal/ratelimit/limiter.go:52-75 | a call is refused if and only if its key is empty or one more call would exceed burst plus tokens per second times length in some window from an earlier admitted call |
| RateLimit.StoredExactly | internal/ratelimit/limiter.go:71-77 | the stored token count is the least of the burst and what burst plus tokens per second times length leaves over in those windows |
| RateLimit.SteadyIsValid | internal/ratelimit/limiter.go:71 | earnings at a constant rate are not negative and add up over consecutive intervals |
| RateLimit.LevelAfterStep | internal/ratelimit/limiter.go:71-78 | a refused call or another key's call changes the level at no later time; an admitted one costs one token; a call passes exactly when a token is there |
| RateLimit.LevelIsLeastAllowance | internal/ratelimit/limiter.go:52-79 | the level is the minimum, over the empty window and every window from an earlier admitted call, of burst plus earnings minus admitted calls |
| RateLimit.StoredTokensAreLeastAllowance | internal/ratelimit/limiter.go:71-77 | the token count a call stores is that minimum |
| RateLimit.RefusedExactlyWhenWindowFull | internal/ratelimit/limiter.go:73-75 | a call is refused if and only if admitting it would overflow some window |
| RateLimit.NoWindowOverflows | internal/ratelimit/limiter.go:50-51 | between any two admitted calls of a key at most burst plus earnings were admitted |
| RateLimit.BurstPlusRateTimesLength | internal/ratelimit/limiter.go:32-33 | the same bound as burst plus tokens per second times the length of the window |
| RateLimit.GreedyStaysAhead | internal/ratelimit/limiter.go:60-78 | no affordable choice of calls gets ahead, and what it has saved is at most what it has given up |
| RateLimit.GreedyIsOptimal | internal/ratelimit/limiter.go:60-78 | at every prefix of a run Allow has admitted at least as many calls as any choice whose own bucket stays non-negative |
| RateLimit.DeletedCallsAreInvisible | internal/ratelimit/limiter.go:60-78 | deleting any refused calls of a key and any calls of other keys changes no remaining decision and no later level of the key |
| Leases.RedisRegistry.Register | internal/routing/redis.go:64-76 | stores the lease until its expiry over whatever was there, or reports the error and changes nothing; blank identities and tokens and unsafe URLs are refused |
| Leases.RedisRegistry.Resolve | internal/routing/redis.go:79-95 | the unexpired valid lease of the partition, and route-not-found exactly when there is none |
| Leases.RedisRegistry.Release | internal/routing/redis.go:98-106 | in one step the lease is gone if it carries the token, and kept with all others if not |
| Routing.TrackedSetIsCurrent | internal/routing/publisher.go:75-93 | although revision and snapshot are read apart, whenever the last revision is current the tracked set is the current assignment, whatever calls failed |
| Routing.LeaseStays | internal/routing/redis.go:98-106 | once all publishers are settled no step but expiry or the owner's own stop takes a lease from its owner |
| Routing.CleanAfterReconcile | internal/routing/publisher.go:96-118 | with ownership stable, an iteration begun and completed makes a publisher track exactly its assignments, and it stays so |
| Routing.IterationWithdraws | internal/routing/publisher.go:106-113 | in every interleaving an iteration that finds a tracked partition no longer assigned ends without a lease of its own on it, unless that release failed |
| Routing.StopWithdraws | internal/routing/publisher.go:121-129 | in every interleaving a publisher whose stop is complete has left no lease on what it tracked, unless that release failed |
| Routing.LeasesStay | internal/routing/publisher.go:96-129 | every later reconcile or another gateway's stop keeps the directory right until a lease expires or the owner stops |
| Routing.CoveredAfterSnapshot | internal/routing/publisher.go:97-104 | during the owner's failure-free iteration everything registered so far is held, whatever the others do |
| Routing.DirectoryConverges | internal/routing/publisher.go:70-129 | once ownership is stable and disjoint, every publisher has completed an iteration and the owner one more, the directory maps each owned partition to its owner, in every interleaving |
| Routing.OneIterationIsEnoughExactlyWhen | internal/routing/publisher.go:96-118 | with stable ownership, every run with a failure-free iteration of the owner leaves it holding the partition, whatever other publishers do, if and only if none of them still has it to register when the owner takes its snapshot |
| Routing.SettledIsUnthreatened | internal/routing/publisher.go:96-118 | once every publisher tracks its current assignments none has another's partition to register |
| Routing.OneIterationIsNotEnough | internal/routing/publisher.go:106-113 | a reachable run in which all publishers have completed a failure-free iteration and an owned partition is missing from the directory |
| RoutePublisher.Publisher.Start | internal/routing/publisher.go:40-44 | accepts exactly non-empty identity, and a poll interval that is positive and below the lease time |
| RoutePublisher.Publisher.Reconcile | internal/routing/publisher.go:96-118 | every assigned partition whose registration works shows the lease for a lease time; no abandoned one shows a lease with this token unless its release failed; all other leases are kept |
| RoutePublisher.Publisher.ReleaseAll | internal/routing/publisher.go:121-129 | no published partition shows a lease with this token any more unless its release failed; all other leases are kept |
| RoutePublisher.Publisher.Tick | internal/routing/publisher.go:79-86 | refreshes exactly on a new revision or when a third of the lease time has passed; a refresh holds every assigned partition whose registration works for a lease time, and other calls may fail |
| RoutePublisher.Publisher.Run | internal/routing/publisher.go:70-88 | over any run of ideal ticks the lease of a partition gained at any tick, and assigned from then on, is held beyond the next tick |
| RoutePublisher.RefreshesExactlyWhenDue | internal/routing/publisher.go:79-86 | a tick is a refresh if and only if it is the first, or the revision has changed since the last tick, or a third of the lease time has passed since every refresh before |
| RoutePublisher.TrackedSinceLastRefresh | internal/routing/publisher.go:83 | what is tracked are exactly the assignments found at the last refresh |
| RoutePublisher.RefreshGapBelowLeaseTime | internal/routing/publisher.go:79-86 | with a positive poll interval below the lease time every refresh comes before the previous leases expire, however revisions change |
| RoutePublisher.LongPollLetsLeasesLapse | internal/routing/publisher.go:41-44 | with a poll interval of the lease time or more no refresh comes in time, so the accepted condition is exact |
| PartitionConsumer.ConsumePartition | internal/bus/kafka.go:409-467 | for any answers of fetch, handler and coordinator a session's steps are a run of the machine, in the current or a passed generation; the committed offset moves only over entries that are poisonous or that the session handled, and over one entry a turn if nothing fails |
| PartitionConsumer.LoopStepsArePossible | internal/bus/kafka.go:420-466 | every number of turns of that loop is a run of the machine; a passed generation commits nothing |
| PartitionConsumer.SmoothSessionAdvances | internal/bus/kafka.go:463-465 | if nothing fails the committed offset advances by one entry in each turn up to the end of the log |
| PartitionConsumer.AtLeastOnce | internal/bus/kafka.go:426-465 | over all failures, generations and restarts each offset below the committed one was appended as no JSON or an incomplete message, or was handled successfully |
| PartitionConsumer.OnlyValidMessagesAreHandled | internal/bus/kafka.go:426-456 | the handler is called only with messages that were appended as JSON and pass validation |
| PartitionConsumer.FirstDeliveriesInOrder | internal/bus/kafka.go:458-465 | an entry is delivered only after every earlier valid entry has been handled |
| PartitionConsumer.HandledCount | internal/bus/kafka.go:458-473 | successful handler calls are exactly the valid entries below the committed offset, plus sessions that ended between handling and commit, plus those waiting for a commit's answer |
| Room.ApplyStaysValid | internal/room/room.go:61-142 | every call keeps the log numbered without gaps, the clients equal to the open sessions, and each session faithful to the log |
| Room.JoinAnswers | internal/room/room.go:61-88 | a user can join if and only if the name is not blank and no open session has it; the join adds one open session with an empty queue and nothing else |
| Room.LeaveAnswers | internal/room/room.go:92-107 | a leave succeeds if and only if the user has an open session, and closes just that one |
| Room.PublishAnswers | internal/room/room.go:110-142 | a broadcast succeeds if and only if the content is not blank and somebody is there; it logs one message with the next number, puts it into every empty queue of an open session and into no other, and reports the number of the others |
| Room.ReceiveAnswers | internal/httpserver/websocket.go:352-355 | a receive takes the oldest message of one queue and changes nothing else |
| Room.DeliveredInOrder | internal/room/room.go:124-141 | received and queued messages of a session are a strictly sequence-increasing part of the log since its join |
| Room.ClientsAgree | internal/room/room.go:124-126 | two clients never see different content under one sequence number |
| Room.NothingLostUncounted | internal/room/room.go:131-140 | enqueued plus dropped is the number of successful broadcasts during the session |
| Room.MembershipWindow | internal/room/room.go:61-107 | a session's window grows with each successful broadcast while it is a member and is frozen once it has left |
| Room.ReportedDropsAddUp | internal/room/room.go:130-141 | the dropped counts reported by the broadcasts sum up to the drops over all sessions |
| Room.ClosedQueuesStayUntouched | internal/room/room.go:102-106 | no queue is closed twice, and none is written after it was closed |
| RoomObjects.Client.TrySend | internal/room/room.go:132-139 | enqueues if there is room, otherwise drops; the answer says which |
| RoomObjects.Client.Receive | internal/httpserver/websocket.go:352-355 | takes the oldest queued message, also from a closed queue that is not yet empty |
| RoomObjects.ChatRoom.Receive | internal/httpserver/websocket.go:352-355 | the same as a call on the room of the client: the room does what the abstract receive does |
| RoomObjects.ChatRoom.Join | internal/room/room.go:61-88 | the mutable room does what the abstract join does, with a fresh channel, or returns its error |
| RoomObjects.ChatRoom.Leave | internal/room/room.go:92-107 | removes the client and closes just its channel |
| RoomObjects.ChatRoom.Publish | internal/room/room.go:110-142 | the new room and the dropped count are those of the abstract broadcast, whatever the order of the client map; a failure consumes no number |
| RoomObjects.CountByOrder | internal/room/room.go:131-140 | every enumeration of the clients counts the same drops |
| RoomRegistry.Registry.GetOrCreate | internal/room/registry.go:25-41 | the same room for the same trimmed ID, a new empty one otherwise; rooms share no state |
| RoomRegistry.Registry.Handle | internal/httpserver/messagebus.go:76-113 | broadcasts in the room of the trimmed ID and changes no other; an empty room is no error |
| RoomRegistry.Registry.JoinIn | internal/room/room.go:61-88 | a join in one room of the table changes no other room |
| RoomRegistry.Registry.LeaveIn | internal/room/room.go:92-107 | a leave in one room of the table changes no other room |
| RoomRegistry.Registry.ReceiveIn | internal/httpserver/websocket.go:352-355 | a receive in one room of the table changes no other room |
| GoStrings.AsciiSpace | internal/sensitive/filter.go:40 | which ASCII characters trimming treats as white space |
| GoStrings.TrimSpaceIdempotent | internal/room/registry.go:26 | trimming the room ID a second time changes nothing, so handshake and registry mean the same room |
| InMemoryBus.Bus.New | internal/bus/inmemory.go:35-43 | refuses a capacity that is not positive |
| InMemoryBus.Bus.Publish | internal/bus/inmemory.go:48-55 | appends if there is room; waits, or gives up without effect when the context is done, if not |
| InMemoryBus.Bus.Consume | internal/bus/inmemory.go:60-79 | refuses a missing handler and a second consumer; while others go on publishing, handled messages are a prefix of what was queued and arrives, in order; a failing one ends the call and the flag is given back |
| Pipeline.EndToEndOrder | internal/bus/inmemory.go:48-79 | handled, in hand and queued are the published messages in order; each room's log is exactly its handled messages except those that found it empty |
| Pipeline.ValidMessagesNeverFail | internal/httpserver/messagebus.go:76-113 | if only validated messages are published the handler never fails |
| Pipeline.NobodyThereMeansEmpty | internal/httpserver/messagebus.go:93-103 | a deliverable message is discarded exactly when its room has no client at the broadcast |
| EndToEnd.GatedMessagesNeverFail | internal/httpserver/websocket.go:451-533 | if everything on the bus has come through the gate, in any run of frames, the broadcast handler never fails |
| EndToEnd.LogsHoldCleanFrames | internal/httpserver/websocket.go:451-533 | then each message in a room's log is the unchanged text of a frame sent to that room that was not blank, not too long and spelled none of the listed words |
| MessageGate.Decide | internal/httpserver/websocket.go:435-535 | the verdict and the limiter's new table are those of the pure decision |
| MessageGate.RefusedContentAnswers | internal/httpserver/websocket.go:437-485 | each refusal of content names the first check that fails: no JSON, blank, over 500 characters, a listed word; none costs a token |
| MessageGate.FineContentAnswers | internal/httpserver/websocket.go:487-535 | other content asks the limiter once for its own user, then needs a ready consumer and a random value, and becomes a message of exactly the frame's room, user, text and time with the hexadecimal form of the value as ID |
| MessageGate.AcceptedIsValid | internal/httpserver/websocket.go:524-530 | an accepted message passes validation, is never poisonous to the Kafka consumer and carries the client's text unchanged |
| MessageGate.OnlyCleanFramesReachLimiter | internal/httpserver/websocket.go:451-494 | over any run of frames, refused content costs no token |
| MessageGate.RateLimitedExactlyWhenWindowFull | internal/httpserver/websocket.go:487-494 | a clean frame is held back exactly when it would overflow some window of its user's earlier clean frames |
| MessageGate.DistinctMessageIDs | internal/httpserver/websocket.go:554-562 | different random values give different message IDs |
| Message.ValidExactlyWhenComplete | internal/message/message.go:42-57 | a message is valid exactly when no text field is blank and the time is set |
| Sensitive.Filter.New | internal/sensitive/filter.go:14-25 | keeps the normal forms of the words that are not blank, in order |
| Sensitive.Filter.Match | internal/sensitive/filter.go:29-37 | the first kept word that occurs in the normalised content, if any; the next rows say character by character when that is |
| Sensitive.CleanedWordsAreSolid | internal/sensitive/filter.go:15-22 | the kept words are exactly the normalised non-blank words; none is empty or starts or ends with white space |
| Sensitive.TrimmingKeepsVerdict | internal/sensitive/filter.go:29-41 | trimming the content never changes the verdict |
| Sensitive.FirstMatchIsFirst | internal/sensitive/filter.go:31-36 | no match exactly when no word occurs; otherwise the first one in list order that does |
| Sensitive.RefusedExactlyWhenWordOccurs | internal/sensitive/filter.go:14-41 | content is refused if and only if it spells, in whatever case, some word of the original list apart from the white space at its ends |
| Sensitive.ReportsFirstSpelledWord | internal/sensitive/filter.go:29-37 | what is reported is the lower-case form of the first word of the original list that the content spells |
| Sensitive.CaseDoesNotMatter | internal/sensitive/filter.go:39-41 | contents and word lists that differ in case only get the same verdict |
| CloseBatch.ExactlyOnePlace | internal/httpserver/websocket.go:154-179 | every item is waiting, held by one worker, or closed, and in just one of these places once |
| CloseBatch.NeverClosedTwice | internal/httpserver/websocket.go:158-167 | with or without cancellation no connection is closed twice |
| CloseBatch.ReturnMeansAllClosed | internal/httpserver/websocket.go:180-188 | without cancellation the call returns only after every connection was closed, once each |
| CloseBatch.BoundedConcurrency | internal/httpserver/websocket.go:150-154 | there are as many workers as connections, but at most 32, and no more connections than that are being closed at once |
| CloseBatch.NeverStuck | internal/httpserver/websocket.go:154-188 | until the call returns some step other than a cancellation is possible |
| CloseBatch.EveryStepCounts | internal/httpserver/websocket.go:154-188 | every step lowers a measure |
| CloseBatch.RunsAreBounded | internal/httpserver/websocket.go:154-188 | so no run is longer than the bound at its start |
| ConnectionIO.ReportedMeansWritten | internal/httpserver/websocket.go:381-400 | an error is reported as sent only if that very frame is among the frames written; error frames are written in order, each at most once |
| ConnectionIO.AnswerDecides | internal/httpserver/websocket.go:394-400 | once the writer has answered, an error is reported as sent exactly if its frame was written, and the reader goes on exactly if it was and the error was not the last |
| ConnectionIO.GoneWriterEndsConnection | internal/httpserver/websocket.go:389-399 | an error the writer can no longer take or answer is reported as not sent and ends the connection |
| ConnectionIO.NothingReadAfterInvalidJSON | internal/httpserver/websocket.go:437-449 | after invalid JSON nothing is read any more, whatever happens |
| ConnectionIO.WriterNeverBlocksOnAnswer | internal/httpserver/websocket.go:363-369 | the acknowledgement channel always has room when the writer answers |
| ConnectionIO.NeverDeadlocked | internal/httpserver/websocket.go:342-400 | unless the reader waits for the client or has ended, reader or writer can take a step |
| ConnectionIO.TeardownEnds | internal/httpserver/websocket.go:373-379 | once the room is left every step lowers a measure that starts at eleven at most, so the wait for the writer ends |
| ConnectionIO.MessageFramesInOrder | internal/httpserver/websocket.go:350-362 | the message frames written are a prefix of what the room has enqueued, whatever error frames are in between |

## Left out

- RateLimit.Limiter.Allow: works on real numbers; rounding of 64-bit floating point, NaN rates and the saturation of very long durations are not modelled.
- Ownership.KafkaOwnership.SetPartitionOwnership: the revision is unbounded; wrap-around of the 64-bit counter is not modelled, nor that of the room's sequence number.
- Ownership.KafkaOwnership.LookupPartition: the partitioner is any deterministic function of room and partitions; a room of a missing bus or partitioner is not modelled.
- Lifecycle.FencedExactlyWhenPrompt: the bus has ownership; the in-memory case, where every room is owned at revision 0 and no monitor runs, is not modelled, nor is the readiness check beyond the draining flag.
- Lifecycle.MembersAreSeatedHandlers: rooms are created by handshakes only; that a broadcast may create a room without members is in Pipeline and RoomRegistry.
- RoutePublisher.Publisher.Run: ticks are ideal and calls take no time and do not fail, as in the claim about the refresh gap; Tick and Reconcile have the failing calls, Routing their interleaving.
- Leases.RedisRegistry.Resolve: a lease is stored as a value; its JSON form and the parsing of URLs are parameters.
- PartitionConsumer.ConsumePartition: an entry is malformed, invalid or good; JSON decoding itself is not modelled, and a session's end and a later start stand for the retry delays of the supervisor and the errors of the consumer group.
- RoomObjects.ChatRoom.Publish: the mutex is the atomicity of the call; waiting for it is not modelled.
- InMemoryBus.Bus.Consume: other publishers enqueue between its turns, not while the handler runs; Pipeline has every interleaving.
- Sensitive.Filter.Match: strings are sequences of characters and lower-casing is one character to one; invalid UTF-8 is not modelled.
- CloseBatch.ReturnMeansAllClosed: closing is one step; the close frame and its deadline are best effort and not modelled.
- ConnectionIO.NeverDeadlocked: a network write succeeds or fails; pings, read deadlines and the draining after an oversized frame are not modelled.
- Kafka, Redis, Gorilla, Gin, logging and metrics: libraries and side effects.
- Topic metadata lookup over several brokers, bus configuration and the exponential retry delay: easy or bound to I/O.
- The HTTP endpoints, among them the room route query: thin layers over Ownership and Leases.
- The random source of message IDs and tokens: distinctness of tokens is assumed, probability is not modelled.
