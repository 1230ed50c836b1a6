# Verified models of the ROS 2 client

This project models the concurrent and string-handling cores of a ROS 2 client library that has two
backends (DDS and Zenoh), and proves properties of them in Dafny 4.11. Each file holds one module.
The operations that the library runs as state changes are methods of classes; each method is proved
against functions on values, and the theorems about interleavings, logs and round trips are lemmas
about those functions. `dafny verify dfyconfig.toml` checks everything.

| file | what it models |
|---|---|
| `SwapRemoval`, `MatchTables`, `StatusChannels` | `swap_remove` pruning, the tables of matched endpoints, the bounded status channels and the `MatchWait` future |
| `MatchWaitProtocol` | Spinner, channels and any number of waiting tasks, interleaved step by step; any capacity of at least 1 |
| `ActionServer`, `ActionRuns` | the asynchronous action server: its lock-held sections and methods, and the interleaving of those sections by any number of tasks with copied handles |
| `Json`, `JsonValue`, `TypeDescription` | the canonical JSON of type descriptions whose SHA-256 is the REP-2016 type hash; strings as in section 7 of RFC 8259, surrogate pairs as in section 2.1 of RFC 2781 |
| `QosEncoding`, `Keyexpr` | the compact QoS string and the liveliness keys, with their parsers |
| `GraphCache`, `WaitFor` | the discovery cache, its event streams, and waiting for a declaration while callbacks run concurrently |
| `Service` | request ids, the pending table and the correlation of replies over runs of many clients |
| `Names` | names of nodes and topics, and how both backends resolve them |
| `Parameters` | parameter stores and event logs of both backends |
| `NodeGraph` | what nodes report to their context and what the context broadcasts |
| `WireTime` | times, durations and RTPS ticks |
| `Basics`, `Text` | number types; splitting, joining, ordering and decimal printing of strings |

## What the proofs found

Properties that do not hold of the code as it stands are stated with the exact condition under which
they do hold.

- A cancel request tests its goals under one lock and marks them under a later one, so a goal can end in
  between and be revived by the mark. Terminal goal states are absorbing in a run exactly if no cancel is
  marked on an ended goal (`ActionRuns.EndedKeptInRunsIff`). Flushing is clean, now and in every future
  without another such mark, exactly if none is marked on an ended goal whose entry in the list of
  finished goals is there or under way (`ActionRuns.FlushCleanIff`, with a run in
  `ActionRuns.LateCancelBreaksFlush`). Each goal gets at most one result, now and in every such future,
  exactly if none is marked on an ended goal whose result has been sent (`ActionRuns.OneResultIff`, with
  a run that sends two in `ActionRuns.TwoResults`).
- A goal that is Canceling can leave that state exactly if its execution was started or an entry for it
  in the list of finished goals is there or under way (`ActionRuns.LeavesCancelingIff`). So a goal that is
  canceled after its acceptance and before its execution is stuck for good; such a goal is reachable
  (`ActionRuns.StuckGoalIsReachable`).
- Subscribers can rebuild the discovery graph from their events exactly if no PUT repeats a live key:
  the cache announces a repetition again (`GraphCaches.EventsTellTheGraphIff`).
- A relative name under the root namespace resolves to a doubled slash on DDS and to a single one on
  Zenoh; everywhere else the backends agree (`Names.BackendsAgreeIff`).
- `NodeName::new` accepts namespaces with empty or otherwise invalid parts; relative action names of
  such a node work on DDS and are refused by the Zenoh backend (`Names.ActionNamesAgree`,
  `Names.ActionRefused`).
- A DDS node overwrites a declared `use_sim_time` with `false`, a Zenoh server keeps it
  (`Parameters.InitialStoresAgreeIff`); a set of it to something that is not a Boolean is refused by the
  one and stored by the other (`Parameters.ClockValuesIff`).
- Converting a time with a fraction below the bottom second overflows (`WireTime.OverflowIff`).
  `Duration::from_nanos` adds 1 to the quotient of a negative duration with a fraction where the comment
  at `src/builtin_interfaces.rs:216` says it subtracts 1; such durations come back two seconds too large
  (`WireTime.NegativeFractionIsOff`). The model follows the code.
- Cancel requests by time select strictly earlier goals, as coded in `src/action/server.rs:722,730`,
  although `src/action_msgs.rs:50-55` describes them as at or before.

## Assumptions

- Goal ids and request ids are not reused by clients; client GIDs are distinct. SHA-256 and XXH3 are not
  part of this model.
- A poll of an `async_channel` receiver either takes an event or registers the waker, as one step, and a
  channel hangs up when the last holder of the sender list (node and Spinner) is gone. Zenoh calls
  callbacks concurrently; its per-subscriber event streams are unbounded and in order.
- The counters of 64 bits are modelled with their wrap-around; the theorems about distinct ids require
  that no counter has gone around once.

## Model

| member | source | states |
|---|---|---|
| SwapRemoval.SwapRemoveTakesOne | src/node.rs:479-481 | one `swap_remove` takes away exactly the element at the position, as a multiset |
| SwapRemoval.SwapRemoveKeepsFront | src/node.rs:479-481 | positions before the removed one keep their elements, so the smaller indices recorded earlier stay right |
| SwapRemoval.PruneKeepsTheRest | src/node.rs:459-483 | removing the recorded positions in descending order stays in bounds and leaves exactly the multiset of elements at the other positions |
| SwapRemoval.PruneMembers | src/node.rs:459-483 | an element is left after the pruning iff some position that was not recorded holds it |
| MatchTables.RemotesAreCurrent | src/node.rs:420-447 | after any event sequence a remote is in the table of a local endpoint iff it was matched with it and not lost since |
| MatchTables.CountsCurrentMatches | src/node.rs:420-447 | the size of a table entry is the number of current matches read off the event log alone |
| MatchTables.MatchRecorder.OnStatusEvent | src/node.rs:420-447 | one status event turns both tables into what the specification of the log says |
| MatchTables.MatchRecorder.OnStatusEvents | src/node.rs:416-451 | after any run of events the tables are the replay of the whole log |
| MatchTables.MatchRecorder.RemoveFromAll | src/node.rs:433-445 | a lost remote is removed from every local entry of its table and nothing else changes |
| MatchTables.MatchRecorder.MatchCount | src/node.rs:1143-1167 | the publisher and subscription counts are the number of current matches in the log |
| StatusChannels.StatusChannel.TrySend | src/node.rs:459-477 | a closed or full channel is left alone, any other has this very event at its end; a registered waker is woken iff the event was queued |
| StatusChannels.StatusEventSenders.StartSpinner | src/node.rs:784-789 | a node has a Spinner from the first call on, and a second call panics |
| StatusChannels.StatusEventSenders.StatusReceiver | src/node.rs:1111-1124 | a new receiver is subscribed and empty and the other senders stay; it panics iff there is no Spinner |
| StatusChannels.StatusEventSenders.SendStatusEvent | src/node.rs:459-483 | every open channel with room has this very event at its end and its receiver is woken if it waits, the others are as before; exactly the closed senders are dropped |
| StatusChannels.StatusEventSenders.OfferToAll | src/node.rs:461-477 | the first loop puts the event at the end of every open channel with room, once, and records exactly the closed positions in ascending order |
| StatusChannels.StatusEventSenders.RemoveClosed | src/node.rs:479-482 | the second loop computes the pruning of the recorded positions |
| StatusChannels.SendersLeft | src/node.rs:459-483 | after pruning exactly the open senders are left |
| StatusChannels.MatchWait.Matched | src/node.rs:1823-1830 | whether the endpoint has a remote in its table |
| StatusChannels.MatchWait.Poll | src/node.rs:1836-1869 | a poll drains the channel, leaves the waker registered unless it hung up, and is ready iff the endpoint is matched |
| MatchWaitProtocol.NoLostWakeup | src/node.rs:1795-1870 | whatever was dropped: between events, a task that is asleep with no wake pending has no matched remote |
| MatchWaitProtocol.QueuedEventWakes | src/node.rs:1836-1856 | after the drain, an event in the channel implies a pending wake |
| MatchWaitProtocol.LiveReceiverStaysSubscribed | src/node.rs:459-483 | pruning never drops the sender of a receiver that is still there, over whole runs |
| MatchWaitProtocol.AnnouncementNeverStuck | src/node.rs:459-483 | an announcement can always go on: every recorded index is in bounds |
| MatchWaitProtocol.PollResolves | src/node.rs:1836-1869 | once its endpoint has a match, the next poll of a waiting task resolves, however many events are queued |
| MatchWaitProtocol.ReceiverHears | src/node.rs:459-483 | over any run, what a receiver took out and what is queued are, in order, the events offered while there was room; the events offered are, in order and without a gap, those announced since it subscribed |
| MatchWaitProtocol.TablesAreReplay | src/node.rs:416-451 | over any run the tables are the replay of the discovery events so far |
| ActionServer.AsyncActionServer.FlushFinishedGoals | src/action/server.rs:304-324 | removes exactly the finished goals, and reports whether the lost-goal branch or the debug assertion was met |
| ActionServer.FlushStep | src/action/server.rs:304-324 | one more finished goal keeps the flush clean iff it is new in the list, still there and terminal |
| ActionServer.AsyncActionServer.ReceiveNewGoal | src/action/server.rs:338-375 | takes requests up to the first with an unused goal id, which becomes Unknown; duplicates are discarded |
| ActionServer.AsyncActionServer.AcceptGoal | src/action/server.rs:377-427 | Unknown becomes Accepted with the acceptance time, and one positive answer is sent; otherwise an error and no change |
| ActionServer.AsyncActionServer.RejectGoal | src/action/server.rs:429-473 | an Unknown goal is removed and one negative answer sent; otherwise an error and no change |
| ActionServer.AsyncActionServer.StartExecutingGoal | src/action/server.rs:477-511 | Accepted becomes Executing; otherwise an error and no change |
| ActionServer.AsyncActionServer.PublishFeedback | src/action/server.rs:513-545 | feedback goes out only for an Executing goal, and each of the three errors arises exactly in its case |
| ActionServer.AsyncActionServer.FindResultRequest | src/action/server.rs:569-597 | the request found asked for this goal, and the buffer is what reading the requests before it makes of it |
| ActionServer.LastRequestIsBuffered | src/action/server.rs:585-597 | every request read on the way is kept under the goal it asks for, unless a later one takes its place |
| ActionServer.OthersStayBuffered | src/action/server.rs:585-597 | what was buffered for other goals stays, and nothing else comes in |
| ActionServer.AsyncActionServer.SendResult | src/action/server.rs:552-648 | the goal gets the status that the end status stands for, the same goes to the request, and the goal is listed as finished; a failed write leaves it ended but unlisted |
| ActionServer.AsyncActionServer.AbortGoal | src/action/server.rs:665-698 | an Accepted or Executing goal becomes Aborted and is listed as finished |
| ActionServer.AsyncActionServer.ReceiveCancelRequest | src/action/server.rs:704-762 | the filter over the goals, in its four cases, yields the named goal together with the goals accepted strictly before the stamp, as far as they are accepted or executing |
| ActionServer.LaterStampRequestsMore | src/action/server.rs:720-731 | a later stamp asks for no fewer goals |
| ActionServer.OfferIsHonoured | src/action/server.rs:764-804 | answering with all offered goals, without interference, confirms each with its acceptance time and puts exactly them into Canceling |
| ActionServer.AsyncActionServer.RespondToCancelRequests | src/action/server.rs:764-804 | all goals are tested before any is marked; the answer lists those that passed |
| ActionServer.CancelMarksExactlyTheAccepted | src/action/server.rs:764-804 | without interference exactly the listed goals that have an acceptance time become Canceling |
| ActionRuns.RankNeverFalls | src/action/server.rs:384-425 | over all interleavings the rank of a goal never decreases |
| ActionRuns.GoneStaysGone | src/action/server.rs:304-324 | a goal that has left the table never comes back |
| ActionRuns.UnknownIffNotAccepted | src/action/server.rs:384-425 | a goal is Unknown iff it has no acceptance time |
| ActionRuns.HandleWasExecuting | src/action/server.rs:481-510 | an executing handle exists only for a goal that was Executing earlier in the run |
| ActionRuns.SucceededWasExecuting | src/action/server.rs:598-629 | every goal that succeeded was Executing earlier in the run |
| ActionRuns.AcceptedArmUnreachable | src/action/server.rs:598-629 | `send_result_response` never finds its goal Unknown or Accepted |
| ActionRuns.StatusesAreGiven | src/action/server.rs:384-648 | over all runs a goal gets each status only by the step meant to give it: Aborted only by an abort or by being ended as aborted, Canceled and Succeeded only by being ended so |
| ActionRuns.EndsAsAsked | src/action/server.rs:598-629 | a goal that can be ended gets the status that was asked for |
| ActionRuns.ResultsTellEnds | src/action/server.rs:598-629 | the results sent in a run are exactly those of the steps that ended a goal and wrote its result, each with the status asked for |
| ActionRuns.DecisionIsAnswered | src/action/server.rs:377-473 | accepting stamps the goal and leads to one positive answer to its own request, rejecting removes it and leads to a negative one |
| ActionRuns.AnswersTellDecisions | src/action/server.rs:377-473 | over all runs a positive answer is that of a request whose goal was accepted, a negative one that of a request whose goal was not and is gone |
| ActionRuns.AnsweredAtMostOnce | src/action/server.rs:378-473 | each SendGoal request is accepted or rejected at most once, never both, with any copies of handles |
| ActionRuns.ResultsGoWhereAsked | src/action/server.rs:569-629 | every result goes to a request that asked for that goal, whichever loop read the request |
| ActionRuns.OtherRequestsAreBuffered | src/action/server.rs:585-597 | a request for another goal that is read on the way is buffered, and the task for that goal then finds it at once |
| ActionRuns.EndedKeptIff | src/action/server.rs:764-804 | a step keeps terminal goals as they are iff it does not mark an ended goal as Canceling |
| ActionRuns.EndedKeptInRunsIff | src/action/server.rs:764-804 | terminal states are absorbing over a whole run iff no cancel is marked on an ended goal in it |
| ActionRuns.FlushCleanIff | src/action/server.rs:300-324 | in a run and all its futures without another cancel mark a flush never meets the lost-goal branch, a repeated entry or the failing assertion, iff no cancel is marked on an ended goal that is listed or about to be |
| ActionRuns.OneResultIff | src/action/server.rs:552-648 | in a run and all its futures without another cancel mark each goal gets at most one result, iff no cancel is marked on an ended goal whose result has been sent |
| ActionRuns.SendResult | src/action/server.rs:552-648 | a goal with an executing handle that has not ended can be ended with a result, whatever else is under way |
| ActionRuns.LateCancelBreaksFlush | src/action/server.rs:764-804 | a concrete run in which a goal ends between test and mark and the flush is not clean |
| ActionRuns.TwoResults | src/action/server.rs:764-804 | a concrete run in which a late mark revives a goal whose result was sent and a second result is sent, to another request |
| ActionRuns.LeavesCancelingIff | src/action/server.rs:481-510 | in every state of every run a Canceling goal can end or go iff it has an executing handle or a finished entry, listed or under way |
| ActionRuns.StuckGoalIsReachable | src/action/server.rs:764-804 | a concrete run after which a goal is Canceling and cannot leave that state |
| Json.ReadStringBack | src/zenoh_backend/type_description.rs:313-337 | a JSON reader returns exactly the printed string and what follows it, surrogate pairs included |
| Json.StringUnique | src/zenoh_backend/type_description.rs:313-337 | a printed string can be told from every other, whatever follows |
| Json.StringIsCanonical | src/zenoh_backend/type_description.rs:313-337 | of all ASCII texts that are read as a string the printed one is the only shortest |
| Json.StringIsAscii | src/zenoh_backend/type_description.rs:313-337 | a printed string is ASCII, so it competes with the others |
| Json.PlainPrintsAsItself | src/zenoh_backend/type_description.rs:327 | printable ASCII but quote and backslash is printed as it is |
| TypeDescriptions.FieldTypeUnique | src/zenoh_backend/type_description.rs:300-311 | the text of a field type determines all its parts and where it ends |
| TypeDescriptions.ItdUnique | src/zenoh_backend/type_description.rs:278-298 | the text of an individual description determines it, up to default values, and where it ends |
| TypeDescriptions.SortIsStable | src/zenoh_backend/type_description.rs:206-223 | the sort gives an ordered permutation and keeps the order of equal names |
| TypeDescriptions.SortedDetermined | src/zenoh_backend/type_description.rs:206-223 | an ordered list is determined by its sublists of equal names |
| Text.NameLeIsLexicographic | src/zenoh_backend/type_description.rs:208 | the order of names is the lexicographic one: a prefix first, else the first difference decides |
| TypeDescriptions.HashableJsonIsJson | src/zenoh_backend/type_description.rs:203-311 | the text is that of the JSON value with the keys of REP-2016, members and items in order |
| TypeDescriptions.JsonSameIffAgree | src/zenoh_backend/type_description.rs:203-223 | two descriptions have the same text iff they agree on everything but default values and the order of differently named references |
| TypeDescriptions.JsonIgnoresReferenceOrder | src/zenoh_backend/type_description.rs:203-223 | with distinct referenced names the text is the same iff the top types and the multisets of references agree, default values apart |
| TypeDescriptions.JsonWriter.WriteString | src/zenoh_backend/type_description.rs:313-337 | the loop over characters appends the quoted string |
| TypeDescriptions.JsonWriter.WriteFieldType | src/zenoh_backend/type_description.rs:300-311 | appends the text of the field type |
| TypeDescriptions.JsonWriter.WriteField | src/zenoh_backend/type_description.rs:291-298 | appends the text of the field |
| TypeDescriptions.JsonWriter.WriteItd | src/zenoh_backend/type_description.rs:278-289 | the loop over fields appends the text of the description |
| TypeDescriptions.SortInPlace | src/zenoh_backend/type_description.rs:207-208 | the array ends as the stable sort of what it was |
| TypeDescriptions.WriteHashableJson | src/zenoh_backend/type_description.rs:206-223 | the imperative printer computes the text the theorems are about |
| QosEncoding.DecodeEncode | src/zenoh_backend/qos_encoding.rs:54-165 | every profile is decoded exactly as it was encoded, all depths and durations and KeepAll included |
| QosEncoding.DecodedIsValid | src/zenoh_backend/qos_encoding.rs:93-165 | whatever is decoded is a profile with durations of less than 10^9 nanoseconds |
| Text.ParseUnsignedDec | src/zenoh_backend/qos_encoding.rs:93-104 | a printed number is read back, and refused only if it is too large for its type |
| Text.ParseUnsignedSign | src/zenoh_backend/qos_encoding.rs:93-104 | one plus sign is allowed in front of a number |
| QosEncoding.EncodeDecodeNormalizes | src/zenoh_backend/qos_encoding.rs:62-165 | encoding after decoding is a normal form: same meaning, and shared by exactly the strings of that meaning |
| QosEncoding.QosWrittenOut | src/zenoh_backend/qos_encoding.rs:28-91 | the six groups of an encoded profile with their codes |
| QosEncoding.DecodedCodes | src/zenoh_backend/qos_encoding.rs:106-165 | only these codes, in exactly six groups, are accepted, with these meanings |
| QosEncoding.DecodeExplicit | src/zenoh_backend/qos_encoding.rs:106-165 | defaults may be written as well as left out |
| QosEncoding.DurationCarries | src/zenoh_backend/qos_encoding.rs:93-104 | whole seconds in the nanoseconds are carried, and what then does not fit panics |
| QosEncoding.MissingFields | src/zenoh_backend/qos_encoding.rs:93-131 | a missing depth is zero and half a duration is malformed |
| Keyexpr.DemangleMangle | src/zenoh_backend/keyexpr.rs:50-66 | a name survives mangling iff it has no percent sign, the empty name counting as root |
| Keyexpr.MangleIs | src/zenoh_backend/keyexpr.rs:50-58 | every slash becomes a percent sign, and the empty name is one |
| Keyexpr.KeysWrittenOut | src/zenoh_backend/keyexpr.rs:108-154 | the nine parts of a node key and the thirteen of an entity key, with the kind codes |
| Keyexpr.ParsesIff | src/zenoh_backend/keyexpr.rs:204-244 | exactly which keys are accepted |
| Keyexpr.NodeKeyRoundTrip | src/zenoh_backend/keyexpr.rs:108-127 | a node key is parsed back with every field but the enclave iff the session id has no slash and the names no percent sign |
| Keyexpr.EntityKeyRoundTrip | src/zenoh_backend/keyexpr.rs:129-244 | an entity key is parsed back with every field but the enclave iff the plain fields have no slash and the names no percent sign |
| Keyexpr.KeyCarriesQos | src/zenoh_backend/node.rs:298-324 | the QoS chunk of a token decodes to the profile it was made from |
| Keyexpr.KeyDeterminesEntity | src/zenoh_backend/keyexpr.rs:129-244 | equal keys come from entities with equal fields, the printed enclave included |
| Keyexpr.KeyDeterminesNode | src/zenoh_backend/keyexpr.rs:108-127 | equal node keys come from nodes with equal fields, the printed enclave included |
| Keyexpr.CountersGrow | src/zenoh_backend/node.rs:185-188 | the id counters of a context and its nodes never go back in a run that does not wrap them |
| Keyexpr.NodeTokenTells | src/zenoh_backend/node.rs:94-120 | over any run the token of a node is read back as that node: session, id, namespace and name |
| Keyexpr.EntityTokenTells | src/zenoh_backend/node.rs:298-324 | over any run the token of an entity is read back with the namespace and name its node was created with, its id, kind, topic, type, hash and QoS |
| Keyexpr.KeysDistinct | src/zenoh_backend/context.rs:181 | all keys one context declares over any run are pairwise distinct |
| GraphCaches.CacheIsLog | src/zenoh_backend/graph_cache.rs:69-85 | the cache holds exactly the keys whose last sample was a PUT that parses, each with its own parse |
| GraphCaches.CountIsLog | src/zenoh_backend/graph_cache.rs:103-127 | the entities of a kind on a topic are those the log says |
| GraphCaches.EventsBalance | src/zenoh_backend/graph_cache.rs:69-101 | declared minus undeclared events of an entity equal the change in its number in the cache plus its repeated PUTs |
| GraphCaches.EventsTellTheGraphIff | src/zenoh_backend/graph_cache.rs:69-101 | events balance with the cache for every entity iff no PUT repeats a live key |
| GraphCaches.TokensAnnounce | src/zenoh_backend/graph_cache.rs:46-84 | the token of a node or entity is announced with its kind, the full name of its node, its topic and its type, and its deletion takes exactly that back |
| GraphCaches.GraphCache.Subscribe | src/zenoh_backend/graph_cache.rs:87-91 | a new empty stream joins the subscribers |
| GraphCaches.GraphCache.Broadcast | src/zenoh_backend/graph_cache.rs:93-101 | every live stream gets the event at its end, the dropped ones are forgotten |
| GraphCaches.GraphCache.OnSample | src/zenoh_backend/context.rs:103-114 | a sample changes the cache as the log specification says, and every live stream gets exactly its events |
| GraphCaches.GraphCache.OnSamples | src/zenoh_backend/context.rs:103-114 | after a whole log the cache is its replay, and a stream open throughout holds exactly the events of the log |
| GraphCaches.GraphCache.CountKindOnTopic | src/zenoh_backend/graph_cache.rs:103-112 | the count is the number of such entities in the log |
| GraphCaches.GraphCache.NodeNames | src/zenoh_backend/graph_cache.rs:129-140 | sorted, without duplicates, and exactly the names of the nodes in the cache |
| WaitForProtocol.RunKeepsInv | src/zenoh_backend/context.rs:163-177 | the invariant of subscribing, counting and receiving holds in every interleaving with the callbacks |
| WaitForProtocol.NoMissedDeclaration | src/zenoh_backend/context.rs:163-177 | when all callbacks are idle, a waiter blocked on its empty stream has no matching entity in the cache |
| WaitForProtocol.ResolvedOnlyIfSeen | src/zenoh_backend/context.rs:163-177 | a waiter resolves only if a matching entity has been in the cache |
| Services.GidKeyInjective | src/zenoh_backend/service.rs:80-82 | different GIDs have different keys |
| Services.GidKeyIsLittleEndian | src/zenoh_backend/service.rs:80-82 | the first byte is the lowest of the key |
| Services.WrappedCounts | src/zenoh_backend/service.rs:127 | the sequence number counts up by one, from the largest to the smallest |
| Services.Client.RequestBytes | src/zenoh_backend/service.rs:125-135 | a request that encodes takes the next sequence number, wrapping at 64 bits; one that does not takes none; with overflow checks the addition panics exactly after the largest number |
| Services.RequestGoesOut | src/zenoh_backend/service.rs:125-135 | an issued request goes out with the GID of its client and its next number |
| Services.Server.Accept | src/zenoh_backend/service.rs:209-224 | the section that runs over many clients use: an accepted query is filed under its request id, each error arises in its case and files nothing |
| Services.Server.SendResponse | src/zenoh_backend/service.rs:246-268 | an unknown id is an error; otherwise the query is taken out and, unless encoding or sending fails, gets one reply that echoes the id |
| Services.RunKeepsInv | src/zenoh_backend/service.rs:125-268 | the invariants of sent queries and of the table hold in every run |
| Services.RequestIdsDistinct | src/zenoh_backend/service.rs:125-135 | request ids of many clients never collide |
| Services.PendingIsAcceptedMinusAnswered | src/zenoh_backend/service.rs:209-268 | the table holds exactly the accepted and unanswered queries, none overwritten or forgotten |
| Services.OneReplyWithOwnId | src/zenoh_backend/service.rs:246-268 | each query gets at most one reply, and it echoes the id that very query carried |
| Services.ArrivalIsFiled | src/zenoh_backend/service.rs:209-224 | a query that can be decoded is accepted and pending under its own key, any other leaves the table alone |
| Services.ResponseReplies | src/zenoh_backend/service.rs:246-268 | in every reachable state responding to an accepted, unanswered query sends exactly one reply, to it and with its id |
| Services.RepliesAreDeliveries | src/zenoh_backend/service.rs:246-268 | over any run the replies are exactly those of the responses that found a query and went through |
| Names.NodeNameIff | src/names.rs:22-77 | a node name is accepted iff its base is an identifier and its namespace is rooted, well-formed and not ended by a slash; which kind of error is reported for what |
| Names.FullyQualified | src/names.rs:86-95 | computes the fully qualified name by appending |
| Names.FullyQualifiedInjective | src/names.rs:22-95 | accepted node names with the same fully qualified name are equal |
| Names.FullyQualifiedResolves | src/names.rs:86-95 | the full name of a node is what its base name resolves to, and is cut at its last slash into namespace and base |
| Names.NewNameIff | src/names.rs:146-206 | a name is accepted iff its base and all parts of its namespace are valid tokens |
| Names.NewNameErrors | src/names.rs:146-206 | which error a refused name gets, the base name being checked first |
| Names.AcceptedPrintsAsGiven | src/names.rs:146-206 | an accepted name is valid and prints as its namespace and base together |
| Names.ParseIffPrinted | src/names.rs:212-288 | parsing gives a name iff the name is valid and prints as that string: `parse` and `Display` are inverse |
| Names.ParseErrors | src/names.rs:212-236 | which error the empty name, a slash at the end and a doubled last slash are refused with |
| Names.PushAppends | src/names.rs:259-268 | a pushed name prints with the suffix after a slash |
| Names.PushKeepsValid | src/names.rs:259-268 | pushing keeps a name valid iff the suffix is a valid token, and then the result parses back |
| Names.ToDdsName | src/names.rs:239-257 | the loop builds prefix, node namespace for relative names, tokens, base and suffix |
| Names.DdsNameIs | src/names.rs:239-257 | the DDS name is prefix, node namespace for a relative name, printed name and suffix |
| Names.BackendsAgreeIff | src/zenoh_backend/node.rs:798-809 | DDS and Zenoh resolve a name to the same string iff it is absolute or the node is not in the root namespace |
| Names.ActionNamesAgree | src/zenoh_backend/node.rs:773-777 | the Zenoh name of a part of an action is accepted iff its parts are valid tokens, and then `resolve_fqn` gives the string of the name built by `push` |
| Names.ActionRefused | src/zenoh_backend/node.rs:773-777 | a node name that is accepted and whose relative actions are refused |
| Parameters.RawRoundTrip | src/parameters.rs:81-170 | every value survives the wire with its reported type; a wire value survives the way back iff it is normal |
| Parameters.Encode | src/parameters.rs:118-170 | filling the unset record field by field gives the wire form |
| Parameters.NodeParameters.constructor | src/node.rs:681-692 | declarations are collected, the last one of a name counting, and `use_sim_time` is overwritten with false |
| Parameters.CollectedIsLast | src/node.rs:681-692 | a declared name has the value of its last declaration |
| Parameters.CollectedIsDeclared | src/node.rs:681-692 | a name that is not declared is not there |
| Parameters.NodeParameters.CheckDeclared | src/node.rs:745-756 | succeeds iff every declared value is accepted, else reports the first refusal in order, and keeps clock and parameter equal |
| Parameters.NodeParameters.ExecuteSetActions | src/node.rs:1084-1104 | only a Boolean for `use_sim_time` changes the flag |
| Parameters.NodeParameters.SetParameter | src/node.rs:996-1034 | store, flag and log change together as specified, or not at all |
| Parameters.NodeParameters.UndeclareParameter | src/node.rs:960-980 | a declared parameter is removed and announced with its last value, else nothing happens |
| Parameters.NodeParameters.TimeNow | src/node.rs:764-770 | while `use_sim_time` is declared, its value decides which clock is read |
| Parameters.FailedSetIff | src/node.rs:996-1034 | a set leaves store, flag and log untouched iff it is refused, and otherwise changes one name and adds one event |
| Parameters.RefusedIff | src/node.rs:996-1034 | exactly when a set is refused, and with which message an undeclared name is |
| Parameters.RunKeepsClock | src/node.rs:1084-1104 | over any run the flag equals the value of `use_sim_time` while it is declared |
| Parameters.RunRebuilds | src/node.rs:960-1034 | the events of any run are true when published and, replayed through the wire form over the first store, give the last |
| Parameters.ParameterServer.constructor | src/zenoh_backend/parameters.rs:97-117 | declarations are collected and `use_sim_time` defaults to false |
| Parameters.ParameterServer.SetAndNotify | src/zenoh_backend/parameters.rs:135-152 | the value is stored and one event published |
| Parameters.ParameterServer.HandleSetParameters | src/zenoh_backend/parameters.rs:238-255 | every request before the first unreadable one is carried out in order and answered |
| Parameters.AllDoneAt | src/zenoh_backend/parameters.rs:238-255 | each answer has the id of its request and one success per parameter |
| Parameters.AllParamsInOrder | src/zenoh_backend/parameters.rs:238-255 | the parameters of a request are carried out right after those of the earlier ones |
| Parameters.ParameterServer.HandleSetAtomically | src/zenoh_backend/parameters.rs:257-276 | every entry is refused and nothing is set |
| Parameters.ParameterServer.HandleGetParameters | src/zenoh_backend/parameters.rs:198-216 | every request is answered under its id with wire forms that read back as the stored values, or as not set |
| Parameters.ServerRebuilds | src/zenoh_backend/parameters.rs:135-170 | the events of the server, one for each parameter, rebuild its store |
| Parameters.LastSetIsSeen | src/zenoh_backend/parameters.rs:198-255 | after any batch a name is seen with the last value sent for it |
| Parameters.OthersAreKept | src/zenoh_backend/parameters.rs:198-255 | names that were not sent are seen as before |
| Parameters.InitialStoresAgreeIff | src/node.rs:681-692 | both backends start from the same store iff `use_sim_time` is not declared or last declared false |
| Parameters.ClockValuesIff | src/zenoh_backend/parameters.rs:135-152 | a DDS node takes exactly Booleans for `use_sim_time`, the Zenoh server any value |
| NodeGraph.ContextInner.UpdateNode | src/context.rs:399-407 | the entry of the node is replaced, with the discovery writer added, and everything is broadcast |
| NodeGraph.ContextInner.RemoveNode | src/context.rs:410-413 | the entry is removed and everything is broadcast |
| NodeGraph.ContextInner.BroadcastNodeInfos | src/context.rs:391-422 | the broadcast lists each entry of the table exactly once |
| NodeGraph.Node.GenerateNodeInfo | src/node.rs:897-914 | exactly the readers, and the writers with parameter events and rosout, each once |
| NodeGraph.Node.SuppressNodeInfoUpdates | src/node.rs:916-925 | ending the suppression publishes the node, starting it publishes nothing |
| NodeGraph.Node.AddReader | src/node.rs:927-932 | a reader is added, and published unless updates are suppressed |
| NodeGraph.Node.AddWriter | src/node.rs:934-939 | a writer is added, and published unless updates are suppressed |
| NodeGraph.Node.Drop | src/node.rs:1736-1748 | the entry of the node is withdrawn |
| NodeGraph.RunKeepsInv | src/context.rs:391-422 | in runs with distinct names every published node has its current entry, every entry has its live node, and the last broadcast lists the table |
| NodeGraph.LiveNodeIsBroadcastOnce | src/node.rs:897-939 | a live node that is not suppressed has exactly one entry in the last broadcast, with exactly its readers and writers and no duplicates |
| NodeGraph.NodeHistory | src/node.rs:916-939 | over any run a live node has the name it began with and exactly the readers and writers added to it since |
| NodeGraph.BroadcastNamesLiveNodes | src/node.rs:1736-1748 | every entry is that of a live node; none is left of a dropped one |
| NodeGraph.NamesakeLosesItsEntry | src/context.rs:410-413 | distinct names are needed: dropping one of two namesakes withdraws the entry of the other |
| WireTime.TimeRoundTripIff | src/builtin_interfaces.rs:84-167 | a time comes back from the wire iff its floor-second fits an i32, and its wire form is then floor and remainder |
| WireTime.OverflowIff | src/builtin_interfaces.rs:142-164 | the conversion overflows iff the time has a fraction and lies below the bottom second |
| WireTime.TimeSaturates | src/builtin_interfaces.rs:121-164 | out of range the seconds saturate and the fraction is kept |
| WireTime.WireRoundTripIff | src/builtin_interfaces.rs:84-167 | a pair comes back iff its nanoseconds are less than 10^9 |
| WireTime.WireMeans | src/builtin_interfaces.rs:84-103 | a pair means its seconds and nanoseconds together, carried or not |
| WireTime.WireKeepsOrder | src/builtin_interfaces.rs:84-167 | the conversion preserves and reflects order |
| WireTime.DurationRoundTripIff | src/builtin_interfaces.rs:244-310 | a duration comes back iff it fits and is not negative with a fraction, or is the value that overflow saturates to |
| WireTime.NegativeFractionIsOff | src/builtin_interfaces.rs:283-298 | a negative duration with a fraction comes back two seconds too large |
| WireTime.DurationSaturates | src/builtin_interfaces.rs:255-298 | above the range the largest pair, below it the smallest |
| WireTime.TicksAreFloor | src/ros_time.rs:115-135 | RTPS ticks convert to the floor of the exact nanoseconds, with no overflow on the way |
| WireTime.SpecialTicks | src/ros_time.rs:119-122 | the two special timestamps are refused, each with its own error, and no others are |
| WireTime.TicksMonotone | src/ros_time.rs:115-135 | a later timestamp never gives an earlier time |
| WireTime.EveryNanosecondHasATick | src/ros_time.rs:115-135 | every nanosecond of the range is the time of some tick |

## Left out

- The contents of goals, feedback and results; only goal ids and their states are modelled.
- `publish_statuses` as a step of the interleaving: it reads the goals and changes nothing.
- Liveness of concurrent `send_result_response` calls: a waiting task does not look at the buffered
  requests again, so only safety is stated.
- The order in which `receive_cancel_request` lists goals: the offered goals are a set, and
  ActionServer.OfferIsHonoured holds for any order.
- Concurrent `set_parameter` of node and Spinner: check and insert use separate locks, so the parameter
  model is sequential. A failing application-defined action may have had effects of its own.
- Floating-point parameter values are bit patterns; their comparison and arithmetic are not modelled.
- The type, list and describe requests of the parameter server: direct queries over the store.
- Timestamps and node names inside parameter events.
- The order of readers and writers inside an entry and of entries inside a broadcast: the theorems hold
  for any order.
- `service_type_description`, `rihs01` and the constructors of field types: they assemble the inputs and
  hash the output of the printer.
- Topic key expressions, type names and their DDS forms, `steady_time`, `ROSDuration` arithmetic.
- Services.OneReplyWithOwnId: the loop of a client over its replies is not modelled; a reply counts once
  it has been handed to its query.
- Services.RequestIdsDistinct: holds while no client has issued more than 2^64 requests; after that its
  sequence numbers repeat.
- Keyexpr.KeysDistinct: holds for up to 2^64 creations; after that entity ids repeat.
- Names.ActionRefused: one concrete node; the exact condition is in Names.ActionNamesAgree.
- The DDS request headers (`Basic` and `Cyclone` wrappers) and the DDS client's sequence counter.
- Sessions, configuration, logging, discovery of external nodes and code generation.
