# Verification of the ros2 prototype's messaging core

A Dafny model of the parts of the repository that carry messages and keep track of who publishes what, with
proofs about them. `dafny verify dfyconfig.toml` checks the whole project.

The repository's code is imperative, and so is the model where it changes state: `TransportTCP.Transport`,
`PollSets.PollSet`, `TopicManagement.TopicManager`, `Registration.MasterRegistration`, `Masters.Master`,
`Masters.NodeInfo`, `HeaderCodec.Header` and `Handshake.TCPPublish` are classes with the fields and the methods of
the originals.
Each method is proved to have the effect of a function on values (a step of the sender, of the receiver, of the
poll state machine, of the topic manager, ...), and the results about whole runs are lemmas about those functions.

What is modelled, and the main result of each part:

* **Framing** (`Wire`, `Framing`, `Sender`, `Receiver`, `Channel`, `Schedule`, `Progress`, `Pitfalls`,
  `RateFilter`, `TransportTCP`). Messages are sent as a 4-byte count and, per frame, a 4-byte size and the payload
  (host byte order, taken as little-endian). Two resumable machines are joined by a byte FIFO, and every system
  call may move any number of bytes. The completion tests do not check that a size field is complete, so not
  every schedule is safe. The condition for a safe one is exact: over whole runs, every byte is accounted for in
  every state iff no size read stops after k < 4 bytes of a size that 256^k divides and every empty frame's size
  goes out in one write. On such runs, messages delivered are a prefix of the messages enqueued, each non-empty
  step brings delivery closer by the bytes it moves, and everything enqueued can be delivered. Where no size is a
  multiple of 256 no condition is needed. Two concrete runs show what goes wrong otherwise.
* **PollSet** (`PollModel`, `PollSets`). A state machine at the granularity of the locks, in which other threads
  and callbacks may add, delete and change sockets between any two steps. Error events reach only the registration
  that was polled; the array given to `poll` is always current; a persistent error is held back at most once.
  A readable or writable event, unlike an error, can reach the next owner of a reused descriptor. The condition is
  exact: within an update a call goes to the registration that was polled iff no deletion of its descriptor took
  effect between building the array and fetching its entry.
* **Remapping** (`Ordering`, `Topics`, `Refreshing`, `TopicRuns`, `TopicPitfalls`,
  `TopicManagement`). The operations of
  TopicManager on its four maps, with assertions compiled in (`Debug`) and without (`Release`). `refreshRemaps`
  rewrites one name at a time. Without assertions it leaves names and live topics in step iff the rewriting is
  *clean*: no name moves to the new topic of an earlier name or to the old topic of a later one. With assertions
  it finishes iff no publication's topic changes (the check at line 183 compares with a copied map and so always
  fails) and the subscriptions are clean and also pass the check at line 81. Per-operation guards are exact, for
  one operation and for whole runs. Runs from the start show each failure: a changed publication that stops the
  process, two exchanged topics that leave a name without its topic, a subscription refused for a free topic.
* **Master** (`Registration`, `Registry`, `Masters`, `Agreement`). The two-way index of nodes and topics, the
  commutation of requests about different (node, topic, role) triples, and the agreement between what the master
  answers and what the nodes publish, after any runs of any nodes; a new subscriber then contacts exactly the
  publishers, each once, at the port its URI was made from.
* **Header codec** (`HeaderCodec`). `write` and `parse` with the exact condition for the round trip.
* **Connection lifecycle** (`CloseOnce`, `Handshake`). `close` from any number of threads and callbacks, and the
  options handshake of an accepted publisher connection, at the granularity of the transport's and the publisher's
  locks.

Conventions: a byte string is `seq<byte>`; the 32-bit counters wrap where the code lets them. A failed assertion,
`ROS_BREAK`, `vector::at` out of range and the use of a null pointer or an end iterator end the process; the model returns
`Aborted`, `Stopped(...)` or `ok == false` there. `std::map` iterates in the lexicographic order of `Ordering`.

## Model

| member | source | states |
|---|---|---|
| Wire.DecodeEncodeMessage | src/transport_tcp.cpp:765-861 | a whole-message decoder, written without the counters, gets any valid message back from its encoding and leaves what follows |
| Wire.DecodeMessageSound | src/transport_tcp.cpp:863-965 | conversely, whatever that decoder accepts is a valid message whose encoding is exactly the bytes taken |
| Wire.DecodeEncodeStream | src/transport_tcp.cpp:863-965 | the same for a stream of messages followed by an incomplete one |
| Wire.StreamPrefix | src/transport_tcp.cpp:863-965 | the format is prefix-free: an encoding that starts another's stream encodes a prefix of its messages |
| Sender.WriteExact | src/transport_tcp.cpp:765-861 | one writeMessage keeps the sender's invariant, and bytes written plus bytes remaining are conserved iff the write is not a short one of an empty frame's size |
| Sender.FinishFrameEffect | src/transport_tcp.cpp:839-860 | finishing a frame drops exactly the part of the front message that is still unsent (nothing, unless its size field is unfinished), and disables writing with the last message |
| Sender.SendKeeps | src/transport_tcp.cpp:967-997 | sendFrames queues a valid message with its whole encoding still to go and keeps write interest in step with the queue |
| Sender.PlainKept | src/transport_tcp.cpp:765-861 | a queue without frame sizes divisible by 256 stays one |
| Sender.FailedPayloadWrite | src/transport_tcp.cpp:826-836 | a failed payload write closes the transport, and its -1 is added to the counter as 2^32 - 1 |
| Receiver.ReadExact | src/transport_tcp.cpp:863-965 | one readMessage never aborts, keeps the receiver's invariant, and accounts for the bytes it took iff the read is good |
| Receiver.ReadSizeIs | src/transport_tcp.cpp:916-956 | a read in the size field closes the frame iff the size field's bytes so far, the rest being zero, are zero |
| Receiver.ClosesOnZeroCount | src/transport_tcp.cpp:896-905 | bytes that arrive can close the connection only by completing a frame count of zero |
| Receiver.HeldIncomplete | src/transport_tcp.cpp:863-965 | the part of a message held between calls is never a complete encoding |
| Receiver.RefinesDecoder | src/transport_tcp.cpp:863-965 | the incremental reader is the whole-stream decoder applied to the bytes taken in |
| Receiver.DeliversAtMostOne | src/transport_tcp.cpp:952-963 | one call hands over at most one message, after those handed over before |
| Channel.WriteKeeps | src/transport_tcp.cpp:765-861 | a write step keeps the account between the two ends iff it is good |
| Channel.ReadKeeps | src/transport_tcp.cpp:863-965 | a read step keeps the account between the two ends iff it is good |
| Channel.StepKeeps | src/transport_tcp.cpp:765-997 | every good step (send, filter change, write, read, failure, close) keeps the invariant |
| Channel.RunKeeps | src/transport_tcp.cpp:765-997 | the invariant over every good run |
| Channel.InvPrefix | src/transport_tcp.cpp:765-997 | in every state with the invariant the delivered messages are a prefix of the enqueued ones, and all of them when queue and wire are empty |
| Channel.EndToEnd | src/transport_tcp.cpp:765-997 | on every good run the process does not abort and messages delivered are a prefix of those enqueued, frame for frame and byte for byte; they are equal, with nothing held, once queue and wire are empty on an open connection |
| Channel.FailedReadCloses | src/transport_tcp.cpp:467-504 | a failed read closes the receiver and delivers nothing |
| Channel.ClosedIsFinal | src/transport_tcp.cpp:467-537 | after a close nothing more is written, or nothing more read and delivered, on any run |
| Schedule.InFlight | src/transport_tcp.cpp:893-943 | the message being read is the next one enqueued, with its frame count and its frames so far |
| Schedule.SizeFieldValue | src/transport_tcp.cpp:916-943 | with k bytes of a size n present the size field holds n mod 256^k |
| Schedule.SizeCondition | src/transport_tcp.cpp:916-956 | a size read that ends after k bytes of n closes the frame iff 256^k divides n, and is good iff k = 4 or it does not |
| Schedule.EveryReadGood | src/transport_tcp.cpp:916-956 | every non-empty read of a size field is good iff 256 does not divide the size |
| Schedule.PlainRun | src/transport_tcp.cpp:765-997 | without sizes divisible by 256 every schedule of non-empty reads and arbitrary writes is good |
| Schedule.GoodRunExact | src/transport_tcp.cpp:765-997 | over whole runs every byte is accounted for in every state iff the run is good |
| Schedule.ChunkingInvisible | src/transport_tcp.cpp:863-965 | two receivers that took in the same bytes delivered the same messages, namely the decoder's |
| Progress.WriteMoves | src/transport_tcp.cpp:774-860 | a good write of w > 0 bytes keeps the connection open and lowers the distance by exactly w |
| Progress.ReadMoves | src/transport_tcp.cpp:884-963 | a good read of w > 0 bytes keeps the connection open and lowers the distance by exactly w |
| Progress.Drain | src/transport_tcp.cpp:765-965 | from every open state some good run of at most distance many steps delivers everything enqueued |
| Progress.RunBound | src/transport_tcp.cpp:765-965 | no good run of non-empty steps is longer than the distance, and one that uses it up has delivered everything |
| Pitfalls.EarlyCloseDelivers | src/transport_tcp.cpp:952-963 | a frame of 256 bytes whose size is first read one byte short is delivered as an empty frame |
| Pitfalls.ShortWriteLoses | src/transport_tcp.cpp:839-860 | an empty frame whose size is written one byte short leaves the queue with three bytes unsent |
| RateFilter.FilterSamples | src/transport_tcp.cpp:976-980 | after setFilter(k), call number i enqueues iff k divides i, in order |
| RateFilter.FilterCount | src/transport_tcp.cpp:1009-1014 | after setFilter(k), n calls enqueue exactly ceil(n/k) messages |
| RateFilter.UnfilteredSends | src/transport_tcp.cpp:976-980 | until a filter is set every message is enqueued, in order |
| RateFilter.FilteredRun | src/transport_tcp.cpp:967-1014 | a connection that sets a filter of k accepts exactly every k-th message from then on, starting with the first |
| TransportTCP.Transport.Close | src/transport_tcp.cpp:421-465 | a second close changes nothing; the first takes the socket out of the poll set and calls the disconnect callback once |
| TransportTCP.Transport.EnableRead | src/transport_tcp.cpp:539-557 | poll interest and expecting_read_ change together, and only on an open transport |
| TransportTCP.Transport.DisableRead | src/transport_tcp.cpp:559-577 | the same when interest is given up |
| TransportTCP.Transport.EnableWrite | src/transport_tcp.cpp:579-597 | poll interest and expecting_write_ change together, and only on an open transport |
| TransportTCP.Transport.DisableWrite | src/transport_tcp.cpp:599-617 | the same when interest is given up |
| TransportTCP.Transport.Read | src/transport_tcp.cpp:467-504 | any count up to what was asked for and INT_MAX, or -1 with the transport closed |
| TransportTCP.Transport.Write | src/transport_tcp.cpp:506-537 | any count up to what was offered and INT_MAX, or -1 with the transport closed |
| TransportTCP.Transport.WriteMessage | src/transport_tcp.cpp:765-796 | the method is the sender's step, keeps the poll entry in step, and aborts only where the sender does |
| TransportTCP.Transport.WriteFrame | src/transport_tcp.cpp:798-861 | the method is the sender's frame step |
| TransportTCP.Transport.ReadMessage | src/transport_tcp.cpp:863-911 | the method is the receiver's step, and aborts only without enableMessagePass or where the receiver does |
| TransportTCP.Transport.ReadFrame | src/transport_tcp.cpp:913-965 | the method is the receiver's frame step |
| TransportTCP.Transport.SendFrames | src/transport_tcp.cpp:967-997 | the method is the sender's enqueueing step; on a valid transport a valid message, of any number of frames, never aborts and keeps queue, expecting_write_ and POLLOUT in step |
| TransportTCP.Transport.SendMessage | src/transport_tcp.cpp:999-1007 | on a valid transport a one-frame message never aborts and keeps the transport valid |
| TransportTCP.Transport.SocketUpdate | src/transport_tcp.cpp:646-707 | on a valid transport no event and no result of a system call aborts the process; a readable event that is expected is exactly one receiver's step on what recv returned, a writable one exactly one sender's step, an error closes, and nothing else changes; queue, expecting_write_ and POLLOUT stay in step and no other socket's entry changes |
| PollModel.StepKeeps | src/poll_set.cpp:65-252 | every step of updates, additions, deletions and event changes keeps the invariant |
| PollModel.ErrorsReachPolled | src/poll_set.cpp:189-251 | under every interleaving a function is called with an error flag only if it is the one that was registered when the descriptor was polled |
| PollModel.FetchExact | src/poll_set.cpp:189-214 | an entry is passed over iff nothing was reported on it or nobody is registered |
| PollModel.ServeExact | src/poll_set.cpp:216-246 | an error on a deleted descriptor is held back; otherwise the function is called iff an error or something watched was reported, once, and with exactly those flags |
| PollModel.ReportsArrive | src/poll_set.cpp:189-251 | every flag reported on a registration that watches it, and every error, is handed to it by the end of the update with all errors reported, on every interleaving, unless the registration or its interest is taken away or its descriptor was on the list of deleted ones |
| PollModel.SnapshotAgrees | src/poll_set.cpp:254-275 | in every reachable state in which an update can begin, the array handed to poll lists exactly the current descriptors and masks, although changing events never sets the change flag |
| PollModel.HeldBackOnce | src/poll_set.cpp:226-252 | from any reachable state, while a descriptor is not deleted, at most one error on it is held back, and none if it is not on the list |
| PollModel.HeldUnlessDeleted | src/poll_set.cpp:65-118 | from every state with numbers handed out in order, and after any run, a descriptor has kept its registration iff no deletion of it took effect |
| PollModel.ReadinessExact | src/poll_set.cpp:175-252 | for every update begun in a state with the invariant, so in any reachable one, and every interleaving within it: a call, with an error or without, goes to the registration that was polled iff no deletion of the descriptor took effect between building the array and fetching its entry |
| PollModel.StaleReadiness | src/poll_set.cpp:196-243 | a concrete run on which it does not: the new registration of a reused descriptor is called for the old one's readable event |
| PollModel.StaleByDeletion | src/poll_set.cpp:196-243 | that run meets the conditions of the exact result, and the deletion is what makes its call go astray |
| PollSets.PollSet.AddSocket | src/poll_set.cpp:65-89 | the method is the machine's step, and refuses a descriptor already there |
| PollSets.PollSet.DelSocket | src/poll_set.cpp:91-118 | the descriptor leaves the map and is put on the list of deleted ones |
| PollSets.PollSet.AddEvents | src/poll_set.cpp:121-138 | events are added to the entry, and to no other |
| PollSets.PollSet.DelEvents | src/poll_set.cpp:140-158 | events are taken from the entry, and from no other |
| PollSets.PollSet.CreateNativePollset | src/poll_set.cpp:254-275 | the loop over the map, always taken, builds an array that lists exactly the current entries, in descriptor order and with no event pending |
| PollSets.PollSet.Interfere | src/poll_set.cpp:65-158 | all calls of others are made, in order |
| PollSets.PollSet.Poll | src/poll_set.cpp:179-186 | what poll reports is recorded for each descriptor; there is something to serve iff poll succeeded and reported something |
| PollSets.PollSet.Update | src/poll_set.cpp:175-252 | whatever other threads and callbacks do between its lock regions, one update is a run of the state machine: it rebuilds the array, polls exactly that, and if anything was reported goes through every entry and then clears the list of deleted descriptors |
| Ordering.LexPrefix | src/topic_manager.cpp:207-215 | on the prefixes of one string, map order is length order |
| Ordering.LexDecides | src/topic_manager.cpp:177-188 | the first byte in which two strings differ decides their order |
| Ordering.LexExact | src/header.cpp:151-153 | the order is that of std::string: a proper prefix comes first, and otherwise the smaller byte where two strings part |
| TopicManagement.FirstIsShortest | src/topic_manager.cpp:207-215 | the first rule in map order that starts a name is the shortest that does |
| Topics.RemapIs | src/topic_manager.cpp:206-214 | the shortest rule that starts a name replaces just that start and keeps the rest |
| Topics.RemapNone | src/topic_manager.cpp:206-219 | a name that no rule starts stays as it is |
| Topics.RuleMapIs | src/topic_manager.cpp:148-151 | every find becomes a rule, with the last replacement given for it |
| TopicManagement.TopicManager.Remap | src/topic_manager.cpp:203-220 | the loop applies the shortest rule whose find is a prefix of the name, and otherwise returns the name |
| TopicManagement.TopicManager.RegisterPublication | src/topic_manager.cpp:54-62 | the method is the value-level operation, stops included; its call goes to the registration object, and stops the process where that does |
| TopicManagement.TopicManager.UnregisterPublication | src/topic_manager.cpp:64-75 | the method is the value-level operation, stops included; its call goes to the registration object, and stops the process where that does |
| TopicManagement.TopicManager.Subscribe | src/topic_manager.cpp:77-88 | the method is the value-level operation, with both checks in their order; its call goes to the registration object, and stops the process where that does |
| TopicManagement.TopicManager.UnregisterSubscription | src/topic_manager.cpp:41-52 | the method is the value-level operation, stops included; its call goes to the registration object, and stops the process where that does |
| TopicManagement.TopicManager.Publish | src/topic_manager.cpp:90-100 | the method is the value-level operation: register on first use, else compare, then send |
| TopicManagement.TopicManager.RefreshRemaps | src/topic_manager.cpp:172-200 | both loops over the copied maps are the value-level refresh |
| TopicManagement.TopicManager.SetRemap | src/topic_manager.cpp:165-170 | one rule is set, then everything refreshed |
| TopicManagement.TopicManager.SetRemappings | src/topic_manager.cpp:140-153 | the rules are replaced by the given ones, later ones winning, then everything refreshed |
| TopicManagement.TopicManager.Shutdown | src/topic_manager.cpp:15-27 | both loops over the copied maps are the value-level shutdown |
| Refreshing.ReleaseFinishes | src/topic_manager.cpp:172-200 | without assertions the loop always finishes, with every name at its remapped topic, the other role untouched and the master told |
| Refreshing.StatesConsistent | src/topic_manager.cpp:172-200 | as long as the names so far were clean, names and live topics are in step after every round and callbacks are the original ones |
| Refreshing.InStepIsClean | src/topic_manager.cpp:172-200 | a loop that ends in step was clean at every name |
| Refreshing.RefreshExact | src/topic_manager.cpp:172-200 | without assertions the loop ends with the maps in step iff it is clean, and then every subscription keeps its callback |
| Refreshing.SwapIsNotClean | src/topic_manager.cpp:176-185 | exchanging the topics of two names is never clean, whichever comes first |
| Refreshing.DebugSubscriptions | src/topic_manager.cpp:188-199 | with assertions the subscription loop finishes iff it is clean and no new topic is spelled like another subscribed name, and then does what it does without them |
| Refreshing.DebugPublications | src/topic_manager.cpp:176-185 | with assertions the publication loop finishes iff no publication's topic changes, because line 183 compares with the copy |
| Refreshing.RefreshTwice | src/topic_manager.cpp:172-200 | a second refresh changes nothing, in either build |
| TopicRuns.PublishExact | src/topic_manager.cpp:90-100 | publishing succeeds and keeps the invariant iff the name is known or its topic is free; the message goes to the remapped, live topic |
| TopicRuns.PublishCompares | src/topic_manager.cpp:93-97 | on every state, publishing under a known name stops at the comparison iff it is recorded under another topic and assertions are compiled in |
| TopicRuns.RegisterExact | src/topic_manager.cpp:54-62 | registering keeps the invariant iff its guard holds; it records the remapped topic, changes no other name or topic, and makes one call to the master |
| TopicRuns.SubscribeExact | src/topic_manager.cpp:77-88 | the same for subscribing, which also records the callback; the check against the names comes first |
| TopicRuns.UnregisterExact | src/topic_manager.cpp:41-75 | unregistering succeeds iff the name is known; its name and topic go, nothing else changes, and the master gets one call |
| TopicRuns.StepExact | src/topic_manager.cpp:15-200 | each operation keeps names, live topics, rules and the master's log in step iff its guard holds, and with assertions stops iff it does not |
| TopicRuns.RunExact | src/topic_manager.cpp:15-200 | a whole run stays in step in every state iff every guard on the way holds |
| TopicRuns.RunThenShutdown | src/topic_manager.cpp:15-27 | a guarded run followed by a shutdown has emptied all maps and told the master about each topic that was live |
| TopicRuns.EveryRun | src/topic_manager.cpp:96-197 | on every run, clean or not and in either build, the comparisons at lines 96 and 197 succeed and the calls made to the master describe exactly what is live |
| TopicRuns.ShutdownIs | src/topic_manager.cpp:15-27 | from every state in step shutdown succeeds, empties the four maps and appends exactly the farewell calls |
| TopicRuns.FarewellOnce | src/topic_manager.cpp:15-27 | the farewell calls name each live topic of a role once and nothing else |
| TopicPitfalls.ChangedPublicationStops | src/topic_manager.cpp:176-185 | with assertions, registering a name and then a rule that changes its topic stops the process at line 183 |
| TopicPitfalls.SwapBreaks | src/topic_manager.cpp:176-185 | without assertions, a run that registers two names and exchanges their topics finishes with the maps out of step |
| TopicPitfalls.SwapLosesTopic | src/topic_manager.cpp:90-100 | the next message published under the first of them uses a null pointer |
| TopicPitfalls.SwapStopsUnregister | src/topic_manager.cpp:64-75 | nor can that name be unregistered |
| TopicPitfalls.NameTakenNeedlessly | src/topic_manager.cpp:80-81 | a run on which a subscription to a topic nobody uses is stopped, because another subscribed name is spelled like that topic |
| Registration.UriRoundTrip | src/registration.hpp:183-186 | splitting a node's URI at the colon and converting the rest with atoi gives back the address and the port it was printed from |
| Registration.AtoiReads | src/registration.hpp:185-186 | the number conversion skips blanks, takes a sign and stops after the digits |
| Registration.UriExample | src/topic_manager.cpp:155-161 | the URI of port 80, byte by byte |
| Registration.UriInjective | src/topic_manager.cpp:155-161 | nodes on different ports have different URIs |
| Registration.ContactsCount | src/registration.hpp:180-196 | a publisher is contacted exactly as often as its URI is listed |
| Registration.MasterRegistration.MyURI | src/registration.hpp:145-150 | stops iff the URI was never set |
| Registration.MasterRegistration.RegisterSubscription | src/registration.hpp:95-104 | one call with the node's URI, or a stop if it has none |
| Registration.MasterRegistration.UnregisterSubscription | src/registration.hpp:114-121 | one call with the node's URI, or a stop if it has none |
| Registration.MasterRegistration.RegisterPublication | src/registration.hpp:123-130 | one call with the node's URI, or a stop if it has none |
| Registration.MasterRegistration.UnregisterPublication | src/registration.hpp:132-139 | one call, without a check of the URI |
| Registration.MasterRegistration.RegisterSubscriptionCb | src/registration.hpp:106-112 | the publishers in the reply are contacted |
| Registration.MasterRegistration.ContactPublishers | src/registration.hpp:180-196 | one request per listed URI, in order, to the address and port in it |
| Registry.LastDecides | src/master.cpp:117-135 | after any log a (node, topic, role) is related as its last request says |
| Registry.Reordering | src/master.cpp:29-65 | logs that agree on the order for each (node, topic, role) leave the same relations |
| Registry.Exchange | src/master.cpp:29-65 | neighbouring requests about different triples can change places |
| Masters.IndexedToggle | src/master.cpp:117-135 | inserting or erasing on both ends keeps the index two-way |
| Masters.NodeInfo.Subscribe | src/master.cpp:117-120 | the node's and the topic's sets change together; the relation gains one pair |
| Masters.NodeInfo.Unsubscribe | src/master.cpp:122-125 | the node's and the topic's sets change together; the relation loses one pair |
| Masters.NodeInfo.Publish | src/master.cpp:127-130 | the node's and the topic's sets change together; the relation gains one pair |
| Masters.NodeInfo.Unpublish | src/master.cpp:132-135 | the node's and the topic's sets change together; the relation loses one pair |
| Masters.Master.RelHas | src/master.cpp:113-135 | a pair is related iff the node lists the topic iff the topic lists the node |
| Masters.Master.GetOrCreateNode | src/master.cpp:154-161 | one node per URI, created without any topic, relations unchanged |
| Masters.ListUris | src/master.cpp:67-72 | each node's URI once |
| Masters.Master.LookupPublishers | src/master.cpp:67-72 | each publisher's URI once and nothing else; only an empty topic entry may be added |
| Masters.Master.RegisterSubscription | src/master.cpp:29-38 | the relation gains one pair and the answer lists the publishers once each |
| Masters.Master.UnregisterSubscription | src/master.cpp:40-47 | the relation loses one pair; node and topic entries are created if missing |
| Masters.Master.RegisterPublication | src/master.cpp:49-56 | the relation gains one pair; node and topic entries are created if missing |
| Masters.Master.UnregisterPublication | src/master.cpp:58-65 | the relation loses one pair; node and topic entries are created if missing |
| Masters.Master.HandleAll | src/master.cpp:96-110 | serving an arrival log has the effect of the log on the relations |
| Agreement.RegisteredSelect | src/registration.hpp:95-139 | in one node's log of calls the last call about a topic decides whether it is registered |
| Agreement.MasterAgrees | src/registration.hpp:95-139 | after any runs of any nodes, in either build, and any arrival in per-topic order, the master relates a node to a topic iff it is live in that node |
| Agreement.Lookup | src/master.cpp:67-72 | a lookup then lists exactly the nodes with a live publication of the topic, each once |
| Agreement.Reply | src/master.cpp:29-38 | so does the reply to a subscription |
| Agreement.Discover | src/registration.hpp:95-112 | the reply makes a new subscriber contact exactly the nodes that publish the topic, each once, at the port in its URI |
| HeaderCodec.RoundTripExact | src/header.cpp:71-107 | a fresh header reads back what was written iff no key contains '=' and no entry is longer than 1000000 bytes |
| HeaderCodec.ParseEncode | src/header.cpp:71-107 | parsing a written map on top of another stores exactly it, whatever follows |
| HeaderCodec.SecondOverrides | src/header.cpp:71-107 | of two headers parsed one after the other the second overrides the first |
| HeaderCodec.ParseAny | src/header.cpp:74-104 | any line at the front of a buffer is refused iff it is too long or has no '=', leaving what was stored before; otherwise it is stored under what stands before its first '=' |
| HeaderCodec.EncodeExample | src/header.cpp:149-165 | one entry, byte by byte |
| HeaderCodec.Write | src/header.cpp:122-168 | exactly size bytes of a new buffer are filled with the encoding in map order; an empty map leaves the buffer alone |
| HeaderCodec.Header.ParseBuffer | src/header.cpp:71-107 | the loop over the buffer is the recursive parser, failures included |
| HeaderCodec.Header.GetValue | src/header.cpp:109-120 | found iff the key was stored, with its value |
| HeaderCodec.WriteThenParse | src/header.cpp:66-168 | writing and then parsing through the code gives the map back iff it is a good one |
| CloseOnce.RunKeeps | src/transport_tcp.cpp:421-465 | the invariant over every interleaving of any number of calls to close, nested or from several threads |
| CloseOnce.ClosesOnce | src/transport_tcp.cpp:421-465 | the socket is removed at most once and the disconnect callback fires at most once; after any call returned the socket is gone, after all did the callback taken has fired |
| CloseOnce.ClosedStays | src/transport_tcp.cpp:421-465 | after the first locked section nothing is removed, taken or opened again |
| CloseOnce.FiresIffSet | src/transport_tcp.cpp:421-465 | on every run in which a step closes the transport the callback has fired, once all calls are back, exactly once if it was set before that step, and otherwise not |
| CloseOnce.Returns | src/transport_tcp.cpp:421-465 | four moves of its own bring a call back, whatever the others do |
| Handshake.StepKeeps | src/pubsub_tcp.hpp:96-163 | every accept, message, close, disconnect callback and publish step keeps list, transports and set-up connections in step, and never aborts for a second set-up; a connection is listed from its acceptance until its disconnect callback has run |
| Handshake.RunKeeps | src/pubsub_tcp.hpp:96-163 | over every interleaving of the lock regions no connection is told to set up twice, none is set up twice, and messages go only to connections that were set up |
| Handshake.OptionsKeep | src/pubsub_tcp.hpp:112-149 | the message of an open connection is accepted iff it has one frame and, if the transport still exists, a positive filter; it then sets up exactly that connection |
| Handshake.DisconnectKeeps | src/pubsub_tcp.hpp:151-163 | the disconnect callback always finds its connection in the list, and takes it out |
| Handshake.AcceptTakesEffect | src/pubsub_tcp.hpp:96-110 | accepted while the publisher listens, a transport is listed last, open and read from |
| Handshake.MessageTakesEffect | src/pubsub_tcp.hpp:128-146 | a good options message sets its connection up, with its filter, and stops the reading |
| Handshake.CloseTakesEffect | src/pubsub_tcp.hpp:151-163 | a close leaves the disconnect callback to run, and that takes the transport off the list |
| Handshake.PublishesExactly | src/pubsub_tcp.hpp:34-71 | on every run, whatever happens between its steps: a publish that has worked through its list has handed its message, suitably compressed, once to each transport set up in the list when it began, and to no other |
| Handshake.AdvanceKeeps | src/pubsub_tcp.hpp:49-70 | a step of a publish stops the process iff it meets a set-up connection with an unknown compression |
| Handshake.StepsFinish | src/pubsub_tcp.hpp:49-70 | a publish without anything in between finishes iff every set-up connection asked for a known compression |
| Handshake.FirstDelivery | src/pubsub_tcp.hpp:34-149 | from the start: accept, options, publish hand the message over plain for compression 0, compressed for 1, and stop the process for any other |
| Handshake.TCPPublish.Accept | src/pubsub_tcp.hpp:96-110 | the method is the value-level step |
| Handshake.TCPPublish.Lookup | src/pubsub_tcp.hpp:130-133 | the search through the list ends at the first entry of the transport, or at the end |
| Handshake.TCPPublish.ReceiveOptions | src/pubsub_tcp.hpp:112-149 | the method is the value-level step, aborts included |
| Handshake.TCPPublish.Disconnect | src/pubsub_tcp.hpp:151-163 | the first entry of the transport, and no other, leaves the list |
| Handshake.TCPPublish.CloseLink | src/transport_tcp.cpp:421-465 | the first close marks the transport and runs the disconnect callback; a later one does nothing |
| Handshake.TCPPublish.Send | src/pubsub_tcp.hpp:34-71 | the loop over the copied list, with its switch over the compression, is the run of the publish and its steps, abort included |
| Handshake.TCPPublish.Shutdown | src/pubsub_tcp.hpp:81-94 | closing the transports of a copy of the list leaves every transport closed, none listed but those whose disconnect callback was already pending, and the listening transport closed |

## Left out

- Socket set-up, name resolution, socket options, `accept` and the poll emulation of `src/io.cpp`: calls into the operating system. `recv`, `send` and `poll` may return anything; a `recv` of 0 bytes (peer closed) and a failure are both `Lost`, a would-block result is a count of 0.
- Frame buffers are values, not shared arrays: a sender that changes a buffer after handing it over is not modelled, and a freshly allocated buffer reads as zeros.
- A `Frame` offered for sending has a size below 2^32 and that many bytes; a frame vector has fewer than 2^32 elements.
- Calls made from inside the message callback (sending, closing) are not interleaved with the rest of the same `readFrame`; the callback is a log entry.
- TransportTCP.Transport.SocketUpdate: does not model the branch for listening sockets, because accepting is an operating system call, nor read and write callbacks other than those of enableMessagePass.
- TransportTCP.Transport.Close: sequential in the class; concurrent and nested calls are in `CloseOnce`. `shutdown` and `close_socket` on the descriptor are left out.
- The signal pipe of PollSet is an ordinary entry; waking the poll thread is left out, and so are time-outs other than by a poll that reports nothing.
- Every registration has a callback, so the null test on `func` is left out; the transport kept alive during dispatch is memory management.
- Deadlock freedom and the order of `close_mutex_` and `message_mutex_`: steps are atomic at the granularity of the locks.
- `Publication` and `Subscription` are a topic and a callback; their transports, and what the callback of `registerSubscription` does with the publishers it is told about, are left out.
- A name's record when the process stops is not modelled: a stopped run has no state.
- Handshake.TCPPublish.ReceiveOptions: the deserialised options are a parameter, and so is whether the transport still exists. The assertion of setFilter is compiled in; without it a filter of 0 divides by zero later.
- Handshake.TCPPublish.Send: compressing is tagging the message; the cached compressed copy is left out.
- Handshake.TCPPublish.Shutdown: sequential in the class; the lock regions of concurrent closes, callbacks and publishes are the steps of `Handshake.Step`.
- ROS serialization, snappy, the ZMQ transports, logging, `printState`, `MessageQueue`, `StaticRegistration` and the `main` programs: libraries and plumbing.
- `Master::NodeInfo::~NodeInfo` and the lifetime of `ServiceResponseT`: memory lifetime.
- HeaderCodec.Header.ParseBuffer: does not model truncated buffers, on which the source reads past the end; lengths are required to stay inside the buffer.
- Registration.UriRoundTrip: does not model the overflow of `atoi`, because ports are far below it.
- HeaderCodec.Write: does not model maps whose total size reaches 2^32: the 32-bit size wraps and the buffer is too small for what is then written.
- HeaderCodec.WriteThenParse: the same restriction.
- The RPC layer (`src/service.hpp`): calls of one node to the master are a log, and arrivals any sequence that keeps the order per topic.
