# Chatster, modelled and proved

Chatster is a chat server written in Go with a React client. Clients connect over WebSocket to a room; a hub fans
messages out to bounded per-client queues; messages are stored in SQLite or Postgres and read back page by page;
several server instances may share a Redis broker; signed cookies say who may enter which room. This project models
the parts of that system with real invariants and proves them for every input, every interleaving and every run.

`dafny verify dfyconfig.toml` checks the whole project. Each file is one module.

| part | modules | main results |
|---|---|---|
| hub, clients, drain | `HubRegions`, `HubObjects`, `Lifecycle`, `Delivery`, `Broadcasts`, `Frames`, `Messages` | no drain wakeup is lost, `Shutdown` returns nil only when everything is drained, gap-free delivery, room isolation |
| history | `Store`, `History`, `Handler`, `Chains`, `Walks`, `Misdated` | walks never repeat or miss a row while the table changes; as long as old rows stay the pages are exactly the history; nothing is shown to anyone not let into the room |
| web client | `Merge`, `View`, `Scrollback` | nothing shown twice, nothing lost, stale pages never merged, and with live traffic and replay a complete reading shows the whole history in order |
| fan-out | `Envelopes`, `Broker`, `Dedupe`, `Fanout` | no echo, authenticity, at most once within the window, namespaces never mix, and what is not lost reaches everybody |
| cursors and sessions | `HistoryCursor`, `Principals`, `SessionCookie`, `Session` | parser and printer round trips, size bounds, the exact lifetime and the exact grants of a session |
| migrations | `Migrations` | the ledger is always a prefix of the list under crashes and concurrency |
| text | `Text`, `Seqs`, `Rooms`, `Digits`, `Json`, `Utf8`, `Base64`, `Clock`, `Sizes`, `Samples` | the encodings the codecs are made of, each with its round trip and at concrete values; what every name normalises to |

How the system is modelled:

- The hub is an interleaving system. A step of `Lifecycle` is one mutex-protected region or one channel operation of one
  thread: a read loop, the hub loop, the leave worker, the broker loops or the drain coordinator. `Delivery` adds messages to the
  same steps (`Delivery.StepProjects` ties the two together). What each region does to the shared state is defined once, in
  `HubRegions`; `HubObjects` holds the mutable hub and client whose methods are proved to do that, and
  `Broadcasts.FanStepsAreBroadcast` shows that the fan-out steps of the model do what `Hub.Broadcast` promises.
- The history theorems hold for any sort key, so for the timestamp order of Postgres and for the coarser `julianday` order of
  SQLite, where a row may have no key at all, and for any cursor codec that is faithful; `Walks.CursorsAreFaithful` shows that
  the real one is.
- The client of `Scrollback` may receive anything at any time: live frames with any id, the rows the server replays, notices, first
  pages after a reconnection, older pages and failures. Only tickets and cursors relate one request to the next.
- JSON is decoded by an arbitrary function. Theorems about what is accepted hold for every such function; round trips hold for every
  one that reads back what the server prints, as `encoding/json` does, and `HistoryCursor.ReadBytesReadsBack`,
  `Broker.ReadBytesReadsBack` and `SessionCookie.ReadBytesReadsBack` show that one exists for each of the three records.
- A clock reading, a random value, the broker's and the database's answers, and what the rate limiter says are inputs.
  SHA-256 and HMAC (section 2 of RFC 2104) are arbitrary functions to 32 bytes. Event ids never repeat.

Where the code and its documentation differ, the model follows the code:

- A message whose save failed is still published (backend/client.go:282-291; docs/adr/0008-storage-repository-boundary.md:81
  says it is not), with the id and the time its frame carried. `Frames.LooksDurableExactlyWhen` gives the exact condition
  under which such a message looks stored, beside `Frames.OutcomeConditions` for the six outcomes of a frame, and
  `Frames.UnsavedMessageCanLookDurable` gives an input.
- The memory of broker events is bounded by count, first in first out, with no time limit (backend/hub.go:348-352;
  docs/adr/0009-cross-instance-room-event-contract.md:74 says TTL-limited). `Dedupe.NewExactlyWhen` says when a copy is accepted again.
- A SQLite row whose timestamp text cannot be parsed is reported with the time of the request (backend/db/database.go:403-405), which
  breaks the row's cursor. `Misdated.CursorIsRightExactlyWhen` says when a cursor is right, `Misdated.StuckExactlyWhen` when a page is
  answered with itself again, at any two times, and `Misdated.StuckAtOneTable` shows it at a concrete table. A text the
  database cannot read either gives a row without a key, which no later page ever shows (`Misdated.UnkeyedRowsAreLost`). The layout
  without a zone is parsed as local time while `julianday` takes it as UTC; where the two differ the same conditions apply.
- After a reconnection the client offers older messages again from the newest page, so rows may move while a second
  reading is under way. `Scrollback.CompleteReadingExactlyWhen` says exactly when they are in order at its end.

## Model

| member | source | states |
|---|---|---|
| `Lifecycle.StepKeepsInv` | backend/hub.go:422-570 | every step of every thread keeps the lifecycle invariant: who is registered, who has reported, who is waited for, and where every leave notice is |
| `Lifecycle.PendingIsPartitioned` | backend/hub.go:497-552 | in every reachable state the coordinator's map is the disjoint union of the clients not yet reported, those taken out but not yet sent, and those in the channel, each once; the counter is its size |
| `Lifecycle.SnapshotIsTheUnreported` | backend/hub.go:497-518 | a drain waits for exactly the registered clients whose read loop has not reported, in any interleaving of unregister, finish and drain |
| `Lifecycle.SendNeverBlocks` | backend/hub.go:433-440 | the event channel sized to the snapshot always has room for a reporting read loop |
| `Lifecycle.EveryEventCounts` | backend/hub.go:535-544 | the coordinator never skips an event: each receive counts one client it still waits for |
| `Lifecycle.DrainCanComplete` | backend/hub.go:422-552 | no wakeup is lost: from every reachable waiting state the drain can complete without its deadline |
| `Lifecycle.ShutdownCanSucceed` | backend/hub.go:390-407 | from every state of a run before the deadline, through the wait for the broker loops, read loops, fan-out, leave worker and coordinator, `Shutdown` can still return nil |
| `Lifecycle.ShutdownNilMeansDrained` | backend/hub.go:486-570 | nil is returned only if every snapshot client finished, no event is left, the hub stopped with no clients, and every accepted leave notice had exactly one storage attempt in queue order |
| `Lifecycle.ShutdownErrorMeansDeadline` | backend/hub.go:545-568 | an error is returned only after the deadline |
| `Lifecycle.AcceptedAreDepartures` | backend/hub.go:133-173 | in every run the notices the leave queue took are exactly one "NAME left the chat" notice for each named client the hub removed while fewer than 256 were waiting, in order; anonymous clients and every other step give none |
| `Lifecycle.RemovedExactlyWhen` | backend/hub.go:133-139 | a registered client is removed, from both sets, by exactly its disconnection, its eviction, or the beginning of a drain |
| `HubObjects.Client.Enqueue` | backend/client.go:101-116 | appends exactly when the client is open and its queue has room, and otherwise changes nothing |
| `HubObjects.Hub.RegisterClient` | backend/hub.go:101-112 | a draining hub refuses; otherwise exactly this client is added |
| `HubObjects.Hub.DisconnectClientLocked` | backend/hub.go:133-155 | a registered client is removed from both sets and closed and its leave notice queued as the shared rule says; an unknown client changes nothing |
| `HubObjects.Hub.NotifyClientFinished` | backend/hub.go:422-440 | marks the client finished and says whether the coordinator is owed an event |
| `HubObjects.Hub.BeginDrain` | backend/hub.go:497-514 | the collected list is duplicate-free and holds exactly the registered, unfinished clients; the hub is emptied |
| `HubObjects.Hub.Broadcast` | backend/hub.go:461-474 | in any order of the clients: each client of the room gets the message or is evicted, every other client is untouched, and the hub's state is that of evicting exactly the refused ones, one after the other |
| `Broadcasts.FanStepsAreBroadcast` | backend/hub.go:461-474 | the fan-out steps of the interleaving model, in any order, evict and serve exactly as `Hub.Broadcast` promises |
| `Broadcasts.FanConnIs` | backend/client.go:101-125 | a fan-out step does to a connection's queue and its closed flag what the method does to the client object |
| `Delivery.StepProjects` | backend/hub.go:442-478 | every delivery step is a lifecycle step or leaves the lifecycle alone, so both sets of results hold of one run |
| `Delivery.RoomIsolation` | backend/hub.go:461-468 | over every run everything ever queued to a client (rows replayed from any table, welcome, notices, live and remote messages) carries its own canonical room, and the empty room that matches everybody is never fanned out |
| `Delivery.PublishedInOrder` | backend/hub.go:250-275 | first in first out: in every run the messages published by frames, joins, announcements and other instances, in the order of those steps, are those fanned out, then the one held, then those waiting |
| `Delivery.GapFreeDelivery` | backend/hub.go:461-474 | what a client's queue took from the fan-out is exactly its room's part of one contiguous stretch of the hub's dequeue order, from registration to removal; what was written is a prefix of what the queue took |
| `Delivery.FanExactly` | backend/hub.go:463-473 | a client of the room with fewer than 256 messages waiting gets the message last; only one whose queue is full or closed is removed; a client of another room is left alone |
| `Delivery.AsideExactly` | backend/hub.go:572-616 | the replayed row, the welcome and the rate-limit notice, word for word, go last in the one client's queue if it has room, and nowhere else |
| `Delivery.ConnectExactly` | backend/server.go:130-158 | a connection has the room asked for in normal form and the identity given, is registered unless the hub is draining, and starts with an empty queue |
| `Delivery.ProfileFollowsFrames` | backend/client.go:232-258 | in every run a client's room, name and identity are those it connected with, changed by its own frames and nothing else |
| `Delivery.ClosedExactlyWhen` | backend/client.go:118-137 | a connection is closed by exactly its removal, its eviction, the drain, a failed write or the connection itself, and stays closed |
| `Frames.Reader.ReadFrame` | backend/client.go:232-294 | one frame has exactly the outcome of the frame rules, and changes only the name, only by a rename; what the outcome is made of is `Frames.PublishedIsTheFrame` |
| `Frames.Reader.ReadMessages` | backend/client.go:210-295 | a whole frame sequence: one outcome per frame, each from the profile left by the frames before |
| `Frames.IdentityIsFixed` | backend/client.go:243-258 | over any frames room, user id and the authenticated flag never change and an authenticated client keeps its name |
| `Frames.PublishedIsWellFormed` | backend/client.go:277-291 | everything published has type "message", a trimmed body of 1 to 4000 runes, and the room and user id of the connection |
| `Frames.PublishedIsTheFrame` | backend/client.go:262-291 | the published text is the frame's text without the space around it, under the name the client has at that frame, with the id and time of the saved row or else of the frame |
| `Frames.RenameIsTheFrame` | backend/client.go:249-256 | a new name is the frame's text without the space around it |
| `Frames.NameIsTheLastRename` | backend/client.go:242-258 | the name a client has is that of its last accepted rename, or the one it connected with |
| `Messages.NoticeFields` | backend/hub.go:116-153 | the join, leave, welcome and rate-limit notices, field by field |
| `Frames.UnsavedMessageCanLookDurable` | backend/client.go:282-291 | an input whose save fails and whose published message looks stored |
| `Store.ReverseInPlace` | backend/db/database.go:413-416 | the two-index swap loop reverses the array |
| `Store.GetMessages` | backend/db/database.go:426-470 | the descending, limited query scanned and reversed gives the newest candidates in chronological order |
| `Store.ChronologicalLists` | backend/db/postgres.go:296-331 | the chronological list is ordered by key and id and holds exactly the rows |
| `Store.ListIsUnique` | backend/db/postgres.go:339-346 | there is only one such list, so the order is total |
| `Store.RecentExactly` | backend/hub.go:582-586 | the replay is the newest fifty rows of the room, oldest first |
| `Handler.MessagesHandler` | backend/server.go:197-282 | method, room, authorisation, limit, cursor, storage failure, fetch and trim, in the handler's order, answer as specified on the chronological list |
| `Handler.HistoryIsGuarded` | backend/server.go:205-214 | whatever the request, the cookie, the time and the table, every message returned is of a room the caller was authorised for |
| `Handler.AuthorisedIsAnswered` | backend/server.go:210-282 | an authorised request to working storage gets the answer the walk theorems are about |
| `Handler.RefusedExactlyWhen` | backend/server.go:199-214 | a call is refused for its method exactly when that is not GET, and by the session exactly when the room is valid and authorisation fails, with its reason |
| `Handler.PageExactlyWhen` | backend/server.go:216-282 | a page is returned exactly to an authorised call with a valid limit and cursor, only when the database answered, with the limit asked for, at most a hundred, fifty by default |
| `Handler.ConnectedIsProper` | backend/server.go:107-145 | every connection has a canonical, granted room, is authenticated exactly when sessions are required, and has the very identity of the session, which the broker's validation accepts |
| `History.FetchPage` | backend/server.go:243-282 | fetching one row more and trimming returns the newest `limit` candidates, says whether there are more, and derives the cursor from the oldest one shown |
| `History.LimitExactly` | backend/server.go:216-227 | fifty by default, refused below one, clamped to a hundred |
| `History.ContinuesExactlyWhen` | backend/server.go:229-241 | a request continues from a position exactly when it names one cursor that is accepted and is for the room asked for |
| `Walks.NoMessageTwice` | backend/server.go:243-282 | while rows are inserted and pruned between requests, no message id is returned twice in a walk |
| `Walks.LastingRowIsReturnedOnce` | backend/db/database.go:426-470 | a row present for the whole walk is returned exactly once by the time there is no more |
| `Walks.FixedWalkIsTheHistory` | backend/db/postgres.go:333-367 | over a table that does not change, the pages joined oldest first are the room's rows in order, for any limits and any key |
| `Walks.StableWalkIsTheHistory` | backend/server.go:243-282 | while newer rows come and go, as long as the rows below the first page stay, the pages joined are the room's rows as they were at the first request |
| `Walks.FixedWalkIsFinite` | backend/server.go:264-282 | over a table that does not change, a walk has at most one page more than the room has rows |
| `Walks.CompleteWalk` | backend/server.go:216-282 | from any room and any limit, following the cursors reaches a page without one |
| `Walks.HasMoreExactlyWhen` | backend/server.go:264-267 | a page says there is more exactly when the room has a row older than everything on it |
| `Walks.CursorsAreFaithful` | backend/history_cursor.go:29-74 | the real cursor codec satisfies what the walk theorems assume |
| `Misdated.CursorIsRightExactlyWhen` | backend/db/database.go:432-441 | a row's cursor continues correctly over every table whose other rows have keys if and only if the reported time has the row's sort key |
| `Misdated.UnkeyedRowsAreLost` | backend/db/database.go:435-439 | a right cursor continues correctly if and only if no row of the room lacks a key: NULL keys sort last and no continuation selects them |
| `Misdated.StuckExactlyWhen` | backend/db/database.go:402-407 | for any limit and any two request times, the second request returns the ids of the first page again if and only if its oldest row has a key and was reported with a time that sorts after the newest row |
| `Misdated.StuckExactlyWhenUnparsed` | backend/db/database.go:515-535 | read one at a time, the newest row is never passed if and only if its text is one the repository cannot parse but the database can, and the request time sorts after it |
| `Misdated.StuckAtOneTable` | backend/db/database.go:402-407 | a concrete table and two moments at which the endpoint answers message 2 with message 2 |
| `Merge.AppendUniqueMessages` | frontend/src/App.jsx:18-33 | the loop with its set of seen ids computes the specified merge |
| `Merge.AppendedNoRepeat` | frontend/src/App.jsx:18-33 | the result repeats an id exactly when the list merged into does |
| `Merge.AppendedIds` | frontend/src/App.jsx:18-33 | the ids shown are those already there and those received, no others |
| `Merge.AppendedUnnumbered` | frontend/src/App.jsx:18-33 | messages without an id are kept as often as they come |
| `Merge.AppendedDisjoint` | frontend/src/App.jsx:35-37 | lists that share no id are joined unchanged and in order |
| `Merge.AppendedAssoc` | frontend/src/App.jsx:18-37 | merging is associative, so putting an older page in front of the history is putting it in front of the older pages |
| `Merge.EarlyMakesNoDifferenceExactlyWhen` | frontend/src/App.jsx:18-37 | messages merged early leave the result as it would have been if and only if what they gave is a beginning of it |
| `View.App.LoadOlderMessages` | frontend/src/App.jsx:301-316 | a request starts only with a cursor and while none is shown as running, and captures version, room and cursor |
| `View.App.OlderMessagesArrive` | frontend/src/App.jsx:318-337 | a page is merged, or its failure recorded, only for the current request |
| `View.App.ResetHistory` | frontend/src/App.jsx:55-62 | clears the history, the cursor and the flags and outdates every request |
| `View.App.ChangeRoom` | frontend/src/App.jsx:250-260 | changing the room clears the history and outdates every request |
| `View.App.FirstPageArrives` | frontend/src/App.jsx:158-166 | a first page is merged at the end and sets the cursor only if there is none |
| `View.MergedExactlyWhen` | frontend/src/App.jsx:307-322 | in any run a page that arrives is merged if and only if no reset, room change or newer request came in between |
| `View.OfferedExactlyWithCursor` | frontend/src/App.jsx:162-165 | in every run older messages are offered exactly while there is a cursor to ask for them with |
| `View.NothingRepeatedNothingLost` | frontend/src/App.jsx:140-175 | for any interleaving of frames, pages and resets: no id is shown twice, every id received since the last reset is shown, and every message without id as often as received |
| `View.FailureShownExactlyWhen` | frontend/src/App.jsx:315-332 | in every run the error is shown exactly while the latest request has failed |
| `Scrollback.ReadingInOrder` | frontend/src/App.jsx:301-322 | in every state of every run over any tables: the pages merged are a walk in order and without a gap, derived from tickets and cursors alone; the next request continues it; no id is shown twice; and the history is the older pages and then everything else received, each message once |
| `Scrollback.LoadingExactlyWhen` | frontend/src/App.jsx:315-337 | in every run the client shows that it is loading exactly while its latest request is unanswered, but for a request rendered for a room already left, whose answer does not count |
| `Scrollback.CompleteReadingExactlyWhen` | frontend/src/App.jsx:152-175 | with live frames of any id and whatever was shown before, a complete reading shows the room's history as of its first page and then what came since and is not in it, if and only if what was shown before is a beginning of that |
| `Scrollback.CompleteReading` | frontend/src/App.jsx:152-175 | when the first page came first, a complete reading shows the room's chronological history and then the frames received since that are not in it |
| `Scrollback.ReplayFirst` | backend/hub.go:572-600 | the same when the server's replay, cut off anywhere, was faster than the first page |
| `Scrollback.ReadingCanComplete` | frontend/src/App.jsx:301-338 | a client that asks for older messages as long as they are offered comes to a complete reading |
| `Scrollback.LastingRowIsShown` | frontend/src/App.jsx:140-175 | whatever is inserted or pruned meanwhile, a row that was there for the whole reading is shown, once |
| `Envelopes.TokenFixesExactlyCanonical` | backend/internal/events/envelope.go:153-168 | token normalisation fixes exactly the canonical tokens |
| `Envelopes.TokenExactlyWhen` | backend/internal/events/envelope.go:153-168 | every name becomes its lower-cased core, if that is one to sixty-four small letters, digits, hyphens and underscores, and is refused otherwise |
| `Envelopes.UserIDExactlyWhen` | backend/internal/events/envelope.go:111-123 | user ids are one to 128 of the listed characters |
| `Envelopes.ValidExactlyWhen` | backend/internal/events/envelope.go:59-109 | an event is valid exactly when its message can be sent and its two identifiers are well formed, stated without the validator |
| `Envelopes.ChannelIsInjective` | backend/internal/events/envelope.go:126-136 | channel names are equal exactly for the same namespace and room |
| `Envelopes.HearsExactlyItsNamespace` | backend/internal/events/envelope.go:139-145 | a subscription pattern matches a room's channel exactly within its namespace |
| `Broker.EventRoundTrip` | backend/internal/events/envelope.go:22-39 | an event's JSON text reads back as the event, with or without a user id |
| `Broker.EventFields` | backend/hub.go:286-292 | an event carries each field of its message and gives the same message back |
| `Broker.PublishesExactlyWhen` | backend/internal/broker/redis.go:99-124 | which events are published, and on which channel with which payload |
| `Broker.AcceptsExactlyWhen` | backend/internal/broker/redis.go:175-192 | which packets are accepted as which event: schema, version, identifiers, sendable message and the channel of the room in the namespace |
| `Broker.SubscribeOnce` | backend/internal/broker/redis.go:157-196 | the receive loop hands on exactly the acceptable events, in order, and survives everything else |
| `Broker.AcceptedInOrder` | backend/internal/broker/redis.go:168-195 | the receive loop treats packets one after the other, in order |
| `Broker.AcceptedAlone` | backend/internal/broker/redis.go:175-194 | and hands on each exactly if it is accepted |
| `Broker.AcceptedExactlyInNamespace` | backend/internal/broker/redis.go:99-118 | what one instance publishes another accepts, unchanged, if and only if the namespaces agree |
| `Broker.SendableArrives` | backend/hub.go:277-297 | a message with a positive id and a time and proper fields is built, published and accepted as that same message by every instance of the namespace |
| `Fanout.PublicationIsSendable` | backend/client.go:277-291 | every chat message of a properly connected client and every saved join or leave notice, with a positive id and a time, is such a message |
| `Fanout.RemoteIsAnothersMessage` | backend/hub.go:307-338 | over every run what an instance queues from the broker was published as that message, once, by another instance of its namespace; its own echo never comes back |
| `Fanout.AtMostOnceInTheWindow` | backend/hub.go:307-354 | a second copy of an event is queued only after at least 4096 other events were accepted in between |
| `Fanout.MessageGetsAcross` | backend/hub.go:250-338 | when the broker loses nothing, from every state with room in the outbox there is one run, backlog first, after which every other live instance of the namespace has queued the message, unchanged and once |
| `Fanout.EventsNeverExceedPublications` | backend/hub.go:250-305 | an instance never hands the broker more events than it published messages |
| `Fanout.LocalCountIs` | backend/hub.go:267-270 | the publications counted are the messages of its own that the instance queued |
| `Fanout.QueuedExactlyWhen` | backend/internal/broker/redis.go:175-195 | the exact condition under which a delivered copy is queued |
| `Fanout.Endpoint.QueueBrokerMessage` | backend/hub.go:277-305 | an event is queued for the broker only for a durable, valid message and while the queue has room |
| `Fanout.Endpoint.PublishContext` | backend/hub.go:250-275 | a local message is queued for the room and then offered to the broker, exactly as in the system model |
| `Fanout.Endpoint.PublishNext` | backend/hub.go:367-381 | one turn of the publisher loop takes one event and sends it or loses it |
| `Fanout.Endpoint.HandleRemoteEvent` | backend/hub.go:307-338 | the method does exactly what the system model's delivery does, with the real cache |
| `Dedupe.SeenEvents.RememberBrokerEvent` | backend/hub.go:340-354 | the list is always the last 4096 accepted ids without duplicates, the set its elements, and an id is refused exactly when it is among them |
| `Dedupe.NewExactlyWhen` | backend/hub.go:343-352 | an id is accepted again exactly when at least 4096 were accepted since each earlier acceptance |
| `Dedupe.FewIdsAreAcceptedOnce` | backend/hub.go:340-354 | offers of at most 4096 different ids, however repeated, are accepted exactly once each |
| `Rooms.NormalizesExactlyWhen` | backend/db/database.go:473-499 | what every name becomes: a blank one "general", any other its lower-cased core if that is canonical, everything else refused |
| `Rooms.CanonicalExactlyWhen` | backend/db/database.go:481-498 | canonical names are one to thirty-two small letters, digits, hyphens and underscores that start with a letter or digit |
| `Rooms.NormalizeFixesExactlyCanonical` | backend/db/database.go:473-499 | room normalisation fixes exactly the canonical names and is idempotent |
| `Text.LowerRuneTable` | backend/db/database.go:474 | lower-casing on ASCII, letter by letter |
| `Text.SpaceTable` | backend/db/database.go:474 | the spaces of ASCII that trimming removes |
| `HistoryCursor.CursorRoundTrip` | backend/history_cursor.go:29-70 | every cursor handed out has at most 159 characters and decodes to the same room, time and id |
| `HistoryCursor.AcceptedCursorIsForTheRoom` | backend/history_cursor.go:72-74 | whatever its text, a cursor accepted for a room names exactly that room, despite the case-folding comparison |
| `HistoryCursor.EncodedIsAcceptedExactlyWhen` | backend/history_cursor.go:29-70 | the encoder's output is accepted exactly for a canonical room, a positive id and a set time |
| `HistoryCursor.DecodesExactlyWhen` | backend/history_cursor.go:42-70 | which texts are accepted as which cursor, for any decoder of JSON |
| `HistoryCursor.EncodesExactlyWhen` | backend/history_cursor.go:29-40 | the encoder fails exactly for years JSON cannot carry |
| `Samples.CursorText` | backend/history_cursor.go:22-27 | the text of a cursor, with its field names |
| `Samples.EventText` | backend/internal/events/envelope.go:22-39 | the text of an event, with its field names |
| `Samples.SessionText` | backend/internal/auth/session.go:97-105 | the text of a session, with its field names |
| `Samples.ShortEscapes` | backend/internal/broker/redis.go:113 | the short escapes of the JSON encoder |
| `Samples.LongEscapes` | backend/internal/broker/redis.go:113 | the HTML and line-separator escapes of the JSON encoder |
| `Samples.Utf8Vectors` | backend/internal/auth/session.go:342 | one rune of each encoded length |
| `Samples.Times` | backend/history_cursor.go:33 | a time in RFC 3339 with its fraction cut after the last digit |
| `Samples.Calendar` | backend/history_cursor.go:33 | leap years and the lengths of the months |
| `Samples.Base64Table` | backend/history_cursor.go:39 | the alphabet is table 2 of RFC 4648 |
| `Samples.Base64Vectors` | backend/history_cursor.go:39 | vectors of section 10 of RFC 4648 without padding |
| `Base64.NewlinesAreSkipped` | backend/history_cursor.go:47 | line ends in a text do not change what it decodes to |
| `Principals.NormalizePrincipal` | backend/internal/auth/session.go:417-446 | the loop with its set of seen rooms computes the specified normal form |
| `Principals.NormalizeFixesExactlyWellFormed` | backend/internal/auth/session.go:417-446 | normalisation fixes exactly the well-formed principals |
| `Principals.NormalizesExactlyWhen` | backend/internal/auth/session.go:417-428 | which credentials make a principal, and which: trimmed id and name within their bounds, one to sixty-four rooms that can all be granted |
| `Principals.GrantableExactlyWhen` | backend/internal/auth/session.go:432-438 | a room can be granted exactly when its name is not blank and has a normal form |
| `Principals.GrantedExactlyWhen` | backend/internal/auth/session.go:429-445 | the grants are exactly the normal forms of the configured rooms |
| `Principals.GrantsKeepOrder` | backend/internal/auth/session.go:431-444 | the grants come in the order of their first mention |
| `SessionCookie.CookieRoundTrip` | backend/internal/auth/session.go:341-385 | whatever the keyed hash, a cookie decodes to the session it was made from |
| `SessionCookie.DecodesExactlyWhen` | backend/internal/auth/session.go:357-385 | a cookie, whatever its text, decodes to a session exactly when it carries it under the keyed hash of its payload text |
| `SessionCookie.CookieFits` | backend/internal/auth/session.go:351-353 | every well-formed principal's cookie has at most 3894 bytes, so the cookie-limit error cannot happen |
| `Session.New` | backend/internal/auth/session.go:119-184 | mode, secret, lifetime, credentials text and the table loop accept and reject as specified |
| `Session.TableExactlyWhen` | backend/internal/auth/session.go:163-181 | the table is built exactly when every credential is acceptable and no two tokens hash alike, and maps each token's hash to its principal and nothing else |
| `Session.ConfiguresExactlyWhen` | backend/internal/auth/session.go:120-184 | which configurations give a signing service, with which secret, lifetime and table, and which an open one |
| `Session.AcceptedExactlyWhen` | backend/internal/auth/session.go:165-175 | a credential is acceptable exactly with a token of 32 to 512 bytes without white space and a principal that normalises |
| `Session.AuthenticatesExactlyWhen` | backend/internal/auth/session.go:249-292 | any cookie whatsoever authenticates as a user if and only if it carries, under the service's signature, a live session that names the user |
| `Session.AuthenticatedIsSigned` | backend/internal/auth/session.go:357-370 | whoever authenticates to a configured service shows a cookie signed with the keyed hash of its payload text under the configured secret |
| `Session.UnauthenticatedExactlyWhen` | backend/internal/auth/session.go:253-283 | why a call does not authenticate: no cookie, a genuine session that is over, or anything else |
| `Session.OpenExactly` | backend/internal/auth/session.go:195-198 | without sessions everybody is anonymous and no token is exchanged |
| `Session.ExchangedIsConfigured` | backend/internal/auth/session.go:199-206 | only a token that hashes like a configured one is exchanged, and for that credential's principal |
| `Session.SessionRoundTrip` | backend/internal/auth/session.go:195-292 | at every clock value: the exchanged cookie authenticates as the same user, name, rooms and session until the encoded expiry, is expired from then on, and is otherwise refused only if it was issued before the first second of the epoch or more than a minute in the future |
| `Session.AdmittedExactlyWhen` | backend/internal/auth/session.go:295-313 | a principal is admitted exactly to rooms whose normal form is a normalised grant |
| `Session.ConfiguredUserEnters` | backend/internal/auth/session.go:195-313 | from configuration to authorisation, at every clock value: a configured user is let in exactly from a minute before issue until the expiry and exactly for granted rooms |
| `Migrations.StepKeepsInv` | backend/db/postgres.go:141-175 | every action of every replica, with crashes and lost commit answers, keeps the protocol invariant and never shrinks the ledger |
| `Migrations.LedgerIsAlwaysAPrefix` | backend/db/postgres.go:131-175 | over every run the committed ledger is a prefix of the list, the scripts are committed once each and in order, and no two replicas are in the locked part together |
| `Migrations.CommittedExactlyWhen` | backend/db/postgres.go:164-174 | the committed database changes by exactly the commits, heard or not, each by its one migration and script |
| `Migrations.FinishedSeesAll` | backend/db/postgres.go:131-139 | a replica that finishes finds every migration it knows committed |
| `Migrations.InsertNeverConflicts` | backend/db/postgres.go:161-174 | the ledger's primary key is never violated |
| `Migrations.CanFinish` | backend/db/postgres.go:141-175 | no reachable state is stuck: without any failure every live replica can finish |
| `Migrations.Database.RunMigrations` | backend/db/postgres.go:131-175 | the loop stops at the first failing transaction and what is committed is the longer of what was there and what it got through |

## Left out

- HTTP routing, CORS, static files, health, metrics, tracing, configuration parsing and the load tool: plumbing without an invariant of this kind.
- Sockets, deadlines, pings and close frames: a connection is open or closed, and a read or write may fail at any time.
- SQL drivers, connection pools and the Redis client: the store is a finite set of rows, the broker a bag of packets that may be delivered any number of times or never.
- Rate limiters: their answer is an input.
- The SQLite migration runner: it has one connection and no lock, so its loop is the sequential case of `Migrations.Database.RunMigrations`.
- The moderation audit table: rejected input is written there on a best-effort basis and nothing reads it back, so no result here depends on it.
- WebSocket frames arrive decoded: which JSON text gives which frame is up to `encoding/json`.
- The exact set of JSON texts that `encoding/json` accepts: decoders are arbitrary functions, and only what the server prints itself is said to read back.
- Integer overflow of `time.Unix` on second counts near the ends of 64 bits, which only a correctly signed cookie could carry.
- Unicode lower-casing outside ASCII, except for the two runes whose lower case is ASCII: the results are refused by every caller modelled here.
- Publishing while the hub stops may pick either ready branch in the source; the model allows both, and lets a read loop publish its join notice at any time while it reads.
- Order on the client while a reading is under way and live frames, replay and reconnection mix: the code does not promise it, so nothing is stated before the reading is complete.
- React rendering, scrolling and reconnect timers: user interface. The first page may arrive at any time for the room shown; a request for a room that was left is cancelled (frontend/src/App.jsx:157-174).
