# Verification of the Nostream relay

This Dafny project models the parts of the Nostream relay whose correctness spans several functions or
several processes, and proves what those parts are for. `dafny verify dfyconfig.toml` checks it all.

## What is modelled

| Files | Part of the relay |
|---|---|
| `Hex`, `Nostr`, `Sql`, `FilterQuery` | Events, subscription filters, the live matcher, the tables, and the compiler from a filter to a WHERE clause with its optional join on the tag index |
| `EventStore`, `StoreRuns`, `StoreTheorems` | The events table with its two unique indexes and its tag trigger, the three statements issued against it, and what holds after any sequence of them |
| `Strategies` | The event repository as an object with mutable tables, and the five event strategies, proved against the statements above |
| `Cluster`, `Delivery`, `DeliveryTheorems`, `EphemeralDelivery`, `LiveDelivery`, `Adapters` | Workers, the primary and their channels; REQ, broadcast and stored query interleaved; the connection, server, worker and primary objects, and how they agree with the runs |
| `Subscriptions`, `Authentication` | The state of one connection: its subscription map and limits, its NIP-42 challenge |
| `Ledger`, `Payments` | Users, invoices, the two stored functions, admission fees and the payments service |
| `Runes`, `RuneTheorems` | The printer, parser and tester of runes |
| `RateLimiter`, `ProofOfWork` | The sliding-window limiter over sorted sets, and the leading-zero-bit count of NIP-13 |

Code that changes state is a class whose methods are tied to functions on the state, or a method with a loop
and its invariants; the theorems are lemmas about those functions, over every run. A run of the store is any
sequence of database statements rather than of whole strategies, so every interleaving of concurrent
strategies is covered. A run of the cluster or of the whole relay is any sequence of its steps.

What the model takes as given: an event id determines its event (it is a hash); accepted events and filters
satisfy the event and filter schemas; channels between processes are reliable and first-in first-out and no
worker exits; queries are answered by the master database; database statements and the transactions of the
payments service are atomic and serialized. Clocks, random challenges, the answers of payment processors and
the integer reader of the language are parameters.

## What the proofs found

* A filter with two generic tag keys is never answered by the stored query: both conditions fall on one
  joined tag row. `FilterQuery.CompiledQuerySelects` says what every query selects.
* The trigger indexes the JSON text of a tag with its outer quotes trimmed, so a criterion that JSON escapes
  is looked up in a form that is not stored. `FilterQuery.AgreementIsExact` proves that query and matcher
  agree on a row for all storable tags if and only if the filter's other fields do not match the row, or some
  tag query cannot be satisfied at all, or there is at most one tag key and no criterion is escaped.
* When the publisher's connection closes after the insert but before its strategy resumes, the adapter has
  no listeners left and the broadcast is dropped. `DeliveryTheorems.NoGap` says exactly what a subscription
  then misses: a stored and wanted event that was not hidden when the query ran has been sent, once the
  system is quiet, if and only if its broadcast was not dropped or it was stored before the query.
  `DeliveryTheorems.ClosedPublisherLeavesGap` and `OpenPublisherReaches` are runs of the two kinds, and
  `DeliveryTheorems.HiddenExactly` says when an event is hidden.
* On equal timestamps a slot keeps the event that arrived first. The order in which events arrive never
  matters to the table, up to tombstones, if and only if the greatest timestamp of every slot belongs to one
  event (`StoreTheorems.ConvergenceIsExact`).
* A deletion that arrives before its target has no effect (`StoreTheorems.DeletesDoNotCommute`): a row is a
  tombstone if and only if its event was received before a deletion by its own author that names it
  (`StoreTheorems.TombstonesAreExact`). Two orders of such a history end in the very same rows if and only if
  both received the same events in that way (`StoreTheorems.OrdersEndEqual`).
* The "event already exists" reply of the replaceable strategy cannot occur while the database runs its
  statements one after another (`StoreTheorems.UpsertsNeverViolate`).
* The branch of the authentication gate for REQ messages is unreachable, since REQ is let through before it
  (`Adapters.WebSocketAdapter.IsAuthenticationRequired`), and an AUTH event before any challenge was issued
  makes the strategy read a field of an undefined value (`Adapters.ExecuteAuth`).
* With no subscription limits configured, admission of a REQ reads a field of an undefined value; the model
  returns this as an error, and no REQ is ever admitted (`Subscriptions.NothingWithoutLimits`, `Adapters.HandleReq`).
* A fee billed in satoshis admits its payer exactly when it is a multiple of 1000 millisatoshis
  (`Payments.FullPaymentAdmits`).
* The limiter's cache counts the expiry of a key in seconds while the limiter passes milliseconds; this keeps
  keys longer and never changes a verdict (`RateLimiter.WindowIsExact`).

## Model

| member | source | states |
|---|---|---|
| Hex.BytesRoundTrip | src/utils/transform.ts:9-11 | Writing bytes as hex and reading them back gives the same bytes |
| Hex.DigitsAre | src/utils/transform.ts:11 | The sixteen digits are those of lowercase hexadecimal, by character code |
| Hex.TextRoundTrip | src/utils/transform.ts:9-11 | Reading a lowercase hex text of even length and writing it back gives the same text, at half the length in bytes |
| Hex.ToBufferInjective | src/utils/transform.ts:9 | Two such texts with equal bytes are equal, so comparing byte columns loses nothing |
| Hex.EvenPrefix | src/repositories/event-repository.ts:82-89 | The substring test of an even prefix holds iff the hex text of the column starts with the prefix |
| Hex.OddRange | src/repositories/event-repository.ts:90-101 | The BETWEEN test of an odd prefix pins the whole bytes and narrows the next byte to sixteen values |
| Hex.OddPrefix | src/repositories/event-repository.ts:90-101 | The BETWEEN test of an odd prefix holds iff the hex text of the column starts with the prefix |
| Hex.PrefixTestIsTextPrefix | src/repositories/event-repository.ts:42-51 | For every prefix of 1 to 64 digits and every 32-byte column, the byte test chosen by length is the text prefix test |
| Sql.RowRoundTrip | src/utils/event.ts:33-41 | The row built from a valid event, read back, is that event, and has 32-byte id and key columns |
| Sql.InIndexedTags | migrations/20240108_130100_add_event_tags_table.js:27-34 | The trigger writes an index row iff some tag of the event has that indexed form |
| Sql.IndexedTagsExactly | migrations/20240108_130100_add_event_tags_table.js:27-34 | An index row of an event has its id, a one-character name and a non-empty value, and some tag of two entries or more has that name and value in indexed form; and every such tag has its row |
| Sql.IndexedAfterQuote | migrations/20240108_130100_add_event_tags_table.js:29-30 | For a text ending in a quote, trimming eats the closing quotes and leaves a backslash at the end |
| Sql.IndexedIsPlainText | migrations/20240108_130100_add_event_tags_table.js:29-30 | The indexed form of a text equals a text that JSON does not escape iff the two texts are equal |
| Sql.JsonReadsBack | migrations/20240108_130100_add_event_tags_table.js:29-30 | The JSON text of a string reads back as that string, so no two strings share a text |
| FilterQuery.QueryBuilder.AndWherePrefixes | src/repositories/event-repository.ts:69-110 | Adds the OR of the exact, even and odd tests of a prefix list, a false condition for an empty list, nothing for none |
| FilterQuery.QueryBuilder.AndWhereScalars | src/repositories/event-repository.ts:112-128 | Adds the kind, since and until conditions present, and sets limit and order |
| FilterQuery.QueryBuilder.AndWhereTags | src/repositories/event-repository.ts:130-156 | Adds one condition for each tag key, whatever the order of the keys, and joins the index iff there is a key |
| FilterQuery.BuildQuery | src/repositories/event-repository.ts:66-159 | The builder steps in order build the compiled query of the filter |
| FilterQuery.FindByFilters | src/repositories/event-repository.ts:61-167 | Fails on no filters and otherwise builds the union of the compiled queries, one for each filter |
| FilterQuery.ExactMeans | src/repositories/event-repository.ts:78-81 | The IN test on the full-length prefixes holds iff one of them is the column |
| FilterQuery.AlternativesMean | src/repositories/event-repository.ts:69-110 | The compiled OR over a prefix list holds of a row iff the hex text of its column starts with one of the prefixes |
| FilterQuery.ScalarClausesMean | src/repositories/event-repository.ts:112-122 | The scalar conditions hold of a row iff kind, since and until of the filter do |
| FilterQuery.WhereMeans | src/repositories/event-repository.ts:66-128 | The WHERE clause without tags holds of a row iff the filter without tags matches the event rebuilt from the row |
| FilterQuery.IndexedTagMeans | migrations/20240108_130100_add_event_tags_table.js:24-34 | A row has an index entry among the criteria iff it carries a tag whose indexed form is one of them |
| FilterQuery.PlainTagMeans | src/utils/event.ts:95-107 | For criteria JSON does not escape, matching indexed forms is matching tags as the live matcher does |
| FilterQuery.JoinedTagsMean | src/repositories/event-repository.ts:133-156 | Some joined index row fits every tag key of the filter iff there is one key and an indexed tag matches it |
| FilterQuery.CompiledQuerySelects | src/repositories/event-repository.ts:61-167 | For every valid filter and row: the query selects the row iff the filter has at most one tag key and matches with tags read in indexed form |
| FilterQuery.CompiledQueryMeans | src/utils/event.ts:50-110 | With criteria JSON does not escape, the query selects a row iff the filter has at most one tag key and the live matcher accepts the event |
| FilterQuery.UnionMeans | src/repositories/event-repository.ts:161-166 | The union of a REQ selects a row iff one of its filters has at most one tag key and matches with tags read in indexed form, which for plain criteria is live matching |
| FilterQuery.IndexedGrows | migrations/20240108_130100_add_event_tags_table.js:29-30 | The indexed form of a text that needs escaping needs escaping again and weighs more, so indexing never leads back |
| FilterQuery.EscapedCriteriaMissed | src/repositories/event-repository.ts:143-147 | Whenever a criterion that a stored tag can carry needs escaping, some storable event that matches live is not selected once stored |
| FilterQuery.SeveralKeysMissed | src/repositories/event-repository.ts:133-156 | With two tag keys that can be satisfied, some storable tags make the matcher accept while the query does not select |
| FilterQuery.DeadAgrees | src/repositories/event-repository.ts:140-149 | A tag query that no storable tag satisfies, such as an empty one, is answered alike by the query and the matcher |
| FilterQuery.AgreementIsExact | src/repositories/event-repository.ts:130-156 | On a row, query and matcher agree for all storable tags iff the other fields do not match it, or some tag query cannot be satisfied, or there is at most one tag key and no criterion is escaped by JSON |
| EventStore.TriggerEffect | migrations/20240108_130100_add_event_tags_table.js:24-35 | One firing of the trigger clears the tag rows of the old id, writes those of the new row, and touches no other id |
| EventStore.InsertKeepsIndex | migrations/20240108_130100_add_event_tags_table.js:24-45 | An insert with a new id keeps the index in agreement with the table |
| EventStore.ReplaceKeepsIndex | migrations/20240108_130100_add_event_tags_table.js:24-45 | Replacing a row keeps the agreement when no other row has its old or new id |
| EventStore.FiringKeepsIndex | migrations/20240108_130100_add_event_tags_table.js:41-44 | Firing row by row over a whole UPDATE keeps the agreement |
| EventStore.InsertIgnoreKeeps | src/repositories/event-repository.ts:191-194 | INSERT ON CONFLICT DO NOTHING keeps unique ids, unique slots and the tag index |
| EventStore.UpsertKeeps | src/repositories/event-repository.ts:224-234 | The upsert keeps unique ids, unique slots and the tag index whenever it does not fail |
| EventStore.SoftDeleteKeeps | src/repositories/event-repository.ts:246-252 | The soft deletion keeps unique ids, unique slots and the tag index |
| StoreRuns.IndexCoversUpserts | migrations/20221224_164100_add_group_chat_to_replaceable_events_unique_index.js:24-33 | The predicate of the partial unique index covers exactly the kinds whose strategies upsert |
| StoreRuns.InIdsToDelete | src/handlers/event-strategies/delete-event-strategy.ts:22-32 | An id is to be deleted iff it is a 64-digit lowercase hex text that stands second in some tag whose first entry is e |
| StoreRuns.RoutesByKind | src/factories/event-strategy-factory.ts:16-28 | Replaceable are kinds 0, 3, 41 and 10000 to 19999, ephemeral 20000 to 29999, deleting 5, parameterized 30000 to 39999 |
| StoreRuns.FirstTagIsFirst | src/handlers/event-strategies/parameterized-replaceable-event-strategy.ts:22 | The search gives the first tag of two entries or more with the name, and none iff there is none |
| StoreRuns.DeduplicationIs | src/handlers/event-strategies/parameterized-replaceable-event-strategy.ts:22-27 | The deduplication values are what follows d in the first usable d tag, or one empty text without such a tag |
| StoreRuns.DedupColumn | src/repositories/event-repository.ts:210-214 | The deduplication column holds those values for kinds 30000 to 39999, and author and kind for the other upserted kinds |
| StoreRuns.NoUniqueViolation | src/handlers/event-strategies/replaceable-event-strategy.ts:28-36 | In a run no statement violates the unique event id |
| StoreRuns.NewWinner | src/repositories/event-repository.ts:233-234 | A put that is stored has a strictly greater timestamp than everything its slot received |
| StoreRuns.InvStep | src/repositories/event-repository.ts:169-253 | Each statement keeps the store invariant: keys, index, provenance of every row, winners in slots |
| StoreRuns.Reachable | src/repositories/event-repository.ts:169-253 | Every reachable store satisfies the invariant |
| StoreTheorems.CountMeansNew | src/repositories/event-repository.ts:169-195 | In a run the reported row count is 1 iff the event was not seen before, and 0 means nothing changed |
| StoreTheorems.SeenStays | src/repositories/event-repository.ts:197-253 | An event once seen stays seen: slots only move forward in time and rows are never removed |
| StoreTheorems.StoredAtMostOnce | src/handlers/event-strategies/default-event-strategy.ts:19-24 | However often an event is sent again, replaced or deleted, at most one statement stores it, so it is broadcast at most once |
| StoreTheorems.FiresMeansStores | src/handlers/event-strategies/replaceable-event-strategy.ts:20-27 | The step that broadcasts is exactly the step that brings the event's own row into the table |
| StoreTheorems.TombstonesArePermanent | src/repositories/event-repository.ts:243-253 | Over any run, once an event is soft-deleted its id is never visible again |
| StoreTheorems.TombstonesAreJustified | src/handlers/event-strategies/delete-event-strategy.ts:22-39 | Every tombstone was named, while visible, by a tag with first entry e and the id second, in an earlier kind-5 event of the same author |
| StoreTheorems.SeenMeansReceived | src/repositories/event-repository.ts:169-241 | A storing statement counts as new iff the run received neither its event nor, for an upsert, anything at least as new for the slot |
| StoreTheorems.TombstonesAreExact | src/repositories/event-repository.ts:243-253 | A row of a reachable table is a tombstone iff its event was received before a deletion by its author with an e tag that carries its id |
| StoreTheorems.SlotMeaning | src/repositories/event-repository.ts:210-214 | Two puts share a slot iff author and kind agree and, for kinds 30000 to 39999, the same texts follow d in their first usable d tags, none counting as one empty text |
| StoreTheorems.SlotHoldsTheWinner | src/repositories/event-repository.ts:224-234 | Whatever deletions are interleaved, a slot written to has exactly one row, the event of greatest timestamp, first received on ties |
| StoreTheorems.TableIsWhatWasReceived | src/repositories/event-repository.ts:169-234 | Up to tombstones the table is exactly the regular events received and the winners of the slots |
| StoreTheorems.OrdersConverge | src/repositories/event-repository.ts:197-234 | Two orders of the same events, the greatest timestamp of each slot belonging to one event, end in the same table up to tombstones |
| StoreTheorems.ConvergenceIsExact | src/repositories/event-repository.ts:233-234 | All orders of a history end in the same table up to tombstones iff the greatest timestamp of every slot belongs to one event |
| StoreTheorems.OrdersEndEqual | src/repositories/event-repository.ts:197-253 | Two such orders, whatever deletions each contains, end in the very same rows iff of the regular events and slot winners both received the same ones before a deletion by the author that names them |
| StoreTheorems.DeleteFreeOrdersConverge | src/repositories/event-repository.ts:197-234 | Without deletions the two orders end in the same rows |
| StoreTheorems.DeletesDoNotCommute | src/repositories/event-repository.ts:243-253 | A deletion after its target hides it; before its target it has no effect |
| StoreTheorems.TagIndexIsExact | migrations/20240108_130100_add_event_tags_table.js:18-45 | After any run the tag index is, as a bag, the indexable tags of the current rows and nothing else |
| StoreTheorems.UpsertsNeverViolate | src/handlers/event-strategies/replaceable-event-strategy.ts:28-36 | When statements run one after another none of them fails, so the reply for an existing event id does not occur |
| Strategies.EventRepository.ProcessEventTags | migrations/20240108_130100_add_event_tags_table.js:18-45 | The trigger as a loop over tags leaves the index the trigger function describes |
| Strategies.EventRepository.Create | src/repositories/event-repository.ts:169-195 | Changes the tables and returns the count as INSERT ON CONFLICT DO NOTHING does, keeping the invariant |
| Strategies.EventRepository.Update | migrations/20240108_130100_add_event_tags_table.js:41-44 | Rewrites the changed rows in table order, firing the trigger for each |
| Strategies.EventRepository.Upsert | src/repositories/event-repository.ts:197-241 | Changes the tables and returns the count or the violation as the upsert does, keyed by author and kind without deduplication values |
| Strategies.EventRepository.DeleteByPubkeyAndIds | src/repositories/event-repository.ts:243-253 | Marks exactly the undeleted rows of that key among those ids |
| Strategies.CollectIds | src/handlers/event-strategies/delete-event-strategy.ts:22-32 | The fold over tags collects, in order, exactly the 64-digit lowercase hex texts that stand second in e tags |
| Strategies.EventStrategies.ExecuteDefault | src/handlers/event-strategies/default-event-strategy.ts:17-25 | Creates, replies OK, and broadcasts iff the row count is not zero, in that order |
| Strategies.EventStrategies.ExecuteEphemeral | src/handlers/event-strategies/ephemeral-event-strategy.ts:15-22 | Replies OK, then broadcasts, and touches no table |
| Strategies.EventStrategies.ExecuteDelete | src/handlers/event-strategies/delete-event-strategy.ts:19-47 | Tombstones the named ids when there are any, then creates, replies and broadcasts |
| Strategies.EventStrategies.ExecuteReplaceable | src/handlers/event-strategies/replaceable-event-strategy.ts:17-44 | Upserts, then replies and broadcasts, or replies that the event exists on a violation |
| Strategies.EventStrategies.ExecuteParameterized | src/handlers/event-strategies/parameterized-replaceable-event-strategy.ts:19-35 | Upserts under the deduplication values, then replies and broadcasts; a violation is passed on and nothing is sent |
| Strategies.EventStrategies.Dispatch | src/handlers/event-message-handler.ts:67-79 | Whatever the kind, the tables of a run become those of the run with the statements of the route added, and the client gets its replies, including the error reply for a thrown violation |
| Strategies.RepliesInRuns | src/handlers/event-strategies/default-event-strategy.ts:19-24 | In a run every accepted event is answered OK true: a new or ephemeral one with an empty text and then broadcast, any other with the text duplicate: and not broadcast, whatever other strategies ran before and between |
| Strategies.StatementsByKind | src/handlers/event-strategies/delete-event-strategy.ts:34-41 | Which statements each kind leads to, the deletion before the insertion |
| Strategies.DispatchStores | src/handlers/event-strategies/default-event-strategy.ts:19 | After its strategy the store has taken the event, or holds something as new for its slot |
| Strategies.DeletionHides | src/handlers/event-strategies/delete-event-strategy.ts:22-39 | After a deletion no event of its author that one of its e tags names is visible |
| Strategies.DeletionIsKept | src/handlers/event-strategies/delete-event-strategy.ts:34-41 | A new deletion event is itself visible afterwards, even one that names itself |
| Cluster.StepKeepsInv | src/app/app.ts:118-128 | Publishing, forwarding and receiving keep: applied, then on the way down, then on the way up is what each worker broadcast, in order |
| Cluster.RunInv | src/app/app.ts:118-128 | The flow invariant holds after every sequence of steps of any number of workers |
| Cluster.AppliedOnce | src/app/worker.ts:32-34 | No worker applies a broadcast twice |
| Cluster.FanOut | src/adapters/web-socket-adapter.ts:176-184 | At any time each worker has applied a prefix of every other worker's broadcasts in order, all of its own, none twice and none unsent |
| Cluster.FanOutComplete | src/adapters/web-socket-server-adapter.ts:72-83 | Once the channels are empty every worker has applied every broadcast of every worker, in order |
| Cluster.InternalStepsDrain | src/app/app.ts:118-128 | Every forward or receive of a waiting message leaves less work, so forwarding never echoes for ever |
| Cluster.InternalStepEnabled | src/app/app.ts:118-128 | While a message waits, some forward or receive moves it |
| Cluster.WorkIsDone | src/app/app.ts:118-128 | No work is left exactly when every channel is empty |
| Cluster.ChannelsDrain | src/app/app.ts:118-128 | From every network a bounded number of forwards and receives empties all channels |
| Delivery.FiredGrows | src/handlers/event-strategies/default-event-strategy.ts:19-24 | A statement adds its event to the stored ones iff its count is 1, and that event was not stored before |
| Delivery.ReceivedIsNew | src/app/worker.ts:32-34 | A forwarded stored event reaches a worker that had not applied it |
| Delivery.ServedCovers | src/adapters/web-socket-adapter.ts:186-195 | Offering an applied event to all open subscriptions keeps every subscription covered |
| Delivery.VisibleIsAnswered | src/handlers/subscribe-message-handler.ts:64-71 | A stored, visible event that the filters accept and one of their queries selects is in the stream, past both stream filters |
| Delivery.QueryKeeps | src/handlers/subscribe-message-handler.ts:51-71 | Running the query keeps the invariant: every stored and wanted event is sent, queued, still to arrive, or was hidden at the query |
| Delivery.StreamKeeps | src/handlers/subscribe-message-handler.ts:53-70 | Sending the next streamed event keeps the invariant |
| Delivery.StepKeeps | src/handlers/subscribe-message-handler.ts:46-71 | Every step of the relay keeps the invariant |
| Delivery.RunKeeps | src/handlers/subscribe-message-handler.ts:46-71 | The invariant holds after every run |
| DeliveryTheorems.RowWasFired | src/repositories/event-repository.ts:169-234 | Every row of a reachable table is, up to its tombstone flag, the row of an event that some statement stored |
| DeliveryTheorems.StreamDropsTombstonesOnly | src/handlers/subscribe-message-handler.ts:64-71 | With plain criteria the second stream filter drops nothing: what is streamed is the undeleted rows of the answer, in order |
| DeliveryTheorems.StepEnds | src/adapters/web-socket-adapter.ts:361-377 | Every step keeps: a dropped broadcast is never carried or awaited again, and streams hold events stored before their query |
| DeliveryTheorems.NoGap | src/handlers/subscribe-message-handler.ts:46-71 | In every interleaving, once all is quiet a current, streamed subscription has been sent a stored event that its filters accept and one of its queries selects, and that was not hidden at the query, iff the broadcast was not dropped by a closing publisher or the event was stored before the query |
| DeliveryTheorems.LostIsNotSent | src/adapters/web-socket-adapter.ts:361-377 | A stored event whose broadcast was dropped and that was stored after the query is never sent for the request |
| DeliveryTheorems.HiddenExactly | src/repositories/event-repository.ts:197-253 | A stored event is hidden from a query iff before the query it was received before a deletion by its own author that names it, or its slot received something newer |
| DeliveryTheorems.AtMostTwice | src/adapters/web-socket-adapter.ts:186-195 | With tag-free filters a stored event is sent at most twice for one subscription |
| DeliveryTheorems.ClosedPublisherLeavesGap | src/adapters/web-socket-adapter.ts:361-377 | For every regular event and matching filter there is a run in which the publisher closes early and the subscriber never gets the stored event |
| DeliveryTheorems.OpenPublisherReaches | src/adapters/web-socket-adapter.ts:176-184 | For every regular event and matching filter there is a run with the publisher open that meets every condition of the no-gap theorem and delivers the event |
| LiveDelivery.DeliveriesAreLiveMessages | src/adapters/web-socket-server-adapter.ts:72-83 | What one broadcast delivers to one connection in a run is the live messages of its current subscriptions when it is open on that worker, and nothing otherwise |
| LiveDelivery.SendsAreDue | src/adapters/web-socket-adapter.ts:186-202 | Every message a step sends goes to an open connection, and is live for a current subscription with a matching filter or the next event of its own stream |
| LiveDelivery.StepMovesMap | src/adapters/web-socket-adapter.ts:139-155 | Over a step of a run, the subscriptions of a connection change by REQ, CLOSE and disconnect as its map does |
| LiveDelivery.SubscribeIsPut | src/adapters/web-socket-adapter.ts:144-155 | The subscriptions after a REQ in a run are the entries of the map after setting the id |
| LiveDelivery.MapsHaveDistinctIds | src/adapters/web-socket-adapter.ts:144-155 | In every run the current subscriptions of a connection have distinct ids |
| EphemeralDelivery.EphemeralReaches | src/handlers/event-strategies/ephemeral-event-strategy.ts:15-22 | An event of kinds 20000 to 29999 published on an open connection of any worker is, once all is quiet, sent live to every matching subscription of every worker that was registered before and is current to the end |
| EphemeralDelivery.EphemeralNeedsPublisher | src/adapters/web-socket-adapter.ts:361-377 | If no step published such an event on an open connection, no message carries it and no connection was sent it |
| EphemeralDelivery.StepKeepsReaching | src/adapters/web-socket-server-adapter.ts:72-83 | Every step keeps a message on its way: wherever the worker of a current matching request has applied it, the request was sent its event |
| Authentication.IsSignedAuthEvent | src/utils/event.ts:112-136 | The loop answers true iff the kind is 22242 and tags of two entries or more exist for both relay and challenge, in either order |
| Authentication.IsValidSignedAuthEvent | src/utils/event.ts:138-153 | True iff the kind is 22242, a usable relay tag exists, and the first usable challenge tag carries the challenge |
| Authentication.FirstTagFound | src/utils/event.ts:145-149 | The search finds a tag iff there is one, and what it finds is one |
| Authentication.ChallengeIsLatest | src/adapters/web-socket-adapter.ts:157-165 | The challenge held is the one issued last |
| Authentication.AuthenticatedByAnswer | src/handlers/event-strategies/auth-event-strategy.ts:17-34 | The flag is set only by an answer to the latest challenge within ten minutes |
| Authentication.EventNeedsAnswer | src/adapters/web-socket-adapter.ts:379-415 | An EVENT passes the gate only after an AUTH event that answered the latest challenge within 600000 ms |
| Authentication.AuthenticatedExactly | src/handlers/event-strategies/auth-event-strategy.ts:9-34 | A connection is authenticated iff some AUTH event answered the challenge issued last before it less than 600000 ms after it was issued |
| Authentication.EventPassesExactly | src/adapters/web-socket-adapter.ts:379-415 | An EVENT passes iff the connection is so authenticated; any other is given a new challenge |
| Authentication.AuthenticationStays | src/adapters/web-socket-adapter.ts:167-170 | Once set the flag stays set and no challenge is held again |
| Authentication.ChallengeIsSpent | src/handlers/event-strategies/auth-event-strategy.ts:19-34 | At most one AUTH event of a connection is ever accepted |
| Subscriptions.LookupPut | src/adapters/web-socket-adapter.ts:144-155 | After setting a subscription its id has the new filters and every other id what it had |
| Subscriptions.LookupRemove | src/adapters/web-socket-adapter.ts:139-142 | After deleting a subscription its id has nothing and every other id what it had |
| Subscriptions.NothingWithoutLimits | src/handlers/subscribe-message-handler.ts:87-118 | With no limits configured no run ever admits a REQ |
| Subscriptions.AdmittedExactly | src/handlers/subscribe-message-handler.ts:87-118 | A REQ is admitted iff it repeats no subscription with filters and its number, filters and id length stay within the limits that are set; each refusal names a limit it breaks |
| Subscriptions.ReqRegisters | src/handlers/subscribe-message-handler.ts:35-46 | An admitted REQ is registered under its id with its distinct filters, and a refused one changes nothing |
| Subscriptions.OtherStepsOnMap | src/adapters/web-socket-adapter.ts:139-142 | A CLOSE takes away its id alone, a disconnect everything, a broadcast nothing |
| Subscriptions.ReqWithinLimits | src/handlers/subscribe-message-handler.ts:87-118 | An admitted REQ keeps the subscription map within the limits |
| Subscriptions.LimitsHold | src/handlers/subscribe-message-handler.ts:35-49 | Under fixed limits no run of REQ, CLOSE, broadcasts and disconnects exceeds the number of subscriptions, filters or id characters |
| Subscriptions.UniqKeeps | src/handlers/subscribe-message-handler.ts:37 | Dropping duplicate filters keeps every filter, once |
| Subscriptions.UniqMatches | src/handlers/subscribe-message-handler.ts:37 | Dropping duplicate filters never changes which events match |
| Subscriptions.LiveMessageFor | src/adapters/web-socket-adapter.ts:186-195 | A live event produces a message iff a subscription of that id has a matching filter |
| Subscriptions.LiveOncePerMatch | src/adapters/web-socket-adapter.ts:186-195 | Each live event is sent exactly once to each subscription with a matching filter and to no other |
| Adapters.WebSocketAdapter.SendMessage | src/adapters/web-socket-adapter.ts:197-202 | Sends iff the socket is open |
| Adapters.WebSocketAdapter.OnSubscribed | src/adapters/web-socket-adapter.ts:144-155 | Afterwards looking up the id gives the new filters, looking up any other id gives what it gave before, and ids stay distinct |
| Adapters.WebSocketAdapter.OnUnsubscribed | src/adapters/web-socket-adapter.ts:139-142 | Afterwards looking up the id gives nothing, and looking up any other id what it gave before |
| Adapters.WebSocketAdapter.OnClientClose | src/adapters/web-socket-adapter.ts:361-377 | On a closed client, drops every subscription and every listener, so that what is emitted on the adapter afterwards is dropped |
| Adapters.WebSocketAdapter.OnSendEvent | src/adapters/web-socket-adapter.ts:186-195 | The loop over the map sends the live messages of the event, in map order, iff the socket is open |
| Adapters.WebSocketAdapter.SetClientToAuthenticated | src/adapters/web-socket-adapter.ts:167-170 | Sets the flag and spends the challenge |
| Adapters.WebSocketAdapter.IsAuthenticationRequired | src/adapters/web-socket-adapter.ts:379-415 | Holds back exactly the EVENT messages of an unauthenticated connection with authentication enabled, issuing a new challenge and two messages; lets REQ, CLOSE and AUTH through unchanged |
| Adapters.ExecuteAuth | src/handlers/event-strategies/auth-event-strategy.ts:17-40 | Moves the authentication state as the run model does, replies once accordingly, and fails iff no challenge was issued |
| Adapters.UniqWith | src/handlers/subscribe-message-handler.ts:37 | The loop keeps the first occurrence of each filter |
| Adapters.HandleReq | src/handlers/subscribe-message-handler.ts:35-46 | Registers the deduplicated filters iff the REQ is admitted and the adapter still listens, sends a notice on a refusal, and fails exactly when no limits are configured and the REQ is no duplicate |
| Adapters.WebSocketServerAdapter.OnBroadcast | src/adapters/web-socket-server-adapter.ts:72-83 | Gives every open, listening connection its live messages once and changes no other state |
| Adapters.App.OnClusterMessage | src/app/app.ts:118-128 | Appends the message to the channel of every worker but its source |
| Adapters.OnLocalBroadcast | src/adapters/web-socket-adapter.ts:176-184 | While the publisher listens, serves the worker's own connections and sends the event to the primary once; afterwards does neither |
| Adapters.OnForwarded | src/app/worker.ts:32-34 | Serves the worker's connections, and no channel is in its frame, so nothing is sent on; with Cluster.AppliedOnce each connection is served a forwarded broadcast once |
| Ledger.StepBalanced | src/services/payments-service.ts:136-206 | Each transaction moves a balance by exactly the change in its confirmed credits minus the charge it granted |
| Ledger.LedgerConserves | migrations/20230220_002700_fix_unit_confirm_invoice_func.js:13-33 | In every reachable state a balance is 1000 times what the confirmed sats invoices paid, plus what the msats ones paid, plus 100000000000 times what the btc ones paid, minus granted charges |
| Ledger.ScalesAlike | src/services/payments-service.ts:166-172 | Crediting and admission scale an amount alike, by 1000, 1 and 100000000000 |
| Ledger.AdmitsExactly | src/services/payments-service.ts:182-185 | A payment admits iff the threshold is positive and the scaled amount reaches it |
| Ledger.ConfirmedStays | src/repositories/invoice-repository.ts:129-144 | A confirmed invoice keeps payer, unit, amount and date through every transaction; only its status moves |
| Ledger.CreditingConfirms | migrations/20230220_002700_fix_unit_confirm_invoice_func.js:16-31 | A confirmation that credits leaves the invoice confirmed with the amount and date it was handed |
| Ledger.CreditedAtMostOnce | migrations/20230220_002700_fix_unit_confirm_invoice_func.js:16-31 | However often and in whatever order an invoice is confirmed, it is credited at most once |
| Ledger.ChargeStaysNonNegative | migrations/20230120_161800_charge_user_func.js:10-20 | A charge is granted iff the user exists and the balance covers it, then takes the amount and nothing else; a refused one changes nothing |
| Ledger.StatusIsSet | src/repositories/invoice-repository.ts:80-93 | An update of a status sets it for that invoice and touches nothing else |
| Ledger.CreatingKeepsUsers | src/services/payments-service.ts:62-90 | Creating an invoice keeps every balance and admission, gives a new payer an empty unadmitted row, and stores the invoice or only changes its status |
| Ledger.ConfirmingAdmits | src/services/payments-service.ts:182-197 | A confirmation admits the payer iff the payment does, and takes no admission away |
| Ledger.BalancesStayNonNegative | migrations/20230120_161800_charge_user_func.js:10-20 | If no payment is negative, no balance of any run is negative |
| Payments.SumIsThreshold | src/controllers/invoices/post-invoice-controller.ts:139-143 | The controller's sum with its exact-match whitelist test equals the service's sum with its prefix test |
| Payments.AppliesExactly | src/services/payments-service.ts:174-175 | A fee applies iff it is enabled and no whitelisted text begins the payer's key |
| Payments.ThresholdAdds | src/services/payments-service.ts:177-180 | The threshold adds up the amounts of the fees that apply |
| Payments.RequestedMeetsThreshold | src/controllers/invoices/post-invoice-controller.ts:113-143 | With unchanged settings the amount requested is the amount admission asks for, and nothing is requested iff no fee applies |
| Payments.FullPaymentAdmits | src/payments-processors/nodeless-payments-processor.ts:37-46 | Paying a positive fee in full admits always when billed in msats, and when billed in sats iff the fee is a multiple of 1000; the shortfall is under 1000 msats |
| Payments.PayerIsAdmitted | src/services/payments-service.ts:166-197 | From fee settings to the users table: full payment of the bill admits the payer iff billed in msats or the fee is a multiple of 1000 |
| Payments.Database.ConfirmInvoice | migrations/20230220_002700_fix_unit_confirm_invoice_func.js:13-33 | Reads, confirms and credits as the conserved statement does, which Ledger.ScalesAlike gives in figures; an unknown or already confirmed invoice changes nothing |
| Payments.Database.ChargeUser | migrations/20230120_161800_charge_user_func.js:10-20 | Grants and subtracts iff the balance suffices |
| Payments.Database.UpsertUser | src/repositories/user-repository.ts:30-62 | Inserts or updates the user, never touching the balance |
| Payments.Database.UpdateStatus | src/repositories/invoice-repository.ts:80-103 | Changes the status of that invoice only |
| Payments.Database.UpsertInvoice | src/repositories/invoice-repository.ts:105-151 | Inserts an unconfirmed invoice, or on conflict changes the status only |
| Payments.PaymentsService.CreateInvoice | src/services/payments-service.ts:50-111 | Ensures a users row for the payer, then stores the invoice, as one transaction |
| Payments.PaymentsService.ConfirmInvoice | src/services/payments-service.ts:136-206 | Refuses an incomplete invoice without change; otherwise credits once and admits iff the scaled payment meets a positive threshold |
| Runes.FieldEnd | src/utils/runes/alternative.ts:88-94 | The field ends at the first punctuation character, or at the end of the text |
| Runes.DecodeAlternative | src/utils/runes/alternative.ts:84-122 | The two loops read the alternative and the rest that the reader function describes, with the same two errors |
| Runes.DecodeValue | src/utils/runes/alternative.ts:102-121 | The value loop stops after a bar, before an ampersand, takes an escaped character as it is, and adds "undefined" for a dangling backslash |
| Runes.DecodeRestriction | src/utils/runes/restriction.ts:31-47 | The loop reads alternatives to an ampersand or the end, and fails when there are none |
| Runes.DecodeRune | src/utils/runes/rune-like.ts:25-36 | The loop terminates on every text, each turn taking at least one character, and yields the restrictions read |
| Runes.TestRestriction | src/utils/runes/restriction.ts:14-25 | Passes iff some alternative passes, by the operator laws below; otherwise gives the reasons of all of them in order |
| Runes.TestRune | src/utils/runes/rune-like.ts:10-19 | Passes iff every restriction passes, by the operator laws below; otherwise gives the reasons of the first that refuses |
| RuneTheorems.EqualityOperators | src/utils/runes/alternative.ts:42-48 | On a text field = passes iff the text is the value, / iff it is not, ! never and # always |
| RuneTheorems.PartOperators | src/utils/runes/alternative.ts:49-54 | On a text field ^, $ and ~ pass iff the value starts, ends or occurs in the text |
| RuneTheorems.IntegerOperators | src/utils/runes/alternative.ts:55-72 | On a text field < and > pass iff both texts read as integers and the field's is below or above |
| RuneTheorems.OrderOperators | src/utils/runes/alternative.ts:73-76 | On a text field {, = and } are below, equal and above in the order of texts, and exactly one passes |
| RuneTheorems.OtherFields | src/utils/runes/alternative.ts:25-38 | A missing field passes only ! and #; a checking function decides for itself unless the operator is # |
| RuneTheorems.CharactersAre | src/utils/runes/alternative.ts:3-21 | The eleven operators, the thirty-one punctuation characters and the white space, one by one |
| RuneTheorems.RefusedTexts | src/utils/runes/alternative.ts:84-119 | A text without punctuation or starting with an ampersand is refused, as is one whose first punctuation is no operator, each for its reason; a dangling backslash reads as undefined; an empty text is the empty rune |
| RuneTheorems.EscapedIsRead | src/utils/runes/alternative.ts:80-82 | Reading an escaped value gives the value back, for any value and whatever ends it |
| RuneTheorems.PrintedIsRead | src/utils/runes/alternative.ts:80-122 | Reading a printed alternative gives it back with the text after it |
| RuneTheorems.AlternativesAreRead | src/utils/runes/restriction.ts:27-47 | Reading printed alternatives gives them all back, with the text after the ampersand |
| RuneTheorems.RestrictionsAreRead | src/utils/runes/rune-like.ts:21-36 | Reading printed restrictions gives them all back |
| RuneTheorems.RoundTrip | src/utils/runes/rune-like.ts:21-36 | For every valid rune, reading its text gives it back without the white space of fields and values |
| RuneTheorems.RoundTripIsExact | src/utils/runes/rune-like.ts:21-36 | The text carries a valid rune over unchanged iff the rune holds no white space |
| RuneTheorems.ReadIsCanonical | src/utils/runes/rune-like.ts:25-36 | Whatever text is read, the rune is valid and its own text reads as the same rune |
| RuneTheorems.JoinConjoins | src/utils/runes/rune-like.ts:10-36 | Joining two non-empty printed runes with an ampersand reads as the concatenation, which passes iff both pass |
| RuneTheorems.ShorthandIsExact | src/utils/runes/alternative.ts:124-128 | The splitting reader gives a printed alternative back iff its value holds no punctuation |
| RateLimiter.Cache.Range | src/adapters/redis-adapter.ts:73-77 | Lists every member of the set once |
| RateLimiter.SlidingWindowRateLimiter.RecordHit | src/utils/sliding-window-rate-limiter.ts:12-32 | Removes, adds, reads and sets the expiry of that key only, and answers limited iff the steps counted exceed the rate |
| RateLimiter.Sum | src/utils/sliding-window-rate-limiter.ts:27 | The fold over the entries is the sum of steps over the set of members |
| RateLimiter.HitKeepsExact | src/utils/sliding-window-rate-limiter.ts:20-25 | A hit leaves exactly the distinct members of the window, also when the key had expired |
| RateLimiter.WindowIsExact | src/utils/sliding-window-rate-limiter.ts:12-32 | After any ordered run, the set after a hit at t holds exactly the distinct members of (t - period, t] |
| RateLimiter.LimitedExactly | src/utils/sliding-window-rate-limiter.ts:27-31 | With steps of one a hit is limited iff its window holds more than rate distinct members |
| RateLimiter.RateIsKept | src/utils/sliding-window-rate-limiter.ts:27-31 | In every window of one period the steps of the distinct hits let through sum to at most the rate |
| RateLimiter.DistinctMillisecondsAreBounded | src/utils/sliding-window-rate-limiter.ts:27-31 | With steps of one, at most rate distinct milliseconds of any window hold a hit that was let through |
| RateLimiter.SameMillisecondCollapses | src/utils/sliding-window-rate-limiter.ts:22 | Repeating the last hit in the same millisecond changes neither the set nor the answer |
| ProofOfWork.Msb | src/utils/proof-of-work.ts:14-27 | Counts the clear bits above the highest set bit of a byte, eight for zero |
| ProofOfWork.LeadByte | src/utils/proof-of-work.ts:4-10 | The leading non-zero byte bounds the whole big-endian number between two powers of two |
| ProofOfWork.GetLeadingZeroBits | src/utils/proof-of-work.ts:1-12 | For every d up to the width, the count is at least d iff the big-endian number is below 2 to the width minus d |

## Left out

- Static mirroring (`src/app/static-mirroring-worker.ts`): it stores every kind with a NULL deduplication column, outside the slots; mirrors are not steps of the store.
- Partitioning and archiving of the events table: the model has one flat table and claims nothing of archives.
- Row limits and order of a union of queries: the theorems speak of the set of rows selected, without truncation.
- Repeated rows of a tag join: a stored tag query may return one event twice, so `DeliveryTheorems.AtMostTwice` covers tag-free filters only.
- Expiry of events: the expiry column is stored and never read by queries, so expired rows are not claimed hidden; it and the remote address are not columns of the model.
- Read-replica lag, worker exit and restart, failure of the channels between processes.
- Payment liveness: the status is updated in a step of its own before confirmation, so "completed implies confirmed" is not claimed; the OpenNode callback drops the unit, and the theorems that need the unit ask for it.
- Acceptance gates of events (limits, whitelists, admission, rate limits): an event reaches its strategy or it does not.
- Signatures, hashing, schema validation, the query library, HTTP controllers beyond fee and amount, pages, settings files, Tor and logging.
- 64-bit overflow of balances and amounts: integers are unbounded.
- StoreTheorems.UpsertsNeverViolate: speaks of statements that run one after another; two upserts of one event that PostgreSQL runs at the same time can still meet in its index on event ids, because the conflict clause names the slot index only.
- NUL characters: PostgreSQL stores none, so agreement is stated for tags without them; that it also refuses a query with a NUL in a criterion is not modelled, such a criterion simply finds no row.
- Heartbeat and the alive flag of a connection; the end-of-stored-events message.
- Texts of subscription notices and rune reasons: a notice names the kind of refusal, a reason names the alternative that refused.
- Rune values other than texts and checking functions, such as numbers and arrays, and inherited properties of the tested object.
- The order of the operands of an OR in a compiled query, which has no effect on what it selects.
- Redis time against the relay's clock: both are one clock, and the hits on one key are serialised.
- The order of entries that the cache returns: the limiter only sums them.
- DeliveryTheorems.NoGap: speaks of events that the filters accept and that one of the stored queries selects (at most one tag key, tags matching as the trigger indexes them), because the query misses the others, as shown above.
- Adapters.App.OnClusterMessage: messages carry an origin and a number that the code does not send; no step looks at them.
