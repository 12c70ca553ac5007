# A verified model of a Nostr relay

Nostream is a Nostr relay: clients publish events and subscribe to them over WebSocket, several
worker processes share one events table, and a broadcast carries each new event from the worker
that stored it to all the others. This project models the parts of it whose correctness is not
visible in any one function, and proves what they guarantee.

- **Storage** (`Events`, `TagIndex`, `JsonStrings`, `EventRepository`, `EventStrategies`, `ReplaceableSlots`,
  `AddressableEvents`, `Tombstones`): the events table with its two unique indexes and its tag
  trigger, the three statements that change it, and the strategies that choose between them.
- **Queries** (`Hex`, `FilterCompiler`, `FilterMeaning`, `RepeatedRows`): subscription filters compiled to row
  predicates with SQL's three truth values, a left join on the tag index, and byte-level prefix
  tests; against the direct meaning of a filter on an event; and how often the join repeats a row.
- **Delivery** (`Subscriptions`, `SubscriptionRules`, `WebSocketAdapter`, `Relay`, `RelayStore`, `ClusterStorage`,
  `AtMostOnce`, `NoGap`, `EndOfStored`, `RepeatedEvents`, `SoundDelivery`, `LostBroadcast`,
  `ExactGap`, `Progress`): the subscription table of a client, the objects a broadcast runs through,
  and the whole cluster as a state machine whose atomic steps are insert commit, local broadcast, forwarding by the primary, delivery in a worker,
  registration, query snapshot, and the sending of each stored event. All theorems about it hold in
  every interleaving.
- **Runes** (`RuneAlternative`, `RuneRestriction`, `RuneLike`, `RuneAttenuation`, `RuneNarrowing`,
  `RuneOperators`): the three-level printer, parser and evaluator, and the laws of its operators.
- **Rate limits** (`RateLimiter`, `RateLimitKeys`, `EventMessageHandler`): the limiter over a
  pruned, expiring sorted set, its answers against the full history of hits, and its keys.
- **Proof of work** (`ProofOfWork`) and the **invoice ledger** (`Ledger`).

Code that updates state is modelled by methods and classes and proved against specification
functions; the theorems are about those functions. Assumed throughout: an event id determines the
event, one SQL statement or transaction is atomic, and what the message schemas enforce (lowercase
hex, letter tag keys, at least one filter in a REQ).

Things proved about the code that its documentation does not say:

- A filter with two tag keys or more selects nothing from the database
  (`FilterMeaning.ManyTagKeysSelectNothing`), because both conditions are put on one joined row;
  and criteria that are empty or that JSON escapes are not found either.
  `FilterMeaning.CompilationExactlyWhen` says exactly which filters keep their meaning, and
  `FilterMeaning.SoundExactlyWhen` exactly which select only what matches.
- If a publisher disconnects between the insert of its event and the broadcast, the event is
  stored but never broadcast (`LostBroadcast.EveryEventCanBeMissed`), because closing removes the
  adapter's listeners. `NoGap.NoGapBetweenHistoryAndLive` holds with this one exception, and
  `ExactGap.SentExactlyWhen` says exactly which of these events a subscription was sent all the same:
  those that its own query found.
- A query sends an event more than once if it is for a single filter with a tag key and several rows of
  the tag index answer that key, because the join has no DISTINCT: a reply to two events is sent twice
  to a REQ for the replies to either (`RepeatedEvents.SentTwice`). `RepeatedEvents.SentOnceExactly` says
  exactly when an event is sent once.
- Appending a restriction to a rune's text may widen the rune if the text ends in a lone backslash
  (`RuneAttenuation.DanglingDoesNotAttenuate`). `RuneNarrowing.NarrowsExactly` says exactly which
  runes every appended text narrows: those without such a backslash, and of those with one the runes
  whose last restriction is implied by the others.
- The slot of a parameterized replaceable event is keyed by everything that follows the name of
  its first "d" tag with a value, where NIP-33 names only the first value of the first "d" tag. The
  slot is that address if and only if what follows the name is that one value
  (`AddressableEvents.AddressIsSlotExactly`), and the table keeps only the latest version if and only
  if all versions agree in the further values too (`AddressableEvents.OneRowPerAddressExactly`).
- The limiter passes a period in milliseconds where Redis expects seconds, which never changes an
  answer; a period of zero counts only the hit itself, whatever the history
  (`RateLimiter.ZeroPeriodCountsItself`); and hits of one millisecond count once
  (`RateLimiter.SameMillisecondPasses`).
- A confirmation that fails a guard throws before its transaction has begun, so that the rollback's
  own error is the one that is reported (`Ledger.GuardErrorsAreHidden`).
- A confirmation of an invoice that nobody created admits its payee and records no payment
  (`Ledger.UnknownInvoiceAdmits`); `Ledger.AdmissionRecordedExactly` says exactly when one is recorded.
- Without configured subscription limits every REQ fails (`Subscriptions.NothingWithoutLimits`).

## Model

| member | source | states |
|---|---|---|
| Hex.HexRoundTrip | src/utils/transform.ts:9-11 | decoding an even-length lowercase hex string to bytes and encoding it again gives the string |
| Hex.BytesRoundTrip | src/utils/transform.ts:9-11 | encoding bytes and decoding again gives the bytes: hex is a bijection |
| Hex.EvenPrefix | src/repositories/event-repository.ts:82-89 | an even prefix starts the hex string exactly if the leading bytes of the column equal its bytes |
| Hex.OddPrefix | src/repositories/event-repository.ts:90-101 | an odd prefix starts the hex string exactly if the leading bytes lie, in lexicographic order, between prefix0 and prefixf |
| Hex.PrefixCompilationExact | src/repositories/event-repository.ts:42-51 | for a 64-digit id and a prefix of any length, the byte test chosen by the length class answers startsWith |
| Events.RowRoundTrip | src/utils/event.ts:27-35 | reading a stored row back gives the event that was stored, whatever its deduplication key |
| TagIndex.StoredTextExact | migrations/20240108_130100_add_event_tags_table.js:29-30 | trimming the JSON text of a string gives the string back exactly if JSON does not escape any of its characters |
| TagIndex.TriggerKeepsAgreement | migrations/20240108_130100_add_event_tags_table.js:24-34 | after an insert or an update, also one that changes the row's id, the index holds exactly the indexable tags of the current rows |
| TagIndex.IndexedExactly | migrations/20240108_130100_add_event_tags_table.js:27-34 | a plain, non-empty value is in the index under a letter exactly if the row's event has such a tag |
| JsonStrings.JsonRoundTrip | migrations/20240108_130100_add_event_tags_table.js:29-30 | the JSON text of a string, read by the rules of RFC 8259, is that string |
| EventRepository.EventRepository.RunTrigger | migrations/20240108_130100_add_event_tags_table.js:24-35 | the trigger's delete and loop leave the index of the specification |
| EventRepository.EventRepository.CreateEvent | src/repositories/event-repository.ts:169-195 | insert-or-ignore: a taken id changes nothing and counts 0, a new one adds its row and counts 1; indexes stay valid |
| EventRepository.EventRepository.UpsertEvent | src/repositories/event-repository.ts:197-241 | the slot's row is replaced only by a strictly newer event, an id taken outside the slot is an error that changes nothing; indexes stay valid |
| EventRepository.UpsertExactly | src/repositories/event-repository.ts:224-241 | a stale event changes nothing, an id taken outside the slot violates the constraint, and any other event is written |
| EventRepository.EventRepository.DeleteEvents | src/repositories/event-repository.ts:243-253 | the update marks and counts the author's listed rows that were not yet deleted |
| EventRepository.DeleteRowsExact | src/repositories/event-repository.ts:243-253 | a soft deletion changes only the deletion marks of the author's listed rows, and counts exactly the rows it changed |
| EventRepository.DeleteIsOwn | src/repositories/event-repository.ts:246-252 | no row of another author changes, nothing but the mark changes, and no mark is taken back |
| EventRepository.UpsertRemoves | src/repositories/event-repository.ts:224-234 | the only row an upsert can remove or change is the older one of its own slot |
| EventStrategies.DispatchAgreesWithIndex | src/factories/event-strategy-factory.ts:16-28 | the kinds dispatched to an upsert are exactly the kinds of the partial unique index |
| EventStrategies.KeyFollowsName | src/handlers/event-strategies/parameterized-replaceable-event-strategy.ts:22-22 | the slot key is everything that follows the name of the first "d" tag that has a value, or one empty value without such a tag |
| EventStrategies.IdsToDeleteExact | src/handlers/event-strategies/delete-event-strategy.ts:22-32 | an id is deleted exactly if it is 64 lowercase hex digits and the second element of an "e" tag, whatever follows it |
| EventStrategies.CollectIds | src/handlers/event-strategies/delete-event-strategy.ts:27-32 | the loop over the tags collects those ids in order |
| EventStrategies.ExecuteDefault | src/handlers/event-strategies/default-event-strategy.ts:17-25 | an event whose id is there is reported as a duplicate and not broadcast; any other is stored, confirmed and broadcast once, in this order |
| EventStrategies.ExecuteDelete | src/handlers/event-strategies/delete-event-strategy.ts:19-47 | deletes the named events of the author first, then stores the delete event itself; it is broadcast exactly if its own id was new |
| EventStrategies.ExecuteReplaceable | src/handlers/event-strategies/replaceable-event-strategy.ts:17-44 | a stale event is reported as a duplicate, an id taken outside the slot as a rejection, and any other event is written, confirmed and broadcast once |
| EventStrategies.ExecuteParameterizedReplaceable | src/handlers/event-strategies/parameterized-replaceable-event-strategy.ts:19-35 | the same, keyed by the tail of the "d" tag, except that the error of a taken id passes through |
| AddressableEvents.SlotsAgreeExactly | src/handlers/event-strategies/parameterized-replaceable-event-strategy.ts:22-27 | two events of one author and kind share a slot exactly if their first "d" tags with a value agree in that value and in all that follows it |
| AddressableEvents.AddressIsSlotExactly | src/handlers/event-strategies/parameterized-replaceable-event-strategy.ts:22-27 | sharing a slot is sharing the address of NIP-33, against all events keyed by just that address, if and only if the event's own key is just that address |
| AddressableEvents.KeptExactlyWinners | src/repositories/event-repository.ts:224-234 | after any client run a submitted replaceable event is in the table exactly if it won its slot |
| AddressableEvents.OneRowPerAddressExactly | src/repositories/event-repository.ts:210-214 | after any client run the table has one row for an author, kind and first "d" value if and only if all submitted events with them agree in the further values |
| AddressableEvents.OlderVersionStays | src/repositories/event-repository.ts:210-214 | of two versions with the same first "d" value the older stays visible exactly if the further values differ |
| EventStrategies.RunKeepsConsistent | migrations/20240108_130100_add_event_tags_table.js:41-44 | after any run of statements, slots are unique and the tag index agrees with the table, with no leftovers |
| ReplaceableSlots.SlotsConverge | src/repositories/event-repository.ts:224-234 | after any run of client statements each submitted slot has exactly one row: the event with the greatest created_at, the first submitted among ties |
| ReplaceableSlots.OrderDoesNotMatter | migrations/20221224_164100_add_group_chat_to_replaceable_events_unique_index.js:24-33 | with distinct times and no deletions, the same statements in any order and number give the same table and the same index of every event |
| Tombstones.RegularTombstonePersists | src/repositories/event-repository.ts:191-194 | a soft-deleted regular row stays exactly as it is, whatever statements follow |
| Tombstones.SlotTombstonePersists | src/repositories/event-repository.ts:221-234 | a soft-deleted slot keeps its deleted row until a strictly newer upsert of that slot replaces it |
| Tombstones.TagDeletesRow | src/handlers/event-strategies/delete-event-strategy.ts:22-41 | a row of the author is deleted by an "e" tag with its id and any further elements |
| Tombstones.DeleteEventExact | src/handlers/event-strategies/delete-event-strategy.ts:34-41 | handling a delete event marks exactly its author's rows that its tags name, and changes no other row that was there |
| FilterCompiler.AddPrefixes | src/repositories/event-repository.ts:82-101 | the forEach over one length class appends one condition for each prefix, in order |
| FilterCompiler.BuildPrefixGroup | src/repositories/event-repository.ts:70-106 | the callback builds the specified disjunction; an empty list gives a condition that never holds |
| FilterCompiler.AddTags | src/repositories/event-repository.ts:133-156 | one group for each tag key, and the join exactly if there is a tag key |
| FilterCompiler.FindByFilters | src/repositories/event-repository.ts:61-167 | no filter is an error; otherwise one compiled query for each filter |
| FilterCompiler.ThreeValues | src/repositories/event-repository.ts:133-151 | conditions combine as in SQL: a disjunction is the greatest and a conjunction the least of its parts in the order false, unknown, true |
| FilterCompiler.PrefixGroupExact | src/repositories/event-repository.ts:69-110 | the or-ed length classes hold exactly if some prefix of the list starts the value |
| FilterCompiler.ColumnGroupsExact | src/repositories/event-repository.ts:107-122 | the conditions on columns hold exactly if the filter without its tag keys matches the event |
| FilterCompiler.TagGroupExact | src/repositories/event-repository.ts:139-149 | a tag group holds exactly if the joined row has that name and one of the values; never without a joined row |
| FilterMeaning.QueryAgrees | src/repositories/event-repository.ts:66-159 | with at most one tag key and plain criteria, the query selects a stored row exactly if the filter matches its event |
| FilterMeaning.SelectedImpliesMatching | src/utils/event.ts:43-105 | for any number of tag keys, what the query selects, the filter matches; for a single key, if no other string is stored as one of its criteria |
| FilterMeaning.SoundExactlyWhen | src/repositories/event-repository.ts:133-156 | everything selected matches if and only if the filter is unsatisfiable, or has not exactly one tag key, or no other string is stored as one of its criteria |
| FilterMeaning.ManyTagKeysSelectNothing | src/repositories/event-repository.ts:153-156 | with two tag keys or more the query selects nothing |
| FilterMeaning.UnionAgrees | src/repositories/event-repository.ts:161-164 | the union over a list of filters selects a row exactly if some filter matches its event |
| RepeatedRows.CopiesExact | src/repositories/event-repository.ts:133-156 | without tag keys the query has a matching row once, with tag keys once for each row of the tag index that answers them all |
| RepeatedRows.AnswerRepeats | src/repositories/event-repository.ts:153-164 | the answer for a list of filters has a row it has at all once after UNION, and as often as the join repeats it for a single filter |
| RepeatedRows.FoundOnceExactly | src/repositories/event-repository.ts:153-164 | for plain criteria a list of filters finds an event once if and only if there are several filters, or no tag key, or exactly one of its tags is named |
| FilterMeaning.CompilationExactlyWhen | src/repositories/event-repository.ts:61-167 | compilation keeps a filter's meaning on every event if and only if the filter is unsatisfiable or has at most one tag key with plain, non-empty criteria |
| Subscriptions.LiveMessagesExact | src/adapters/web-socket-adapter.ts:113-121 | an event is sent exactly once to each subscription with a matching filter, and nothing else is sent |
| Subscriptions.SetExact | src/adapters/web-socket-adapter.ts:98-101 | registering changes exactly one key of the table |
| Subscriptions.DeleteExact | src/adapters/web-socket-adapter.ts:93-96 | closing removes exactly one key of the table |
| Subscriptions.UniqueMatchesAlike | src/handlers/subscribe-message-handler.ts:37-37 | dropping repeated filters, equal up to key order, changes nothing about which events match |
| Subscriptions.NeverTooMany | src/handlers/subscribe-message-handler.ts:96-101 | with a positive limit, no run of requests registers more subscriptions than it allows |
| Subscriptions.EntriesWithinLimits | src/handlers/subscribe-message-handler.ts:103-115 | every registered subscription is within the limits on filters and on the length of its id |
| Subscriptions.TableIsLatest | src/handlers/subscribe-message-handler.ts:35-49 | the table holds a subscription exactly if its last accepted REQ was not followed by a CLOSE or a disconnect, with exactly that request's filters |
| Subscriptions.TableSafety | src/handlers/subscribe-message-handler.ts:35-49 | every registered subscription has pairwise distinct filters that match exactly the events its request asked for |
| SubscriptionRules.SameFilterExactly | src/handlers/subscribe-message-handler.ts:37-37 | two filters are the same exactly if they differ at most in the order of their tag keys |
| SubscriptionRules.EveryFilterIsKept | src/handlers/subscribe-message-handler.ts:37-37 | of every filter of a REQ the same one is kept |
| SubscriptionRules.AcceptedExactly | src/handlers/subscribe-message-handler.ts:87-119 | a REQ is accepted exactly if there are settings, it does not repeat the subscription it names, a new one still fits, it has no more filters than allowed, and its id is short enough |
| SubscriptionRules.ReplacedExactly | src/handlers/subscribe-message-handler.ts:92-108 | in every run, also at the limit, a registered subscription is replaced by every list of filters but the same one and those that are too long |
| SubscriptionRules.OpenUntilDisconnect | src/adapters/web-socket-adapter.ts:253-270 | in every run a client is open exactly as long as it has not disconnected |
| Subscriptions.NothingWithoutLimits | src/handlers/subscribe-message-handler.ts:110-113 | without configured limits no run registers anything |
| WebSocketAdapter.WebSocketAdapter.OnSendEvent | src/adapters/web-socket-adapter.ts:113-121 | the loop over the table sends the messages of the specification, and none on a socket that is not open |
| WebSocketAdapter.WebSocketAdapter.OnHeartbeat | src/adapters/web-socket-adapter.ts:131-141 | a client that missed the last ping is dropped exactly if it has no subscriptions |
| WebSocketAdapter.WebSocketAdapter.OnUnsubscribed | src/adapters/web-socket-adapter.ts:93-96 | the connection goes on as the run of one client does on a CLOSE: that subscription is gone, all others stand |
| WebSocketAdapter.WebSocketAdapter.OnClientClose | src/adapters/web-socket-adapter.ts:253-270 | the connection goes on as the run of one client does on a disconnect, from which nothing is ever registered again |
| WebSocketAdapter.WebSocketAdapter.HandleRequest | src/handlers/subscribe-message-handler.ts:35-46 | a REQ is registered and leads to a query, or is refused with one notice, or fails, and changes the table in no other way |
| WebSocketAdapter.WebSocketServerAdapter.OnBroadcast | src/adapters/web-socket-server-adapter.ts:72-83 | every open client is sent the event exactly once on each of its matching subscriptions and nothing else, as a connection of the cluster is; no other client is sent anything |
| WebSocketAdapter.AppWorker.OnBroadcast | src/adapters/web-socket-adapter.ts:103-111 | a client's broadcast is sent to the worker's clients in just that way, and goes to the primary once |
| WebSocketAdapter.AppWorker.OnMessage | src/app/worker.ts:32-34 | a forwarded broadcast is sent to the worker's clients in just that way, and never sent on |
| WebSocketAdapter.App.OnClusterMessage | src/app/app.ts:118-128 | every worker except the one it came from gets the message exactly once |
| RelayStore.AcceptedOnce | src/repositories/event-repository.ts:191-234 | an event that the table ever took is not taken again |
| RelayStore.BroadcastBegins | src/handlers/event-strategies/default-event-strategy.ts:19-24 | the cluster begins an event's broadcast exactly where the event's strategy emits one |
| RelayStore.CommitKeepsSound | src/handlers/event-strategies/replaceable-event-strategy.ts:20-27 | a commit changes nothing, or stores an event that was never taken before, visible, and keeps the table sound |
| RelayStore.NextKeepsStore | src/repositories/event-repository.ts:169-253 | every step of the cluster keeps the table sound, and keeps deleted what a query has found deleted |
| ClusterStorage.ReachableIsClientRun | src/handlers/event-strategies/default-event-strategy.ts:17-25 | in every interleaving the cluster's table is that of some run of client statements, with the statement of every accepted event in it |
| ClusterStorage.ClusterSlotsConverge | src/repositories/event-repository.ts:224-234 | in every interleaving the slot of an accepted replaceable event has exactly one row, an accepted event's, and no accepted event of the slot is newer |
| ClusterStorage.ClusterTombstonePersists | src/repositories/event-repository.ts:191-194 | a deleted regular row stays as it is, whatever the cluster does next |
| ClusterStorage.DeletedStaysHidden | src/handlers/subscribe-message-handler.ts:66-66 | a deleted regular event is in no later query's answer, and no later submission of it is stored or begins a broadcast, whatever the cluster does next |
| ClusterStorage.ClusterSlotTombstonePersists | src/repositories/event-repository.ts:221-234 | a deleted slot keeps its row until a submitted event of the slot that is strictly newer replaces it |
| AtMostOnce.PendingForward | src/app/app.ts:118-128 | forwarding neither loses nor duplicates what is to come in any worker |
| AtMostOnce.NextKeepsOnce | src/adapters/web-socket-adapter.ts:103-111 | every step keeps the balance of broadcasts still to come, made and lost, and of live messages on every subscription |
| AtMostOnce.BroadcastByOneWorker | src/adapters/web-socket-adapter.ts:103-111 | however often and wherever an event is submitted, at most one worker broadcasts it; once nothing is in flight, exactly one did, unless the broadcast was lost |
| AtMostOnce.LiveAtMostOnce | src/adapters/web-socket-server-adapter.ts:72-83 | in every run each subscription of each connection gets an event live at most once |
| NoGap.ResultsComplete | src/handlers/subscribe-message-handler.ts:59-71 | a query's snapshot streams every stored matching event that is not deleted |
| NoGap.NextKeepsCovered | src/handlers/subscribe-message-handler.ts:46-48 | after every step, a stored event that an open subscription asks for was sent on it since its registration, is on its way, is still to be streamed, was found deleted, or was lost |
| NoGap.NoGapBetweenHistoryAndLive | src/handlers/subscribe-message-handler.ts:46-48 | in every run, once nothing is in flight, every stored event matching an open subscription was sent by the query of its present registration or live since then, unless that query found it deleted or its publisher had left before the broadcast |
| NoGap.FreshQueryAddsNothing | src/handlers/subscribe-message-handler.ts:51-81 | once nothing is in flight, asking again returns only events already sent since the present registration, or lost broadcasts |
| Progress.AlwaysSettles | src/app/app.ts:118-128 | from every reachable state the relay's own steps, without any request of a client, can bring every broadcast and every query to its end |
| Progress.BroadcastArrives | src/adapters/web-socket-server-adapter.ts:72-83 | from every reachable state an event whose broadcast has begun can come to be sent, by the relay's own steps, on every open subscription that asks for it and whose query did not find it deleted |
| Progress.TwoWorkers | src/app/app.ts:118-128 | so it is in a cluster of two workers, whatever the event |
| Progress.OtherWorkerHears | src/app/app.ts:118-128 | for any two workers and every valid event that is not ephemeral there is a run in which a client of the one publishes it and a client of the other is sent it live |
| EndOfStored.AnsweredCompletely | src/handlers/subscribe-message-handler.ts:63-71 | in every run, once the query of an accepted REQ of an open connection no longer runs, it has sent each event it found as often as it found it, and then end-of-stored-events exactly once and last |
| EndOfStored.NotAnsweredEarly | src/handlers/subscribe-message-handler.ts:55-70 | while a query runs, no end-of-stored-events was sent for it |
| RepeatedEvents.SentAsRepeated | src/repositories/event-repository.ts:153-164 | in every run, an event that the query found was sent once if there are several filters or no tag key, and otherwise once for each row of the tag index that answers the key |
| RepeatedEvents.SentOnceExactly | src/repositories/event-repository.ts:153-164 | it was sent exactly once if and only if there are several distinct filters, or no tag key, or exactly one row of the tag index answers; for plain criteria, exactly one of the event's tags is named by them |
| RepeatedEvents.RepetitionIsReal | src/handlers/subscribe-message-handler.ts:51-71 | from every state in which no query runs, a new subscription can come to be sent a stored event as often as its filters repeat it |
| RepeatedEvents.SentTwice | src/repositories/event-repository.ts:153-156 | an event with two "e" tags is sent twice to a REQ with one filter that names both |
| SoundDelivery.QueriesSendWhatWasAskedFor | src/handlers/subscribe-message-handler.ts:66-69 | in every run every event a query sends was stored, and matches the filters of that query's own registration |
| SoundDelivery.LiveWhileStanding | src/adapters/web-socket-adapter.ts:113-121 | in every run every live message was sent by a step at which its subscription was open on the connection with a matching filter |
| LostBroadcast.LeavingPublisherLosesBroadcast | src/adapters/web-socket-adapter.ts:268-268 | from every state with nothing in flight, a publisher that leaves after the insert makes a matching subscription miss its event, delete events included |
| LostBroadcast.EveryEventCanBeMissed | src/handlers/event-strategies/default-event-strategy.ts:19-24 | for every valid event that is not ephemeral there is such a run from the start, with a subscription to everything that was open all along |
| ExactGap.SentExactlyWhen | src/handlers/subscribe-message-handler.ts:46-48 | in every run, once nothing is in flight, a stored event that an open subscription asks for and whose query did not find it deleted was sent on it since its registration if and only if its broadcast was not lost or that query found it |
| ExactGap.FreshQueryBrings | src/handlers/subscribe-message-handler.ts:51-81 | asking again brings an event that was not sent since the registration if and only if its broadcast was lost and the present query did not find it |
| RuneOperators.PunctuationExactly | src/utils/runes/alternative.ts:3-3 | a field ends at the first printable character that is no letter, digit, space or underscore |
| RuneAlternative.FindOperator | src/utils/runes/alternative.ts:88-94 | the first loop finds the first operator character |
| RuneAlternative.ScanValue | src/utils/runes/alternative.ts:102-119 | the second loop reads the unescaped value and stops at the exact remainder |
| RuneAlternative.DecodeEncode | src/utils/runes/alternative.ts:80-122 | decoding an encoded alternative in front of any text that may follow gives it back, with the exact remainder |
| RuneAlternative.DecodeShortens | src/utils/runes/alternative.ts:84-122 | decoding strictly shortens the text |
| RuneOperators.MissingField | src/utils/runes/alternative.ts:32-34 | at a missing field only "!" and "#" hold |
| RuneOperators.OnlyTheField | src/utils/runes/alternative.ts:40-40 | what an alternative says of a field that is there depends on that field's value alone |
| RuneOperators.Equality | src/utils/runes/alternative.ts:45-48 | "=" holds of the value alone, and "/" of every other |
| RuneOperators.Beginning | src/utils/runes/alternative.ts:49-50 | "^" holds exactly of what is the value and something after it |
| RuneOperators.Ending | src/utils/runes/alternative.ts:51-52 | "$" holds exactly of what is something and the value after it |
| RuneOperators.Containing | src/utils/runes/alternative.ts:53-54 | "~" holds exactly of what has the value somewhere in it |
| RuneOperators.Numbers | src/utils/runes/alternative.ts:55-72 | "<" and ">" hold exactly between two integers of which the field's is the smaller, or the greater |
| RuneOperators.Ordering | src/utils/runes/alternative.ts:73-76 | "{" and "}" compare by the first difference, and of "{", "=" and "}" exactly one holds |
| RuneRestriction.TestRestriction | src/utils/runes/restriction.ts:14-25 | passes exactly if some alternative passes; otherwise joins all the reasons |
| RuneRestriction.DecodeRestriction | src/utils/runes/restriction.ts:31-47 | the decoding loop computes the specified restriction and remainder, or its error |
| RuneRestriction.CollectEncoded | src/utils/runes/restriction.ts:27-47 | decoding encoded alternatives gives them back, and consumes the separator that follows |
| RuneLike.TestRune | src/utils/runes/rune-like.ts:10-19 | passes exactly if every restriction does; otherwise gives the reasons of the first that fails |
| RuneLike.From | src/utils/runes/rune-like.ts:25-36 | the parsing loop computes the specified rune or error, and ends |
| RuneLike.WhitespaceExactly | src/utils/runes/rune-like.ts:28-28 | the characters that are stripped are the white space and line terminators of ECMA-262 |
| RuneLike.RoundTrip | src/utils/runes/rune-like.ts:21-36 | parsing an encoded rune without whitespace gives the rune, including empty fields and values, escapes, and the empty rune |
| RuneLike.Normalises | src/utils/runes/rune-like.ts:21-36 | for every accepted text, encoding and parsing again gives the same rune |
| RuneAttenuation.StringConjunction | src/utils/runes/rune-like.ts:10-36 | joining two encoded runes with an ampersand parses to a rune that passes exactly if both pass |
| RuneAttenuation.ParseExtends | src/utils/runes/rune-like.ts:25-36 | appending an ampersand and any text appends the text's restrictions, exactly if the rune's text does not end in a dangling backslash |
| RuneAttenuation.Attenuates | src/utils/runes/rune-like.ts:10-19 | appending to a text without a dangling backslash never turns a failure into a pass |
| RuneAttenuation.DanglingDoesNotAttenuate | src/utils/runes/alternative.ts:114-118 | to a text that is a field, an equals sign and a dangling backslash, appending does turn a failure into a pass, for every field and text |
| RuneNarrowing.NarrowsExactly | src/utils/runes/rune-like.ts:10-36 | no appended text ever turns a failure into a pass if and only if the text, without whitespace, has no dangling backslash, or its last restriction is implied by the others |
| RuneNarrowing.DanglingAlternative | src/utils/runes/alternative.ts:24-27 | so a dangling text of one alternative is narrowed by every appended text exactly if it is a comment |
| RateLimiter.MemberRoundTrip | src/utils/sliding-window-rate-limiter.ts:22-27 | the step read back from a printed member is the step of the hit |
| RateLimiter.PrintInjective | src/utils/sliding-window-rate-limiter.ts:22-22 | different hits print to different members, apart from hits of equal time and step |
| RateLimiter.RedisAdapter.RemoveRangeByScoreFromSortedSet | src/adapters/redis-adapter.ts:67-71 | exactly the live members whose score is out of the range remain, with their scores and expiry; other keys are untouched |
| RateLimiter.RedisAdapter.AddToSortedSet | src/adapters/redis-adapter.ts:85-96 | one member has the score, all other live members and the expiry are as before; other keys are untouched |
| RateLimiter.RedisAdapter.GetRangeFromSortedSet | src/adapters/redis-adapter.ts:73-77 | lists every live member exactly once |
| RateLimiter.RedisAdapter.SetKeyExpiry | src/adapters/redis-adapter.ts:79-83 | at every later time up to that many seconds from now the key has its present members, and after that none; other keys are untouched |
| RateLimiter.SlidingWindowRateLimiter.Hit | src/utils/sliding-window-rate-limiter.ts:12-32 | the four commands have the effect and the answer of the specification |
| RateLimiter.RunTracks | src/adapters/redis-adapter.ts:67-96 | after every run the stored set is exactly the window of the history at the key's last hit, with its expiry |
| RateLimiter.AnswerIsFullWindow | src/utils/sliding-window-rate-limiter.ts:17-31 | a hit is limited exactly if the distinct members of the whole history in the window sum to more than the rate: neither pruning nor expiry changes an answer |
| RateLimiter.ZeroPeriodCountsItself | src/utils/sliding-window-rate-limiter.ts:20-25 | with a period of zero, whatever the history, the answer is that of the window if and only if the step is within the rate |
| RateLimiter.WindowBound | src/utils/sliding-window-rate-limiter.ts:20-31 | in every window of every run the accepted members together stay within the rate |
| RateLimiter.WindowBoundOnHits | src/utils/sliding-window-rate-limiter.ts:20-31 | accepted unit hits with distinct times number at most the rate in every window |
| RateLimiter.SameMillisecondPasses | src/utils/sliding-window-rate-limiter.ts:22-22 | any number of hits of one millisecond pass a rate of one |
| RateLimitKeys.KeyInjective | src/handlers/event-message-handler.ts:223-230 | author, period and list of kinds or ranges are determined by the printed key |
| EventMessageHandler.AppliesExactly | src/handlers/event-message-handler.ts:242-244 | a limit applies exactly if it has no kinds, or lists the kind or a range around it |
| EventMessageHandler.HitsExactly | src/handlers/event-message-handler.ts:222-246 | one check hits exactly the buckets of the limits that apply, each by one |
| EventMessageHandler.IsRateLimited | src/handlers/event-message-handler.ts:195-256 | every applicable limit is hit, and the event is limited exactly if some limit answered so; an exempt sender hits nothing |
| EventMessageHandler.LimitedByMeansFullWindow | src/handlers/event-message-handler.ts:239-256 | a limit rejects exactly if its own window over the whole history is over its rate |
| EventMessageHandler.BucketsAreSeparate | src/handlers/event-message-handler.ts:227-237 | two hits share a bucket exactly if author, period and kinds are the same |
| ProofOfWork.Msb | src/utils/proof-of-work.ts:14-27 | the leading zero bits of one byte |
| ProofOfWork.GetLeadingZeroBits | src/utils/proof-of-work.ts:1-12 | the result k bounds the big-endian value V of the n bytes: V < 2^(8n-k), and V >= 2^(8n-k-1) unless k = 8n |
| ProofOfWork.DifficultyMet | src/utils/proof-of-work.ts:1-12 | the result is at least d exactly if V < 2^(8n-d) |
| ProofOfWork.LeadingZerosUnique | src/utils/proof-of-work.ts:1-12 | no other number satisfies the two bounds |
| Ledger.PaymentsService.CreateInvoice | src/services/payments-service.ts:50-111 | registers user and invoice, keeps what a known user or invoice has, and leaves both tables alone when the processor fails |
| Ledger.PaymentsService.ConfirmInvoiceProcedure | migrations/20230220_002700_fix_unit_confirm_invoice_func.js:16-32 | credits the scaled amount to the payee unless the invoice is confirmed already or a number overflows |
| Ledger.PaymentsService.ConfirmInvoice | src/services/payments-service.ts:136-206 | guards, confirmation and admission in one transaction that an error rolls back; the error reported is the rollback's own if the transaction had not begun |
| Ledger.Transaction.Rollback | src/database/transaction.ts:31-36 | gives the tables as they were at the beginning, or its own error if the transaction has not begun |
| Ledger.GuardErrorsAreHidden | src/services/payments-service.ts:143-153 | the caller sees the rollback's error exactly if a guard failed, and never the guard's message |
| Ledger.ConfirmFailsExactly | migrations/20230220_002700_fix_unit_confirm_invoice_func.js:16-31 | the procedure fails exactly if the amount, or the credit or new balance of a payee who gets one, does not fit 64 bits |
| Ledger.CreditPerUnit | migrations/20230220_002700_fix_unit_confirm_invoice_func.js:24-30 | a confirmation credits the amount for millisatoshis, a thousand times the amount for satoshis, a hundred thousand million times for bitcoins |
| Ledger.PaymentsService.AdmissionFeeAmount | src/services/payments-service.ts:174-180 | the loop sums the fee of the specification |
| Ledger.FeesAdd | src/services/payments-service.ts:177-180 | the fee of two lists of schedules is the sum of their fees |
| Ledger.FeeOfOne | src/services/payments-service.ts:174-180 | a schedule adds its amount exactly if it is enabled and none of its prefixes begins the public key |
| Ledger.PaymentsService.ChargeUser | migrations/20230120_161800_charge_user_func.js:13-19 | takes the amount exactly if the user's balance covers it, and otherwise changes nothing |
| Ledger.LedgerIsConserved | migrations/20230220_002700_fix_unit_confirm_invoice_func.js:16-31 | after every run each balance is the scaled sum of the user's confirmed invoices, each once, less the successful charges; every payee is a user |
| Ledger.NoNegativeBalance | migrations/20230120_161800_charge_user_func.js:13-19 | without negative payments no balance is ever negative |
| Ledger.CreditedOnce | src/repositories/invoice-repository.ts:129-144 | a confirmed invoice keeps amount, payee and unit for good, also when it is created or confirmed again |
| Ledger.AdmittedByConfirmation | src/services/payments-service.ts:182-197 | in every run, nobody is admitted but by a successful confirmation that says the fee was paid |
| Ledger.UnknownInvoiceAdmits | src/services/payments-service.ts:157-197 | confirming an invoice nobody created admits its payee, and records neither an invoice nor a balance |
| Ledger.AdmissionRecordedExactly | src/services/payments-service.ts:157-197 | a confirmation that admits leaves a confirmed invoice covering the fee on record if and only if one was there before, or the invoice is known, unconfirmed, the payee's own and covers the fee in its unit on record |
| Ledger.MatchingInvoiceRecords | src/services/payments-service.ts:168-172 | with the unit on record, that is: known, unconfirmed, and the payee's own |
| Ledger.AdmittedHasPaid | src/services/payments-service.ts:166-197 | in a run whose admitting confirmations meet that condition, every admitted user has, to the end, a confirmed invoice that covers the fee |

## Left out

- LIMIT and ordering of query results, and what UNION makes of the first filter's limit: results are multisets below the limits, in any order.
- A query that fails while it streams: it ends without end-of-stored-events (src/handlers/subscribe-message-handler.ts:72-81), where every query of the model runs to its end.
- Reading from a replica that lags behind: queries read the table that statements change.
- A worker that crashes between insert and broadcast, and a receiving socket that is closing while its listeners are still there.
- Broadcasts that do not start at a client's adapter: the mirroring worker and payment notifications.
- Ephemeral events: they are broadcast without being stored, and the theorems about delivery do not speak of them.
- Rows that a mirror creates for replaceable kinds have no deduplication key; the storage model has them, the theorems about slots do not speak of them.
- The columns remote_address and expires_at, and strings that jsonb rejects (the NUL character).
- RuneAlternative: function-valued and array-valued fields, names inherited from the prototype, and `Alternative.from`.
- RuneAlternative.ScanValue: characters are Unicode characters, not UTF-16 code units; `parseInt` is a parameter.
- Signatures, hashes and NIP-04: an event that is submitted is taken to be valid.
- `canAcceptEvent` in both places and the admission check before an event is handled: each result can be read off its branches.
- RateLimiter.SlidingWindowRateLimiter.Hit: Redis's clock is taken to be the timestamp of the hit; the four commands run in order and without commands of other workers between them, and the order of ZRANGE is left open because the sum does not depend on it.
- FilterCompiler.BuildPrefixGroup: the three length classes are or-ed in a fixed order; the relay follows the order in which they first occur.
- EventRepository.EventRepository.DeleteEvents: the UPDATE visits the rows in the order of the list; the result is the same in any order (`EventRepository.DeleteRowsExact`).
- WebSocketAdapter.WebSocketAdapter.OnHeartbeat: the ping itself and the logging.
- Ledger.PaymentsService.CreateInvoice: an error of beginning or committing a transaction; descriptions, payment requests, expiry and time stamps; and notifications after a confirmation. A later migration drops the two tables (migrations/20251125_022004_drop_payment_tables.js).
- HTTP controllers, settings files, Tor, logging and connection pools.
