# EventAlpha: a verified model

EventAlpha ingests news items and market observations, stores them append-only, and answers reads
that must not depend on when, by whom and how often something was delivered. This project models its
three stateful parts in Dafny and proves what they keep over whole runs.
`dafny verify dfyconfig.toml` checks everything.

**Canonical events.** `EventService.ingest` clusters items into versioned events and maintains four
dictionaries; `SqlEventRepository` stores each version as rows and rebuilds the dictionaries. The
reference for both is the log of commits (`EventLog`): the dictionaries are its index, the tables its
rows. `TitleWords` and `EventJoining` say on titles and fields when an item joins which event, and
`EventLineage` what the mentions and the independence of an event say about its items. On the log
rest refresh and time travel (`EventTables`), in any order of rows (`EventReload`, `EventTies`),
restart (`EventRestart`), redelivery (`Redelivery`, `EventReplay`, `EventRedelivery`, and
`EventReadings` for live sources), crashes of a persistent worker (`EventCrashes`, `EventProgress`), the
shape of clusters (`EventClusters`), the safety of many processes over one database (`EventProcesses`,
`EventAnyOrder`) and what stale writers do to it (`EventStaleWriters`, `EventStaleRuns`,
`EventWorkerOrder`).
`EventService` holds the classes, loop by loop as in the source, proved against that specification.

**Market observations.** `SqlMarketRepository` deduplicates by fingerprint (`MarketContracts`) and
answers point-in-time reads (`MarketStore`; on the fields of rows and quotes in `MarketReads`);
`MarketDataService` runs the reconnect loop, which is driven here by a script of what provider and
database do (`QuoteStream`, `QuoteStreamFacts`, `QuoteTies`, `BarRefresh`); `QuoteCalls` follows one
service over all its calls. `ReplayMarket` and `MarketWorker` prove that the store, filled by polling,
answers like the provider. `MarketService` holds the classes.

**Migrations.** `Migrations` models the checksummed ledger of `apply_migrations`, `MigrationTexts` what is
read from a file, and `MigrationOrder` the order in which releases apply their files.

## What the proofs found

- A worker builds its service, which loads the state, before it takes the lease. A second worker can
  therefore ingest from a snapshot that the first has outdated, and its save then overwrites a
  committed version row. `LoadBeforeLeaseRewritesHistory` gives the run; `RunIsSafe` proves safety for
  workers that ingest only if their load lies inside the lease or no commit came between the two.
- `StaleSaveKeepsHistoryIff` says exactly when a save keeps every committed version as it reads, for a
  worker that knows what it has loaded and what it has committed since, while others have committed too:
  the version it writes is committed already as the very same event, or it is not committed yet and the
  raw item is new to the tables. `RunKeepsHistoryIffUnchanged` decides it for every interleaving of
  workers, whenever they loaded, whose raw items are new: no version is rewritten if and only if every
  save found its event in the saver's memory as it was in the database. Such a save may still found a
  second event for one story.
- An empty native id counts as missing when the identity key is built, but not for the unique index
  on native ids: the database refuses the second item of a source that has one
  (`RefusedByUniqueIndex`, `SecondEmptyIdIsRefused`). A worker starting over with such a feed meets the same
  item again: `WorkerGetsThroughIff` says that it gets through, once left alone, if and only if its feed does
  not hold two such items.
- The newest delivery of a bar need not be the one that is shown: an observation keeps the receipt time
  of its first delivery. `ShownIff` gives the exact condition for any order of deliveries,
  `NewestFirstDeliveryIsShown` for deliveries in receipt order.
- `bars` with a limit below 1 returns all bars (`BarsAreNewest`).
- Fingerprints of bars are never ambiguous. A quote can share its fingerprint with a different one, but
  only if its provider or native id hides a symbol between separators (`CollidesIff`), and never with a
  quote of its own provider (`QuotesDedupeIff`).
- After any sequence of `refresh_watchlist` and `latest` without database errors, cache and store of a
  service that started with both empty agree on the effective time of the latest quote, but may pick
  different quotes of that time (`TiesMayDiffer`); `CacheIsStoreIff` says exactly when they pick the
  same one.
- A chain of releases applies its files in the order of a fresh install if and only if each release adds
  only names that sort after the older ones (`ChainOrderIff`); where no statement occurs twice and no file is
  without one this also decides whether the schemas are the same (`UpgradeEqualsFreshInstallIff`).

## How things are represented

- Times are integer microseconds. Event ids are numbers in the order of their hexadecimal texts; they
  come from an injective supply that is consulted only when an event is created, and a raw item id
  names one item.
- Similarity is a real quotient of set sizes; independence is counted in quarters. Prices are counts
  of 10^-10, the resolution of the columns.
- SHA-256 is an injective function of the text (`Digest`); the order it gives to fingerprints is not
  that of hexadecimal digests, and no theorem depends on which order it is.
- What counts as a letter or digit of a title, and how it is lowered, is left open (`ALPHABET`).
- A save is one transaction, and a load one snapshot. `EventTables`, `EventProcesses` and
  `EventStaleRuns` read rows in insertion order; `EventRowOrder`, `EventReload`, `EventTies` and
  `EventAnyOrder` prove what any other order can change.
- Whether the database takes a write, what a provider does next, clocks and jitter are parameters.
- A feed read again brings the same items under new raw ids, as a recorded one does; `EventReadings` asks
  for equal identity keys only.
- The system of processes is a state machine: `Action` lists the steps, and an action that is not
  enabled changes nothing.

## Model

| member | source | states |
|---|---|---|
| `TitleSimilarity.WordsAtSeparator` | services/api/app/events/service.py:15-21 | A character that is not alphanumeric splits a title into two parts whose fingerprints together are the fingerprint of the whole, for any tables of letters and lower case |
| `TitleSimilarity.WordOrderIsIrrelevant` | services/api/app/events/service.py:15-21 | Swapping the two halves of a title around any punctuation leaves the fingerprint as it is, for any tables of letters and lower case |
| `TitleWords.FingerprintIsExact` | services/api/app/events/service.py:15-21 | A word is in the fingerprint of a title if and only if it has more than two characters and is the lower case of a maximal run of letters and digits, said by positions in the title, for any tables of letters and lower case |
| `TitleWords.SimilarIffAlike` | services/api/app/events/service.py:24-25 | Two titles have similarity at least 0.85 if and only if at least 85 of every 100 of their words together are shared, and there are any |
| `TitleWords.MoreSimilarIff` | services/api/app/events/service.py:24-25 | One title is more similar to a given one than another if and only if it shares a greater part of the words, by cross-multiplied counts |
| `TitleWords.SameWordsAreSimilar` | services/api/app/events/service.py:15-25 | Titles with the same words, and at least one, have similarity 1 |
| `TitleSimilarity.JaccardRange` | services/api/app/events/service.py:24-25 | Similarity lies in 0..1, is symmetric, is 0 next to an empty fingerprint (two empty ones included) and 1 for equal non-empty ones |
| `TitleSimilarity.JaccardTriangle` | services/api/app/events/service.py:24-25 | One minus the similarity obeys the triangle inequality for any three fingerprints, empty ones included |
| `TitleSimilarity.SimilarToOneTitle` | services/api/app/events/service.py:93-98 | Two titles that clear 0.85 against a third one have similarity at least 0.70 |
| `StableSort.SortPermutes` | services/api/app/events/service.py:144-146 | Sorting mentions neither loses, adds nor duplicates any |
| `StableSort.SortIsStable` | services/api/app/events/service.py:144-146 | The result is in order of receipt, and mentions received at one instant keep their order of arrival |
| `StableSort.StableSortIsUnique` | services/api/app/events/service.py:144-146 | Sortedness and the order within each instant determine the sequence, so there is only one stable sort |
| `StableSort.OneAtATimeIsWholeLog` | services/api/app/events/service.py:144-146 | Sorting again after each arrival, as ingest does, gives what one sort of the whole arrival log gives, as the reload does |
| `EventClustering.SimilarEvent` | services/api/app/events/service.py:87-106 | There is no similar event exactly when no live event is eligible; otherwise the chosen one outranks every other eligible event. EventJoining.ChosenIff says on the fields what is eligible and what outranks |
| `EventClustering.SimilarEventIsTheMaximum` | services/api/app/events/service.py:99-106 | An event is the chosen one if and only if it is eligible and every other eligible event ranks strictly below it, so there is one maximum |
| `EventClustering.SameIndexesSameChoice` | services/api/app/events/service.py:87-106 | The choice depends on the live events and the content index only |
| `EventClustering.NewEventIsWellFormed` | services/api/app/events/service.py:122-137 | A new event has version 1, one mention, its first and last receipt times and independence 0.5 |
| `EventClustering.InsertKeepsChain` | services/api/app/events/service.py:91-96 | A mention within 24 hours of the latest one, before or after it, leaves neighbouring mentions at most 24 hours apart and moves first and last to minimum and maximum |
| `EventClustering.ExtendIsWellFormed` | services/api/app/events/service.py:138-157 | An eligible item turns a well-formed event into a well-formed one: version = number of mentions, sorted, first and last are minimum and maximum, independence is min(1, 1/2 + (groups - 1)/4), gaps of at most 24 hours |
| `EventClustering.SpanOfChain` | services/api/app/events/service.py:139-157 | In a chain of mentions the k-th lies at most k windows after the first |
| `EventLog.History` | services/api/app/events/service.py:108-165 | In every log whose commits found or extend their event, reachable ones included, each event has had exactly the versions 1..n, each well formed and made from the one before, and the live event is version n |
| `EventLog.CommittedIsForever` | services/api/app/events/service.py:159-165 | Later commits only add versions: what a prefix of the log has committed as a version stays that |
| `EventLog.VersionsAreTheLog` | services/api/app/events/service.py:162 | The version index holds every committed version of every event and nothing else |
| `EventLog.ContentIndexIsAScan` | services/api/app/events/service.py:163 | The content-hash index equals a scan of all ingested items, for every log |
| `EventLog.KeysAreAScan` | services/api/app/events/service.py:109-113 | A key is in the identity index exactly if some committed item has it |
| `EventLog.IdentityIndexIsAScan` | services/api/app/events/service.py:164 | The identity index sends the key of every committed item to the event of that commit |
| `EventLog.ReachableIsDistinct` | services/api/app/events/service.py:109-113 | No two commits share an identity key or a raw item |
| `EventLog.IdentityIsForever` | services/api/app/events/service.py:109-113 | The event an identity belongs to never changes |
| `EventLog.MentionsAddUp` | services/api/app/events/service.py:108-165 | The mentions of all live events together are as many as the known identities and the commits |
| `EventLog.ItemLiesInOneEvent` | services/api/app/events/service.py:108-165 | A raw item is mentioned by the event it was committed to and by no other live event |
| `EventClusters.LiveEventShape` | services/api/app/events/service.py:139-157 | Every live event is well formed and lasts at most 24 hours times (version - 1), out-of-order arrivals included |
| `EventClusters.FounderIsForever` | services/api/app/events/service.py:122-158 | Title, type, language and event time of every version are those of the founding item; the creation time of a version is the processing time of its item |
| `EventClusters.CategoryIsShared` | services/api/app/events/service.py:95-96 | Every item has the category of its event and was received within 24 hours of the version it extended |
| `EventClusters.AdmittedByTitle` | services/api/app/events/service.py:93-98 | An item with new content that did not found its event clears 0.85 against the canonical title |
| `EventClusters.ClusterDiameter` | services/api/app/events/service.py:87-106 | Any two items admitted to one event by title have similarity at least 0.70 to each other, in every reachable state |
| `EventTables.SaveAppends` | services/api/app/db/event_repository.py:145-207 | Saving what an up-to-date service decided adds one row to each table and overwrites none |
| `EventTables.RefusedByUniqueIndex` | services/api/app/db/models.py:43-62 | Among items with an unknown key the unique indexes refuse exactly a second one with an empty native id from the same provider and source |
| `EventTables.MentionsInLog` | services/api/app/db/event_repository.py:120-127 | The mention rows tagged up to version v are the mentions of the first v commits of the event |
| `EventTables.TimeTravel` | services/api/app/db/event_repository.py:114-143 | For rows in insertion order: load_event_version returns the very event that was committed as that version, for every event and version, and None for versions not committed. EventReload.TimeTravelInAnyOrder covers every other order |
| `EventTables.LatestRowInLog` | services/api/app/db/event_repository.py:55-71 | The row with the greatest version of its event is the row of the live event |
| `EventTables.RefreshRefinesIngest` | services/api/app/events/service.py:70-85 | For rows in insertion order: the events, identities and content hashes rebuilt from them are those that ingest maintains; of the versions, the latest of each event. EventReload.ReloadOnlyMovesTies covers every other order |
| `EventRowOrder.SameRowsSameMentions` | services/api/app/db/event_repository.py:72-90 | The set of mentions found for an event does not depend on the order in which the database returns rows |
| `EventReload.TimeTravelInAnyOrder` | services/api/app/db/event_repository.py:114-143 | Whatever the order of the rows of all tables: a version read gives what was committed but for the order of mentions received at one instant, and None exactly for versions not committed |
| `EventReload.ReloadOnlyMovesTies` | services/api/app/events/service.py:70-85 | Whatever the order of the rows of all tables: a reload gives the identities and content hashes that ingest maintains, and its events but for the order of mentions received at one instant |
| `EventTies.TiedChoice` | services/api/app/events/service.py:87-106 | Services whose events differ only in the order of mentions received at one instant choose the same event for every item |
| `EventTies.TiedIngest` | services/api/app/events/service.py:108-165 | Such a service saves, for an item the log does not know, exactly the rows that an up-to-date service saves, and is again within ties of the longer log |
| `EventTies.LoadIsTied` | services/api/app/events/service.py:70-85 | A service built on rows in any order is within ties of the log, the versions it caches included |
| `EventRowOrder.RowOrderOnlyMovesTies` | services/api/app/db/event_repository.py:114-143 | In any row order a version read has the same fields and the same mentions in order of receipt; it is the identical event if no two were received at one instant |
| `Redelivery.DuplicatesDoNothing` | services/api/app/events/service.py:108-113 | For any store that recognises known keys: ingesting a feed is ingesting the first item of each key |
| `Redelivery.ReplaysEndLikeOnePass` | services/api/app/events/replay.py:12-17 | For any such store: under every interleaving of replays, crashes and failed saves the store is that of a pass over a prefix, and of the whole feed once one replay is through |
| `EventReplay.IngestObeysLaws` | services/api/app/events/service.py:108-113 | A known key changes nothing; after an ingest exactly the old keys and the new one are known |
| `EventReplay.FeedDuplicatesDoNothing` | services/api/app/events/service.py:108-113 | Ingesting any list of items gives the log of ingesting its first occurrences by identity key |
| `EventReplay.EventReplaysEndLikeOnePass` | services/worker/event_worker.py:30-32 | Replays of one list of items, crashing and starting over in any interleaving, end in the log of one clean pass as soon as one of them has reached the end; EventRedelivery lifts this to readings that make new raw ids |
| `EventReplay.PassIsReachable` | services/api/app/events/service.py:108-165 | The log of a pass is reachable, so all the theorems about reachable logs hold of it |
| `EventJoining.KnownIffCommitted` | services/api/app/events/service.py:109-113 | An item is known if and only if an item of its provider and source was committed that has the same native id, or the same content where both lack one, or whose native id spells out the hash of the other |
| `EventJoining.ChosenIff` | services/api/app/events/service.py:87-106 | The service chooses an event if and only if it is live, of the category of the item, last updated within 24 hours before or after it, carries its content or has a title alike, and is preferred to every other such event: content first, then share of title words, then nearness in time, then id; it chooses none if and only if there is none |
| `EventJoining.CommitJoinsIff` | services/api/app/events/service.py:108-158 | For every commit of every reachable log: the item joined an existing event if and only if there was one it could join, and then the one preferred to all others; and the item had not been committed |
| `EventJoining.IngestMeans` | services/api/app/events/service.py:108-165 | One call of ingest: a committed item is answered with its event as it is now and changes nothing; any other founds an event exactly if it can join none, and otherwise gives the next version of the best one |
| `EventLineage.MentionsAreTheItems` | services/api/app/events/service.py:115-157 | Every version of every event mentions just the items of its first commits, each once, with their item id, source id, publication and receipt times and their group (their source if they name none), in order of receipt |
| `EventLineage.CitedOnce` | services/api/app/events/service.py:115-121 | A mention is of exactly one commit of the whole log |
| `EventLineage.IndependenceCountsGroups` | services/api/app/events/service.py:138-143 | The independence of a version is 0.5 for one distinct group among its items, 0.75 for two and 1.0 for more |
| `EventLineage.OneGroupStaysAtHalf` | services/api/app/events/service.py:138-143 | However many items of one group an event collects, its independence stays 0.5 |
| `EventLineage.StoredColumns` | services/api/app/db/event_repository.py:157-207 | Column by column, the three rows that a commit has left in the tables |
| `EventRedelivery.SortErases` | services/api/app/events/service.py:144-146 | The order of the mentions of an event does not depend on their raw ids |
| `EventRedelivery.IngestErases` | services/api/app/events/service.py:108-165 | Ingesting and forgetting raw ids commute: decisions do not depend on raw ids |
| `EventRedelivery.RedeliveryEndsLikeOnePass` | services/worker/event_worker.py:30-32 | For a feed whose items are the same at every reading but for their raw ids, as a recorded one: workers that crash and read it again, or replays side by side, end in the log of one clean pass, but for raw ids, as soon as one of them has reached the end |
| `EventRedelivery.RedeliveryIsReachable` | services/api/app/events/replay.py:12-17 | The log of such a run is reachable, so all the theorems about reachable logs hold of it |
| `EventReadings.ReadingsCommitTheSameKeys` | services/worker/event_worker.py:30-32 | For readings that share only the identity keys of their items, as live sources give them: under every interleaving, crash and failed save the committed identities are those of the first items of the feed, each committed once, and all of them once some replay is through |
| `EventIngest.InMemoryPass` | services/api/app/events/service.py:183-184 | A pass over a feed on a service without a database raises nothing and ends in the indexes of the pass log |
| `EventIngest.SecondPassDoesNothing` | services/api/app/events/replay.py:12-17 | Reading the same feed again leaves such a service as it is |
| `EventIngest.IngestItemsStops` | services/api/app/events/service.py:183-184 | Items are ingested in order up to the first that raises, and none after it; the state is the one that item leaves |
| `EventRestart.CallsLeaveALog` | services/api/app/events/service.py:159-165 | After any calls of ingest, however many saves raise, memory and rows are those of one reachable log |
| `EventRestart.RestartAfterAnyRun` | services/api/app/events/service.py:70-85 | A service built on the rows then has the same events, identities and content hashes, and every version read answers exactly what the writer has in memory; for rows in insertion order |
| `EventRestart.RestartInAnyRowOrder` | services/api/app/events/service.py:70-85 | The same for rows in any order: equal identities and content hashes, and events and version reads equal but for the order of mentions received at one instant |
| `EventCrashes.StepsLeaveALog` | services/worker/event_worker.py:18-32 | A persistent worker that dies at any step or whose save is refused, loads the tables in any order of rows and reads its feed again with new raw ids: its tables are those of one reachable log, its memory that of the log within ties, and it stands where a replay over that log stands |
| `EventCrashes.StartsOver` | services/worker/event_worker.py:18-32 | A worker that dies or whose call raises knows again just what is stored, in some order of rows, and is at the start of its feed |
| `EventCrashes.CrashesEndLikeOnePass` | services/worker/event_worker.py:18-32 | After any number of such crashes the tables hold what one clean pass over a prefix of the feed commits, and once the worker is through what one clean pass over the whole feed commits, but for raw ids |
| `EventProgress.PassCommitsFirsts` | services/api/app/events/service.py:108-113 | A clean pass commits exactly the first item of each identity key, in the order of the feed |
| `EventProgress.StoredOneEmptyId` | services/api/app/db/models.py:43-62 | Whatever feed the worker reads and however often, the tables never hold two items of one source with an empty native id |
| `EventProgress.WorkerGetsThroughIff` | services/worker/event_worker.py:18-32 | After any number of crashes, a worker left alone for as many steps as the feed has items is through if and only if, among the first items of each identity key, no source has two with an empty native id |
| `EventProgress.SecondEmptyIdIsRefused` | services/api/app/db/models.py:43-62 | Two concrete items with an empty native id and different content: the second is new to ingest, and its save is refused by the unique index |
| `EventProgress.EmptyIdsStopTheWorker` | services/worker/event_worker.py:18-32 | A worker whose feed is any two such items never gets through it, whatever happens and however often it starts over |
| `EventProcesses.LoadIsOk` | services/api/app/events/service.py:70-85 | A process that has just loaded, rows coming in insertion order, holds the indexes of all commits; EventTies.LoadIsTied covers every order |
| `EventProcesses.OthersStayOk` | services/api/app/db/event_repository.py:145-207 | A commit of one process leaves every other process a correct reader of an older prefix |
| `EventProcesses.OwnerFollows` | services/api/app/events/service.py:114-158 | A process whose indexes are current decides exactly what an up-to-date service would |
| `EventProcesses.IngestIsSafe` | services/api/app/events/service.py:159-165 | A committed, refused or failed ingest of the owner of a current lease keeps the system safe |
| `EventProcesses.ReadIsSafe` | services/api/app/events/service.py:175-181 | get_event_version answers what is committed as that version, from cache or rows in insertion order, and caching the answer is safe |
| `EventProcesses.StepIsSafe` | services/worker/event_worker.py:19-32 | No load, acquire, release, disciplined ingest or read breaks safety, and commits are only added |
| `EventProcesses.RunIsSafe` | services/worker/event_worker.py:19-32 | Every state of every disciplined interleaving is safe |
| `EventProcesses.ReadersGetTheCommitted` | services/api/app/events/service.py:175-181 | At any time of any disciplined interleaving, rows coming in insertion order, a reader asking for version v gets the event committed as v or None, and what one reader is told any reader is told later |
| `EventAnyOrder.RunKeepsStep` | services/worker/event_worker.py:19-32 | The same interleaving with every load and every version read getting the rows in an order of its own: equal tables, leases and numbers of commits, and every memory within ties of the one over rows in insertion order |
| `EventAnyOrder.ReadersGetTheCommittedInAnyOrder` | services/api/app/events/service.py:175-181 | At any time of such a run a reader asking for version v gets, from cache or rows in any order, the event committed as v but for the order of mentions received at one instant, or None; and what is committed stays so to the end of the run |
| `EventProcesses.VersionsAreWrittenOnce` | services/api/app/db/event_repository.py:178-193 | After every disciplined interleaving each event owns exactly the version rows 1..n, each once |
| `EventProcesses.LeaseIsExclusive` | services/api/app/db/locks.py:9-25 | In every interleaving: from the time a process has the lease to its release no other process has it, and every commit is its own |
| `EventStaleWriters.HarmlessSave` | services/api/app/events/service.py:159-165 | A worker whose memory is what it loaded plus what it has committed since, while others have committed too: if it knows all versions of the event and the item is new to the tables, its save leaves the tables of one commit more |
| `EventStaleWriters.StaleSaveRewrites` | services/api/app/db/event_repository.py:178-193 | If the event has gained a version that such a worker does not know and the item is new, the save changes what an already committed version reads as |
| `EventStaleWriters.RepeatKeeps` | services/api/app/db/event_repository.py:157-207 | A save that writes a version committed already as the very same event changes no version and no mention |
| `EventStaleWriters.MentionLost` | services/api/app/db/event_repository.py:197-207 | If the raw item is stored under another event, the save takes the mention away from a committed version of that event |
| `EventStaleWriters.StaleSaveKeepsHistoryIff` | services/api/app/events/service.py:159-165 | A save by such a worker keeps every committed version as it reads if and only if the version it writes is committed already as the very same event, or is not committed yet and the raw item is new to the tables |
| `EventStaleWriters.RedeliveredItemMoves` | services/api/app/events/service.py:159-165 | A stored item that such a worker saves again under a new event changes the history although the new event is unchanged |
| `EventStaleRuns.SaveDecides` | services/api/app/events/service.py:159-165 | In every state whose tables are those of the log and whose workers each know part of it, a save of a new raw item keeps the history if and only if the version it writes is not committed yet; and then the state stays such |
| `EventStaleRuns.RunKeepsHistoryIff` | services/worker/event_worker.py:18-32 | Every interleaving of loads, leases, ingests, releases and reads, disciplined or not, whose raw items are new: up to any point no save has changed what a committed version reads as if and only if every save wrote a version not committed before; and then the tables are those of the log and each worker knows, of every event, its first versions |
| `EventStaleRuns.NewVersionIffUnchanged` | services/api/app/events/service.py:159-165 | With an unused id for a new event, the version is not committed yet if and only if the saving worker has its event in memory as the database has it |
| `EventStaleRuns.RunKeepsHistoryIffUnchanged` | services/worker/event_worker.py:18-32 | So up to any point of every such interleaving all saves have kept the history if and only if each found its event in memory as it was in the database |
| `EventStaleRuns.ReadersOfHarmlessRuns` | services/api/app/events/service.py:175-181 | After such a run every reader is told what is committed |
| `EventWorkerOrder.StaleSnapshotRewritesHistory` | services/api/app/events/service.py:159-165 | Three items of one content, the third saved from a snapshot of the first: version 2 of the event is rewritten |
| `EventWorkerOrder.LoadBeforeLeaseRewritesHistory` | services/worker/event_worker.py:18-32 | With the order of steps of the worker, load first and lease second, there is a run in which a committed version changes |
| `EventWorkerOrder.CodeOrderRuns` | services/worker/event_worker.py:18-32 | That run exists |
| `EventService.SqlEventRepository.Save` | services/api/app/db/event_repository.py:145-207 | One transaction: all three rows by primary key, or an error and no change |
| `EventService.SqlEventRepository.ReadJoined` | services/api/app/db/event_repository.py:79-99 | The loop over the join groups the mentions of each event and lists the index entries in order |
| `EventService.SqlEventRepository.LoadState` | services/api/app/db/event_repository.py:53-112 | The latest version of each event with its sorted mentions, and an index entry for each item |
| `EventService.SqlEventRepository.LoadEventVersion` | services/api/app/db/event_repository.py:114-143 | On the tables of any log the answer is the event the log has committed as the version, or None; the row and the loop over the mention rows give it |
| `EventService.MaxCandidate` | services/api/app/events/service.py:106 | A candidate that no other candidate outranks |
| `EventService.EventService.Refresh` | services/api/app/events/service.py:70-85 | All four indexes become what the rows say; without a database nothing changes |
| `EventService.EventService.RankCandidates` | services/api/app/events/service.py:88-105 | Whatever order the events are walked in, the list holds exactly the eligible events with their ranks; EventJoining says on the fields which they are |
| `EventService.EventService.SimilarEvent` | services/api/app/events/service.py:87-106 | The event the specification chooses, whatever the order of the walk |
| `EventService.EventService.NextVersion` | services/api/app/events/service.py:115-158 | The event made field by field is a legal next commit of every log whose indexes the service holds and to which item and id are new, so EventLineage and EventJoining hold of it |
| `EventService.EventService.Remember` | services/api/app/events/service.py:161-164 | The four indexes after one more commit |
| `EventService.EventService.Ingest` | services/api/app/events/service.py:108-165 | State and outcome are those of the specification: idempotent hit, error of the save with nothing changed, or commit and update of all indexes; EventJoining.IngestMeans says on the fields which |
| `EventService.EventService.GetEventVersion` | services/api/app/events/service.py:175-181 | The cached version or the one the rows give; only an answer from the rows is added to the cache |
| `EventService.EventService.IngestItems` | services/api/app/events/service.py:183-184 | Items in order up to the first that raises |
| `EventService.ReplayEventBootstrap.EnsureLoaded` | services/api/app/events/replay.py:12-17 | However often it is called, the service holds the indexes of one pass over the recorded feed |
| `EventService.AdvisoryLock.TryAcquire` | services/api/app/db/locks.py:17-19 | A session acquires the lock exactly if it is free or its own, once more each time; otherwise nothing changes |
| `EventService.AdvisoryLock.Unlock` | services/api/app/db/locks.py:25 | The holder gives the lock back once; another session changes nothing |
| `EventService.RunWorker` | services/worker/event_worker.py:23-32 | Without the lease nothing is ingested; with it all feeds are ingested in order up to the first item that raises, and on every exit the lock is as it was found |
| `MarketContracts.IntTextIsInjective` | services/api/app/db/market_repository.py:37-42 | Equal texts of numbers mean equal numbers; the text is never null and holds no separator |
| `MarketContracts.OptionTextIsInjective` | services/api/app/db/market_repository.py:37-42 | The same for optional prices, volumes and times |
| `MarketContracts.JoinUndoesSplit` | services/api/app/db/market_repository.py:45-46 | Joining undoes splitting for every text |
| `MarketContracts.SplitUndoesJoin` | services/api/app/db/market_repository.py:45-46 | Splitting the joined text at the separator gives back its separator-free fields |
| `MarketContracts.DigestIsInjective` | services/api/app/db/market_repository.py:45-46 | The stand-in for SHA-256 is injective |
| `MarketContracts.QuotesDedupeIff` | services/api/app/db/market_repository.py:49-61 | For quotes with valid symbols: they are the same observation if and only if they share a fingerprint and their providers hold equally many separators; so for separator-free providers and for one provider the fingerprint decides, whatever the native ids hold. Receipt time matters only without a provider timestamp, and a missing and an empty native id are one |
| `MarketContracts.BarsDedupeIff` | services/api/app/db/market_repository.py:64-79 | Two bars with valid symbols and timeframes share a fingerprint if and only if they agree on every normalised field, whatever their providers hold; receipt times never matter |
| `MarketReads.OneObservationIff` | services/api/app/db/market_repository.py:49-61 | Quotes of one provider: with provider times they are one observation if and only if these, the symbol, the native id and the prices agree, whenever they were received; receipt times stand in exactly where a provider time is missing |
| `MarketReads.RedeliveredQuoteIsStoredOnce` | services/api/app/db/market_repository.py:111-134 | A quote with a provider time that is delivered again, with other id, receipt and processing times, is not stored again |
| `MarketContracts.CollisionNeedsBoth` | services/api/app/db/market_repository.py:45-61 | Two different quotes share a fingerprint only if the provider of one holds a separator and the native id of the other does |
| `MarketContracts.CollidesIff` | services/api/app/db/market_repository.py:45-61 | A valid quote shares its fingerprint with some different valid quote if and only if a piece of its provider behind the first, or of its native id before the last, is a valid symbol (with a native id of at most 500 characters left) |
| `MarketContracts.SeparatorsCollide` | services/api/app/db/market_repository.py:45-61 | For every quote whose provider ends in a separator and a symbol, the other quote of the same fingerprint |
| `MarketStore.AddBarsAppends` | services/api/app/db/market_repository.py:136-168 | Saving bars only appends, at most one row for each bar and only rows of the saved bars |
| `MarketStore.AddBarsKeepsDistinct` | services/api/app/db/market_repository.py:142-144 | No fingerprint is ever stored twice |
| `MarketStore.SelectIsSelection` | services/api/app/db/market_repository.py:228-237 | After every row of the ordered query: strictly descending starts, each by its first row, nothing passed over but starts already selected or earlier than a full selection |
| `MarketStore.BarsAreNewest` | services/api/app/db/market_repository.py:202-259 | The bar read, said without its loop: strictly ascending starts, each with its greatest visible revision by (received, processed, hash), and a visible start is left out only for `limit` later ones; a limit below 1 returns all |
| `MarketReads.ReadGivesNewestBars` | services/api/app/db/market_repository.py:202-259 | The bar read on the fields of the rows: of the provider, symbol and timeframe asked for, received by the time asked for, final if only those are wanted, the newest revision of each start by receipt, processing and hash, ascending, and a start left out only for `limit` later ones |
| `MarketStore.BarsCount` | services/api/app/db/market_repository.py:228-237 | Exactly min(limit, visible starts) bars are returned |
| `MarketStore.LaterSavesAreInvisible` | services/api/app/db/market_repository.py:216-217 | Bars received after t never change a read as of t, whatever is stored |
| `MarketStore.BarsAsOf` | services/api/app/db/market_repository.py:202-259 | For bars saved in receipt order, a read as of t on the final store is the plain read on the store as it stood after the last bar received by t |
| `MarketStore.FirstDeliveryDecides` | services/api/app/db/market_repository.py:142-144 | The table holds for each fingerprint the first delivery that carried it, with its receipt time |
| `MarketStore.ShownIff` | services/api/app/db/market_repository.py:202-259 | In any order of delivery, a new observation is the one a read shows for its start if and only if it is a newer revision than every other new observation of that start |
| `MarketStore.NewestFirstDeliveryIsShown` | services/api/app/db/market_repository.py:202-259 | If the bars of each start arrive in receipt order, bars of one batch sharing a receipt time, a new observation is shown for its start if and only if no other new observation of that start came later |
| `MarketStore.CorrectionTakenBackIsLost` | services/api/app/db/market_repository.py:142-144 | After a bar, its correction and the bar again, the read still shows the correction |
| `MarketStore.LatestIsMaximum` | services/api/app/db/market_repository.py:170-187 | latest_quote gives the one visible row that no other visible row comes after, and None exactly if none is visible |
| `MarketReads.ReadGivesLatest` | services/api/app/db/market_repository.py:170-187 | The quote read on the fields of the rows: of the provider and symbol asked for and received by the time asked for, the latest by provider time (receipt where it is missing), then receipt, processing and hash; None only if there is none |
| `MarketStore.LaterQuotesAreInvisible` | services/api/app/db/market_repository.py:176-177 | Quotes received after t never change the latest quote as of t |
| `MarketStore.LatestAsOf` | services/api/app/db/market_repository.py:170-187 | For quotes saved in receipt order, the latest quote as of t is the latest quote of the store as it stood after the last one received by t |
| `ReplayMarket.ReplayMarketDataProvider.Bars` | services/api/app/providers/replay_market.py:50-86 | The window of whole minutes before now, oldest first; an error for another timeframe, then for an unknown symbol |
| `ReplayMarket.ReplayMarketDataProvider.LatestQuote` | services/api/app/providers/replay_market.py:28-48 | The quote of the symbol with its prices, native id and id, stamped now, or an error and no change for an unknown symbol |
| `ReplayMarket.WindowIsExact` | services/api/app/providers/replay_market.py:57-86 | The bars of a call, field by field: between one and a thousand of them, each with the prices, volume, times and ids of its minute |
| `ReplayMarket.WindowHasNoGap` | services/api/app/providers/replay_market.py:57-62 | They lie end to end, and the last has ended within the last minute |
| `ReplayMarket.RowHash` | services/api/app/db/market_repository.py:64-79 | A minute of a symbol is one observation whenever delivered; other minutes and symbols are other ones |
| `ReplayMarket.PollInserts` | services/worker/market_worker.py:16-19 | A poll at minute m2 after one at minute m inserts exactly min(60, m2 - m) rows, and leaves other symbols alone |
| `ReplayMarket.FirstPollInserts` | services/worker/market_worker.py:16-19 | The first poll of a symbol inserts a whole window |
| `ReplayMarket.PollsTrack` | services/worker/market_worker.py:16-19 | After any run of polls each symbol has nothing newer than its last poll and all of the window before it |
| `ReplayMarket.RunInserts` | services/worker/market_worker.py:16-19 | The number of rows each poll of a run adds |
| `ReplayMarket.StoreReadEqualsProviderRead` | services/api/app/db/market_repository.py:202-259 | After any run of polls under a clock that does not go back, repository.bars with limit 1..60 equals provider.bars at the time of the last poll, but for receipt metadata |
| `MarketWorker.RoundIsTwoPolls` | services/worker/market_worker.py:16-19 | A bar refresh whose attempts succeed for both symbols is one poll for each, whatever failed before |
| `MarketWorker.WorkerStoreEqualsProvider` | services/worker/market_worker.py:42-47 | After any number of rounds, failed attempts included, the store reads for each symbol as the provider answered in the last round |
| `QuoteStream.Counters` | services/api/app/market/service.py:306-351 | While it streams, the count is the number of quotes and the failures are the trailing failures of the script; it streams exactly while neither the end nor `attempts` failures in a row have come |
| `QuoteStream.RefreshIsExact` | services/api/app/market/service.py:301-351 | On every script without database errors and aborts the loop raises if and only if `attempts` transient errors come in a row before the end, and returns n if and only if the stream ends first, after n quotes |
| `QuoteStreamFacts.DurableState` | services/api/app/market/service.py:317-341 | At every point the provider row matches the script: reconnects grew by the quotes directly after a failure, consecutive failures are the trailing streak (plus the stored value before any quote), the last message is the running maximum, HEALTHY exactly after a quote, UNAVAILABLE exactly when exhausted, and heartbeat, success, failure times and detail |
| `QuoteStreamFacts.FailedQuote` | services/api/app/market/service.py:130-182 | A quote that cannot be saved leaves rows and cache as they are; one that is saved but not recorded is stored and not cached; both raise and, if that can be noted, leave the provider unavailable with the error named and one failure more |
| `QuoteStreamFacts.RecordedFailure` | services/api/app/market/service.py:330-351 | A broken connection counts one failure more, is noted with its error and the latest message, and raises exactly if the budget is used up |
| `QuoteStreamFacts.UnrecordedFailure` | services/api/app/market/service.py:330-345 | A failure that cannot be recorded raises at once and changes nothing outside |
| `QuoteStreamFacts.InMemoryRun` | services/api/app/market/service.py:142-145 | Without a database no script stores anything or raises a persistence failure |
| `QuoteStreamFacts.BackoffTable` | services/api/app/market/service.py:77-80 | The waits for jitters below 51 milliseconds: 100, 200, 400 and 800 milliseconds plus jitter, and a second from the fifth retry on |
| `QuoteStreamFacts.SleepsAreExact` | services/api/app/market/service.py:330-351 | While it streams, the loop has slept exactly what its failures ask for by their places in a row, and opened one connection more than they broke |
| `QuoteStreamFacts.FreshnessIsExact` | services/api/app/market/service.py:220-237 | Freshness is the age in whole milliseconds, 0 for less than a millisecond ahead, and None beyond |
| `QuoteStreamFacts.BackoffGrows` | services/api/app/market/service.py:77-80 | A later retry never waits less, whatever the jitter of either |
| `QuoteStreamFacts.RetriesAreBounded` | services/api/app/market/service.py:306-351 | For every script with at most N quotes, database errors included: at most 1 + (N+1)(attempts-1) connections, at most (N+1)(attempts-1) seconds of sleep, and the loop is left after at most N + (N+1)(attempts-1) happenings |
| `QuoteStreamFacts.PersistBeforePublish` | services/api/app/market/service.py:317-324 | At every point of every script, database errors included, each cached quote has a stored row with its fingerprint |
| `QuoteCalls.CallsPersistBeforePublish` | services/api/app/market/service.py:182-194 | After any calls of refresh_watchlist and latest on one service, database errors included, each cached quote has a stored row with its fingerprint |
| `QuoteCalls.FailedLatest` | services/api/app/market/service.py:130-145 | A quote of the provider that cannot be saved is not published, and the provider is noted as unavailable if that can be recorded |
| `QuoteCalls.CacheIsAsFreshAsStore` | services/api/app/market/service.py:182-237 | After any calls of refresh_watchlist and latest without database errors, from an empty cache and quote table, the cache has a symbol exactly if the store has, with the same effective time and so the same freshness |
| `QuoteStreamFacts.TiesMayDiffer` | services/api/app/market/service.py:117-128 | But the quotes may differ: cache and store break ties of time differently; QuoteCalls.CacheIsStoreIff says when |
| `QuoteCalls.CachedQuoteOutranksAll` | services/api/app/market/service.py:117-128 | After any such calls a symbol is cached exactly if a quote of it was taken in by some call, the cached quote is one taken in, and no other of the symbol is above it by provider time (receipt where it is missing), then receipt, then id |
| `MarketReads.GreatestProviderTime` | services/api/app/market/service.py:117-128 | Quotes of one provider with provider times, taken in in any order and received at any times: the cached quote and the stored latest one both have the greatest provider time of the symbol |
| `MarketReads.DelayedQuoteIsNotShown` | services/api/app/market/service.py:117-128 | A delayed quote that arrives last is neither cached nor given by the store |
| `QuoteTies.StoredAreFirsts` | services/api/app/db/market_repository.py:111-134 | The store holds exactly the first quote of each fingerprint taken in, and each fingerprint once |
| `QuoteTies.CachedIsLatestIff` | services/api/app/market/service.py:117-128 | For any quotes of one provider, remembered and saved in order: the cached quote is the stored latest one if and only if it is the first delivery of its fingerprint and no other first delivery of the symbol with the same effective and received time has a greater (processing time, fingerprint) |
| `QuoteCalls.CacheIsStoreIff` | services/api/app/market/service.py:117-128 | That condition, on the quotes taken in by all calls together, decides for every sequence of such calls to one provider |
| `QuoteTies.SingleLatestAgrees` | services/api/app/market/service.py:117-128 | They are the same quote if a single delivery of the symbol has the greatest effective time |
| `BarRefresh.AttemptsAreExact` | services/api/app/market/service.py:368-389 | The first successful attempt for a symbol is saved, counted and recorded, as a reconnect exactly if one failed before; all failing raises |
| `BarRefresh.FailuresAreExact` | services/api/app/market/service.py:368-384 | While all attempts for a symbol fail: rows and count stay, every failure but the last of the budget waits its backoff, and the provider row holds the last failure, unavailable exactly when the budget is used up, and no new message time |
| `BarRefresh.SuccessIsExact` | services/api/app/market/service.py:385-389 | The first success after k failures: the bars saved and counted, the waits of the k failures, and the success noted without a message time, as a reconnect exactly if k > 0 |
| `BarRefresh.FailedBars` | services/api/app/market/service.py:147-182 | Bars that cannot be saved leave the rows as they are, bars whose success cannot be recorded are stored; both raise and are noted if possible, with the latest receipt of the bars in the first case; a failure that cannot be recorded raises the error of the database |
| `BarRefresh.LastReceivedIsLatest` | services/api/app/market/service.py:147-154 | The message time noted for unsaved bars is the latest receipt among them, whatever their order |
| `BarRefresh.RefreshBarsIsExact` | services/api/app/market/service.py:353-390 | refresh_bars raises if and only if every attempt for some symbol fails; the budget starts afresh with each symbol; otherwise it returns the bars given |
| `MarketService.SqlMarketRepository.SaveQuote` | services/api/app/db/market_repository.py:111-134 | The row is added, and true returned, exactly if the fingerprint is new |
| `MarketService.SqlMarketRepository.SaveBars` | services/api/app/db/market_repository.py:136-168 | New bars are added in order, and the returned count is the growth of the table |
| `MarketService.SqlMarketRepository.LatestQuote` | services/api/app/db/market_repository.py:170-200 | None exactly if no stored quote is of the provider and the upper-case symbol and received by the time asked for; otherwise the latest of these by provider time (receipt where it is missing), then receipt, processing and hash |
| `MarketService.SqlMarketRepository.Bars` | services/api/app/db/market_repository.py:202-259 | The selection loop with its early exit returns the newest starts, ascending, each with its newest visible revision |
| `MarketService.SqlMarketRepository.RecordSuccess` | services/api/app/db/market_repository.py:261-295 | The row of the provider is healthy, without failures in a row, with one reconnect more if this was one, and its last message never goes back; other rows stay. QuoteStreamFacts.DurableState says what whole scripts make of it |
| `MarketService.SqlMarketRepository.RecordFailure` | services/api/app/db/market_repository.py:297-338 | The row of the provider counts one failure in a row more, is unavailable if exhausted and degraded otherwise, and its last message never goes back; other rows stay |
| `MarketService.MarketDataService.RememberQuote` | services/api/app/market/service.py:117-128 | The quote is cached exactly if none of its symbol is or it is above the cached one by provider time (receipt where it is missing), then receipt, then id; QuoteCalls.CachedQuoteOutranksAll lifts this to whole sequences of calls |
| `MarketService.MarketDataService.LatestFromStore` | services/api/app/market/service.py:184-189 | A read-only service answers from the store and caches the answer; no row is a missing symbol |
| `MarketService.MarketDataService.LatestFromProvider` | services/api/app/market/service.py:190-194 | A quote of the provider is saved first and published after, or not at all; the cache never gets ahead of the store, and a failed save marks the provider unavailable if that can be recorded |
| `MarketService.MarketDataService.HandleQuote` | services/api/app/market/service.py:314-327 | Save, record, publish, in this order, with the failure paths of each |
| `MarketService.MarketDataService.HandleFailure` | services/api/app/market/service.py:330-351 | Count, record, and raise when the budget is used up |
| `MarketService.MarketDataService.Handle` | services/api/app/market/service.py:310-351 | One happening of the loop, whatever it is |
| `MarketService.MarketDataService.RefreshWatchlist` | services/api/app/market/service.py:301-351 | Usage errors change nothing; otherwise the nested loops end exactly as the specification of the script says, in result, cache, rows and provider row |
| `MarketService.MarketDataService.AttemptBars` | services/api/app/market/service.py:369-389 | One attempt for one symbol, with its failure paths |
| `MarketService.MarketDataService.RefreshBars` | services/api/app/market/service.py:353-390 | Usage errors change nothing; otherwise the nested loops end exactly as specified, in result, rows and provider row |
| `Migrations.ChecksumIsTheText` | scripts/apply_migrations.py:35-37 | Checksums are equal if and only if the texts are, whatever the line endings of the checkouts |
| `Migrations.SameTextSameMigration` | scripts/apply_migrations.py:24-41 | Equal checksums mean equal statements |
| `Migrations.PiecesAtSemicolon` | scripts/apply_migrations.py:24-29 | A semicolon splits a script into the statements before it and those after it |
| `MigrationTexts.StripIff` | scripts/apply_migrations.py:26-28 | Stripping gives the one text that is left between the white space on both sides: it ends in no white space and what is taken away is nothing else |
| `MigrationTexts.PiecesAreExact` | scripts/apply_migrations.py:24-32 | The statements of a text are exactly the parts between its semicolons without the white space around them, in order, without those that are empty or say BEGIN or COMMIT in any letter case |
| `MigrationTexts.FileIsExact` | scripts/apply_migrations.py:24-32 | The same for a file read in text mode |
| `MigrationTexts.MarkersAreDropped` | scripts/apply_migrations.py:30-32 | Wrapping a script in BEGIN and COMMIT, in any letter case and with any white space around them, leaves its statements as they are |
| `MigrationTexts.LineEndings` | scripts/apply_migrations.py:35-37 | A line feed, a return or both are read as one line feed, wherever they stand |
| `MigrationTexts.LegacyIsTheBytes` | scripts/apply_migrations.py:40-41 | Legacy checksums are equal if and only if the raw contents are |
| `MigrationTexts.LegacyIsCanonicalIff` | scripts/apply_migrations.py:35-41 | A legacy checksum equals a canonical one if and only if the raw content is the text of the other file |
| `Migrations.WalkFiles` | scripts/apply_migrations.py:97-120 | The loop over the files gives the specified ledger, statements and list of applied files, or the first error |
| `Migrations.MigrationDatabase.ApplyMigrations` | scripts/apply_migrations.py:44-123 | One transaction: the specified new schema, or an error and the schema as it was |
| `Migrations.RefusedIff` | scripts/apply_migrations.py:55-102 | A run is refused exactly for an unversioned schema, an incomplete ledger, a recorded file the release lacks, a changed checksum that is not the legacy one, or a rejected statement; a refused run changes nothing |
| `Migrations.ErrorIs` | scripts/apply_migrations.py:56-110 | Which error a refused run raises: what is wrong with the schema first, and otherwise the first file, in the order of names, that was changed or is rejected, by its name |
| `Migrations.UpgradeApplies` | scripts/apply_migrations.py:97-120 | From the first n files: the rest is applied in order, each statement once, and the ledger ends with exactly the canonical checksums, legacy ones rewritten |
| `Migrations.RerunDoesNothing` | scripts/apply_migrations.py:97-110 | A rerun applies nothing and changes nothing |
| `Migrations.FreshInstall` | scripts/apply_migrations.py:56-120 | An empty schema ends with all statements in order and the canonical ledger |
| `Migrations.FilesExtend` | scripts/apply_migrations.py:82-83 | Releases as files: one continues another exactly if it keeps its names and texts, under any line endings, at the front |
| `Migrations.UpgradeEqualsFreshInstall` | scripts/apply_migrations.py:44-123 | A chain of releases, each applied once, leaves exactly the schema of one fresh install of the last |
| `MigrationOrder.AppliesMissing` | scripts/apply_migrations.py:97-120 | A run that is not refused applies exactly the missing files, in order of name |
| `MigrationOrder.BeforeIsExact` | scripts/apply_migrations.py:82 | Names are in the order of their first different characters, a name before its extensions |
| `MigrationOrder.UpgradeOrderIff` | scripts/apply_migrations.py:82-120 | On names: the old release followed by what the new one lacks is the order of the new release if and only if the added names sort after the old ones |
| `MigrationOrder.ContinuesIff` | scripts/apply_migrations.py:82-83 | A release that keeps the files of an older one continues it, as the upgrade theorem asks, if and only if its added names sort after the old ones |
| `MigrationOrder.NextRun` | scripts/apply_migrations.py:44-123 | The run of a newer release on what an older one has recorded, when its files are kept, is never refused, ends with the canonical ledger, and executes the missing files last, whatever was executed before and wherever their names sort |
| `MigrationOrder.ChainRuns` | scripts/apply_migrations.py:44-123 | After one run for each release of any chain that keeps its files, the ledger is that of the last release and exactly its files have been applied, with their statements in the order of application |
| `MigrationOrder.ChainOrderIff` | scripts/apply_migrations.py:44-123 | Such a chain applies the files in the order of one fresh install of the last release if and only if each release adds only names that sort after those of the release before it |
| `MigrationOrder.StatementsTellOrder` | scripts/apply_migrations.py:24-41 | Where no statement occurs twice and no file is without one, the order of the statements determines the order of the files |
| `MigrationOrder.UpgradeEqualsFreshInstallIff` | scripts/apply_migrations.py:44-123 | The ledgers of a chain and of one fresh install always agree; the schemas agree if and only if the files in the order applied hold the statements of the last release in its order; that is so when each release adds only names that sort after the older ones, and only then where no statement occurs twice and no file is without one |
| `MigrationOrder.LateFileRunsLast` | scripts/apply_migrations.py:97-120 | A file that sorts before an installed one is executed last by an upgrade and first by a fresh install |

## Left out

- Migration scripts and symbols outside ASCII: `upper` and `strip` are modelled on ASCII letters and white space.
- Constant and descriptive fields: novelty, clustering version, trace ids, URLs, storage policy, derived attributes, and the rows of sources, providers and instruments carry no property.
- `list_events`, `get_event`, `health`, `bar_freshness_ms` and the read path of `MarketDataService.bars`: one expression over state that is modelled.
- Routes, WebSocket, settings, news and HTTP adapters, `domain/signal.py`, `domain/risk.py` and the web pages.
- Isolation below a transaction: `load_state` issues two queries, which the model takes as one snapshot; concurrent `refresh` calls on one `EventService` are not modelled.
- `EventService.ReplayEventBootstrap.EnsureLoaded`: one call at a time; calls that overlap while reading the feed are the replays of `EventRedelivery`.
- `EventTables.TimeTravel`: for rows in insertion order; `EventReload.TimeTravelInAnyOrder` is the statement for any order.
- `EventTables.RefreshRefinesIngest`: for rows in insertion order; `EventReload.ReloadOnlyMovesTies` is the statement for any order.
- `EventRestart.RestartAfterAnyRun`: for rows in insertion order; `EventRestart.RestartInAnyRowOrder` is the statement for any order.
- `EventProcesses.LoadIsOk`: for rows in insertion order; `EventTies.LoadIsTied` is the statement for any order.
- `EventProcesses.ReadIsSafe`: for rows in insertion order; `EventTies.ReadIsTied` is the statement for any order.
- `EventProcesses.ReadersGetTheCommitted`: for rows in insertion order; `EventAnyOrder.ReadersGetTheCommittedInAnyOrder` is the statement for any order.
- `EventStaleRuns.RunKeepsHistoryIff`: loads and reads see rows in insertion order.
- `EventReplay.EventReplaysEndLikeOnePass`: all readings bring identical items; `EventRedelivery.RedeliveryEndsLikeOnePass` is the statement for readings with raw ids of their own.
- `EventRedelivery.RedeliveryEndsLikeOnePass`: readings differ in raw ids only, as those of a recorded feed; the HTTP sources stamp new receipt and processing times at every reading, on which windows and the order of mentions depend, so for them only `EventReadings.ReadingsCommitTheSameKeys` holds.
- `EventCrashes.CrashesEndLikeOnePass`: one worker and one recorded feed; whoever starts a dead process again is not part of this model.
- Asynchrony: the idle timeout of the quote stream is one of the transient errors of the script, and a script has no notion of elapsed time.
- `QuoteCalls.CacheIsAsFreshAsStore`: freshness is computed in exact arithmetic, where the source goes through a float number of seconds.
- `QuoteStreamFacts.BackoffGrows`: exact milliseconds instead of floats; the source's power of two overflows a float from attempt 1024 on.
- `MarketContracts.CollidesIff`: the validation of contracts only; the column of a provider holds 100 characters, so PostgreSQL refuses some of the colliding quotes.
- `MarketContracts.IntTextIsInjective`: decimal and ISO time texts are represented by canonical texts of the counts they stand for, so formatting itself is not modelled.
- `MarketContracts.OptionTextIsInjective`: likewise.
- `ReplayMarket.ReplayMarketDataProvider.Bars`: the clock and the conversion of the symbol to upper case are the caller's; UUIDs are digests of the names they are derived from.
- `Migrations.MigrationDatabase.ApplyMigrations`: DDL is transactional, as on PostgreSQL; statements are texts that the database accepts or rejects, their effect on tables is the history of what was executed, and the transaction lock is implied by one run at a time.
- `Migrations.UpgradeEqualsFreshInstall`: the set of domain tables is looked at only before the first run, so statements do not update it.
