# Mutual Games Finder: a verified model

The application keeps a group's game libraries in step with the stores its members use, merges metadata about the games,
and recommends what the group could play. This project models the parts of it where state, bytes and concurrency meet,
and proves what they promise each other. `dafny verify dfyconfig.toml` checks everything.

- **The recommendation cache** (`LruCache`, `LruProofs`, `RecommendationCaching`, `CacheProtocol`). The cache object with
  its retry loop and the database session's hooks are classes; the same locked sections are then steps of a protocol
  between any number of processes and threads that share a revision row. Every cached value remembers which data versions
  its queries saw, so freshness is a statement about whole runs.
- **Playnite's LiteDB databases** (`Bytes`, `Utf8`, `Bson`, `BsonRoundTrip`, `BsonParser`, `BsonText`, `LiteDb`,
  `LiteDbPages`, `LiteDbRoundTrip`). The BSON parser (version 1.1 of the BSON specification, productions `document`,
  `e_list`, `element`), the page reader, the walk along extend pages and the brute-force scanner, against encoders and a
  writer of whole files.
- **The library** (`Titles`, `Catalog`, `CatalogProofs`, `GameReuse`, `GalaxyImport`, `SteamMigration`, `Library`,
  `OwnershipRuns`, `Imports`, `ImportRuns`, `GalaxyRuns`, `LibraryRuns`, `LibraryChanges`, `LibrarySession`, `FreeGames`).
  Games, platform mappings, ownerships, manual confirmations and accounts. A session does not flush before it queries, so
  every table has two views: the rows the session holds and the rows queries see. Queries without an order may pick any
  matching row.
- **EA's paginated library** (`EaPagination`). The walk over a server's cursors, and when its outcome may delete ownerships.
- **Metadata** (`MetadataLocks`, `Genres`, `Metadata`, `MetadataProofs`, `MetadataRuns`). Which job holds which lock in any
  interleaving, and how records, store pages and library imports overwrite each other.
- **Recommendations** (`Recommendations`). Coverage, playtime sums, filtering and order.

## What turned out not to hold

Each has a lemma that shows the case, and a statement of exactly when the code does keep the promise.

- The metadata lock is not released on every path: if the request fails after it has created the run, so that its background
  job never starts, or if the job cannot open or close its session, the lock stays taken and every launcher import waits for
  it for ever (`MetadataLocks.LeakingRun`, `LeakBlocksForEver`). The lock is lost exactly by these three steps (`LeakIff`,
  `LockIsFreeAtTheEnd`).
- A metadata record that knows a game's player modes switches `hotseat` and `shared_screen` off without becoming the source
  of these columns, so a later store report may switch them on again (`MetadataProofs.ModeReturns`). They stay off exactly if
  another source has authority over them or no such report comes (`UnreportedModes`); columns the record knows are always
  protected (`AppliedSurvives`).

## Remarks

- "Rows of free games are not reconciled away" holds for every provider there is (`FreeGames.ProvidersKeepFreeGames`), but
  for a reason outside the query. The query reads the flag that was last flushed, not the one the session holds. Which rows go
  is determined by the reports up to the loop's last flush (`DeletedIff`, `FreeRowDeletedIff`; for batches of known keys by
  what was true before the call, `KnownBatchDeletedIff`). Steam alone reports availability, always together with an ownership
  on the one platform it reconciles, and then no later report can matter (`FreeGamesAreKept`). `FlagCanLag` is a batch, from
  no provider there is, that shows the condition is needed.
- The first observation of the shared revision does not clear the cache, so a value stored before it stays
  (`RecommendationCaching.FirstObservationKeepsEntries`). Every caller synchronizes before its first `get`, and then every
  value returned is fresh (`CacheProtocol.EveryReturnIsFresh`).
- Nothing about a catalog is assumed beyond the database's own constraints: games may have been renamed, mappings may not fit
  and several numeric Steam mappings may share a game. Resolving repairs the mapping it meets and adds no violation
  (`CatalogProofs.ResolveIsRight`, `ResolveRepairs`).
- Where the importer is more lenient than the BSON specification the model follows the importer: a string of declared length
  zero is accepted and reads as empty.

## Model

| member | source | states |
|---|---|---|
| LruProofs.RunKeepsView | backend/app/services/recommendation_cache.py:39-80 | in every reachable state the entries are in order of last use, at most `max_entries`, all of the current revision, each the last value computed for its key, and a missing key was evicted by more recent ones or cleared |
| LruProofs.HeldIffRecent | backend/app/services/recommendation_cache.py:71-79 | a used key is held exactly when fewer than `max_entries` other keys were used after it: evictions remove exactly the least recently used |
| LruProofs.HitIff | backend/app/services/recommendation_cache.py:59-67 | a lookup hits exactly when the key was used in this revision, is recent enough and has not expired, and then gives the last value computed for it |
| LruProofs.UseKeepsLru | backend/app/services/recommendation_cache.py:65-79 | moving a used key to the end and trimming keeps recency order and evicts only keys less recent than those kept |
| LruProofs.FreshView | backend/app/services/recommendation_cache.py:23-32 | a new cache represents the empty history, so the view holds in every reachable state |
| RecommendationCaching.RecommendationCache.Invalidate | backend/app/services/recommendation_cache.py:39-42 | the revision advances and nothing stays cached |
| RecommendationCaching.RecommendationCache.ObserveDatabaseRevision | backend/app/services/recommendation_cache.py:44-52 | the first observation only remembers, a different one clears, an equal one changes nothing |
| RecommendationCaching.RecommendationCache.Lookup | backend/app/services/recommendation_cache.py:59-67 | the first locked section: a hit needs the current revision and an unexpired deadline, and refreshes recency |
| RecommendationCaching.RecommendationCache.Publish | backend/app/services/recommendation_cache.py:69-80 | the second locked section: a value computed under an older revision is discarded, otherwise stored as most recent with the oldest trimmed |
| RecommendationCaching.RecommendationCache.Get | backend/app/services/recommendation_cache.py:54-80 | the retry loop against any interference between its locked sections follows the run that the lemmas below describe |
| RecommendationCaching.GetReturnsUndisturbedRound | backend/app/services/recommendation_cache.py:59-80 | what `get` returns is a hit, or was computed in the first round in which the revision did not move; all earlier rounds were overtaken |
| RecommendationCaching.GetIsARun | backend/app/services/recommendation_cache.py:54-80 | what `get` leaves in the cache is what its lookups and stores and the interference leave, in order, so the recency view holds after it too |
| RecommendationCaching.GetLeavesValue | backend/app/services/recommendation_cache.py:72-80 | from every reachable cache: the value `get` computed is answered to every lookup of the key below the deadline of the round that returned, under the returned revision, and a value it found is still found |
| RecommendationCaching.RevisionMovesIffCleared | backend/app/services/recommendation_cache.py:39-52 | over any interference the revision stays the same exactly when nothing cleared the cache |
| RecommendationCaching.FirstObservationKeepsEntries | backend/app/services/recommendation_cache.py:46-48 | in every reachable cache that has observed nothing, whatever is stored is still returned after the first observation of whatever revision |
| RecommendationCaching.SessionHooks.AfterFlush | backend/app/services/recommendation_cache.py:112-116 | the session is marked exactly when a flush of the open transaction touched a relevant model |
| RecommendationCaching.SessionHooks.AfterCommit | backend/app/services/recommendation_cache.py:119-133 | whatever other sessions and observations made of cache and row: a commit clears the cache and bumps the row by one exactly when one of the transaction's flushes touched a relevant model, and otherwise leaves both alone; over its history the session's bumps are its relevant commits |
| RecommendationCaching.SharedCountsAllSessions | backend/app/services/recommendation_cache.py:112-138 | however the sessions of all processes interleave, each is marked exactly while its open transaction has flushed a relevant model, and the shared revision has advanced by the number of relevant commits of all of them |
| RecommendationCaching.SessionHooks.AfterRollback | backend/app/services/recommendation_cache.py:136-138 | a rollback forgets the mark and advances nothing |
| CacheProtocol.StepKeepsInv | backend/app/services/recommendation_cache.py:39-80 | every step of every process and thread, including late observations of older revisions, keeps the protocol's invariant |
| CacheProtocol.EveryReturnIsFresh | backend/app/api/recommendations.py:33-34 | in every interleaving a returned value was computed only from reads made after the revision the request had read was published, and after every local change that was cleared before the `get` began |
| CacheProtocol.OldComputationIsDiscarded | backend/app/services/recommendation_cache.py:69-71 | a computation that began before a locally cleared change never publishes; it is retried |
| BsonParser.ParseBsonDocument | backend/app/services/playnite_import.py:559-577 | the element loop computes the specified parse on every byte string and accepts only framed documents |
| BsonParser.ParseBsonValue | backend/app/services/playnite_import.py:580-626 | each value type is parsed as specified, nested documents from strictly smaller slices |
| BsonParser.AcceptedIffTiled | backend/app/services/playnite_import.py:559-577 | a document is accepted exactly when its elements tile it from byte 4 to the terminator, without gap, overlap or rest |
| BsonParser.ValueIsLocal | backend/app/services/playnite_import.py:580-631 | an accepted value depends only on the bytes it consumes: nothing is read past its end |
| BsonRoundTrip.RoundTrip | backend/app/services/playnite_import.py:559-626 | parsing the encoding of any well-formed document gives that document, up to the types the parser merges |
| BsonRoundTrip.ReadBackAt | backend/app/services/playnite_import.py:580-626 | element by element: the same keys in the same order, numbers, flags, texts and dates as written, nested documents as their own parse, and arrays of the same length |
| BsonRoundTrip.EraseIsInjective | backend/app/services/playnite_import.py:580-626 | apart from types that the parser merges nothing is lost: values of the same types with the same parse are equal, binary data and identifiers included |
| BsonText.AcceptedIsText | backend/app/services/playnite_import.py:571-589 | on every byte string: all names and texts of an accepted document, however deeply nested, are well-formed UTF-8 |
| Utf8.ValidIffEncoded | backend/app/services/playnite_import.py:571-571 | well-formed bytes are exactly the encodings of sequences of Unicode scalar values |
| BsonRoundTrip.ArrayOfIndexed | backend/app/services/playnite_import.py:593-597 | an array of any length comes back in element order |
| BsonParser.ArrayItemsByIndex | backend/app/services/playnite_import.py:596-597 | whatever order index keys arrive in, items come out by numeric index, so item 10 follows item 9 |
| BsonParser.ArrayItemsInOrder | backend/app/services/playnite_import.py:595-597 | whatever keys an array has: each value comes out once, numeric keys first and ascending, the others by their text, equal numbers as they came |
| BsonParser.ArrayRejectedIff | backend/app/services/playnite_import.py:596-596 | an array is rejected for its keys exactly when one is a number too long for Python to convert |
| BsonParser.ScanBsonDocuments | backend/app/services/playnite_import.py:538-556 | despite the loop bound and the set of seen offsets the scan returns every document at every offset, in offset order |
| BsonParser.ScanFindsExactly | backend/app/services/playnite_import.py:538-556 | soundness and completeness: a document is in the result exactly when some slice of the input parses to it |
| BsonParser.SliceIsFound | backend/app/services/playnite_import.py:541-553 | every slice of at most two million bytes that parses to a non-empty document is found at its offset |
| BsonParser.NoDocumentNearTheEnd | backend/app/services/playnite_import.py:541 | the five offsets the loop leaves out never start a non-empty document |
| BsonParser.PackedDocumentsAreFound | backend/tests/test_playnite_import.py:358-359 | encoded documents with arbitrary bytes between them are all found, in order |
| LiteDb.ReadExtendChain | backend/app/services/playnite_import.py:482-501 | the walk with its visited set terminates and returns the chain's payloads, or nothing when no chain exists |
| LiteDb.ChainUnique | backend/app/services/playnite_import.py:488-500 | a start page has at most one chain |
| LiteDb.ChainIsAcyclic | backend/app/services/playnite_import.py:489-491 | a chain that ends never visits a page twice, so cycle detection rejects only endless walks |
| LiteDb.NoChainThrough | backend/app/services/playnite_import.py:489-498 | when the walk meets a bad or repeated page, there is no chain at all |
| LiteDb.ReadLiteDbPages | backend/app/services/playnite_import.py:448-479 | the page loop yields the documents of all data pages in page and item order; the two members below say what these are in terms of the bytes |
| LiteDbPages.StoredPagesAreRead | backend/app/services/playnite_import.py:453-501 | in every file of whole pages, whatever else its bytes are: the documents read are exactly the well-formed ones that items hold, after their header or in linked pages anywhere, in page and item order; items that do not parse, lead nowhere or do not fit are left out and hide no other |
| LiteDb.ReadLiteDbDocuments | backend/app/services/playnite_import.py:443-445 | pages are read first, and only an empty result falls back to scanning |
| LiteDbRoundTrip.OddFileIsScanned | backend/app/services/playnite_import.py:450-451 | a file that is not made of whole pages has no page documents, so its packed documents are found by the scan |
| LiteDbRoundTrip.WrittenChain | backend/tests/test_playnite_import.py:393-409 | the extend pages written for any bytes, anywhere in a file, form a chain whose payloads are those bytes |
| LiteDbRoundTrip.ImageRoundTrip | backend/tests/test_playnite_import.py:386-410 | a file written for any data pages, each with any encodable documents that fit, inline or extended, reads back as exactly these documents, each once, in page and item order |
| Titles.CollectSequenceTokens | backend/app/services/sync_service.py:41-48 | the loop collects the numbers and roman numerals of a title in word order |
| Titles.SequelsAreNotMatched | backend/app/services/sync_service.py:41-55 | titles that differ in one number or roman numeral, wherever it stands, or of which one lacks it, are never matched, whatever the score |
| Titles.MatchedIff | backend/app/services/sync_service.py:51-63 | different titles with the same numbers match exactly when the score reaches 92 and neither merely adds words to the other |
| CatalogProofs.FoundIsSuitable | backend/app/services/sync_service.py:120-160 | the game found or created is compatible with the import, not the excluded one, and has no other numeric Steam mapping when the import has a numeric Steam id |
| GameReuse.ResolveReuses | backend/app/services/sync_service.py:120-160 | an import that looks for a game gets an eligible one of its title if there is one, else the highest-scoring compatible one; a game is added exactly when there is neither, with the import's title; the mapping is placed at that game and other games and mappings stay |
| GameReuse.ResolveStays | backend/app/services/sync_service.py:172-194 | an import whose mapping fits and is its game's first numeric Steam mapping stays there, adds no game and changes no mapping |
| CatalogProofs.ResolveIsRight | backend/app/services/sync_service.py:163-209 | in every consistent catalog, whatever mappings collide or do not fit: the game returned is compatible, the import's key has one mapping, at that game, which nothing would move any more; mappings of other keys stay as they are, no mapping ceases to fit, and no game gains a second numeric Steam mapping |
| CatalogProofs.ResolveRepairs | backend/app/services/sync_service.py:171-195 | a mapping changes its game exactly when it collides or its game does not fit, and then it has a game that fits, no rival there, and the import's title |
| CatalogProofs.ResolveKeepsSound | backend/app/services/sync_service.py:163-209 | a catalog with one numeric Steam mapping a game and only fitting mappings stays so |
| CatalogProofs.ResolveAgainChangesNothing | backend/app/services/sync_service.py:163-209 | in every consistent catalog, resolving the same import again returns the same game and leaves the catalog as it is |
| LibrarySession.Session.BestCandidate | backend/app/services/sync_service.py:147-154 | the candidate chosen has the highest similarity |
| LibrarySession.Session.FindOrCreateGame | backend/app/services/sync_service.py:120-160 | the statements search as specified, from which `GameReuse.ResolveReuses` shows that existing games are used |
| LibrarySession.Session.SteamIdCollision | backend/app/services/sync_service.py:173-189 | a mapping collides exactly when its game has an older numeric Steam mapping |
| LibrarySession.Session.ResolveGame | backend/app/services/sync_service.py:163-209 | the statements over the session, with their flushes, resolve as specified in the lemmas about `Resolves` above |
| GalaxyImport.ReleaseMappings | backend/app/services/gog_galaxy_import.py:287-301 | the releases come out once each, without local ones |
| GalaxyImport.DeduplicatedInOrder | backend/app/services/gog_galaxy_import.py:287-301 | they come out in the order of their first occurrences |
| GalaxyImport.AddRelatedMappings | backend/app/services/gog_galaxy_import.py:389-439 | the loop adds the specified mappings although its queries see none of the pending ones |
| GalaxyImport.RelatedIsRight | backend/app/services/gog_galaxy_import.py:389-439 | in every consistent catalog related mappings change no existing mapping, all point to the entry's game under its title, keep keys unique and give no game a second numeric Steam mapping; if the title fits the game, no violation is added |
| GalaxyImport.RelatedAreMapped | backend/app/services/gog_galaxy_import.py:410-438 | afterwards every related release that is no numeric Steam id is mapped, and nothing is that was not before and is not related |
| GalaxyImport.RelatedKeepsSound | backend/app/services/gog_galaxy_import.py:389-439 | a catalog without violations stays so |
| GalaxyImport.RelatedSteamId | backend/app/services/gog_galaxy_import.py:397-438 | a game keeps its Steam id; without one it takes the only related id if that is unmapped, and none when there are several |
| GalaxyImport.RunIsRight | backend/app/services/gog_galaxy_import.py:359-377 | over every sequence of store and GOG Galaxy imports into any consistent catalog no violation of the Steam rule or of fitting titles is added, and every import goes to a game with the sequence numbers of its title |
| GalaxyImport.RunKeepsSound | backend/app/services/gog_galaxy_import.py:359-377 | from a catalog without violations the Steam rule always holds and sequels never collapse: every mapping and its game have the same sequence numbers |
| SteamMigration.SplitCollidingMappings | backend/alembic/versions/0006_unique_numeric_steam_mapping.py:17-65 | the nested loops establish one numeric Steam mapping a game, lose no mapping and no game, and move a mapping to a game of its own title exactly when its game has a preferred one |
| SteamMigration.MigrationFits | backend/alembic/versions/0006_unique_numeric_steam_mapping.py:44-65 | afterwards a mapping fits its game exactly when it was moved or fitted before; if no other misfits there were, the catalog has no violation left |
| SteamMigration.SplitGame | backend/alembic/versions/0006_unique_numeric_steam_mapping.py:33-65 | of one game's mappings the first in the query's order stays, every other one gets a new game |
| SteamMigration.StaysIff | backend/alembic/versions/0006_unique_numeric_steam_mapping.py:36-46 | of a game's numeric Steam mappings the oldest with the game's own title stays, or the oldest of all when none has it |
| LibrarySession.Session.FindOwnership | backend/app/services/sync_service.py:212-249 | pending rows first and flushed rows second together miss no row of the key |
| LibrarySession.Session.UpsertOwnership | backend/app/services/sync_service.py:230-292 | an upsert updates the key's one row, pending or flushed, or creates it when neither view has one |
| OwnershipRuns.UpsertKeepsTables | backend/app/services/sync_service.py:230-292 | after an upsert its key has exactly one row and no other row has changed |
| OwnershipRuns.RunKeepsTables | backend/app/services/sync_service.py:212-292 | over any sequence of upserts and flushes participant, game and platform stay unique across pending and flushed rows |
| OwnershipRuns.RunFolds | backend/app/services/sync_service.py:230-292 | a key's row after any run is its first version with the key's own upserts applied in order, wherever the flushes fell |
| OwnershipRuns.RunOutcome | backend/app/services/sync_service.py:279-291 | in closed form: the date owned since is the earliest sourced one, the playtime the last positive one of a source that may overwrite, else the one there was, else the first positive one; positive playtime never returns to zero |
| ImportRuns.ImportedRow | backend/app/services/sync_service.py:230-292 | what one import makes of its key's row: a positive playtime replaces another only from a direct synchronization or on an account that stands for a launcher; a missing account is filled in, another one taken over only when the report names a platform; a new row was first seen when its first sibling was; an earlier sourced date wins |
| ImportRuns.ImportedMapping | backend/app/services/sync_service.py:347-349 | the reported id is mapped to the row's game, on the platform the report names or else the account's |
| ImportRuns.RunPlaytimes | backend/app/services/sync_service.py:274-286 | over any run of imports, by priority and account id: the playtime is the last positive one that may overwrite, else the positive one there was, else the first positive one told; a key has a row exactly if it had one or was reported |
| ImportRuns.RunDiscovers | backend/app/services/sync_service.py:248-268 | over any run of imports no row changes when it was first seen, and a new row takes the time and the baseline mark of the participant's first row of the game before the run, on whatever platform, or is first seen now |
| LibrarySession.Session.Reconcile | backend/app/services/sync_service.py:295-323 | exactly the queried rows without a manual confirmation are deleted |
| LibrarySession.Session.ImportGames | backend/app/services/sync_service.py:346-357 | after the loop every reported game has a row, other rows are untouched in both views, each game matched is compatible, and the catalog has no new violation; the loop is a run of authoritative imports, so `ImportRuns.RunPlaytimes` applies |
| Imports.SyncIsExact | backend/app/services/sync_service.py:346-372 | a finished sync has a row for every reported game and has deleted exactly the account's rows on authoritative platforms that are not reported, not confirmed and not marked free in the database |
| LibrarySession.Session.SyncAccount | backend/app/services/sync_service.py:326-406 | success is that exact update, committed with one successful run and no new violation in the catalog; any failure, at any point of the loop, leaves only the account's error and one failed run |
| LibrarySession.SyncedPlaytimes | backend/app/services/sync_service.py:346-357 | after a finished sync every game reported as played has a row with the playtime last reported for it |
| LibrarySession.SyncedDiscoveries | backend/app/services/sync_service.py:335-357 | the same for a whole sync: rows keep when they were first seen, and what an account's first successful sync discovers is marked as baseline |
| LibrarySession.SyncDeletes | backend/app/services/sync_service.py:358-372 | exactly which rows a finished sync deletes, by the provider's platforms: none without an authoritative batch, otherwise the account's unconfirmed rows on these platforms whose game was not reported there and was not free in the database |
| LibraryChanges.FailureChanges | backend/app/services/sync_service.py:388-402 | a failed sync changes the account's error and adds one failed run, and nothing else |
| FreeGames.FlagStep | backend/app/services/sync_service.py:163-209 | what one resolution makes of a game's availability in the session and in the database: a new mapping is flushed after its report, a moved one before it, one that stays not at all |
| FreeGames.FlagsInLoop | backend/app/services/sync_service.py:346-357 | at any point of the loop the session holds what all reports so far say, the database what those before the last flush say |
| FreeGames.DeletedIff | backend/app/services/sync_service.py:302-322 | exactly which rows a sync deletes: unclaimed ones of games that are not free after the reports up to the loop's last flush |
| FreeGames.FreeRowDeletedIff | backend/app/services/sync_service.py:302-322 | a row of a game that ends up free is deleted exactly when it is unclaimed, the game was not free up to the last flush, and the last report about it, which says it is free, came after that flush |
| FreeGames.KnownBatchDeletedIff | backend/app/services/sync_service.py:302-322 | when every key of the batch is mapped and stays, what counts is only whether the game was free before the call |
| FreeGames.FlagCanLag | backend/app/services/sync_service.py:302-310 | a batch, from no provider there is, in which a row goes although the same batch reports its game as free |
| FreeGames.FreeGamesAreKept | backend/app/services/sync_service.py:295-323 | if availability is reported only together with an ownership on every reconciled platform, no row of a game that ends up free is deleted |
| FreeGames.ProvidersKeepFreeGames | backend/app/services/import_providers.py:745-765 | this is so for every provider: Steam alone reports availability, with Steam ownerships, and reconciles only Steam |
| LibrarySession.Session.ImportGalaxyEntries | backend/app/services/gog_galaxy_import.py:344-386 | a GOG Galaxy import gives every entry a row, touches no other key, deletes nothing and adds no violation to the catalog; it is a run of fallback imports to the participant's oldest account of each platform or a stand-in |
| GalaxyRuns.GalaxyPlaytimes | backend/tests/test_gog_galaxy_import.py:42-72 | a GOG Galaxy import leaves the positive playtimes of platforms that the participant synchronizes alone; elsewhere the last positive one in the database counts |
| LibrarySession.Session.AccountForImport | backend/app/services/gog_galaxy_import.py:442-467 | the participant's oldest account on the platform is used exactly when there is one and keeps its id, otherwise a stand-in for GOG Galaxy is created; it counts as synchronized and no other account changes |
| LibrarySession.Session.CreateManualOwnership | backend/app/api/ownerships.py:381-443 | confirming needs an existing participant and game, adds the confirmation once, and a row only when there is none |
| LibraryChanges.ConfirmationChanges | backend/app/api/ownerships.py:390-439 | a confirmation changes no row there was; without one at its key it adds an unplayed one, with an account exactly if the participant has one on the platform, a Playnite stand-in only if there is nothing else |
| LibrarySession.Session.AccountFor | backend/app/api/ownerships.py:418-428 | the new row's account is one of the participant's on the platform, a Playnite stand-in only if there is no other |
| LibrarySession.Session.DeleteManualOwnership | backend/app/api/ownerships.py:446-462 | the confirmation goes, and its row exactly when it has no account |
| LibraryChanges.WithdrawalChanges | backend/app/api/ownerships.py:446-462 | exactly the key's row without an account goes, and every other row stays as it is |
| LibrarySession.Session.DeleteAccount | backend/app/api/accounts.py:115-134 | confirmed rows of the account stay without it, its other rows and runs go with it |
| LibraryChanges.AccountDeletionChanges | backend/app/api/accounts.py:115-134 | exactly the account's unconfirmed rows go, its confirmed rows lose the account, all other rows and accounts stay, and so do the runs of other accounts, in order |
| LibraryRuns.RunKeepsSettled | backend/app/api/ownerships.py:381-462 | over every run of syncs, failed syncs, launcher imports, confirmations and deletions every confirmation has an ownership and every account-less ownership a confirmation |
| LibraryRuns.SyncKeepsManual | backend/app/services/sync_service.py:313-322 | reconciliation never takes the last row of a confirmed key |
| LibraryRuns.DeleteAccountKeepsSettled | backend/app/api/accounts.py:120-132 | detaching confirmed rows before the account is deleted keeps confirmations and ownerships in step |
| EaPagination.ReadPages | backend/app/services/import_providers.py:1404-1451 | for every server with finitely many cursors the loop ends, having walked as far as the server lets it, and is complete exactly when it reached a page without a next one |
| EaPagination.FetchLibrary | backend/app/services/import_providers.py:1384-1513 | the snapshot is authoritative exactly when the walk was complete, at least the declared total arrived, every entry resolved and Origin added nothing; the provider raises exactly when it read no game although the library is not declared empty, or met an unreadable page before any game |
| EaPagination.CompleteIsUnique | backend/app/services/import_providers.py:1444-1451 | a server has at most one complete walk |
| EaPagination.FurthestDecides | backend/app/services/import_providers.py:1405-1451 | if any walk over the server reads the whole library, it is the one that went as far as possible |
| EaPagination.SnapshotHasAll | backend/app/services/import_providers.py:1436-1443 | every resolved entry of every page is in the snapshot, also after repeated ids and Origin's additions |
| EaPagination.SnapshotIs | backend/app/services/import_providers.py:1442-1486 | the snapshot game by game: each id once, with the game of the last entry that tells it, and from Origin the first game of each id that no page has |
| EaPagination.PageInItems | backend/app/services/import_providers.py:1424-1449 | the entries are those of the pages visited, page after page |
| EaPagination.DeclaredIs | backend/app/services/import_providers.py:1438-1441 | the declared total is the one told by the last page that told any |
| EaPagination.SyncEaAccount | backend/app/services/sync_service.py:336-372 | fetching and synchronizing deletes a row only when the whole library was read and does not have its game; a partial library deletes nothing |
| MetadataLocks.MutualExclusion | backend/app/services/metadata_service.py:86-108 | in no interleaving of synchronizations and launcher imports do two jobs enrich at once, nor do two synchronize with the Steam store |
| MetadataLocks.EveryTakingIsGivenBack | backend/app/services/metadata_service.py:128-250 | on every path a job takes the metadata lock and the Steam lock at most once each and gives each back exactly once, unless it still holds it |
| MetadataLocks.StuckIff | backend/app/services/steam_metadata_service.py:209-212 | there is no deadlock: nothing can go on exactly when all jobs have ended or wait for a lock that an ended job has lost |
| MetadataLocks.RunsEnd | backend/app/services/playnite_import.py:250-324 | every interleaving ends, after at most thirteen steps for each job |
| MetadataLocks.LeakIff | backend/app/api/sync.py:35-84 | either lock is lost exactly when a hand-over failed between creating the run and starting its job, or the job could not open or close its session |
| MetadataLocks.LockIsFreeAtTheEnd | backend/app/services/metadata_service.py:134-250 | once all jobs have ended each lock is free, unless one of its steps of this kind happened |
| MetadataLocks.LeakBlocksForEver | backend/app/services/gog_galaxy_import.py:581 | after a loss every import that waits for the lock waits for ever |
| MetadataLocks.LeakingRun | backend/app/api/sync.py:38-45 | a run in which this happens |
| Genres.SanitizeGenres | backend/app/services/genre_utils.py:11-18 | the loop over the values keeps the first spelling of each plausible folded name and sorts by it |
| Genres.SanitizedIffClean | backend/app/services/genre_utils.py:11-18 | sanitizing leaves a list alone exactly when it is stripped, plausible, sorted and free of repeated folded names, and always produces such a list |
| Genres.SanitizedHas | backend/app/services/genre_utils.py:13-17 | exactly the first spellings of the plausible values survive |
| Genres.SanitizeTwice | backend/app/services/metadata_service.py:258-260 | sanitizing is idempotent, so cleaned genres never trip the repair check again |
| Genres.StripSplits | backend/app/services/genre_utils.py:14-14 | stripping removes all white space from both ends and nothing else |
| Genres.SanitizedAscends | backend/app/services/genre_utils.py:18-18 | genres stand in strictly ascending order of their folded names |
| Metadata.MergeRecords | backend/app/services/metadata_service.py:664-678 | the loop over the primary's known fields computes the overlay of the two records |
| Metadata.MergeIsAUnion | backend/app/services/metadata_service.py:664-678 | on well-formed records merging is a union of values and sources in which the primary wins, well-formed again and idempotent |
| Metadata.MergeIsAssociative | backend/app/services/metadata_service.py:664-678 | grouping does not matter when several records are merged; a missing record adds nothing |
| Metadata.Game.MergeProvider | backend/app/services/sync_service.py:66-103 | texts are filled in, genres joined, availability taken over, and features and player counts set unless attributed |
| Metadata.Game.ApplyStorePage | backend/app/services/steam_metadata_service.py:154-198 | a store page is merged and becomes the source of availability and of the verdicts it may give |
| Metadata.Game.ApplyRecord | backend/app/services/metadata_service.py:718-740 | known fields are written and attributed, modes no provider reports are switched off |
| MetadataProofs.AttributedStays | backend/app/services/sync_service.py:83-103 | attributed features and player counts are unchanged by every later sequence of library imports and store pages |
| MetadataProofs.AppliedSurvives | backend/app/services/metadata_service.py:718-740 | so the features and player counts of a metadata record outlive every later import |
| MetadataProofs.UnattributedFlag | backend/app/services/sync_service.py:84-94 | otherwise a feature is on exactly when some report has it and no complete report came after, or it was on and none came |
| MetadataProofs.UnattributedCounts | backend/app/services/sync_service.py:96-103 | otherwise the last report that counts players decides, with at least one player and bounds in order |
| MetadataRuns.FirstTextWins | backend/app/services/sync_service.py:67-69 | over any sequence of imports and store pages a description, cover or date that is there stays, and otherwise the first one reported is taken |
| MetadataRuns.GenresAccumulate | backend/app/services/sync_service.py:70-70 | over any sequence a genre is listed exactly when it was or some report named it |
| MetadataRuns.LastAvailabilityWins | backend/app/services/sync_service.py:71-72 | availability is what the last report that tells it says |
| MetadataRuns.LastVerdictWins | backend/app/services/steam_metadata_service.py:179-193 | the last store page decides: it makes the row no game, with its reason, or a game again if classification or an earlier page had decided; where another source has, pages without a verdict change nothing |
| MetadataRuns.FirstPageNames | backend/app/services/steam_metadata_service.py:176-196 | a row's source stays; without one the first store page becomes it with its id; after any page availability is attributed to the store |
| MetadataRuns.AppliedColumns | backend/app/services/metadata_service.py:718-740 | a record's known columns are taken over, the two modes no provider reports are reset if it knows player modes, every other column stays, and sources are added to those there were |
| MetadataRuns.AppliedGenres | backend/app/services/metadata_service.py:724-725 | of a record's genres every plausible name is listed and nothing else |
| MetadataProofs.UnreportedModes | backend/app/services/metadata_service.py:720-723 | a mode that a record switches off without knowing it stays off exactly if it is attributed or no later report has it |
| MetadataProofs.ModeReturns | backend/app/services/metadata_service.py:720-723 | a record and a Steam report for which a mode is switched off and comes back |
| MetadataProofs.MergeTwice | backend/app/services/sync_service.py:66-103 | merging the same report again changes nothing, although genres are joined and sanitized each time |
| MetadataProofs.GenresStayRepaired | backend/app/services/metadata_service.py:258-260 | after any merge genres pass the first question of the repair check, for good |
| MetadataProofs.AppliedGenresAreRepaired | backend/app/services/metadata_service.py:724-727 | genres that a metadata record brings pass it at once |
| Recommendations.CoverageIsAFraction | backend/app/services/recommendations.py:178-194 | coverage is above zero and at most one, one exactly when everyone known can play, owners are at least one and at most the known count, and a free game covers the group |
| Recommendations.CollectPlaytimes | backend/app/services/recommendations.py:198-202 | the owners' playtimes are each owner's sum over platforms and add up to the total |
| Recommendations.Recommend | backend/app/services/recommendations.py:170-232 | the loop with its early `continue` and the final sort computes the filtered, stably sorted list |
| Recommendations.HigherMinimumSelects | backend/app/services/recommendations.py:195-197 | raising the minimum gives exactly the filtered subsequence of the longer list |
| Recommendations.NothingIsLost | backend/app/services/recommendations.py:170-232 | the list holds exactly the sufficiently covered games, each as often as the query returned it |
| Recommendations.ListIsOrdered | backend/app/services/recommendations.py:82-116 | in every mode, of any two recommendations the one with the greater keys is listed first, then the one with the greater title, then the one the query returned first; each is that of one game of the query |
| Recommendations.BuiltIsRight | backend/app/services/recommendations.py:170-204 | who is counted: owners are those with an ownership, unknown are the others for whom no account counts or one on a platform of the game failed or was never synchronized; playtimes are each owner's own sum |
| Recommendations.ValuesCount | backend/app/services/recommendations.py:207-207 | the median is taken over every owner's playtime, equal ones as often as they occur |

## Left out

- Similarity scores, case folding, white space and genre plausibility are parameters: any score function, any folding with ordered results, any plausibility predicate. Titles are normalized word lists.
- UTF-8 strings and doubles inside BSON stay byte blocks; a string is valid UTF-8 or rejected, a double is its eight bytes.
- Decimal digits outside ASCII in keys of BSON arrays, in titles and in Steam ids; and Python's recursion limit on very deep nesting; its limit of 4300 digits for converting numbers is modelled.
- The scanner and parser are modelled on byte sequences, not on files, archives or temporary copies.
- HTTP, entity tags and headers around the cache; the warm-up at start, which uses the same calls; the race of two processes inserting the first revision row.
- Database isolation beyond atomic commits: each query of a factory sees some committed state no older than the lookup before it.
- The object cache of the database session: after a mapping was moved, its already loaded `game` attribute is not modelled as stale.
- Columns of games other than title and availability do not influence the library model; metadata has its own.
- Warnings and progress messages of runs, display names of accounts, provider authentication data.
- LibrarySession.Session.SyncAccount: the message of a successful run is a constant, because warnings are not modelled.
- LibrarySession.Session.AccountForImport: the participant's number in a stand-in's account id is passed as text.
- Playnite imports as a method of their own: they resolve and upsert like GOG Galaxy imports, without related mappings, and are covered by the launcher step of `LibraryRuns.RunKeepsSettled`.
- Raw ownership creation and deletion and changing an account's owner: these requests write rows without consulting confirmations and are not steps of `LibraryRuns.RunKeepsSettled`.
- EaPagination.FetchLibrary: playtimes, which are fetched afterwards and do not influence completeness, are not modelled; a server is a function from cursors to pages, as no cursor is asked twice.
- Interrupted runs that are closed at start, and the check for a running import before another one is created, which is not exclusive between concurrent requests.
- Release dates that arrive as text and may fail to parse when a metadata record is applied; which genres or titles make something no game.
- The fields of IGDB and RAWG records, whose bounds on players need not be ordered.
- Scores and rounding of recommendations: the score is not used for sorting, rounded percentages are a parameter of the order.
- Filters of the recommendation query by mode and group size, limits of lists, analytics, the frontend.
