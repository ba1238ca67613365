# async-db, modelled and proved in Dafny

This project models the algorithmic cores of async-db, a database whose clients speak REST, GraphQL
and Falcor, and proves what they are for. `dafny verify dfyconfig.toml` checks it all.

- **The request batcher** (`Batcher`, `BatchGroups`, `CanonicalText`, `GraphqlDedupe`,
  `GraphqlVariables`, `GraphqlBatch`): requests pile up, reads are deduplicated between writes, one batch goes over the
  wire and the answers are fanned out. Batching is proved to agree with running every call in arrival
  order, over whole runs. The text that keys the deduplication is proved canonical, the client's guess
  at which GraphQL requests are reads is compared with the parser and the executor, and the two are
  put together: the client's GraphQL queue in front of the executor.
- **The normalised client cache** (`EntityStore`, `EntityHiding`, `EntityCycles`, `ClientCache`,
  `CacheState`, `CachedReads`, `CacheStaleness`, `QueryUpdates`, `ReadPolicy`, `SharedFetch`,
  `FetchedData`): responses are split into entities and references, merged into a store and rebuilt on
  reads; writes and events make entries stale; concurrent fetches for one key are shared.
- **The GraphQL subset** (`GraphqlSyntax`, `GraphqlParser`, `GraphqlRoundTrip`, `GraphqlNormalForm`,
  `GraphqlSpelling`, `GraphqlGrammar`, `GraphqlExecute`, `GraphqlExecutor`, `GraphqlMeaning`,
  `GraphqlInline`): lexer, recursive-descent parser and executor; parsing undoes printing, every
  spelling of a source parses and nothing outside the grammar does; execution runs the fields that a
  selection set stands for, and inlining fragments preserves it.
- **The SQLite integration** (`WriteQueue`, `SqliteCollection`, `SqliteOverlap`): the promise chain
  that serialises writes, the table as a finite map with generated ids, and operations on one table
  that overlap.
- **Texts and names** (`Jsonc`, `JsoncTokens`, `Csv`, `Falcor`, `Names`, `CompoundId`, `Formats`):
  strippers, readers, flattening, aliases, ids and content negotiation, with their round trips.

`Options`, `Json`, `Decimal`, `JsText` and `Sequences` hold what the others share. Code that loops
or updates is a method or a class proved equal to a function of its inputs or its old state; the
theorems are lemmas about those functions. A thrown error is a result value; only which error
matters, not its message.

## Where the code does not do what it is for

Each of these is a lemma about the inputs that show it; where the code is meant to do better, a lemma
beside it says when it does.

- A GraphQL mutation passes for a read when a comma, a comment, a fragment or another operation stands
  in front of it (`GraphqlDedupe.JudgedExactly`, with `CommentHidesMutation`, `FragmentHidesMutation`
  and `QueryHidesMutation`). Two equal ones in a queue are then executed once
  (`GraphqlBatch.CommentedRunsOnce`). With a cache it goes the way of a read (`src/client.ts:127-129`):
  it can be answered from a cached entry and not be sent at all, and no write is recorded, so the
  queries it changes stay fresh. `GraphqlBatch.TextsAreEnough` says for which requests batching is
  right.
- Two requests that differ by `[undefined]` and `[]` are deduplicated into one
  (`Batcher.UndefinedItemIsMerged`), and a batch can overtake the one before
  (`Batcher.BatchesCanOvertake`).
- The data of a fresh entry can be older than the last write: when the answer arrives after it, and
  even for a read made after it, which joins the call sent before (`FetchedData.DataFollowsWrites`,
  with `LateAnswerIsOlder` and `JoinedAnswerIsOlder`).
- A record or a document that occurs, at any depth, in its own body is stored as a cycle and cannot be
  read: denormalising has no end (`EntityCycles.RecordReadsExactly`, `DocumentReadsExactly`, and
  `ReadEndsExactly` over any store; a document typed as itself at its root is
  `EntityStore.SelfTypedDocumentNeverReads`).
- A document whose body was a typed record once reads as that record, whatever is fetched later
  (`EntityHiding.CoversExactly`, `DocumentReadsAsRecord`).
- A delete whose verb is not in capitals leaves the entity in the cache
  (`ClientCache.DeleteNeedsCapitals`).
- `nextId` never returns when one more than the largest numeric id rounds back to an id in use, 2^53
  for instance (`SqliteCollection.SearchEnds`, `StuckAtLimit`), and can generate an id in use when
  the key column is not scalar (`SqliteCollection.GeneratedDuplicateExactly`).
- Overlapping creates can generate the same id, overlapping patches of one record lose an update, and
  a patch of a record deleted meanwhile answers as if it had been made
  (`SqliteOverlap.GeneratedIdCollidesExactly`, `PatchKeepsExactly`, and their instances).
- A string `$`, and a string `]` in a list, do not survive printing and parsing, because the parser
  compares only the text of tokens (`GraphqlNormalForm.ParseUndoesPrint`).
- Empty block comments join the words around them (`JsoncTokens.TokensKeptExactly`); in JSON there
  are none to join (`JsoncTokens.JsonKeepsItsTokens`).
- Camel case loses word boundaries (`Names.CamelWordsExactly`), and negotiation can prefer a general
  range to a specific one (`Formats.QualityAsStandard`).
- Graphs lose empty objects and keys such as `007` (`Falcor.FlatteningLosesNothing`).

## Model

| member | source | states |
|---|---|---|
| `Batcher.GroupQueuedItems` | src/client.ts:396-428 | The loop over `groups` and `readSegment` computes `Grouped`, the fold of one queued item at a time that the theorems below are about. |
| `Batcher.GroupingKeepsItems` | src/client.ts:396-428 | Grouping neither loses nor repeats a queued call: the queued items of the groups, as a multiset, are the items. |
| `Batcher.BatchPreservesMeaning` | src/client.ts:344-428 | With dedupe off or `reads`, for every deterministic server, every test for reads and every queue of whose requests those that pass for reads hold no array `[undefined]`, leave the server's state alone, and mean the same under any order of their keys (nothing is asked of other requests, or of requests not in the queue): executing the grouped batch ends in the state that running every call in arrival order ends in, and the fan-out settles every call once, with the answer it gets then. |
| `Batcher.RunsAreSequential` | src/client.ts:344-382 | The same over whole runs, of whose requests those that pass for reads hold no array `[undefined]`, leave the server's state alone, and mean the same under any order of their keys, in which calls arrive, batches are sent, and batches under way are executed, at any moments and in any order: at every moment the server is where the executed calls leave it one by one, in the order their batches were executed; each has been settled once with that answer, and no call is lost or repeated. |
| `Batcher.InOrderIsArrivalOrder` | src/client.ts:359-370 | In every run: executed, under way and pending calls, one after the other, are the calls as they were made, if and only if no batch was executed before one sent earlier. |
| `Batcher.BatchesCanOvertake` | src/client.ts:359-370 | The timer does not wait for the batch before: for every server, and any two calls in two batches for which the law of `BatchPreservesMeaning` holds, there is a run in which the second is executed first. |
| `Batcher.UndefinedItemIsMerged` | src/client.ts:413-424 | The two requests that the canonical text confuses, `[undefined]` and `[]`, are merged into one group, although a lawful server answers them differently. |
| `GraphqlBatch.GraphqlBatchPreservesMeaning` | src/client.ts:115-117 | The client's own GraphQL queue in front of `executeGraphqlBatch`: for every queue of requests whose fragments are acyclic and of which those that pass for reads run no mutation and hold no `[undefined]`, and every server whose query fields write nothing and look at no order of keys in variables, batching is running the requests one by one. |
| `GraphqlBatch.GraphqlRunsAreSequential` | src/client.ts:344-382 | The same over whole runs, with batches executed in any order. |
| `GraphqlBatch.TextsAreEnough` | src/client.ts:430-433 | For that it is enough that every request does not parse, is taken for a write, or has a text that starts plainly with the only mutation it has, if it has any. |
| `GraphqlBatch.ServingIsLawful` | src/graphql/execute.ts:83-125 | Such a server with the client's test meets the law of the batcher: what passes for a read leaves the database alone, and gives one answer under every order of the keys of the request and its variables. |
| `GraphqlBatch.RequestIsExecuted` | src/graphql/execute.ts:93-118 | A request with a text, variables and an operation name runs the document of the text, under that name, with each variable that is not undefined at hand. |
| `GraphqlBatch.OthersAreRefused` | src/graphql/execute.ts:93-112 | A request without a text, or with one that does not parse, is refused and changes nothing. |
| `GraphqlBatch.RunOnceForTwo` | src/client.ts:413-424 | A request that passes for a read and is queued twice is executed once, for every server and every request with acyclic fragments; one by one it is executed twice. |
| `GraphqlBatch.CommentedRunsOnce` | src/client.ts:413-433 | So of two equal texts behind an empty comment line, mutations included, one is executed, which is the text without the comment. |
| `GraphqlVariables.ExecuteDocumentAlike` | src/graphql/execute.ts:93-125 | Executing a document on two servers that differ in nothing the selected operation can see, gives the same data, the same error and the same database. |
| `GraphqlVariables.IncludeAlike` | src/graphql/execute.ts:515-546 | `@skip` and `@include` decide the same for variables that differ in the order of keys, errors included. |
| `Batcher.OutcomesCoverBatch` | src/client.ts:365-378 | Whether the flush succeeds, returns fewer results or fails, every call of the batch is settled exactly once; `OutcomesSettle` says how. |
| `Batcher.OutcomesSettle` | src/client.ts:371-378 | After a failure each call is rejected with the error, in order; after an answer each call of group i is resolved with result i, or with nothing if there are fewer, and nothing else is settled. |
| `BatchGroups.GroupedExactly` | src/client.ts:396-428 | For every queue and every test for reads: two calls share a group if and only if they have one text and no write stands from the one to the other, themselves included; a group holds its calls in order and sends the request of the first. |
| `Batcher.DedupeAllMergesWrites` | src/client.ts:384-388 | With `dedupe: 'all'` the equivalence fails: two equal increments of a counter count once. |
| `Batcher.Queue.Submit` | src/client.ts:352-361 | A call joins `pending`; the timer is armed exactly while calls wait; every call ever made stays pending, in flight or settled once. |
| `Batcher.Queue.Fire` | src/client.ts:360-370 | The timer takes all pending calls, disarms itself and sends one request per group; nothing is lost on the way. |
| `Batcher.Queue.Answer` | src/client.ts:371-378 | An answered or failed batch leaves the in-flight list and settles its calls: a failure rejects each with the error; an answer rejects none, and resolves each call of group i with result i, or with nothing where the reply is too short. The conservation of calls is kept. |
| `GraphqlDedupe.SafeExactlyForReads` | src/client.ts:430-433 | For a query text with nothing but white space before its first token, that parses to one operation and no fragments: `isGraphqlDedupeSafe` holds exactly when the operation is not a mutation. |
| `GraphqlDedupe.SafeExactly` | src/client.ts:430-433 | For every text that parses: it is dedupe-safe if and only if a comma or a comment stands in front, or its first definition is not a mutation. |
| `GraphqlDedupe.JudgedExactly` | src/client.ts:430-433 | For every text that parses and every operation name, by the operation selected: a mutation passes for a read if and only if a comma or a comment stands in front or the text starts with another definition; anything else is taken for a write if and only if the text starts with a mutation, in front of which stands white space at most. |
| `GraphqlDedupe.FragmentHidesMutation` | src/client.ts:430-433 | For every well-formed fragment and mutation, the text that prints the fragment first starts plainly, parses to the mutation, and passes for a read. |
| `GraphqlDedupe.QueryHidesMutation` | src/client.ts:430-433 | For every well-formed document that starts with a query, its printed text passes for a read, also when the operation name selects a mutation. |
| `GraphqlDedupe.SafeByFirstToken` | src/client.ts:430-433 | For every text that lexes and has no comma or comment in front: it is dedupe-safe exactly when its first token is neither `mutation` nor `subscription`. |
| `GraphqlDedupe.SafeChangesNothing` | src/graphql/execute.ts:93-125 | A text that parses and starts plainly, whose mutations are nowhere but in front, and that is taken for a read, leaves the database unchanged whatever operation name it is executed with, for every server whose root fields write in mutations only. |
| `GraphqlDedupe.CommentHidesMutation` | src/client.ts:430-433 | An empty comment line in front of any text makes it dedupe-safe, mutations included, and the parser reads the same document. |
| `GraphqlDedupe.QueryChangesNothing` | src/graphql/execute.ts:172-235 | Executing an operation that is not a mutation, with any fragments, leaves the database as it was. |
| `CanonicalText.StringifyCanonical` | src/client-cache.ts:1072-1082 | Two values have the same `stableStringify` text if and only if they are equal up to the order of object keys (an independent relation, in which `[undefined]` and `[]` are one). |
| `CanonicalText.QueryKeyCanonical` | src/client-cache.ts:1055-1070 | Two requests share a query key if and only if they are of the same kind and, after dropping undefined properties, equal up to key order. |
| `CanonicalText.TextDeterminesValue` | src/client-cache.ts:1072-1082 | Equal texts come from equal values up to key order: strings, numbers, arrays and objects can be told apart and split again from the text. |
| `CanonicalText.ValueDeterminesText` | src/client-cache.ts:1072-1082 | Values equal up to key order print alike, because sorting distinct keys has one result. |
| `CanonicalText.UndefinedItemIsLost` | src/client-cache.ts:1072-1082 | Two different arrays with one text: `[undefined]` and `[]`. |
| `CanonicalText.SameIsReordered` | src/client-cache.ts:1072-1082 | For values without `[undefined]`, the relation of `StringifyCanonical` is equality up to the order of object keys and nothing else, in both directions. |
| `CanonicalText.StringifyIsReordering` | src/client-cache.ts:1072-1082 | Two values without `[undefined]`, JSON values among them, have the same text if and only if they are equal up to the order of object keys. |
| `CanonicalText.QuoteReturns` | src/client-cache.ts:1072-1082 | What stands for a string in the text is its JSON literal: read as section 7 of RFC 8259 says, it gives the string back. |
| `EntityStore.NormalizeThenRead` | src/client-cache.ts:853-946 | For every response with no truthy `__dbRef`, no entity twice and none of its entities stored: normalising it and reading the stored form back gives the response, if and only if it is not a document whose whole value is falsy and not null. |
| `EntityStore.ReadCoversResponse` | src/client-cache.ts:916-946 | Over a store that already holds some of its entities, every read that ends agrees with the response on every field the response carried, at any depth, when no entity of it is hidden by a stored reference and what it says of one entity in several places agrees. |
| `EntityStore.RepeatedThenRead` | src/client-cache.ts:853-946 | Reading the stored form back gives the response also when entities occur in it several times, if they are the same everywhere. |
| `EntityHiding.CoversExactly` | src/client-cache.ts:929-937 | For a response that names a property of an entity anywhere in it, everything else it writes not being hidden, and a stored record of that entity which, if it is a reference, refers to a record that has no such property by then: a read covers the response if and only if that stored record is not a reference. |
| `EntityHiding.DocumentReadsAsRecord` | src/client-cache.ts:853-867 | Reachable by two fetches: a document whose first body is a typed record and whose second body is not reads as the record, and the second body is lost, for every such pair of flat bodies. |
| `QueryUpdates.QueriesShowUpdate` | src/client-cache.ts:916-937 | After `setEntity`, for every cached query and every path at which it reaches the entity through the store: the result there has the new fields, under them the old ones, which read as before unless they lead back to the entity, and no others. |
| `QueryUpdates.QueriesCoverWrite` | src/client-cache.ts:345-379 | After a recorded REST write of a record, under the policies that merge, for every cached query and every path at which it reaches the record: the result there covers the body of the answer, at any depth. |
| `QueryUpdates.PartIsRead` | src/client-cache.ts:1000-1019 | Reading a value reads each part of it, reached through references, in its place. |
| `EntityStore.ReadEnds` | src/client-cache.ts:1000-1019 | Denormalising ends whenever references go down a rank on resources, with as many nested lookups as there are ranks; `ReadEndsExactly` is the exact condition. |
| `EntityStore.ApplyWritesRanked` | src/client-cache.ts:916-937 | Merging responses whose entities nest along the ranks keeps the store ranked. |
| `EntityStore.MoreFuel` | src/client-cache.ts:1000-1019 | The bound on nested lookups never changes a result: a read that ended gives the same value under every larger bound. |
| `EntityStore.SelfTypedDocumentNeverReads` | src/client-cache.ts:855-906 | An instance over every store: a document whose body carries its own type name is stored as a reference to itself, and no read of it ends. |
| `EntityCycles.DocumentReadsExactly` | src/client-cache.ts:853-946 | For every document body whose repeated entities are the same everywhere and none of whose entities is stored: some read of it ends if and only if the document is not among the entities met in its own body. |
| `EntityCycles.RecordReadsExactly` | src/client-cache.ts:869-946 | The same for a record with an id, of a known collection or met anywhere else: it can be read if and only if it does not contain itself at any depth. |
| `EntityCycles.ReadEndsExactly` | src/client-cache.ts:1000-1019 | Over every store and for every value: some bound on nested lookups is enough to read it if and only if the read meets no entity that contains itself, and then the number of stored entities is enough. |
| `EntityCycles.NestedIsMet` | src/client-cache.ts:884-946 | Every entity nested in a response is met when the stored form is read, through any number of other entities. |
| `EntityStore.UnreachedUnchanged` | src/client-cache.ts:916-927 | Setting or deleting an entity changes no read that does not look at it. |
| `EntityStore.UpdateIsRead` | src/client-cache.ts:916-937 | After `setEntity` a reference to the entity reads the new fields over the old ones, and the old ones as before unless they lead back to it. |
| `ClientCache.FreshEntriesFollowWrites` | src/client-cache.ts:345-399 | With in-memory storage, in every run of stored fetches, REST and GraphQL writes, deletes and events: a fresh entry that lists a resource was stored after the last recorded write on it, and one that involves it after the last delete or event. |
| `ClientCache.ListsAreResources` | src/client-cache.ts:853-867 | In every run, an entry's `lists` are among its `resources`. |
| `ClientCache.ReachableQueriesRead` | src/client-cache.ts:967-1019 | In every state reached by responses that nest along ranks, every cached query can be denormalised. |
| `ClientCache.UnrelatedQueryUnchanged` | src/client-cache.ts:916-927 | Updating or deleting an entity leaves every query unchanged that cannot reach it. |
| `ClientCache.LateAnswerIsFresh` | src/client-cache.ts:237-268 | A list stored after a recorded write is fresh, whenever it was requested; `FetchedData` says when its data is older. |
| `CachedReads.GraphqlIsReadBack` | src/client-cache.ts:278-290 | After a GraphQL result without errors, none of whose entities is stored and which says the same of an entity wherever it occurs, is stored under a key, reading the key gives the result. |
| `CachedReads.RestIsReadBack` | src/client-cache.ts:246-260 | The same for a REST answer with its status, headers and body, for every target. |
| `CachedReads.GraphqlIsCovered` | src/client-cache.ts:278-290 | Over a store that holds some of the entities, every read of the stored result that ends says at least what the result said. |
| `CachedReads.RestIsCovered` | src/client-cache.ts:246-260 | The same for a REST answer. |
| `CachedReads.RestWriteIsCovered` | src/client-cache.ts:345-379 | A recorded REST write, whatever its answer looks like, merges what the answer says; under the policy that only invalidates the entities stay. |
| `CachedReads.GraphqlWriteIsCovered` | src/client-cache.ts:381-399 | The same for a recorded GraphQL write. |
| `CachedReads.FailuresAreNotStored` | src/client-cache.ts:242-283 | Results with errors, and answers that did not succeed, change nothing. |
| `CachedReads.KeyedById` | src/client-cache.ts:869-882 | A record is the entity of its id, a text or a number; without one it is stored in place. |
| `CachedReads.KeyedByType` | src/client-cache.ts:884-906 | An object met anywhere is an entity of the resource that its type name names, and none without a known type name. |
| `CachedReads.RootsByName` | src/client-cache.ts:809-827 | A root field of GraphQL data is about the resource of its own name, or the collection it is the singular of, or the type of its value. |
| `CachedReads.ListRootsByName` | src/client-cache.ts:839-851 | A list under a root field of unknown name is about the type of its first object, and about nothing when it has none. |
| `CachedReads.LostReferencesAreNull` | src/client-cache.ts:1000-1019 | References to entities that are not stored or are falsy read as null, and so do objects that only look like references. |
| `CacheStaleness.StaleExactly` | src/client-cache.ts:345-399 | After every operation: a fresh entry is stale if and only if the operation strikes all entries, or strikes a resource that the entry is about, or writes on one that it lists; otherwise entries stay as they were. |
| `CacheStaleness.StoredEntryIsAbout` | src/client-cache.ts:246-260 | A stored REST answer is a fresh entry about all its entities, and lists its resource if and only if it is an array of a collection; other entries stay. |
| `CacheStaleness.StoredDataIsAbout` | src/client-cache.ts:278-290 | A stored GraphQL result is a fresh entry about all its entities; other entries stay. |
| `CacheStaleness.EntitiesAreMentioned` | src/client-cache.ts:853-914 | An entry is about the resource of every entity in its answer, and lists a collection if and only if the answer is an array of it. |
| `CacheStaleness.OnlyNamedIsMentioned` | src/client-cache.ts:853-914 | And it is about nothing but its own resource and those that types in the answer name. |
| `CacheStaleness.OthersStay` | src/client-cache.ts:456-483 | The manifest changes only when it is loaded or the source changes, and events leave the entities as they are. |
| `FetchedData.DataFollowsWrites` | src/client-cache.ts:331-399 | In every run of shared fetches, their answers, the readers that store them, writes and events, with every store tied to the call it continues: the data of a fresh entry that lists a resource was requested after the last recorded write on it if and only if no write on it was recorded between the request and the store. |
| `FetchedData.StoredAfterWrites` | src/client-cache.ts:331-399 | In those runs such an entry was stored, by a reader of a call sent before, after the last recorded write. |
| `FetchedData.ReadOwnsItsCall` | src/client-cache.ts:331-343 | In every run a read gets data requested when it was made, and not before, if and only if no call for its key is under way at that moment. |
| `FetchedData.LateAnswerIsOlder` | src/client-cache.ts:237-268 | A run in which a call is sent, a write recorded and the answer stored: the list is fresh and its data older than the write. |
| `FetchedData.JoinedAnswerIsOlder` | src/client-cache.ts:331-343 | A run in which the read that stores the list was itself made after the write, and joined the call sent before it. |
| `ClientCache.DeleteNeedsCapitals` | src/client-cache.ts:362-369 | A successful delete removes the entity if and only if its verb is written in capitals, although the test for reads ignores case. |
| `JsText.UpperByAlphabet` | src/client-cache.ts:789-792 | Upper case turns the letters of the alphabet into its capitals and leaves other characters. |
| `ReadPolicy.ExecuteRead` | src/client-cache.ts:300-329 | For each read policy: when `fetchOnce` is called, which sends a call or joins one, when the answer is a cached entry and which, when the call runs in the background, when `null` and when the error is the answer. |
| `ReadPolicy.ReadFollowsWrites` | src/client-cache.ts:300-329 | In every run, an answer taken from the cache, except by `cache-only` or after a network failure, was stored after the last recorded write on each resource it lists. |
| `CacheState.State.NormalizeAnyValue` | src/client-cache.ts:884-906 | The recursive, updating normaliser returns the normalised value, merges exactly the writes of the specification into `entities` in order, and adds exactly the mentioned resources to `meta`. |
| `CacheState.State.NormalizeRecordValue` | src/client-cache.ts:869-882 | The same for one record of a known collection, keyed by its id field. |
| `CacheState.State.NormalizeResourceValue` | src/client-cache.ts:853-867 | The same for the body of a response about a known resource; only an array is recorded as a list. |
| `CacheState.State.NormalizeObjectFields` | src/client-cache.ts:908-914 | The same for the fields of an object. |
| `CacheState.State.NormalizeGraphqlData` | src/client-cache.ts:794-807 | The same for GraphQL data, root field by root field. |
| `CacheState.State.SetEntityValue` | src/client-cache.ts:916-937 | `entities` becomes `SetEntity` of the old one: the value merged over an existing record. |
| `CacheState.State.WriteQueryEntry` | src/client-cache.ts:955-965 | The entry of the key is replaced by a fresh one with the given sets; other entries stay. |
| `CacheState.State.InvalidateQueries` | src/client-cache.ts:979-998 | Every entry becomes stale exactly as the options and the resource name demand, all others stay. |
| `CacheState.State.InvalidateMetaResources` | src/client-cache.ts:829-837 | The loop over the written resources equals invalidating by all of them. |
| `CacheState.State.StoreRestResult` | src/client-cache.ts:246-260 | The cache moves by the step `StoreRest` of the run semantics. |
| `CacheState.State.StoreGraphqlResult` | src/client-cache.ts:278-290 | The cache moves by the step `StoreGraphql`. |
| `CacheState.State.RecordRestWrite` | src/client-cache.ts:345-379 | The cache moves by the step `RestWrite`, for every verb, status and write policy. |
| `CacheState.State.RecordGraphqlWrite` | src/client-cache.ts:381-399 | The cache moves by the step `GraphqlWrite`. |
| `CacheState.State.OnResourceEvent` | src/client-cache.ts:456-466 | The cache moves by the step of a resource event. |
| `CacheState.State.OnSourceChanged` | src/client-cache.ts:472-483 | The cache moves by the step of a source change: the manifest is forgotten and every entry is stale. |
| `SharedFetch.RunKeepsInv` | src/client-cache.ts:331-343 | In every interleaving the in-flight map holds exactly the keys with an unsettled call, and every caller waits for a call of its own key or has that call's outcome. |
| `SharedFetch.OneCallPerKey` | src/client-cache.ts:331-343 | In every interleaving at most one network call per key is outstanding. |
| `SharedFetch.JoinersShareOutcome` | src/client-cache.ts:331-343 | A caller that asks while a call is outstanding joins it without a new call, and all callers of one call that were answered got the same outcome. |
| `SharedFetch.FetchCompletes` | src/client-cache.ts:331-343 | Calls come to an end: once the network answers and the callback runs, the key is free again, and a caller that waits gets the answer. |
| `SharedFetch.FreeKeySends` | src/client-cache.ts:331-343 | A fetch for a key with no call under way sends one. |
| `SharedFetch.Fetches.Fetch` | src/client-cache.ts:331-343 | The map operation moves the state by one step of the protocol and returns an unsettled call for the key, the old one if there was one. |
| `SharedFetch.Fetches.Finally` | src/client-cache.ts:338-340 | The `finally` callback removes the key of its call and settles it. |
| `GraphqlNormalForm.ParseUndoesPrint` | src/graphql/parser.ts:60-454 | For every document AST: parsing its printed text gives the document back if and only if the document is well formed (valid distinct names, no spread of a fragment called `on`, no string `$`, no string `]` inside a list). |
| `GraphqlNormalForm.ParsedIsWellFormed` | src/graphql/parser.ts:60-454 | Whatever source is parsed, the resulting document is well formed. |
| `GraphqlNormalForm.PrintingIsNormalForm` | src/graphql/parser.ts:60-454 | Every source that parses has a normal form: printing what it parses to parses to the same document. |
| `GraphqlRoundTrip.ValueRoundTrip` | src/graphql/parser.ts:273-364 | The tokens of a well-formed value, before anything, parse to that value and leave what follows. |
| `GraphqlRoundTrip.DocumentRoundTrip` | src/graphql/parser.ts:74-172 | The tokens of a well-formed document, with its operations and fragments, parse to that document. |
| `GraphqlSpelling.LexExactly` | src/graphql/parser.ts:456-586 | A text lexes to tokens if and only if it is spelt from them: with white space, commas and comments between, names and numbers as long as possible, and strings with any of the escapes. |
| `GraphqlSpelling.ReadsMeaning` | src/graphql/parser.ts:522-603 | A string literal spelt with any mixture of plain characters and escapes is read as what it spells. |
| `GraphqlSpelling.VariablesAreSkipped` | src/graphql/parser.ts:105-156 | A well-formed operation printed with variable definitions, any tokens in balanced parentheses, after its keyword and name parses to that operation and leaves the same rest. |
| `GraphqlSpelling.ShortFormIsQuery` | src/graphql/parser.ts:109-117 | A selection set alone is a query without a name. |
| `GraphqlSpelling.EverySourceParses` | src/graphql/parser.ts:60-172 | Every source of operations, in short form, with variable definitions or without, and of fragments, in any order and however it is spelt, parses to its operations and fragments. |
| `GraphqlSpelling.EverySpellingParses` | src/graphql/parser.ts:60-172 | However a well-formed document is spelt, its text parses to it. |
| `GraphqlSpelling.NamesAreStrings` | src/graphql/parser.ts:298-315 | A name as a value is the string it reads, but for `true`, `false` and `null`. |
| `GraphqlGrammar.ParsedIsDerived` | src/graphql/parser.ts:60-172 | Every source that parses is spelt from tokens that derive, in the grammar of the subset, the operations and fragments that are returned; nothing else is accepted. |
| `GraphqlGrammar.ValueDerived` | src/graphql/parser.ts:273-364 | Values, lists and objects that parse are derived by the grammar. |
| `GraphqlGrammar.RecordMeans` | src/graphql/parser.ts:259-271 | A record has each name once, with the value that was given last. |
| `GraphqlGrammar.NumberMeans` | src/graphql/parser.ts:310-325 | A number token without a point is the integer its first digits say. |
| `GraphqlGrammar.NegativeMeans` | src/graphql/parser.ts:291-296 | After a minus it is the negated integer, and not a number without digits. |
| `GraphqlParser.TokenizeSource` | src/graphql/parser.ts:456-520 | The lexer's index loop computes `Tokenize`, or throws exactly when it does, and ends on every source. |
| `GraphqlParser.ReadStringToken` | src/graphql/parser.ts:522-562 | The string reader's loop, with its escapes, computes `ReadString` and the index after it; an unterminated string is an error. |
| `GraphqlParser.ReadNumberToken` | src/graphql/parser.ts:564-574 | The longest run of number characters, and the index after it. |
| `GraphqlParser.ReadNameToken` | src/graphql/parser.ts:576-586 | The longest run of name characters, and the index after it. |
| `GraphqlParser.Parser.Consume` | src/graphql/parser.ts:449-453 | Returns the current token and advances the index past it. |
| `GraphqlParser.Parser.ParseValue` | src/graphql/parser.ts:273-332 | The parser object returns what the specification parses from its remaining tokens, and leaves the index where it stops; termination by tokens left. |
| `GraphqlParser.Parser.ParseList` | src/graphql/parser.ts:334-347 | The same for the loop over a list. |
| `GraphqlParser.Parser.ParseRecord` | src/graphql/parser.ts:259-271 | The same for the loop that fills a record, shared by arguments and objects; a repeated name keeps its place and takes the last value. |
| `GraphqlParser.Parser.ParseDirectives` | src/graphql/parser.ts:243-257 | The same for the loop over directives. |
| `GraphqlParser.Parser.ParseSelectionSet` | src/graphql/parser.ts:174-184 | The same for the loop over selections. |
| `GraphqlParser.Parser.ParseFragmentSelection` | src/graphql/parser.ts:194-216 | The same for a spread or an inline fragment. |
| `GraphqlParser.Parser.ParseField` | src/graphql/parser.ts:218-241 | The same for a field with alias, arguments, directives and selection set. |
| `GraphqlParser.Parser.SkipBalanced` | src/graphql/parser.ts:366-389 | The same for the loop over nested parentheses. |
| `GraphqlParser.Parser.ParseOperationDefinition` | src/graphql/parser.ts:105-156 | The same for an operation. |
| `GraphqlParser.Parser.ParseFragmentDefinition` | src/graphql/parser.ts:158-172 | The same for a fragment definition. |
| `GraphqlParser.Parser.ParseDocument` | src/graphql/parser.ts:74-103 | The same for the loop over definitions. |
| `GraphqlParser.Parse` | src/graphql/parser.ts:60-66 | Lexer and parser object together compute `ParseGraphql`. |
| `GraphqlInline.InliningPreservesExecution` | src/graphql/execute.ts:172-235 | For every document with acyclic fragments, server, database and operation name: replacing each spread by an inline fragment, with the fragment's own directives on a wrapper inside, gives the same data, the same error and the same database after the same mutations. |
| `GraphqlMeaning.ShouldIncludeExactly` | src/graphql/execute.ts:515-546 | A selection is included if and only if every directive on it is a `skip` whose condition is false or an `include` whose condition is true; otherwise the first that is neither decides: it drops the selection, by a true `skip` or a false `include`, or it is the error. |
| `GraphqlMeaning.ConditionExactly` | src/graphql/execute.ts:548-575 | The condition of a directive is b if and only if its argument `if` is the literal b or a variable that holds b; it is missing if and only if there is no such argument. |
| `GraphqlMeaning.ExcludedLeavesNothing` | src/graphql/execute.ts:188-197 | An excluded selection leaves data and database as they are, at the root and below. |
| `GraphqlMeaning.ProjectedObject` | src/graphql/execute.ts:411-476 | An object projected by a selection set: the result has a name if and only if a field the set stands for has it as alias, or as name without one; under it stands what the last such field shows: the property of its own name, projected, or the type name. |
| `GraphqlMeaning.ProjectedArray` | src/graphql/execute.ts:416-424 | The items of an array are projected in order, one by one, after the computed fields of all of them are resolved. |
| `GraphqlMeaning.ComputedAreResolved` | src/graphql/execute.ts:478-513 | Exactly the computed fields among those the set stands for are resolved, in order, unless there is no resource or that was done before. |
| `GraphqlMeaning.ExecutionRunsFields` | src/graphql/execute.ts:172-235 | Executing root selections is running the fields they stand for, through spreads and inline fragments that match (section 6.3.2 of the GraphQL specification), one after the other on the database the one before left, up to an error. |
| `GraphqlMeaning.DocumentRunsFields` | src/graphql/execute.ts:93-125 | A document runs the fields of its selected operation, with its fragments and the root type of the operation. |
| `GraphqlMeaning.SelectsByName` | src/graphql/execute.ts:127-170 | With a name the first operation so called is selected, without one the only operation, and otherwise it is the error that says why not. |
| `GraphqlMeaning.LiteralIsValue` | src/graphql/execute.ts:649-680 | Evaluating the literal for a value gives the value, whatever the variables. |
| `GraphqlMeaning.IntegerLiteral` | src/graphql/execute.ts:649-680 | An integer literal is the number that its decimal text reads. |
| `GraphqlMeaning.ScalarsStay` | src/graphql/execute.ts:411-428 | What is neither array nor object is left as it is by a projection. |
| `GraphqlExecutor.ShouldIncludeSelection` | src/graphql/execute.ts:515-546 | The loop over `@skip` and `@include` computes `ShouldInclude`, errors included. |
| `GraphqlExecutor.Executor.SelectedComputedFieldNames` | src/graphql/execute.ts:485-513 | The recursive loop that collects computed fields through fragments computes `SelectedComputed`. |
| `GraphqlExecutor.Executor.ProjectAny` | src/graphql/execute.ts:411-439 | Projecting a value, an array or an object computes `ProjectValue`. |
| `GraphqlExecutor.Executor.ProjectObjectSelection` | src/graphql/execute.ts:441-476 | Writing into `projected` field by field, through spreads and inline fragments, computes `ProjectSelection`. |
| `GraphqlExecutor.Executor.ExecuteRootSelection` | src/graphql/execute.ts:188-235 | Writing into `data` and changing the database field by field computes `ExecuteSelection`: the database is what is left at an error, too. |
| `GraphqlExecutor.Executor.ExecuteSelectionSet` | src/graphql/execute.ts:172-186 | The loop over root selections computes `ExecuteSelections`. |
| `WriteQueue.WritesAreSerialised` | src/integrations/sqlite.ts:213-225 | In every interleaving an operation starts only when every earlier one on its key has settled, successfully or not. |
| `WriteQueue.ValueIsFoldOfSuccesses` | src/integrations/sqlite.ts:213-225 | In every interleaving each resource holds the fold of its successful operations in submission order, although operations read and write back in two steps. |
| `WriteQueue.QueueRemovedWhenDone` | src/integrations/sqlite.ts:219-223 | A queue entry is gone only when every operation submitted on its key has settled. |
| `WriteQueue.QueueNeverBlocks` | src/integrations/sqlite.ts:213-218 | An operation whose predecessors are done, failed ones included, may start. |
| `WriteQueue.OperationCompletes` | src/integrations/sqlite.ts:213-225 | An operation that may start comes to an end: if it succeeds its effect on what it read is the value, and the next in the queue may start, also if it failed. |
| `WriteQueue.Store.Enqueue` | src/integrations/sqlite.ts:213-218 | The map operation moves the state by one submission of the protocol. |
| `WriteQueue.Store.AfterStored` | src/integrations/sqlite.ts:219-223 | The cleanup removes the entry only when it is still that of its own operation. |
| `SqliteCollection.StepRefinesMap` | src/integrations/sqlite.ts:689-794 | Each of create, append, patch, delete and get, with no statement of another operation between its own, keeps the table sound (rows fit their columns, keys present and distinct) and does to it exactly what a finite map from keys to rows does. A created record has in each column the value given, else the default where there is one and defaults apply, else the generated id in an empty single key, and nothing in any other case; a patched one the patched values outside its key. It succeeds if and only if nothing forbids it, and an error names something that does, the table unchanged. |
| `SqliteCollection.PreparedIsFilled` | src/integrations/sqlite.ts:698-717 | Stripping, defaults and the generated id fill in a record column by column as `StepRefinesMap` says, and an id is generated if and only if the single key has neither a value nor a default that stands. |
| `SqliteCollection.NamedRowIsFound` | src/integrations/sqlite.ts:1081-1116 | In every sound table a key, given as a whole or by all its fields, finds the row that it names. |
| `SqliteCollection.EmptyKeyIsRefused` | src/integrations/sqlite.ts:1094-1116 | A key is refused as missing if and only if it is empty as a whole, for a single key field, or one of several fields is missing or empty. |
| `SqliteCollection.StepIsBothStatements` | src/integrations/sqlite.ts:698-794 | An operation is its reading and its writing statement, one right after the other. |
| `SqliteCollection.FinishRefines` | src/integrations/sqlite.ts:726-794 | The writing statement, whatever happened to the table since the operation read it, keeps the table sound: an insert takes a free key and fails as a duplicate on one in use, an update changes the row of its key and answers as if it had when there is none, a delete removes its key. |
| `SqliteOverlap.RunKeepsSound` | src/integrations/sqlite.ts:698-794 | In every interleaving of the statements of overlapping operations the table stays sound. |
| `SqliteOverlap.GeneratedIdCollidesExactly` | src/integrations/sqlite.ts:708-745 | In every interleaving, with a scalar key column: a create with a generated id fails as a duplicate if and only if a record with that id was inserted between its reading of the ids and its insert, and not removed again. |
| `SqliteOverlap.OverlappingCreatesCollide` | src/integrations/sqlite.ts:708-745 | Two creates without id that both read before the first one writes: the second fails as a duplicate, on every table. |
| `SqliteOverlap.PatchKeepsExactly` | src/integrations/sqlite.ts:756-786 | In every interleaving, when a patch writes: each column it does not name gets what it held when the patch read the record, and so stays as it is if and only if it still holds that; and when the record is gone by then the patch changes nothing and still answers with the record. |
| `SqliteOverlap.OverlappingPatchesLose` | src/integrations/sqlite.ts:756-786 | Two patches of one record that both read before the first one writes: what the first set in a column the second does not name is lost, on every table. |
| `SqliteOverlap.UntouchedRow` | src/integrations/sqlite.ts:756-794 | In every interleaving a row that is neither removed nor changed between two moments is the same at both. |
| `SqliteOverlap.DecidedAtBegin` | src/integrations/sqlite.ts:698-786 | In every interleaving a call that has not written yet is about to write what it decided from the table as it was when it began. |
| `SqliteCollection.CreatedIsRead` | src/integrations/sqlite.ts:698-750 | A created record is read back under its key, equal to the reply if and only if every value survives its column (no null in a scalar column, a boolean in a boolean one). |
| `SqliteCollection.DeleteUndoesCreate` | src/integrations/sqlite.ts:788-794 | Deleting the record just created restores the table. |
| `SqliteCollection.PatchedIsRead` | src/integrations/sqlite.ts:756-786 | A patched record is read back under the same key, equal to the reply if and only if every value survives its column. |
| `SqliteCollection.RecordReturns` | src/integrations/sqlite.ts:1005-1042 | Deserialising a serialised record gives it back if and only if every value survives its column. |
| `SqliteCollection.AppendOnlyGrows` | src/integrations/sqlite.ts:845-863 | Over any run an append-only table only grows: earlier rows stay, unchanged and in place. |
| `SqliteCollection.ReadOnlyStays` | src/integrations/sqlite.ts:825-843 | Over any run a read-only table does not change. |
| `SqliteCollection.UntouchedStays` | src/integrations/sqlite.ts:689-794 | Over any run that neither patches nor deletes a stored key, its row stays as it is: creates never overwrite. |
| `SqliteCollection.SearchEnds` | src/integrations/sqlite.ts:812-822 | For ids in double precision: the search loop of `nextId` is either not entered or never left, and ends if and only if the largest numeric id, plus one, is not itself again in use. |
| `SqliteCollection.FirstCandidate` | src/integrations/sqlite.ts:812-817 | The search starts after the greatest positive integer among the ids, or at their number plus one when there is none. |
| `SqliteCollection.SuccIsNearest` | src/integrations/sqlite.ts:818-820 | The successor is the double nearest to the next integer. |
| `SqliteCollection.IdsExactly` | src/integrations/sqlite.ts:813-814 | The ids that a new one is kept apart from are the keys of all rows as texts, but for empty ones. |
| `SqliteCollection.StuckAtLimit` | src/integrations/sqlite.ts:818-820 | The single id 9007199254740992 keeps the search from ending. |
| `SqliteCollection.NextId` | src/integrations/sqlite.ts:812-822 | When the search ends, the id is the first candidate, is not empty and is none of the stored ids. |
| `SqliteCollection.GeneratedIdIsFree` | src/integrations/sqlite.ts:708-719 | With a scalar key column a generated id is none of the stored ones at the moment the ids are read, for every table. |
| `SqliteCollection.GeneratedDuplicateExactly` | src/integrations/sqlite.ts:708-745 | When a generated id is a duplicate, for every table: with a scalar key never, with a boolean key if and only if some row is keyed true, with a key of JSON text if and only if the first candidate, as a JSON string, is a stored key. |
| `SqliteCollection.StructuredIdCollides` | src/integrations/sqlite.ts:812-822 | An instance with a key column of JSON text: one row whose id is 2. |
| `SqliteCollection.BooleanIdCollides` | src/integrations/sqlite.ts:812-822 | An instance with a boolean key column: one row whose id is true. |
| `SqliteCollection.KeyOfStored` | src/integrations/sqlite.ts:1081-1116 | The key that `patch` computes from the record it read selects the row it was read from. |
| `SqliteCollection.StripUnknownFields` | src/integrations/sqlite.ts:994-1003 | The loop keeps exactly the known fields that are not undefined. |
| `SqliteCollection.SerializeRow` | src/integrations/sqlite.ts:1005-1024 | The loop gives every known field its cell. |
| `SqliteCollection.DeserializeRow` | src/integrations/sqlite.ts:1026-1042 | The loop gives a record of the fields whose cells are not null. |
| `SqliteCollection.Collection.Get` | src/integrations/sqlite.ts:665-669 | Answers as the step `Fetch` on the table. |
| `SqliteCollection.Collection.StartInsertion` | src/integrations/sqlite.ts:698-725 | The checks and the search for an id, up to the INSERT, decide what `StartInsert` decides on the table as it is then, and change nothing. |
| `SqliteCollection.Collection.StartPatching` | src/integrations/sqlite.ts:756-777 | The checks and the SELECT, up to the UPDATE, decide what `StartOp` decides on the table as it is then, and change nothing. |
| `SqliteCollection.Collection.Finish` | src/integrations/sqlite.ts:726-794 | The INSERT, UPDATE or DELETE at whatever moment it runs: table and reply are those of `FinishOp`, and the table stays sound. |
| `SqliteCollection.Collection.CreateWithOperation` | src/integrations/sqlite.ts:698-750 | Both statements with no other between them: table and reply are those of `Insert`, for every record and schema. |
| `SqliteCollection.Collection.Create` | src/integrations/sqlite.ts:689-692 | With no other statement in between, table and reply are those of the step `Create`; append-only tables refuse. |
| `SqliteCollection.Collection.Append` | src/integrations/sqlite.ts:694-696 | With no other statement in between, table and reply are those of the step `Append`. |
| `SqliteCollection.Collection.Patch` | src/integrations/sqlite.ts:756-786 | With no other statement in between, table and reply are those of the step `Patch`. |
| `SqliteCollection.Collection.Delete` | src/integrations/sqlite.ts:788-794 | Table and reply are those of the step `Delete`. |
| `Jsonc.StrippedKeepsJson` | src/shared/jsonc.ts:10-115 | For every text of string literals, other characters and comments, with or without a byte order mark: the output has the same literals verbatim and the same other characters in order, less white space, the comments, and exactly the commas before closers. |
| `JsoncTokens.TokensKeptExactly` | src/shared/jsonc.ts:10-115 | For every such text: the output has the tokens of the source (literals, marks, and words, the maximal runs of other characters), less the commas before closers, if and only if no word is cut by empty block comments alone. |
| `JsoncTokens.JsonKeepsItsTokens` | src/shared/jsonc.ts:10-115 | For every JSON value, however its strings are spelt, and white space and comments stand between its tokens and commas before its closers: the output has exactly its tokens. |
| `JsoncTokens.TextDeterminesPieces` | src/shared/jsonc.ts:10-115 | The pieces of a text without comments, and so its tokens, can be told from the text. |
| `Jsonc.PlainJsonUnchanged` | src/shared/jsonc.ts:10-13 | Text without comments and trailing commas comes out as it went in. |
| `Jsonc.UncommentedTwice` | src/shared/jsonc.ts:15-68 | `stripComments` is idempotent on every text, unterminated strings and comments included. |
| `Jsonc.LinesAreKept` | src/shared/jsonc.ts:48-66 | On every text, each character outside comments stands in the output on its line of the source, in order. |
| `Jsonc.RestIsBlank` | src/shared/jsonc.ts:48-66 | What the output has besides those characters is spaces and line feeds. |
| `Jsonc.LastLineComment` | src/shared/jsonc.ts:48-54 | A line comment may also run to the end of the text: it is replaced as if a line feed followed. |
| `Jsonc.EmptyBlockJoinsWords` | src/shared/jsonc.ts:56-63 | An empty block comment leaves nothing, for every word before it and every text after it: it joins what it stands between. |
| `Jsonc.CommasGo` | src/shared/jsonc.ts:70-115 | `stripTrailingCommas` drops exactly the commas that have only white space before a closing bracket, outside strings. |
| `Jsonc.StripComments` | src/shared/jsonc.ts:15-68 | The index loop computes `Uncommented`. |
| `Jsonc.StripTrailingCommas` | src/shared/jsonc.ts:70-115 | The index loop with its look-ahead computes `Untrailed`. |
| `Jsonc.StripJsonc` | src/shared/jsonc.ts:10-13 | Both passes after dropping a byte order mark compute `Stripped`. |
| `Csv.ParseUndoesWrite` | src/shared/csv.ts:45-127 | For every table, with any cells quoted as section 2 of RFC 4180 asks and any line end: parsing gives its rows back, embedded commas, quotes and line breaks included, except those that are empty or one empty cell; so all of them if and only if there are none such. |
| `Csv.PaddedText` | src/shared/csv.ts:45-127 | A cell without quotes is read without the white space around it. |
| `Csv.ParseCsvRows` | src/shared/csv.ts:45-127 | The index loop, with `pushField` and `pushRow` inlined, computes `ParseRows`, and fails exactly on an unterminated quote. |
| `Falcor.FlatteningLosesNothing` | src/falcor/http.ts:478-519 | For every graph whose root is not itself a leaf: writing all its leaves into an empty graph gives it back if and only if it has no empty object inside and every key of digits is in canonical form. |
| `Falcor.LeafGraphIsLost` | src/falcor/http.ts:484-519 | A root that is a leaf is lost: its path is empty and writes nothing. |
| `Falcor.LeafPathsPrefixFree` | src/falcor/http.ts:478-496 | With canonical keys no leaf path is a prefix of another. |
| `Falcor.LeafIsRead` | src/falcor/http.ts:345-361 | Following the path of a leaf gives its value. |
| `Falcor.WrittenIsRead` | src/falcor/http.ts:506-519 | A value written under a path is read back under it, whatever the graph held. |
| `Falcor.OtherKeysStay` | src/falcor/http.ts:521-533 | A write leaves everything under other first keys as it was. |
| `Falcor.SetBelow` | src/falcor/http.ts:506-519 | Writing leaves that share their first key is writing them, without it, into the object under that key. |
| `Falcor.WalkJsonGraph` | src/falcor/http.ts:484-496 | The recursive loop appends exactly the leaves below the value, under the given path. |
| `Falcor.JsonGraphLeaves` | src/falcor/http.ts:478-482 | The leaves of the whole graph. |
| `Falcor.ReadPath` | src/falcor/http.ts:345-361 | The loop over the path computes `ValueForPath`. |
| `Falcor.ArrayProperties` | src/falcor/http.ts:345-361 | The items of an array stand under their decimal indices, and its length under that name. |
| `Falcor.ExpandPathSet` | src/falcor/http.ts:413-426 | The paths are the product of the parts' keys, in order and with repetitions; a path is among them if and only if it takes one key from each part. |
| `Falcor.ProductAt` | src/falcor/http.ts:413-426 | Which path stands where: the keys of the last part vary fastest, and the number of paths is the product of the numbers of keys. |
| `Falcor.ExpandSegment` | src/falcor/http.ts:428-449 | A range of integers stands for them in order, both ends included; a list for its keys in order; null for none. |
| `Falcor.RangeAt` | src/falcor/http.ts:428-449 | The keys of a range go up from its first to its last integer. |
| `Falcor.PointerDeterminesPath` | src/falcor/http.ts:535-537 | Two paths have the same pointer if and only if their keys read alike, or both are the empty path or the path of one empty key. |
| `Falcor.PointerReturns` | src/falcor/http.ts:535-537 | Read as section 4 of RFC 6901 says, the pointer of a path gives its keys back. |
| `Names.KebabWords` | src/shared/names.ts:35-37 | Splitting a kebab-case name gives back the words it was made of. |
| `Names.CamelMeltsDigits` | src/shared/names.ts:23-33 | An instance: `a-1` becomes `a1`, one word. |
| `Names.CamelWordsExactly` | src/shared/names.ts:23-33 | The camel case of a name has the words of the name if and only if every word after the first starts with a letter and every word between the first and the last has two characters. |
| `Names.AliasChars` | src/shared/names.ts:23-37 | Kebab case is written in lower-case letters, digits and hyphens, camel case in letters and digits, not starting with a capital. |
| `Names.KebabStays` | src/shared/names.ts:35-37 | A kebab-case name is its own kebab case. |
| `Names.NoCollisionsNoAmbiguity` | src/shared/names.ts:48-88 | If no alias is shared, every requested name matches at most one resource. |
| `Names.AmbiguousExactly` | src/shared/names.ts:39-66 | Two resources can both match some request if and only if one of them is an alias of the other. |
| `Names.CollisionWithoutAmbiguity` | src/shared/names.ts:68-88 | The converse fails: `a b` and `a_b` share an alias, and no request matches both. |
| `Names.RoutesAreDistinct` | src/shared/names.ts:153-155 | Without collisions no two resources have the same route. |
| `Names.ResolveResource` | src/shared/names.ts:48-66 | Finds a resource if and only if some candidate names one, the exact name first; without collisions it is the only one that matches, so the order does not matter. |
| `Names.ResourceAliasCollisions` | src/shared/names.ts:68-88 | Reports exactly the aliases that more than one resource answers to, each with all of them; reports nothing if and only if no two resources share an alias. |
| `CompoundId.IdsAreInjective` | src/sqlite-compat.ts:191-208 | Two complete rows get the same id if and only if their key values agree as strings, field by field. |
| `CompoundId.IdReturns` | src/sqlite-compat.ts:207 | An id can be taken apart at `@` and decoded to the key values as strings, in order. |
| `CompoundId.EncodedReturns` | src/sqlite-compat.ts:207 | Percent-encoding of UTF-8 (section 2.1 of RFC 3986) is undone by decoding, for every string. |
| `CompoundId.EncodedNoAt` | src/sqlite-compat.ts:207 | The encoding never yields the separator. |
| `CompoundId.IdWhenComplete` | src/sqlite-compat.ts:192-206 | There is an id if and only if no key field is missing, null or empty; otherwise exactly the missing fields are named. |
| `Formats.NegotiateRestFormat` | src/rest/formats.ts:144-183 | Without a header the default; otherwise the format of the first offer, in registry and media type order, with the greatest score, if any offer has quality above zero, and the default if none has. |
| `Formats.AcceptedMediaScore` | src/rest/formats.ts:452-478 | The greatest score of the preferences that accept the media type, or the floor. |
| `Formats.CompareIsTotalOrder` | src/rest/formats.ts:480-488 | Comparing scores is antisymmetric and transitive, and zero only on equal scores. |
| `Formats.BestIsEarliest` | src/rest/formats.ts:452-488 | For every header: the best score is the floor if and only if no preference accepts the media type, and otherwise that of a preference with the greatest quality, among these the greatest specificity, among these the earliest in the header. |
| `Formats.EarlierWins` | src/rest/formats.ts:480-488 | Of two accepting preferences equal in quality and specificity the later in the header is not the best. |
| `Formats.RangeMeans` | src/rest/formats.ts:462-470 | A range accepts the media types whose halves are its own, a star standing for any, and is the more specific the fewer stars it has. |
| `Formats.QualityBeforeSpecificity` | src/rest/formats.ts:480-488 | An instance of the difference: a general range outscores a specific one. |
| `Formats.QualityAsStandard` | src/rest/formats.ts:452-488 | For every header and media type: the best score has the quality that section 12.5.1 of RFC 9110 gives, that of the most specific accepting range, if and only if no less specific accepting range has a greater one. |
| `Formats.ResolveFollowsChain` | src/rest/formats.ts:303-370 | Alias resolution ends on every configuration; it gives a renderer if and only if following the aliases meets it, and nothing if and only if the chain stops at an unknown or empty key or a missing renderer, or never ends. |
| `Formats.DefinedKeyResolves` | src/rest/formats.ts:303-370 | A definition without an alias resolves to its renderer for the target, and to nothing without one. |
| `Formats.UnknownKeyResolves` | src/rest/formats.ts:303-370 | A key that the registry does not have resolves to nothing. |
| `Formats.AliasResolves` | src/rest/formats.ts:303-370 | An alias resolves to what it stands for, however long the chain is. |
| `Formats.DefaultResolves` | src/rest/formats.ts:303-370 | The key `default` resolves to what the configured default names, or to `json` when it cannot render the target. |
| `Formats.DefaultRenders` | src/rest/formats.ts:303-370 | A default that can render the target itself resolves to its own renderer. |
| `Formats.FallbackKey` | src/rest/formats.ts:144-152 | What negotiation falls back to: the key that the default names, else the default itself for resources, else `json`. |
| `Formats.PointIsDropped` | src/rest/formats.ts:303-370 | A key reads the same with a point in front. |
| `Formats.DefaultOfDefault` | src/rest/formats.ts:324-329 | A default that names itself resolves to nothing. |
| `Formats.WinnerIsUnique` | src/rest/formats.ts:161-180 | At most one offer is the first with the greatest score, so the outcome of negotiation is determined. |
| `Formats.NegotiatedResolves` | src/rest/formats.ts:165-182 | A format that negotiation takes from the registry resolves under its own key. |

## Left out

- HTTP, sockets, server-sent events, timers, IndexedDB and files: a flush, an answer, an event is a step that may happen at any time.
- Storage hydration of the cache, which can load entries older than a write: freshness is proved for in-memory storage.
- `restTargetForRequest` and the manifest's route matching: the target of a request is a parameter of the cache's operations.
- Characters are Unicode scalar values, not UTF-16 units; lone surrogates, on which `encodeURIComponent` throws, do not occur, and sorting compares scalar values.
- Objects enumerate their properties in insertion order: the rule that integer-like keys come first, and `__proto__` and other inherited names, are not modelled.
- A JSON number is its printed text; decimals in GraphQL literals stay texts, integers there are unbounded, and `NaN` is its own literal.
- Variable definitions of GraphQL operations are skipped as balanced tokens, as the parser does; introspection is not modelled, and error messages, hints and positions are dropped.
- Resolvers, computed fields and database access of the executor are parameters of `Server`.
- GraphqlExecutor.Executor.ProjectAny: items of an array are projected one after the other, where the code awaits them together; of several errors the first in order is reported.
- Names.ResourceAliasCollisions: the order of the report, which is sorted for display by the rules of a locale.
- GraphqlMeaning.ShouldIncludeExactly: directives whose argument names are distinct, as in every parsed document.
- CachedReads.GraphqlIsReadBack: no root field is called `__dbRef`; versions of one entity that differ are merged, which `GraphqlIsCovered` is about.
- GraphqlInline.InliningPreservesExecution: takes a rank on fragments as its precondition, because the executor has no check for fragment cycles and does not end on them.
- Batcher.BatchPreservesMeaning: `dedupe: 'all'` is excluded, because it merges writes on purpose.
- GraphqlBatch.GraphqlBatchPreservesMeaning: requests with fragments in a circle are excluded, because executing them does not end; replies that refuse a request are told apart by nothing.
- EntityCycles.DocumentReadsExactly: a body that says different things of one entity in several places, or whose entities are stored already, is covered by `ReadEndsExactly` over the store it leads to.
- EntityStore.NormalizeThenRead: a response that names one entity twice is excluded; `RepeatedThenRead` covers the case that it is the same everywhere, and versions that differ are merged.
- EntityStore.ReadCoversResponse: reads that end, because merging can close a cycle of references; `EntityCycles.ReadEndsExactly` says when they do.
- EntityHiding.CoversExactly: one hidden entity at a time, with a property that the record it refers to lacks; when that record happens to say the same, nothing is lost.
- QueryUpdates.QueriesCoverWrite: the answer is a record with an id; for an array of records each of them is covered by `ReadCoversResponse`.
- The index that responses of a REST batch carry: answers are taken to come back in the order of the batch.
- Subscribers of cache keys, refetching and log events beyond their effect on entries.
- Transactions around statements: each statement of the SQLite driver is one step, and statements of different calls may alternate in any way.
- SQL text, column affinity, `STRICT` type errors and `NOT NULL` constraints; two fields mapped to one column; record validation is a parameter, and field values inside JSON columns are JSON values.
- SqliteCollection.NextId: conversion between numbers and texts is a parameter with its round-trip law, doubles do not overflow, and the method requires that the search ends, which `SearchEnds` characterises.
- SqliteCollection.Collection.StartInsertion: requires that the search for an id, if there is one, ends; a call that searches for ever has no outcome to state.
- SqliteCollection.Collection.CreateWithOperation: the same.
- SqliteCollection.Collection.Create: the same.
- SqliteCollection.Collection.Append: the same.
- `SqliteDbDocument`, `find`, `count` and `aggregate`: read-modify-write of one value and filters, easy beside the rest; `src/integrations/postgres.ts` repeats the SQLite logic.
- `setJsonGraphValue` and `setPlainPath` change nested objects in place; here they are functions on values, so aliasing of a leaf written twice is not modelled.
- Falcor.ExpandSegment: bounds of ranges are integers; `from` and `to` that are fractions or not numbers are not modelled.
- `parseCsvRecords`: header renaming and number coercion; header names can still collide after renaming.
- `parseAcceptHeader` and `normalizeFormatDefinition`: preferences and the normalised registry are inputs of negotiation; quality is a real number.
- `resourceAliasCollisionGroups`, which only regroups the reported collisions for the message, and singular and type names.
- Template substitution in operations, route exposure, authorisation, tracing, type generation and the HTML viewer.
