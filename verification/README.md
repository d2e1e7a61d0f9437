# Picture-data repository of the GeoCamera app, in Dafny

The GeoCamera app stores one `PictureData` record per photograph: the file URI (the
primary key), latitude, longitude, the time it was taken, and a transient
`displayedOnMap` flag that is never persisted. This project models the data layer that
keeps those records:

- the entity and the columns it persists (`picture_data.dfy`);
- the DAO over the table `picture_data` as a finite map from URI to row: select all,
  select by URI, insert-or-replace, update, delete-not-in, delete by URI, delete all
  (`picture_data_dao.dfy`);
- the local data source, which wraps the DAO's reads in `Result` and turns a missing
  row into `Picture not found!` (`local_data_source.dfy`);
- the default repository, which keeps an optional cache `uri → PictureData` in front
  of the data source, serves reads from it, refills it on a miss and writes through to
  it and to the store (`repository.dfy`);
- how those operations combine (`repository_lemmas.dfy`) and what the repository
  interface promises (`repository_contract.dfy`).

Supporting modules: `outcomes.dfy` (`Option`, `Result`, `Exception`, how a call ends),
`enumerations.dfy` (the unspecified orders) and `time_order.dfy` (`sortedBy { it.time }`).

Each repository operation waits for its store call (`coroutineScope { launch { … } }`
joins its child) before it returns. So an operation is a pure function from the pair
(cache, store), plus whether its one store call throws (`fault`), to the next pair and
its answer. Reads that throw are caught and become `Result.Error`. Writes that throw are
not caught: the operation ends with `Thrown(e)` and the exception reaches the caller.

The iteration order of the cache's `ConcurrentHashMap` and the row order of
`SELECT * FROM picture_data` are unspecified. The model picks each with a
let-such-that in a ghost function. Which order is picked is unknown, so every property
proved holds whatever it is; but it is fixed for given map contents, so two maps with
equal contents are listed alike. The source behaves so only for one unchanged map
iterated twice, which is the case `RepositoryLemmas.SecondGetAllIsServedByCache`
uses. Because the pick is a let-such-that, `getAllPictureData` is a ghost function. "Sorted by time" is stated as: each cache entry appears once, and times never
decrease. The sort is stable, like Kotlin's `sortedBy`: entries with equal times keep
the enumeration's order (`TimeOrder.SortKeepsTies`). Since that order is arbitrary, no
caller can rely on how ties come out.

`Result` and `succeeded` live in `data/Result.kt`, which is not part of this model.
They are modelled as `Success(data) | Error(exception)` and "is a `Success`".

## Behaviour the doc comments do not describe

The model follows the code. Where the code and its doc comments disagree, the gap is
proved as a lemma:

- `deleteAllPictureData` says it clears the cache, but it only empties the table. A
  deleted picture is still served from the cache (`RepositoryLemmas.DeleteAllKeepsStaleCache`).
- A save, or a successful single read, on an absent cache creates a one-entry cache. The
  next `getAllPictureData` then returns only that entry and hides every other stored
  row (`RepositoryLemmas.SaveOnColdCacheHidesStoredRows`,
  `RepositoryLemmas.GetOnColdCacheHidesStoredRows`). So the interface promise "all
  `PictureData` within the database" is guaranteed only when the listing starts from a
  cold cache (`PictureDataRepositoryContract.GetAllYieldsEntriesOrError`). It keeps
  holding while the cache is the mirror that listing left behind
  (`RepositoryLemmas.SecondGetAllIsServedByCache`) and the store has not changed.
- An empty table yields `Success([])` but leaves the cache absent. When the read fails,
  the fetch error is dropped and the answer is `Illegal state`
  (`RepositoryLemmas.EmptyStoreLeavesCacheCold`).
- On a read miss, `getPictureData` reports `Error fetching local picture data` both for
  a missing row and for a failed read. The data source's `Picture not found!` never
  reaches the caller (`DefaultPictureDataRepository.FetchFromLocal`).

## Model

| member | source | states |
|---|---|---|
| PictureDataEntity.ToRow | app/src/main/java/com/github/meaninglesscode/geocameraapp/data/PictureData.kt:25-29 | storing an entity writes exactly its four annotated columns: uri, latitude, longitude, time |
| PictureDataEntity.FromRow | app/src/main/java/com/github/meaninglesscode/geocameraapp/data/PictureData.kt:25-30 | an entity read back from a row has `displayedOnMap` false, the default of the field that has no column |
| PictureDataEntity.DefaultConstruction | app/src/main/java/com/github/meaninglesscode/geocameraapp/data/PictureData.kt:25-30 | default construction gives uri "", latitude and longitude 0.0, time 0 and no marker; a one-argument call defaults the rest |
| PictureDataEntity.RowRoundTrip | app/src/main/java/com/github/meaninglesscode/geocameraapp/data/PictureData.kt:26-29 | every column is persisted: a row read back and written again is the same row |
| PictureDataEntity.ReloadKeepsDurableFields | app/src/main/java/com/github/meaninglesscode/geocameraapp/data/PictureData.kt:21-30 | a store round trip keeps uri, latitude, longitude and time and resets the flag; it gives back the same entity exactly when the flag was false |
| PictureDataEntity.EqualityIncludesFlag | app/src/main/java/com/github/meaninglesscode/geocameraapp/data/PictureData.kt:25-30 | data-class equality compares all five properties, the flag included |
| Enumerations.KeysInSomeOrder | app/src/main/java/com/github/meaninglesscode/geocameraapp/data/source/local/PictureDataDao.kt:16-17 | an unspecified order of a table's keys lists each key exactly once |
| Enumerations.ValuesInSomeOrder | app/src/main/java/com/github/meaninglesscode/geocameraapp/data/source/DefaultPictureDataRepository.kt:41-42 | the values of a map in iteration order: the values along some listing that names every key exactly once, so each value appears as often as there are keys holding it |
| TimeOrder.SortByTime | app/src/main/java/com/github/meaninglesscode/geocameraapp/data/source/DefaultPictureDataRepository.kt:42 | `sortedBy { it.time }` returns a rearrangement (same multiset) of its input whose times never decrease |
| TimeOrder.SortKeepsTies | app/src/main/java/com/github/meaninglesscode/geocameraapp/data/source/DefaultPictureDataRepository.kt:42 | the sort is stable: for every time, the entries with that time come out in the order they went in |
| PictureDataDao.GetAllPictureData | app/src/main/java/com/github/meaninglesscode/geocameraapp/data/source/local/PictureDataDao.kt:16-17 | select-all lists the table: one reloaded entity per row, no URI twice, every stored URI present |
| PictureDataDao.GetPictureDataByUri | app/src/main/java/com/github/meaninglesscode/geocameraapp/data/source/local/PictureDataDao.kt:27-28 | select-by-URI answers the row keyed by that URI, and null exactly when no row has it |
| PictureDataDao.InsertPictureData | app/src/main/java/com/github/meaninglesscode/geocameraapp/data/source/local/PictureDataDao.kt:36-37 | insert adds the row or replaces the one with the same URI; the keys grow by that URI only and every other row is unchanged |
| PictureDataDao.UpdatePictureData | app/src/main/java/com/github/meaninglesscode/geocameraapp/data/source/local/PictureDataDao.kt:46-47 | update overwrites the row with that URI if it exists and reports 1, else changes nothing and reports 0; no key is added |
| PictureDataDao.ClearDeletedPictureData | app/src/main/java/com/github/meaninglesscode/geocameraapp/data/source/local/PictureDataDao.kt:55-56 | delete-not-in keeps exactly the rows whose URI is listed, untouched |
| PictureDataDao.DeletePictureDataByUri | app/src/main/java/com/github/meaninglesscode/geocameraapp/data/source/local/PictureDataDao.kt:66-67 | delete-by-URI removes only that key and reports a count of at most 1, which is 1 exactly when the row existed |
| PictureDataDao.DeleteAllPictureData | app/src/main/java/com/github/meaninglesscode/geocameraapp/data/source/local/PictureDataDao.kt:72-73 | delete-all leaves the table empty |
| PictureDataDao.AtMostOneRowPerUri | app/src/main/java/com/github/meaninglesscode/geocameraapp/data/PictureData.kt:26 | the primary key: any listing of the table, with one entry per row and every stored URI present, shows no URI twice |
| PictureDataDao.InsertLastWriteWins | app/src/main/java/com/github/meaninglesscode/geocameraapp/data/source/local/PictureDataDao.kt:36-37 | a second insert with the same URI hides the first completely |
| PictureDataDao.GetAfterInsert | app/src/main/java/com/github/meaninglesscode/geocameraapp/data/source/local/PictureDataDao.kt:27-37 | after an insert, the inserted URI answers with the inserted columns and every other URI answers as before |
| PictureDataDao.InsertRowCount | app/src/main/java/com/github/meaninglesscode/geocameraapp/data/source/local/PictureDataDao.kt:36-37 | inserting an existing URI keeps the row count; a new URI adds one row |
| PictureDataDao.UpdateIsInsertOfExistingRow | app/src/main/java/com/github/meaninglesscode/geocameraapp/data/source/local/PictureDataDao.kt:36-47 | update is insert restricted to a URI that already has a row |
| PictureDataDao.GetAfterDelete | app/src/main/java/com/github/meaninglesscode/geocameraapp/data/source/local/PictureDataDao.kt:27-67 | after delete-by-URI that URI finds nothing and every other URI answers as before |
| PictureDataDao.DeleteAbsentIsNoOp | app/src/main/java/com/github/meaninglesscode/geocameraapp/data/source/local/PictureDataDao.kt:66-67 | deleting a URI with no row changes nothing and reports 0 |
| PictureDataDao.ClearDeletedIdempotent | app/src/main/java/com/github/meaninglesscode/geocameraapp/data/source/local/PictureDataDao.kt:55-56 | delete-not-in twice is once; a list naming every stored URI deletes nothing; an empty list deletes everything |
| PictureDataDao.DeleteAllLeavesNothing | app/src/main/java/com/github/meaninglesscode/geocameraapp/data/source/local/PictureDataDao.kt:72-73 | after delete-all the table lists nothing and finds no URI |
| PictureDataLocalDataSource.GetAllPictureData | app/src/main/java/com/github/meaninglesscode/geocameraapp/data/source/local/PictureDataLocalDataSource.kt:28-35 | all rows wrapped in `Success` when the DAO call completes, and `Error` with the thrown exception exactly when it throws |
| PictureDataLocalDataSource.GetPictureData | app/src/main/java/com/github/meaninglesscode/geocameraapp/data/source/local/PictureDataLocalDataSource.kt:45-57 | `Success` of the row keyed by the URI exactly when the DAO finds it; `Picture not found!` when it answers null; the thrown exception when it fails |
| PictureDataLocalDataSource.SavePictureData | app/src/main/java/com/github/meaninglesscode/geocameraapp/data/source/local/PictureDataLocalDataSource.kt:64-66 | the DAO insert: the table changes at the entity's URI only, and only when the insert does not throw; a throw propagates |
| PictureDataLocalDataSource.DeleteAllPictureData | app/src/main/java/com/github/meaninglesscode/geocameraapp/data/source/local/PictureDataLocalDataSource.kt:80-82 | the DAO delete-all: the table ends empty unless the call throws, which propagates |
| PictureDataLocalDataSource.DeletePictureData | app/src/main/java/com/github/meaninglesscode/geocameraapp/data/source/local/PictureDataLocalDataSource.kt:90-92 | the DAO delete-by-URI with its count dropped: only that key goes, other rows are unchanged |
| PictureDataLocalDataSource.SaveThenGet | app/src/main/java/com/github/meaninglesscode/geocameraapp/data/source/local/PictureDataLocalDataSource.kt:45-66 | a save then a read of the same URI returns the saved durable fields with the flag reset |
| PictureDataLocalDataSource.DeleteAllThenGet | app/src/main/java/com/github/meaninglesscode/geocameraapp/data/source/local/PictureDataLocalDataSource.kt:28-82 | after a delete-all that does not throw, listing gives `Success([])` and any read reports `Picture not found!` |
| PictureDataLocalDataSource.DeleteThenGet | app/src/main/java/com/github/meaninglesscode/geocameraapp/data/source/local/PictureDataLocalDataSource.kt:45-92 | a delete then a read of the same URI reports `Picture not found!` |
| DefaultPictureDataRepository.NewRepository | app/src/main/java/com/github/meaninglesscode/geocameraapp/data/source/DefaultPictureDataRepository.kt:20-29 | a new repository starts with no cache |
| DefaultPictureDataRepository.SortedEntries | app/src/main/java/com/github/meaninglesscode/geocameraapp/data/source/DefaultPictureDataRepository.kt:41-42 | the sorted cache values list every entry once, each under its own URI, by ascending time |
| DefaultPictureDataRepository.DetachedCopy | app/src/main/java/com/github/meaninglesscode/geocameraapp/data/source/DefaultPictureDataRepository.kt:198 | the cached copy has the durable fields of the original and no marker flag: it equals a reload of the entity from the store |
| DefaultPictureDataRepository.CachePictureData | app/src/main/java/com/github/meaninglesscode/geocameraapp/data/source/DefaultPictureDataRepository.kt:197-205 | caching creates a missing cache, puts the copy under its URI, keeps every other entry, and returns the copy |
| DefaultPictureDataRepository.CacheEach | app/src/main/java/com/github/meaninglesscode/geocameraapp/data/source/DefaultPictureDataRepository.kt:175-177 | caching rows one by one adds exactly their URIs and keeps every other entry |
| DefaultPictureDataRepository.CacheEachStoresCopy | app/src/main/java/com/github/meaninglesscode/geocameraapp/data/source/DefaultPictureDataRepository.kt:175-177 | when no URI has two different rows, every row ends up cached as its copy, whatever its position |
| DefaultPictureDataRepository.RefreshCache | app/src/main/java/com/github/meaninglesscode/geocameraapp/data/source/DefaultPictureDataRepository.kt:173-178 | refreshing empties a present cache and leaves an absent one absent when there are no rows; otherwise the cache's keys are exactly the rows' URIs, and when no URI has two different rows each holds its row's copy |
| DefaultPictureDataRepository.ListingDeterminesRows | app/src/main/java/com/github/meaninglesscode/geocameraapp/data/source/local/PictureDataDao.kt:16-17 | a listing of the table never shows two rows for one URI and shows every stored URI |
| DefaultPictureDataRepository.RefreshFromListingMirrors | app/src/main/java/com/github/meaninglesscode/geocameraapp/data/source/DefaultPictureDataRepository.kt:45-46 | refreshing from a successful listing of a non-empty table makes the cache an exact mirror of the table |
| DefaultPictureDataRepository.GetCachedPictureDataWithUri | app/src/main/java/com/github/meaninglesscode/geocameraapp/data/source/DefaultPictureDataRepository.kt:166 | a cache lookup finds an entry exactly when the cache is present and holds the URI, and the entry carries that URI |
| DefaultPictureDataRepository.FetchAllFromLocal | app/src/main/java/com/github/meaninglesscode/geocameraapp/data/source/DefaultPictureDataRepository.kt:68-73 | fetching all succeeds exactly when the store read completes, with a listing of the table; any failure becomes `Error fetching local picture data` |
| DefaultPictureDataRepository.FetchFromLocal | app/src/main/java/com/github/meaninglesscode/geocameraapp/data/source/DefaultPictureDataRepository.kt:104-109 | fetching one URI succeeds exactly when the read completes and the row exists, with the reloaded row; both failures become `Error fetching local picture data` |
| DefaultPictureDataRepository.GetAllPictureData | app/src/main/java/com/github/meaninglesscode/geocameraapp/data/source/DefaultPictureDataRepository.kt:38-58 | a present cache answers alone, listing its entries by time with the state unchanged; on a miss, a non-empty table fills the cache with its exact mirror and is listed by time, an empty table gives `Success([])` with the cache still absent, and a failed read gives `Illegal state` with nothing changed |
| DefaultPictureDataRepository.GetPictureData | app/src/main/java/com/github/meaninglesscode/geocameraapp/data/source/DefaultPictureDataRepository.kt:82-93 | a cached URI is answered from the cache with nothing changed; on a miss the store is unchanged, the answer succeeds exactly when the read completes and the row exists, and success caches the reloaded row (creating the cache if absent) while failure changes nothing |
| DefaultPictureDataRepository.SavePictureData | app/src/main/java/com/github/meaninglesscode/geocameraapp/data/source/DefaultPictureDataRepository.kt:117-123 | the cache afterwards holds the saved entry's durable fields under its URI, creating the cache if absent and keeping other entries; the store gets the insert unless it throws, in which case the store is unchanged and the exception propagates |
| DefaultPictureDataRepository.DeleteAllPictureData | app/src/main/java/com/github/meaninglesscode/geocameraapp/data/source/DefaultPictureDataRepository.kt:137-143 | the store ends empty unless the call throws; the cache is left exactly as it was |
| DefaultPictureDataRepository.RemoveFromCache | app/src/main/java/com/github/meaninglesscode/geocameraapp/data/source/DefaultPictureDataRepository.kt:157 | `remove` drops only that URI from a present cache and leaves an absent cache absent |
| DefaultPictureDataRepository.DeletePictureData | app/src/main/java/com/github/meaninglesscode/geocameraapp/data/source/DefaultPictureDataRepository.kt:151-158 | unless the store call throws, the URI leaves the store and a present cache and every other row and entry is unchanged; a throw changes nothing |
| RepositoryLemmas.SecondGetAllIsServedByCache | app/src/main/java/com/github/meaninglesscode/geocameraapp/data/source/DefaultPictureDataRepository.kt:38-50 | after a successful cold listing of a non-empty table, the next listing gives the same answer and state whatever the store would do |
| RepositoryLemmas.EmptyStoreLeavesCacheCold | app/src/main/java/com/github/meaninglesscode/geocameraapp/data/source/DefaultPictureDataRepository.kt:45-57 | an empty table leaves the cache absent, so a following listing whose read fails reports `Illegal state` |
| RepositoryLemmas.SaveThenGetIsCacheHit | app/src/main/java/com/github/meaninglesscode/geocameraapp/data/source/DefaultPictureDataRepository.kt:82-123 | read-your-writes: right after a save, reading its URI is a cache hit returning the saved durable fields, even if either store call fails |
| RepositoryLemmas.SaveOnColdCacheHidesStoredRows | app/src/main/java/com/github/meaninglesscode/geocameraapp/data/source/DefaultPictureDataRepository.kt:197-203 | a save on an absent cache makes the next listing return only the saved entry, hiding every other stored row |
| RepositoryLemmas.GetOnColdCacheHidesStoredRows | app/src/main/java/com/github/meaninglesscode/geocameraapp/data/source/DefaultPictureDataRepository.kt:88-92 | a successful single read on an absent cache makes the next listing return only that row |
| RepositoryLemmas.DeleteAllKeepsStaleCache | app/src/main/java/com/github/meaninglesscode/geocameraapp/data/source/DefaultPictureDataRepository.kt:133-143 | after delete-all the table is empty, yet a cached picture is still returned by a read and by a listing |
| RepositoryLemmas.DeleteThenGetFails | app/src/main/java/com/github/meaninglesscode/geocameraapp/data/source/DefaultPictureDataRepository.kt:151-158 | after a successful delete, reading that URI reports the fetch error with nothing changed |
| RepositoryLemmas.DeleteAbsentIsNoOp | app/src/main/java/com/github/meaninglesscode/geocameraapp/data/source/DefaultPictureDataRepository.kt:151-158 | deleting a URI held by neither cache nor table changes nothing |
| RepositoryLemmas.FailedSaveLeavesCacheAhead | app/src/main/java/com/github/meaninglesscode/geocameraapp/data/source/DefaultPictureDataRepository.kt:117-123 | a save whose insert throws leaves its entry in the cache but not in the table, and reads of it are served from the cache |
| RepositoryLemmas.FailedGetLeavesCache | app/src/main/java/com/github/meaninglesscode/geocameraapp/data/source/DefaultPictureDataRepository.kt:88-92 | a read miss whose store read fails reports the fetch error and changes nothing; a later read that succeeds returns the stored row and caches it |
| RepositoryLemmas.ListingOfTwoEntries | app/src/main/java/com/github/meaninglesscode/geocameraapp/data/source/DefaultPictureDataRepository.kt:41-42 | a listing of a two-entry cache puts the picture with the earlier time first |
| RepositoryLemmas.TwoPicturesComeBackByTime | app/src/main/java/com/github/meaninglesscode/geocameraapp/data/source/DefaultPictureDataRepository.kt:44-50 | "/b.jpg" taken at 50 and "/a.jpg" taken at 100, read through a cold cache, come back as [b, a] |
| PictureDataRepositoryContract.GetAllYieldsEntriesOrError | app/src/main/java/com/github/meaninglesscode/geocameraapp/data/source/PictureDataRepository.kt:11-18 | a listing is ordered by time and shows what the cache holds; from a cold cache it lists exactly the table; an error is `Illegal state` and changes nothing |
| PictureDataRepositoryContract.GetPictureDataYieldsEntryForUri | app/src/main/java/com/github/meaninglesscode/geocameraapp/data/source/PictureDataRepository.kt:20-29 | a successful read returns the entry whose key is the requested URI; an error changes nothing |
| PictureDataRepositoryContract.SavePersistsEntry | app/src/main/java/com/github/meaninglesscode/geocameraapp/data/source/PictureDataRepository.kt:31-36 | unless the insert throws, the table afterwards answers for the saved URI with the saved durable fields |
| PictureDataRepositoryContract.DeleteAllClearsTable | app/src/main/java/com/github/meaninglesscode/geocameraapp/data/source/PictureDataRepository.kt:44-47 | unless the delete throws, the table afterwards lists nothing |
| PictureDataRepositoryContract.DeleteRemovesAtMostOneRow | app/src/main/java/com/github/meaninglesscode/geocameraapp/data/source/PictureDataRepository.kt:49-56 | deleting by URI removes at most one row and keeps every other row as it was |

## Left out

- `clearDeletedPictureData` of the repository and of the local data source: both implement it as `TODO`, the interface only declares it, and the one caller passes an argument the interface does not declare. Only the DAO's delete-not-in is modelled.
- Iteration order of equal caches: a `ConcurrentHashMap` filled in different orders may iterate keys of one bucket in different orders, so two caches with equal contents may list entries of equal time differently; the model picks one order per content and cannot tell such caches apart.
- Coroutine dispatchers, `withContext`, and the thread safety of `ConcurrentHashMap`: every operation finishes its store call before returning, so operations are modelled one after another. Interleavings of concurrent callers are not modelled.
- Aliasing: the repository returns cached objects themselves, and the map screen sets `displayedOnMap = true` on them. The model has immutable values, so cached entries keep the flag false.
- SQL execution and exception causes: a failing DAO call is an abstract `fault` carrying an exception.
- `PictureData.getLatLng`: it builds a Google Maps type.
- Coordinates: a `Double` is kept as its 64-bit pattern and is never computed on. The model compares coordinates by pattern. That matches the `Double.compare` equality a data class derives, except that two NaNs with different payloads compare equal in Kotlin but differ here. The SQLite columns behind the table are `REAL NOT NULL` and do not keep every pattern: -0.0 reads back as +0.0, and a NaN is bound as NULL, so the insert violates the constraint and throws. The model's free `fault` covers that throw, but it also lets a save of a NaN coordinate complete and store the pattern, and its store keeps -0.0 as written.
- DAO faults: the DAO functions take no `fault` argument. A throwing DAO call is modelled one level up, on the data source's calls, through which every DAO call the repository makes passes. `updatePictureData` has no caller in the app.
- The UI, view model, permissions, camera, map info windows, dependency injection and database wiring are not part of this model.
