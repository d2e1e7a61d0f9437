/** The default picture-data repository: an optional in-memory cache, keyed by URI, in
    front of the local data source. Reads are served from the cache when it holds the
    answer and otherwise go to the store and fill the cache; writes go to the cache (for
    a save) and then to the store. Each operation finishes its store call before it
    returns, so an operation is a function from the pair (cache, store), and the fault
    the store call meets, to the next pair and the operation's answer. */
module DefaultPictureDataRepository {
  import opened Outcomes
  import opened PictureDataEntity
  import opened Enumerations
  import opened TimeOrder
  import Dao = PictureDataDao
  import Local = PictureDataLocalDataSource

  /** Every cached entry sits under its own URI and is a detached copy, which carries no
      marker flag. */
  predicate CachedCopies(m: map<string, PictureData>)
  {
    forall u | u in m :: m[u].uri == u && !m[u].displayedOnMap
  }

  /** The contents of a present cache. */
  type CacheMap = m: map<string, PictureData> | CachedCopies(m) witness map[]

  /** The cache field: `None` is the `null` the repository starts with. */
  type Cache = Option<CacheMap>

  /** The repository's cache together with the table behind the local data source. */
  datatype Repository = Repository(cache: Cache, store: Dao.Table)

  /** The state after an operation and what the operation returned. */
  datatype Reply<T> = Reply(repo: Repository, value: T)

  /** What `cachePictureData` produces: the new cache contents and the copy it stored. */
  datatype Cached = Cached(cache: CacheMap, entry: PictureData)

  /** The error the repository substitutes for any failed fetch from the data source. */
  const FetchError: Exception := Exception("Error fetching local picture data")

  /** The error `getAllPictureData` returns when it ends with neither a cache nor an
      empty successful fetch, which is what a failed fetch leads to. */
  const IllegalState: Exception := Exception("Illegal state")

  /** A repository that has not been asked anything yet, over any table. */
  function NewRepository(store: Dao.Table): (repo: Repository)
    ensures repo.cache.None?
  {
    Repository(None, store)
  }

  /** The cache contents, with an absent cache read as empty. */
  function Entries(cache: Cache): CacheMap
  {
    if cache.Some? then cache.value else map[]
  }

  /** The URIs occurring in `rows`, as a set. */
  function UriSet(rows: seq<PictureData>): set<string>
  {
    set p | p in rows :: p.uri
  }

  /** `UriSet` is the set of the sequence `Uris`. */
  lemma UriSetIsElementsOfUris(rows: seq<PictureData>)
    ensures UriSet(rows) == Elements(Uris(rows))
  {
    forall u | u in Elements(Uris(rows)) ensures u in UriSet(rows) {
      var i :| 0 <= i < |rows| && Uris(rows)[i] == u;
      assert rows[i] in rows;
    }
  }

  /** Two rows with the same URI are the same row. */
  predicate UriDetermines(rows: seq<PictureData>)
  {
    forall p, q | p in rows && q in rows && p.uri == q.uri :: p == q
  }

  /** What a complete cache of `t` holds: every row, reloaded, under its URI. */
  function Mirror(t: Dao.Table): (m: CacheMap)
    ensures m.Keys == t.Keys
    ensures forall u | u in t :: m[u] == FromRow(t[u])
  {
    map u | u in t :: FromRow(t[u])
  }

  /** `rows` lists the entries of `m`, each once, by ascending time. */
  predicate ListsByTime(rows: seq<PictureData>, m: CacheMap)
  {
    && |rows| == |m|
    && NonDecreasingTime(rows)
    && (forall p | p in rows :: p.uri in m && m[p.uri] == p)
    && (forall u | u in m :: u in Uris(rows))
  }

  /** A row of a rearrangement of the values is an entry, stored under its own URI. */
  lemma RearrangedRowIsEntry(rows: seq<PictureData>, values: seq<PictureData>, m: CacheMap, p: PictureData)
    requires multiset(rows) == multiset(values)
    requires forall v | v in values :: v in m.Values
    requires p in rows
    ensures p.uri in m && m[p.uri] == p
  {
    assert p in multiset(values);
    assert p in m.Values;
    var k :| k in m && m[k] == p;
  }

  /** Every entry appears in a rearrangement of the values. */
  lemma EntryInRearrangement(rows: seq<PictureData>, values: seq<PictureData>, m: CacheMap, u: string)
    requires multiset(rows) == multiset(values)
    requires forall v | v in m.Values :: v in values
    requires u in m
    ensures u in Uris(rows)
  {
    assert m[u] in m.Values;
    assert m[u] in multiset(rows);
    var i :| 0 <= i < |rows| && rows[i] == m[u];
    assert Uris(rows)[i] == u;
  }

  /** `cachedData.values.sortedBy { it.time }`: the values in the map's iteration order,
      then sorted by time. */
  ghost function SortedEntries(m: CacheMap): (rows: seq<PictureData>)
    ensures ListsByTime(rows, m)
  {
    var values := ValuesInSomeOrder(m);
    var rows := SortByTime(values);
    forall p | p in rows ensures p.uri in m && m[p.uri] == p {
      RearrangedRowIsEntry(rows, values, m, p);
    }
    forall u | u in m ensures u in Uris(rows) {
      EntryInRearrangement(rows, values, m, u);
    }
    rows
  }

  /** The copy `cachePictureData` makes: the four-argument constructor applied to the
      entity's durable fields. */
  function DetachedCopy(data: PictureData): (c: PictureData)
    ensures SameDurableFields(c, data) && !c.displayedOnMap
    ensures c == FromRow(ToRow(data))
  {
    PictureData(data.uri, data.latitude, data.longitude, data.time, false)
  }

  /** `cachePictureData`: creates the cache if it is absent and puts a detached copy of
      `data` under its URI, replacing any entry there. */
  function CachePictureData(cache: Cache, data: PictureData): (r: Cached)
    ensures r.entry == DetachedCopy(data)
    ensures r.cache.Keys == Entries(cache).Keys + {data.uri}
    ensures r.cache[data.uri] == r.entry
    ensures forall u | u in Entries(cache) && u != data.uri :: r.cache[u] == Entries(cache)[u]
  {
    var dataToCache := DetachedCopy(data);
    Cached(Entries(cache)[dataToCache.uri := dataToCache], dataToCache)
  }

  /** Splitting off the first row splits off its URI. */
  lemma UriSetCons(rows: seq<PictureData>)
    requires rows != []
    ensures UriSet(rows) == {rows[0].uri} + UriSet(rows[1..])
  {
    assert rows == [rows[0]] + rows[1..];
  }

  /** The `forEach` of `refreshCache`: caches each row in turn. The keys it adds are the
      rows' URIs and every other entry is kept. */
  function CacheEach(cache: Cache, rows: seq<PictureData>): (r: Cache)
    ensures rows == [] ==> r == cache
    ensures rows != [] ==> r.Some?
    ensures Entries(r).Keys == Entries(cache).Keys + UriSet(rows)
    ensures forall u | u in Entries(cache) && u !in UriSet(rows) ::
              u in Entries(r) && Entries(r)[u] == Entries(cache)[u]
    decreases |rows|
  {
    if rows == [] then cache
    else
      var head := CachePictureData(cache, rows[0]);
      UriSetCons(rows);
      CacheEach(Some(head.cache), rows[1..])
  }

  /** When no URI occurs with two different rows, each row ends up cached as its copy,
      whatever its position: a later put under the same URI writes the same copy. */
  lemma {:induction false} CacheEachStoresCopy(cache: Cache, rows: seq<PictureData>, p: PictureData)
    requires UriDetermines(rows) && p in rows
    ensures p.uri in Entries(CacheEach(cache, rows))
    ensures Entries(CacheEach(cache, rows))[p.uri] == DetachedCopy(p)
    decreases |rows|
  {
    var head := CachePictureData(cache, rows[0]);
    var rest := rows[1..];
    assert rows == [rows[0]] + rest;
    UriSetCons(rows);
    if p.uri in UriSet(rest) {
      var q :| q in rest && q.uri == p.uri;
      assert q == p;
      CacheEachStoresCopy(Some(head.cache), rest, p);
    } else {
      assert p == rows[0];
    }
  }

  /** `refreshCache`: empties a present cache, then caches the rows in order of time. An
      absent cache stays absent when there is nothing to cache. */
  function RefreshCache(cache: Cache, pictureData: seq<PictureData>): (r: Cache)
    ensures pictureData == [] ==> r == (if cache.Some? then Some(map[]) else None)
    ensures pictureData != [] ==> r.Some? && r.value.Keys == UriSet(pictureData)
    ensures UriDetermines(pictureData) ==>
              forall p | p in pictureData :: p.uri in Entries(r) && Entries(r)[p.uri] == DetachedCopy(p)
  {
    var cleared: Cache := if cache.Some? then Some(map[]) else None;
    var sorted := SortByTime(pictureData);
    assert forall p :: p in sorted <==> p in pictureData by {
      forall p ensures p in sorted <==> p in pictureData {
        assert p in sorted <==> p in multiset(sorted);
      }
    }
    assert UriSet(sorted) == UriSet(pictureData);
    var r := CacheEach(cleared, sorted);
    assert UriDetermines(pictureData) ==>
             forall p | p in pictureData :: p.uri in Entries(r) && Entries(r)[p.uri] == DetachedCopy(p) by {
      if UriDetermines(pictureData) {
        forall p | p in pictureData ensures p.uri in Entries(r) && Entries(r)[p.uri] == DetachedCopy(p) {
          CacheEachStoresCopy(cleared, sorted, p);
        }
      }
    }
    r
  }

  /** A listing of a table never shows two different rows for one URI, and shows
      every stored URI. */
  lemma ListingDeterminesRows(rows: seq<PictureData>, t: Dao.Table)
    requires Dao.ListsTable(rows, t)
    ensures UriDetermines(rows)
    ensures UriSet(rows) == t.Keys
  {
    forall p, q | p in rows && q in rows && p.uri == q.uri ensures p == q {
      assert p == FromRow(t[p.uri]);
    }
    forall u | u in t ensures u in UriSet(rows) {
      var i :| 0 <= i < |rows| && Uris(rows)[i] == u;
      assert rows[i] in rows;
    }
  }

  /** After refreshing from a listing, each stored URI is cached as its reloaded row. */
  lemma RefreshedEntry(cache: Cache, rows: seq<PictureData>, t: Dao.Table, u: string)
    requires Dao.ListsTable(rows, t) && u in t
    ensures RefreshCache(cache, rows).Some?
    ensures u in RefreshCache(cache, rows).value
    ensures RefreshCache(cache, rows).value[u] == FromRow(t[u])
  {
    ListingDeterminesRows(rows, t);
    var i :| 0 <= i < |rows| && Uris(rows)[i] == u;
    var p := rows[i];
    assert p in rows && p.uri == u;
    assert p == FromRow(t[u]);
  }

  /** A cache holding exactly the stored URIs, each as its reloaded row, is the mirror. */
  lemma MirrorByEntries(m: CacheMap, t: Dao.Table)
    requires m.Keys == t.Keys
    requires forall u | u in t :: m[u] == FromRow(t[u])
    ensures m == Mirror(t)
  {
  }

  /** Refreshing from a listing of a non-empty table makes the cache a complete mirror
      of that table. */
  lemma RefreshFromListingMirrors(cache: Cache, rows: seq<PictureData>, t: Dao.Table)
    requires Dao.ListsTable(rows, t) && |t| > 0
    ensures RefreshCache(cache, rows) == Some(Mirror(t))
  {
    ListingDeterminesRows(rows, t);
    var r := RefreshCache(cache, rows);
    assert r.value.Keys == t.Keys;
    forall u | u in t ensures r.value[u] == FromRow(t[u]) {
      RefreshedEntry(cache, rows, t, u);
    }
    MirrorByEntries(r.value, t);
  }

  /** `getCachedPictureDataWithUri`: the cached entry, or `null` when the cache is absent
      or does not hold the URI. */
  function GetCachedPictureDataWithUri(cache: Cache, uri: string): (r: Option<PictureData>)
    ensures r.Some? <==> uri in Entries(cache)
    ensures r.Some? ==> r.value.uri == uri && r.value == Entries(cache)[uri]
  {
    if cache.Some? && uri in cache.value then Some(cache.value[uri]) else None
  }

  /** `fetchPictureDataFromLocal()`: the data source's answer when it succeeded, the
      repository's own fetch error otherwise. */
  ghost function FetchAllFromLocal(store: Dao.Table, fault: Fault): (r: Result<seq<PictureData>>)
    ensures r.Success? <==> fault.None?
    ensures r.Error? ==> r.exception == FetchError
    ensures r.Success? ==> Dao.ListsTable(r.data, store)
  {
    var localPictureData := Local.GetAllPictureData(store, fault);
    if Succeeded(localPictureData) then localPictureData else Error(FetchError)
  }

  /** `fetchPictureDataFromLocal(uri)`: the stored entity, or the repository's fetch error
      whether the row is missing or the read failed. */
  function FetchFromLocal(store: Dao.Table, uri: string, fault: Fault): (r: Result<PictureData>)
    ensures r.Success? <==> fault.None? && uri in store
    ensures r.Success? ==> r.data == FromRow(store[uri])
    ensures r.Error? ==> r.exception == FetchError
  {
    var localPictureData := Local.GetPictureData(store, uri, fault);
    if Succeeded(localPictureData) then localPictureData else Error(FetchError)
  }

  /** `getAllPictureData`. A present cache answers alone. Otherwise the rows are fetched;
      a successful fetch refills the cache, which is then present exactly when the
      fetch returned rows. */
  ghost function GetAllPictureData(repo: Repository, fault: Fault): (reply: Reply<Result<seq<PictureData>>>)
    ensures repo.cache.Some? ==>
              reply.repo == repo && reply.value.Success? && ListsByTime(reply.value.data, repo.cache.value)
    ensures repo.cache.None? && fault.None? && |repo.store| > 0 ==>
              && reply.repo == Repository(Some(Mirror(repo.store)), repo.store)
              && reply.value.Success? && ListsByTime(reply.value.data, Mirror(repo.store))
    ensures repo.cache.None? && fault.None? && |repo.store| == 0 ==> reply == Reply(repo, Success([]))
    ensures repo.cache.None? && fault.Some? ==> reply == Reply(repo, Error(IllegalState))
  {
    if repo.cache.Some? then
      Reply(repo, Success(SortedEntries(repo.cache.value)))
    else
      var newData := FetchAllFromLocal(repo.store, fault);
      var cache := if newData.Success? then RefreshCache(repo.cache, newData.data) else repo.cache;
      assert newData.Success? && |repo.store| > 0 ==> cache == Some(Mirror(repo.store)) by {
        if newData.Success? && |repo.store| > 0 {
          RefreshFromListingMirrors(repo.cache, newData.data, repo.store);
        }
      }
      var repo' := repo.(cache := cache);
      if cache.Some? then
        Reply(repo', Success(SortedEntries(cache.value)))
      else if newData.Success? && |newData.data| == 0 then
        Reply(repo', Success(newData.data))
      else
        Reply(repo', Error(IllegalState))
  }

  /** `getPictureData(uri)`. A cached entry answers alone. Otherwise the row is fetched,
      and a successful fetch caches a copy, creating the cache if it was absent. */
  function GetPictureData(repo: Repository, uri: string, fault: Fault): (reply: Reply<Result<PictureData>>)
    ensures uri in Entries(repo.cache) ==> reply == Reply(repo, Success(Entries(repo.cache)[uri]))
    ensures uri !in Entries(repo.cache) ==> reply.repo.store == repo.store
    ensures uri !in Entries(repo.cache) ==> (reply.value.Success? <==> fault.None? && uri in repo.store)
    ensures uri !in Entries(repo.cache) && reply.value.Success? ==>
              && reply.value.data == FromRow(repo.store[uri])
              && reply.repo.cache.Some?
              && reply.repo.cache.value.Keys == Entries(repo.cache).Keys + {uri}
              && reply.repo.cache.value[uri] == reply.value.data
              && forall u | u in Entries(repo.cache) :: reply.repo.cache.value[u] == Entries(repo.cache)[u]
    ensures uri !in Entries(repo.cache) && reply.value.Error? ==> reply == Reply(repo, Error(FetchError))
  {
    match GetCachedPictureDataWithUri(repo.cache, uri)
    case Some(cached) => Reply(repo, Success(cached))
    case None =>
      var newData := FetchFromLocal(repo.store, uri, fault);
      if newData.Success? then
        Reply(repo.(cache := Some(CachePictureData(repo.cache, newData.data).cache)), newData)
      else
        Reply(repo, newData)
  }

  /** `savePictureData`: caches a detached copy (creating the cache if absent), then has
      the data source insert that copy. A failed insert leaves the cache ahead of the
      store and the exception reaches the caller. */
  function SavePictureData(repo: Repository, pictureData: PictureData, fault: Fault): (reply: Reply<Completion>)
    ensures reply.repo.cache.Some?
    ensures reply.repo.cache.value.Keys == Entries(repo.cache).Keys + {pictureData.uri}
    ensures SameDurableFields(reply.repo.cache.value[pictureData.uri], pictureData)
    ensures forall u | u in Entries(repo.cache) && u != pictureData.uri ::
              reply.repo.cache.value[u] == Entries(repo.cache)[u]
    ensures reply.value.Normal? <==> fault.None?
    ensures fault.None? ==> reply.repo.store == Dao.InsertPictureData(repo.store, pictureData)
    ensures fault.Some? ==> reply.repo.store == repo.store && reply.value == Thrown(fault.value)
  {
    var cached := CachePictureData(repo.cache, pictureData);
    var written := Local.SavePictureData(repo.store, cached.entry, fault);
    Reply(Repository(Some(cached.cache), written.table), written.completion)
  }

  /** `deleteAllPictureData`: has the data source delete every row. The cache is not
      touched. */
  function DeleteAllPictureData(repo: Repository, fault: Fault): (reply: Reply<Completion>)
    ensures reply.repo.cache == repo.cache
    ensures reply.value.Normal? <==> fault.None?
    ensures fault.None? ==> |reply.repo.store| == 0
    ensures fault.Some? ==> reply == Reply(repo, Thrown(fault.value))
  {
    var written := Local.DeleteAllPictureData(repo.store, fault);
    Reply(repo.(store := written.table), written.completion)
  }

  /** Drops `uri` from a present cache; an absent cache stays absent. */
  function RemoveFromCache(cache: Cache, uri: string): (r: Cache)
    ensures r.Some? <==> cache.Some?
    ensures Entries(r).Keys == Entries(cache).Keys - {uri}
    ensures forall u | u in Entries(r) :: u in Entries(cache) && Entries(r)[u] == Entries(cache)[u]
  {
    match cache
    case None => None
    case Some(m) => Some(m - {uri})
  }

  /** `deletePictureData(uri)`: has the data source delete the row, then removes the URI
      from a present cache. A failed delete throws before the cache is touched. */
  function DeletePictureData(repo: Repository, uri: string, fault: Fault): (reply: Reply<Completion>)
    ensures reply.value.Normal? <==> fault.None?
    ensures fault.None? ==> reply.repo.store.Keys == repo.store.Keys - {uri}
    ensures forall u | u in reply.repo.store :: u in repo.store && reply.repo.store[u] == repo.store[u]
    ensures fault.None? ==> (reply.repo.cache.Some? <==> repo.cache.Some?)
    ensures fault.None? ==> Entries(reply.repo.cache).Keys == Entries(repo.cache).Keys - {uri}
    ensures forall u | u in Entries(reply.repo.cache) ::
              u in Entries(repo.cache) && Entries(reply.repo.cache)[u] == Entries(repo.cache)[u]
    ensures fault.Some? ==> reply == Reply(repo, Thrown(fault.value))
  {
    var written := Local.DeletePictureData(repo.store, uri, fault);
    match written.completion
    case Thrown(e) => Reply(repo, Thrown(e))
    case Normal => Reply(Repository(RemoveFromCache(repo.cache, uri), written.table), Normal)
  }
}
