/** How the repository's operations combine: what a read sees after a write, when the
    store is consulted again, and where the cache stops mirroring the store. */
module RepositoryLemmas {
  import opened Outcomes
  import opened PictureDataEntity
  import Dao = PictureDataDao
  import opened DefaultPictureDataRepository

  /** A listing of a one-entry cache is that entry alone. */
  lemma ListingOfSingleEntry(rows: seq<PictureData>, m: CacheMap, u: string)
    requires ListsByTime(rows, m) && m.Keys == {u}
    ensures rows == [m[u]]
  {
    assert |m| == 1 by { assert m.Keys == {u}; }
    assert rows[0] in rows;
  }

  /** After a cold `getAllPictureData` over a non-empty table has succeeded, the next one
      is answered by the cache: same answer, same state, whatever the store would do. */
  lemma SecondGetAllIsServedByCache(repo: Repository, fault: Fault)
    requires repo.cache.None? && |repo.store| > 0
    ensures GetAllPictureData(GetAllPictureData(repo, None).repo, fault) == GetAllPictureData(repo, None)
  {
  }

  /** An empty table gives `Success([])` but leaves the cache absent, so the next call
      goes back to the store and, if that read fails, reports `Illegal state`. */
  lemma EmptyStoreLeavesCacheCold(repo: Repository, e: Exception)
    requires repo.cache.None? && |repo.store| == 0
    ensures GetAllPictureData(repo, None).repo.cache.None?
    ensures GetAllPictureData(GetAllPictureData(repo, None).repo, Some(e)).value == Error(IllegalState)
  {
  }

  /** Read-your-writes: right after a save, reading the same URI is a cache hit that
      returns the saved durable fields with the flag reset, whether or not either store
      call fails. */
  lemma SaveThenGetIsCacheHit(repo: Repository, p: PictureData, saveFault: Fault, getFault: Fault)
    ensures var saved := SavePictureData(repo, p, saveFault).repo;
            GetPictureData(saved, p.uri, getFault) == Reply(saved, Success(DetachedCopy(p)))
    ensures var saved := SavePictureData(repo, p, saveFault).repo;
            SameDurableFields(GetPictureData(saved, p.uri, getFault).value.data, p)
  {
  }

  /** A save on a cold cache creates a cache holding that one entry, so the next
      `getAllPictureData` answers with that entry alone and hides every other stored row. */
  lemma SaveOnColdCacheHidesStoredRows(repo: Repository, p: PictureData, saveFault: Fault, getFault: Fault)
    requires repo.cache.None?
    ensures var saved := SavePictureData(repo, p, saveFault).repo;
            GetAllPictureData(saved, getFault).value == Success([DetachedCopy(p)])
    ensures var saved := SavePictureData(repo, p, saveFault).repo;
            forall u | u in saved.store && u != p.uri :: u !in Uris(GetAllPictureData(saved, getFault).value.data)
  {
    var saved := SavePictureData(repo, p, saveFault).repo;
    var reply := GetAllPictureData(saved, getFault);
    ListingOfSingleEntry(reply.value.data, saved.cache.value, p.uri);
  }

  /** A successful read of one URI on a cold cache also creates a one-entry cache, with
      the same effect on the next `getAllPictureData`. */
  lemma GetOnColdCacheHidesStoredRows(repo: Repository, uri: string, getAllFault: Fault)
    requires repo.cache.None? && uri in repo.store
    ensures var read := GetPictureData(repo, uri, None).repo;
            GetAllPictureData(read, getAllFault).value == Success([FromRow(repo.store[uri])])
  {
    var read := GetPictureData(repo, uri, None).repo;
    ListingOfSingleEntry(GetAllPictureData(read, getAllFault).value.data, read.cache.value, uri);
  }

  /** `deleteAllPictureData` empties the table but not the cache, so a picture whose row
      is gone is still served from the cache. */
  lemma DeleteAllKeepsStaleCache(repo: Repository, uri: string, fault: Fault)
    requires uri in Entries(repo.cache)
    ensures var cleared := DeleteAllPictureData(repo, None).repo;
            |cleared.store| == 0 && GetPictureData(cleared, uri, fault).value == Success(Entries(repo.cache)[uri])
    ensures var cleared := DeleteAllPictureData(repo, None).repo;
            var all := GetAllPictureData(cleared, fault).value;
            all.Success? && uri in Uris(all.data)
  {
  }

  /** After a successful delete, reading that URI misses the cache and the store alike
      and reports the repository's fetch error. */
  lemma DeleteThenGetFails(repo: Repository, uri: string, fault: Fault)
    ensures var deleted := DeletePictureData(repo, uri, None).repo;
            GetPictureData(deleted, uri, fault) == Reply(deleted, Error(FetchError))
  {
  }

  /** Deleting a URI that neither the cache nor the table holds changes nothing. */
  lemma DeleteAbsentIsNoOp(repo: Repository, uri: string)
    requires uri !in repo.store && uri !in Entries(repo.cache)
    ensures DeletePictureData(repo, uri, None) == Reply(repo, Normal)
  {
    assert repo.store - {uri} == repo.store;
    if repo.cache.Some? {
      assert repo.cache.value - {uri} == repo.cache.value;
    }
  }

  /** A save whose store write throws still leaves its entry in the cache: the cache is
      then ahead of the table, and reads of that URI are served from it. */
  lemma FailedSaveLeavesCacheAhead(repo: Repository, p: PictureData, e: Exception, fault: Fault)
    requires p.uri !in repo.store
    ensures var reply := SavePictureData(repo, p, Some(e));
            reply.value == Thrown(e) && p.uri !in reply.repo.store
            && GetPictureData(reply.repo, p.uri, fault).value == Success(DetachedCopy(p))
  {
  }

  /** A read-miss that fails leaves the cache as it was; a later successful read of the
      same URI, when the table holds it, fills it. */
  lemma FailedGetLeavesCache(repo: Repository, uri: string, e: Exception)
    requires uri !in Entries(repo.cache)
    ensures GetPictureData(repo, uri, Some(e)) == Reply(repo, Error(FetchError))
    ensures uri in repo.store ==>
              && GetPictureData(repo, uri, None).value == Success(FromRow(repo.store[uri]))
              && uri in Entries(GetPictureData(repo, uri, None).repo.cache)
  {
  }

  /** A listing of a two-entry cache puts the earlier picture first. */
  lemma ListingOfTwoEntries(rows: seq<PictureData>, m: CacheMap, x: string, y: string)
    requires ListsByTime(rows, m) && m.Keys == {x, y} && x != y
    requires m[y].time < m[x].time
    ensures rows == [m[y], m[x]]
  {
    assert |m| == 2 by { assert m.Keys == {x} + {y}; }
    assert rows[0] in rows && rows[1] in rows;
    var i :| 0 <= i < |rows| && Uris(rows)[i] == x;
    var j :| 0 <= j < |rows| && Uris(rows)[j] == y;
    assert rows[i] == m[x] && rows[j] == m[y];
    assert i != j;
    assert j < i;
  }

  /** Two pictures stored behind a cold cache come back ordered by ascending time:
      `/b.jpg` taken at 50 before `/a.jpg` taken at 100. */
  lemma TwoPicturesComeBackByTime()
    ensures var a := Row("/a.jpg", Double(0x4024_0000_0000_0000), Double(0x4034_0000_0000_0000), 100);
            var b := Row("/b.jpg", Double(0x4026_0000_0000_0000), Double(0x4035_0000_0000_0000), 50);
            GetAllPictureData(NewRepository(map["/a.jpg" := a, "/b.jpg" := b]), None).value
              == Success([FromRow(b), FromRow(a)])
  {
    var a := Row("/a.jpg", Double(0x4024_0000_0000_0000), Double(0x4034_0000_0000_0000), 100);
    var b := Row("/b.jpg", Double(0x4026_0000_0000_0000), Double(0x4035_0000_0000_0000), 50);
    var store: Dao.Table := map["/a.jpg" := a, "/b.jpg" := b];
    assert "/a.jpg" != "/b.jpg" by { assert "/a.jpg"[1] != "/b.jpg"[1]; }
    assert store.Keys == {"/a.jpg", "/b.jpg"};
    assert |store| == 2 by { assert store.Keys == {"/a.jpg"} + {"/b.jpg"}; }
    var m := Mirror(store);
    assert m.Keys == {"/a.jpg", "/b.jpg"};
    assert m["/a.jpg"] == FromRow(a) && m["/b.jpg"] == FromRow(b);
    var reply := GetAllPictureData(NewRepository(store), None);
    assert reply.value.Success? && ListsByTime(reply.value.data, m);
    ListingOfTwoEntries(reply.value.data, m, "/a.jpg", "/b.jpg");
  }
}
