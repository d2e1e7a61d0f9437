/** The promises the `PictureDataRepository` interface makes in its doc comments, checked
    against the default repository. Where the default repository keeps a promise only
    for some states, the lemma says for which. */
module PictureDataRepositoryContract {
  import opened Outcomes
  import opened PictureDataEntity
  import opened TimeOrder
  import Dao = PictureDataDao
  import opened DefaultPictureDataRepository

  /** `getAllPictureData` yields a list of entries, or an error. A list is ordered by time
      and each of its entries is what the cache then holds under its URI; when the cache
      was absent and the read succeeded, the list is exactly the table. An error is
      `Illegal state` and changes nothing. */
  lemma GetAllYieldsEntriesOrError(repo: Repository, fault: Fault)
    ensures var reply := GetAllPictureData(repo, fault);
            reply.value.Success? ==>
              && NonDecreasingTime(reply.value.data)
              && forall p | p in reply.value.data ::
                   p.uri in Entries(reply.repo.cache) && Entries(reply.repo.cache)[p.uri] == p
    ensures var reply := GetAllPictureData(repo, fault);
            repo.cache.None? && reply.value.Success? ==> Dao.ListsTable(reply.value.data, repo.store)
    ensures var reply := GetAllPictureData(repo, fault);
            reply.value.Error? ==> reply == Reply(repo, Error(IllegalState))
  {
    var reply := GetAllPictureData(repo, fault);
    if repo.cache.None? && reply.value.Success? {
      if |repo.store| == 0 {
        assert reply.value.data == [];
      } else {
        var rows := reply.value.data;
        forall p | p in rows ensures p.uri in repo.store && p == FromRow(repo.store[p.uri]) {
          assert p == Mirror(repo.store)[p.uri];
        }
      }
    }
  }

  /** `getPictureData(uri)` yields the entry whose key is `uri`, or an error that leaves
      the repository unchanged. */
  lemma GetPictureDataYieldsEntryForUri(repo: Repository, uri: string, fault: Fault)
    ensures var reply := GetPictureData(repo, uri, fault);
            reply.value.Success? ==> reply.value.data.uri == uri
    ensures var reply := GetPictureData(repo, uri, fault);
            reply.value.Error? ==> reply == Reply(repo, Error(FetchError))
  {
  }

  /** `savePictureData` persists the given entry: unless the insert throws, the table then
      answers for its URI with its durable fields. */
  lemma SavePersistsEntry(repo: Repository, p: PictureData)
    ensures var stored := Dao.GetPictureDataByUri(SavePictureData(repo, p, None).repo.store, p.uri);
            stored.Some? && SameDurableFields(stored.value, p)
  {
  }

  /** `deleteAllPictureData` clears the table: unless the delete throws, the table then
      lists nothing. */
  lemma DeleteAllClearsTable(repo: Repository)
    ensures Dao.GetAllPictureData(DeleteAllPictureData(repo, None).repo.store) == []
  {
  }

  /** `deletePictureData(uri)` deletes at most one row, since `uri` is unique, and keeps
      every other row as it was. */
  lemma DeleteRemovesAtMostOneRow(repo: Repository, uri: string, fault: Fault)
    ensures var store := DeletePictureData(repo, uri, fault).repo.store;
            |repo.store| - 1 <= |store| <= |repo.store|
    ensures var store := DeletePictureData(repo, uri, fault).repo.store;
            forall u | u in repo.store && u != uri :: u in store && store[u] == repo.store[u]
  {
    var store := DeletePictureData(repo, uri, fault).repo.store;
    if fault.None? {
      if uri in repo.store {
        assert store.Keys == repo.store.Keys - {uri};
        assert |store.Keys| == |repo.store.Keys| - 1;
      } else {
        assert store.Keys == repo.store.Keys;
      }
    }
  }
}
