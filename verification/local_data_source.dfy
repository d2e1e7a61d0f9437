/** The local data source: each DAO call run on the I/O dispatcher, reads wrapped in a
    `Result`, writes passed straight through. A read that throws is caught and becomes
    `Result.Error`; a write that throws is not caught, so the exception reaches the
    caller. The `fault` argument of each call says whether the DAO call throws. */
module PictureDataLocalDataSource {
  import opened Outcomes
  import opened PictureDataEntity
  import opened Enumerations
  import Dao = PictureDataDao

  /** The error returned when no row has the requested URI. */
  const PictureNotFound: Exception := Exception("Picture not found!")

  /** The table after a write, and how the write ended. */
  datatype Written = Written(table: Dao.Table, completion: Completion)

  /** All rows, or the exception the DAO threw. */
  ghost function GetAllPictureData(t: Dao.Table, fault: Fault): (r: Result<seq<PictureData>>)
    ensures r.Success? <==> fault.None?
    ensures fault.Some? ==> r == Error(fault.value)
    ensures r.Success? ==> Dao.ListsTable(r.data, t) && Distinct(Uris(r.data))
  {
    match fault
    case Some(e) => Error(e)
    case None => Success(Dao.GetAllPictureData(t))
  }

  /** The row with the given URI; `Picture not found!` when the DAO answers `null`, and
      the thrown exception when the DAO call fails. */
  function GetPictureData(t: Dao.Table, uri: string, fault: Fault): (r: Result<PictureData>)
    ensures r.Success? <==> fault.None? && uri in t
    ensures r.Success? ==> r.data.uri == uri && ToRow(r.data) == t[uri] && !r.data.displayedOnMap
    ensures fault.None? && uri !in t ==> r == Error(PictureNotFound)
    ensures fault.Some? ==> r == Error(fault.value)
  {
    match fault
    case Some(e) => Error(e)
    case None =>
      match Dao.GetPictureDataByUri(t, uri)
      case Some(picture) => Success(picture)
      case None => Error(PictureNotFound)
  }

  /** The DAO's insert-or-replace. The table changes at `p.uri` only, and only when the
      insert does not throw. */
  function SavePictureData(t: Dao.Table, p: PictureData, fault: Fault): (w: Written)
    ensures w.completion.Normal? <==> fault.None?
    ensures fault.Some? ==> w == Written(t, Thrown(fault.value))
    ensures fault.None? ==> p.uri in w.table && w.table[p.uri] == ToRow(p)
    ensures forall u | u != p.uri :: (u in w.table <==> u in t)
    ensures forall u | u in t && u != p.uri :: w.table[u] == t[u]
  {
    match fault
    case Some(e) => Written(t, Thrown(e))
    case None => Written(Dao.InsertPictureData(t, p), Normal)
  }

  /** The DAO's delete-all. */
  function DeleteAllPictureData(t: Dao.Table, fault: Fault): (w: Written)
    ensures w.completion.Normal? <==> fault.None?
    ensures fault.None? ==> |w.table| == 0
    ensures fault.Some? ==> w == Written(t, Thrown(fault.value))
  {
    match fault
    case Some(e) => Written(t, Thrown(e))
    case None => Written(Dao.DeleteAllPictureData(t), Normal)
  }

  /** The DAO's delete by URI; the count it returns is dropped. */
  function DeletePictureData(t: Dao.Table, uri: string, fault: Fault): (w: Written)
    ensures w.completion.Normal? <==> fault.None?
    ensures fault.None? ==> w.table.Keys == t.Keys - {uri}
    ensures forall u | u in w.table :: u in t && w.table[u] == t[u]
    ensures fault.Some? ==> w == Written(t, Thrown(fault.value))
  {
    match fault
    case Some(e) => Written(t, Thrown(e))
    case None => Written(Dao.DeletePictureDataByUri(t, uri).table, Normal)
  }

  /** A save followed by a read of the same URI returns the saved durable fields with the
      flag reset, unless one of the two calls throws. */
  lemma SaveThenGet(t: Dao.Table, p: PictureData)
    ensures GetPictureData(SavePictureData(t, p, None).table, p.uri, None) == Success(FromRow(ToRow(p)))
  {
  }

  /** After a delete-all that does not throw, the table lists nothing and every read
      reports `Picture not found!`. */
  lemma DeleteAllThenGet(t: Dao.Table, uri: string)
    ensures GetAllPictureData(DeleteAllPictureData(t, None).table, None) == Success([])
    ensures GetPictureData(DeleteAllPictureData(t, None).table, uri, None) == Error(PictureNotFound)
  {
  }

  /** A delete followed by a read of the same URI finds nothing. */
  lemma DeleteThenGet(t: Dao.Table, uri: string)
    ensures GetPictureData(DeletePictureData(t, uri, None).table, uri, None) == Error(PictureNotFound)
  {
  }
}
