/** The data-access object over the table `picture_data`, as an abstract store: a
    finite map from primary key to row. Each query of the interface becomes a pure
    function from the table before the statement to its answer and the table after. */
module PictureDataDao {
  import opened Outcomes
  import opened PictureDataEntity
  import opened Enumerations

  /** Every row is stored under its own primary key. */
  predicate KeyedByUri(t: map<string, Row>)
  {
    forall u | u in t :: t[u].uri == u
  }

  /** The table: `uri` is the primary key, so there is at most one row per URI and the
      map key is that row's URI. */
  type Table = t: map<string, Row> | KeyedByUri(t) witness map[]

  /** `rows` lists the table: one entity per row, each as it is read back, and every
      stored URI among them. */
  predicate ListsTable(rows: seq<PictureData>, t: Table)
  {
    && |rows| == |t|
    && (forall p | p in rows :: p.uri in t && p == FromRow(t[p.uri]))
    && (forall u | u in t :: u in Uris(rows))
  }

  /** An answer and the number of rows the statement changed. */
  datatype Counted = Counted(table: Table, count: nat)

  /** `SELECT * FROM picture_data`: every row, once, as an entity, in an unspecified order. */
  ghost function GetAllPictureData(t: Table): (rows: seq<PictureData>)
    ensures ListsTable(rows, t)
    ensures Distinct(Uris(rows))
  {
    var ks := KeysInSomeOrder(t);
    var rows := seq(|ks|, i requires 0 <= i < |ks| => FromRow(t[ks[i]]));
    assert forall i | 0 <= i < |rows| :: rows[i].uri == ks[i];
    assert Uris(rows) == ks;
    rows
  }

  /** `SELECT * FROM picture_data WHERE uri = :uri`: the row with that key, or `null`. */
  function GetPictureDataByUri(t: Table, uri: string): (r: Option<PictureData>)
    ensures r.Some? <==> uri in t
    ensures r.Some? ==> r.value.uri == uri && ToRow(r.value) == t[uri] && !r.value.displayedOnMap
  {
    if uri in t then Some(FromRow(t[uri])) else None
  }

  /** `@Insert(onConflict = REPLACE)`: adds the row, or replaces the row with the same
      URI; every other row stays as it was. */
  function InsertPictureData(t: Table, p: PictureData): (t': Table)
    ensures t'.Keys == t.Keys + {p.uri}
    ensures GetPictureDataByUri(t', p.uri) == Some(p.(displayedOnMap := false))
    ensures forall u | u in t && u != p.uri :: t'[u] == t[u]
  {
    t[p.uri := ToRow(p)]
  }

  /** `@Update`: overwrites the row whose URI matches, if there is one, and reports how
      many rows it changed. */
  function UpdatePictureData(t: Table, p: PictureData): (r: Counted)
    ensures r.count <= 1
    ensures r.count == 1 <==> p.uri in t
    ensures r.table.Keys == t.Keys
    ensures p.uri in t ==> r.table[p.uri] == ToRow(p)
    ensures forall u | u in t && u != p.uri :: r.table[u] == t[u]
  {
    if p.uri in t then Counted(t[p.uri := ToRow(p)], 1) else Counted(t, 0)
  }

  /** `DELETE FROM picture_data WHERE uri NOT IN (:pictureUris)`: keeps exactly the rows
      whose URI is listed, untouched. */
  function ClearDeletedPictureData(t: Table, pictureUris: seq<string>): (t': Table)
    ensures forall u | u in t' :: u in t && u in pictureUris
    ensures forall u | u in t && u in pictureUris :: u in t'
    ensures forall u | u in t' :: t'[u] == t[u]
  {
    map u | u in t && u in pictureUris :: t[u]
  }

  /** `DELETE FROM picture_data WHERE uri = :uri`: removes that one row, if present, and
      reports how many rows it removed. */
  function DeletePictureDataByUri(t: Table, uri: string): (r: Counted)
    ensures r.table.Keys == t.Keys - {uri}
    ensures forall u | u in r.table :: r.table[u] == t[u]
    ensures r.count <= 1
    ensures r.count == 1 <==> uri in t
    ensures |r.table| + r.count == |t|
  {
    var t' := t - {uri};
    if uri in t then
      assert t'.Keys == t.Keys - {uri};
      Counted(t', 1)
    else
      assert t' == t;
      Counted(t', 0)
  }

  /** `DELETE FROM picture_data`. */
  function DeleteAllPictureData(t: Table): (t': Table)
    ensures |t'| == 0
  {
    map[]
  }

  /** The primary key at work: a listing of the table never shows a URI twice, because
      it has one position per row and reaches every stored URI. */
  lemma AtMostOneRowPerUri(rows: seq<PictureData>, t: Table)
    requires ListsTable(rows, t)
    ensures Distinct(Uris(rows))
  {
    forall u | u in t.Keys ensures u in Uris(rows) { }
    CoverIsDistinct(Uris(rows), t.Keys);
  }

  /** Last write wins: a second insert under the same URI hides the first completely. */
  lemma InsertLastWriteWins(t: Table, p: PictureData, q: PictureData)
    requires p.uri == q.uri
    ensures InsertPictureData(InsertPictureData(t, p), q) == InsertPictureData(t, q)
  {
  }

  /** Reading after an insert: the inserted URI answers with the inserted columns, every
      other URI answers as before. */
  lemma GetAfterInsert(t: Table, p: PictureData, uri: string)
    ensures GetPictureDataByUri(InsertPictureData(t, p), uri)
         == if uri == p.uri then Some(FromRow(ToRow(p))) else GetPictureDataByUri(t, uri)
  {
  }

  /** An insert over an existing URI replaces a row and leaves the row count alone; an
      insert of a new URI adds one row. */
  lemma InsertRowCount(t: Table, p: PictureData)
    ensures |InsertPictureData(t, p)| == if p.uri in t then |t| else |t| + 1
  {
    var t' := InsertPictureData(t, p);
    if p.uri in t {
      assert t'.Keys == t.Keys;
    } else {
      assert t'.Keys == t.Keys + {p.uri};
    }
  }

  /** An update is an insert restricted to rows that already exist. */
  lemma UpdateIsInsertOfExistingRow(t: Table, p: PictureData)
    ensures UpdatePictureData(t, p).table == if p.uri in t then InsertPictureData(t, p) else t
  {
  }

  /** Reading after a delete by URI: that URI is gone, every other one answers as before. */
  lemma GetAfterDelete(t: Table, uri: string, u: string)
    ensures GetPictureDataByUri(DeletePictureDataByUri(t, uri).table, u)
         == if u == uri then None else GetPictureDataByUri(t, u)
  {
  }

  /** Deleting a URI that has no row changes nothing. */
  lemma DeleteAbsentIsNoOp(t: Table, uri: string)
    requires uri !in t
    ensures DeletePictureDataByUri(t, uri) == Counted(t, 0)
  {
  }

  /** Clearing against a list keeps what it keeps: doing it twice is doing it once, and a
      list that names every stored URI deletes nothing. */
  lemma ClearDeletedIdempotent(t: Table, pictureUris: seq<string>)
    ensures ClearDeletedPictureData(ClearDeletedPictureData(t, pictureUris), pictureUris)
         == ClearDeletedPictureData(t, pictureUris)
    ensures (forall u | u in t :: u in pictureUris) ==> ClearDeletedPictureData(t, pictureUris) == t
    ensures ClearDeletedPictureData(t, []) == DeleteAllPictureData(t)
  {
  }

  /** After `DELETE FROM picture_data` the table lists nothing and finds nothing. */
  lemma DeleteAllLeavesNothing(t: Table, uri: string)
    ensures GetAllPictureData(DeleteAllPictureData(t)) == []
    ensures GetPictureDataByUri(DeleteAllPictureData(t), uri) == None
  {
  }
}
