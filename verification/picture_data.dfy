/** The `PictureData` entity: one photograph's file URI, where it was taken, when it
    was taken, and a transient flag saying whether a map marker exists for it. */
module PictureDataEntity {

  /** A Kotlin `Double`, kept as its 64-bit IEEE 754 pattern. Coordinates are only
      stored, compared and handed back, never computed on, so the pattern is all the
      model needs; equality of patterns is the equality a data class uses. */
  datatype Double = Double(bits: bv64)

  /** `0.0` */
  const PositiveZero: Double := Double(0)

  /** A Kotlin `Long`. */
  newtype Long = x: int | -0x8000_0000_0000_0000 <= x < 0x8000_0000_0000_0000

  /** The data class. Its structural equality compares all five properties,
      `displayedOnMap` included, exactly like the `equals` Kotlin derives. */
  datatype PictureData = PictureData(
    uri: string,
    latitude: Double,
    longitude: Double,
    time: Long,
    displayedOnMap: bool)

  /** The primary constructor with its default arguments; with `@JvmOverloads` every
      prefix of the argument list is a constructor of its own. */
  function NewPictureData(
    uri: string := "",
    latitude: Double := PositiveZero,
    longitude: Double := PositiveZero,
    time: Long := 0,
    displayedOnMap: bool := false): (p: PictureData)
  {
    PictureData(uri, latitude, longitude, time, displayedOnMap)
  }

  /** One row of the table `picture_data`: the four annotated columns, `uri` being the
      primary key. `displayedOnMap` is ignored by the persistence layer and has no column. */
  datatype Row = Row(uri: string, latitude: Double, longitude: Double, time: Long)

  /** The columns written when an entity is stored. */
  function ToRow(p: PictureData): (r: Row)
    ensures r.uri == p.uri && r.latitude == p.latitude
    ensures r.longitude == p.longitude && r.time == p.time
  {
    Row(p.uri, p.latitude, p.longitude, p.time)
  }

  /** The entity built when a row is read back: the four-argument constructor, so the
      flag that has no column takes its default. */
  function FromRow(r: Row): (p: PictureData)
    ensures !p.displayedOnMap
  {
    NewPictureData(r.uri, r.latitude, r.longitude, r.time)
  }

  /** The URIs of `rows`, in order. */
  function Uris(rows: seq<PictureData>): (us: seq<string>)
    ensures |us| == |rows|
    ensures forall i | 0 <= i < |rows| :: us[i] == rows[i].uri
  {
    seq(|rows|, i requires 0 <= i < |rows| => rows[i].uri)
  }

  /** The durable fields of an entity: those that survive a store round trip. */
  predicate SameDurableFields(p: PictureData, q: PictureData)
  {
    p.uri == q.uri && p.latitude == q.latitude && p.longitude == q.longitude && p.time == q.time
  }

  /** Default construction gives the empty URI, coordinates `0.0`, time `0` and no marker. */
  lemma DefaultConstruction()
    ensures NewPictureData() == PictureData("", PositiveZero, PositiveZero, 0, false)
    ensures NewPictureData("a") == PictureData("a", PositiveZero, PositiveZero, 0, false)
  {
  }

  /** A row read back and written again is the same row: every column is persisted. */
  lemma RowRoundTrip(r: Row)
    ensures ToRow(FromRow(r)) == r
  {
  }

  /** Storing and reloading an entity keeps its durable fields and forgets the flag. */
  lemma ReloadKeepsDurableFields(p: PictureData)
    ensures SameDurableFields(FromRow(ToRow(p)), p)
    ensures FromRow(ToRow(p)) == p.(displayedOnMap := false)
    ensures FromRow(ToRow(p)) == p <==> !p.displayedOnMap
  {
  }

  /** Equality sees the transient flag: two entities equal in every column differ as
      values exactly when their flags differ. */
  lemma EqualityIncludesFlag(p: PictureData, q: PictureData)
    ensures p == q <==> ToRow(p) == ToRow(q) && p.displayedOnMap == q.displayedOnMap
    ensures SameDurableFields(p, q) <==> ToRow(p) == ToRow(q)
  {
  }
}
