/** The documents of the `prakiraan_cuaca` (weather forecast) collection as
    the dashboard sees them. */
module Records {

  datatype Option<+T> = None | Some(value: T)

  /** One text-valued field of a document: not present at all, present but
      `None`, or a string. Absent and `None` differ only in whether the
      DataFrame built from the documents gets a column for the field. */
  datatype Field = Absent | Null | Text(s: string)
  {
    /** Python's `(value or '')`: a missing, `None` or empty field reads as "". */
    function OrEmpty(): (r: string)
      ensures Text? ==> r == s
      ensures !Text? ==> r == ""
    {
      if Text? then s else ""
    }
  }

  /** The `suhu` (temperature) field as stored: absent, `None`, a string such
      as "30 C", or a non-string value such as the number 30. */
  datatype RawSuhu = SuhuAbsent | SuhuNull | SuhuText(text: string) | SuhuNumber(n: int)

  /** One weather observation for one place. The temperature type `S` is
      `RawSuhu` as fetched and `int` once normalised. */
  datatype WeatherRecord<S> = WeatherRecord(
    provinsi: Field,   // province
    kabKota: Field,    // city or regency
    kecamatan: Field,  // district
    kelurahan: Field,  // sub-district
    suhu: S,           // temperature
    cuaca: Field,      // weather label
    timestamp: Field   // last update, shown verbatim
  )

  type RawRecord = WeatherRecord<RawSuhu>
  type Record = WeatherRecord<int>

  /** The DataFrame columns the views read besides `suhu`. */
  datatype Column = Provinsi | KabKota | Kecamatan | Kelurahan | Cuaca | Timestamp

  function Get<S>(r: WeatherRecord<S>, c: Column): Field
  {
    match c
    case Provinsi => r.provinsi
    case KabKota => r.kabKota
    case Kecamatan => r.kecamatan
    case Kelurahan => r.kelurahan
    case Cuaca => r.cuaca
    case Timestamp => r.timestamp
  }

  /** The same record with its temperature replaced; every other field is kept. */
  function WithSuhu<S, U>(r: WeatherRecord<S>, t: U): (r': WeatherRecord<U>)
    ensures r'.suhu == t
    ensures forall c :: Get(r', c) == Get(r, c)
  {
    WeatherRecord(r.provinsi, r.kabKota, r.kecamatan, r.kelurahan, t, r.cuaca, r.timestamp)
  }

  /** A DataFrame built from a list of dicts has a column for every key that
      occurs in at least one of them. */
  predicate HasColumn<S>(rs: seq<WeatherRecord<S>>, c: Column): (b: bool)
    ensures rs == [] ==> !b
    ensures forall i :: 0 <= i < |rs| && Get(rs[i], c) != Absent ==> b
  {
    exists i :: 0 <= i < |rs| && Get(rs[i], c) != Absent
  }
}
