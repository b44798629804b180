/** The five display modes and the data each one hands to its renderer. */
module Views {
  import opened Seqs
  import opened Strings
  import opened Records
  import opened Temperature
  import opened RegionFilter
  import opened Grouping
  import opened WeatherLabels

  datatype Mode = Card | Chart | Pie | Line | WordCloud

  /** One card: the record as shown and its weather icon. */
  datatype CardEntry = CardEntry(record: Record, icon: Icon)

  /** One bar of a city/regency chart: a district and its temperature. */
  datatype Bar = Bar(kecamatan: Field, suhu: int)

  /** One point of a sub-district's line chart: the update time and the
      temperature. */
  datatype LinePoint = LinePoint(timestamp: Field, suhu: int)

  datatype View =
    | NoData                                 // the "no data for this filter" notice
    | Cards(cardGroups: seq<Group<CardEntry>>)
    | Bars(charts: seq<Province<Bar>>)
    | Lines(subDistricts: seq<Group<LinePoint>>)
    | Slices(counts: seq<LabelCount>)
    | Cloud(text: string)
    | MissingColumn(column: Column)          // pandas raises KeyError

  function CardsOf(rows: seq<Record>): seq<CardEntry>
  {
    seq(|rows|, i requires 0 <= i < |rows| => CardEntry(rows[i], IconFor(rows[i].suhu)))
  }

  function BarsOf(rows: seq<Record>): seq<Bar>
  {
    seq(|rows|, i requires 0 <= i < |rows| => Bar(rows[i].kecamatan, rows[i].suhu))
  }

  function LinePointsOf(rows: seq<Record>): seq<LinePoint>
  {
    seq(|rows|, i requires 0 <= i < |rows| => LinePoint(rows[i].timestamp, rows[i].suhu))
  }

  function CardGroupsOf(gs: seq<Group<Record>>): seq<Group<CardEntry>>
  {
    seq(|gs|, i requires 0 <= i < |gs| => Group(gs[i].key, CardsOf(gs[i].rows)))
  }

  /** The card view: records grouped by province, one card per record. */
  function CardGroups(rs: seq<Record>): (cs: seq<Group<CardEntry>>)
    ensures forall i, j :: 0 <= i < j < |cs| ==> LexLess(cs[i].key, cs[j].key)
    ensures forall i :: 0 <= i < |cs| ==> cs[i].rows != []
    ensures forall i, k :: 0 <= i < |cs| && 0 <= k < |cs[i].rows| ==> cs[i].rows[k].icon == IconFor(cs[i].rows[k].record.suhu)
  {
    CardGroupsOf(GroupBy(rs, Provinsi))
  }

  function CityBars(cities: seq<Group<Record>>): seq<Group<Bar>>
  {
    seq(|cities|, j requires 0 <= j < |cities| => Group(cities[j].key, BarsOf(cities[j].rows)))
  }

  function ChartsOf(ps: seq<Province<Record>>): seq<Province<Bar>>
  {
    seq(|ps|, i requires 0 <= i < |ps| => Province(ps[i].key, CityBars(ps[i].cities)))
  }

  /** The bar-chart view: a chart per (province, city/regency) bucket with one
      bar per record. */
  function BarProvinces(rs: seq<Record>): (ps: seq<Province<Bar>>)
    ensures forall i, j :: 0 <= i < j < |ps| ==> LexLess(ps[i].key, ps[j].key)
    ensures forall i, j, k :: 0 <= i < |ps| && 0 <= j < k < |ps[i].cities| ==> LexLess(ps[i].cities[j].key, ps[i].cities[k].key)
  {
    ChartsOf(GroupByProvinceCity(rs))
  }

  /** The line view: a line per sub-district with one point per record. */
  function LineGroups(rs: seq<Record>): (ls: seq<Group<LinePoint>>)
    ensures forall i, j :: 0 <= i < j < |ls| ==> LexLess(ls[i].key, ls[j].key)
    ensures forall i :: 0 <= i < |ls| ==> ls[i].rows != []
  {
    var gs := GroupBy(rs, Kelurahan);
    seq(|gs|, i requires 0 <= i < |gs| => Group(gs[i].key, LinePointsOf(gs[i].rows)))
  }

  /** What the script shows for the searched records in each mode, as
      written: every mode but the card view shows the notice for an empty
      list, and a column no record has makes pandas raise. */
  function Render(mode: Mode, rs: seq<Record>): (v: View)
    ensures mode != Card ==> (v == NoData <==> rs == [])
    ensures mode == Card ==> v != NoData
    ensures v.MissingColumn? ==> !HasColumn(rs, v.column)
    ensures mode == Card ==> (v.MissingColumn? <==> !HasColumn(rs, Provinsi))
    ensures mode == Line ==> (v.MissingColumn? <==> rs != [] && (!HasColumn(rs, Timestamp) || !HasColumn(rs, Kelurahan)))
    ensures (mode == Pie || mode == WordCloud) ==> (v.MissingColumn? <==> rs != [] && !HasColumn(rs, Cuaca))
    ensures mode == Chart ==>
              (v.MissingColumn? <==> rs != [] && (!HasColumn(rs, Provinsi) || (HasKey(rs, Provinsi) && !HasColumn(rs, KabKota))))
    ensures mode == Card && !v.MissingColumn? ==> v == Cards(CardGroups(rs))
    ensures mode == Chart && v != NoData && !v.MissingColumn? ==> v == Bars(BarProvinces(rs))
    ensures mode == Line && v != NoData && !v.MissingColumn? ==> v == Lines(LineGroups(rs))
    ensures mode == Pie && v != NoData && !v.MissingColumn? ==> v == Slices(CountLabels(Labels(rs)))
    ensures mode == WordCloud && v != NoData && !v.MissingColumn? ==> v == Cloud(CloudText(rs))
  {
    GroupByEmptyIffNoKey(rs, Provinsi);
    match mode
    case Card =>
      if !HasColumn(rs, Provinsi) then MissingColumn(Provinsi)
      else Cards(CardGroups(rs))
    case Line =>
      if rs == [] then NoData
      else if !HasColumn(rs, Timestamp) then MissingColumn(Timestamp)
      else if !HasColumn(rs, Kelurahan) then MissingColumn(Kelurahan)
      else Lines(LineGroups(rs))
    case Pie =>
      if rs == [] then NoData
      else if !HasColumn(rs, Cuaca) then MissingColumn(Cuaca)
      else Slices(CountLabels(Labels(rs)))
    case WordCloud =>
      if rs == [] then NoData
      else if !HasColumn(rs, Cuaca) then MissingColumn(Cuaca)
      else Cloud(CloudText(rs))
    case Chart =>
      if rs == [] then NoData
      else if !HasColumn(rs, Provinsi) then MissingColumn(Provinsi)
      else if GroupBy(rs, Provinsi) != [] && !HasColumn(rs, KabKota) then MissingColumn(KabKota)
      else Bars(BarProvinces(rs))
  }

  /** Some record has a string value in column `c`. */
  predicate HasKey(rs: seq<Record>, c: Column)
  {
    exists i :: 0 <= i < |rs| && Get(rs[i], c).Text?
  }

  /** Grouping yields a group exactly when some record has a string key. */
  lemma GroupByEmptyIffNoKey(rs: seq<Record>, c: Column)
    ensures GroupBy(rs, c) != [] <==> HasKey(rs, c)
  {
    var gs := GroupBy(rs, c);
    if gs != [] {
      var r := gs[0].rows[0];
      assert r in gs[0].rows;
      SelectMembership(rs, KeyIs(c, gs[0].key), r);
      var i :| 0 <= i < |rs| && rs[i] == r;
      assert Get(rs[i], c).Text?;
    }
  }

  /** An empty search result in the card view reaches `groupby('provinsi')`
      on a DataFrame without columns, which raises instead of showing the
      notice. */
  lemma CardViewOfNothingRaises()
    ensures Render(Card, []) == MissingColumn(Provinsi)
  {
  }

  /** The views with the empty-list guard applied to the card view too. */
  function RenderGuarded(mode: Mode, rs: seq<Record>): (v: View)
    ensures v == NoData <==> rs == []
    ensures mode != Card || rs != [] ==> v == Render(mode, rs)
  {
    if rs == [] then NoData else Render(mode, rs)
  }

  /** The dashboard as the script runs it: parse temperatures, search, then
      build the chosen view. Outside the card view it agrees with the guarded
      dashboard. */
  function Dashboard(raw: seq<RawRecord>, query: string, mode: Mode): (v: View)
    ensures mode != Card ==> v == DashboardGuarded(raw, query, mode)
  {
    Render(mode, Search(Normalize(raw), query))
  }

  /** The dashboard with the empty-list guard in every mode. */
  function DashboardGuarded(raw: seq<RawRecord>, query: string, mode: Mode): (v: View)
    ensures v == NoData <==> Search(Normalize(raw), query) == []
    ensures v != NoData ==> v == Render(mode, Search(Normalize(raw), query))
  {
    RenderGuarded(mode, Search(Normalize(raw), query))
  }

  /** Outside the card view the dashboard shows the notice exactly when no
      fetched record mentions the query in one of its four location
      fields. */
  lemma DashboardNoDataIffNoMention(raw: seq<RawRecord>, query: string, mode: Mode)
    requires mode != Card
    ensures Dashboard(raw, query, mode) == NoData
            <==> forall i :: 0 <= i < |raw| ==> !MentionsRegion(raw[i], query)
  {
    SearchEmptyIffNoMention(raw, query);
  }

  /** The card view never shows the notice: a search that no record matches
      makes it raise instead. */
  lemma DashboardCardRaisesWithoutMention(raw: seq<RawRecord>, query: string)
    ensures Dashboard(raw, query, Card) != NoData
    ensures (forall i :: 0 <= i < |raw| ==> !MentionsRegion(raw[i], query))
            ==> Dashboard(raw, query, Card) == MissingColumn(Provinsi)
  {
    SearchEmptyIffNoMention(raw, query);
  }

  /** With the guard, every mode shows the notice exactly when no fetched
      record mentions the query. */
  lemma DashboardGuardedNoDataIffNoMention(raw: seq<RawRecord>, query: string, mode: Mode)
    ensures DashboardGuarded(raw, query, mode) == NoData
            <==> forall i :: 0 <= i < |raw| ==> !MentionsRegion(raw[i], query)
  {
    SearchEmptyIffNoMention(raw, query);
  }

  /** The search finds nothing exactly when no fetched record mentions the
      query. */
  lemma SearchEmptyIffNoMention(raw: seq<RawRecord>, query: string)
    ensures Search(Normalize(raw), query) == []
            <==> forall i :: 0 <= i < |raw| ==> !MentionsRegion(raw[i], query)
  {
    var rs := Normalize(raw);
    var out := Search(rs, query);
    if out != [] {
      SearchMembership(rs, query, out[0]);
      var j :| 0 <= j < |rs| && rs[j] == out[0];
      NormalizeKeepsMention(raw, query, j);
    } else {
      forall i | 0 <= i < |raw|
        ensures !MentionsRegion(raw[i], query)
      {
        NormalizeKeepsMention(raw, query, i);
        SearchMembership(rs, query, rs[i]);
      }
    }
  }

  /** Parsing temperatures leaves the location fields, and so the search
      verdict, of every record alone. */
  lemma NormalizeKeepsMention(raw: seq<RawRecord>, query: string, i: nat)
    requires i < |raw|
    ensures MentionsRegion(Normalize(raw)[i], query) <==> MentionsRegion(raw[i], query)
  {
    NormalizeKeepsLocation(raw, i);
    SameLocationSameMention(Normalize(raw)[i], raw[i], query);
  }

  lemma NormalizeKeepsLocation(raw: seq<RawRecord>, i: nat)
    requires i < |raw|
    ensures Normalize(raw)[i].provinsi == raw[i].provinsi && Normalize(raw)[i].kabKota == raw[i].kabKota
    ensures Normalize(raw)[i].kecamatan == raw[i].kecamatan && Normalize(raw)[i].kelurahan == raw[i].kelurahan
  {
    assert Normalize(raw)[i] == WithSuhu(raw[i], ParseSuhu(raw[i].suhu));
  }

  /** The card view shows one card per record that has a province, and no
      other: the records on the cards are exactly those records, counted
      with multiplicity, each in its province's group and with the icon for
      its temperature. */
  lemma CardsCoverProvinceRecords(rs: seq<Record>)
    ensures var gs := CardGroups(rs);
            forall i, k :: 0 <= i < |gs| && 0 <= k < |gs[i].rows| ==>
              gs[i].rows[k].record.provinsi == Text(gs[i].key)
              && gs[i].rows[k].icon == IconFor(gs[i].rows[k].record.suhu)
    ensures multiset(CardRecords(AllRows(CardGroups(rs)))) == multiset(Select(rs, Keyed(Provinsi)))
    ensures |AllRows(CardGroups(rs))| == |Select(rs, Keyed(Provinsi))|
  {
    CardsInTheirProvince(rs);
    CardsHoldProvinceRecords(rs);
    CardCountIsProvinceCount(rs);
  }

  lemma CardsInTheirProvince(rs: seq<Record>)
    ensures var cs := CardGroups(rs);
            forall i, k :: 0 <= i < |cs| && 0 <= k < |cs[i].rows| ==> cs[i].rows[k].record.provinsi == Text(cs[i].key)
  {
    var gs := GroupBy(rs, Provinsi);
    var cs := CardGroups(rs);
    forall i, k | 0 <= i < |cs| && 0 <= k < |cs[i].rows|
      ensures cs[i].rows[k].record.provinsi == Text(cs[i].key)
    {
      assert cs[i].rows[k].record == gs[i].rows[k];
      assert gs[i].rows[k] in gs[i].rows;
      assert KeyIs(Provinsi, gs[i].key)(gs[i].rows[k]);
    }
  }

  lemma CardsHoldProvinceRecords(rs: seq<Record>)
    ensures multiset(CardRecords(AllRows(CardGroups(rs)))) == multiset(Select(rs, Keyed(Provinsi)))
  {
    CardRecordsOfGroups(GroupBy(rs, Provinsi));
    GroupByPartition(rs, Provinsi);
  }

  lemma CardCountIsProvinceCount(rs: seq<Record>)
    ensures |AllRows(CardGroups(rs))| == |Select(rs, Keyed(Provinsi))|
  {
    var shown := CardRecords(AllRows(CardGroups(rs)));
    var keyed := Select(rs, Keyed(Provinsi));
    CardsHoldProvinceRecords(rs);
    assert |multiset(shown)| == |shown|;
    assert |multiset(keyed)| == |keyed|;
  }

  /** The records the cards show, in card order. */
  function CardRecords(cs: seq<CardEntry>): (rows: seq<Record>)
    ensures |rows| == |cs|
    ensures forall i :: 0 <= i < |cs| ==> rows[i] == cs[i].record
  {
    seq(|cs|, i requires 0 <= i < |cs| => cs[i].record)
  }

  /** Turning groups of records into groups of cards keeps every record, in
      order. */
  lemma {:induction false} CardRecordsOfGroups(gs: seq<Group<Record>>)
    ensures CardRecords(AllRows(CardGroupsOf(gs))) == AllRows(gs)
  {
    if gs != [] {
      CardRecordsOfGroups(gs[1..]);
      assert CardGroupsOf(gs)[1..] == CardGroupsOf(gs[1..]);
      var cards := CardsOf(gs[0].rows);
      var rest := AllRows(CardGroupsOf(gs[1..]));
      assert AllRows(CardGroupsOf(gs)) == cards + rest;
      assert CardRecords(cards + rest) == CardRecords(cards) + CardRecords(rest);
      assert CardRecords(cards) == gs[0].rows;
    }
  }

  lemma {:induction false} CityBarsLength(cities: seq<Group<Record>>)
    ensures |AllRows(CityBars(cities))| == |AllRows(cities)|
  {
    if cities != [] {
      CityBarsLength(cities[1..]);
      assert CityBars(cities)[1..] == CityBars(cities[1..]);
    }
  }

  lemma {:induction false} ChartsLength(ps: seq<Province<Record>>)
    ensures |AllBucketRows(ChartsOf(ps))| == |AllBucketRows(ps)|
  {
    if ps != [] {
      ChartsLength(ps[1..]);
      CityBarsLength(ps[0].cities);
      assert ChartsOf(ps)[1..] == ChartsOf(ps[1..]);
    }
  }

  /** Each (province, city/regency) chart has one bar per record of its
      bucket, in input order, carrying that record's district and
      temperature unchanged: nothing is averaged or merged. Across all charts
      there is one bar per record that has both a province and a
      city/regency. */
  lemma BarsArePerRecord(rs: seq<Record>, i: nat, j: nat)
    requires i < |BarProvinces(rs)| && j < |BarProvinces(rs)[i].cities|
    ensures var chart := BarProvinces(rs)[i].cities[j];
            var bucket := Select(rs, InBucket(BarProvinces(rs)[i].key, chart.key));
            && |chart.rows| == |bucket|
            && forall n :: 0 <= n < |bucket| ==> chart.rows[n] == Bar(bucket[n].kecamatan, bucket[n].suhu)
    ensures |AllBucketRows(BarProvinces(rs))| == |Select(rs, KeyedBoth())|
  {
    var ps := GroupByProvinceCity(rs);
    ProvinceCityBuckets(rs, i, j);
    assert BarProvinces(rs)[i].key == ps[i].key;
    assert BarProvinces(rs)[i].cities[j].key == ps[i].cities[j].key;
    ChartsLength(ps);
    ProvinceCityPartition(rs);
    assert |multiset(AllBucketRows(ps))| == |multiset(Select(rs, KeyedBoth()))|;
  }

  /** Each sub-district's line has one point per record of that sub-district,
      in input order, with the record's update time and temperature. */
  lemma LinesArePerRecord(rs: seq<Record>, i: nat)
    requires i < |LineGroups(rs)|
    ensures var line := LineGroups(rs)[i];
            var rows := Select(rs, KeyIs(Kelurahan, line.key));
            && rows != []
            && |line.rows| == |rows|
            && forall n :: 0 <= n < |rows| ==> line.rows[n] == LinePoint(rows[n].timestamp, rows[n].suhu)
  {
    assert LineGroups(rs)[i].key == GroupBy(rs, Kelurahan)[i].key;
  }
}
