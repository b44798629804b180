/** The region search: a case-insensitive substring match against the four
    location fields of every record. */
module RegionFilter {
  import opened Strings
  import opened Seqs
  import opened Records
  import opened Temperature

  /** Whether the lower-cased query `q` occurs in the lower-cased province,
      city/regency, district or sub-district name, a missing or `None`
      name reading as "". */
  predicate Matches<S>(r: WeatherRecord<S>, q: string): (b: bool)
    ensures q == "" ==> b
  {
    || Contains(Lower(r.provinsi.OrEmpty()), q)
    || Contains(Lower(r.kabKota.OrEmpty()), q)
    || Contains(Lower(r.kecamatan.OrEmpty()), q)
    || Contains(Lower(r.kelurahan.OrEmpty()), q)
  }

  function MatchesQuery<S>(q: string): WeatherRecord<S> -> bool
  {
    r => Matches(r, q)
  }

  /** The matching rule stated with substring occurrence directly, for a raw
      (not yet lower-cased) query. */
  ghost predicate MentionsRegion<S>(r: WeatherRecord<S>, query: string)
  {
    exists c :: c in {Provinsi, KabKota, Kecamatan, Kelurahan} && Occurs(Lower(query), Lower(Get(r, c).OrEmpty()))
  }

  /** The records the views receive: with an empty (lower-cased) query all of
      them, as they are; otherwise the matching ones, in their original order. */
  function Search<S>(rs: seq<WeatherRecord<S>>, query: string): (out: seq<WeatherRecord<S>>)
    ensures Lower(query) == "" ==> out == rs
    ensures |out| <= |rs|
  {
    var q := Lower(query);
    if q == "" then rs else Select(rs, MatchesQuery(q))
  }

  lemma MatchesIsMention<S>(r: WeatherRecord<S>, query: string)
    ensures Matches(r, Lower(query)) <==> MentionsRegion(r, query)
  {
    var q := Lower(query);
    if Contains(Lower(r.provinsi.OrEmpty()), q) {
      assert Get(r, Provinsi) == r.provinsi;
    } else if Contains(Lower(r.kabKota.OrEmpty()), q) {
      assert Get(r, KabKota) == r.kabKota;
    } else if Contains(Lower(r.kecamatan.OrEmpty()), q) {
      assert Get(r, Kecamatan) == r.kecamatan;
    } else if Contains(Lower(r.kelurahan.OrEmpty()), q) {
      assert Get(r, Kelurahan) == r.kelurahan;
    }
  }

  /** Two records with the same four location fields mention the same
      queries, whatever else they hold. */
  lemma SameLocationSameMention<S, U>(r: WeatherRecord<S>, r': WeatherRecord<U>, query: string)
    requires r.provinsi == r'.provinsi && r.kabKota == r'.kabKota
    requires r.kecamatan == r'.kecamatan && r.kelurahan == r'.kelurahan
    ensures MentionsRegion(r, query) <==> MentionsRegion(r', query)
  {
    MatchesIsMention(r, query);
    MatchesIsMention(r', query);
  }

  /** An empty query matches every record, so the `if search_daerah` shortcut
      returns what the comprehension would have. */
  lemma EmptyQueryMatchesAll<S>(rs: seq<WeatherRecord<S>>)
    ensures Select(rs, MatchesQuery("")) == rs
  {
    forall i | 0 <= i < |rs|
      ensures MatchesQuery("")(rs[i])
    {
      EmptyOccurs(Lower(rs[i].provinsi.OrEmpty()));
    }
    SelectAll(rs, MatchesQuery(""));
  }

  /** Each record is kept exactly as often as the input holds it when it
      mentions the query in one of its four location fields, and dropped
      otherwise. */
  lemma SearchMultiplicity<S>(rs: seq<WeatherRecord<S>>, query: string, x: WeatherRecord<S>)
    ensures multiset(Search(rs, query))[x] == if MentionsRegion(x, query) then multiset(rs)[x] else 0
  {
    var q := Lower(query);
    MatchesIsMention(x, query);
    if q == "" {
      EmptyQueryMatchesAll(rs);
      SelectMultiplicity(rs, MatchesQuery(q), x);
    } else {
      SelectMultiplicity(rs, MatchesQuery(q), x);
    }
  }

  /** A record is in the result if and only if it is in the input and
      mentions the query. */
  lemma SearchMembership<S>(rs: seq<WeatherRecord<S>>, query: string, x: WeatherRecord<S>)
    ensures x in Search(rs, query) <==> x in rs && MentionsRegion(x, query)
  {
    SearchMultiplicity(rs, query, x);
    assert x in Search(rs, query) <==> multiset(Search(rs, query))[x] > 0;
    assert x in rs <==> multiset(rs)[x] > 0;
  }

  /** The result is the input with some records deleted: order is kept and no
      record is altered. */
  lemma SearchIsSubsequence<S>(rs: seq<WeatherRecord<S>>, query: string)
    ensures IsSubsequence(Search(rs, query), rs)
  {
    var q := Lower(query);
    if q == "" {
      EmptyQueryMatchesAll(rs);
    }
    SelectIsSubsequence(rs, MatchesQuery(q));
  }

  /** Searching the result again with the same query changes nothing. */
  lemma SearchIdempotent<S>(rs: seq<WeatherRecord<S>>, query: string)
    ensures Search(Search(rs, query), query) == Search(rs, query)
  {
    var q := Lower(query);
    if q != "" {
      SelectIdempotent(rs, MatchesQuery(q));
    }
  }

  /** The search never looks at the temperature, so parsing temperatures
      before searching (as the dashboard does) or after gives the same list. */
  lemma {:induction false} SearchCommutesWithNormalize(raw: seq<RawRecord>, query: string)
    ensures Search(Normalize(raw), query) == Normalize(Search(raw, query))
  {
    var q := Lower(query);
    if q != "" && raw != [] {
      var head := WithSuhu(raw[0], ParseSuhu(raw[0].suhu));
      assert raw == [raw[0]] + raw[1..];
      NormalizeAppend([raw[0]], raw[1..]);
      assert Normalize([raw[0]]) == [head];
      SameLocationSameMention(head, raw[0], query);
      SearchCommutesWithNormalize(raw[1..], query);
      var kept := if Matches(raw[0], q) then [raw[0]] else [];
      NormalizeAppend(kept, Select(raw[1..], MatchesQuery(q)));
    }
  }
}
