/** `DataFrame.groupby` as the views use it: one group per distinct present
    key, keys in ascending order, rows in input order, and rows whose key is
    missing or `None` left out of every group. */
module Grouping {
  import opened Strings
  import opened Seqs
  import opened Records

  datatype Group<T> = Group(key: string, rows: seq<T>)

  /** Rows whose value in column `c` is the string `k`. */
  function KeyIs<S>(c: Column, k: string): WeatherRecord<S> -> bool
  {
    r => Get(r, c) == Text(k)
  }

  /** Rows that have a (string) value in column `c`. */
  function Keyed<S>(c: Column): WeatherRecord<S> -> bool
  {
    r => Get(r, c).Text?
  }

  predicate StrictlySorted(ks: seq<string>)
  {
    forall i, j :: 0 <= i < j < |ks| ==> LexLess(ks[i], ks[j])
  }

  /** Adds `k` to an ascending list of distinct keys, keeping it so. */
  function InsertKey(ks: seq<string>, k: string): (r: seq<string>)
    requires StrictlySorted(ks)
    ensures StrictlySorted(r)
    ensures forall x :: x in r <==> x in ks || x == k
  {
    if ks == [] then [k]
    else if k == ks[0] then ks
    else if LexLess(k, ks[0]) then
      assert forall j :: 0 <= j < |ks| ==> LexLess(k, ks[j]) by {
        forall j | 0 <= j < |ks|
          ensures LexLess(k, ks[j])
        {
          if j > 0 {
            LexLessTransitive(k, ks[0], ks[j]);
          }
        }
      }
      [k] + ks
    else
      LexLessTotal(k, ks[0]);
      var rest := InsertKey(ks[1..], k);
      assert forall j :: 0 <= j < |rest| ==> LexLess(ks[0], rest[j]) by {
        forall j | 0 <= j < |rest|
          ensures LexLess(ks[0], rest[j])
        {
          assert rest[j] in rest;
          if rest[j] != k {
            var m :| 0 <= m < |ks[1..]| && ks[1..][m] == rest[j];
            assert ks[m + 1] == rest[j];
          }
        }
      }
      assert ks == [ks[0]] + ks[1..];
      [ks[0]] + rest
  }

  /** The distinct present values of column `c`, ascending. */
  function Keys<S>(rs: seq<WeatherRecord<S>>, c: Column): (ks: seq<string>)
    ensures StrictlySorted(ks)
    ensures forall k :: k in ks <==> exists i :: 0 <= i < |rs| && Get(rs[i], c) == Text(k)
  {
    if rs == [] then []
    else
      var rest := Keys(rs[1..], c);
      assert forall k :: (exists i :: 0 <= i < |rs[1..]| && Get(rs[1..][i], c) == Text(k))
                     ==> (exists i :: 0 <= i < |rs| && Get(rs[i], c) == Text(k)) by {
        forall k | exists i :: 0 <= i < |rs[1..]| && Get(rs[1..][i], c) == Text(k)
          ensures exists i :: 0 <= i < |rs| && Get(rs[i], c) == Text(k)
        {
          var i :| 0 <= i < |rs[1..]| && Get(rs[1..][i], c) == Text(k);
          assert Get(rs[i + 1], c) == Text(k);
        }
      }
      assert forall k :: (exists i :: 0 <= i < |rs| && Get(rs[i], c) == Text(k))
                     ==> Get(rs[0], c) == Text(k) || (exists i :: 0 <= i < |rs[1..]| && Get(rs[1..][i], c) == Text(k)) by {
        forall k | exists i :: 0 <= i < |rs| && Get(rs[i], c) == Text(k)
          ensures Get(rs[0], c) == Text(k) || (exists i :: 0 <= i < |rs[1..]| && Get(rs[1..][i], c) == Text(k))
        {
          var i :| 0 <= i < |rs| && Get(rs[i], c) == Text(k);
          if i > 0 {
            assert Get(rs[1..][i - 1], c) == Text(k);
          }
        }
      }
      match Get(rs[0], c)
      case Text(k) => InsertKey(rest, k)
      case _ => rest
  }

  function GroupsFor<S>(rs: seq<WeatherRecord<S>>, c: Column, ks: seq<string>): (gs: seq<Group<WeatherRecord<S>>>)
    ensures |gs| == |ks|
    ensures forall i :: 0 <= i < |ks| ==> gs[i].key == ks[i] && gs[i].rows == Select(rs, KeyIs(c, ks[i]))
  {
    if ks == [] then [] else [Group(ks[0], Select(rs, KeyIs(c, ks[0])))] + GroupsFor(rs, c, ks[1..])
  }

  /** `df.groupby(column)`: one non-empty group per distinct present key, in
      ascending key order, each holding exactly the rows with that key in
      input order; every row with a present key has its group. */
  function GroupBy<S>(rs: seq<WeatherRecord<S>>, c: Column): (gs: seq<Group<WeatherRecord<S>>>)
    ensures forall i, j :: 0 <= i < j < |gs| ==> LexLess(gs[i].key, gs[j].key)
    ensures forall i :: 0 <= i < |gs| ==> gs[i].rows == Select(rs, KeyIs(c, gs[i].key)) && gs[i].rows != []
    ensures forall i :: 0 <= i < |rs| && Get(rs[i], c).Text? ==> exists j :: 0 <= j < |gs| && gs[j].key == Get(rs[i], c).s
  {
    var ks := Keys(rs, c);
    var gs := GroupsFor(rs, c, ks);
    KeyGroupsNonEmpty(rs, c, gs);
    assert forall i :: 0 <= i < |rs| && Get(rs[i], c).Text? ==> exists j :: 0 <= j < |gs| && gs[j].key == Get(rs[i], c).s by {
      forall i | 0 <= i < |rs| && Get(rs[i], c).Text?
        ensures exists j :: 0 <= j < |gs| && gs[j].key == Get(rs[i], c).s
      {
        var k := Get(rs[i], c).s;
        KeyOfRowIsKey(rs, c, i);
        var j :| 0 <= j < |ks| && ks[j] == k;
        assert gs[j].key == k;
      }
    }
    gs
  }

  /** Every group built for a present key holds exactly that key's rows,
      and at least one. */
  lemma KeyGroupsNonEmpty<S>(rs: seq<WeatherRecord<S>>, c: Column, gs: seq<Group<WeatherRecord<S>>>)
    requires gs == GroupsFor(rs, c, Keys(rs, c))
    ensures forall i :: 0 <= i < |gs| ==> gs[i].rows == Select(rs, KeyIs(c, gs[i].key)) && gs[i].rows != []
  {
    var ks := Keys(rs, c);
    forall i | 0 <= i < |gs|
      ensures gs[i].rows == Select(rs, KeyIs(c, gs[i].key)) && gs[i].rows != []
    {
      assert ks[i] in ks;
      var m :| 0 <= m < |rs| && Get(rs[m], c) == Text(ks[i]);
      SelectMembership(rs, KeyIs(c, ks[i]), rs[m]);
    }
  }

  lemma KeyOfRowIsKey<S>(rs: seq<WeatherRecord<S>>, c: Column, i: nat)
    requires i < |rs| && Get(rs[i], c).Text?
    ensures Get(rs[i], c).s in Keys(rs, c)
  {
    assert Get(rs[i], c) == Text(Get(rs[i], c).s);
  }

  /** All rows of all groups, group after group. */
  function AllRows<T>(gs: seq<Group<T>>): seq<T>
  {
    if gs == [] then [] else gs[0].rows + AllRows(gs[1..])
  }

  lemma {:induction false} GroupsForMultiplicity<S>(rs: seq<WeatherRecord<S>>, c: Column, ks: seq<string>, x: WeatherRecord<S>)
    requires StrictlySorted(ks)
    ensures multiset(AllRows(GroupsFor(rs, c, ks)))[x]
            == if Get(x, c).Text? && Get(x, c).s in ks then multiset(rs)[x] else 0
  {
    if ks != [] {
      var gs := GroupsFor(rs, c, ks);
      assert gs[1..] == GroupsFor(rs, c, ks[1..]);
      assert AllRows(gs) == Select(rs, KeyIs(c, ks[0])) + AllRows(GroupsFor(rs, c, ks[1..]));
      GroupsForMultiplicity(rs, c, ks[1..], x);
      SelectMultiplicity(rs, KeyIs(c, ks[0]), x);
      SortedHeadNotInTail(ks);
    }
  }

  lemma SortedHeadNotInTail(ks: seq<string>)
    requires StrictlySorted(ks) && ks != []
    ensures ks[0] !in ks[1..]
  {
    if ks[0] in ks[1..] {
      var m :| 0 <= m < |ks[1..]| && ks[1..][m] == ks[0];
      assert LexLess(ks[0], ks[m + 1]);
      LexLessIrreflexive(ks[0]);
    }
  }

  lemma GroupByMultiplicity<S>(rs: seq<WeatherRecord<S>>, c: Column, x: WeatherRecord<S>)
    ensures multiset(AllRows(GroupBy(rs, c)))[x] == if Get(x, c).Text? then multiset(rs)[x] else 0
  {
    var ks := Keys(rs, c);
    GroupsForMultiplicity(rs, c, ks, x);
    if Get(x, c).Text? && x in rs {
      var i :| 0 <= i < |rs| && rs[i] == x;
      assert Get(x, c).s in ks;
    }
  }

  /** Grouping is a partition of the rows with a present key: the groups
      together hold each such row exactly as often as the input does, and
      nothing else. */
  lemma GroupByPartition<S>(rs: seq<WeatherRecord<S>>, c: Column)
    ensures multiset(AllRows(GroupBy(rs, c))) == multiset(Select(rs, Keyed(c)))
  {
    var grouped := multiset(AllRows(GroupBy(rs, c)));
    var keyed := multiset(Select(rs, Keyed(c)));
    forall x
      ensures grouped[x] == keyed[x]
    {
      GroupByMultiplicity(rs, c, x);
      SelectMultiplicity(rs, Keyed(c), x);
    }
    MultisetExtensional(grouped, keyed);
  }

  /** No row is in two groups: a row's group is the one named by its key. */
  lemma GroupByDisjoint<S>(rs: seq<WeatherRecord<S>>, c: Column, i: nat, j: nat, x: WeatherRecord<S>)
    requires i < |GroupBy(rs, c)| && j < |GroupBy(rs, c)|
    requires x in GroupBy(rs, c)[i].rows && x in GroupBy(rs, c)[j].rows
    ensures i == j
    ensures Get(x, c) == Text(GroupBy(rs, c)[i].key)
  {
    var gs := GroupBy(rs, c);
    assert KeyIs(c, gs[i].key)(x) && KeyIs(c, gs[j].key)(x);
    if i != j {
      LexLessIrreflexive(gs[i].key);
    }
  }

  /** One province with its city/regency sub-groups. */
  datatype Province<T> = Province(key: string, cities: seq<Group<T>>)

  function SplitCities<S>(gs: seq<Group<WeatherRecord<S>>>): (ps: seq<Province<WeatherRecord<S>>>)
    ensures |ps| == |gs|
    ensures forall i :: 0 <= i < |gs| ==> ps[i] == Province(gs[i].key, GroupBy(gs[i].rows, KabKota))
  {
    if gs == [] then [] else [Province(gs[0].key, GroupBy(gs[0].rows, KabKota))] + SplitCities(gs[1..])
  }

  /** `df.groupby('provinsi')`, then `prov_group.groupby('kab_kota')` inside
      each province. */
  function GroupByProvinceCity<S>(rs: seq<WeatherRecord<S>>): (ps: seq<Province<WeatherRecord<S>>>)
    ensures forall i, j :: 0 <= i < j < |ps| ==> LexLess(ps[i].key, ps[j].key)
    ensures forall i, j, k :: 0 <= i < |ps| && 0 <= j < k < |ps[i].cities| ==> LexLess(ps[i].cities[j].key, ps[i].cities[k].key)
  {
    SplitCities(GroupBy(rs, Provinsi))
  }

  /** Rows in the bucket of province `p` and city/regency `k`. */
  function InBucket<S>(p: string, k: string): WeatherRecord<S> -> bool
  {
    r => Get(r, Provinsi) == Text(p) && Get(r, KabKota) == Text(k)
  }

  /** Rows that have both a province and a city/regency. */
  function KeyedBoth<S>(): WeatherRecord<S> -> bool
  {
    r => Get(r, Provinsi).Text? && Get(r, KabKota).Text?
  }

  /** Every (province, city/regency) bucket holds exactly the rows carrying
      both names, in input order; provinces and, within each, cities come in
      ascending order. */
  lemma ProvinceCityBuckets<S>(rs: seq<WeatherRecord<S>>, i: nat, j: nat)
    requires i < |GroupByProvinceCity(rs)|
    requires j < |GroupByProvinceCity(rs)[i].cities|
    ensures GroupByProvinceCity(rs)[i].cities[j].rows
            == Select(rs, InBucket(GroupByProvinceCity(rs)[i].key, GroupByProvinceCity(rs)[i].cities[j].key))
    ensures forall i' :: i < i' < |GroupByProvinceCity(rs)| ==> LexLess(GroupByProvinceCity(rs)[i].key, GroupByProvinceCity(rs)[i'].key)
    ensures forall j' :: j < j' < |GroupByProvinceCity(rs)[i].cities|
              ==> LexLess(GroupByProvinceCity(rs)[i].cities[j].key, GroupByProvinceCity(rs)[i].cities[j'].key)
  {
    var gs := GroupBy(rs, Provinsi);
    var p := gs[i].key;
    var k := GroupBy(gs[i].rows, KabKota)[j].key;
    SelectSelect(rs, KeyIs(Provinsi, p), KeyIs(KabKota, k), InBucket(p, k));
  }

  /** All rows of all buckets of a two-level grouping. */
  function AllBucketRows<T>(ps: seq<Province<T>>): seq<T>
  {
    if ps == [] then [] else AllRows(ps[0].cities) + AllBucketRows(ps[1..])
  }

  lemma {:induction false} SplitCitiesMultiplicity<S>(gs: seq<Group<WeatherRecord<S>>>, x: WeatherRecord<S>)
    ensures multiset(AllBucketRows(SplitCities(gs)))[x]
            == if Get(x, KabKota).Text? then multiset(AllRows(gs))[x] else 0
  {
    if gs != [] {
      var ps := SplitCities(gs);
      assert ps[1..] == SplitCities(gs[1..]);
      SplitCitiesMultiplicity(gs[1..], x);
      GroupByMultiplicity(gs[0].rows, KabKota, x);
    }
  }

  lemma ProvinceCityMultiplicity<S>(rs: seq<WeatherRecord<S>>, x: WeatherRecord<S>)
    ensures multiset(AllBucketRows(GroupByProvinceCity(rs)))[x]
            == if Get(x, Provinsi).Text? && Get(x, KabKota).Text? then multiset(rs)[x] else 0
  {
    SplitCitiesMultiplicity(GroupBy(rs, Provinsi), x);
    GroupByMultiplicity(rs, Provinsi, x);
  }

  /** The two-level grouping is a partition of the rows that have both a
      province and a city/regency: each lands in exactly one bucket, once
      per occurrence in the input. */
  lemma ProvinceCityPartition<S>(rs: seq<WeatherRecord<S>>)
    ensures multiset(AllBucketRows(GroupByProvinceCity(rs))) == multiset(Select(rs, KeyedBoth()))
  {
    var bucketed := multiset(AllBucketRows(GroupByProvinceCity(rs)));
    var keyed := multiset(Select(rs, KeyedBoth()));
    forall x
      ensures bucketed[x] == keyed[x]
    {
      ProvinceCityMultiplicity(rs, x);
      SelectMultiplicity(rs, KeyedBoth(), x);
    }
    MultisetExtensional(bucketed, keyed);
  }
}
