/** The weather labels (`cuaca`) behind the pie chart and the word cloud. */
module WeatherLabels {
  import opened Strings
  import opened Seqs
  import opened Records

  /** Records that carry a weather label. */
  function Labelled<S>(): WeatherRecord<S> -> bool
  {
    (r: WeatherRecord<S>) => r.cuaca.Text?
  }

  /** `df['cuaca'].dropna().tolist()`: the label of every labelled record,
      in record order. */
  function Labels<S>(rs: seq<WeatherRecord<S>>): (ls: seq<string>)
    ensures |ls| == |Select(rs, Labelled())|
    ensures forall i :: 0 <= i < |ls| ==> Select(rs, Labelled())[i].cuaca == Text(ls[i])
  {
    var sel := Select(rs, Labelled());
    seq(|sel|, i requires 0 <= i < |sel| => sel[i].cuaca.s)
  }

  /** A label is in the list exactly when some record carries it. */
  lemma LabelsAreRecordLabels<S>(rs: seq<WeatherRecord<S>>, l: string)
    ensures l in Labels(rs) <==> exists i :: 0 <= i < |rs| && rs[i].cuaca == Text(l)
  {
    var sel := Select(rs, Labelled());
    var ls := Labels(rs);
    if l in ls {
      var k :| 0 <= k < |ls| && ls[k] == l;
      SelectMembership(rs, Labelled(), sel[k]);
      var i :| 0 <= i < |rs| && rs[i] == sel[k];
      assert rs[i].cuaca == Text(l);
    }
    if exists i :: 0 <= i < |rs| && rs[i].cuaca == Text(l) {
      var i :| 0 <= i < |rs| && rs[i].cuaca == Text(l);
      SelectMembership(rs, Labelled(), rs[i]);
      var k :| 0 <= k < |sel| && sel[k] == rs[i];
      assert ls[k] == l;
    }
  }

  /** One row of `value_counts()`: a label and how many records carry it. */
  datatype LabelCount = LabelCount(weather: string, count: nat)

  function Total(cs: seq<LabelCount>): nat
  {
    if cs == [] then 0 else cs[0].count + Total(cs[1..])
  }

  predicate Counted(cs: seq<LabelCount>, l: string)
  {
    exists i :: 0 <= i < |cs| && cs[i].weather == l
  }

  predicate DistinctLabels(cs: seq<LabelCount>)
  {
    forall i, j :: 0 <= i < j < |cs| ==> cs[i].weather != cs[j].weather
  }

  /** `cs` is the tally of `ls`: one row per distinct label of `ls`, each
      holding how often that label occurs. */
  ghost predicate Tallies(cs: seq<LabelCount>, ls: seq<string>)
  {
    && DistinctLabels(cs)
    && (forall i :: 0 <= i < |cs| ==> cs[i].count == multiset(ls)[cs[i].weather] && cs[i].count > 0)
    && (forall l :: l in ls <==> Counted(cs, l))
  }

  /** Counts one more occurrence of `l`: its row goes up by one, or a new row
      with count 1 is appended when `l` had none. */
  function Bump(cs: seq<LabelCount>, l: string): (r: seq<LabelCount>)
    requires DistinctLabels(cs)
    ensures |r| == if Counted(cs, l) then |cs| else |cs| + 1
    ensures forall i :: 0 <= i < |cs| ==> r[i].weather == cs[i].weather
    ensures forall i :: 0 <= i < |cs| ==> r[i].count == cs[i].count + (if cs[i].weather == l then 1 else 0)
    ensures !Counted(cs, l) ==> r[|cs|] == LabelCount(l, 1)
    ensures Total(r) == Total(cs) + 1
  {
    if cs == [] then [LabelCount(l, 1)]
    else if cs[0].weather == l then
      assert Counted(cs, l);
      [LabelCount(l, cs[0].count + 1)] + cs[1..]
    else
      var rest := Bump(cs[1..], l);
      CountedTail(cs, l);
      assert ([cs[0]] + rest)[1..] == rest;
      [cs[0]] + rest
  }

  lemma CountedTail(cs: seq<LabelCount>, l: string)
    requires cs != [] && cs[0].weather != l
    ensures Counted(cs, l) <==> Counted(cs[1..], l)
  {
    if Counted(cs, l) {
      var i :| 0 <= i < |cs| && cs[i].weather == l;
      assert cs[1..][i - 1].weather == l;
    }
    if Counted(cs[1..], l) {
      var i :| 0 <= i < |cs[1..]| && cs[1..][i].weather == l;
      assert cs[i + 1].weather == l;
    }
  }

  lemma BumpDistinct(cs: seq<LabelCount>, l: string)
    requires DistinctLabels(cs)
    ensures DistinctLabels(Bump(cs, l))
  {
    var r := Bump(cs, l);
    if !Counted(cs, l) {
      forall i | 0 <= i < |cs|
        ensures r[i].weather != r[|cs|].weather
      {
      }
    }
  }

  lemma BumpCounts(cs: seq<LabelCount>, ls: seq<string>, l: string)
    requires Tallies(cs, ls)
    ensures forall i :: 0 <= i < |Bump(cs, l)| ==> Bump(cs, l)[i].count == multiset(ls + [l])[Bump(cs, l)[i].weather] > 0
  {
    var r := Bump(cs, l);
    assert multiset(ls + [l]) == multiset(ls) + multiset{l};
    forall i | 0 <= i < |r|
      ensures r[i].count == multiset(ls + [l])[r[i].weather] > 0
    {
      if i == |cs| {
        assert l !in ls;
      }
    }
  }

  lemma BumpCovers(cs: seq<LabelCount>, ls: seq<string>, l: string)
    requires Tallies(cs, ls)
    ensures forall x :: x in ls + [l] <==> Counted(Bump(cs, l), x)
  {
    forall x
      ensures x in ls + [l] <==> Counted(Bump(cs, l), x)
    {
      BumpCoversOne(cs, ls, l, x);
    }
  }

  lemma BumpCoversOne(cs: seq<LabelCount>, ls: seq<string>, l: string, x: string)
    requires Tallies(cs, ls)
    ensures x in ls + [l] <==> Counted(Bump(cs, l), x)
  {
    assert x in ls + [l] <==> x in ls || x == l;
    assert x in ls <==> Counted(cs, x);
    BumpCounted(cs, l, x);
  }

  /** After counting `l`, the labels with a row are the old ones and `l`. */
  lemma BumpCounted(cs: seq<LabelCount>, l: string, x: string)
    requires DistinctLabels(cs)
    ensures Counted(Bump(cs, l), x) <==> Counted(cs, x) || x == l
  {
    if Counted(cs, x) || x == l {
      BumpKeepsCounted(cs, l, x);
    }
    if Counted(Bump(cs, l), x) {
      BumpAddsOnlyLabel(cs, l, x);
    }
  }

  lemma BumpKeepsCounted(cs: seq<LabelCount>, l: string, x: string)
    requires DistinctLabels(cs)
    requires Counted(cs, x) || x == l
    ensures Counted(Bump(cs, l), x)
  {
    var r := Bump(cs, l);
    if Counted(cs, x) {
      var i :| 0 <= i < |cs| && cs[i].weather == x;
      assert r[i].weather == x;
    } else {
      assert r[|cs|].weather == x;
    }
  }

  lemma BumpAddsOnlyLabel(cs: seq<LabelCount>, l: string, x: string)
    requires DistinctLabels(cs)
    requires Counted(Bump(cs, l), x)
    ensures Counted(cs, x) || x == l
  {
    var r := Bump(cs, l);
    var i :| 0 <= i < |r| && r[i].weather == x;
    if i < |cs| {
      assert cs[i].weather == x;
    } else {
      assert !Counted(cs, l) && i == |cs|;
    }
  }

  /** `value_counts()` over a list of labels, rows in order of first
      appearance: one row per distinct label, each holding how often the
      label occurs, and the counts add up to the number of labels. */
  function CountLabels(ls: seq<string>): (cs: seq<LabelCount>)
    ensures Tallies(cs, ls)
    ensures Total(cs) == |ls|
  {
    if ls == [] then []
    else
      var init := ls[..|ls| - 1];
      var l := ls[|ls| - 1];
      var prev := CountLabels(init);
      assert ls == init + [l];
      BumpDistinct(prev, l);
      BumpCounts(prev, init, l);
      BumpCovers(prev, init, l);
      Bump(prev, l)
  }

  /** The pie chart's counts cover every labelled record exactly once. */
  lemma PieCountsCoverLabelledRecords<S>(rs: seq<WeatherRecord<S>>)
    ensures Total(CountLabels(Labels(rs))) == |Select(rs, Labelled())|
  {
  }

  /** The word-cloud text: the labels joined by single spaces. The word
      cloud counts the words of every label, in record order: splitting the
      text gives each label's own words, one label after the other, whatever
      whitespace the labels hold. */
  function CloudText<S>(rs: seq<WeatherRecord<S>>): (t: string)
    ensures Words(t) == WordsOfEach(Labels(rs))
  {
    WordsOfJoinAll(Labels(rs));
    Join(Labels(rs), " ")
  }

  /** When every label is a single word, the words of the word-cloud text are
      exactly the labels, in record order. */
  lemma CloudTextOneWordLabels<S>(rs: seq<WeatherRecord<S>>)
    requires forall i :: 0 <= i < |rs| && rs[i].cuaca.Text? ==> rs[i].cuaca.s != [] && NoSpace(rs[i].cuaca.s)
    ensures Words(CloudText(rs)) == Labels(rs)
  {
    var ls := Labels(rs);
    var sel := Select(rs, Labelled());
    forall i | 0 <= i < |ls|
      ensures ls[i] != [] && NoSpace(ls[i])
    {
      assert sel[i].cuaca == Text(ls[i]);
      SelectMembership(rs, Labelled(), sel[i]);
      var k :| 0 <= k < |rs| && rs[k] == sel[i];
    }
    WordsOfJoin(ls);
  }
}
