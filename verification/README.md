# Weather dashboard data pipeline, in Dafny

The dashboard (`app.py`) fetches every document of the `prakiraan_cuaca`
(weather forecast) collection, turns each document's `suhu` (temperature)
string into an integer, keeps the documents whose province, city/regency
(`kab_kota`), district (`kecamatan`) or sub-district (`kelurahan`) name
contains the search text, and then draws one of five views: cards grouped
by province, bar charts per province and city/regency, line charts per
sub-district, a pie chart of weather labels (`cuaca`), or a word cloud of
those labels.

This project models that pipeline as pure functions over sequences of
immutable records and proves what each step promises:

- `Records`: a document is a `WeatherRecord<S>`. Each text field is
  `Absent`, `Null` (Python `None`) or `Text(s)`. The temperature type `S` is
  `RawSuhu` as fetched and `int` once parsed. The in-place rewrite of `suhu`
  becomes the pure map `Temperature.Normalize`.
- `Strings`: the parts of Python's `str` that the script uses. These are
  `split()` (`Words`), `" ".join` (`Join`), `.lower()` (`Lower`, ASCII only),
  substring `in` (`Contains`) and `<` (`LexLess`, which orders group keys).
- `Temperature`: `int(suhu.split()[0])` with 0 on any failure, and the card
  icon rule.
- `RegionFilter`: the search as an order-preserving selection (`Seqs.Select`).
- `Grouping`: `DataFrame.groupby` on one column, and the province →
  city/regency two-level grouping.
- `WeatherLabels`: `value_counts()` on the labels and the word-cloud text.
- `Views`: the per-mode dispatch with the script's empty-result guards.
  A column that no document has makes pandas raise `KeyError`; the model
  returns `MissingColumn` for this. `Dashboard` is the whole script as
  written. `DashboardGuarded` adds the empty-result guard that the card
  view lacks (see Findings).

The only inputs are the fetched documents, the search string and the view
mode. Pandas groups only rows whose key is present, in ascending key order,
and the model does the same: rows whose key is missing or `None` form no
group; pandas drops them.

## Model

| member | source | states |
|---|---|---|
| Strings.Words | app.py:20 | `split()` yields no token exactly when the string is all whitespace |
| Strings.WordsShape | app.py:20 | every token `split()` yields is non-empty and holds no whitespace |
| Strings.Join | app.py:108 | joining nothing gives ""; joining one item gives that item; joining a non-empty list gives the items' total length plus one separator between each pair, and starts with the first item |
| Strings.JoinAppend | app.py:108 | joining two non-empty lists back to back is the first join, one separator, then the second join; with the one-item case this fixes where every item and separator sits |
| Strings.WordsJoinSpace | app.py:108 | splitting two strings joined by one space gives the words of the first, then the words of the second |
| Strings.WordsOfJoinAll | app.py:108 | splitting a single-space join gives each joined string's words in order, whatever whitespace the strings hold |
| Strings.WordsOfJoin | app.py:108 | splitting single-space-joined words gives back the same words, in order |
| Strings.Lower | app.py:33-36 | lower-casing keeps the length and maps every character through the ASCII lower-case rule |
| Strings.LowerIdempotent | app.py:26 | lower-casing twice is lower-casing once: an already lower-cased query is unchanged by `.lower()` |
| Strings.Contains | app.py:33-36 | the executable substring test is true exactly when the query occurs at some position of the field value |
| Strings.EmptyOccurs | app.py:30 | the empty string is a substring of every string |
| Strings.LexLessIrreflexive | app.py:44 | no key sorts before itself in Python string order |
| Strings.LexLessTotal | app.py:44 | any two distinct keys are ordered one way or the other |
| Strings.LexLessTransitive | app.py:44 | the key order is transitive |
| Temperature.ParseInt | app.py:20 | `int(token)` succeeds exactly on an optional sign followed by one to 4300 ASCII digits (CPython's default digit limit); a minus sign gives a value ≤ 0 and no sign or a plus gives one ≥ 0 |
| Temperature.NatNumeralLength | app.py:20 | a number's numeral has at most k digits exactly when the number is below 10 to the k, so the digit limit admits exactly the magnitudes below 10 to the 4300 |
| Temperature.ParseIntOfNumeral | app.py:20 | an integer's decimal numeral reads back as that integer when its digits are within the limit, and is rejected otherwise |
| Temperature.ParseIntLiteral | app.py:20 | an optional sign, leading zeros and a numeral read as the numeral's value, negated for a minus sign ("+030" gives 30), when zeros and digits together are within the limit; a longer token is rejected |
| Temperature.FirstWord | app.py:20-22 | `s.split()[0]` is missing (the `IndexError` case) exactly when the string is all whitespace, and otherwise is non-empty and holds no whitespace |
| Temperature.FirstWordOfWords | app.py:20 | the token the temperature is read from is the first token `split()` yields, and there is none when `split()` yields nothing |
| Temperature.ParseIntRejectsDecimalPoint | app.py:19-22 | a token containing a decimal point is rejected by `int()` |
| Temperature.ParseSuhuFirstToken | app.py:19-22 | with whitespace before it and a separator (or nothing) after it, a string reads exactly as its first token does: the token's integer value if `int()` accepts it, else 0 |
| Temperature.ParseSuhuReadsFirstToken | app.py:18-22 | an integer numeral as the first whitespace-separated token gives that integer ("30 C" gives 30), or 0 when it has more digits than the limit, whatever whitespace comes before it and whatever comes after the next separator |
| Temperature.ParseSuhuRejectsFirstToken | app.py:19-22 | when the first token is not an integer literal the temperature is 0, whatever follows it |
| Temperature.ParseSuhu | app.py:18-22 | a missing field (read as "0"), `None`, a non-string value and an all-whitespace string each give 0 |
| Temperature.ParseSuhuReadsLiteral | app.py:18-22 | a first token made of an optional sign, leading zeros and a numeral gives that signed value, or 0 when zeros and digits together pass the limit, whatever whitespace precedes it and whatever follows the next separator |
| Temperature.ParseSuhuPlusSign | app.py:18-22 | "+30 C" gives 30 |
| Temperature.ParseSuhuLeadingZero | app.py:18-22 | "030" gives 30 |
| Temperature.ParseSuhuDecimalIsZero | app.py:19-22 | "30.5 C" gives 0, not 30 |
| Temperature.Normalize | app.py:17-22 | the same records in the same order, each with its parsed temperature and every other field untouched |
| Temperature.NormalizeAppend | app.py:17-22 | normalising is record by record: normalising a concatenation is concatenating the normalised parts |
| Temperature.IconFor | app.py:49 | sun exactly from 32 up, sun behind a cloud exactly from 24 to 31, rain exactly below 24; so exactly one icon for every temperature |
| Temperature.IconMonotone | app.py:49 | a warmer reading never gets a colder icon |
| Temperature.GlyphsDistinct | app.py:49 | the three icons print as three different glyphs |
| Seqs.Select | app.py:31-37 | the comprehension's output is no longer than its input and every kept element passes the test |
| Seqs.SelectMembership | app.py:31-37 | an element is in the output if and only if it is in the input and passes the test |
| Seqs.SelectMultiplicity | app.py:31-37 | each passing element is kept exactly as often as it occurs, and each failing one is dropped |
| Seqs.SelectIsSubsequence | app.py:31-37 | the output is the input with some elements deleted, in the original order |
| RegionFilter.Search | app.py:30-39 | an empty lower-cased query returns the input list itself; the result is never longer than the input |
| Records.Field.OrEmpty | app.py:33-36 | `(value or '')`: a string field reads as itself, a missing or `None` field as "" |
| Records.HasColumn | app.py:41 | the DataFrame of no records has no column, and any record carrying the key (even as `None`) gives the column |
| RegionFilter.Matches | app.py:33-36 | an empty query matches every record |
| RegionFilter.SameLocationSameMention | app.py:31-37 | two records with the same four location fields get the same search verdict, whatever else differs |
| RegionFilter.MatchesIsMention | app.py:31-37 | the executable test holds exactly when the lower-cased query occurs in the lower-cased value of one of the four location fields, a missing or `None` field reading as "" |
| RegionFilter.EmptyQueryMatchesAll | app.py:30-39 | with an empty query the comprehension would keep every record, so the `if search_daerah` shortcut changes nothing |
| RegionFilter.SearchMultiplicity | app.py:31-37 | a record appears in the result exactly as often as in the input if it mentions the query, and not at all otherwise |
| RegionFilter.SearchMembership | app.py:31-37 | a record is in the result if and only if it is in the input and mentions the query in a location field |
| RegionFilter.SearchIsSubsequence | app.py:31-37 | the result keeps the input order and does not alter any record |
| RegionFilter.SearchIdempotent | app.py:31-37 | searching the result again with the same query gives the same result |
| RegionFilter.SearchCommutesWithNormalize | app.py:17-39 | the search ignores temperatures: parsing before or after searching gives the same list |
| Grouping.InsertKey | app.py:44 | adding a key keeps the key list strictly ascending and adds exactly that key |
| Grouping.Keys | app.py:44 | the group keys are strictly ascending and are exactly the present values of the column |
| Grouping.GroupBy | app.py:44 | groups come in strictly ascending key order; each group is non-empty and holds exactly the rows with its key, in input order; every row with a present key has a group |
| Grouping.GroupByMultiplicity | app.py:44 | across all groups a row appears as often as in the input if its key is present, and not at all if the key is missing or `None` |
| Grouping.GroupByPartition | app.py:44 | the groups together are a permutation of the rows whose key is present |
| Grouping.GroupByDisjoint | app.py:44 | no row is in two groups, and a row's group is the one named by its key |
| Grouping.GroupByProvinceCity | app.py:121-123 | provinces come in strictly ascending order, and so do the cities/regencies within each province |
| Grouping.ProvinceCityBuckets | app.py:121-123 | each (province, city/regency) bucket holds exactly the rows with both names, in input order; provinces and the cities within each province come in ascending order |
| Grouping.ProvinceCityMultiplicity | app.py:121-123 | across all buckets a row appears as often as in the input if it has both a province and a city/regency, and not at all otherwise |
| Grouping.ProvinceCityPartition | app.py:121-123 | all buckets together are a permutation of the rows that have both names, so each such row lands in exactly one bucket |
| WeatherLabels.Labels | app.py:108 | the label list has one entry per labelled record, in record order, and each entry is that record's label |
| WeatherLabels.LabelsAreRecordLabels | app.py:108 | a string is in the label list exactly when some record carries it as its weather label |
| WeatherLabels.Bump | app.py:85 | counting one more label raises its row by one, or appends a row with count 1; the total rises by one |
| WeatherLabels.BumpCounted | app.py:85 | after counting a label, the labels that have a row are the earlier ones plus that label |
| WeatherLabels.CountLabels | app.py:85 | one row per distinct label; each count is the number of occurrences of its label and is positive; a label has a row exactly when it occurs; the counts sum to the number of labels |
| WeatherLabels.PieCountsCoverLabelledRecords | app.py:85 | the pie counts sum to the number of records with a non-null label |
| WeatherLabels.CloudText | app.py:108 | splitting the word-cloud text gives every label's own words, label after label in record order, whatever whitespace the labels hold |
| WeatherLabels.CloudTextOneWordLabels | app.py:108 | when every label is a single word, the words of the word-cloud text are exactly the labels, in record order |
| Views.CardViewOfNothingRaises | app.py:41-44 | in card mode an empty list raises `KeyError` for `provinsi` |
| Views.Render | app.py:43-132 | outside card mode the notice shows exactly when the list is empty, and card mode never shows it; a `MissingColumn` result names a column no record has; per mode, `KeyError` arises exactly when card mode lacks `provinsi`, when a non-empty line view lacks `timestamp` or `kelurahan`, when a non-empty pie or word cloud lacks `cuaca`, and when a non-empty chart lacks `provinsi` or has a province but lacks `kab_kota`; any other view is the mode's own data: the province card groups, the bar charts, the sub-district lines, the label counts or the joined label text |
| Views.GroupByEmptyIffNoKey | app.py:121-123 | `groupby` yields a group, so the chart loop reaches `groupby('kab_kota')`, exactly when some record has a string province |
| Views.RenderGuarded | app.py:43-60 | with the guard added to card mode, every mode shows the notice exactly when the list is empty and otherwise shows what the script shows |
| Views.Dashboard | app.py:17-132 | outside card mode the script's dashboard agrees with the guarded one |
| Views.SearchEmptyIffNoMention | app.py:17-41 | the search finds nothing exactly when no fetched record mentions the query in a location field |
| Views.DashboardNoDataIffNoMention | app.py:17-132 | outside card mode the dashboard shows the notice exactly when no fetched record mentions the query in a location field |
| Views.DashboardCardRaisesWithoutMention | app.py:17-49 | card mode never shows the notice: when no fetched record mentions the query it raises `KeyError` for `provinsi` |
| Views.DashboardGuarded | app.py:17-132 | the corrected dashboard shows the notice exactly when the search finds nothing, and otherwise the script's view |
| Views.DashboardGuardedNoDataIffNoMention | app.py:17-132 | with the guard added to card mode, every mode shows the notice exactly when no fetched record mentions the query |
| Views.NormalizeKeepsMention | app.py:17-37 | parsing the temperature does not change whether a record mentions the query |
| Views.CardGroups | app.py:44-49 | card groups come in strictly ascending province order, none is empty, and every card carries the icon for its record's temperature |
| Views.CardRecordsOfGroups | app.py:44-49 | turning groups of records into groups of cards keeps every record, in order |
| Views.CardsHoldProvinceRecords | app.py:43-49 | the records on the cards are, with multiplicity, exactly the records that have a province |
| Views.CardsCoverProvinceRecords | app.py:43-49 | every card is in its province's group and carries the icon for its temperature; the records on the cards are, with multiplicity, exactly the records that have a province |
| Views.BarProvinces | app.py:121-128 | bar charts come in strictly ascending province order, and within a province in strictly ascending city/regency order |
| Views.BarsArePerRecord | app.py:121-128 | each bucket's chart has one bar per bucket record, in input order, with that record's district and temperature (no averaging); there is one bar in total per record that has both names |
| Views.LineGroups | app.py:66-71 | lines come in strictly ascending sub-district order and none is empty |
| Views.LinesArePerRecord | app.py:66-71 | each sub-district's line has one point per record of that sub-district, in input order, with that record's update time and temperature |

## Left out

- MongoDB connection and fetch (app.py:8-15): external I/O and secrets. The fetched documents are an input.
- Streamlit widgets and output (title, text input, radio, markdown, info, charts): the query and the mode are inputs. The card text layout and the `row.get(...)` display defaults are not modelled.
- Altair, matplotlib and WordCloud drawing: foreign libraries. The views stop at the data handed to them.
- `pd.to_datetime` and `.dt.day` (app.py:63-64): lenient date parsing inside pandas. Line points carry the raw `timestamp` field. Parse failures that would raise are not modelled.
- `WordCloud.generate` raising when the text yields no word (for example every label null, empty or all whitespace, or only one-letter words and stopwords): library behaviour of its tokenizer and stopword list.
- Temperature.ParseInt: accepts only an optional ASCII sign followed by ASCII digits. Python's `int()` also accepts underscores between digits and non-ASCII decimal digits; the model rejects those and gives 0. The digit limit is fixed at CPython's default of 4300: a limit changed with `sys.set_int_max_str_digits`, and Python versions without the limit, are not modelled.
- Temperature.ParseSuhu: a `bytes` value, which `int()` could read, is not modelled; every non-string value gives 0.
- Strings.Lower: lower-cases ASCII letters only. Python's full Unicode case mapping is not modelled.
- WeatherLabels.CountLabels: rows come in first-appearance order, but pandas sorts them by descending count. The contract states nothing about row order.
- Stored values that are neither a string nor `None` are not modelled in any text field, because `Field` holds only absent, `None` or a string:
  - in a location field, a falsy one (0, False, an empty list) reads as "" through `or ''`, and a truthy one makes `.lower()` raise;
  - a numeric `cuaca` would be counted by `value_counts` but makes `" ".join` raise `TypeError` at app.py:108;
  - a stored datetime `timestamp` would be shown as it is at app.py:54.

## Findings

| source | as written | input that shows it | evidently intended | confidence | as-written member | corrected member |
|---|---|---|---|---|---|---|
| app.py:43-44 | the card branch calls `df.groupby('provinsi')` without the `df.empty` check that the other four branches make | card mode with a search text that matches no record: `pd.DataFrame([])` has no columns, so `groupby('provinsi')` raises `KeyError` | show the "Data tidak ditemukan untuk filter yang diberikan." notice, as every other mode does | not executed; high | Views.DashboardCardRaisesWithoutMention | Views.DashboardGuarded, Views.DashboardGuardedNoDataIffNoMention |
