# Topic-trend dashboard: the data-shaping core

The dashboard (`home.py`) shows topic-modelling output in two views. Both rest on a small
amount of selection logic, which this project models and proves properties of.

- **Trend view** (`home.py:71-75`). The long-format table has records `(topic, date,
  distribution)`. Four boolean masks are applied to it, one after the other. They keep the
  selected topics, shares of at least `min_dist = 0.0`, and dates from the interval start to
  the interval end, both ends included. `Trends.TrendFilter` models the four steps as four
  nested selections. Lemmas show that the chain:
  - equals one conjunctive filter;
  - gives the same result for any order of its masks;
  - is idempotent;
  - is stable and complete (a subsequence of the input with the right multiplicities);
  - is uniquely determined by stability and completeness.
- **Pie view** (`get_pie_values`, `home.py:152-162`). The wide table has one row per week
  and one column per topic. The function selects the rows whose `week` string equals the
  key. It then walks the topic columns in order. For each column whose cell in the first
  selected row is at least `0.05`, it appends `{category, value}`.
  `PieValues.GetPieValues` is that loop, proved equal to the specification function
  `PieValues.PieValuesOf`. When no row carries the week and at least one topic column
  exists, `df_w[column].values[0]` raises an index error. The model returns `IndexError` in
  that case. With no topic column the loop never runs, so the result is the empty list.
- **Week key** (`home.py:190`). The pie is looked up with `str(semana)`, the date written
  as `YYYY-MM-DD`. `PieValues.WeekKey` formats it, and it is shown to read back and to be
  injective.

Boolean indexing, `frame[mask]`, is used by both views. It is modelled once, in
`BooleanIndexing.Select`, over a sequence of rows.

The widgets' outputs are plain parameters:
- the topic selection (`st.multiselect`) is a set of strings;
- the interval (`st.slider`) is two day numbers;
- the pie's date is a year, month and day.

The two CSV files are given as already-parsed values.

A caller might expect an unknown week to yield an empty list. The code instead raises an
index error whenever there is a topic column to read (`home.py:158`). The model follows the
code.

## Model

| member | source | states |
|---|---|---|
| `BooleanIndexing.Select` | home.py:72-75 | `frame[mask]` keeps a row of the input iff the mask accepts it, and yields no row the input lacks |
| `BooleanIndexing.SelectIsSubseq` | home.py:72-75 | boolean indexing keeps the input order: the selection is a subsequence of the input |
| `BooleanIndexing.SelectCounts` | home.py:72-75 | each accepted row is kept exactly as often as it occurs; a rejected row never appears |
| `BooleanIndexing.SelectUnique` | home.py:72-75 | a subsequence of the input with exactly those multiplicities is the selection |
| `BooleanIndexing.SelectSelect` | home.py:72-73 | two masks applied one after the other select what their conjunction selects |
| `BooleanIndexing.SelectFirst` | home.py:154-158 | the row at position 0 of `df[df["week"] == week]` is the first row of the table whose mask is true |
| `Trends.TrendFilter` | home.py:71-75 | a record is in the trend output iff it is in the input, its topic is selected, its share is at least 0.0 and its date lies in the interval, both ends included |
| `Trends.Chain` | home.py:72-75 | masks applied one after another, each to the previous result, keep no more records than the input has, and every kept record is an input record that every mask of the chain accepts |
| `Trends.ChainIsConjunction` | home.py:72-75 | any chain of masks applied one after another equals one filter by the conjunction of its masks |
| `Trends.ChainOrderIrrelevant` | home.py:72-75 | two chains with the same masks, in any order or with repeats, select the same records |
| `Trends.ChainIdempotent` | home.py:72-75 | running a chain of masks on its own output changes nothing |
| `Trends.TrendFilterIsChain` | home.py:72-75 | the trend filter is the chain topic, share, lower date bound, upper date bound |
| `Trends.TrendFilterIsConjunctive` | home.py:71-75 | the four-step trend filter equals a single filter by the four conditions together |
| `Trends.TrendFilterAnyOrder` | home.py:72-75 | applying the four masks in any permuted order gives the same records as the trend filter |
| `Trends.TrendFilterStable` | home.py:72-75 | the trend output is a subsequence of the raw records and holds each selected record as often as they do, and no other |
| `Trends.TrendFilterCharacterized` | home.py:72-75 | any subsequence of the raw records with those multiplicities is the trend output |
| `Trends.TrendFilterIdempotent` | home.py:71-75 | filtering the trend output again with the same selection leaves it unchanged |
| `Trends.EmptySelectionShowsNothing` | home.py:72 | an empty topic selection yields an empty output, not an error |
| `Trends.InvertedIntervalShowsNothing` | home.py:74-75 | an interval whose start lies after its end yields an empty output |
| `Trends.FullSelectionKeepsAll` | home.py:71-75 | when every record is selected, the output is the raw records unchanged and in order |
| `Trends.SelectedTopicScenario` | home.py:71-75 | selecting `vaccine` over one week keeps its two records in order and drops `economy` |
| `PieValues.RowsOfWeek` | home.py:154 | `df[df["week"] == week]` holds exactly the table's rows whose week string equals the key, and only those |
| `PieValues.PieValuesOf` | home.py:152-162 | the result of `get_pie_values`: the shown slices of the first row of the week, or `IndexError` when no row has the week and there is a topic column. Returned lists have at most one slice per column, and every value is at least 0.05 |
| `PieValues.Emitted` | home.py:157-161 | every emitted value is at least 0.05; every emitted pair is some column with its cell; every column whose cell is at least 0.05 is emitted |
| `PieValues.GetPieValues` | home.py:152-162 | the column walk returns the slices of the first row of the week. It fails with `IndexError` iff there is a topic column and no row carries the week. Every returned value is at least 0.05 |
| `PieValues.PieValuesFailsIff` | home.py:154-158 | the lookup fails iff there is a topic column and no row's week equals the key; with no topic column it returns the empty list |
| `PieValues.PieValuesUseFirstRow` | home.py:154-160 | the slices are taken from the first row whose week equals the key; later rows with that week are ignored |
| `PieValues.EmittedInColumnOrder` | home.py:155-161 | the slices are a subsequence of the row's (column, cell) pairs in column order, holding each pair of value at least 0.05 exactly as often as the row does |
| `PieValues.EmittedNeverWeek` | home.py:155-157 | when the dropped `week` column is not a topic column name, no slice has category `week` |
| `PieValues.BelowThresholdOmitted` | home.py:153-161 | a row with shares 0.6, 0.04, 0.36 yields the first and third topics only, so the values need not sum to 1 |
| `PieValues.WeekKey` | home.py:190 | `str(date)` is ten characters: four year digits, '-', two month digits, '-', two day digits |
| `PieValues.WeekKeyRoundTrip` | home.py:190 | the key of a date reads back as that date |
| `PieValues.WeekKeyInjective` | home.py:190 | distinct dates give distinct week keys |

## Left out

- Page layout, sidebar text, title, image, `st.metric` and the widgets (`home.py:7-66`, `181-189`): presentation only. Their outputs are parameters.
- The Vega-Lite chart specifications and their rendering (`home.py:77-146`, `165-178`, `191-194`): declarative data handed to an external renderer.
- Reading the CSV files and parsing the dates (`home.py:45-46`, `180`): file I/O and a foreign library. Records and tables are given already parsed, with dates as day numbers. The `week` column is taken to be read as text.
- The slider bounds from the minimum and maximum date (`home.py:56-57`): they only feed a widget.
- Floating point: shares are exact reals. A NaN share, which every `>=` mask rejects, is not modelled.
- Duplicate column labels in the wide table are not modelled. `pd.read_csv` renames them, and with a duplicate label `df_w[column]` would be a frame rather than a column.
- `utils/data_creator.py` is not part of this model. It draws random numbers, normalises by floating-point division and writes a file, and the dashboard never calls it.
