# BSKK budget dashboard: a Dafny model

The dashboard is a Streamlit script, `app/app.py`, over a budget table. Each
row of the table has:

- five category columns: Hauptkategorie, Subkategorie_1, Subkategorie_2,
  Produktgruppe and Subprodukt;
- eleven year columns, "Ist 2018" to "Plan 2028";
- a percentage-change column.

One run of the script does four things:

1. **Cascading filter.** Five sidebar inputs filter the table in a fixed
   order: Produktgruppe, Subprodukt, Hauptkategorie, Subkategorie_1,
   Subkategorie_2. Each input offers the distinct values of its column among
   the rows still retained (`unique()`, in first-appearance order). A non-empty
   selection keeps the rows whose value is selected (`isin`). An empty
   selection keeps every row.
2. **Gating.** When at least one value is selected, the script melts the
   filtered rows into long format (`pd.melt`, year-major). Otherwise it shows a
   placeholder text instead.
3. **Hover labels.** Each long row gets a hover label: four rules tried in
   order, the first that holds choosing which category fields are joined with
   ", ". The label groups the chart's lines.
4. **Summary table.** The script builds a table of Ist 2018, Ist 2023 and the
   percentage change of the filtered rows. It indexes that table by the
   distinct hover labels.

The model has six modules:

- `Seqs` (`seqs.dfy`): the two dataframe operations the script relies on.
  - Boolean-mask selection: `Retain`.
  - `unique()`: `Unique`.
  - Their facts: order kept, multiplicities, first-appearance order.
- `Budget` (`budget.dfy`): the table's rows and the five category columns.
  Year values and the percentage change are plain integers. Nothing in the
  script computes with them.
- `CascadingFilter` (`cascade.dfy`): the five stages as a left fold over
  stage descriptors `(column, selection)`.
- `LongFormat` (`melt.dfy`): `pd.melt` with its year-major order.
- `HoverLabels` (`hover_label.dfy`): `create_hover_label` as written, and as
  an ordered table of rules.
- `Dashboard` (`dashboard.dfy`): the page for a table and five selections.
  - A pure function, `PageOf`.
  - The script itself as imperative Dafny:
    - `FilterStep` and `FilterSteps` rebind `dfFiltered` five times.
    - The class `MeltedFrame` gains its `Hover_Label` column in place.
    - The class `SummaryFrame` has its index reassigned in place.
    - `Render` is proved equal to `PageOf`.

The script raises an exception when the new index has the wrong length.
The model returns `IndexLengthMismatch(expected, given)` instead. The chart is
already drawn by then (line 107 comes before line 111), so the model keeps the
chart next to the failed summary.

Three behaviours of the code are easy to misread:

- **Melt order.** `pd.melt` produces all rows of the first year column, then
  all rows of the next, and so on. It is year-major, not row-major.
  `LongFormat.MeltShape` states the position i·N + j.
- **Stale selections.** A selected value that no retained row carries is
  harmless only next to another selected value that matches
  (`CascadingFilter.AbsentValuesAreInert`). A non-empty selection that
  matches nothing keeps no row at all
  (`CascadingFilter.OnlyAbsentValuesKeepNothing`).
- **Summary rows.** The summary is not "one row per distinct label". It has
  one row per filtered row. The distinct labels become its index, so the
  assignment succeeds exactly when no two filtered rows share a label
  (`Dashboard.SummaryIffDistinctLabels`). Two rows with different categories
  can share a label: (A, B, B, C, D) and (A, B, C, D, D) both give
  "A, B, C, D". With those two rows filtered, the assignment fails with two
  rows and one label (`Dashboard.CollidingLabelsBreakSummary`).

A hover label depends only on the five category fields: `HoverLabel` takes a
`Categories` value and nothing else. So rows with equal categories get equal
labels by construction.

## Model

| member | source | states |
|---|---|---|
| Seqs.Retain | app/app.py:22 | a boolean-mask selection keeps at most the rows it had, and a value occurs in the result exactly when it occurs in the input and the mask holds for it |
| Seqs.RetainCounts | app/app.py:22 | the selection keeps each admitted row as often as it occurred and drops every other row entirely |
| Seqs.RetainIsSubsequence | app/app.py:22 | the selection keeps the rows in their original relative order |
| Seqs.RetainRetain | app/app.py:30-31 | two selections in a row equal one selection by the conjunction of their masks |
| Seqs.RetainStronger | app/app.py:30-31 | selecting by a stronger mask keeps a subsequence of what a weaker mask keeps |
| Seqs.Unique | app/app.py:17 | `unique()` has no duplicates and holds exactly the values of its input |
| Seqs.UniqueInFirstAppearanceOrder | app/app.py:17 | the distinct values come out ordered by the position where each first appears |
| Seqs.UniqueIsSubsequence | app/app.py:17 | the distinct values keep the input's relative order |
| Seqs.UniqueAppendSeen | app/app.py:111 | appending values that already occurred leaves `unique()` unchanged |
| Seqs.UniqueLengthIffDistinct | app/app.py:111 | `unique()` keeps as many values as its input exactly when no value repeats, and is then the input itself |
| CascadingFilter.Stages | app/app.py:16-52 | the five stages in the script's order, Produktgruppe first, each with its input's selection; properties through the lemmas below |
| CascadingFilter.IsIn | app/app.py:22 | the `isin` mask of a stage: the row's value in the stage's column is one of the selected values |
| CascadingFilter.Admits | app/app.py:21-24 | whether a row survives a stage: the selection is empty or holds the row's value |
| CascadingFilter.ApplyStage | app/app.py:21-24 | one stage: the `isin` selection when something is selected, the rows unchanged otherwise; its promises are in ApplyStageKeepsAdmittedRows |
| CascadingFilter.Options | app/app.py:27 | the options of a stage have no duplicates and are exactly the values its column takes among the retained rows (each of lines 17, 27, 34, 41, 48) |
| CascadingFilter.OptionsInFirstAppearanceOrder | app/app.py:17 | the options appear in the order their first row appears |
| CascadingFilter.ApplyStageKeepsAdmittedRows | app/app.py:21-24 | an empty selection leaves the rows unchanged; a stage keeps, in order and with multiplicity, exactly the rows whose value is selected, and never more rows than it had |
| CascadingFilter.AbsentValuesAreInert | app/app.py:30-31 | selected values that no retained row carries change nothing when a matching value is selected with them |
| CascadingFilter.OnlyAbsentValuesKeepNothing | app/app.py:30-31 | a non-empty selection that no retained row matches keeps no row |
| CascadingFilter.Cascade | app/app.py:17-52 | the fold yields one option list per stage and never more rows than it started with |
| CascadingFilter.CascadeUnrolled | app/app.py:17-52 | given the rows after each stage, the fold's option lists are read off the rows before each stage and its result is the rows after the last |
| CascadingFilter.CascadeOptionAt | app/app.py:27 | the options of stage k are `unique()` of its column over the rows the stages before it keep (each of lines 17, 27, 34, 41, 48) |
| CascadingFilter.CascadeKeepsRowsAdmittedByAllStages | app/app.py:21-52 | the rows kept are exactly the input rows that pass every stage, in their original order |
| CascadingFilter.CascadeKeepsOrder | app/app.py:21-52 | the rows kept are a subsequence of the table |
| CascadingFilter.EmptySelectionsKeepAllRows | app/app.py:21-52 | with every selection empty the fold keeps the whole table |
| CascadingFilter.NoSelectionsKeepFullTable | app/app.py:21-52 | with all five inputs empty the filtered rows are the full table |
| CascadingFilter.OptionsDependOnEarlierStages | app/app.py:17-48 | a stage's option list is fixed by the stages before it and its own column |
| CascadingFilter.LaterSelectionsDoNotChangeOptions | app/app.py:17-48 | changing the selection of an input, or of any later one, does not change the options that input offers |
| CascadingFilter.StrongerStagesKeepFewerRows | app/app.py:21-52 | adding selections to stages that had none keeps a subsequence of the rows, so never more rows |
| CascadingFilter.MoreSelectionsKeepFewerRows | app/app.py:21-52 | the same for the five sidebar inputs: selecting values at more levels never adds a row |
| CascadingFilter.CascadeOverNoRows | app/app.py:17-52 | filtering an empty table offers no options and keeps no row |
| CascadingFilter.UnmatchedProduktgruppeEmptiesEverything | app/app.py:21-22 | a Produktgruppe selection that matches no row empties the table and the option lists of all four later inputs |
| LongFormat.Cell | app/app.py:67-68 | the long row of one wide row and one year column: the five category fields, the year label from `value_vars` and that column's value |
| LongFormat.MeltColumn | app/app.py:67-68 | the long rows one year column contributes, one per wide row, in row order |
| LongFormat.MeltFrom | app/app.py:67-68 | the blocks of year columns i and after, concatenated in `value_vars` order |
| LongFormat.Melt | app/app.py:66-68 | `pd.melt` of the wide rows over all eleven year columns; its length and element order are proved in MeltLength and MeltShape |
| LongFormat.MeltFromAt | app/app.py:67-68 | the long row after i - c whole year blocks and then j rows is row j melted for year column i |
| LongFormat.MeltLength | app/app.py:67-68 | melting N rows gives 11·N long rows |
| LongFormat.MeltShape | app/app.py:66-68 | long row i·N + j carries row j's categories unchanged, the label of year column i and row j's value in that column |
| HoverLabels.HoverLabel | app/app.py:71-79 | `create_hover_label` branch by branch; HoverLabelFollowsPrecedence relates it to the rule table |
| HoverLabels.FirstMatch | app/app.py:72-78 | the position of the first rule that applies: every earlier rule fails |
| HoverLabels.Winner | app/app.py:72-79 | the deciding rule applies to the row and is one of the four rules |
| HoverLabels.HoverLabelFollowsPrecedence | app/app.py:71-79 | the label is the fields of the first applicable rule joined with ", ", and every rule ahead of it fails |
| HoverLabels.LabelExamples | app/app.py:72-79 | (A, B, B, C, D) gives "A, B, C, D"; five distinct fields give "A, B, C, D, E" |
| HoverLabels.SplitJoin | app/app.py:73-79 | joining comma-free fields with ", " loses nothing: splitting gives them back |
| HoverLabels.LabelGivesBackFields | app/app.py:71-79 | when no field holds a comma, the label determines the fields the winning rule chose |
| Dashboard.Any | app/app.py:64 | Python's `any` over lists, a list being true when non-empty |
| Dashboard.ShowChart | app/app.py:64 | the chart guard `not any([...]) == False`, parsed as `not (any([...]) == False)` |
| Dashboard.AnyIffSomeNonEmpty | app/app.py:64 | Python's `any` over the selection lists is true exactly when some list is non-empty |
| Dashboard.ShowChartIffSomeSelection | app/app.py:64 | `not any(...) == False` holds exactly when some input has a selected value, that is, unless all five are empty |
| Dashboard.RowLabels | app/app.py:71-81 | the hover label of each filtered row, in row order, one per row |
| Dashboard.LabelColumn | app/app.py:81 | the `Hover_Label` column: one label per long row, in table order |
| Dashboard.LabelsOfMeltFromAreRowLabels | app/app.py:81 | every hover label of the long table is the label of some filtered row |
| Dashboard.ChartLabelAt | app/app.py:81 | the hover label at position i·N + j of the long table is row j's label |
| Dashboard.MeltLabelsUnique | app/app.py:111 | the distinct hover labels of the long table are the distinct labels of the filtered rows, in row order |
| Dashboard.ChartOf | app/app.py:65-111 | the chart branch: the melted rows, their label column and the summary indexed by the distinct labels; SummaryIffDistinctLabels states when the summary exists |
| Dashboard.PageOf | app/app.py:16-119 | one run's page: the five option lists, and the chart branch exactly when ShowChart holds, the placeholder otherwise |
| Dashboard.NoSelectionsShowPlaceholder | app/app.py:64 | with all five inputs empty the page shows the placeholder, not the chart, and the filtered rows are the full table |
| Dashboard.SummaryOf | app/app.py:110-111 | assigning an index to the summary succeeds exactly when it has one entry per row; otherwise it fails with both lengths |
| Dashboard.SummaryIffDistinctLabels | app/app.py:110-111 | the summary table appears exactly when no two filtered rows share a label; row k then is labelled with row k's label and shows its two year values and percentage change; otherwise there are fewer labels than rows |
| Dashboard.CollidingLabelsBreakSummary | app/app.py:111 | two rows (A, B, B, C, D) and (A, B, C, D, D) give one chart line and a failed index assignment: two rows, one label |
| Dashboard.MeltedFrame.constructor | app/app.py:67-68 | the melted frame starts without a hover-label column |
| Dashboard.MeltedFrame.AddHoverLabel | app/app.py:81 | the frame gains the column of each long row's label and keeps its rows |
| Dashboard.SummaryFrame.constructor | app/app.py:110 | the summary frame holds the filtered rows' Ist 2018, Ist 2023 and percentage-change columns |
| Dashboard.SummaryFrame.SetIndex | app/app.py:111 | the new index is accepted exactly when it has one label per row; a rejected one leaves the frame unchanged |
| Dashboard.FilterStep | app/app.py:27-31 | one step reads the input's options off the retained rows and keeps the admitted rows |
| Dashboard.FilterSteps | app/app.py:17-52 | the five steps, rebinding `dfFiltered`, compute exactly the fold's option lists and rows |
| Dashboard.ChartSteps | app/app.py:67-111 | melting, adding the label column and indexing the summary produce the chart branch of the page |
| Dashboard.Render | app/app.py:16-119 | one run of the script produces the page the pure model describes |

## Left out

- Reading the CSV file (line 8). The table is a parameter. A missing file or column is not modelled.
- Page setup, title, sidebar header and placeholder text (lines 5, 11, 14, 119). These are display calls.
- The multiselect widgets (lines 18, 28, 35, 42, 49). The five selections are parameters. Streamlit's own handling of a kept selection that is no longer among the options is not modelled: the model accepts any selection list.
- The "Unselect All" button and `st.experimental_rerun` (lines 54-61). Lines 56-60 only rebind the script's local names and line 61 then restarts the run. The multiselects have no key and nothing writes widget state, so the next run reads the same selections: the button clears nothing. Widget state and reruns belong to Streamlit and are not modelled.
- Plotly figure construction, layout, traces and display (lines 84-107). The model stops at the data the chart is drawn from: the long rows and their `Hover_Label` column.
- `st.table` (line 116). The page value stands for what is displayed.
- The `astype(int)` coercion of the percentage-change column (line 112). Values are integers in the model, so the coercion is the identity. Truncation of floats is not modelled.
- Missing values (NaN) in category columns. Labels compare fields as plain strings. pandas compares NaN as unequal to itself and prints it as "nan".
- `DataFrame.apply` on a frame with no rows (line 81). pandas infers a reduction by calling the function once on a row of missing values, and returns an empty column. The model gives the same empty label column, without that trial call.
- The original integer index of `df_filtered` (line 110). `SummaryFrame.index` is `None` until a label index is assigned.
- The exception raised on an index length mismatch. It is modelled as the outcome `IndexLengthMismatch`.
