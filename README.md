# Cohort analysis pipeline, modelled in Dafny

The repository's one function, `run_flexible_cohort_analysis`, takes a dictionary from
source names (for example "Android", "iOS") to tables of weekly acquisition cohorts and:

1. copies every table and stamps each row with the dictionary key in the `OS` column;
2. returns the text "Error: No dataframes provided." when the dictionary is empty;
3. concatenates the tagged tables (the union of their columns, missing cells where a
   table lacks a column);
4. sorts the rows by (`Acquisition Week`, `OS`);
5. numbers the distinct acquisition dates of all sources together, in ascending order,
   "Week 1", "Week 2", ..., and writes each row's label into `Week Number`;
6. keeps the columns of a fixed allow-list that are present, in allow-list order;
7. melts the checkpoint columns `Week 8` ... `Week 40` that are present into
   (`OS`, `Cohort_Period`, `Value (€)`) records for a box plot, or prints a warning when
   there are none; and returns the projected table.

The model has four modules:

- `Frame` (frame.dfy): cell values, rows as maps from column name to value, tables as a
  column list plus rows; assigning a column, concatenation, the order-keeping column
  filter, column selection and melt.
- `Ordering` (ordering.dfy): the order on strings used for the `OS` sort key.
- `WeekIndex` (weeks.dfy): the ascending list of distinct dates, the date-to-week map,
  the "Week k" labels, and a reference definition of a date's rank (one more than the
  number of distinct dates before it) against which the map is proved.
- `CohortAnalysis` (cohort.dfy): the constants of the function, tagging (a loop
  method over the dictionary entries), the sort, the Week Number assignment (a loop
  method over the rows) and the whole pipeline as a method whose contract states the
  outcome for each kind of input.

The dictionary is a sequence of (name, table) entries in iteration order. Tables are
values, so the copy the source takes before tagging is implicit and the caller's tables
are never changed. Dates are whole numbers (`Date(day)`); metric cells are opaque
numbers or strings, because no arithmetic is done on them.

## Model

| member | source | states |
|---|---|---|
| CohortAnalysis.Tag | main-code.py:23-27 | the copy gains or keeps the `OS` column in place, every row's `OS` is the source name whatever it held before, every other cell is unchanged, and well-formedness is kept |
| CohortAnalysis.TagSources | main-code.py:18-29 | the loop yields one tagged copy per dictionary entry, in iteration order |
| Frame.Assign | main-code.py:27 | assigning a column writes the given value in every row, leaves each row's other cells alone, and keeps the column list's order |
| Frame.WithColumn | main-code.py:27 | the column list after an assignment is the old list, plus the column at the end only when it was new; no column repeats |
| Frame.Concat | main-code.py:35 | the concatenation has no repeated column and one row per input row; `Frame.ConcatLayout` states its columns, size and row layout |
| Frame.UnionColumnsMember | main-code.py:35 | a column is in the concatenation exactly when some input table has it |
| Frame.ConcatLayout | main-code.py:35 | the concatenation is well formed, has as many rows as its inputs together, and row i of input k sits after the earlier inputs' rows, holding that row's cells and missing cells for the columns its table lacks |
| CohortAnalysis.CombinedSize | main-code.py:35 | the combined table has one row per input row |
| CohortAnalysis.CombinedColumns | main-code.py:21-35 | the combined columns are the input columns plus `OS` when there is at least one input |
| CohortAnalysis.CombinedRowOrigin | main-code.py:21-35 | every combined row comes from one row of one input: its `OS` is that input's dictionary key, its other cells are that row's cells or missing |
| CohortAnalysis.CombinedKeyed | main-code.py:35-38 | when some table has `Acquisition Week` and the input rows are dated, every combined row has a date and an `OS` label to sort on |
| Ordering.StrLeTotal | main-code.py:38 | any two labels are comparable in the string order |
| Ordering.StrLeAntisymmetric | main-code.py:38 | two labels each at most the other are equal |
| Ordering.StrLeTransitive | main-code.py:38 | the string order is transitive |
| CohortAnalysis.KeyLeTransitive | main-code.py:38 | the (date, label) order is transitive |
| CohortAnalysis.SortByKey | main-code.py:38 | the sorted rows are in ascending (date, label) order and are a permutation of the combined rows |
| WeekIndex.SortedUnique | main-code.py:41 | the distinct dates come out strictly ascending and are exactly the dates that occur |
| WeekIndex.AscendingListUnique | main-code.py:41 | only one strictly ascending list holds a given set of dates, so the distinct-date list depends on the set alone |
| WeekIndex.DateToWeekMap | main-code.py:41-42 | the date-to-week map has exactly the dates that occur as keys; `WeekIndex.DateToWeekMapRanks`, `RanksDense` and `DateToWeekMapBijective` state its keys and labels |
| WeekIndex.WeekLabel | main-code.py:42 | the label is "Week " followed by plain decimal digits, with no padding, that read back as k; `WeekIndex.ParseDecimalInverse` and `WeekLabelInjective` state that it names k one to one |
| WeekIndex.Decimal | main-code.py:42 | a rank is written as decimal digits with no sign and no leading zero |
| WeekIndex.ParseDecimalInverse | main-code.py:42 | reading the digits back gives the rank |
| WeekIndex.WeekLabelInjective | main-code.py:42 | two "Week k" labels are equal exactly when their ranks are |
| WeekIndex.EnumerateAt | main-code.py:42 | numbering an ascending list sends its entry at position i to "Week i+1" |
| WeekIndex.DateToWeekMapRanks | main-code.py:41-42 | the map's keys are exactly the distinct dates and each date's label carries its rank among them |
| WeekIndex.RankStrictlyIncreasing | main-code.py:41-42 | an earlier date has a strictly smaller rank |
| WeekIndex.RanksDense | main-code.py:41-42 | with N distinct dates the ranks are exactly 1 .. N |
| WeekIndex.DateToWeekMapBijective | main-code.py:41-42 | the map is one to one and its labels are exactly "Week 1" .. "Week N" |
| WeekIndex.DateToWeekMapOfSameDates | main-code.py:41-42 | the map depends only on which dates occur, not on their order or repeats |
| CohortAnalysis.AssignWeekNumbers | main-code.py:44 | every row gets its date's label from the map (missing when the map lacks the date), nothing else in the row changes, and rows with the same date get the same Week Number |
| CohortAnalysis.SortedWeekCells | main-code.py:41-44 | the map built from the sorted rows gives each row the label of its date's rank among all combined dates |
| Frame.Filter | main-code.py:60-67 | the order-keeping column filter used for `final_cols` (line 60) and `cols_to_melt` (line 67): no longer than the list filtered and keeping only present entries; `Frame.FilterMembers` and `FilterKeepsOrder` state exactly what it keeps and in which order |
| Frame.FilterMembers | main-code.py:60 | a column survives the filter exactly when it is in the allow-list and present, and none repeats |
| Frame.FilterKeepsOrder | main-code.py:60 | the filter's result is the allow-list read at strictly increasing positions |
| CohortAnalysis.FinalColumns | main-code.py:53-60 | the kept columns are the allow-list entries present, without repeats, led by `Acquisition Week`, `Week Number`, `OS` when they are present |
| Frame.Select | main-code.py:61 | the projection has exactly the chosen columns, in that order, the same number of rows, and each kept cell of each row |
| CohortAnalysis.CheckpointsKept | main-code.py:60-67 | the checkpoint columns left after the projection are exactly those present before it |
| Frame.Melt | main-code.py:71-76 | the long table has the columns `OS`, `Cohort_Period`, `Value (€)` (as passed) and rows x value-columns records; `Frame.MeltLayout` states its columns, size and record layout |
| Frame.MeltLayout | main-code.py:71-76 | the long table has rows x columns records, grouped column by column, each holding the row's `OS`, the column name and the row's cell |
| CohortAnalysis.ReturnedColumns | main-code.py:53-67 | the returned columns are the allow-list filtered by the input columns plus `OS` and `Week Number`, and the checkpoints to melt are those of the inputs |
| CohortAnalysis.ReturnedRows | main-code.py:35-61 | the returned rows number the input rows, are sorted, are a permutation of the finished combined rows, carry week labels by rank, and are labelled with source names |
| CohortAnalysis.RunFlexibleCohortAnalysis | main-code.py:4-96 | the empty dictionary returns the error text and no chart; a key error exactly when no input has `Acquisition Week`; otherwise the projected table with the properties above, and the long table exactly when some checkpoint column is present |

## Left out

- The box plot (main-code.py:80-92) is not modelled: the method returns, as `chart`, the long table it would be drawn from; `None` stands for the branch that prints the warning (main-code.py:94), and the printing itself is left out.
- CohortAnalysis.RunFlexibleCohortAnalysis: requires every input table to have distinct column names (pandas allows repeated column labels) and, whenever some table has the `Acquisition Week` column, every row to carry a date there; how pandas treats missing dates in `unique`, `sorted` and `map` is not modelled. Tables without the column are accepted with any rows, and the sort's KeyError (main-code.py:38) is modelled for them.
- CohortAnalysis.SortByKey: says nothing about the order of rows whose date and label are both equal; the library's tie-breaking is not specified by the source.
- The pandas row index (left unreset after sorting) and type coercion during concatenation are not modelled; cells keep the value they had.
- Metric values are opaque; no floating-point arithmetic is modelled because the function does none.
- An empty dictionary returns the string "Error: No dataframes provided." (main-code.py:32-33); it does not raise. Allow-list columns that are absent are dropped silently (main-code.py:60), with no report of which were missing.
- Calling the function on subsets of the sources and concatenating the results does not reproduce one call's Week Number labels, because each call ranks only the dates it is given; no such merge property is claimed. `WeekIndex.DateToWeekMapOfSameDates` proves instead that the map depends only on the set of dates.
