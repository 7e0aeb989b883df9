# AQI dashboard: filter and aggregate pipeline

A Dafny model of the data logic inside `main.py`, a Streamlit dashboard for Air
Quality Index readings. Each reading is a record (Date, City, optional
Pollutant, integer AQI). The dashboard does four things with these records:

- It classifies an AQI value into one of the six US EPA categories
  (40 CFR Part 58, Appendix G), each shown with a fixed colour.
- It validates an uploaded table. The only error it reports is a missing
  required column (Date, City or AQI). It also re-parses the Date column.
- It narrows the frame with four sidebar masks: date range, cities,
  pollutants and inclusive AQI bounds. Each mask is skipped when its widget
  imposes nothing.
- It reduces the filtered frame to summary cards and chart tables:
  - the current AQI of the first selected city;
  - the highest and lowest reading, credited to the first row that holds it;
  - the city with the largest mean;
  - per-key means for the trend, comparison and calendar charts;
  - a per-city mean/min/max table.

Modules, one per part of the pipeline:

| file | module | models |
|---|---|---|
| `Wrappers.dfy` | `Wrappers` | `Option` / `Result` |
| `AqiCategory.dfy` | `AqiCategory` | `get_aqi_category` |
| `Ingest.dfy` | `Ingest` | `preprocess_data` |
| `Records.dfy` | `Records` | records, datasets, boolean-mask selection `df[mask]` |
| `Stats.dfy` | `Stats` | `min`, `max`, `mean`, Python `int()` of a float |
| `Filters.dfy` | `Filters` | the sidebar filter stage |
| `Groups.dfy` | `Groups` | `groupby(...)['AQI'].mean()`, the per-city table, `idxmax` |
| `Kpis.dfy` | `Kpis` | the four summary cards |

Conventions:

- Dates are day ordinals (`int`).
- A mean is the exact quotient `Sum / count` as a `real`. Python's `int(...)`
  of that mean is truncation toward zero (`Stats.Trunc`), written out because
  Dafny's integer division is Euclidean.
- `pandas.groupby` lists groups in ascending key order. For city groups this
  order is Python's string order (code-point lexicographic, prefix first),
  defined as `Groups.Below`.
- The widget outputs are plain inputs:
  - `Filters.Criteria` holds the date picker's value (a pair or fewer dates),
    the city and pollutant selections, and the AQI slider's ends;
  - the card and chart functions take the city and pollutant selections;
  - the calendar takes the chosen city.

The filter stage is modelled twice and proved equal:

- `Filters.ApplySidebarFilters` rebinds the frame step by step, as
  `main.py:185-225` does.
- `Filters.Filtered` selects the rows that pass all four masks.

Two details of the code that the model keeps as written:

- The category bands include their upper bound (`aqi_value <= 50`, ... at
  main.py:68-77), so 50 is Good and 51 is Moderate.
- The current-AQI card is computed only for `selected_cities[0]`
  (main.py:251), not for every selected city.

## Model

| member | source | states |
|---|---|---|
| `AqiCategory.BandOf` | main.py:66-79 | the value lies above the previous band's upper bound and at or under its own (50/100/150/200/300, inclusive); above 300 is Hazardous; negative values are Good |
| `AqiCategory.Category` | main.py:66-79 | the result is one of the six fixed (label, colour) pairs, namely the one at the band's rank |
| `AqiCategory.RankCountsBoundsExceeded` | main.py:68-79 | the band's rank equals the number of upper bounds the value exceeds (reference reading of the threshold table) |
| `AqiCategory.CountBelowMonotone` | main.py:68-77 | the number of exceeded bounds never decreases as the value grows |
| `AqiCategory.BandMonotone` | main.py:66-79 | v <= w implies the band of v is no more severe than the band of w |
| `AqiCategory.CategoryExactlyOne` | main.py:66-79 | every value maps to some palette entry, the six labels are distinct, and equal labels always come with equal colours |
| `Ingest.Absent` | main.py:139 | the kept names are exactly the required names absent from the columns |
| `Ingest.MissingColumns` | main.py:138-139 | the missing list is Date, City, AQI in that order, each present iff the column is absent |
| `Ingest.ParseDate` | main.py:135 | a parsed cell is a date, and an already parsed date is kept |
| `Ingest.ParseRow` | main.py:135 | only a row's Date cell changes, and it becomes the parse of the old cell |
| `Ingest.ParseDates` | main.py:134-135 | columns and row count are kept; with a Date column each Date cell becomes the parse of the old cell and nothing else changes, without one nothing changes |
| `Ingest.Preprocess` | main.py:131-145 | fails, with the missing list, iff a required column is absent; otherwise returns the same columns and rows, each Date cell replaced by the parse of the old one and nothing else changed |
| `Ingest.PreprocessIdempotent` | main.py:131-145 | preprocessing an accepted table again returns the same result |
| `Records.Select` | main.py:187 | a selection is no longer than its input and holds exactly the input rows the mask accepts |
| `Records.KeptIndices` | main.py:187 | the kept positions increase strictly and are exactly the accepted positions |
| `Records.SelectIsSubsequence` | main.py:185-225 | a selection lists the input rows at the kept positions, in order: it is the order-preserving subsequence of accepted rows |
| `Records.SelectCounts` | main.py:187 | each accepted row is kept as many times as the input holds it; rejected rows are dropped |
| `Records.SelectAppend` | main.py:187 | selecting from a concatenation is the concatenation of the selections |
| `Records.SelectSelect` | main.py:187-200 | two masks applied in turn equal one mask by their conjunction |
| `Records.SelectBoth` | main.py:445-458 | two masks applied in turn equal one selection by any mask accepting exactly the rows both accept |
| `Filters.ApplySidebarFilters` | main.py:185-225 | the step-by-step rebinding of the frame yields exactly the rows that pass all four masks, in input order |
| `Filters.Filtered` | main.py:185-225 | `df_filtered` holds exactly the dataset's rows that pass all four masks, each as often as the dataset holds it |
| `Filters.InactiveStageIsIdentity` | main.py:185-212 | the date mask is the identity unless the picker holds a pair; the city mask is the identity on an empty selection; the pollutant mask is the identity without the column or on an empty selection |
| `Filters.PipelineIsConjunction` | main.py:185-225 | running any sequence of stages keeps exactly the rows that pass every stage named in it |
| `Filters.PipelineOrderIrrelevant` | main.py:187-225 | two stage sequences that name the same stages give the same frame, whatever the order or repetition (commutative and idempotent) |
| `Filters.SidebarOrderGivesFiltered` | main.py:185-225 | the sidebar's order date, city, pollutant, AQI yields the conjunction filter |
| `Filters.FilteredIdempotent` | main.py:185-225 | filtering the filtered frame again with the same criteria changes nothing |
| `Filters.FilteredIsSubsequence` | main.py:185-225 | the filtered frame is the rows at the strictly increasing positions of exactly the matching rows |
| `Stats.MinOf` | main.py:281 | the minimum bounds every entry from below and is an entry |
| `Stats.MaxOf` | main.py:266 | the maximum bounds every entry from above and is an entry |
| `Stats.Trunc` | main.py:253 | `int()` truncates toward zero: for x >= 0, r <= x < r + 1; for x < 0, r - 1 < x <= r |
| `Stats.Mean` | main.py:253 | the mean is the value that, taken once per entry, adds up to the column's sum |
| `Stats.MeanWithin` | main.py:253 | a mean lies between the column's minimum and maximum |
| `Stats.TruncMeanWithin` | main.py:253 | the truncated mean lies between the column's minimum and maximum |
| `Groups.Below` | main.py:296 | Python's `<` on strings (code-point lexicographic, prefix first), which orders groupby's city keys; no string precedes itself |
| `Groups.BelowTotal` | main.py:296 | Python string order is total: two strings are equal or one precedes the other |
| `Groups.BelowTransitive` | main.py:296 | Python string order is transitive |
| `Groups.Insert` | main.py:296 | adding a key to an ascending key list keeps it ascending and adds exactly that key |
| `Groups.Cities` | main.py:296 | the city groups are the distinct cities of the frame, in strictly ascending string order |
| `Groups.RowsOf` | main.py:445 | the rows of a city are exactly the frame's rows with that city, each with its multiplicity in the frame |
| `Groups.StatsOf` | main.py:425 | one row of the per-city table: labelled with its city, its mean is the mean of exactly that city's readings and lies between its min and max |
| `Groups.ReadingsBetween` | main.py:425 | every reading of a non-empty list of rows lies between the column's min and max, and both are readings of some row |
| `Groups.StatsOfBounds` | main.py:425 | a city's min and max bound all of its readings and are attained |
| `Groups.CityTable` | main.py:425 | one row per group key, in the ascending order of the distinct cities |
| `Groups.CityTableSpec` | main.py:425 | one row per distinct city, in ascending city order; each row's mean is the mean of exactly that city's readings, its min and max bound those readings and are attained, and the mean lies between them |
| `Groups.CityTableIsGroupMeans` | main.py:425 | the per-city table's means agree with the generic group-by on the city, whose keys are the frame's cities |
| `Groups.MostPolluted` | main.py:297 | `idxmax` picks a row with the largest mean, and every earlier row has a strictly smaller mean |
| `Groups.GroupMean` | main.py:321 | the group mean lies between the smallest and largest reading with that key |
| `Groups.GroupNonEmpty` | main.py:321 | every key present in the frame has at least one row |
| `Groups.KeysOfSelection` | main.py:321 | the keys of a selection are the keys of exactly the rows the mask keeps |
| `Groups.GroupOfSelection` | main.py:318-321 | group `k` of a selection is the selection, from the whole frame, of the kept rows whose key is `k` |
| `Groups.GroupMeans` | main.py:335 | one entry per distinct key, equal to the mean over exactly the rows with that key and lying between their smallest and largest reading |
| `Groups.FocusSelection` | main.py:318-320 | pre-selecting the first chosen pollutant (only when the selection is in force) keeps exactly the rows of the focus pollutant |
| `Groups.TrendSeries` | main.py:318-335 | a (date, city) pair is a key iff some row has it, among rows of the first selected pollutant when the pollutant selection is in force; each point is the mean of exactly those rows of its date and city |
| `Groups.PollutantBars` | main.py:380-381 | one bar per (city, pollutant) pair present among the selected pollutants' rows, each the mean of exactly that city's rows of that pollutant |
| `Groups.ComparisonBars` | main.py:378-399 | bars are per (city, pollutant) over the selected pollutants iff the selection is in force, each the mean of exactly that pair's rows; otherwise they are the per-city table |
| `Groups.CalendarSeries` | main.py:445-459 | a calendar exists iff the city has rows; its days are exactly those with a reading of that city, of the first selected pollutant when that selection is in force; each cell is the mean of exactly those rows of that day |
| `Groups.ComparisonReselectionIsIdentity` | main.py:380 | on the filtered frame, re-selecting the chosen pollutants removes no row |
| `Kpis.FirstWithAqi` | main.py:267 | the position holds the value and no earlier row does |
| `Kpis.Highest` | main.py:266-268 | the highest reading bounds every row; its city and date are those of the first row with that reading |
| `Kpis.Lowest` | main.py:281-283 | the lowest reading bounds every row from below; its city and date are those of the first row with that reading |
| `Kpis.LatestDate` | main.py:243 | the latest date is some row's date and no row is later |
| `Kpis.LatestRowsOf` | main.py:244-251 | exactly the rows of the city dated on the frame's latest date, each with its multiplicity in the frame |
| `Kpis.CurrentAqi` | main.py:249-253 | present iff the city has a reading on the latest date; then it is the truncated mean of those readings and lies between their smallest and largest |
| `Kpis.KpiCards` | main.py:241-298 | the cards exist iff the frame is non-empty and a city is selected; they show the current AQI of the first selected city, the highest and lowest reading, and the `idxmax` row of the per-city table |
| `Kpis.CityTableNonEmpty` | main.py:296 | a non-empty frame has a non-empty per-city table |
| `Kpis.IdxmaxRow` | main.py:296-297 | the `idxmax` row of the per-city table is the statistics row of a city of the frame, and every city before it in string order lies before it in the table |
| `Kpis.MostPollutedIsFirstLargestMean` | main.py:296-298 | the most polluted city occurs in the frame; its mean is at least every city's mean, and every city before it in string order has a strictly smaller mean |
| `Kpis.CardsWithinExtremes` | main.py:241-298 | lowest <= highest, and the current AQI and the most polluted city's average lie between them |

## Left out

- Page layout, CSS, tabs, info messages, card HTML and the footer (main.py:10-63, 148-183, 238-527). These are presentation. The widget outputs enter the model as inputs.
- Widget defaults and ranges (main.py:175-183, 192-197, 204-209, 215-223). These include the sorted city list, the default selections and the slider's limits. They shape what a user may pick but not what the filters do.
- Plotly and Altair chart construction, threshold lines and colour scales (main.py:323-366, 384-421, 468-493). These belong to external rendering libraries.
- CSV reading, the download button and the exception handler around loading (main.py:156-167, 228-235). These are I/O. The date parser `pd.to_datetime` is the parameter `toDay` of `Ingest.Preprocess`. It is total, so parse failures are not modelled.
- `generate_sample_data` (main.py:81-129). It draws from an unseeded random source and uses float factors.
- The standard deviation column and `round(1)` of the statistics table (main.py:425-427). They need floating point and square roots.
- The year/month/day/month-name split of the calendar (main.py:462-465). This is library date handling.
- The static category description table (main.py:497-515). It is display text.
- Typing the validated table into records. `Ingest` works on raw cells. The filters and aggregates work on typed `Records.Record`s. Pandas dtype inference in between is not modelled.
- Missing values (NaN) are not modelled. In pandas, `mean`, `min` and `max` skip them. The masks drop a row whose compared value is NaN: the date and AQI comparisons (main.py:187, 225) and `isin` (main.py:200, 380) are False on it. `groupby` drops rows whose key is NaN.
- Floating-point rounding of means is not modelled. Means are exact rationals, so an `int(...)` of a float mean that rounds across an integer boundary is not captured.
- Time of day is not modelled. Dates are day ordinals. The source compares `.dt.date` in the range filter and whole timestamps in the latest-date and group-by steps. The sample timestamps (main.py:87-89) all carry the same time of day, the moment of generation, so there the two comparisons agree. An uploaded file whose readings differ in time within a day is not modelled: there `latest_date` (main.py:243-244) picks one instant, and the group-bys (main.py:321, 335, 459) group by instant rather than by day.
- `preprocess_data` overwrites the Date column in place before checking the columns. On failure the run stops. On success the caller rebinds `df` to the result. So the model returns the new table and does not model the in-place update.
- Groups.GroupMeans: returns a map, so the ascending row order of the (date, city), (city, pollutant) and date groupings (main.py:321, 335, 381, 459) is not stated. Only the per-city table's order is, because `idxmax` depends on it.
- The AQI column is taken to be integer, as the sample data makes it (main.py:120). With a float column, `int(df_filtered['AQI'].max())` (main.py:266-267) may equal no reading, and `.values[0]` would then raise; that failure is not modelled.
