# SALVE dashboard core in Dafny

This project models the data core of the SALVE epidemiological dashboard
(`dashboard/main.py`). The core has two parts.

- **History simulator** (`simular_dados_clinicas`). It loops over the clinic
  registry in registry order, then over Dengue, Chikungunya and Influenza, then over
  52 weekly dates. Each week appends one row to the history. The previous week's
  count is carried forward, and reset to zero for each new (clinic, disease)
  series. Precipitation and the case count are clamped at zero. Chikungunya
  multiplies its base volume by 0.6 every week.
- **Forecasting engine** (`treinar_e_prever`). It runs once per distinct disease,
  in order of first appearance:
  - it fits a regressor on that disease's rows, using per-disease feature columns;
  - it takes the last row of each clinic in group-by order, perturbs the weather by
    noise, and copies the last recorded count into the previous-count column;
  - it predicts a count and truncates it to an integer;
  - it records a risk-factor table: the feature names relabelled and title-cased,
    next to the importances, sorted from the largest down.

Modules, one file each:

- `Records`: diseases, clinics, rows, `int()` truncation and `max(0, ·)`.
- `Simulator`: the specification functions of the history and the two loop methods
  that build it.
- `Labels`: `str.replace("_", " ")` and `str.title()` on ASCII text.
- `Grouping`: `unique()`, the per-disease filter, and `groupby('clinica_da_familia').last()`.
- `Ranking`: the descending sort of the risk-factor tables.
- `Forecast`: the engine's specification function, its loop method, and its
  properties.
- `Dashboard`: the start-up pipeline `simular_dados_clinicas()` followed by
  `treinar_e_prever(df_historico)`.

Inputs in place of randomness and numerics:

- **Simulator draws.** Every random draw of the simulator is an input. One
  `SeriesDraw` per (clinic, disease) holds the density uniform and, for each of the
  52 weeks, the temperature, precipitation and case-noise draws.
- **Seasonal wave.** `sin(2·π·x/365.25)` is an input function `wave`.
- **Dates.** The weekly dates are week indices. Week `k` falls on day of year
  `7 + 7k`, because the first Sunday on or after 2024-01-01 is 2024-01-07.
- **Regressor.** The fitted regressor is a `Learner`: two functions of the training
  matrix and targets, one giving the prediction for a feature vector and one giving
  the importances.
- **Forecast noise.** The engine's weather noise is a `Noise` input, indexed by
  disease and by the clinic's position in the group-by result.

Everything else is modelled exactly over unbounded reals and integers:

- the case formula, including `28.0 / temp` for Influenza, whose temperature must
  therefore be non-zero;
- the clamps;
- truncation toward zero;
- the 0.6 factor;
- the 5% autocorrelation term.

## Model

| member | source | states |
|---|---|---|
| Records.Trunc | dashboard/main.py:100 | `int()` of a float truncates toward zero: the result is within 1 of the input, on the side of zero |
| Records.ClampTrunc | dashboard/main.py:95 | `max(0, int(x))` is never negative, is within 1 below `x` for `x >= 0`, and is 0 for `x < 1` |
| Records.ClampTruncIsClampFloor | dashboard/main.py:95 | `max(0, int(x))` equals `max(0, floor(x))` for every real `x` |
| Records.Max0 | dashboard/main.py:72 | `max(0, x)` is at least 0 and at least `x`, and is either `x` or 0 |
| Simulator.DayOfYear | dashboard/main.py:57 | the 52 weekly dates fall on days 7 to 364 of their year |
| Simulator.WeekTemperature | dashboard/main.py:71 | the weekly temperature is the uniform draw plus the normal noise, unclamped; its use in every row is stated by `HistoryRowAt` |
| Simulator.WeekPrecipitation | dashboard/main.py:72 | weekly precipitation is never negative; it is the drawn sum, or 0 when that sum is negative |
| Simulator.Seasonal | dashboard/main.py:80-88 | the seasonal factor of Dengue and Chikungunya stays within 0.2 to 1.8, and that of Influenza within 0.1 to 1.9, whenever the wave is a value of a sine |
| Simulator.Climate | dashboard/main.py:83-90 | the Influenza climate factor is the inverse of temperature scaled by 28 (`f · temp = 28`), positive for positive temperatures; the other factor is non-negative for non-negative weather |
| Simulator.CaseFormula | dashboard/main.py:93 | with a non-negative base plus autocorrelation and a non-negative factor product the raw count is at least the noise; with neutral factors it is base plus autocorrelation plus noise |
| Simulator.WeekCases | dashboard/main.py:93-95 | a weekly case count is never negative, whatever the noise |
| Simulator.DensityBase | dashboard/main.py:64 | the density of a series is non-negative for a non-negative draw and risk factor |
| Simulator.InitialBase | dashboard/main.py:66 | the initial base volume is 0.05% of the density draw times the square of the clinic's risk factor, non-negative for a non-negative draw |
| Simulator.BaseAfter | dashboard/main.py:84-85 | the base volume after `k` weeks: `initial · 0.6^k` for Chikungunya, `initial` otherwise; that the loop holds it is stated by `SeriesUpToState` and `BaseAfterStep` |
| Simulator.SeriesUpTo | dashboard/main.py:70-104 | after `k` weeks, the loop has appended exactly `k` rows |
| Simulator.Series | dashboard/main.py:63-104 | the rows of one week loop, one per week; its meaning is stated by `SeriesAt`, and `AppendSeries` is proved to append it |
| Simulator.SeriesStep | dashboard/main.py:97-104 | one week keeps the earlier rows and carries its own count as the next previous count |
| Simulator.SeriesStepBase | dashboard/main.py:84-85 | one week advances the base volume by one step of `BaseAfter` |
| Simulator.BaseAfterStep | dashboard/main.py:84-85 | one more week multiplies the Chikungunya base volume by 0.6 and keeps the others |
| Simulator.SeriesStepRow | dashboard/main.py:70-104 | the row a week appends has that week's index, weather, density, count, and the previous week's count |
| Simulator.SeriesUpToState | dashboard/main.py:66-104 | the loop state carries the count of its last row (0 before the first week) and the base volume `initial · 0.6^k` for Chikungunya, `initial` otherwise |
| Simulator.SeriesUpToRows | dashboard/main.py:66-104 | every row produced so far matches `SeriesRow` for its week |
| Simulator.SeriesRowExtend | dashboard/main.py:97-104 | appending rows never changes an earlier row or its previous-count link |
| Simulator.SeriesAt | dashboard/main.py:64-104 | row `w` of a series: week index `w`, the series' clinic, disease and coordinates, `int(density)`, that week's weather, the previous count (the count of row `w − 1`, or 0 for `w = 0`), and a count computed with base volume `initial · 0.6^(w+1)` for Chikungunya and `initial` otherwise |
| Simulator.ConcatLayout | dashboard/main.py:97 | appending 52-row blocks one after another puts row `w` of block `b` at position `52b + w` |
| Simulator.SeriesOfClinicsLengths | dashboard/main.py:61-64 | every series of every clinic has 52 rows |
| Simulator.SeriesOfClinicsLayout | dashboard/main.py:61-62 | the series come clinic by clinic, and within each clinic in the order Dengue, Chikungunya, Influenza |
| Simulator.History | dashboard/main.py:57-106 | the table `simular_dados_clinicas` returns; its meaning is stated by `HistoryLength`, `HistoryRowAt` and `HistoryNonNegative`, and `SimulateClinics` and `Load` are proved to build it |
| Simulator.HistorySeriesAt | dashboard/main.py:61-97 | position `156·ci + 52·di + w` of the history holds week `w` of the series of clinic `ci` and disease `di` |
| Simulator.HistoryLength | dashboard/main.py:57-62 | the history has exactly clinics × 3 × 52 rows |
| Simulator.HistoryRowAt | dashboard/main.py:61-104 | the history row of clinic `ci`, disease `di`, week `w` has every field `SeriesAt` gives. The density is the same in all 52 rows of a series. The previous count is the count of the row just before it, or 0 at the start of the series |
| Simulator.HistoryNonNegative | dashboard/main.py:72-95 | every history row has a non-negative count and non-negative precipitation |
| Simulator.AppendSeries | dashboard/main.py:63-104 | the week loop appends exactly the 52 rows of the series' specification to the table |
| Simulator.AppendClinic | dashboard/main.py:62-104 | the disease loop of one clinic appends exactly that clinic's three series, in disease order |
| Simulator.SimulateClinics | dashboard/main.py:57-106 | the nested loops build exactly `History`: clinics in registry order, then the three diseases in order, then weeks |
| Labels.ToUpper | dashboard/main.py:146 | upper-casing makes a letter upper-case, keeps it cased, and leaves every other character unchanged |
| Labels.ToLower | dashboard/main.py:146 | lower-casing makes a letter lower-case, keeps it cased, and leaves every other character unchanged |
| Labels.ReplaceUnderscores | dashboard/main.py:146 | `replace("_", " ")` keeps the length and turns each underscore into a space, each other character staying put |
| Labels.TitleFromAt | dashboard/main.py:146 | each title-cased character depends only on itself and on whether the character before it is cased |
| Labels.TitleAt | dashboard/main.py:146 | `title()`: a letter that starts a word becomes upper-case, a letter inside a word lower-case, other characters are unchanged, and each letter stays the same letter |
| Labels.Title | dashboard/main.py:146 | `str.title()` keeps the length; the character-by-character behaviour is stated by `TitleAt` |
| Labels.TitleIdempotent | dashboard/main.py:146 | title-casing twice gives the same text as title-casing once |
| Labels.Label | dashboard/main.py:146 | a label has as many characters as its column name |
| Labels.LabelShape | dashboard/main.py:146 | a label has its column name's length, contains no underscore, has a space exactly where the name has `_` or a space, and is already title-cased |
| Grouping.Unique | dashboard/main.py:113 | `unique()`, folded over the column; its meaning is stated by `UniqueSpec` |
| Grouping.FirstIndex | dashboard/main.py:113 | the first occurrence of a value holds that value, and no earlier position does |
| Grouping.FirstIndexAt | dashboard/main.py:113 | an occurrence with no earlier occurrence is the first one |
| Grouping.UniqueSpec | dashboard/main.py:113 | `unique()` holds exactly the values of the column, each once, in order of first occurrence |
| Grouping.OfDisease | dashboard/main.py:118 | `df[df['doenca'] == d]`, folded over the table; its meaning is stated by `OfDiseaseSpec`, `OfDiseaseConcat` and `OfDiseaseOne` |
| Grouping.OfDiseaseSpec | dashboard/main.py:118 | the filtered rows are exactly the rows of that disease, and there are no more of them than rows |
| Grouping.OfDiseaseConcat | dashboard/main.py:118 | the filter of a table split in two is the filter of the first part followed by that of the second: rows are kept in table order, each as often as it occurs |
| Grouping.OfDiseaseOne | dashboard/main.py:118 | a single row is kept exactly when it is of the chosen disease |
| Grouping.LexLess | dashboard/main.py:134 | Python's string order, by which the group-by sorts its keys; its meaning is stated by `LexIrreflexive`, `LexTransitive` and `LexTotal` |
| Grouping.LexIrreflexive | dashboard/main.py:134 | no clinic name sorts before itself |
| Grouping.LexTransitive | dashboard/main.py:134 | the name order is transitive |
| Grouping.LexTotal | dashboard/main.py:134 | of two different names, one sorts before the other |
| Grouping.LastWith | dashboard/main.py:134 | the last row of a clinic is a row of the table and belongs to that clinic |
| Grouping.InsertOrReplaceMembers | dashboard/main.py:134 | folding one more row into the group-by result adds it, drops only the earlier row of its clinic, and keeps the other clinics |
| Grouping.InsertOrReplaceSpec | dashboard/main.py:134 | folding one more row into a name-sorted group-by result keeps it sorted and keeps the membership facts of `InsertOrReplaceMembers` |
| Grouping.InsertOrReplaceSorted | dashboard/main.py:134 | folding one more row into a name-sorted group-by result keeps it sorted by name |
| Grouping.GroupLast | dashboard/main.py:134 | `groupby('clinica_da_familia').last()`, folded over the rows; its meaning is stated by `GroupLastSpec` |
| Grouping.GroupLastSorted | dashboard/main.py:134 | the group-by result is strictly sorted by clinic name |
| Grouping.SortedDistinct | dashboard/main.py:134 | in a strictly name-sorted list no clinic appears twice |
| Grouping.GroupLastNames | dashboard/main.py:134 | the group-by result has exactly the clinics of its input |
| Grouping.GroupLastLast | dashboard/main.py:134 | each entry of the group-by result is the last row of its clinic |
| Grouping.GroupLastSpec | dashboard/main.py:134 | `groupby(...).last()`: one entry per clinic of the input, in strictly ascending name order, each the clinic's last row |
| Grouping.LastOf | dashboard/main.py:134 | the last row of a (clinic, disease) pair is a table row of that clinic and disease |
| Grouping.LastOfIndex | dashboard/main.py:134 | that row sits at some index of the table, and no later row has the same clinic and disease |
| Ranking.Insert | dashboard/main.py:148 | inserting an entry into a descending list keeps it descending and adds exactly that entry |
| Ranking.SortDesc | dashboard/main.py:148 | `sort_values(ascending=False)` gives a list in non-increasing importance that is a permutation of its input |
| Ranking.SortDescEntries | dashboard/main.py:148 | sorting keeps the number of entries and exactly the same entries |
| Forecast.Features | dashboard/main.py:121-124 | Dengue and Chikungunya use four features, including precipitation; Influenza uses three, without precipitation; temperature, density and previous count are always used, each once |
| Forecast.Vector | dashboard/main.py:139 | a feature vector has one value per feature |
| Forecast.Matrix | dashboard/main.py:126 | the training matrix has one vector per row |
| Forecast.Targets | dashboard/main.py:127 | the targets have one count per row |
| Forecast.Labelled | dashboard/main.py:145-147 | the unsorted risk-factor table has one entry per feature |
| Forecast.ImportanceTable | dashboard/main.py:145-148 | building the risk-factor table succeeds exactly when there are as many importances as features; otherwise it fails naming the disease |
| Forecast.ImportanceTableSpec | dashboard/main.py:145-148 | a successful risk-factor table is sorted by non-increasing importance and is a permutation of the (label, importance) pairs of the features. It has one entry per feature, and no label contains `_` |
| Forecast.PassOf | dashboard/main.py:118-148 | one iteration of the disease loop: its predictions and its risk-factor table; its meaning is stated by `ForecastRowsSpec` and `ImportanceTableSpec` |
| Forecast.Passes | dashboard/main.py:117 | there is one pass per disease run |
| Forecast.Run | dashboard/main.py:117-148 | what the loop has built after `k` diseases, or the exception that ended it; its meaning is stated by `RunSuccess`, `RunFailure`, `RunValue` and `RunFailurePersists` |
| Forecast.RunFailurePersists | dashboard/main.py:117-148 | once a disease's table fails, the run keeps that failure |
| Forecast.RunSuccess | dashboard/main.py:117-148 | after `k` passes the run is still going exactly when each of those passes produced a table |
| Forecast.RunFailure | dashboard/main.py:117-148 | a failed run reports the error of its first failing pass, and every earlier pass succeeded |
| Forecast.RunValue | dashboard/main.py:117-148 | a run still going holds the passes' predictions in order, and one table for exactly the diseases of those passes, each the table of a pass of that disease |
| Forecast.Engine | dashboard/main.py:109-151 | the engine as a fold over one pass per distinct disease; its meaning is stated by `EngineSucceeds`, `EngineFailure`, `EngineImportances` and `EngineForecasts` |
| Forecast.EngineSucceeds | dashboard/main.py:113-148 | the engine succeeds exactly when the table is non-empty and every disease in it gets as many importances as it has features |
| Forecast.EngineFailure | dashboard/main.py:113-148 | the engine fails with a missing disease column exactly when the table is empty; any other failure names a disease of the table with the wrong number of importances |
| Forecast.EngineImportanceKeys | dashboard/main.py:115-148 | on success the risk-factor tables are keyed by exactly the diseases of the table |
| Forecast.EngineImportances | dashboard/main.py:113-148 | on success there is one risk-factor table per disease of the table, and each has the properties of `ImportanceTableSpec` |
| Forecast.NextWeek | dashboard/main.py:135-137 | the next-week row carries the recorded count as its previous count, shifts temperature and precipitation by exactly the noise, and keeps every other column |
| Forecast.Predict | dashboard/main.py:139-140 | a prediction belongs to its next-week row, and its count is the model's value truncated toward zero (`astype(int)`) |
| Forecast.ForecastRows | dashboard/main.py:134-140 | one prediction per group-by row of the disease; its meaning is stated by `ForecastRowAt` and `ForecastRowsSpec` |
| Forecast.ForecastRowAt | dashboard/main.py:134-140 | the `k`-th prediction of a disease is built from group-by row `k`: that clinic's last row for the disease, with the `k`-th noise added, the previous count set to the row's count, and the count predicted and truncated |
| Forecast.ForecastRowsDisease | dashboard/main.py:118-134 | every prediction of a disease is of that disease |
| Forecast.ForecastRowsFrom | dashboard/main.py:134-140 | every prediction of a disease is made from the last row of its pair |
| Forecast.ForecastRowsSorted | dashboard/main.py:134 | the predictions of one disease come in strictly ascending clinic-name order |
| Forecast.ForecastRowsCover | dashboard/main.py:134 | every clinic with rows of a disease gets a prediction for it |
| Forecast.ForecastRowsSpec | dashboard/main.py:134-140 | the predictions of one disease: one per clinic, in name order, each made from the clinic's last row with its noise |
| Forecast.ForecastRowsDistinct | dashboard/main.py:134 | no (clinic, disease) pair appears twice among the predictions of one disease |
| Forecast.PassesDiseases | dashboard/main.py:117-142 | for distinct diseases, pass `j` is of disease `j`, no two passes share a disease, and each pass predicts only its own disease with no pair repeated |
| Forecast.AllForecastsMembers | dashboard/main.py:142-150 | a prediction is in the concatenated output exactly when it is in one pass's predictions |
| Forecast.PassesFrom | dashboard/main.py:134-150 | every concatenated prediction is of one of the diseases run and is made from the last row of its pair |
| Forecast.AllForecastsDistinct | dashboard/main.py:142-150 | concatenating per-disease predictions of distinct diseases repeats no (clinic, disease) pair |
| Forecast.EngineForecastsFrom | dashboard/main.py:113-150 | on success every prediction is of a disease of the table and is made from the last row of its pair by that disease's model |
| Forecast.EngineForecastsDistinct | dashboard/main.py:113-150 | on success no (clinic, disease) pair gets two predictions |
| Forecast.EngineForecastsCover | dashboard/main.py:113-150 | on success every (clinic, disease) pair of the table gets a prediction |
| Forecast.EngineForecasts | dashboard/main.py:113-150 | on success the output has exactly one prediction per (clinic, disease) pair of the table, each made from that pair's last row |
| Forecast.TrainAndPredict | dashboard/main.py:109-151 | the engine loop returns exactly `Engine`: the error of an empty table, the first failing table, or all predictions and tables |
| Dashboard.IndexOfThree | dashboard/main.py:113 | in a list without repetitions, a position holding one of the three diseases is that disease's only position |
| Dashboard.ThreeInOrder | dashboard/main.py:113 | a list without repetitions that holds Dengue, Chikungunya and Influenza in that order is exactly that list |
| Dashboard.OpeningFirstIndices | dashboard/main.py:61-62 | in a column opening with 52 Dengue rows, then 52 Chikungunya rows, then an Influenza row, the three diseases first appear at 0, 52 and 104 |
| Dashboard.UniqueOfOpening | dashboard/main.py:113 | such a column's `unique()` is `[Dengue, Chikungunya, Influenza]` |
| Dashboard.HistoryOpening | dashboard/main.py:61-70 | the first clinic's Dengue series, then its Chikungunya series, then its Influenza series open the history |
| Dashboard.HistoryDiseases | dashboard/main.py:61-113 | on the history of a non-empty registry, the engine runs Dengue, then Chikungunya, then Influenza |
| Dashboard.HistoryEngine | dashboard/main.py:154-155 | on the history of a non-empty registry the engine never reports a missing column. It succeeds exactly when all three diseases get as many importances as features, and then has a table for each disease |
| Dashboard.EmptyRegistry | dashboard/main.py:154-155 | an empty registry gives an empty history, and the engine fails on it with the missing-column error |
| Dashboard.HistoryShape | dashboard/main.py:154 | the history has 156 rows per clinic, no negative count or precipitation, and, for a non-empty registry, the distinct diseases Dengue, Chikungunya, Influenza in that order |
| Dashboard.Load | dashboard/main.py:154-155 | start-up gives exactly the `History` of the registry and draws (so every fact of `HistoryRowAt` holds of it), with the `HistoryShape` properties, and the engine's exact result on it |

## Left out

- Streamlit page setup and caching, metrics, tabs, selectors, the plotly maps and
  charts (`dashboard/main.py` lines 1-12 and from line 157 on): presentation only.
  `fluxograma_de_trabalho/main.js` is browser UI and is not part of this model.
- The numerics become inputs: `np.random.uniform`, `np.random.normal`, `np.sin` with
  its 365.25-day phase, and the pandas date range. The model takes their values
  instead of computing them.
- The 31-entry clinic registry literal (13 municipal health centres and 18 family
  clinics: names, coordinates, `np.random.uniform(1.0, 1.8)` risk factors) is a
  parameter, a sequence of `Clinic` values in registry order.
- `RandomForestRegressor` fitting, `predict` and `feature_importances_` are the
  `Learner` functions. The model states nothing about the value of an importance or
  of a prediction, because the dashboard enforces neither a sum of 1 nor a
  non-negative prediction.
- Floating point: all arithmetic is exact over reals. Rounding, NaN and infinities
  are not modelled.
- Labels.Title models `str.title()` on ASCII letters only. Any other character is
  treated as uncased. The feature column names are plain ASCII.
- Ranking.SortDesc is a stable descending sort. The model does not state how pandas
  orders ties, because the sort it uses does not promise one.
- Grouping.GroupLast is the last row of each clinic. pandas' `last()` takes the last
  non-null value of each column separately; the history has no missing values, so
  the two agree.
- The risk-factor tables are a `map` from disease to table. The source's dict also
  keeps the diseases in insertion order, which only the model selector of the page
  lists; that order is presentation and is not modelled (the keys are stated by
  `EngineImportanceKeys`, the run order by `HistoryDiseases`).
- Error paths of pandas other than these two are not modelled:
  - an empty table has no `doenca` column, so indexing it raises `KeyError`;
  - labels and importances of unequal length make `pd.DataFrame` raise
    `ValueError`.

The model follows the code on these points, which the code does not enforce:

- The importances are used as the regressor reports them; nothing normalises them.
- Predictions are truncated toward zero by `astype(int)` and are not clamped, so a
  negative prediction stays negative.
- Forecast weather is perturbed without clamping, so forecast precipitation may be
  negative.
- The next-week row keeps the week index, the recorded count and every other column
  of the clinic's last row. Only temperature, precipitation and the previous count
  change.
- The group-by result is sorted by clinic name (pandas' default `sort=True`), not
  kept in registry order.
- No training error is reported for an empty or constant per-disease subset. Every
  disease the engine visits has at least one row, and degenerate targets are a
  concern of the regressor.
