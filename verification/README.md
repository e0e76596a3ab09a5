# Temperature statistics engine — Dafny model

This project models the computational core of a small temperature-analytics
dashboard. The input is a table of daily temperature observations, one row
per (city, date), each carrying a season label. The core `calc_statistics`
(utils.py) enriches every row with:

- a trailing 30-row rolling mean, computed per city;
- the mean and sample standard deviation of the row's (city, season) group;
- a 95% band `ci_up`/`ci_down`: the rolling mean ± 1.96 std;
- an outlier flag, set when the temperature lies strictly outside the seasonal
  mean ± 1.96 std.

The model also covers the month-to-season table (utils.py) and the two pieces
of pure logic in the dashboard (app.py). The first is the per-season summary
of the `mean` column. The second is the live check, which classifies a
current temperature against the current season's band.

Modelling conventions:

- Temperatures and statistics are exact `real`s. pandas' NaN is `None` in
  `Option<real>` (module `Floats`). Arithmetic propagates NaN and every
  comparison with NaN is false, as in numpy.
- Dafny has no square root on reals. The std is taken through a function
  parameter `root: real -> real`. Lemmas about the std's value assume
  `Stats.IsSquareRoot(root)`: `root` returns the non-negative square root of
  every non-negative real.
- An output row wraps its input row unchanged (`Enriched.row`) and adds the
  six columns.
- `Statistics.CalcStatistics` is the definition of the enriched table.
  `Engine.CalcStatisticsScan` is a two-scan implementation: running moments
  per group, then a 30-value window per city. It is proved to produce exactly
  that table.
- The month and the live reading are parameters of `Live.LiveAnomaly`. Errors
  the source would raise are `Failure` values. A month that is not a key of the
  season table raises `KeyError` in Python (`UnknownMonth` here). `iloc[0]` on
  an empty selection raises too (`NoBaseline` here).

Behaviour kept as the code has it:

- The band is centred on the rolling mean (utils.py:114-115). The outlier test
  is centred on the seasonal mean (utils.py:118-122). The two are kept
  distinct.
- When the season's std is NaN, the live check's comparisons are false, so the
  reading is reported as not anomalous (app.py:111-114). The model keeps this.
  It does not introduce a separate "cannot classify" outcome.
- The dashboard calls `calc_statistics` on one city's rows (app.py:54-57).
  Its summary and live check then group by season alone. The lemmas about them
  (`Live.SummaryIsGroupMean`, `Live.LiveBaseline`) therefore assume a
  single-city table.

## Model

| member | source | states |
|---|---|---|
| Seasons.MonthToSeason | utils.py:27-30 | The season lookup succeeds exactly for the months 1 to 12. Any other key raises. |
| Seasons.MonthsOf | utils.py:27-30 | Every season has exactly three months. |
| Seasons.MonthToSeasonMatchesMonths | utils.py:27-30 | A month maps to a season exactly when it is one of that season's months: {12,1,2} winter, {3,4,5} spring, {6,7,8} summer, {9,10,11} autumn. |
| Seasons.SeasonsPartitionMonths | utils.py:27-30 | The seasons' months cover exactly 1 to 12, and no month lies in two seasons. |
| Seasons.NameInjective | utils.py:27-30 | Distinct seasons have distinct labels, so a selection by label picks out one season. |
| Stats.SampleStdSquares | utils.py:104-106 | The std is NaN exactly when the group has fewer than two values. Otherwise it is the non-negative square root of the n−1 sample variance. |
| Stats.VarianceFromMoments | utils.py:104-106 | The sample variance equals (Σx² − (Σx)²/n)/(n−1), the formula over running moments. |
| Statistics.CalcStatistics | utils.py:81-124 | Exactly one output row per input row, in input order. Each output row carries its input row's city, timestamp, temperature and season unchanged. |
| Statistics.AssembleColumns | utils.py:114-122 | `ci_up`/`ci_down` are defined exactly when both the rolling mean and the std are. The band is centred on the rolling mean with width 2·1.96·std. The flag is 0 or 1, and it is 1 exactly when the mean and std are defined and the temperature is strictly outside mean ± 1.96·std. |
| Statistics.MovingAverageWindow | utils.py:97-101 | The rolling mean at a row is NaN while fewer than 29 earlier rows of its city precede it. Otherwise it is the mean of the row's temperature and its city's 29 preceding temperatures, in row order. |
| Statistics.ShortCityHasNoMovingAverage | utils.py:97-101 | A city with fewer than 30 rows has a NaN rolling mean on all of its rows. |
| Statistics.GroupColumns | utils.py:104-111 | Every row's `mean` is the arithmetic mean of its (city, season) group, which is never empty. `std` is NaN exactly when the group has one row. Otherwise `std` is non-negative and squares to the group's sample variance. |
| Statistics.GroupConstant | utils.py:104-111 | `mean` and `std` are equal on any two rows of the same (city, season) group. |
| Statistics.OutlierFlag | utils.py:114-122 | A row whose group has one row is never flagged and has no band. Otherwise its flag is 1 exactly when the temperature is strictly below the group mean − 1.96·std or strictly above the group mean + 1.96·std. |
| Statistics.BandColumns | utils.py:114-115 | On every output row, `ci_up` and `ci_down` are defined exactly when both the row's rolling mean and its std are. The band is then centred on the rolling mean: `ci_up` − `ci_down` = 2·1.96·std and their midpoint is the rolling mean. |
| Statistics.BoundaryIsNotOutlier | utils.py:118-122 | A temperature exactly on mean − 1.96·std or on mean + 1.96·std is not flagged. |
| Statistics.CityCommutes | utils.py:97-111 | The output rows of a city equal the enrichment of that city's input rows alone. |
| Statistics.CityIndependence | utils.py:97-111 | Two inputs that agree on a city's rows give that city identical output rows, whatever the other cities' rows are. |
| Engine.MomentsAgree | utils.py:104-111 | Mean and std read off a group's running moments equal the group's mean and sample std. |
| Engine.GroupMoments | utils.py:104-111 | One scan yields, for every (city, season) pair, that group's count, sum and sum of squares. |
| Engine.CalcStatisticsScan | utils.py:97-124 | The two-scan computation, with per-group moments and per-city 30-value windows, returns exactly the enriched table. |
| Live.SeasonSummary | app.py:65 | The summary has one entry per season label present in the table. |
| Live.SeasonMaxIsMaximum | app.py:65 | A season's entry is defined exactly when some row of the season has a defined mean. It is then at least every such mean, and it is one of them. |
| Live.SummaryIsGroupMean | app.py:65 | On one city's enriched table, each season's summary entry is the mean of that season's temperatures. |
| Live.Classify | app.py:107-114 | Anomalous exactly when mean and std are defined and the reading is strictly above mean + 1.96·std or strictly below mean − 1.96·std. The band is centred on the mean with width 2·1.96·std. With std ≥ 0, down ≤ up and a reading on a bound is not anomalous. A NaN std gives no band and "not anomalous". |
| Live.WinterBaselineExample | app.py:107-114 | With mean 4 and std 2, the band is (0.08, 7.92). A reading of 9 is anomalous and a reading of 5 is not. |
| Live.FirstOfSeason | app.py:103-104 | The selection's first row is absent exactly when no row has the season. Otherwise it is the earliest row that has it. |
| Live.LiveAnomaly | app.py:100-117 | Fails with `UnknownMonth` exactly for a month outside 1 to 12. For a valid month it fails with `NoBaseline` exactly when no row carries that month's season. Otherwise it succeeds and classifies the reading against the mean and std of the first row that carries the season. These are the only failures. |
| Live.LiveBaseline | app.py:100-114 | On one city's enriched table, the live check fails only when the current season has no rows. Otherwise it classifies against that season group's mean and sample std. Taking any row of the season instead of the first gives the same result. |

## Left out

- Streamlit UI, widgets, file upload and CSV parsing (app.py:12-98, 118-124): presentation and I/O.
- `get_weather` (utils.py:51-78): an HTTP request to an external weather service. The live reading is a parameter instead.
- `datetime.now()` (app.py:100): a clock. The current month is a parameter instead.
- `generate_realistic_temperature_data` (utils.py:33-48): it draws from a random sampler. Its season column is the same month-to-season lookup modelled in `Seasons`.
- `@st.cache_resource` / `@st.cache_data`: framework caching, with no effect on the values computed.
- graphs.py: plot construction. Its date-window filter and outlier selection only feed the charts.
- `describe()` (app.py:61) and the `pd.Timedelta` date arithmetic (app.py:71-72): pandas library internals for display.
- Live.SeasonSummary: `groupby(['season'])['mean'].max()` (app.py:65) returns a series ordered by season label. The model returns a map, so it does not model the summary's row order.
- Floating point: values are exact reals. So `1.96` is exact, and rounding in pandas' rolling, mean and std algorithms is not modelled.
- Square root: the std is taken through the `root` parameter. Its value is characterised only under `Stats.IsSquareRoot(root)`.
- NaN temperatures in the input, and pandas dropping rows with NaN group keys: temperatures are reals and city and season labels are strings.
- `calc_statistics` assigns its new columns into the frame it is given. The model returns a new table and leaves the input value untouched.
