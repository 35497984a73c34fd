# Climate data API: filter builder and summary grouping

This project models the pure logic at the heart of a small climate-data web
API. The API answers `/climate` and `/summary` requests by building a
parameterised SQL query from five optional request filters, and for the
summary it post-processes the fetched rows per metric.

- **Quality** (`quality.dfy`): the four reading-quality levels. They form the
  hierarchy poor < questionable < good < excellent. A threshold admits
  itself and every higher level, and the request's threshold is looked up
  without regard to case.
- **Filters** (`filters.dfy`): `build_climate_filters`. Each Python-truthy
  filter appends a fixed SQL fragment with `%s` placeholders to the query
  and its value(s) to the parameter list. A threshold that names no level
  adds nothing. A reference model describes the same result as a list of
  selected conditions. The builder is proved equal to that reference. From
  it follow the placeholder/parameter balance, the fixed clause order, the
  prefix property, that absent filters change nothing, and that the query
  text is made of fixed fragments and never of user values.
- **App** (`app.dfy`): the handlers' inline copies of the filter code in
  `get_climate_data` and `get_summary`, proved equal to the shared builder.
  It also covers the two base queries, the single trailing ` ORDER BY
  cd.date`, and the `meta` block of the `/climate` response.
- **Summary** (`summary.dfy`): the post-processing in `get_summary`.
  - Rows `(metric, unit, value, quality)` are grouped by metric
    (`GroupByMetric`, a loop with invariants). Each group is then
    summarised with its unit, size, quality-weight sum and quality
    distribution.
  - An unknown quality makes the `QUALITY_WEIGHTS[q]` lookup raise
    `KeyError`. This is modelled as a `Failure` carrying that quality.
- **Text** (`text.dfy`), **Wrappers** (`wrappers.dfy`): ASCII lower-casing,
  repetition and joining of strings, `%s` counting, and `Option`/`Result`.

A request value is an `Option<string>`: `None` when the parameter is absent.
Python truthiness is `Truthy`: present and non-empty. Query parameters are
strings. Reading values are `real`. The quality distribution is computed
with exact real division.

## Model

| member | source | states |
|---|---|---|
| Quality.Parse | backend/filters.py:51-57 | A key of the quality map resolves to the level of that name; any other text resolves to nothing. |
| Quality.AtLeast | backend/filters.py:48-56 | A threshold admits exactly the levels ranked at or above it, itself first, in strictly ascending order. |
| Quality.AtLeastMonotone | backend/filters.py:48-56 | Raising the threshold only drops levels from the front of the admitted list; a level admitted by a higher threshold is admitted by every lower one. |
| Quality.AllowedNamesSpec | backend/filters.py:48-56 | A level's name is admitted iff the level ranks at or above the threshold; the admitted names are level names in ascending order, starting with the threshold's own. |
| Quality.GoodAdmitsGoodAndExcellent | backend/filters.py:49-54 | Threshold good admits exactly `["good", "excellent"]`. |
| Quality.Resolve | backend/filters.py:57 | A resolved threshold lower-cases to its level's name (and has that name's length); an unresolved one lower-cases to no level name. |
| Quality.ResolveIgnoresCase | backend/filters.py:57 | Two thresholds that differ only in the case of their letters resolve to the same level or both to none. |
| Quality.ResolveUpperCaseGood | backend/filters.py:57 | `GoOD` resolves to good and admits good and excellent. |
| Text.LowerSpec | backend/filters.py:57 | Lower-casing keeps the length, folds each ASCII capital and leaves no capital. |
| Text.LowerIdempotent | backend/filters.py:57 | Lower-casing twice is lower-casing once. |
| Text.JoinedPlaceholders | backend/filters.py:61 | Joining n copies of `%s` with `, ` gives exactly n placeholders, beginning with `%` when n > 0. |
| Filters.QualityMapIsHierarchy | backend/filters.py:51-56 | The map literal's keys are exactly the level names, and each maps to the names its level admits. |
| Filters.AllowedQualitiesResolve | backend/filters.py:57 | The case-insensitive map lookup succeeds iff the threshold resolves to a level, and then yields that level's admitted names. |
| Filters.BuildAppendsSelected | backend/filters.py:30-65 | The builder returns the input query followed by the text of the selected conditions, and the input params followed by their values. |
| Filters.BuildOnlyAppends | backend/filters.py:31-63 | The input query is a prefix of the output query and the input params a prefix of the output params. |
| Filters.AppendedParamsInFixedOrder | backend/filters.py:30-63 | The appended params are location, metric, start date, end date, then the admitted quality names, each only when its filter is present. |
| Filters.SelectedInFixedOrder | backend/filters.py:30-63 | Selected conditions appear in strictly increasing column order: location, metric, start date, end date, quality. |
| Filters.InSelected | backend/filters.py:30-46 | A non-quality condition is selected iff its filter is truthy and it binds exactly that filter's value. |
| Filters.SelectedExactlyTheTruthyFilters | backend/filters.py:30-46 | Each comparison condition is present iff its filter is truthy, and each binds one value. |
| Filters.SelectedQualityIffThresholdResolves | backend/filters.py:50-63 | A quality condition is present iff the threshold is given and names a level in any case, and it binds that level's admitted names. |
| Filters.RenderPlaceholders | backend/filters.py:31-62 | Each condition's text holds as many `%s` placeholders as the condition binds values. |
| Filters.RenderAllPlaceholders | backend/filters.py:31-62 | The text of any list of well-formed conditions holds as many placeholders as the list binds values. |
| Filters.PlaceholdersMatchParams | backend/filters.py:30-63 | The placeholders the builder adds to the query equal the number of params it adds. |
| Filters.UnchangedIffNothingSelected | backend/filters.py:30-65 | The query and params come back unchanged iff every comparison filter is falsy and the threshold is absent or names no level. |
| Filters.NoFiltersIsIdentity | backend/filters.py:30-65 | With no filters the query and params come back unchanged. |
| Filters.UnknownThresholdAddsNothing | backend/filters.py:57-63 | A threshold that names no level gives the same result as no threshold. |
| Filters.RenderedByShape | backend/filters.py:31-62 | The appended text is determined by which filters are truthy and which level the threshold resolves to. |
| Filters.QueryTextIndependentOfValues | backend/filters.py:31-62 | Two requests with the same truthy filters and the same resolved level yield the same query text, whatever the values and incoming params. |
| Filters.AppendedTextIsFixedFragments | backend/filters.py:31-62 | The appended text is a concatenation of tokens drawn from the fixed fragment set: the condition texts, the `IN (` and `)` delimiters, `%s` and `, `. |
| App.InlineQualityMapIsShared | backend/app.py:99-104 | The handler's quality map literal equals the shared builder's. |
| App.InlineAgreesWithShared | backend/app.py:80-111 | The handlers' inline filter code returns exactly what `build_climate_filters` returns, for every query, params and filters. |
| App.NoPercentInClimateBase | backend/app.py:58-74 | The `/climate` base query contains no placeholder. |
| App.NoPercentInSummaryBase | backend/app.py:217-226 | The `/summary` base query contains no placeholder. |
| App.ClimateQueryOrdersAfterFilters | backend/app.py:58-114 | The `/climate` query is the filtered base query followed by ` ORDER BY cd.date`, its params are the builder's, and its placeholders equal its params. |
| App.ClimateQueryTokens | backend/app.py:58-114 | The `/climate` query is the base query, then fixed filter fragments none of which is the ORDER BY clause, then the ORDER BY clause once. |
| App.SummaryFiltersLikeClimate | backend/app.py:229-255 | `/summary` appends the same conditions and binds the same params as `/climate`, without the ORDER BY, and its placeholders equal its params. |
| App.GoodThresholdAdmitsGoodAndExcellent | backend/app.py:97-111 | With only a threshold spelling good in any case, both endpoints bind exactly `good` and `excellent`; the `/climate` test with threshold `good` checks the corresponding rows. |
| App.Respond | backend/app.py:131-137 | The response carries the rows as data, `total_count` equal to their number, page 1 and 50 per page. |
| Summary.AddRowKeepsGrouping | backend/app.py:272-276 | Adding one row keeps the groups equal to the reference grouping of the rows seen so far. |
| Summary.MetricsOfSpec | backend/app.py:266-276 | The reference metric order lists exactly the metrics some row has, and a metric listed before another has a row before every row of the other (the order of first rows). |
| Summary.GroupByMetric | backend/app.py:266-276 | The metric order is the order of first rows (the `defaultdict`'s insertion order), each metric appears once, and each group is the reference group: its rows' values and qualities in row order, the last row's unit. Values and qualities have equal non-zero length, and group sizes sum to the row count. |
| Summary.GroupSizesSumToRows | backend/app.py:266-276 | The sizes of the groups of a grouping sum to the number of rows. |
| Summary.GroupQualitiesAreRowQualities | backend/app.py:272-276 | Every group's qualities are levels iff every row's quality is a level. |
| Summary.QualityCounts | backend/app.py:304-314 | The counts have exactly the four level keys, each at most the group size. |
| Summary.CountsSumToTotal | backend/app.py:304-314 | When every quality is a level, the four counts sum to the group size. |
| Summary.Share | backend/app.py:306-313 | A count divided by its total lies in [0, 1]. |
| Summary.QualityDistribution | backend/app.py:304-314 | The distribution always has exactly the four level keys, each share in [0, 1]. |
| Summary.DistributionSumsToOne | backend/app.py:304-314 | When every quality is a level, the four shares sum to 1. |
| Summary.WeightsPositive | backend/app.py:32-37 | The weights are defined exactly for the four levels, each between 0.3 and 1.0. |
| Summary.WeightSumBounds | backend/app.py:299-300 | The weight sum is defined iff every quality is a level, and then lies between 0.3 and 1.0 per quality; otherwise the lookup fails on a quality that is not a level. |
| Summary.NonEmptyGroupWeightPositive | backend/app.py:299-301 | A non-empty group of known qualities has a positive weight sum, so the weighted average's division is defined. |
| Summary.SummarizeGroups | backend/app.py:279-314 | The summary succeeds iff every group's qualities are levels. On success it has one entry per metric, in order. Each entry has the group's unit and size, the group's weight sum (which is positive), and the group's quality distribution (over the four levels, summing to 1). On failure the error is an unknown quality of some group. |
| Summary.SummaryFailureNamesRowQuality | backend/app.py:299-300 | A failed summary names the quality of some row, and that quality is not a level. |
| Summary.SummarySuccessCoversRows | backend/app.py:279-314 | On success the entries' sizes sum to the row count, metrics are distinct, every row's metric has an entry, and each entry counts its metric's rows with a positive weight sum. |
| Summary.SummaryEntriesAreRowGroups | backend/app.py:279-314 | On success the entries follow the grouping's order, every entry is for a metric some row has, and each entry summarises that metric's reference group (unit, size, weight sum, distribution). |
| Summary.SummarizeRows | backend/app.py:266-317 | `get_summary`'s post-processing succeeds iff every row's quality is a level. On success its entries are the rows' distinct metrics in order of first row and nothing else. Each entry summarises its metric's rows (unit of the last row, row count, weight sum, quality distribution), and the counts sum to the row count. On failure the error is an unknown row quality. |

## Left out

- Flask routing, `request.args`, `jsonify`, CORS and the environment configuration (backend/app.py:1-29): framework glue. Request parameters are the `Filters` record's `Option<string>` fields instead.
- MySQL cursors, `execute`/`fetchall` and the database's evaluation of the query: the model stops at the (query, params) pair. The summary's rows are an input sequence.
- `extract_filter_params` (backend/filters.py:68-84): a Flask request accessor.
- `backend/statistics.py` and `get_trends` (backend/app.py:319-337): floating-point trend analysis and an unimplemented endpoint.
- `backend/seed_data.py` and `backend/test_basic.py`: database seeding and an HTTP test script.
- The Decimal-to-float and date-to-string conversion of fetched rows (backend/app.py:122-128): JSON serialisation.
- The `min`, `max`, `avg` and `weighted_avg` values of a metric summary (backend/app.py:290-301): floating-point arithmetic. The model keeps the weight sum that the weighted average divides by, and proves it positive.
- Summary.QualityDistribution: uses exact real division instead of IEEE doubles, so "sums to 1" holds exactly here but only up to rounding in the source.
- Text.Lower: folds ASCII letters only; Python's `str.lower()` also folds non-ASCII capitals. The one non-ASCII capital Python folds to a single ASCII letter, the Kelvin sign, becomes `k`, which no level name contains.
- Text.PlaceholderCount: counts every `%s`. It ignores the `%%` escape of the database driver, which none of the fragments use.
- App.InlineAgreesWithShared: one `InlineFilters` function models both inline copies (backend/app.py:80-111 and backend/app.py:230-255). Their text is identical.
- The builder's in-place mutation of the caller's `params` list is not modelled, only its returned value. `build_climate_filters` (backend/filters.py:9) has no caller in the repository: the handlers inline the same code.
