/** The request handlers `get_climate_data` and `get_summary`, which repeat the
    shared filter logic inline, and the response envelope of `get_climate_data`. */
module App {
  import opened Wrappers
  import opened Text
  import Quality
  import opened Filters

  /** The source lines of the triple-quoted base query of `get_climate_data`,
      which ends in `WHERE 1=1`. */
  const ClimateBaseLines: seq<string> := [
    "",
    "        SELECT ",
    "            cd.id,",
    "            cd.location_id,",
    "            l.name as location_name,",
    "            l.latitude,",
    "            l.longitude,",
    "            cd.date,",
    "            m.name as metric,",
    "            cd.value,",
    "            m.unit,",
    "            cd.quality",
    "        FROM climate_data cd",
    "        JOIN locations l ON cd.location_id = l.id",
    "        JOIN metrics m ON cd.metric_id = m.id",
    "        WHERE 1=1",
    "    "]

  const ClimateBase: string := Join("\n", ClimateBaseLines)

  /** The source lines of the triple-quoted base query of `get_summary`. */
  const SummaryBaseLines: seq<string> := [
    "",
    "        SELECT ",
    "            m.name as metric,",
    "            m.unit,",
    "            cd.value,",
    "            cd.quality",
    "        FROM climate_data cd",
    "        JOIN metrics m ON cd.metric_id = m.id",
    "        WHERE 1=1",
    "    "]

  const SummaryBase: string := Join("\n", SummaryBaseLines)

  /** The ordering clause `get_climate_data` appends after every filter. */
  const OrderByDate: string := " ORDER BY cd.date"

  /** The `quality_map` literal the handlers carry inline. */
  const InlineQualityMap: map<string, seq<string>> := map[
    "poor" := ["poor", "questionable", "good", "excellent"],
    "questionable" := ["questionable", "good", "excellent"],
    "good" := ["good", "excellent"],
    "excellent" := ["excellent"]]

  /** The filter statements written inline in the handlers: the query and
      parameters they leave behind, starting from `query` and `params`. */
  function InlineFilters(query: string, params: seq<string>, f: Filters): (string, seq<string>) {
    var q1 := if Truthy(f.locationId) then query + " AND cd.location_id = %s" else query;
    var p1 := if Truthy(f.locationId) then params + [f.locationId.value] else params;
    var q2 := if Truthy(f.metric) then q1 + " AND m.name = %s" else q1;
    var p2 := if Truthy(f.metric) then p1 + [f.metric.value] else p1;
    var q3 := if Truthy(f.startDate) then q2 + " AND cd.date >= %s" else q2;
    var p3 := if Truthy(f.startDate) then p2 + [f.startDate.value] else p2;
    var q4 := if Truthy(f.endDate) then q3 + " AND cd.date <= %s" else q3;
    var p4 := if Truthy(f.endDate) then p3 + [f.endDate.value] else p3;
    var key := if Truthy(f.qualityThreshold) then Lower(f.qualityThreshold.value) else "";
    var allowed := if Truthy(f.qualityThreshold) && key in InlineQualityMap then InlineQualityMap[key] else [];
    var q5 := if |allowed| > 0
              then q4 + " AND cd.quality IN (" + Join(", ", Repeat("%s", |allowed|)) + ")"
              else q4;
    var p5 := if |allowed| > 0 then p4 + allowed else p4;
    (q5, p5)
  }

  /** The query and parameters `get_climate_data` sends to the database. */
  function ClimateQuery(f: Filters): (string, seq<string>) {
    var filtered := InlineFilters(ClimateBase, [], f);
    (filtered.0 + OrderByDate, filtered.1)
  }

  /** The query and parameters `get_summary` sends to the database. */
  function SummaryQuery(f: Filters): (string, seq<string>) {
    InlineFilters(SummaryBase, [], f)
  }

  /** The inline copy of the quality map is the shared one. */
  lemma InlineQualityMapIsShared()
    ensures InlineQualityMap == QualityMap
  {
  }

  /** The inline filter statements compute exactly what the shared builder
      computes, for every base query, parameter list and request. */
  lemma InlineAgreesWithShared(query: string, params: seq<string>, f: Filters)
    ensures InlineFilters(query, params, f) == BuildClimateFilters(query, params, f)
  {
    InlineQualityMapIsShared();
    var acc1 := AddComparison((query, params), LocationCondition, f.locationId);
    var acc2 := AddComparison(acc1, MetricCondition, f.metric);
    var acc3 := AddComparison(acc2, StartDateCondition, f.startDate);
    var acc4 := AddComparison(acc3, EndDateCondition, f.endDate);
    assert " AND cd.location_id = %s" == LocationCondition;
    assert " AND m.name = %s" == MetricCondition;
    assert " AND cd.date >= %s" == StartDateCondition;
    assert " AND cd.date <= %s" == EndDateCondition;
    if Truthy(f.qualityThreshold) {
      var allowed := AllowedQualities(f.qualityThreshold.value);
      if allowed.Some? && |allowed.value| > 0 {
        var n := |allowed.value|;
        assert acc4.0 + " AND cd.quality IN (" + Join(", ", Repeat("%s", n)) + ")"
               == acc4.0 + QualityCondition(n);
      }
    }
  }

  lemma NoPercentInOrderBy()
    ensures PlaceholderCount(OrderByDate) == 0
  {
    NoPercentNoPlaceholders(OrderByDate);
  }

  lemma NoPercentInClimateBase()
    ensures PlaceholderCount(ClimateBase) == 0
  {
    ClimateLinesPlain();
    NoPercentJoin("\n", ClimateBaseLines);
    NoPercentNoPlaceholders(ClimateBase);
  }

  lemma ClimateLinesPlain()
    ensures forall i :: 0 <= i < |ClimateBaseLines| ==> '%' !in ClimateBaseLines[i]
  {
    assert '%' !in ClimateBaseLines[0];
    assert '%' !in ClimateBaseLines[1];
    assert '%' !in ClimateBaseLines[2];
    assert '%' !in ClimateBaseLines[3];
    assert '%' !in ClimateBaseLines[4];
    assert '%' !in ClimateBaseLines[5];
    assert '%' !in ClimateBaseLines[6];
    assert '%' !in ClimateBaseLines[7];
    assert '%' !in ClimateBaseLines[8];
    assert '%' !in ClimateBaseLines[9];
    assert '%' !in ClimateBaseLines[10];
    assert '%' !in ClimateBaseLines[11];
    assert '%' !in ClimateBaseLines[12];
    assert '%' !in ClimateBaseLines[13];
    assert '%' !in ClimateBaseLines[14];
    assert '%' !in ClimateBaseLines[15];
    assert '%' !in ClimateBaseLines[16];
  }

  lemma NoPercentInSummaryBase()
    ensures PlaceholderCount(SummaryBase) == 0
  {
    SummaryLinesPlain();
    NoPercentJoin("\n", SummaryBaseLines);
    NoPercentNoPlaceholders(SummaryBase);
  }

  lemma SummaryLinesPlain()
    ensures forall i :: 0 <= i < |SummaryBaseLines| ==> '%' !in SummaryBaseLines[i]
  {
    assert '%' !in SummaryBaseLines[0];
    assert '%' !in SummaryBaseLines[1];
    assert '%' !in SummaryBaseLines[2];
    assert '%' !in SummaryBaseLines[3];
    assert '%' !in SummaryBaseLines[4];
    assert '%' !in SummaryBaseLines[5];
    assert '%' !in SummaryBaseLines[6];
    assert '%' !in SummaryBaseLines[7];
    assert '%' !in SummaryBaseLines[8];
    assert '%' !in SummaryBaseLines[9];
  }

  lemma OrderByIsNoFragment()
    ensures OrderByDate !in Fragments && OrderByDate != ClimateBase
  {
    assert OrderByDate[1] == 'O';
  }

  /** `get_climate_data` sends the shared builder's query with ` ORDER BY
      cd.date` appended once, after every filter condition, and the shared
      builder's parameters; the query holds one placeholder per parameter. */
  lemma ClimateQueryOrdersAfterFilters(f: Filters)
    ensures ClimateQuery(f).0 == BuildClimateFilters(ClimateBase, [], f).0 + OrderByDate
    ensures ClimateQuery(f).1 == BuildClimateFilters(ClimateBase, [], f).1
    ensures PlaceholderCount(ClimateQuery(f).0) == |ClimateQuery(f).1|
  {
    InlineAgreesWithShared(ClimateBase, [], f);
    var built := BuildClimateFilters(ClimateBase, [], f);
    PlaceholdersMatchParams(ClimateBase, [], f);
    NoPercentInClimateBase();
    NoPercentInOrderBy();
    PlaceholderCountAppend(built.0, OrderByDate);
  }

  /** As a sequence of text pieces, the query of `get_climate_data` is its base,
      then fixed filter fragments, then the ordering clause, which is none of
      those fragments: it occurs once, last. */
  lemma ClimateQueryTokens(f: Filters)
    ensures ClimateQuery(f).0 == Flatten([ClimateBase] + AllTokens(Selected(f)) + [OrderByDate])
    ensures forall t :: t in AllTokens(Selected(f)) ==> t in Fragments && t != OrderByDate
  {
    ClimateQueryOrdersAfterFilters(f);
    AppendedTextIsFixedFragments(ClimateBase, [], f);
    OrderByIsNoFragment();
    FlattenAround(ClimateBase, AllTokens(Selected(f)), OrderByDate);
  }

  /** `get_summary` applies the same filter conditions with the same parameters
      as `get_climate_data`: only the base query and the ordering differ. */
  lemma SummaryFiltersLikeClimate(f: Filters)
    ensures SummaryQuery(f).1 == ClimateQuery(f).1
    ensures SummaryQuery(f).0 == SummaryBase + RenderAll(Selected(f))
    ensures ClimateQuery(f).0 == ClimateBase + RenderAll(Selected(f)) + OrderByDate
    ensures PlaceholderCount(SummaryQuery(f).0) == |SummaryQuery(f).1|
  {
    InlineAgreesWithShared(ClimateBase, [], f);
    InlineAgreesWithShared(SummaryBase, [], f);
    BuildAppendsSelected(ClimateBase, [], f);
    BuildAppendsSelected(SummaryBase, [], f);
    PlaceholdersMatchParams(SummaryBase, [], f);
    NoPercentInSummaryBase();
  }

  /** A `good` threshold, in any case, lets only `good` and `excellent` readings
      through either handler. */
  lemma GoodThresholdAdmitsGoodAndExcellent(f: Filters)
    requires !Truthy(f.locationId) && !Truthy(f.metric) && !Truthy(f.startDate) && !Truthy(f.endDate)
    requires f.qualityThreshold.Some? && Lower(f.qualityThreshold.value) == "good"
    ensures ClimateQuery(f).1 == ["good", "excellent"]
    ensures SummaryQuery(f).1 == ["good", "excellent"]
  {
    GoodThresholdParams(ClimateBase, f);
    GoodThresholdParams(SummaryBase, f);
    ClimateQueryOrdersAfterFilters(f);
    InlineAgreesWithShared(SummaryBase, [], f);
  }

  lemma GoodThresholdParams(base: string, f: Filters)
    requires !Truthy(f.locationId) && !Truthy(f.metric) && !Truthy(f.startDate) && !Truthy(f.endDate)
    requires f.qualityThreshold.Some? && Lower(f.qualityThreshold.value) == "good"
    ensures BuildClimateFilters(base, [], f).1 == ["good", "excellent"]
  {
    AppendedParamsInFixedOrder(base, [], f);
    assert Quality.Resolve(f.qualityThreshold.value) == Some(Quality.Good);
    Quality.GoodAdmitsGoodAndExcellent();
    assert QualityArgs(f.qualityThreshold) == ["good", "excellent"];
    assert ValueOf(f.locationId) == [] && ValueOf(f.metric) == [];
    assert ValueOf(f.startDate) == [] && ValueOf(f.endDate) == [];
  }

  /** The `meta` block of the `get_climate_data` response. */
  datatype Meta = Meta(totalCount: nat, page: nat, perPage: nat)

  datatype ClimateResponse<Row> = ClimateResponse(data: seq<Row>, meta: Meta)

  /** The response envelope around the rows the query returned. */
  function Respond<Row>(rows: seq<Row>): (r: ClimateResponse<Row>)
    ensures r.data == rows
    ensures r.meta.totalCount == |r.data|
    ensures r.meta.page == 1 && r.meta.perPage == 50
  {
    ClimateResponse(rows, Meta(|rows|, 1, 50))
  }
}
