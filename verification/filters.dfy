/** The shared filter builder `build_climate_filters`: it extends a base query
    ending in `WHERE 1=1` with one parameterised condition per filter the request
    supplies, and extends the parameter list with the matching values. */
module Filters {
  import opened Wrappers
  import opened Text
  import Quality

  /** The five optional request filters; every value arrives as text. */
  datatype Filters = Filters(
    locationId: Option<string>,
    metric: Option<string>,
    startDate: Option<string>,
    endDate: Option<string>,
    qualityThreshold: Option<string>)

  const NoFilters: Filters := Filters(None, None, None, None, None)

  /** Python truthiness of an optional text value: present and non-empty. */
  predicate Truthy(v: Option<string>) {
    v.Some? && |v.value| > 0
  }

  const LocationCondition: string := " AND cd.location_id = " + Placeholder
  const MetricCondition: string := " AND m.name = " + Placeholder
  const StartDateCondition: string := " AND cd.date >= " + Placeholder
  const EndDateCondition: string := " AND cd.date <= " + Placeholder
  const QualityOpen: string := " AND cd.quality IN ("
  const QualityClose: string := ")"
  const ListSeparator: string := ", "

  /** ` AND cd.quality IN (%s, ..., %s)` with `n` placeholders. */
  function QualityCondition(n: nat): string {
    QualityOpen + Join(ListSeparator, Repeat(Placeholder, n)) + QualityClose
  }

  /** The `quality_map` literal of the shared builder. */
  const QualityMap: map<string, seq<string>> := map[
    "poor" := ["poor", "questionable", "good", "excellent"],
    "questionable" := ["questionable", "good", "excellent"],
    "good" := ["good", "excellent"],
    "excellent" := ["excellent"]]

  /** `quality_map.get(quality_threshold.lower())`. */
  function AllowedQualities(threshold: string): Option<seq<string>> {
    var key := Lower(threshold);
    if key in QualityMap then Some(QualityMap[key]) else None
  }

  /** The map literal is the hierarchy: a key is a level name and maps to the
      names of that level and every higher one, in ascending order. */
  lemma QualityMapIsHierarchy(key: string)
    ensures key in QualityMap <==> Quality.Parse(key).Some?
    ensures key in QualityMap ==> QualityMap[key] == Quality.AllowedNames(Quality.Parse(key).value)
  {
    assert QualityMap.Keys == {"poor", "questionable", "good", "excellent"};
    if key == "poor" {
      assert Quality.AllowedNames(Quality.Poor) == QualityMap[key];
    } else if key == "questionable" {
      assert Quality.AllowedNames(Quality.Questionable) == QualityMap[key];
    } else if key == "good" {
      assert Quality.AllowedNames(Quality.Good) == QualityMap[key];
    } else if key == "excellent" {
      assert Quality.AllowedNames(Quality.Excellent) == QualityMap[key];
    }
  }

  /** The lookup of the shared builder agrees with resolving the threshold
      case-insensitively through the hierarchy. */
  lemma AllowedQualitiesResolve(threshold: string)
    ensures AllowedQualities(threshold).Some? <==> Quality.Resolve(threshold).Some?
    ensures Quality.Resolve(threshold).Some? ==>
              AllowedQualities(threshold).value == Quality.AllowedNames(Quality.Resolve(threshold).value)
  {
    QualityMapIsHierarchy(Lower(threshold));
  }

  /** One `if value: query += condition; params.append(value)` block. */
  function AddComparison(acc: (string, seq<string>), condition: string, value: Option<string>): (string, seq<string>) {
    if Truthy(value) then (acc.0 + condition, acc.1 + [value.value]) else acc
  }

  /** The quality-threshold block: a truthy threshold that names a level in any
      case appends an `IN` list with one placeholder per admitted level. */
  function AddQualityThreshold(acc: (string, seq<string>), threshold: Option<string>): (string, seq<string>) {
    if Truthy(threshold) then
      var allowed := AllowedQualities(threshold.value);
      if allowed.Some? && |allowed.value| > 0 then
        (acc.0 + QualityCondition(|allowed.value|), acc.1 + allowed.value)
      else acc
    else acc
  }

  /** `build_climate_filters(query, params, ...)`: the returned query and
      parameter list. */
  function BuildClimateFilters(query: string, params: seq<string>, f: Filters): (string, seq<string>) {
    var afterLocation := AddComparison((query, params), LocationCondition, f.locationId);
    var afterMetric := AddComparison(afterLocation, MetricCondition, f.metric);
    var afterStart := AddComparison(afterMetric, StartDateCondition, f.startDate);
    var afterEnd := AddComparison(afterStart, EndDateCondition, f.endDate);
    AddQualityThreshold(afterEnd, f.qualityThreshold)
  }

  // ---------------------------------------------------------------------------
  // Reference model: the list of conditions a request selects.

  /** The column a condition constrains, in the order the builder visits them. */
  datatype Column = LocationColumn | MetricColumn | StartDateColumn | EndDateColumn | QualityColumn

  function Position(c: Column): nat {
    match c
    case LocationColumn => 0
    case MetricColumn => 1
    case StartDateColumn => 2
    case EndDateColumn => 3
    case QualityColumn => 4
  }

  /** One condition of the WHERE clause and the values bound to its placeholders. */
  datatype Condition = Condition(column: Column, args: seq<string>)

  /** The SQL text of a condition; it depends on the column and the number of
      values only, never on the values themselves. */
  function Render(c: Condition): (r: string)
    ensures |r| > 0 && r[0] == ' '
  {
    match c.column
    case LocationColumn => LocationCondition
    case MetricColumn => MetricCondition
    case StartDateColumn => StartDateCondition
    case EndDateColumn => EndDateCondition
    case QualityColumn => QualityCondition(|c.args|)
  }

  /** A condition is well formed when a comparison carries one value and the
      quality list at least one. */
  predicate WellFormed(c: Condition) {
    if c.column == QualityColumn then |c.args| > 0 else |c.args| == 1
  }

  function RenderAll(cs: seq<Condition>): string
    decreases |cs|
  {
    if |cs| == 0 then "" else Render(cs[0]) + RenderAll(cs[1..])
  }

  function ArgsOf(cs: seq<Condition>): seq<string>
    decreases |cs|
  {
    if |cs| == 0 then [] else cs[0].args + ArgsOf(cs[1..])
  }

  function Single(column: Column, v: Option<string>): seq<Condition> {
    if Truthy(v) then [Condition(column, [v.value])] else []
  }

  function QualitySelection(threshold: Option<string>): seq<Condition> {
    if threshold.Some? then
      match Quality.Resolve(threshold.value)
      case Some(level) => [Condition(QualityColumn, Quality.AllowedNames(level))]
      case None => []
    else []
  }

  /** The conditions a request selects, one per truthy filter (the quality
      threshold only when it names a level), in the builder's order. */
  function Selected(f: Filters): seq<Condition> {
    Single(LocationColumn, f.locationId)
    + Single(MetricColumn, f.metric)
    + Single(StartDateColumn, f.startDate)
    + Single(EndDateColumn, f.endDate)
    + QualitySelection(f.qualityThreshold)
  }

  lemma {:induction false} RenderAllAppend(a: seq<Condition>, b: seq<Condition>)
    ensures RenderAll(a + b) == RenderAll(a) + RenderAll(b)
    ensures ArgsOf(a + b) == ArgsOf(a) + ArgsOf(b)
    decreases |a|
  {
    if |a| == 0 {
      assert a + b == b;
    } else {
      assert (a + b)[1..] == a[1..] + b;
      RenderAllAppend(a[1..], b);
    }
  }

  /** The shared builder appends exactly the selected conditions to the query
      and exactly their values to the parameters: nothing is removed,
      reordered or added besides. */
  lemma BuildAppendsSelected(query: string, params: seq<string>, f: Filters)
    ensures BuildClimateFilters(query, params, f)
            == (query + RenderAll(Selected(f)), params + ArgsOf(Selected(f)))
  {
    var s1 := Single(LocationColumn, f.locationId);
    var s2 := Single(MetricColumn, f.metric);
    var s3 := Single(StartDateColumn, f.startDate);
    var s4 := Single(EndDateColumn, f.endDate);
    var s5 := QualitySelection(f.qualityThreshold);
    var acc0 := (query, params);
    var acc1 := AddComparison(acc0, LocationCondition, f.locationId);
    var acc2 := AddComparison(acc1, MetricCondition, f.metric);
    var acc3 := AddComparison(acc2, StartDateCondition, f.startDate);
    var acc4 := AddComparison(acc3, EndDateCondition, f.endDate);
    SingleRenders(acc0, LocationColumn, LocationCondition, f.locationId);
    SingleRenders(acc1, MetricColumn, MetricCondition, f.metric);
    SingleRenders(acc2, StartDateColumn, StartDateCondition, f.startDate);
    SingleRenders(acc3, EndDateColumn, EndDateCondition, f.endDate);
    QualitySelectionRenders(acc4, f.qualityThreshold);
    assert BuildClimateFilters(query, params, f) == AddQualityThreshold(acc4, f.qualityThreshold);
    RenderAllAppend(s1, s2);
    RenderAllAppend(s1 + s2, s3);
    RenderAllAppend(s1 + s2 + s3, s4);
    RenderAllAppend(s1 + s2 + s3 + s4, s5);
    var t1, t2, t3, t4, t5 := RenderAll(s1), RenderAll(s2), RenderAll(s3), RenderAll(s4), RenderAll(s5);
    var a1, a2, a3, a4, a5 := ArgsOf(s1), ArgsOf(s2), ArgsOf(s3), ArgsOf(s4), ArgsOf(s5);
    AppendAssoc(query, t1 + t2 + t3 + t4, t5);
    AppendAssoc(query, t1 + t2 + t3, t4);
    AppendAssoc(query, t1 + t2, t3);
    AppendAssoc(query, t1, t2);
    AppendAssoc(params, a1 + a2 + a3 + a4, a5);
    AppendAssoc(params, a1 + a2 + a3, a4);
    AppendAssoc(params, a1 + a2, a3);
    AppendAssoc(params, a1, a2);
  }

  lemma AppendAssoc<T>(a: seq<T>, b: seq<T>, c: seq<T>)
    ensures a + (b + c) == a + b + c
  {
  }

  lemma RenderAllSingleton(c: Condition)
    ensures RenderAll([c]) == Render(c) && ArgsOf([c]) == c.args
  {
    assert [c][1..] == [];
  }

  lemma SingleRenders(acc: (string, seq<string>), column: Column, condition: string, v: Option<string>)
    requires column != QualityColumn && Render(Condition(column, [v.GetOr("")])) == condition
    ensures AddComparison(acc, condition, v)
            == (acc.0 + RenderAll(Single(column, v)), acc.1 + ArgsOf(Single(column, v)))
  {
    if Truthy(v) {
      RenderAllSingleton(Condition(column, [v.value]));
    } else {
      assert acc.0 + "" == acc.0 && acc.1 + [] == acc.1;
    }
  }

  /** The quality step of the shared builder appends the rendering of the
      quality selection. */
  lemma QualitySelectionRenders(acc: (string, seq<string>), threshold: Option<string>)
    ensures AddQualityThreshold(acc, threshold)
            == (acc.0 + RenderAll(QualitySelection(threshold)), acc.1 + ArgsOf(QualitySelection(threshold)))
  {
    if threshold.Some? {
      AllowedQualitiesResolve(threshold.value);
      match Quality.Resolve(threshold.value)
      case Some(level) =>
        Quality.AllowedNamesSpec(level);
        RenderAllSingleton(Condition(QualityColumn, Quality.AllowedNames(level)));
      case None =>
        assert acc.0 + "" == acc.0 && acc.1 + [] == acc.1;
    } else {
      assert acc.0 + "" == acc.0 && acc.1 + [] == acc.1;
    }
  }

  /** The value list of one comparison filter: the user's value when truthy. */
  function ValueOf(v: Option<string>): seq<string> {
    if Truthy(v) then [v.value] else []
  }

  /** The value list of the quality filter: the admitted level names. */
  function QualityArgs(threshold: Option<string>): seq<string> {
    if threshold.Some? && Quality.Resolve(threshold.value).Some?
    then Quality.AllowedNames(Quality.Resolve(threshold.value).value)
    else []
  }

  lemma ArgsOfSingle(column: Column, v: Option<string>)
    ensures ArgsOf(Single(column, v)) == ValueOf(v)
  {
    if Truthy(v) {
      RenderAllSingleton(Condition(column, [v.value]));
    }
  }

  lemma ArgsOfQualitySelection(threshold: Option<string>)
    ensures ArgsOf(QualitySelection(threshold)) == QualityArgs(threshold)
  {
    if threshold.Some? && Quality.Resolve(threshold.value).Some? {
      RenderAllSingleton(Condition(QualityColumn, QualityArgs(threshold)));
    }
  }

  /** The shared builder returns the input query and parameters extended, never
      shortened or rewritten. */
  lemma BuildOnlyAppends(query: string, params: seq<string>, f: Filters)
    ensures query <= BuildClimateFilters(query, params, f).0
    ensures params <= BuildClimateFilters(query, params, f).1
  {
    BuildAppendsSelected(query, params, f);
  }

  /** The parameters appended are the truthy filter values in the order
      location, metric, start date, end date, followed by the admitted quality
      names in ascending order. */
  lemma AppendedParamsInFixedOrder(query: string, params: seq<string>, f: Filters)
    ensures BuildClimateFilters(query, params, f).1
            == params + ValueOf(f.locationId) + ValueOf(f.metric) + ValueOf(f.startDate)
               + ValueOf(f.endDate) + QualityArgs(f.qualityThreshold)
  {
    BuildAppendsSelected(query, params, f);
    var s1 := Single(LocationColumn, f.locationId);
    var s2 := Single(MetricColumn, f.metric);
    var s3 := Single(StartDateColumn, f.startDate);
    var s4 := Single(EndDateColumn, f.endDate);
    var s5 := QualitySelection(f.qualityThreshold);
    RenderAllAppend(s1, s2);
    RenderAllAppend(s1 + s2, s3);
    RenderAllAppend(s1 + s2 + s3, s4);
    RenderAllAppend(s1 + s2 + s3 + s4, s5);
    ArgsOfSingle(LocationColumn, f.locationId);
    ArgsOfSingle(MetricColumn, f.metric);
    ArgsOfSingle(StartDateColumn, f.startDate);
    ArgsOfSingle(EndDateColumn, f.endDate);
    ArgsOfQualitySelection(f.qualityThreshold);
    var a1, a2, a3, a4, a5 := ArgsOf(s1), ArgsOf(s2), ArgsOf(s3), ArgsOf(s4), ArgsOf(s5);
    AppendAssoc(params, a1 + a2 + a3 + a4, a5);
    AppendAssoc(params, a1 + a2 + a3, a4);
    AppendAssoc(params, a1 + a2, a3);
    AppendAssoc(params, a1, a2);
  }

  // ---------------------------------------------------------------------------
  // Properties of the selection.

  /** Conditions in strictly increasing column order. */
  predicate Ordered(cs: seq<Condition>) {
    forall i, j :: 0 <= i < j < |cs| ==> Position(cs[i].column) < Position(cs[j].column)
  }

  /** Every condition's column lies in [lo, hi). */
  predicate Between(cs: seq<Condition>, lo: nat, hi: nat) {
    forall i :: 0 <= i < |cs| ==> lo <= Position(cs[i].column) < hi
  }

  lemma OrderedAppend(a: seq<Condition>, b: seq<Condition>, lo: nat, mid: nat, hi: nat)
    requires lo <= mid <= hi
    requires Ordered(a) && Ordered(b) && Between(a, lo, mid) && Between(b, mid, hi)
    ensures Ordered(a + b) && Between(a + b, lo, hi)
  {
    forall i, j | 0 <= i < j < |a + b|
      ensures Position((a + b)[i].column) < Position((a + b)[j].column)
    {
      if j < |a| {
        assert (a + b)[i] == a[i] && (a + b)[j] == a[j];
      } else if i < |a| {
        assert (a + b)[i] == a[i] && (a + b)[j] == b[j - |a|];
      } else {
        assert (a + b)[i] == b[i - |a|] && (a + b)[j] == b[j - |a|];
      }
    }
    forall i | 0 <= i < |a + b|
      ensures lo <= Position((a + b)[i].column) < hi
    {
      if i < |a| {
        assert (a + b)[i] == a[i];
      } else {
        assert (a + b)[i] == b[i - |a|];
      }
    }
  }

  /** Selected conditions follow the fixed order location, metric, start date,
      end date, quality; so no column is constrained twice. */
  lemma SelectedInFixedOrder(f: Filters)
    ensures Ordered(Selected(f))
  {
    var s1 := Single(LocationColumn, f.locationId);
    var s2 := Single(MetricColumn, f.metric);
    var s3 := Single(StartDateColumn, f.startDate);
    var s4 := Single(EndDateColumn, f.endDate);
    var s5 := QualitySelection(f.qualityThreshold);
    assert Ordered(s1) && Between(s1, 0, 1);
    assert Ordered(s2) && Between(s2, 1, 2);
    assert Ordered(s3) && Between(s3, 2, 3);
    assert Ordered(s4) && Between(s4, 3, 4);
    assert Ordered(s5) && Between(s5, 4, 5);
    OrderedAppend(s1, s2, 0, 1, 2);
    OrderedAppend(s1 + s2, s3, 0, 2, 3);
    OrderedAppend(s1 + s2 + s3, s4, 0, 3, 4);
    OrderedAppend(s1 + s2 + s3 + s4, s5, 0, 4, 5);
  }

  lemma InSingle(column: Column, v: Option<string>, x: Condition)
    ensures x in Single(column, v) <==> Truthy(v) && x == Condition(column, [v.value])
  {
  }

  lemma InQualitySelection(threshold: Option<string>, x: Condition)
    ensures x in QualitySelection(threshold) ==> x.column == QualityColumn
  {
  }

  /** A condition on a comparison column is selected exactly when it is the
      one its filter yields. */
  lemma InSelected(f: Filters, x: Condition)
    requires x.column != QualityColumn
    ensures x in Selected(f) <==>
              || (x.column == LocationColumn && Truthy(f.locationId) && x.args == [f.locationId.value])
              || (x.column == MetricColumn && Truthy(f.metric) && x.args == [f.metric.value])
              || (x.column == StartDateColumn && Truthy(f.startDate) && x.args == [f.startDate.value])
              || (x.column == EndDateColumn && Truthy(f.endDate) && x.args == [f.endDate.value])
  {
    InSingle(LocationColumn, f.locationId, x);
    InSingle(MetricColumn, f.metric, x);
    InSingle(StartDateColumn, f.startDate, x);
    InSingle(EndDateColumn, f.endDate, x);
    InQualitySelection(f.qualityThreshold, x);
  }

  /** A comparison column is constrained exactly when its filter is truthy,
      and then it binds exactly the user's value. */
  lemma SelectedExactlyTheTruthyFilters(f: Filters)
    ensures Condition(LocationColumn, [f.locationId.GetOr("")]) in Selected(f) <==> Truthy(f.locationId)
    ensures Condition(MetricColumn, [f.metric.GetOr("")]) in Selected(f) <==> Truthy(f.metric)
    ensures Condition(StartDateColumn, [f.startDate.GetOr("")]) in Selected(f) <==> Truthy(f.startDate)
    ensures Condition(EndDateColumn, [f.endDate.GetOr("")]) in Selected(f) <==> Truthy(f.endDate)
    ensures forall c :: c in Selected(f) && c.column != QualityColumn ==> |c.args| == 1
  {
    InSelected(f, Condition(LocationColumn, [f.locationId.GetOr("")]));
    InSelected(f, Condition(MetricColumn, [f.metric.GetOr("")]));
    InSelected(f, Condition(StartDateColumn, [f.startDate.GetOr("")]));
    InSelected(f, Condition(EndDateColumn, [f.endDate.GetOr("")]));
    forall c | c in Selected(f) && c.column != QualityColumn
      ensures |c.args| == 1
    {
      InSelected(f, c);
    }
  }

  /** The quality column is constrained exactly when a threshold is given and
      names a level in any case, and then it binds the admitted level names. */
  lemma SelectedQualityIffThresholdResolves(f: Filters)
    ensures (exists c :: c in Selected(f) && c.column == QualityColumn)
            <==> f.qualityThreshold.Some? && Quality.Resolve(f.qualityThreshold.value).Some?
    ensures forall c :: c in Selected(f) && c.column == QualityColumn ==>
              c.args == Quality.AllowedNames(Quality.Resolve(f.qualityThreshold.value).value)
  {
    var comparisons := Single(LocationColumn, f.locationId) + Single(MetricColumn, f.metric)
                       + Single(StartDateColumn, f.startDate) + Single(EndDateColumn, f.endDate);
    var quality := QualitySelection(f.qualityThreshold);
    assert Selected(f) == comparisons + quality;
    assert forall c :: c in comparisons ==> c.column != QualityColumn;
    if f.qualityThreshold.Some? && Quality.Resolve(f.qualityThreshold.value).Some? {
      var c := Condition(QualityColumn, Quality.AllowedNames(Quality.Resolve(f.qualityThreshold.value).value));
      assert quality == [c];
      assert c in Selected(f);
    }
  }

  /** Every selected condition is well formed. */
  lemma SelectedWellFormed(f: Filters)
    ensures forall c :: c in Selected(f) ==> WellFormed(c)
  {
    if f.qualityThreshold.Some? && Quality.Resolve(f.qualityThreshold.value).Some? {
      Quality.AllowedNamesSpec(Quality.Resolve(f.qualityThreshold.value).value);
    }
  }

  /** Each condition's text holds one placeholder per bound value. */
  lemma RenderPlaceholders(c: Condition)
    requires WellFormed(c)
    ensures PlaceholderCount(Render(c)) == |c.args|
  {
    match c.column
    case LocationColumn => OnePlaceholderAfter(" AND cd.location_id = ");
    case MetricColumn => OnePlaceholderAfter(" AND m.name = ");
    case StartDateColumn => OnePlaceholderAfter(" AND cd.date >= ");
    case EndDateColumn => OnePlaceholderAfter(" AND cd.date <= ");
    case QualityColumn =>
      var n := |c.args|;
      var inner := Join(ListSeparator, Repeat(Placeholder, n));
      JoinedPlaceholders(n);
      NoPercentNoPlaceholders(QualityOpen);
      PlaceholderCountAppend(inner, QualityClose);
      PlaceholderCountAppend(QualityOpen, inner + QualityClose);
      assert Render(c) == QualityOpen + (inner + QualityClose);
  }

  lemma {:induction false} RenderAllPlaceholders(cs: seq<Condition>)
    requires forall c :: c in cs ==> WellFormed(c)
    ensures PlaceholderCount(RenderAll(cs)) == |ArgsOf(cs)|
    ensures |RenderAll(cs)| == 0 || RenderAll(cs)[0] == ' '
    decreases |cs|
  {
    if |cs| > 0 {
      RenderPlaceholders(cs[0]);
      RenderAllPlaceholders(cs[1..]);
      PlaceholderCountAppend(Render(cs[0]), RenderAll(cs[1..]));
    }
  }

  /** The shared builder adds exactly as many placeholders to the query as
      values to the parameter list. */
  lemma PlaceholdersMatchParams(query: string, params: seq<string>, f: Filters)
    ensures var r := BuildClimateFilters(query, params, f);
            PlaceholderCount(r.0) == PlaceholderCount(query) + |r.1| - |params|
  {
    BuildAppendsSelected(query, params, f);
    SelectedWellFormed(f);
    RenderAllPlaceholders(Selected(f));
    PlaceholderCountAppend(query, RenderAll(Selected(f)));
  }

  /** The query and parameters come back unchanged exactly when no filter is
      truthy and the threshold, if any, names no level. */
  lemma UnchangedIffNothingSelected(query: string, params: seq<string>, f: Filters)
    ensures BuildClimateFilters(query, params, f) == (query, params)
            <==> (!Truthy(f.locationId) && !Truthy(f.metric) && !Truthy(f.startDate)
                  && !Truthy(f.endDate)
                  && (f.qualityThreshold.None? || Quality.Resolve(f.qualityThreshold.value).None?))
  {
    BuildAppendsSelected(query, params, f);
    var s := Selected(f);
    if |s| > 0 {
      assert |Render(s[0])| > 0;
      assert |RenderAll(s)| > 0;
    }
  }

  /** With no filters the query and parameters come back unchanged. */
  lemma NoFiltersIsIdentity(query: string, params: seq<string>)
    ensures BuildClimateFilters(query, params, NoFilters) == (query, params)
  {
  }

  /** A threshold that names no level, in any case, adds nothing. */
  lemma UnknownThresholdAddsNothing(query: string, params: seq<string>, f: Filters)
    requires f.qualityThreshold.Some? && Quality.Resolve(f.qualityThreshold.value).None?
    ensures BuildClimateFilters(query, params, f)
            == BuildClimateFilters(query, params, f.(qualityThreshold := None))
  {
    AllowedQualitiesResolve(f.qualityThreshold.value);
  }

  // ---------------------------------------------------------------------------
  // User text never reaches the query string.

  /** What the query text may depend on: which filters are truthy and which
      level the threshold resolves to. */
  datatype Shape = Shape(location: bool, metric: bool, startDate: bool, endDate: bool,
                         quality: Option<Quality.Level>)

  function ShapeOf(f: Filters): Shape {
    Shape(Truthy(f.locationId), Truthy(f.metric), Truthy(f.startDate), Truthy(f.endDate),
          if f.qualityThreshold.Some? then Quality.Resolve(f.qualityThreshold.value) else None)
  }

  /** The query text a shape determines. */
  function ShapeText(sh: Shape): string {
    (if sh.location then LocationCondition else "")
    + (if sh.metric then MetricCondition else "")
    + (if sh.startDate then StartDateCondition else "")
    + (if sh.endDate then EndDateCondition else "")
    + QualityText(sh.quality)
  }

  function QualityText(level: Option<Quality.Level>): string {
    if level.Some? then QualityCondition(|Quality.AllowedNames(level.value)|) else ""
  }

  lemma RenderAllSingle(column: Column, v: Option<string>)
    ensures RenderAll(Single(column, v)) == (if Truthy(v) then Render(Condition(column, [v.value])) else "")
  {
    if Truthy(v) {
      RenderAllSingleton(Condition(column, [v.value]));
    }
  }

  lemma QualitySelectionText(threshold: Option<string>)
    ensures RenderAll(QualitySelection(threshold))
            == QualityText(if threshold.Some? then Quality.Resolve(threshold.value) else None)
  {
    if threshold.Some? && Quality.Resolve(threshold.value).Some? {
      var level := Quality.Resolve(threshold.value).value;
      RenderAllSingleton(Condition(QualityColumn, Quality.AllowedNames(level)));
    }
  }

  /** The appended text is a function of the request's shape alone. */
  lemma RenderedByShape(f: Filters)
    ensures RenderAll(Selected(f)) == ShapeText(ShapeOf(f))
  {
    var s1 := Single(LocationColumn, f.locationId);
    var s2 := Single(MetricColumn, f.metric);
    var s3 := Single(StartDateColumn, f.startDate);
    var s4 := Single(EndDateColumn, f.endDate);
    var s5 := QualitySelection(f.qualityThreshold);
    RenderAllAppend(s1, s2);
    RenderAllAppend(s1 + s2, s3);
    RenderAllAppend(s1 + s2 + s3, s4);
    RenderAllAppend(s1 + s2 + s3 + s4, s5);
    RenderAllSingle(LocationColumn, f.locationId);
    RenderAllSingle(MetricColumn, f.metric);
    RenderAllSingle(StartDateColumn, f.startDate);
    RenderAllSingle(EndDateColumn, f.endDate);
    QualitySelectionText(f.qualityThreshold);
  }

  /** Two requests of the same shape produce the same query text, whatever the
      user's values are: those values reach the parameter list only. */
  lemma QueryTextIndependentOfValues(query: string, p: seq<string>, p': seq<string>, f: Filters, f': Filters)
    requires ShapeOf(f) == ShapeOf(f')
    ensures BuildClimateFilters(query, p, f).0 == BuildClimateFilters(query, p', f').0
  {
    BuildAppendsSelected(query, p, f);
    BuildAppendsSelected(query, p', f');
    RenderedByShape(f);
    RenderedByShape(f');
  }

  /** The fixed fragments the builder emits; every other character of the query
      comes from the caller's base query. */
  const Fragments: set<string> := {LocationCondition, MetricCondition, StartDateCondition,
                                   EndDateCondition, QualityOpen, Placeholder, ListSeparator,
                                   QualityClose}

  function Tokens(c: Condition): seq<string> {
    match c.column
    case LocationColumn => [LocationCondition]
    case MetricColumn => [MetricCondition]
    case StartDateColumn => [StartDateCondition]
    case EndDateColumn => [EndDateCondition]
    case QualityColumn => [QualityOpen] + PlaceholderTokens(|c.args|) + [QualityClose]
  }

  function PlaceholderTokens(n: nat): seq<string>
    decreases n
  {
    if n == 0 then [] else if n == 1 then [Placeholder]
    else [Placeholder, ListSeparator] + PlaceholderTokens(n - 1)
  }

  lemma {:induction false} PlaceholderTokensFlatten(n: nat)
    ensures Flatten(PlaceholderTokens(n)) == Join(ListSeparator, Repeat(Placeholder, n))
    ensures forall t :: t in PlaceholderTokens(n) ==> t in Fragments
    decreases n
  {
    if n == 1 {
      assert Flatten([Placeholder]) == Placeholder + Flatten([]);
    } else if n > 1 {
      PlaceholderTokensFlatten(n - 1);
      assert Repeat(Placeholder, n)[1..] == Repeat(Placeholder, n - 1);
      FlattenAppend([Placeholder, ListSeparator], PlaceholderTokens(n - 1));
      assert Flatten([Placeholder, ListSeparator]) == Placeholder + ListSeparator by {
        assert Flatten([ListSeparator]) == ListSeparator + Flatten([]);
      }
    }
  }

  function AllTokens(cs: seq<Condition>): seq<string>
    decreases |cs|
  {
    if |cs| == 0 then [] else Tokens(cs[0]) + AllTokens(cs[1..])
  }

  lemma TokensFlatten(c: Condition)
    ensures Flatten(Tokens(c)) == Render(c)
    ensures forall t :: t in Tokens(c) ==> t in Fragments
  {
    if c.column == QualityColumn {
      var n := |c.args|;
      PlaceholderTokensFlatten(n);
      FlattenAppend([QualityOpen], PlaceholderTokens(n));
      FlattenAppend([QualityOpen] + PlaceholderTokens(n), [QualityClose]);
      assert Flatten([QualityOpen]) == QualityOpen + Flatten([]);
      assert Flatten([QualityClose]) == QualityClose + Flatten([]);
    } else {
      assert Flatten(Tokens(c)) == Tokens(c)[0] + Flatten([]);
    }
  }

  lemma {:induction false} AllTokensFlatten(cs: seq<Condition>)
    ensures Flatten(AllTokens(cs)) == RenderAll(cs)
    ensures forall t :: t in AllTokens(cs) ==> t in Fragments
    decreases |cs|
  {
    if |cs| > 0 {
      TokensFlatten(cs[0]);
      AllTokensFlatten(cs[1..]);
      FlattenAppend(Tokens(cs[0]), AllTokens(cs[1..]));
    }
  }

  /** The text the builder appends is a concatenation of fixed fragments only. */
  lemma AppendedTextIsFixedFragments(query: string, params: seq<string>, f: Filters)
    ensures BuildClimateFilters(query, params, f).0 == query + Flatten(AllTokens(Selected(f)))
    ensures forall t :: t in AllTokens(Selected(f)) ==> t in Fragments
  {
    BuildAppendsSelected(query, params, f);
    AllTokensFlatten(Selected(f));
  }
}
