/** The post-processing of `get_summary`: the fetched rows are grouped by
    metric, and each group gets a quality-weight sum and a quality
    distribution. */
module Summary {
  import opened Wrappers
  import Quality

  /** One row of the summary query. The value is the reading as a real number;
      the quality is whatever text the database holds. */
  datatype Row = Row(metric: string, unit: string, value: real, quality: string)

  /** The per-metric accumulator: values and qualities in row order and the
      unit of the latest row. */
  datatype Group = Group(values: seq<real>, qualities: seq<string>, unit: Option<string>)

  /** What the `defaultdict` factory creates on first access to a metric. */
  const EmptyGroup: Group := Group([], [], None)

  // ---------------------------------------------------------------------------
  // Reference definitions of a metric's group.

  /** The rows of metric `m`, in input order. */
  function RowsOf(rows: seq<Row>, m: string): seq<Row>
    decreases |rows|
  {
    if |rows| == 0 then []
    else RowsOf(rows[..|rows| - 1], m)
         + (if rows[|rows| - 1].metric == m then [rows[|rows| - 1]] else [])
  }

  function Values(rs: seq<Row>): seq<real> {
    seq(|rs|, i requires 0 <= i < |rs| => rs[i].value)
  }

  function Qualities(rs: seq<Row>): seq<string> {
    seq(|rs|, i requires 0 <= i < |rs| => rs[i].quality)
  }

  function LastUnit(rs: seq<Row>): Option<string> {
    if |rs| == 0 then None else Some(rs[|rs| - 1].unit)
  }

  /** The group the handler should build for metric `m`. */
  function GroupOf(rows: seq<Row>, m: string): Group {
    var rs := RowsOf(rows, m);
    Group(Values(rs), Qualities(rs), LastUnit(rs))
  }

  lemma RowsOfSnoc(rows: seq<Row>, r: Row, m: string)
    ensures RowsOf(rows + [r], m) == RowsOf(rows, m) + (if r.metric == m then [r] else [])
  {
    assert (rows + [r])[..|rows|] == rows;
  }

  /** A metric's rows are rows of the input, of that metric, and there are as
      many as the input has rows of that metric. */
  lemma {:induction false} RowsOfSpec(rows: seq<Row>, m: string)
    ensures forall r :: r in RowsOf(rows, m) ==> r in rows && r.metric == m
    ensures (exists i :: 0 <= i < |rows| && rows[i].metric == m) <==> |RowsOf(rows, m)| > 0
    decreases |rows|
  {
    if |rows| > 0 {
      var init := rows[..|rows| - 1];
      RowsOfSpec(init, m);
      if exists i :: 0 <= i < |init| && init[i].metric == m {
        var i :| 0 <= i < |init| && init[i].metric == m;
        assert rows[i].metric == m;
      }
      if exists i :: 0 <= i < |rows| && rows[i].metric == m {
        var i :| 0 <= i < |rows| && rows[i].metric == m;
        if i < |init| {
          assert init[i].metric == m;
        }
      }
    }
  }

  /** The distinct metrics of `rows`, in the order of their first row. */
  function MetricsOf(rows: seq<Row>): seq<string>
    decreases |rows|
  {
    if |rows| == 0 then []
    else
      var earlier := MetricsOf(rows[..|rows| - 1]);
      var m := rows[|rows| - 1].metric;
      if m in earlier then earlier else earlier + [m]
  }

  lemma MetricsOfSnoc(rows: seq<Row>, r: Row)
    ensures MetricsOf(rows + [r])
            == if r.metric in MetricsOf(rows) then MetricsOf(rows) else MetricsOf(rows) + [r.metric]
  {
    assert (rows + [r])[..|rows|] == rows;
  }

  /** A metric listed before another in `order` has a row before every row of
      the other: `order` follows the metrics' first rows. */
  predicate InFirstRowOrder(rows: seq<Row>, order: seq<string>) {
    forall i, j, k :: 0 <= i < j < |order| && 0 <= k < |rows| && rows[k].metric == order[j]
      ==> exists k' :: 0 <= k' < k && rows[k'].metric == order[i]
  }

  /** `MetricsOf` lists exactly the metrics of the rows, in the order of their
      first rows. */
  lemma {:induction false} MetricsOfSpec(rows: seq<Row>)
    ensures forall m :: m in MetricsOf(rows) <==> exists k :: 0 <= k < |rows| && rows[k].metric == m
    ensures InFirstRowOrder(rows, MetricsOf(rows))
    decreases |rows|
  {
    if |rows| > 0 {
      var n := |rows|;
      var init := rows[..n - 1];
      var r := rows[n - 1];
      assert rows == init + [r];
      MetricsOfSpec(init);
      MetricsOfSnoc(init, r);
      var o := MetricsOf(init);
      var o' := MetricsOf(rows);
      assert forall k :: 0 <= k < n - 1 ==> rows[k] == init[k];
      forall m
        ensures m in o' <==> exists k :: 0 <= k < n && rows[k].metric == m
      {
        if m in o' && m in o {
          var k :| 0 <= k < |init| && init[k].metric == m;
          assert rows[k].metric == m;
        }
        if m in o' && m !in o {
          assert rows[n - 1].metric == m;
        }
        if exists k :: 0 <= k < n && rows[k].metric == m {
          var k :| 0 <= k < n && rows[k].metric == m;
          if k < n - 1 {
            assert init[k].metric == m;
          }
        }
      }
      forall i, j, k | 0 <= i < j < |o'| && 0 <= k < n && rows[k].metric == o'[j]
        ensures exists k' :: 0 <= k' < k && rows[k'].metric == o'[i]
      {
        assert o'[i] == o[i] && o[i] in o;
        var k0 :| 0 <= k0 < |init| && init[k0].metric == o[i];
        assert rows[k0].metric == o'[i];
        if r.metric in o || j < |o| {
          assert o'[j] == o[j];
          if k < n - 1 {
            assert init[k].metric == o[j];
            var k' :| 0 <= k' < k && init[k'].metric == o[i];
            assert rows[k'].metric == o'[i];
          }
        } else {
          assert o'[j] == r.metric;
          assert k == n - 1;
        }
      }
    }
  }

  // ---------------------------------------------------------------------------
  // Grouping.

  /** `order` lists each metric of `rows` once, `groups` has exactly those
      metrics as keys, and each group is the metric's reference group. */
  predicate GroupedFrom(rows: seq<Row>, order: seq<string>, groups: map<string, Group>) {
    && (forall i, j :: 0 <= i < j < |order| ==> order[i] != order[j])
    && (forall m :: m in groups ==> m in order)
    && (forall i :: 0 <= i < |order| ==> order[i] in groups)
    && (forall i :: 0 <= i < |rows| ==> rows[i].metric in groups)
    && (forall m :: m in groups ==> |RowsOf(rows, m)| > 0 && groups[m] == GroupOf(rows, m))
  }

  /** Adding one row to its metric's group, creating the group first when the
      metric is new. */
  function AddRow(order: seq<string>, groups: map<string, Group>, row: Row): (seq<string>, map<string, Group>) {
    var g := if row.metric in groups then groups[row.metric] else EmptyGroup;
    (if row.metric in groups then order else order + [row.metric],
     groups[row.metric := Group(g.values + [row.value], g.qualities + [row.quality], Some(row.unit))])
  }

  /** After adding a row, the row's own metric has the reference group of the
      extended rows. */
  lemma AddRowUpdatesItsGroup(rows: seq<Row>, order: seq<string>, groups: map<string, Group>, row: Row)
    requires row.metric in groups ==> groups[row.metric] == GroupOf(rows, row.metric)
    requires row.metric !in groups ==> RowsOf(rows, row.metric) == []
    ensures AddRow(order, groups, row).1[row.metric] == GroupOf(rows + [row], row.metric)
  {
    var m := row.metric;
    RowsOfSnoc(rows, row, m);
    var rs := RowsOf(rows, m);
    var g := if m in groups then groups[m] else EmptyGroup;
    if m !in groups {
      assert Values([]) == [] && Qualities([]) == [];
    }
    assert g == GroupOf(rows, m);
    GroupOfSnoc(rs, row);
  }

  /** Extending a metric's rows by one row extends its reference group by it. */
  lemma GroupOfSnoc(rs: seq<Row>, row: Row)
    ensures Group(Values(rs + [row]), Qualities(rs + [row]), LastUnit(rs + [row]))
            == Group(Values(rs) + [row.value], Qualities(rs) + [row.quality], Some(row.unit))
  {
    assert Values(rs + [row]) == Values(rs) + [row.value];
    assert Qualities(rs + [row]) == Qualities(rs) + [row.quality];
  }

  /** After adding a row, every group is the reference group of the extended rows. */
  lemma AddRowKeepsGroups(rows: seq<Row>, order: seq<string>, groups: map<string, Group>, row: Row)
    requires GroupedFrom(rows, order, groups)
    ensures var groups' := AddRow(order, groups, row).1;
            forall m :: m in groups' ==> |RowsOf(rows + [row], m)| > 0 && groups'[m] == GroupOf(rows + [row], m)
  {
    var groups' := AddRow(order, groups, row).1;
    if row.metric !in groups {
      RowsOfSpec(rows, row.metric);
    }
    AddRowUpdatesItsGroup(rows, order, groups, row);
    forall m | m in groups'
      ensures |RowsOf(rows + [row], m)| > 0 && groups'[m] == GroupOf(rows + [row], m)
    {
      RowsOfSnoc(rows, row, m);
      if m != row.metric {
        assert RowsOf(rows + [row], m) == RowsOf(rows, m);
        assert groups'[m] == groups[m];
      }
    }
  }

  /** After adding a row, every row seen so far has a group. */
  lemma AddRowKeepsRowsGrouped(rows: seq<Row>, order: seq<string>, groups: map<string, Group>, row: Row)
    requires GroupedFrom(rows, order, groups)
    ensures forall i :: 0 <= i < |rows + [row]| ==> (rows + [row])[i].metric in AddRow(order, groups, row).1
  {
    var rows' := rows + [row];
    var groups' := AddRow(order, groups, row).1;
    forall i | 0 <= i < |rows'|
      ensures rows'[i].metric in groups'
    {
      if i < |rows| {
        assert rows'[i] == rows[i];
      }
    }
  }

  /** After adding a row, the metric order still lists each group once. */
  lemma AddRowKeepsOrder(rows: seq<Row>, order: seq<string>, groups: map<string, Group>, row: Row)
    requires GroupedFrom(rows, order, groups)
    ensures var (order', groups') := AddRow(order, groups, row);
            && (forall i, j :: 0 <= i < j < |order'| ==> order'[i] != order'[j])
            && (forall m :: m in groups' ==> m in order')
            && (forall i :: 0 <= i < |order'| ==> order'[i] in groups')
  {
    var (order', groups') := AddRow(order, groups, row);
    if row.metric !in groups {
      assert order' == order + [row.metric];
      assert row.metric !in order;
      forall i, j | 0 <= i < j < |order'|
        ensures order'[i] != order'[j]
      {
        if j == |order| {
          assert order'[i] == order[i];
        }
      }
    }
  }

  /** Adding a row appends its metric to the order exactly when the metric is new. */
  lemma AddRowFollowsFirstOccurrence(rows: seq<Row>, order: seq<string>, groups: map<string, Group>, row: Row)
    requires GroupedFrom(rows, order, groups) && order == MetricsOf(rows)
    ensures AddRow(order, groups, row).0 == MetricsOf(rows + [row])
  {
    MetricsOfSnoc(rows, row);
    assert row.metric in groups <==> row.metric in order;
  }

  /** Adding a row keeps the grouping in step with the rows seen so far. */
  lemma AddRowKeepsGrouping(rows: seq<Row>, order: seq<string>, groups: map<string, Group>, row: Row)
    requires GroupedFrom(rows, order, groups)
    ensures GroupedFrom(rows + [row], AddRow(order, groups, row).0, AddRow(order, groups, row).1)
  {
    AddRowKeepsOrder(rows, order, groups, row);
    AddRowKeepsGroups(rows, order, groups, row);
    AddRowKeepsRowsGrouped(rows, order, groups, row);
  }

  /** The grouping loop of `get_summary`: each row's value, quality and unit
      go to its metric's group, created on the metric's first row; `order` is
      the insertion order of the `defaultdict`. */
  method GroupByMetric(rows: seq<Row>) returns (order: seq<string>, groups: map<string, Group>)
    ensures GroupedFrom(rows, order, groups)
    ensures order == MetricsOf(rows)
    ensures InFirstRowOrder(rows, order)
    ensures forall m :: m in groups ==> |groups[m].values| == |groups[m].qualities| > 0
    ensures GroupTotal(order, groups) == |rows|
  {
    order := [];
    groups := map[];
    var i := 0;
    while i < |rows|
      invariant 0 <= i <= |rows|
      invariant GroupedFrom(rows[..i], order, groups)
      invariant order == MetricsOf(rows[..i])
    {
      var row := rows[i];
      assert rows[..i + 1] == rows[..i] + [row];
      AddRowKeepsGrouping(rows[..i], order, groups, row);
      AddRowFollowsFirstOccurrence(rows[..i], order, groups, row);
      order, groups := AddRow(order, groups, row).0, AddRow(order, groups, row).1;
      i := i + 1;
    }
    assert rows[..i] == rows;
    GroupSizesSumToRows(rows, order, groups);
    GroupsNonEmpty(rows, order, groups);
    MetricsInFirstRowOrder(rows);
  }

  /** Every group of a grouping has as many values as qualities, and at least one. */
  lemma GroupsNonEmpty(rows: seq<Row>, order: seq<string>, groups: map<string, Group>)
    requires GroupedFrom(rows, order, groups)
    ensures forall m :: m in groups ==> |groups[m].values| == |groups[m].qualities| > 0
  {
  }

  lemma MetricsInFirstRowOrder(rows: seq<Row>)
    ensures InFirstRowOrder(rows, MetricsOf(rows))
  {
    MetricsOfSpec(rows);
  }

  /** The number of values held by the groups listed in `order`. */
  function GroupTotal(order: seq<string>, groups: map<string, Group>): nat
    decreases |order|
  {
    if |order| == 0 then 0
    else (if order[0] in groups then |groups[order[0]].values| else 0) + GroupTotal(order[1..], groups)
  }

  /** The number of rows whose metric is listed in `ks`, counted per metric. */
  function SumCounts(rows: seq<Row>, ks: seq<string>): nat
    decreases |ks|
  {
    if |ks| == 0 then 0 else |RowsOf(rows, ks[0])| + SumCounts(rows, ks[1..])
  }

  function Occurrences(ks: seq<string>, k: string): nat
    decreases |ks|
  {
    if |ks| == 0 then 0 else (if ks[0] == k then 1 else 0) + Occurrences(ks[1..], k)
  }

  lemma {:induction false} OccursOnce(ks: seq<string>, k: string)
    requires forall i, j :: 0 <= i < j < |ks| ==> ks[i] != ks[j]
    requires k in ks
    ensures Occurrences(ks, k) == 1
    decreases |ks|
  {
    if ks[0] == k {
      OccursNever(ks[1..], k);
    } else {
      OccursOnce(ks[1..], k);
    }
  }

  lemma {:induction false} OccursNever(ks: seq<string>, k: string)
    requires k !in ks
    ensures Occurrences(ks, k) == 0
    decreases |ks|
  {
    if |ks| > 0 {
      OccursNever(ks[1..], k);
    }
  }

  lemma {:induction false} SumCountsSnoc(rows: seq<Row>, r: Row, ks: seq<string>)
    ensures SumCounts(rows + [r], ks) == SumCounts(rows, ks) + Occurrences(ks, r.metric)
    decreases |ks|
  {
    if |ks| > 0 {
      RowsOfSnoc(rows, r, ks[0]);
      SumCountsSnoc(rows, r, ks[1..]);
    }
  }

  /** Counting the rows metric by metric over a list naming each metric of the
      rows once counts every row once. */
  lemma {:induction false} SumCountsCoversRows(rows: seq<Row>, ks: seq<string>)
    requires forall i, j :: 0 <= i < j < |ks| ==> ks[i] != ks[j]
    requires forall i :: 0 <= i < |rows| ==> rows[i].metric in ks
    ensures SumCounts(rows, ks) == |rows|
    decreases |rows|
  {
    if |rows| == 0 {
      SumCountsEmpty(ks);
    } else {
      var init, last := rows[..|rows| - 1], rows[|rows| - 1];
      assert rows == init + [last];
      SumCountsCoversRows(init, ks);
      SumCountsSnoc(init, last, ks);
      OccursOnce(ks, last.metric);
    }
  }

  lemma {:induction false} SumCountsEmpty(ks: seq<string>)
    ensures SumCounts([], ks) == 0
    decreases |ks|
  {
    if |ks| > 0 {
      SumCountsEmpty(ks[1..]);
    }
  }

  lemma {:induction false} GroupTotalIsSumCounts(rows: seq<Row>, order: seq<string>, groups: map<string, Group>)
    requires forall m :: m in groups ==> groups[m] == GroupOf(rows, m)
    requires forall k :: k in order ==> k in groups
    ensures GroupTotal(order, groups) == SumCounts(rows, order)
    decreases |order|
  {
    if |order| > 0 {
      GroupTotalIsSumCounts(rows, order[1..], groups);
    }
  }

  /** The groups' sizes add up to the number of input rows: grouping neither
      drops nor duplicates a row. */
  lemma GroupSizesSumToRows(rows: seq<Row>, order: seq<string>, groups: map<string, Group>)
    requires GroupedFrom(rows, order, groups)
    ensures GroupTotal(order, groups) == |rows|
  {
    GroupTotalIsSumCounts(rows, order, groups);
    SumCountsCoversRows(rows, order);
  }

  // ---------------------------------------------------------------------------
  // Quality counts, distribution and weights.

  /** `Counter(qualities)[q]`. */
  function Count(qs: seq<string>, q: string): nat
    decreases |qs|
  {
    if |qs| == 0 then 0 else (if qs[0] == q then 1 else 0) + Count(qs[1..], q)
  }

  /** The four keys of `quality_distribution`. */
  const DistributionKeys: set<string> := {"excellent", "good", "questionable", "poor"}

  /** How many of the qualities are each of the four levels. */
  function QualityCounts(qs: seq<string>): (r: map<string, nat>)
    ensures r.Keys == DistributionKeys
    ensures forall k :: k in r ==> r[k] <= |qs|
  {
    CountBounded(qs, "excellent");
    CountBounded(qs, "good");
    CountBounded(qs, "questionable");
    CountBounded(qs, "poor");
    map["excellent" := Count(qs, "excellent"), "good" := Count(qs, "good"),
        "questionable" := Count(qs, "questionable"), "poor" := Count(qs, "poor")]
  }

  lemma {:induction false} CountBounded(qs: seq<string>, q: string)
    ensures Count(qs, q) <= |qs|
    decreases |qs|
  {
    if |qs| > 0 {
      CountBounded(qs[1..], q);
    }
  }

  /** `q` is the name of one of the four levels. */
  predicate KnownLevel(q: string) {
    Quality.Parse(q).Some?
  }

  lemma KnownLevelIsLevelName(q: string)
    ensures KnownLevel(q) <==> Quality.Parse(q).Some?
    ensures KnownLevel(q) <==> q in DistributionKeys
  {
  }

  /** When every quality is one of the four levels, the four counts add up to
      the number of qualities. */
  lemma {:induction false} CountsSumToTotal(qs: seq<string>)
    requires forall i :: 0 <= i < |qs| ==> KnownLevel(qs[i])
    ensures var c := QualityCounts(qs);
            c["excellent"] + c["good"] + c["questionable"] + c["poor"] == |qs|
    decreases |qs|
  {
    if |qs| > 0 {
      CountsSumToTotal(qs[1..]);
    }
  }

  /** A count out of a non-zero total, as a fraction. */
  function Share(count: nat, total: nat): (r: real)
    requires 0 < total && count <= total
    ensures 0.0 <= r <= 1.0
  {
    DivBounds(count as real, total as real);
    count as real / total as real
  }

  lemma DivBounds(a: real, t: real)
    requires 0.0 < t && 0.0 <= a <= t
    ensures 0.0 <= a / t <= 1.0
  {
    var q := a / t;
    assert q * t == a;
  }

  lemma DivAdd(a: real, b: real, t: real)
    requires t != 0.0
    ensures a / t + b / t == (a + b) / t
  {
    var x, y, z := a / t, b / t, (a + b) / t;
    assert x * t == a && y * t == b && z * t == a + b;
    assert (x + y - z) * t == 0.0;
  }

  lemma SharesAdd(a: nat, b: nat, total: nat)
    requires 0 < total && a + b <= total
    ensures Share(a, total) + Share(b, total) == Share(a + b, total)
  {
    DivAdd(a as real, b as real, total as real);
  }

  /** `quality_distribution`: each level's share of the group, as an exact
      fraction. */
  function QualityDistribution(qs: seq<string>): (r: map<string, real>)
    requires |qs| > 0
    ensures r.Keys == DistributionKeys
    ensures forall k :: k in r ==> 0.0 <= r[k] <= 1.0
  {
    var c := QualityCounts(qs);
    var total := |qs|;
    map["excellent" := Share(c["excellent"], total), "good" := Share(c["good"], total),
        "questionable" := Share(c["questionable"], total), "poor" := Share(c["poor"], total)]
  }

  /** With every quality known, the shares add up to one. */
  lemma DistributionSumsToOne(qs: seq<string>)
    requires |qs| > 0
    requires forall i :: 0 <= i < |qs| ==> KnownLevel(qs[i])
    ensures var d := QualityDistribution(qs);
            d["excellent"] + d["good"] + d["questionable"] + d["poor"] == 1.0
  {
    CountsSumToTotal(qs);
    var c := QualityCounts(qs);
    var t := |qs|;
    var e, g, u, p := c["excellent"], c["good"], c["questionable"], c["poor"];
    SharesAdd(e, g, t);
    SharesAdd(e + g, u, t);
    SharesAdd(e + g + u, p, t);
    ShareOfWhole(t);
  }

  lemma ShareOfWhole(total: nat)
    requires 0 < total
    ensures Share(total, total) == 1.0
  {
    var t := total as real;
    assert (t / t) * t == t;
    assert (t / t - 1.0) * t == 0.0;
  }

  /** `QUALITY_WEIGHTS`. */
  const QualityWeights: map<string, real> :=
    map["excellent" := 1.0, "good" := 0.8, "questionable" := 0.5, "poor" := 0.3]

  /** The weights cover exactly the four levels, each with a weight in
      [0.3, 1.0], which is positive. */
  lemma WeightsPositive()
    ensures forall q :: q in QualityWeights <==> KnownLevel(q)
    ensures forall q :: q in QualityWeights ==> 0.3 <= QualityWeights[q] <= 1.0
  {
  }

  /** `sum(QUALITY_WEIGHTS[q] for q in qualities)`, or the first quality the
      lookup raises `KeyError` on. */
  function WeightSum(qs: seq<string>): Result<real, string>
    decreases |qs|
  {
    if |qs| == 0 then Success(0.0)
    else if qs[0] !in QualityWeights then Failure(qs[0])
    else match WeightSum(qs[1..])
         case Success(w) => Success(QualityWeights[qs[0]] + w)
         case Failure(e) => Failure(e)
  }

  /** The weight sum is defined exactly when every quality is a level, and then
      it lies between 0.3 and 1.0 per quality; so a non-empty group's weight sum
      is positive and the weighted average's division is defined. Otherwise
      the lookup fails on a quality that is not a level. */
  lemma {:induction false} WeightSumBounds(qs: seq<string>)
    ensures WeightSum(qs).Success? <==> forall i :: 0 <= i < |qs| ==> KnownLevel(qs[i])
    ensures WeightSum(qs).Success? ==>
              0.3 * (|qs| as real) <= WeightSum(qs).value <= |qs| as real
    ensures WeightSum(qs).Failure? ==> WeightSum(qs).error in qs && !KnownLevel(WeightSum(qs).error)
    decreases |qs|
  {
    if |qs| > 0 {
      WeightSumBounds(qs[1..]);
      if !KnownLevel(qs[0]) {
        assert qs[0] !in QualityWeights;
      } else if WeightSum(qs[1..]).Failure? {
        var i :| 0 <= i < |qs[1..]| && !KnownLevel(qs[1..][i]);
        assert !KnownLevel(qs[i + 1]);
      } else {
        assert forall i :: 1 <= i < |qs| ==> qs[i] == qs[1..][i - 1];
      }
    }
  }

  lemma NonEmptyGroupWeightPositive(qs: seq<string>)
    requires |qs| > 0
    requires forall i :: 0 <= i < |qs| ==> KnownLevel(qs[i])
    ensures WeightSum(qs).Success? && WeightSum(qs).value > 0.0
  {
    WeightSumBounds(qs);
  }

  // ---------------------------------------------------------------------------
  // The per-metric result of `get_summary`.

  /** The part of a metric's summary the model computes: its unit, how many
      readings it has, their quality-weight sum and their quality distribution. */
  datatype MetricSummary = MetricSummary(unit: Option<string>, count: nat, weightSum: real,
                                         distribution: map<string, real>)

  predicate AllKnown(qs: seq<string>) {
    forall i :: 0 <= i < |qs| ==> KnownLevel(qs[i])
  }

  /** The result loop of `get_summary` over the metrics in `order`: empty groups
      are skipped, and the first quality without a weight aborts with that
      quality (the `KeyError`). */
  function Summarize(order: seq<string>, groups: map<string, Group>): Result<seq<(string, MetricSummary)>, string>
    requires forall i :: 0 <= i < |order| ==> order[i] in groups
    requires forall i :: 0 <= i < |order| ==> |groups[order[i]].values| == |groups[order[i]].qualities|
    decreases |order|
  {
    if |order| == 0 then Success([])
    else
      var g := groups[order[0]];
      if |g.values| == 0 then Summarize(order[1..], groups)
      else match WeightSum(g.qualities)
        case Failure(q) => Failure(q)
        case Success(w) =>
          match Summarize(order[1..], groups)
          case Failure(q) => Failure(q)
          case Success(rest) =>
            Success([(order[0], MetricSummary(g.unit, |g.values|, w, QualityDistribution(g.qualities)))] + rest)
  }

  /** The total number of readings the entries count. */
  function EntriesTotal(entries: seq<(string, MetricSummary)>): nat
    decreases |entries|
  {
    if |entries| == 0 then 0 else entries[0].1.count + EntriesTotal(entries[1..])
  }

  /** Over non-empty groups of equal-length values and qualities, the summary
      succeeds exactly when every quality is a level; then it has one entry per
      metric, in order, carrying the group's unit and size, a positive weight
      sum and a distribution over the four levels summing to one. Otherwise it
      fails on a quality of one of the groups that is not a level. */
  lemma SummarizeGroups(order: seq<string>, groups: map<string, Group>)
    requires forall i :: 0 <= i < |order| ==> order[i] in groups
    requires forall m :: m in groups ==> |groups[m].values| == |groups[m].qualities| > 0
    ensures Summarize(order, groups).Success?
            <==> forall i :: 0 <= i < |order| ==> AllKnown(groups[order[i]].qualities)
    ensures Summarize(order, groups).Failure? ==>
              exists i :: 0 <= i < |order| && Summarize(order, groups).error in groups[order[i]].qualities
                          && !KnownLevel(Summarize(order, groups).error)
    ensures Summarize(order, groups).Success? ==>
              var entries := Summarize(order, groups).value;
              && |entries| == |order|
              && EntriesTotal(entries) == GroupTotal(order, groups)
              && forall i :: 0 <= i < |order| ==> SummaryOfGroup(entries[i], order[i], groups[order[i]])
  {
    SummarizeSucceedsIffKnown(order, groups);
    SummarizeFailureWitness(order, groups);
    SummarizeSuccessEntries(order, groups);
  }

  lemma {:induction false} SummarizeSucceedsIffKnown(order: seq<string>, groups: map<string, Group>)
    requires forall i :: 0 <= i < |order| ==> order[i] in groups
    requires forall m :: m in groups ==> |groups[m].values| == |groups[m].qualities| > 0
    ensures Summarize(order, groups).Success?
            <==> forall i :: 0 <= i < |order| ==> AllKnown(groups[order[i]].qualities)
    decreases |order|
  {
    if |order| > 0 {
      SummarizeSucceedsIffKnown(order[1..], groups);
      WeightSumBounds(groups[order[0]].qualities);
      if forall i :: 0 <= i < |order| ==> AllKnown(groups[order[i]].qualities) {
        assert forall i :: 0 <= i < |order[1..]| ==> order[1..][i] == order[i + 1];
      } else {
        var i :| 0 <= i < |order| && !AllKnown(groups[order[i]].qualities);
        if i > 0 {
          assert order[1..][i - 1] == order[i];
        }
      }
    }
  }

  lemma {:induction false} SummarizeFailureWitness(order: seq<string>, groups: map<string, Group>)
    requires forall i :: 0 <= i < |order| ==> order[i] in groups
    requires forall m :: m in groups ==> |groups[m].values| == |groups[m].qualities| > 0
    ensures Summarize(order, groups).Failure? ==>
              exists i :: 0 <= i < |order| && Summarize(order, groups).error in groups[order[i]].qualities
                          && !KnownLevel(Summarize(order, groups).error)
    decreases |order|
  {
    if |order| > 0 && Summarize(order, groups).Failure? {
      var g := groups[order[0]];
      var r := Summarize(order, groups);
      WeightSumBounds(g.qualities);
      if WeightSum(g.qualities).Failure? {
        assert r.error == WeightSum(g.qualities).error;
      } else {
        SummarizeFailureWitness(order[1..], groups);
        var i :| 0 <= i < |order[1..]| && r.error in groups[order[1..][i]].qualities
                 && !KnownLevel(r.error);
        assert order[1..][i] == order[i + 1];
      }
    }
  }

  lemma {:induction false} SummarizeSuccessEntries(order: seq<string>, groups: map<string, Group>)
    requires forall i :: 0 <= i < |order| ==> order[i] in groups
    requires forall m :: m in groups ==> |groups[m].values| == |groups[m].qualities| > 0
    ensures Summarize(order, groups).Success? ==>
              var entries := Summarize(order, groups).value;
              && |entries| == |order|
              && EntriesTotal(entries) == GroupTotal(order, groups)
              && forall i :: 0 <= i < |order| ==> SummaryOfGroup(entries[i], order[i], groups[order[i]])
    decreases |order|
  {
    if |order| > 0 && Summarize(order, groups).Success? {
      var g := groups[order[0]];
      var r := Summarize(order, groups);
      SummarizeSuccessEntries(order[1..], groups);
      WeightSumBounds(g.qualities);
      var rest := Summarize(order[1..], groups).value;
      var entry := r.value[0];
      assert r.value == [entry] + rest;
      assert r.value[1..] == rest;
      DistributionSumsToOne(g.qualities);
      assert forall i :: 1 <= i < |order| ==> order[i] == order[1..][i - 1];
    }
  }

  /** An entry summarises group `g` of metric `m`: it carries the metric, the
      group's unit and size, the group's weight sum (positive) and the group's
      quality distribution (over the four levels, summing to one). */
  predicate SummaryOfGroup(entry: (string, MetricSummary), m: string, g: Group) {
    var d := entry.1.distribution;
    && entry.0 == m
    && entry.1.unit == g.unit
    && entry.1.count == |g.values| > 0
    && WeightSum(g.qualities) == Success(entry.1.weightSum)
    && entry.1.weightSum > 0.0
    && |g.qualities| > 0
    && d == QualityDistribution(g.qualities)
    && d.Keys == DistributionKeys
    && d["excellent"] + d["good"] + d["questionable"] + d["poor"] == 1.0
  }

  /** Every row's quality lands in its metric's group, and every quality of a
      group comes from a row. */
  lemma GroupQualitiesAreRowQualities(rows: seq<Row>, order: seq<string>, groups: map<string, Group>)
    requires GroupedFrom(rows, order, groups)
    ensures (forall i :: 0 <= i < |order| ==> AllKnown(groups[order[i]].qualities))
            <==> (forall i :: 0 <= i < |rows| ==> KnownLevel(rows[i].quality))
  {
    if forall i :: 0 <= i < |order| ==> AllKnown(groups[order[i]].qualities) {
      forall i | 0 <= i < |rows|
        ensures KnownLevel(rows[i].quality)
      {
        var m := rows[i].metric;
        RowsOfComplete(rows, i);
        var rs := RowsOf(rows, m);
        var j :| 0 <= j < |rs| && rs[j] == rows[i];
        var k :| 0 <= k < |order| && order[k] == m;
        assert groups[m].qualities[j] == rows[i].quality;
      }
    }
    if forall i :: 0 <= i < |rows| ==> KnownLevel(rows[i].quality) {
      forall k, j | 0 <= k < |order| && 0 <= j < |groups[order[k]].qualities|
        ensures KnownLevel(groups[order[k]].qualities[j])
      {
        var rs := RowsOf(rows, order[k]);
        RowsOfSpec(rows, order[k]);
        assert rs[j] in rs;
      }
    }
  }

  /** Each row is among the rows of its own metric. */
  lemma {:induction false} RowsOfComplete(rows: seq<Row>, i: nat)
    requires i < |rows|
    ensures rows[i] in RowsOf(rows, rows[i].metric)
    decreases |rows|
  {
    var init := rows[..|rows| - 1];
    if i < |rows| - 1 {
      assert init[i] == rows[i];
      RowsOfComplete(init, i);
    }
  }

  /** A failing summary names the quality of some input row that is not a level. */
  lemma SummaryFailureNamesRowQuality(rows: seq<Row>, order: seq<string>, groups: map<string, Group>)
    requires GroupedFrom(rows, order, groups)
    requires Summarize(order, groups).Failure?
    ensures exists i :: 0 <= i < |rows| && rows[i].quality == Summarize(order, groups).error
                        && !KnownLevel(Summarize(order, groups).error)
  {
    var e := Summarize(order, groups).error;
    SummarizeGroups(order, groups);
    var k :| 0 <= k < |order| && e in groups[order[k]].qualities && !KnownLevel(e);
    var rs := RowsOf(rows, order[k]);
    var j :| 0 <= j < |groups[order[k]].qualities| && groups[order[k]].qualities[j] == e;
    RowsOfSpec(rows, order[k]);
    assert rs[j] in rs;
    var i :| 0 <= i < |rows| && rows[i] == rs[j];
  }

  /** A successful summary has one entry per distinct metric of the rows, each
      counting that metric's rows with a positive weight sum, and the counts add
      up to the number of rows. */
  lemma SummarySuccessCoversRows(rows: seq<Row>, order: seq<string>, groups: map<string, Group>)
    requires GroupedFrom(rows, order, groups)
    requires Summarize(order, groups).Success?
    ensures var entries := Summarize(order, groups).value;
            && EntriesTotal(entries) == |rows|
            && (forall i, j :: 0 <= i < j < |entries| ==> entries[i].0 != entries[j].0)
            && (forall i :: 0 <= i < |rows| ==> exists j :: 0 <= j < |entries| && entries[j].0 == rows[i].metric)
            && (forall j :: 0 <= j < |entries| ==>
                  entries[j].1.count == |RowsOf(rows, entries[j].0)| && entries[j].1.weightSum > 0.0)
  {
    var entries := Summarize(order, groups).value;
    SummarizeGroups(order, groups);
    GroupSizesSumToRows(rows, order, groups);
    forall i | 0 <= i < |rows|
      ensures exists j :: 0 <= j < |entries| && entries[j].0 == rows[i].metric
    {
      var j :| 0 <= j < |order| && order[j] == rows[i].metric;
      assert entries[j].0 == order[j];
    }
    forall j | 0 <= j < |entries|
      ensures entries[j].1.count == |RowsOf(rows, entries[j].0)|
    {
      assert SummaryOfGroup(entries[j], order[j], groups[order[j]]);
    }
  }

  /** The entries of a successful summary follow the grouping's order, each is
      for a metric some row has, and each summarises that metric's reference
      group: its unit, size, weight sum and quality distribution. */
  lemma SummaryEntriesAreRowGroups(rows: seq<Row>, order: seq<string>, groups: map<string, Group>)
    requires GroupedFrom(rows, order, groups)
    requires Summarize(order, groups).Success?
    ensures var entries := Summarize(order, groups).value;
            && |entries| == |order|
            && (forall j :: 0 <= j < |entries| ==> entries[j].0 == order[j])
            && (forall j :: 0 <= j < |entries| ==> HasRowOf(rows, entries[j].0))
            && (forall j :: 0 <= j < |entries| ==> SummaryOfGroup(entries[j], entries[j].0, GroupOf(rows, entries[j].0)))
  {
    GroupsNonEmpty(rows, order, groups);
    SummarizeSuccessEntries(order, groups);
    EntriesOfRows(rows, order, groups, Summarize(order, groups).value);
  }

  lemma EntriesOfRows(rows: seq<Row>, order: seq<string>, groups: map<string, Group>,
                      entries: seq<(string, MetricSummary)>)
    requires GroupedFrom(rows, order, groups)
    requires |entries| == |order|
    requires forall i :: 0 <= i < |order| ==> SummaryOfGroup(entries[i], order[i], groups[order[i]])
    ensures forall j :: 0 <= j < |entries| ==> entries[j].0 == order[j]
    ensures forall j :: 0 <= j < |entries| ==> HasRowOf(rows, entries[j].0)
    ensures forall j :: 0 <= j < |entries| ==> SummaryOfGroup(entries[j], entries[j].0, GroupOf(rows, entries[j].0))
  {
    forall j | 0 <= j < |entries|
      ensures entries[j].0 == order[j]
      ensures HasRowOf(rows, entries[j].0)
      ensures SummaryOfGroup(entries[j], entries[j].0, GroupOf(rows, entries[j].0))
    {
      EntryOfRows(rows, order, groups, entries[j], j);
    }
  }

  /** Some row has metric `m`. */
  predicate HasRowOf(rows: seq<Row>, m: string) {
    exists k :: 0 <= k < |rows| && rows[k].metric == m
  }

  /** An entry summarising the `j`-th group of a grouping summarises its
      metric's reference group, and that metric has a row. */
  lemma EntryOfRows(rows: seq<Row>, order: seq<string>, groups: map<string, Group>,
                    entry: (string, MetricSummary), j: nat)
    requires GroupedFrom(rows, order, groups)
    requires j < |order| && SummaryOfGroup(entry, order[j], groups[order[j]])
    ensures entry.0 == order[j]
    ensures SummaryOfGroup(entry, entry.0, GroupOf(rows, entry.0))
    ensures HasRowOf(rows, entry.0)
  {
    assert groups[order[j]] == GroupOf(rows, order[j]);
    RowsOfSpec(rows, order[j]);
  }

  /** `get_summary` after the query: group the rows, then summarise each
      metric in the order its first row arrived. */
  method SummarizeRows(rows: seq<Row>) returns (result: Result<seq<(string, MetricSummary)>, string>)
    ensures result.Success? <==> forall i :: 0 <= i < |rows| ==> KnownLevel(rows[i].quality)
    ensures result.Failure? ==> exists i :: 0 <= i < |rows| && rows[i].quality == result.error
                                            && !KnownLevel(result.error)
    ensures result.Success? ==>
              && EntriesTotal(result.value) == |rows|
              && (forall i, j :: 0 <= i < j < |result.value| ==> result.value[i].0 != result.value[j].0)
              && (forall i :: 0 <= i < |rows| ==> exists j :: 0 <= j < |result.value| && result.value[j].0 == rows[i].metric)
              && (forall j :: 0 <= j < |result.value| ==>
                    result.value[j].1.count == |RowsOf(rows, result.value[j].0)|
                    && result.value[j].1.weightSum > 0.0)
              && |result.value| == |MetricsOf(rows)|
              && (forall j :: 0 <= j < |result.value| ==> result.value[j].0 == MetricsOf(rows)[j])
              && (forall j :: 0 <= j < |result.value| ==>
                    HasRowOf(rows, result.value[j].0))
              && (forall j :: 0 <= j < |result.value| ==>
                    SummaryOfGroup(result.value[j], result.value[j].0, GroupOf(rows, result.value[j].0)))
  {
    var order, groups := GroupByMetric(rows);
    result := Summarize(order, groups);
    SummarizeGroups(order, groups);
    GroupQualitiesAreRowQualities(rows, order, groups);
    if result.Failure? {
      SummaryFailureNamesRowQuality(rows, order, groups);
    } else {
      SummarySuccessCoversRows(rows, order, groups);
      SummaryEntriesAreRowGroups(rows, order, groups);
    }
  }
}
