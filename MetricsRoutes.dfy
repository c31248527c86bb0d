/** The dataset-statistics routes of the metrics router (backend/src/routes/metricsRoutes.js):
    `/trainingdatasetstats/:model_id` and `/livedatasetstats/:model_id`. Each runs three queries
    and answers with the match count and date range, the feature-vector count and the number of
    feature columns of the first feature vector, or with a server error when a query fails. The
    queries themselves are inputs: each is the rows it returned or a failure. */
module MetricsRoutes {
  import opened Common

  /** A column value of a result row: SQL NULL, JavaScript `undefined`, or a present value. */
  datatype Cell = Null | Undefined | Present(text: string)

  /** A result row as `Object.keys` lists it: its columns in order, each with its value. */
  type Row = seq<(string, Cell)>

  /** A `DATE` column as the MySQL driver hands it over: a `Date` object, which is never falsy. */
  datatype Date = Date(text: string)

  /** The single row of the match-count query; `None` is a NULL column. */
  datatype MatchStats = MatchStats(matchRowCount: Option<nat>, minDate: Option<Date>, maxDate: Option<Date>)

  /** The JSON body of a successful reply; `None` is `null`. */
  datatype StatsResponse = StatsResponse(
    matchRowCount: nat,
    matchMinDate: Option<Date>,
    matchMaxDate: Option<Date>,
    featureRowCount: nat,
    featureCount: nat)

  datatype Reply = Json(body: StatsResponse) | ServerError

  // ---------------------------------------------------------------- the feature count

  /** A column counts as a feature when it is neither `id` nor `model_id` and holds a value. */
  predicate IsFeature(entry: (string, Cell))
  {
    entry.0 != "id" && entry.0 != "model_id" && entry.1 != Null && entry.1 != Undefined
  }

  /** The reducer: one more for a feature column, the same count otherwise. */
  function CountStep(acc: nat, entry: (string, Cell)): nat
  {
    if IsFeature(entry) then acc + 1 else acc
  }

  /** `Object.keys(firstRow).reduce(..., acc)`, folding from the first key. */
  function Reduce(entries: Row, acc: nat): nat
  {
    if entries == [] then acc else Reduce(entries[1..], CountStep(acc, entries[0]))
  }

  /** `count`: 0 when the query returned no row, otherwise the reduction from 0. */
  function FeatureCount(firstRow: Option<Row>): nat
  {
    if firstRow.None? then 0 else Reduce(firstRow.value, 0)
  }

  /** The reduction adds the number of feature columns to its start value. */
  lemma {:induction false} ReduceCounts(entries: Row, acc: nat)
    ensures Reduce(entries, acc) == acc + |Filter(entries, IsFeature)|
  {
    if entries != [] {
      var e := entries[0];
      ReduceCounts(entries[1..], CountStep(acc, e));
      assert entries == [e] + entries[1..];
      FilterAppend([e], entries[1..], IsFeature);
      assert [e][..0] == [];
    }
  }

  /** No first row counts 0. With a first row, the count is the number of its feature
      columns, never more than its columns, 0 exactly when no column is a feature, and all
      of its columns exactly when every column is one. */
  lemma FeatureCountSpec(firstRow: Option<Row>)
    ensures firstRow.None? ==> FeatureCount(firstRow) == 0
    ensures firstRow.Some? ==> FeatureCount(firstRow) == |Filter(firstRow.value, IsFeature)|
    ensures firstRow.Some? ==> FeatureCount(firstRow) <= |firstRow.value|
    ensures firstRow.Some? ==>
      (FeatureCount(firstRow) == 0 <==> forall e :: e in firstRow.value ==> !IsFeature(e))
    ensures firstRow.Some? ==>
      (FeatureCount(firstRow) == |firstRow.value| <==> forall e :: e in firstRow.value ==> IsFeature(e))
  {
    if firstRow.Some? {
      var row := firstRow.value;
      ReduceCounts(row, 0);
      FilterMembers(row, IsFeature);
      if forall e :: e in row ==> IsFeature(e) {
        FilterAll(row, IsFeature);
      }
      if |Filter(row, IsFeature)| == |row| {
        FilterKeepsAll(row, IsFeature);
      }
      if FeatureCount(firstRow) > 0 {
        assert Filter(row, IsFeature)[0] in Filter(row, IsFeature);
      }
    }
  }

  // ---------------------------------------------------------------- the reply

  function FirstOf<T>(rows: seq<T>): Option<T>
  {
    if rows == [] then None else Some(rows[0])
  }

  /** `value || 0` for a count. */
  function OrZero(count: Option<nat>): nat
  {
    if count.None? then 0 else count.value
  }

  /** The body both routes send once all three queries have succeeded: the fields of the first
      row of each count query, with 0 for a missing count and `null` for a missing date, and
      the feature count of the first feature vector. */
  function DatasetStats(matchStats: seq<MatchStats>, featureStats: seq<Option<nat>>, firstRows: seq<Row>): (r: StatsResponse)
    ensures matchStats == [] ==> r.matchRowCount == 0 && r.matchMinDate.None? && r.matchMaxDate.None?
    ensures matchStats != [] ==>
      r.matchMinDate == matchStats[0].minDate && r.matchMaxDate == matchStats[0].maxDate &&
      (r.matchRowCount == if matchStats[0].matchRowCount.Some? then matchStats[0].matchRowCount.value else 0)
    ensures r.featureRowCount == if featureStats != [] && featureStats[0].Some? then featureStats[0].value else 0
    ensures firstRows == [] ==> r.featureCount == 0
    ensures firstRows != [] ==> r.featureCount == |Filter(firstRows[0], IsFeature)|
  {
    var m := FirstOf(matchStats);
    var f := FirstOf(featureStats);
    var first := FirstOf(firstRows);
    FeatureCountSpec(first);
    StatsResponse(
      if m.None? then 0 else OrZero(m.value.matchRowCount),
      if m.None? then None else m.value.minDate,
      if m.None? then None else m.value.maxDate,
      if f.None? then 0 else OrZero(f.value),
      FeatureCount(first))
  }

  /** One dataset-statistics route: a server error when any of the three queries failed,
      otherwise the JSON body. The training and the live route differ only in the tables they
      query, so both are this function applied to their own query results. */
  function DatasetStatsRoute(matchStats: Result<seq<MatchStats>>, featureStats: Result<seq<Option<nat>>>, firstRows: Result<seq<Row>>): (r: Reply)
    ensures r == ServerError <==> matchStats.Fail? || featureStats.Fail? || firstRows.Fail?
    ensures r.Json? ==> r.body == DatasetStats(matchStats.value, featureStats.value, firstRows.value)
  {
    if matchStats.Fail? || featureStats.Fail? || firstRows.Fail? then ServerError
    else Json(DatasetStats(matchStats.value, featureStats.value, firstRows.value))
  }
}
