/** The live prediction run of the neural-network model (`predict_match` in nn_predict.py):
    read the upcoming matches of the last three days, compute seventeen team-A-minus-team-B
    differentials per match, drop incomplete rows, and turn each probability into a prediction
    and a confidence that are written back. The stat lookups, the scaler and the network are
    inputs; `ln` is a parameter obeying `LnLaws`. */
module NnPredict {
  import opened Common
  import opened Calendar
  import opened Sorting

  /** One row of the `upcoming_matches` query. */
  datatype Upcoming = Upcoming(
    matchId: int, date: DateTime, tournamentType: Option<int>, bestOf: Option<int>,
    teamA: string, teamB: string)

  /** The row `get_team_stats_by_date` returns for one team. */
  datatype TeamDateStats = TeamDateStats(
    ranking: int, roundWr: real, openingKillRate: real, multikillRate: real,
    wr5v4: real, wr4v5: real, tradeRate: real, utilityAdr: real, flashAssists: real,
    pistolWr: real, round2Conv: real, round2Break: real)

  /** The row `get_past_stats` returns for one team. */
  datatype PlayerStats = PlayerStats(teamRating: real, avgKda: real, avgKast: real, avgAdr: real)

  /** What the helpers give for one match: `None` for a missing (falsy) result, the head-to-head
      pair as (team A wins, team B wins), and whether anything inside the row's `try` raised. */
  datatype Lookups = Lookups(
    a: Option<TeamDateStats>, b: Option<TeamDateStats>,
    pa: Option<PlayerStats>, pb: Option<PlayerStats>,
    hth: Option<(int, int)>, raised: bool)

  /** One row of the data frame after the feature loop. */
  datatype FrameRow = FrameRow(
    matchId: int, tournamentType: Option<int>, bestOf: Option<int>, diffs: Option<seq<real>>)

  /** A database write of the final loop. */
  datatype Write =
    | FeatureVector(matchId: int, features: seq<real>)
    | Prediction(prediction: int, confidence: real, matchId: int)

  // ---------------------------------------------------------------- reading the window

  /** `today - timedelta(days=2)`; `None` when it leaves the years `date` can represent,
      where Python raises and the run stops. */
  function Past(today: Date): (r: Option<Date>)
    requires Valid(today)
    ensures r.Some? ==> InRange(r.value) && Ordinal(r.value) == Ordinal(today) - 2
  {
    AddDaysOrdinal(today, -2);
    var p := AddDays(today, -2);
    if InRange(p) then Some(p) else None
  }

  /** `DATE(date) >= past AND DATE(date) <= today`; a stored date is always a real day. */
  predicate InWindow(past: Date, today: Date, m: Upcoming)
  {
    Valid(past) && Valid(today) && Valid(m.date.date) &&
    Ordinal(past) <= Ordinal(m.date.date) <= Ordinal(today)
  }

  /** Seconds since the proleptic day 0: the order `ORDER BY date` sorts by. */
  function TimeKey(m: Upcoming): real
  {
    if !Valid(m.date.date) then 0.0 else
    (Ordinal(m.date.date) * 86400 + m.date.hour * 3600 + m.date.minute * 60 + m.date.second) as real
  }

  /** The upcoming matches the run reads, ascending by date and time. */
  function Window(table: seq<Upcoming>, today: Date): Option<seq<Upcoming>>
    requires Valid(today)
  {
    match Past(today)
    case None => None
    case Some(past) => Some(SortBy(Filter(table, m => InWindow(past, today, m)), TimeKey))
  }

  /** The window holds exactly the matches dated from two days before today up to today, each
      once per occurrence in the table, sorted by date and time. */
  lemma WindowSpec(table: seq<Upcoming>, today: Date, m: Upcoming)
    requires Valid(today)
    requires Window(table, today).Some?
    ensures var w := Window(table, today).value;
      SortedBy(w, TimeKey) &&
      (m in w <==> m in table && Valid(m.date.date) && Ordinal(today) - 2 <= Ordinal(m.date.date) <= Ordinal(today))
  {
    var past := Past(today).value;
    var kept := Filter(table, m => InWindow(past, today, m));
    var w := SortBy(kept, TimeKey);
    SortBySorted(kept, TimeKey);
    FilterMembers(table, m => InWindow(past, today, m));
    assert multiset(w) == multiset(kept);
    assert m in w <==> m in multiset(w);
    assert m in kept <==> m in multiset(kept);
  }

  /** The window has as many rows as the table has matches in the date range. */
  lemma WindowCount(table: seq<Upcoming>, today: Date)
    requires Valid(today)
    requires Window(table, today).Some?
    ensures |Window(table, today).value| == |Filter(table, m => InWindow(Past(today).value, today, m))|
    ensures |Window(table, today).value| <= |table|
  {
    FilterMembers(table, m => InWindow(Past(today).value, today, m));
  }

  // ---------------------------------------------------------------- differentials

  /** The laws of the natural logarithm the model relies on. */
  ghost predicate LnLaws(ln: real -> real)
  {
    ln(1.0) == 0.0 && forall x: real, y: real :: 1.0 <= x < y ==> ln(x) < ln(y)
  }

  function Abs(x: real): real
  {
    if x < 0.0 then -x else x
  }

  /** `math.copysign(x, d)` for an integer `d`: the magnitude of x with the sign of d, where
      the integer 0 counts as positive. */
  function CopySign(x: real, d: int): (r: real)
    ensures Abs(r) == Abs(x)
    ensures d < 0 ==> r <= 0.0
    ensures d >= 0 ==> r >= 0.0
  {
    if d < 0 then -Abs(x) else Abs(x)
  }

  /** The log-compressed ranking gap `copysign(log(|d| + 1), d)`. */
  function RankingDiff(d: int, ln: real -> real): real
  {
    var mag := if d < 0 then -d else d;
    CopySign(ln(mag as real + 1.0), d)
  }

  /** The compressed gap has the sign of the raw gap, maps 0 to 0 and is odd. */
  lemma RankingDiffSign(d: int, ln: real -> real)
    requires LnLaws(ln)
    ensures d > 0 <==> RankingDiff(d, ln) > 0.0
    ensures d < 0 <==> RankingDiff(d, ln) < 0.0
    ensures d == 0 <==> RankingDiff(d, ln) == 0.0
    ensures RankingDiff(-d, ln) == -RankingDiff(d, ln)
  {
    var mag := if d < 0 then -d else d;
    if d != 0 {
      assert 1.0 < mag as real + 1.0;
      assert ln(1.0) < ln(mag as real + 1.0);
    }
  }

  /** A larger raw gap never gives a smaller compressed gap. */
  lemma RankingDiffMonotone(d: int, e: int, ln: real -> real)
    requires LnLaws(ln)
    requires d <= e
    ensures RankingDiff(d, ln) <= RankingDiff(e, ln)
  {
    RankingDiffSign(d, ln);
    RankingDiffSign(e, ln);
    if 0 <= d && d < e {
      assert ln(d as real + 1.0) < ln(e as real + 1.0);
    } else if d < e && e <= 0 {
      assert ln(-e as real + 1.0) < ln(-d as real + 1.0);
    }
  }

  /** `hth_wins[0] - hth_wins[1]`, and 0 when the helper returns `None`. */
  function HthDiff(hth: Option<(int, int)>): int
  {
    match hth
    case None => 0
    case Some((wins, losses)) => wins - losses
  }

  function Swap(hth: Option<(int, int)>): Option<(int, int)>
  {
    match hth
    case None => None
    case Some((wins, losses)) => Some((losses, wins))
  }

  /** No record gives 0; a record gives team A's head-to-head surplus, and seen from team B's
      side it is the opposite number. */
  lemma HthDiffRule(hth: Option<(int, int)>)
    ensures hth.None? ==> HthDiff(hth) == 0
    ensures hth.Some? ==> HthDiff(hth) == hth.value.0 - hth.value.1
    ensures HthDiff(Swap(hth)) == -HthDiff(hth)
  {
  }

  /** The seventeen differentials, in the order of the `new_columns` list. */
  function Differentials(
    a: TeamDateStats, b: TeamDateStats, pa: PlayerStats, pb: PlayerStats,
    hth: Option<(int, int)>, ln: real -> real): (r: seq<real>)
    ensures |r| == 17
  {
    [ RankingDiff(a.ranking - b.ranking, ln),
      pa.teamRating - pb.teamRating,
      pa.avgKda - pb.avgKda,
      pa.avgKast - pb.avgKast,
      pa.avgAdr - pb.avgAdr,
      a.roundWr - b.roundWr,
      a.openingKillRate - b.openingKillRate,
      a.multikillRate - b.multikillRate,
      a.wr5v4 - b.wr5v4,
      a.wr4v5 - b.wr4v5,
      a.tradeRate - b.tradeRate,
      a.utilityAdr - b.utilityAdr,
      a.flashAssists - b.flashAssists,
      a.pistolWr - b.pistolWr,
      a.round2Conv - b.round2Conv,
      a.round2Break - b.round2Break,
      HthDiff(hth) as real ]
  }

  function Negated(s: seq<real>): (r: seq<real>)
    ensures |r| == |s|
  {
    seq(|s|, i requires 0 <= i < |s| => -s[i])
  }

  /** Swapping the two teams negates every differential. */
  lemma DifferentialsSwap(
    a: TeamDateStats, b: TeamDateStats, pa: PlayerStats, pb: PlayerStats,
    hth: Option<(int, int)>, ln: real -> real)
    requires LnLaws(ln)
    ensures Differentials(b, a, pb, pa, Swap(hth), ln) == Negated(Differentials(a, b, pa, pb, hth, ln))
  {
    RankingDiffSign(a.ranking - b.ranking, ln);
    assert b.ranking - a.ranking == -(a.ranking - b.ranking);
    HthDiffRule(hth);
  }

  /** When a team meets itself with identical stats and no head-to-head record, every
      differential is 0. */
  lemma DifferentialsMirror(a: TeamDateStats, pa: PlayerStats, ln: real -> real)
    requires LnLaws(ln)
    ensures forall i :: 0 <= i < 17 ==> Differentials(a, a, pa, pa, None, ln)[i] == 0.0
  {
    RankingDiffSign(0, ln);
  }

  /** The differentials a match ends up with: all missing when a lookup is missing or the
      row's `try` raised. */
  function RowDiffs(l: Lookups, ln: real -> real): (r: Option<seq<real>>)
    ensures r.Some? ==> |r.value| == 17
  {
    if l.raised || l.a.None? || l.b.None? || l.pa.None? || l.pb.None? then None
    else Some(Differentials(l.a.value, l.b.value, l.pa.value, l.pb.value, l.hth, ln))
  }

  /** The feature loop: the new columns start as `None` and each row is filled in place. */
  method FillDifferentials(rows: seq<Upcoming>, lookup: Upcoming -> Lookups, ln: real -> real)
    returns (diffs: array<Option<seq<real>>>)
    ensures fresh(diffs) && diffs.Length == |rows|
    ensures forall i :: 0 <= i < |rows| ==> diffs[i] == RowDiffs(lookup(rows[i]), ln)
  {
    diffs := new Option<seq<real>>[|rows|](_ => None);
    for idx := 0 to |rows|
      invariant forall i :: 0 <= i < idx ==> diffs[i] == RowDiffs(lookup(rows[i]), ln)
      invariant forall i :: idx <= i < |rows| ==> diffs[i] == None
    {
      var l := lookup(rows[idx]);
      if l.raised || l.a.None? || l.b.None? || l.pa.None? || l.pb.None? {
        continue;
      }
      diffs[idx] := Some(Differentials(l.a.value, l.b.value, l.pa.value, l.pb.value, l.hth, ln));
    }
  }

  // ---------------------------------------------------------------- dropna and the matrix

  function Frame(rows: seq<Upcoming>, diffs: seq<Option<seq<real>>>): (r: seq<FrameRow>)
    requires |diffs| == |rows|
    ensures |r| == |rows|
  {
    seq(|rows|, i requires 0 <= i < |rows| =>
      FrameRow(rows[i].matchId, rows[i].tournamentType, rows[i].bestOf, diffs[i]))
  }

  /** A row `dropna` keeps: no column is null. */
  predicate Complete(r: FrameRow)
  {
    r.tournamentType.Some? && r.bestOf.Some? && r.diffs.Some?
  }

  /** The model input: tournament_type, best_of, then the differentials. */
  function Features(r: FrameRow): seq<real>
    requires Complete(r)
  {
    [r.tournamentType.value as real, r.bestOf.value as real] + r.diffs.value
  }

  /** A kept row of the frame has 19 features, the last 17 of them its differentials. */
  lemma FeaturesLayout(rows: seq<Upcoming>, lookup: Upcoming -> Lookups, ln: real -> real, r: FrameRow)
    requires r in Filter(Frame(rows, seq(|rows|, i requires 0 <= i < |rows| => RowDiffs(lookup(rows[i]), ln))), Complete)
    ensures Complete(r) && |Features(r)| == 19
    ensures Features(r)[0] == r.tournamentType.value as real && Features(r)[1] == r.bestOf.value as real
    ensures Features(r)[2..] == r.diffs.value
  {
    var diffs := seq(|rows|, i requires 0 <= i < |rows| => RowDiffs(lookup(rows[i]), ln));
    var frame := Frame(rows, diffs);
    FilterMembers(frame, Complete);
    var k :| 0 <= k < |frame| && frame[k] == r;
    assert r.diffs == RowDiffs(lookup(rows[k]), ln);
  }

  /** `dropna` keeps exactly the complete rows, in their original order. */
  lemma DropnaSpec(frame: seq<FrameRow>, r: FrameRow)
    ensures r in Filter(frame, Complete) <==> r in frame && Complete(r)
    ensures forall x :: x in Filter(frame, Complete) ==> Complete(x)
    ensures |Filter(frame, Complete)| <= |frame|
    ensures (forall x :: x in frame ==> Complete(x)) ==> Filter(frame, Complete) == frame
  {
    FilterMembers(frame, Complete);
    if forall x :: x in frame ==> Complete(x) {
      FilterAll(frame, Complete);
    }
  }

  // ---------------------------------------------------------------- decision

  /** `p > 0.5` gives class 1; the confidence is the probability of the chosen class. */
  function Decide(p: real): (real, int)
  {
    if p > 0.5 then (p, 1) else (1.0 - p, 0)
  }

  /** The prediction is 1 exactly when p > 0.5, and the confidence is max(p, 1 - p), so at
      least one half. */
  lemma DecideSpec(p: real)
    ensures Decide(p).1 == 1 <==> p > 0.5
    ensures Decide(p).1 == 0 <==> p <= 0.5
    ensures Decide(p).0 == (if p >= 1.0 - p then p else 1.0 - p)
    ensures Decide(p).0 >= 0.5
  {
  }

  /** The writes for the kept rows, as the loop is evidently meant to issue them: for each row
      its scaled feature vector, then its prediction. */
  function IntendedWrites(kept: seq<FrameRow>, scale: seq<real> -> seq<real>, model: seq<real> -> real): (w: seq<Write>)
    requires forall r :: r in kept ==> Complete(r)
    ensures |w| == 2 * |kept|
  {
    if kept == [] then []
    else
      var r := kept[|kept| - 1];
      var x := scale(Features(r));
      var (conf, pred) := Decide(model(x));
      IntendedWrites(kept[..|kept| - 1], scale, model)
        + [FeatureVector(r.matchId, x), Prediction(pred, conf, r.matchId)]
  }

  /** The row-th pair of writes belongs to the row-th kept match. */
  lemma {:induction false} IntendedWritesAt(
    kept: seq<FrameRow>, scale: seq<real> -> seq<real>, model: seq<real> -> real, i: int)
    requires forall r :: r in kept ==> Complete(r)
    requires 0 <= i < |kept|
    ensures IntendedWrites(kept, scale, model)[2 * i] == FeatureVector(kept[i].matchId, scale(Features(kept[i])))
    ensures IntendedWrites(kept, scale, model)[2 * i + 1] ==
      Prediction(Decide(model(scale(Features(kept[i])))).1, Decide(model(scale(Features(kept[i])))).0, kept[i].matchId)
  {
    if i < |kept| - 1 {
      IntendedWritesAt(kept[..|kept| - 1], scale, model, i);
    }
  }

  /** The insert loop as written. With exactly one kept row, `squeeze()` turns the confidences
      into a 0-dimensional tensor, `tolist()` returns a bare float, and indexing it raises inside
      the `try` after the feature vector was written: that match gets no prediction. */
  method InsertLoopAsWritten(kept: seq<FrameRow>, scale: seq<real> -> seq<real>, model: seq<real> -> real)
    returns (writes: seq<Write>)
    requires forall r :: r in kept ==> Complete(r)
    ensures |kept| != 1 ==> writes == IntendedWrites(kept, scale, model)
    ensures |kept| == 1 ==> writes == [FeatureVector(kept[0].matchId, scale(Features(kept[0])))]
  {
    var scalarConfidences := |kept| == 1;
    writes := [];
    for i := 0 to |kept|
      invariant !scalarConfidences ==> writes == IntendedWrites(kept[..i], scale, model)
      invariant scalarConfidences ==> writes == (if i == 0 then [] else [FeatureVector(kept[0].matchId, scale(Features(kept[0])))])
    {
      assert kept[..i + 1][..i] == kept[..i];
      var x := scale(Features(kept[i]));
      writes := writes + [FeatureVector(kept[i].matchId, x)];
      if scalarConfidences {
        continue;
      }
      var (conf, pred) := Decide(model(x));
      writes := writes + [Prediction(pred, conf, kept[i].matchId)];
    }
    assert kept[..|kept|] == kept;
  }

  /** The single-row case of the loop as written: a match is scored but never predicted. */
  lemma SingleRowLosesPrediction(r: FrameRow, scale: seq<real> -> seq<real>, model: seq<real> -> real)
    requires Complete(r)
    ensures IntendedWrites([r], scale, model)[1].Prediction?
    ensures |IntendedWrites([r], scale, model)| == 2
  {
    IntendedWritesAt([r], scale, model, 0);
  }

  /** The insert loop with one prediction per kept row, whatever the row count. */
  method InsertLoop(kept: seq<FrameRow>, scale: seq<real> -> seq<real>, model: seq<real> -> real)
    returns (writes: seq<Write>)
    requires forall r :: r in kept ==> Complete(r)
    ensures writes == IntendedWrites(kept, scale, model)
  {
    writes := [];
    for i := 0 to |kept|
      invariant writes == IntendedWrites(kept[..i], scale, model)
    {
      assert kept[..i + 1][..i] == kept[..i];
      var x := scale(Features(kept[i]));
      var (conf, pred) := Decide(model(x));
      writes := writes + [FeatureVector(kept[i].matchId, x), Prediction(pred, conf, kept[i].matchId)];
    }
    assert kept[..|kept|] == kept;
  }

  // ---------------------------------------------------------------- the whole run

  /** The rows that survive `dropna` for a given window. */
  function Kept(window: seq<Upcoming>, lookup: Upcoming -> Lookups, ln: real -> real): (r: seq<FrameRow>)
  {
    Filter(Frame(window, seq(|window|, i requires 0 <= i < |window| => RowDiffs(lookup(window[i]), ln))), Complete)
  }

  /** The rows the insert loop receives; `None` when the run stops with an exception before
      it: when `past` is not a representable date, or when no row survives `dropna` and the
      scaler refuses an empty matrix. */
  function KeptRows(table: seq<Upcoming>, today: Date, lookup: Upcoming -> Lookups, ln: real -> real)
    : (r: Option<seq<FrameRow>>)
    requires Valid(today)
    ensures r.Some? ==> r.value != [] && forall x :: x in r.value ==> Complete(x)
  {
    match Window(table, today)
    case None => None
    case Some(window) =>
      var kept := Kept(window, lookup, ln);
      FilterMembers(Frame(window, seq(|window|, i requires 0 <= i < |window| => RowDiffs(lookup(window[i]), ln))), Complete);
      if kept == [] then None else Some(kept)
  }

  /** The writes of the insert loop as written: a single kept row gets its vector only. */
  function AsWrittenWrites(kept: seq<FrameRow>, scale: seq<real> -> seq<real>, model: seq<real> -> real)
    : seq<Write>
    requires forall r :: r in kept ==> Complete(r)
  {
    if |kept| == 1 then [FeatureVector(kept[0].matchId, scale(Features(kept[0])))]
    else IntendedWrites(kept, scale, model)
  }

  /** What the run as written writes, or `None` when it stops before the insert loop. */
  function RunWrites(
    table: seq<Upcoming>, today: Date, lookup: Upcoming -> Lookups, ln: real -> real,
    scale: seq<real> -> seq<real>, model: seq<real> -> real): Option<seq<Write>>
    requires Valid(today)
  {
    match KeptRows(table, today, lookup, ln)
    case None => None
    case Some(kept) => Some(AsWrittenWrites(kept, scale, model))
  }

  /** What the run writes with the corrected insert loop. */
  function IntendedRunWrites(
    table: seq<Upcoming>, today: Date, lookup: Upcoming -> Lookups, ln: real -> real,
    scale: seq<real> -> seq<real>, model: seq<real> -> real): Option<seq<Write>>
    requires Valid(today)
  {
    match KeptRows(table, today, lookup, ln)
    case None => None
    case Some(kept) => Some(IntendedWrites(kept, scale, model))
  }

  /** The run as written and the corrected run stop in the same cases and write the same,
      except when exactly one row is kept: then the run as written writes only that row's
      feature vector, the first of the two writes the corrected run issues. */
  lemma RunWritesAgree(
    table: seq<Upcoming>, today: Date, lookup: Upcoming -> Lookups, ln: real -> real,
    scale: seq<real> -> seq<real>, model: seq<real> -> real)
    requires Valid(today)
    ensures RunWrites(table, today, lookup, ln, scale, model).None?
        <==> IntendedRunWrites(table, today, lookup, ln, scale, model).None?
    ensures var kept := KeptRows(table, today, lookup, ln);
      kept.Some? && |kept.value| != 1 ==>
        RunWrites(table, today, lookup, ln, scale, model) == IntendedRunWrites(table, today, lookup, ln, scale, model)
    ensures var kept := KeptRows(table, today, lookup, ln);
      kept.Some? && |kept.value| == 1 ==>
        var w, intended := RunWrites(table, today, lookup, ln, scale, model).value,
                           IntendedRunWrites(table, today, lookup, ln, scale, model).value;
        |w| == 1 && |intended| == 2 && w == intended[..1] && intended[1].Prediction?
  {
    var kept := KeptRows(table, today, lookup, ln);
    if kept.Some? && |kept.value| == 1 {
      IntendedWritesAt(kept.value, scale, model, 0);
    }
  }

  /** The front of `predict_match`: the date window, the feature loop over the frame and
      `dropna`. */
  method SelectRows(table: seq<Upcoming>, today: Date, lookup: Upcoming -> Lookups, ln: real -> real)
    returns (kept: Option<seq<FrameRow>>)
    requires Valid(today)
    ensures kept == KeptRows(table, today, lookup, ln)
  {
    var window := Window(table, today);
    if window.None? {
      return None;
    }
    var rows := window.value;
    var diffs := FillDifferentials(rows, lookup, ln);
    assert diffs[..] == seq(|rows|, i requires 0 <= i < |rows| => RowDiffs(lookup(rows[i]), ln));
    var k := Filter(Frame(rows, diffs[..]), Complete);
    if k == [] {
      return None;
    }
    kept := Some(k);
  }

  /** `predict_match` as written: window, feature loop, `dropna`, inference and the insert
      loop as written. */
  method PredictMatch(
    table: seq<Upcoming>, today: Date, lookup: Upcoming -> Lookups, ln: real -> real,
    scale: seq<real> -> seq<real>, model: seq<real> -> real)
    returns (writes: Option<seq<Write>>)
    requires Valid(today)
    ensures writes == RunWrites(table, today, lookup, ln, scale, model)
  {
    var kept := SelectRows(table, today, lookup, ln);
    if kept.None? {
      return None;
    }
    var w := InsertLoopAsWritten(kept.value, scale, model);
    writes := Some(w);
  }

  /** `predict_match` with the corrected insert loop. */
  method PredictMatchIntended(
    table: seq<Upcoming>, today: Date, lookup: Upcoming -> Lookups, ln: real -> real,
    scale: seq<real> -> seq<real>, model: seq<real> -> real)
    returns (writes: Option<seq<Write>>)
    requires Valid(today)
    ensures writes == IntendedRunWrites(table, today, lookup, ln, scale, model)
  {
    var kept := SelectRows(table, today, lookup, ln);
    if kept.None? {
      return None;
    }
    var w := InsertLoop(kept.value, scale, model);
    writes := Some(w);
  }

  /** Every match that gets a prediction lies in the date window, had all four stat lookups,
      did not raise, and carries its tournament type and best-of. */
  lemma RunWritesSpec(
    table: seq<Upcoming>, today: Date, lookup: Upcoming -> Lookups, ln: real -> real,
    scale: seq<real> -> seq<real>, model: seq<real> -> real, r: FrameRow)
    requires Valid(today)
    requires Window(table, today).Some?
    requires r in Kept(Window(table, today).value, lookup, ln)
    ensures exists m :: (m in table && m.matchId == r.matchId && Valid(m.date.date) &&
      Ordinal(today) - 2 <= Ordinal(m.date.date) <= Ordinal(today) &&
      m.tournamentType.Some? && m.bestOf.Some? &&
      RowDiffs(lookup(m), ln).Some? && r.diffs == RowDiffs(lookup(m), ln))
  {
    var window := Window(table, today).value;
    var diffs := seq(|window|, i requires 0 <= i < |window| => RowDiffs(lookup(window[i]), ln));
    var frame := Frame(window, diffs);
    FilterMembers(frame, Complete);
    var k :| 0 <= k < |frame| && frame[k] == r;
    var m := window[k];
    WindowSpec(table, today, m);
  }
}
