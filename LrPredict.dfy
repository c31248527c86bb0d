/** The live prediction run of the logistic-regression model (`predict_match` in lr_predict.py):
    every upcoming match without an outcome is encoded, given the averages of each team's ten
    most recent stat rows and the head-to-head counts, scored by the model, and written back as
    an outcome and a confidence. The encoder's classes, the stats table, the head-to-head helper
    and the model are inputs. */
module LrPredict {
  import opened Common
  import opened Calendar
  import opened Sorting
  import MlUtil

  /** A row of `upcoming_matches`. */
  datatype UpcomingRow = UpcomingRow(
    teamA: string, teamB: string, date: DateTime, tournamentName: string,
    outcome: Option<int>, confidence: Option<real>)

  /** A row of `match_team_stats`. */
  datatype StatRow = StatRow(
    matchId: int, teamName: string, teamRating: real, avgKda: real, avgKast: real, avgAdr: real)

  /** The four `AVG(...)` columns of the recent-matches query. */
  datatype Averages = Averages(teamRating: real, avgKda: real, avgKast: real, avgAdr: real)

  /** The run's inputs besides the table: the fitted encoder's classes, the stats table, the
      head-to-head helper, and the model's `predict_proba` as (P(class 0), P(class 1)). */
  datatype Env = Env(
    classes: seq<string>, stats: seq<StatRow>,
    hth: (string, string) -> Option<(int, int)>,
    model: seq<real> -> (real, real))

  /** An `UPDATE upcoming_matches SET outcome, confidence WHERE team_a, team_b, date,
      tournament_name` statement. */
  datatype Update = Update(
    outcome: int, confidence: real,
    teamA: string, teamB: string, date: DateTime, tournamentName: string)

  /** What one match does: an unknown team marks it -1 in the frame, a vector of the wrong
      length makes `predict_proba` raise outside any `try`, otherwise one update. */
  datatype Step = Unknown | Abort | Scored(update: Update)

  // ---------------------------------------------------------------- selection and encoding

  predicate IsPending(r: UpcomingRow)
  {
    r.outcome.None?
  }

  /** `SELECT * FROM upcoming_matches WHERE outcome IS NULL`. */
  function Pending(table: seq<UpcomingRow>): (r: seq<UpcomingRow>)
  {
    Filter(table, IsPending)
  }

  /** `team_encoder.transform([name])[0]`, with -1 where it raises for an unseen name. */
  function Encode(classes: seq<string>, name: string): (c: int)
    ensures c == -1 <==> name !in classes
    ensures c != -1 ==> 0 <= c < |classes| && classes[c] == name
  {
    if name in classes then MlUtil.IndexIn(classes, name) else -1
  }

  predicate Known(classes: seq<string>, r: UpcomingRow)
  {
    r.teamA in classes && r.teamB in classes
  }

  // ---------------------------------------------------------------- recent averages

  function DescendingId(r: StatRow): real
  {
    -(r.matchId as real)
  }

  function Min(a: int, b: int): int
  {
    if a < b then a else b
  }

  /** The team's rows, in table order. */
  function Own(stats: seq<StatRow>, team: string): seq<StatRow>
  {
    Filter(stats, (r: StatRow) => r.teamName == team)
  }

  /** The team's rows by descending match id. */
  function ByRecency(stats: seq<StatRow>, team: string): seq<StatRow>
  {
    SortBy(Own(stats, team), DescendingId)
  }

  /** `WHERE team_name = %s ORDER BY match_id DESC LIMIT 10`. */
  function Recent(stats: seq<StatRow>, team: string): seq<StatRow>
  {
    var sorted := ByRecency(stats, team);
    sorted[..Min(10, |sorted|)]
  }

  /** The recent rows are the team's own, as many as it has up to ten, and no row of the team
      that was left out has a larger match id than a row that was taken. */
  lemma RecentSpec(stats: seq<StatRow>, team: string, x: StatRow)
    ensures |Recent(stats, team)| == Min(10, |Own(stats, team)|)
    ensures forall r :: r in Recent(stats, team) ==> r in stats && r.teamName == team
    ensures x in stats && x.teamName == team && x !in Recent(stats, team) ==>
      forall r :: r in Recent(stats, team) ==> x.matchId <= r.matchId
  {
    var own := Own(stats, team);
    var sorted := ByRecency(stats, team);
    var recent := Recent(stats, team);
    FilterMembers(stats, (r: StatRow) => r.teamName == team);
    SortBySorted(own, DescendingId);
    forall r | r in recent ensures r in stats && r.teamName == team {
      var k :| 0 <= k < |recent| && recent[k] == r;
      assert r in multiset(sorted);
    }
    if x in stats && x.teamName == team && x !in recent {
      assert x in multiset(own);
      assert x in sorted;
      TakenDominate(sorted, Min(10, |sorted|), x);
    }
  }

  /** In rows ordered by descending match id, a row outside the first m has a match id no
      larger than any of those m. */
  lemma TakenDominate(sorted: seq<StatRow>, m: int, x: StatRow)
    requires SortedBy(sorted, DescendingId) && 0 <= m <= |sorted|
    requires x in sorted && x !in sorted[..m]
    ensures forall r :: r in sorted[..m] ==> x.matchId <= r.matchId
  {
    var j :| 0 <= j < |sorted| && sorted[j] == x;
    forall r | r in sorted[..m] ensures x.matchId <= r.matchId {
      var k :| 0 <= k < m && sorted[..m][k] == r;
      assert sorted[k] == r;
      assert DescendingId(sorted[k]) <= DescendingId(sorted[j]);
    }
  }

  function Ratings(rows: seq<StatRow>): (c: seq<real>)
    ensures |c| == |rows|
  {
    seq(|rows|, i requires 0 <= i < |rows| => rows[i].teamRating)
  }

  function Kdas(rows: seq<StatRow>): (c: seq<real>)
    ensures |c| == |rows|
  {
    seq(|rows|, i requires 0 <= i < |rows| => rows[i].avgKda)
  }

  function Kasts(rows: seq<StatRow>): (c: seq<real>)
    ensures |c| == |rows|
  {
    seq(|rows|, i requires 0 <= i < |rows| => rows[i].avgKast)
  }

  function Adrs(rows: seq<StatRow>): (c: seq<real>)
    ensures |c| == |rows|
  {
    seq(|rows|, i requires 0 <= i < |rows| => rows[i].avgAdr)
  }

  /** The `AVG` columns over the given rows; SQL gives NULL over no rows. */
  function Average(rows: seq<StatRow>): Option<Averages>
  {
    if rows == [] then None
    else Some(Averages(Mean(Ratings(rows)), Mean(Kdas(rows)), Mean(Kasts(rows)), Mean(Adrs(rows))))
  }

  /** A team with stat rows gets averages, the rating between the smallest and the largest
      rating of its recent rows; a team without rows gets none. */
  lemma AverageSpec(stats: seq<StatRow>, team: string, lo: real, hi: real)
    requires forall r :: r in Recent(stats, team) ==> lo <= r.teamRating <= hi
    ensures Average(Recent(stats, team)).None? <==> forall r :: r in stats ==> r.teamName != team
    ensures Average(Recent(stats, team)).Some? ==> lo <= Average(Recent(stats, team)).value.teamRating <= hi
  {
    var own := Own(stats, team);
    RecentSpec(stats, team, StatRow(0, team, 0.0, 0.0, 0.0, 0.0));
    FilterMembers(stats, (r: StatRow) => r.teamName == team);
    var recent := Recent(stats, team);
    if recent != [] {
      forall i | 0 <= i < |recent| ensures lo <= Ratings(recent)[i] <= hi {
        assert recent[i] in recent;
      }
      MeanBounds(Ratings(recent), lo, hi);
    }
    if own != [] {
      assert own[0] in stats && own[0].teamName == team;
    }
  }

  /** Each of the four averages lies between the bounds of its column over the team's recent
      rows. */
  lemma AverageColumnBounds(stats: seq<StatRow>, team: string, lo: Averages, hi: Averages)
    requires forall r :: r in Recent(stats, team) ==>
      lo.teamRating <= r.teamRating <= hi.teamRating && lo.avgKda <= r.avgKda <= hi.avgKda &&
      lo.avgKast <= r.avgKast <= hi.avgKast && lo.avgAdr <= r.avgAdr <= hi.avgAdr
    ensures var avg := Average(Recent(stats, team));
      avg.Some? ==>
        lo.teamRating <= avg.value.teamRating <= hi.teamRating &&
        lo.avgKda <= avg.value.avgKda <= hi.avgKda &&
        lo.avgKast <= avg.value.avgKast <= hi.avgKast &&
        lo.avgAdr <= avg.value.avgAdr <= hi.avgAdr
  {
    var recent := Recent(stats, team);
    if recent != [] {
      forall i | 0 <= i < |recent|
        ensures lo.teamRating <= Ratings(recent)[i] <= hi.teamRating
        ensures lo.avgKda <= Kdas(recent)[i] <= hi.avgKda
        ensures lo.avgKast <= Kasts(recent)[i] <= hi.avgKast
        ensures lo.avgAdr <= Adrs(recent)[i] <= hi.avgAdr
      {
        assert recent[i] in recent;
      }
      MeanBounds(Ratings(recent), lo.teamRating, hi.teamRating);
      MeanBounds(Kdas(recent), lo.avgKda, hi.avgKda);
      MeanBounds(Kasts(recent), lo.avgKast, hi.avgKast);
      MeanBounds(Adrs(recent), lo.avgAdr, hi.avgAdr);
    }
  }

  // ---------------------------------------------------------------- the feature vector

  /** What one pass of the per-team loop appends: the four averages and the team's
      head-to-head count, or nothing when building that list raised (no stat rows, so
      `float(None)`, or no head-to-head record, so `None[j]`). */
  function Segment(avg: Option<Averages>, hth: Option<(int, int)>, j: int): seq<real>
  {
    if avg.None? || hth.None? then []
    else
      var a := avg.value;
      [a.teamRating, a.avgKda, a.avgKast, a.avgAdr, (if j == 0 then hth.value.0 else hth.value.1) as real]
  }

  function StatVector(env: Env, row: UpcomingRow): seq<real>
  {
    var hth := env.hth(row.teamA, row.teamB);
    [Encode(env.classes, row.teamA) as real, Encode(env.classes, row.teamB) as real]
      + Segment(Average(Recent(env.stats, row.teamA)), hth, 0)
      + Segment(Average(Recent(env.stats, row.teamB)), hth, 1)
  }

  /** The vector has twelve entries exactly when both teams have stat rows and a head-to-head
      record exists, and then it is laid out as the two codes, team A's four averages and wins,
      team B's four averages and wins. */
  lemma StatVectorLayout(env: Env, row: UpcomingRow)
    ensures var v := StatVector(env, row);
      var hth := env.hth(row.teamA, row.teamB);
      var avgA := Average(Recent(env.stats, row.teamA));
      var avgB := Average(Recent(env.stats, row.teamB));
      (|v| == 12 <==> hth.Some? && avgA.Some? && avgB.Some?) &&
      (|v| == 12 ==> v == [
        Encode(env.classes, row.teamA) as real, Encode(env.classes, row.teamB) as real,
        avgA.value.teamRating, avgA.value.avgKda, avgA.value.avgKast, avgA.value.avgAdr, hth.value.0 as real,
        avgB.value.teamRating, avgB.value.avgKda, avgB.value.avgKast, avgB.value.avgAdr, hth.value.1 as real])
  {
  }

  // ---------------------------------------------------------------- decision

  /** `int(proba[1] >= 0.5)` and `proba[prediction]`. */
  function Decide(proba: (real, real)): (int, real)
  {
    var prediction := if proba.1 >= 0.5 then 1 else 0;
    (prediction, if prediction == 1 then proba.1 else proba.0)
  }

  /** Class 1 wins ties; the confidence is the chosen class's probability, at least one half
      when the two probabilities add up to one. */
  lemma DecideSpec(proba: (real, real))
    ensures Decide(proba).0 == 1 <==> proba.1 >= 0.5
    ensures Decide(proba).0 == 0 <==> proba.1 < 0.5
    ensures proba.0 + proba.1 == 1.0 ==> Decide(proba).1 >= 0.5
  {
  }

  /** One iteration of the loop over the pending matches. */
  function RowStep(env: Env, row: UpcomingRow): Step
  {
    if Encode(env.classes, row.teamA) == -1 || Encode(env.classes, row.teamB) == -1 then Unknown
    else
      var v := StatVector(env, row);
      if |v| != 12 then Abort
      else
        var (prediction, confidence) := Decide(env.model(v));
        Scored(Update(prediction, confidence, row.teamA, row.teamB, row.date, row.tournamentName))
  }

  /** A match is marked unknown exactly when a team is missing from the encoder; an update
      carries the match's key and the model's decision on the twelve-entry vector. */
  lemma RowStepSpec(env: Env, row: UpcomingRow)
    ensures RowStep(env, row) == Unknown <==> !Known(env.classes, row)
    ensures RowStep(env, row).Scored? ==>
      var u := RowStep(env, row).update;
      var proba := env.model(StatVector(env, row));
      Known(env.classes, row) && |StatVector(env, row)| == 12 &&
      u.teamA == row.teamA && u.teamB == row.teamB && u.date == row.date &&
      u.tournamentName == row.tournamentName &&
      (u.outcome == 1 <==> proba.1 >= 0.5) && (u.outcome == 0 <==> proba.1 < 0.5) &&
      u.confidence == (if u.outcome == 1 then proba.1 else proba.0) &&
      (proba.0 + proba.1 == 1.0 ==> u.confidence >= 0.5)
  {
  }

  // ---------------------------------------------------------------- the run

  /** The updates issued over the rows in order, and whether the run stopped with an
      exception. */
  function Run(rows: seq<UpcomingRow>, env: Env): (seq<Update>, bool)
  {
    if rows == [] then ([], false)
    else
      var (updates, aborted) := Run(rows[..|rows| - 1], env);
      if aborted then (updates, true)
      else match RowStep(env, rows[|rows| - 1])
        case Unknown => (updates, false)
        case Abort => (updates, true)
        case Scored(u) => (updates + [u], false)
  }

  /** A run that gets through all rows issues one update per match whose teams are both known. */
  lemma {:induction false} RunCount(rows: seq<UpcomingRow>, env: Env)
    ensures !Run(rows, env).1 ==> |Run(rows, env).0| == |Filter(rows, r => Known(env.classes, r))|
    ensures |Run(rows, env).0| <= |rows|
  {
    if rows != [] {
      RunCount(rows[..|rows| - 1], env);
      RowStepSpec(env, rows[|rows| - 1]);
    }
  }

  /** Every update comes from one of the rows, through that row's step. */
  lemma {:induction false} RunUpdatesFromRows(rows: seq<UpcomingRow>, env: Env, k: int)
    requires 0 <= k < |Run(rows, env).0|
    ensures exists i :: 0 <= i < |rows| && RowStep(env, rows[i]) == Scored(Run(rows, env).0[k])
  {
    var init := rows[..|rows| - 1];
    var prev, step := Run(init, env).0, RowStep(env, rows[|rows| - 1]);
    assert Run(rows, env).0 == prev || (step.Scored? && Run(rows, env).0 == prev + [step.update]);
    if k < |prev| {
      RunUpdatesFromRows(init, env, k);
      var i :| 0 <= i < |init| && RowStep(env, init[i]) == Scored(prev[k]);
      assert rows[i] == init[i];
    } else {
      assert step == Scored(Run(rows, env).0[k]);
    }
  }

  /** One more row extends the run by that row's step. */
  lemma RunStep(rows: seq<UpcomingRow>, env: Env, i: int)
    requires 0 <= i < |rows| && !Run(rows[..i], env).1
    ensures RowStep(env, rows[i]).Unknown? ==> Run(rows[..i + 1], env) == Run(rows[..i], env)
    ensures RowStep(env, rows[i]).Abort? ==> Run(rows[..i + 1], env) == (Run(rows[..i], env).0, true)
    ensures RowStep(env, rows[i]).Scored? ==>
      Run(rows[..i + 1], env) == (Run(rows[..i], env).0 + [RowStep(env, rows[i]).update], false)
  {
    assert rows[..i + 1][..i] == rows[..i];
  }

  /** Once a row has aborted the run, later rows change nothing. */
  lemma {:induction false} RunAbortSticky(rows: seq<UpcomingRow>, env: Env, n: int)
    requires 0 <= n <= |rows|
    requires Run(rows[..n], env).1
    ensures Run(rows, env) == Run(rows[..n], env)
    decreases |rows| - n
  {
    if n < |rows| {
      assert rows[..n + 1][..n] == rows[..n];
      RunAbortSticky(rows, env, n + 1);
    } else {
      assert rows[..n] == rows;
    }
  }

  /** The frame's outcome column once the first n pending matches are processed: -1 for a
      match with a team the encoder does not know, null everywhere else. */
  function Marks(classes: seq<string>, rows: seq<UpcomingRow>, n: int): (r: seq<Option<int>>)
    ensures |r| == |rows|
  {
    seq(|rows|, k requires 0 <= k < |rows| => if k < n && !Known(classes, rows[k]) then Some(-1) else None)
  }

  /** Processing match i marks that match alone, and only when a team is unknown. */
  lemma MarksStep(classes: seq<string>, rows: seq<UpcomingRow>, i: int)
    requires 0 <= i < |rows|
    ensures Marks(classes, rows, i + 1) ==
      if Known(classes, rows[i]) then Marks(classes, rows, i) else Marks(classes, rows, i)[i := Some(-1)]
  {
  }

  /** `predict_match`: the frame's outcome column is marked -1 in place for unknown teams, and
      one update is issued per scored match, until a vector of the wrong length aborts the run. */
  method PredictMatch(table: seq<UpcomingRow>, env: Env)
    returns (outcomes: array<Option<int>>, updates: seq<Update>, aborted: bool)
    ensures fresh(outcomes)
    ensures (updates, aborted) == Run(Pending(table), env)
    ensures exists n :: (0 <= n <= |Pending(table)| && outcomes[..] == Marks(env.classes, Pending(table), n) &&
      (!aborted ==> n == |Pending(table)|))
  {
    var rows := Pending(table);
    outcomes := new Option<int>[|rows|](_ => None);
    updates, aborted := [], false;
    for i := 0 to |rows|
      invariant (updates, false) == Run(rows[..i], env)
      invariant outcomes[..] == Marks(env.classes, rows, i)
    {
      RunStep(rows, env, i);
      var step := RowStep(env, rows[i]);
      RowStepSpec(env, rows[i]);
      MarksStep(env.classes, rows, i);
      if step.Unknown? {
        outcomes[i] := Some(-1);
        continue;
      }
      if step.Abort? {
        aborted := true;
        RunAbortSticky(rows, env, i + 1);
        return;
      }
      updates := updates + [step.update];
    }
    assert rows[..|rows|] == rows;
  }

  // ---------------------------------------------------------------- effect of an update

  predicate Matches(r: UpcomingRow, u: Update)
  {
    r.teamA == u.teamA && r.teamB == u.teamB && r.date == u.date && r.tournamentName == u.tournamentName
  }

  /** The table after one update: every row with the update's key gets its outcome and
      confidence. */
  function ApplyUpdate(table: seq<UpcomingRow>, u: Update): (r: seq<UpcomingRow>)
    ensures |r| == |table|
  {
    seq(|table|, i requires 0 <= i < |table| =>
      if Matches(table[i], u) then table[i].(outcome := Some(u.outcome), confidence := Some(u.confidence))
      else table[i])
  }

  /** Rows with another key are untouched; rows with the key change only in outcome and
      confidence and are no longer pending; applying the same update twice changes nothing
      more. */
  lemma ApplyUpdateSpec(table: seq<UpcomingRow>, u: Update, i: int)
    requires 0 <= i < |table|
    ensures !Matches(table[i], u) ==> ApplyUpdate(table, u)[i] == table[i]
    ensures Matches(table[i], u) ==>
      var r := ApplyUpdate(table, u)[i];
      Matches(r, u) && r.outcome == Some(u.outcome) && r.confidence == Some(u.confidence) &&
      !IsPending(r)
    ensures ApplyUpdate(ApplyUpdate(table, u), u) == ApplyUpdate(table, u)
  {
  }
}
