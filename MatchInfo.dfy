/** The series scraper (matchInfo.py). A team's match table lists one row per map; rows that
    share their first CSS class form one series. `scrape_team_data` walks the rows, buffers the
    maps of the current series and flushes the buffer when the class changes and once at the
    end; `insert_series_info` turns one buffered series into a row of `matches`: tournament
    tier, map tallies, series winner, best-of and the teams' averaged stats. Pages are inputs:
    each match link maps to what the two extractors found on it. */
module MatchInfo {
  import opened Common

  // ---------------------------------------------------------------- one series

  /** What `extract_match_info` found on a map page: the date text, the map outcome for team A
      (`None` without scores), and the tournament and team names, present only when the info
      box has more than two links. */
  datatype MapInfo = MapInfo(
    dateTime: Option<string>, outcome: Option<int>, names: Option<(string, string, string)>)

  /** One team's per-map averages from `extract_match_team_stats`: kills, assists, deaths,
      rating, ADR and KAST. */
  datatype TeamMapStats = TeamMapStats(k: real, a: real, d: real, rating: real, adr: real, kast: real)

  datatype MapRecord = MapRecord(info: MapInfo, teamA: TeamMapStats, teamB: TeamMapStats)

  /** The averaged columns a series row stores for one team. */
  datatype TeamAverages = TeamAverages(rating: real, kda: real, adr: real, kast: real)

  /** The row inserted into `matches`. */
  datatype SeriesRow = SeriesRow(
    date: Option<string>, tournament: string, tournamentType: int, bestOf: int,
    teamA: string, statsA: TeamAverages, teamB: string, statsB: TeamAverages,
    outcome: Option<int>)

  /** The tier code of a match type; any other type leaves `series_match_type` unbound. */
  function TierCode(matchType: string): Option<int>
  {
    match matchType
    case "Majors" => Some(4)
    case "BigEvents" => Some(3)
    case "Lan" => Some(2)
    case "Online" => Some(1)
    case _ => None
  }

  /** Exactly the four known types get a code, the codes are 1 to 4, and no two types share
      one. */
  lemma TierCodeSpec(s: string, t: string)
    ensures TierCode(s).Some? <==> s in ["Majors", "BigEvents", "Lan", "Online"]
    ensures TierCode(s).Some? ==> 1 <= TierCode(s).value <= 4
    ensures TierCode(s).Some? && TierCode(s) == TierCode(t) ==> s == t
  {
  }

  predicate WonByA(m: MapRecord)
  {
    m.info.outcome == Some(1)
  }

  /** The (team A, team B) map wins, or `None` when a map has no outcome and `int` raises. */
  function Tally(maps: seq<MapRecord>): Option<(nat, nat)>
  {
    if maps == [] then Some((0, 0))
    else
      match Tally(maps[..|maps| - 1])
      case None => None
      case Some((a, b)) =>
        var last := maps[|maps| - 1];
        if last.info.outcome.None? then None
        else if WonByA(last) then Some((a + 1, b)) else Some((a, b + 1))
  }

  /** Every map counts for exactly one side; it counts for team A exactly when its outcome is 1. */
  lemma {:induction false} TallySpec(maps: seq<MapRecord>)
    ensures Tally(maps).Some? <==> forall m :: m in maps ==> m.info.outcome.Some?
    ensures Tally(maps).Some? ==>
      Tally(maps).value.0 + Tally(maps).value.1 == |maps| &&
      Tally(maps).value.0 == |Filter(maps, WonByA)|
  {
    if maps != [] {
      var init := maps[..|maps| - 1];
      TallySpec(init);
      assert forall m :: m in maps <==> m in init || m == maps[|maps| - 1];
    }
  }

  /** 1 when team A won more maps, 0 when fewer, `None` on a tie. */
  function SeriesOutcome(a: int, b: int): Option<int>
  {
    if a > b then Some(1) else if a < b then Some(0) else None
  }

  /** The series length the played maps imply. */
  function BestOf(maps: int, margin: int): int
  {
    if maps == 1 then 1
    else if maps == 2 then 3
    else if maps == 3 then (if margin == 1 then 3 else 5)
    else 5
  }

  /** The best-of is always 1, 3 or 5, and for one to five maps it is at least the number of
      maps; three maps won 2-1 make a best of three. */
  lemma BestOfSpec(maps: int, margin: int)
    ensures BestOf(maps, margin) in {1, 3, 5}
    ensures 1 <= maps <= 5 ==> BestOf(maps, margin) >= maps
    ensures maps == 3 ==> (BestOf(maps, margin) == 3 <==> margin == 1)
  {
  }

  function Ks(s: seq<TeamMapStats>): (c: seq<real>) ensures |c| == |s| { seq(|s|, i requires 0 <= i < |s| => s[i].k) }
  function As(s: seq<TeamMapStats>): (c: seq<real>) ensures |c| == |s| { seq(|s|, i requires 0 <= i < |s| => s[i].a) }
  function Ds(s: seq<TeamMapStats>): (c: seq<real>) ensures |c| == |s| { seq(|s|, i requires 0 <= i < |s| => s[i].d) }
  function Ratings(s: seq<TeamMapStats>): (c: seq<real>) ensures |c| == |s| { seq(|s|, i requires 0 <= i < |s| => s[i].rating) }
  function Adrs(s: seq<TeamMapStats>): (c: seq<real>) ensures |c| == |s| { seq(|s|, i requires 0 <= i < |s| => s[i].adr) }
  function Kasts(s: seq<TeamMapStats>): (c: seq<real>) ensures |c| == |s| { seq(|s|, i requires 0 <= i < |s| => s[i].kast) }

  /** The column means over the series' maps, with KDA = (mean K + mean A) / mean D; a zero
      mean of deaths makes the division raise. */
  function SeriesAverages(s: seq<TeamMapStats>): Result<TeamAverages>
  {
    if s == [] then Fail("no objects to concatenate")
    else if Mean(Ds(s)) == 0.0 then Fail("float division by zero")
    else Ok(TeamAverages(Mean(Ratings(s)), (Mean(Ks(s)) + Mean(As(s))) / Mean(Ds(s)), Mean(Adrs(s)), Mean(Kasts(s))))
  }

  /** Each averaged column lies within the range of the per-map values (here the rating). */
  lemma SeriesAveragesBounds(s: seq<TeamMapStats>, lo: real, hi: real)
    requires forall i :: 0 <= i < |s| ==> lo <= s[i].rating <= hi
    requires SeriesAverages(s).Ok?
    ensures lo <= SeriesAverages(s).value.rating <= hi
  {
    MeanBounds(Ratings(s), lo, hi);
  }

  function TeamAStats(maps: seq<MapRecord>): (s: seq<TeamMapStats>) ensures |s| == |maps|
  {
    seq(|maps|, i requires 0 <= i < |maps| => maps[i].teamA)
  }

  function TeamBStats(maps: seq<MapRecord>): (s: seq<TeamMapStats>) ensures |s| == |maps|
  {
    seq(|maps|, i requires 0 <= i < |maps| => maps[i].teamB)
  }

  /** `insert_series_info` as a value: the row it inserts, or why it raised, in the order the
      source evaluates: the tally, the averages, then the header names and the tier code. */
  function SeriesInfo(maps: seq<MapRecord>, matchType: string): Result<SeriesRow>
  {
    var tally := Tally(maps);
    var avgA := SeriesAverages(TeamAStats(maps));
    var avgB := SeriesAverages(TeamBStats(maps));
    if tally.None? then Fail("int() of a missing outcome")
    else if avgA.Fail? then Fail(avgA.reason)
    else if avgB.Fail? then Fail(avgB.reason)
    else if maps[0].info.names.None? then Fail("KeyError: tournamentName")
    else if TierCode(matchType).None? then Fail("series_match_type is unbound")
    else Ok(MakeRow(maps, tally.value.0, tally.value.1, avgA.value, avgB.value, TierCode(matchType).value))
  }

  /** The row of a series whose pieces were all found. */
  function MakeRow(maps: seq<MapRecord>, a: nat, b: nat, avgA: TeamAverages, avgB: TeamAverages, tier: int): SeriesRow
    requires maps != [] && maps[0].info.names.Some?
  {
    var names := maps[0].info.names.value;
    var margin := if a >= b then a - b else b - a;
    SeriesRow(maps[0].info.dateTime, names.0, tier, BestOf(|maps|, margin),
      names.1, avgA, names.2, avgB, SeriesOutcome(a, b))
  }

  /** An inserted series row carries the tier code of its match type, a best-of of 1, 3 or 5
      that covers up to five maps, the winner by map count, and the date, tournament and team
      names of its first map. */
  lemma SeriesInfoSpec(maps: seq<MapRecord>, matchType: string)
    requires SeriesInfo(maps, matchType).Ok?
    ensures var r := SeriesInfo(maps, matchType).value;
      var wins := |Filter(maps, WonByA)|;
      maps != [] &&
      Some(r.tournamentType) == TierCode(matchType) &&
      r.bestOf in {1, 3, 5} && (|maps| <= 5 ==> r.bestOf >= |maps|) &&
      (r.outcome == Some(1) <==> wins > |maps| - wins) &&
      (r.outcome == Some(0) <==> wins < |maps| - wins) &&
      (r.outcome.None? <==> wins == |maps| - wins) &&
      r.date == maps[0].info.dateTime &&
      maps[0].info.names == Some((r.tournament, r.teamA, r.teamB))
  {
    TallySpec(maps);
    var a, b := Tally(maps).value.0, Tally(maps).value.1;
    var avgA, avgB := SeriesAverages(TeamAStats(maps)).value, SeriesAverages(TeamBStats(maps)).value;
    assert SeriesInfo(maps, matchType).value == MakeRow(maps, a, b, avgA, avgB, TierCode(matchType).value);
    BestOfSpec(|maps|, if a >= b then a - b else b - a);
  }

  /** A series whose maps all have outcomes, whose first map names the teams, whose deaths
      average above zero for both teams and whose type is known is always inserted. */
  lemma SeriesInfoSucceeds(maps: seq<MapRecord>, matchType: string)
    requires maps != [] && forall m :: m in maps ==> m.info.outcome.Some?
    requires maps[0].info.names.Some? && TierCode(matchType).Some?
    requires Mean(Ds(TeamAStats(maps))) != 0.0 && Mean(Ds(TeamBStats(maps))) != 0.0
    ensures SeriesInfo(maps, matchType).Ok?
  {
    TallySpec(maps);
  }

  /** The statement body: the tally loop over the maps, the series outcome and best-of from
      its counts, both teams' averages, then the header names and the tier code for the
      inserted values. */
  method InsertSeriesInfo(maps: seq<MapRecord>, matchType: string) returns (r: Result<SeriesRow>)
    ensures r == SeriesInfo(maps, matchType)
  {
    var teamAWins, teamBWins := 0, 0;
    for i := 0 to |maps|
      invariant Tally(maps[..i]) == Some((teamAWins, teamBWins))
    {
      assert maps[..i + 1][..i] == maps[..i];
      var outcome := maps[i].info.outcome;
      if outcome.None? {
        TallyFails(maps, i + 1);
        return Fail("int() of a missing outcome");
      }
      if outcome.value == 1 {
        teamAWins := teamAWins + 1;
      } else {
        teamBWins := teamBWins + 1;
      }
    }
    assert maps[..|maps|] == maps;
    var seriesOutcome := SeriesOutcome(teamAWins, teamBWins);
    var matchDiff := if teamAWins >= teamBWins then teamAWins - teamBWins else teamBWins - teamAWins;
    var bestOf := BestOf(|maps|, matchDiff);
    var avgA := SeriesAverages(TeamAStats(maps));
    if avgA.Fail? {
      return Fail(avgA.reason);
    }
    var avgB := SeriesAverages(TeamBStats(maps));
    if avgB.Fail? {
      return Fail(avgB.reason);
    }
    var names := maps[0].info.names;
    if names.None? {
      return Fail("KeyError: tournamentName");
    }
    var tier := TierCode(matchType);
    if tier.None? {
      return Fail("series_match_type is unbound");
    }
    r := Ok(SeriesRow(maps[0].info.dateTime, names.value.0, tier.value, bestOf,
                      names.value.1, avgA.value, names.value.2, avgB.value, seriesOutcome));
  }

  lemma {:induction false} TallyFails(maps: seq<MapRecord>, n: int)
    requires 0 <= n <= |maps| && Tally(maps[..n]).None?
    ensures Tally(maps).None?
    decreases |maps| - n
  {
    if n < |maps| {
      assert maps[..n + 1][..n] == maps[..n];
      TallyFails(maps, n + 1);
    } else {
      assert maps[..n] == maps;
    }
  }

  // ---------------------------------------------------------------- grouping the rows

  /** A row of the match table: its first CSS class (`None` when it has none and indexing
      raises) and the hrefs of its links. */
  datatype Row = Row(cls: Option<string>, links: seq<string>)

  /** What the two extractors make of a map page. */
  datatype Extract = Raised | Missing | Found(m: MapRecord)

  function Contains(s: string, p: string): bool
    decreases |s|
  {
    |p| <= |s| && (s[..|p|] == p || Contains(s[1..], p))
  }

  /** The first link into the match statistics pages. */
  function MatchLink(links: seq<string>): Option<string>
  {
    if links == [] then None
    else if Contains(links[0], "/stats/matches") then Some(links[0])
    else MatchLink(links[1..])
  }

  /** What a row contributes: nothing without a statistics link, otherwise what its page
      gives. */
  function Step(row: Row, extract: string -> Extract): Extract
  {
    match MatchLink(row.links)
    case None => Missing
    case Some(link) => extract(link)
  }

  /** A row the loop gets through without an exception. */
  predicate Good(row: Row, extract: string -> Extract)
  {
    row.cls.Some? && !Step(row, extract).Raised?
  }

  /** The maximal runs of consecutive rows with the same class. */
  function Runs(rows: seq<Row>): (rs: seq<seq<Row>>)
    ensures (rs == []) == (rows == [])
  {
    if rows == [] then []
    else
      var rs := Runs(rows[..|rows| - 1]);
      var last := rows[|rows| - 1];
      if |rows| >= 2 && rows[|rows| - 2].cls == last.cls then rs[..|rs| - 1] + [rs[|rs| - 1] + [last]]
      else rs + [[last]]
  }

  function AllButLast<T>(s: seq<T>): seq<T>
  {
    if s == [] then [] else s[..|s| - 1]
  }

  /** The run the last row belongs to; empty for no rows. */
  function LastRun(rows: seq<Row>): seq<Row>
  {
    var rs := Runs(rows);
    if rs == [] then [] else rs[|rs| - 1]
  }

  /** The runs put back together give the rows, in order. */
  lemma {:induction false} RunsFlatten(rows: seq<Row>)
    ensures Flatten(Runs(rows)) == rows
  {
    if rows != [] {
      var init := rows[..|rows| - 1];
      var last := rows[|rows| - 1];
      assert init + [last] == rows;
      RunsFlatten(init);
      RunsSnoc(init, last);
      var rs: seq<seq<Row>> := Runs(init);
      if init != [] && init[|init| - 1].cls == last.cls {
        var front := AllButLast(rs);
        assert rs == front + [LastRun(init)];
        FlattenSnoc(front, LastRun(init));
        FlattenSnoc(front, LastRun(init) + [last]);
      } else {
        FlattenSnoc(rs, [last]);
      }
    }
  }

  /** A row joins the last run when it has the class of the row before it, and opens a new
      run otherwise. */
  lemma RunsSnoc(init: seq<Row>, last: Row)
    ensures init != [] && init[|init| - 1].cls == last.cls ==>
      Runs(init + [last]) == AllButLast(Runs(init)) + [LastRun(init) + [last]]
    ensures !(init != [] && init[|init| - 1].cls == last.cls) ==>
      Runs(init + [last]) == Runs(init) + [[last]]
  {
    var rows := init + [last];
    assert rows[..|rows| - 1] == init;
    if init != [] {
      assert rows[|rows| - 2] == init[|init| - 1];
    }
  }

  /** Each run is non-empty, and the last run ends with the last row. */
  lemma {:induction false} RunsNonEmpty(rows: seq<Row>)
    ensures forall j :: 0 <= j < |Runs(rows)| ==> Runs(rows)[j] != []
    ensures rows != [] ==> LastRun(rows) != [] && LastRun(rows)[|LastRun(rows)| - 1] == rows[|rows| - 1]
  {
    if rows != [] {
      var init := rows[..|rows| - 1];
      var last := rows[|rows| - 1];
      var rs := Runs(init);
      var n := |rs|;
      RunsNonEmpty(init);
      var r: seq<seq<Row>> := Runs(rows);
      if |rows| >= 2 && rows[|rows| - 2].cls == last.cls {
        assert r == rs[..n - 1] + [rs[n - 1] + [last]];
        forall j | 0 <= j < |r| ensures r[j] != [] {
          if j < n - 1 {
            assert r[j] == rs[j];
          }
        }
      } else {
        assert r == rs + [[last]];
        forall j | 0 <= j < |r| ensures r[j] != [] {
          if j < n {
            assert r[j] == rs[j];
          }
        }
      }
    }
  }

  /** The rows of a run share the class of its first row. */
  lemma {:induction false} RunsShareClass(rows: seq<Row>)
    ensures forall j, x :: 0 <= j < |Runs(rows)| && x in Runs(rows)[j] ==> x.cls == Runs(rows)[j][0].cls
  {
    if rows != [] {
      var init := rows[..|rows| - 1];
      var last := rows[|rows| - 1];
      var rs := Runs(init);
      var n := |rs|;
      RunsShareClass(init);
      RunsNonEmpty(init);
      var r: seq<seq<Row>> := Runs(rows);
      if |rows| >= 2 && rows[|rows| - 2].cls == last.cls {
        assert init[|init| - 1] == rows[|rows| - 2];
        assert r == rs[..n - 1] + [rs[n - 1] + [last]];
        assert rs[n - 1][|rs[n - 1]| - 1] in rs[n - 1];
        forall j: int, x: Row | 0 <= j < |r| && x in r[j]
          ensures x.cls == r[j][0].cls
        {
          if j < n - 1 {
            assert r[j] == rs[j];
          } else {
            assert r[j] == rs[n - 1] + [last];
          }
        }
      } else {
        assert r == rs + [[last]];
        forall j: int, x: Row | 0 <= j < |r| && x in r[j]
          ensures x.cls == r[j][0].cls
        {
          if j < n {
            assert r[j] == rs[j];
          }
        }
      }
    }
  }

  /** Each run is non-empty, its rows share one class, and the last run ends with the last row. */
  lemma RunsUniform(rows: seq<Row>)
    ensures forall j :: 0 <= j < |Runs(rows)| ==> Runs(rows)[j] != []
    ensures forall j, x :: 0 <= j < |Runs(rows)| && x in Runs(rows)[j] ==> x.cls == Runs(rows)[j][0].cls
    ensures rows != [] ==> LastRun(rows)[|LastRun(rows)| - 1] == rows[|rows| - 1]
  {
    RunsNonEmpty(rows);
    RunsShareClass(rows);
  }

  /** The class a run shares; `None` for no rows. */
  function Key(run: seq<Row>): Option<string>
  {
    if run == [] then None else run[0].cls
  }

  /** Neighbouring runs have different classes: the runs are maximal. */
  lemma {:induction false} RunsMaximal(rows: seq<Row>)
    ensures forall j :: 0 <= j < |Runs(rows)| - 1 ==> Key(Runs(rows)[j]) != Key(Runs(rows)[j + 1])
  {
    if rows != [] {
      var init := rows[..|rows| - 1];
      var last := rows[|rows| - 1];
      RunsMaximal(init);
      RunsUniform(init);
      if |rows| >= 2 {
        var rs := Runs(init);
        var n := |rs|;
        assert init[|init| - 1] == rows[|rows| - 2];
        assert rs[n - 1][|rs[n - 1]| - 1] in rs[n - 1];
        if rows[|rows| - 2].cls == last.cls {
          assert Key(rs[n - 1] + [last]) == Key(rs[n - 1]);
        } else {
          assert Key(rs[n - 1]) == rows[|rows| - 2].cls;
        }
      }
    }
  }

  /** Rows that all share one class form one run. */
  lemma {:induction false} RunsOneClass(rows: seq<Row>)
    requires rows != [] && forall j :: 0 <= j < |rows| ==> rows[j].cls == rows[0].cls
    ensures Runs(rows) == [rows]
  {
    var last := rows[|rows| - 1];
    var init := rows[..|rows| - 1];
    assert init + [last] == rows;
    if |rows| == 1 {
      assert init == [];
    } else {
      forall j | 0 <= j < |init| ensures init[j].cls == init[0].cls {
        assert init[j] == rows[j] && init[0] == rows[0];
      }
      RunsOneClass(init);
      assert init[|init| - 1] == rows[|rows| - 2];
      RunJoins(init, last);
      assert AllButLast(Runs(init)) == [] && LastRun(init) == init;
      RunsSnoc(init, last);
    }
  }


  /** What a row adds to the current buffer. */
  function Contribution(row: Row, extract: string -> Extract): seq<MapRecord>
  {
    match Step(row, extract) case Found(m) => [m] case _ => []
  }

  /** The maps a run of rows buffers, in row order. */
  function Maps(rows: seq<Row>, extract: string -> Extract): seq<MapRecord>
  {
    if rows == [] then []
    else Maps(rows[..|rows| - 1], extract) + Contribution(rows[|rows| - 1], extract)
  }

  lemma {:induction false} MapsAppend(xs: seq<Row>, ys: seq<Row>, extract: string -> Extract)
    ensures Maps(xs + ys, extract) == Maps(xs, extract) + Maps(ys, extract)
    decreases |ys|
  {
    if ys == [] {
      assert xs + ys == xs;
    } else {
      var init := ys[..|ys| - 1];
      assert (xs + ys)[..|xs + ys| - 1] == xs + init;
      MapsAppend(xs, init, extract);
    }
  }

  /** The buffers a sequence of runs flushes: those holding at least one map. */
  function Flushed(runs: seq<seq<Row>>, extract: string -> Extract): seq<seq<MapRecord>>
  {
    if runs == [] then []
    else
      var m := Maps(runs[|runs| - 1], extract);
      Flushed(runs[..|runs| - 1], extract) + (if m != [] then [m] else [])
  }

  /** Every flushed buffer is non-empty, and together they hold all maps of the runs, in
      order. */
  lemma {:induction false} FlushedSpec(runs: seq<seq<Row>>, extract: string -> Extract)
    ensures forall g :: g in Flushed(runs, extract) ==> g != []
    ensures Flatten(Flushed(runs, extract)) == Maps(Flatten(runs), extract)
  {
    if runs != [] {
      var init, last := runs[..|runs| - 1], runs[|runs| - 1];
      FlushedSpec(init, extract);
      var m := Maps(last, extract);
      var before, tail := Flushed(init, extract), if m != [] then [m] else [];
      assert Flushed(runs, extract) == before + tail;
      assert Flatten(runs) == Flatten(init) + last;
      MapsAppend(Flatten(init), last, extract);
      FlattenAppend(before, tail);
      assert Flatten(tail) == m by {
        if m != [] {
          assert Flatten(tail) == Flatten(tail[..0]) + m;
        }
      }
      forall g | g in Flushed(runs, extract) ensures g != [] {
        assert g in before || g in tail;
      }
    }
  }

  /** The index of the first row that raises, or the row count. */
  function Stop(rows: seq<Row>, extract: string -> Extract): (k: nat)
    ensures k <= |rows|
  {
    if rows == [] || !Good(rows[0], extract) then 0 else 1 + Stop(rows[1..], extract)
  }

  lemma {:induction false} StopAt(rows: seq<Row>, extract: string -> Extract, i: int)
    requires 0 <= i <= |rows|
    requires forall j :: 0 <= j < i ==> Good(rows[j], extract)
    requires i == |rows| || !Good(rows[i], extract)
    ensures Stop(rows, extract) == i
  {
    if i > 0 {
      StopAt(rows[1..], extract, i - 1);
    }
  }

  /** The buffers `scrape_team_data` flushes. A missing class raises before the comparison,
      so the open run is lost; a raising extractor runs after the comparison, so the run the
      row opened or joined is lost; otherwise every run is flushed. */
  function Groups(rows: seq<Row>, extract: string -> Extract): seq<seq<MapRecord>>
  {
    var k := Stop(rows, extract);
    if k == |rows| then Flushed(Runs(rows), extract)
    else if rows[k].cls.None? then Flushed(AllButLast(Runs(rows[..k])), extract)
    else Flushed(AllButLast(Runs(rows[..k + 1])), extract)
  }

  /** When no row raises, every map of the table is inserted exactly once, in table order,
      and every inserted series holds at least one map. */
  lemma GroupsKeepAllMaps(rows: seq<Row>, extract: string -> Extract)
    requires forall j :: 0 <= j < |rows| ==> Good(rows[j], extract)
    ensures Flatten(Groups(rows, extract)) == Maps(rows, extract)
    ensures forall g :: g in Groups(rows, extract) ==> g != []
  {
    StopAt(rows, extract, |rows|);
    RunsFlatten(rows);
    FlushedSpec(Runs(rows), extract);
  }

  /** Rows that all share one class form a single series, flushed once at the end. */
  lemma OneClassOneSeries(rows: seq<Row>, extract: string -> Extract)
    requires rows != [] && forall j :: 0 <= j < |rows| ==> Good(rows[j], extract) && rows[j].cls == rows[0].cls
    requires Maps(rows, extract) != []
    ensures Groups(rows, extract) == [Maps(rows, extract)]
  {
    StopAt(rows, extract, |rows|);
    RunsOneClass(rows);
    assert Flushed([rows], extract) == Flushed([], extract) + [Maps(rows, extract)];
  }

  /** The series attempts: one `insert_series_info` per flushed buffer. */
  function InsertAll(groups: seq<seq<MapRecord>>, matchType: string): (r: seq<Result<SeriesRow>>)
    ensures |r| == |groups|
  {
    seq(|groups|, i requires 0 <= i < |groups| => SeriesInfo(groups[i], matchType))
  }

  /** How the run state moves when row i is read: the same class extends the open run;
      another class closes it, flushing its maps when it has any, and opens a run holding
      only the row. */
  lemma RunAdvance(rows: seq<Row>, i: int, extract: string -> Extract)
    requires 0 <= i < |rows|
    ensures var l := LastRun(rows[..i + 1]);
      l != [] && l[|l| - 1] == rows[i]
    ensures i > 0 && rows[i - 1].cls == rows[i].cls ==>
      AllButLast(Runs(rows[..i + 1])) == AllButLast(Runs(rows[..i])) &&
      LastRun(rows[..i + 1]) == LastRun(rows[..i]) + [rows[i]]
    ensures !(i > 0 && rows[i - 1].cls == rows[i].cls) ==>
      Flushed(AllButLast(Runs(rows[..i + 1])), extract) ==
        Flushed(AllButLast(Runs(rows[..i])), extract) +
        (if Maps(LastRun(rows[..i]), extract) != [] then [Maps(LastRun(rows[..i]), extract)] else []) &&
      LastRun(rows[..i + 1]) == [rows[i]]
  {
    var init, last := rows[..i], rows[i];
    assert rows[..i + 1] == init + [last];
    if i > 0 {
      assert init[|init| - 1] == rows[i - 1];
    }
    if i > 0 && rows[i - 1].cls == rows[i].cls {
      RunJoins(init, last);
    } else {
      RunOpens(init, last, extract);
    }
  }

  /** A row of the same class as the one before it extends the last run. */
  lemma RunJoins(init: seq<Row>, last: Row)
    requires init != [] && init[|init| - 1].cls == last.cls
    ensures AllButLast(Runs(init + [last])) == AllButLast(Runs(init))
    ensures LastRun(init + [last]) == LastRun(init) + [last]
  {
    RunsSnoc(init, last);
    var grown := AllButLast(Runs(init)) + [LastRun(init) + [last]];
    assert AllButLast(grown) == AllButLast(Runs(init));
  }

  /** A row of another class closes the last run, which is flushed when it holds a map, and
      opens a run of its own. */
  lemma RunOpens(init: seq<Row>, last: Row, extract: string -> Extract)
    requires !(init != [] && init[|init| - 1].cls == last.cls)
    ensures Flushed(AllButLast(Runs(init + [last])), extract) ==
      Flushed(AllButLast(Runs(init)), extract) +
      (if Maps(LastRun(init), extract) != [] then [Maps(LastRun(init), extract)] else [])
    ensures LastRun(init + [last]) == [last]
  {
    RunsSnoc(init, last);
    var rs := Runs(init);
    assert AllButLast(rs + [[last]]) == rs;
    if rs != [] {
      assert Flushed(rs, extract) == Flushed(AllButLast(rs), extract) +
        (if Maps(LastRun(init), extract) != [] then [Maps(LastRun(init), extract)] else []);
    }
  }


  /** The maps buffered for the run open after the first i rows. */
  ghost function Open(rows: seq<Row>, i: int, extract: string -> Extract): seq<MapRecord>
    requires 0 <= i <= |rows|
  {
    Maps(LastRun(rows[..i]), extract)
  }

  /** The buffers flushed while reading the first i rows. */
  ghost function Done(rows: seq<Row>, i: int, extract: string -> Extract): seq<seq<MapRecord>>
    requires 0 <= i <= |rows|
  {
    Flushed(AllButLast(Runs(rows[..i])), extract)
  }

  /** Reading row i: the row's own map, if any, joins the open buffer, which a class change
      first empties. */
  lemma OpenStep(rows: seq<Row>, i: int, extract: string -> Extract)
    requires 0 <= i < |rows|
    ensures Open(rows, i + 1, extract) ==
      (if i > 0 && rows[i - 1].cls == rows[i].cls then Open(rows, i, extract) else []) + Contribution(rows[i], extract)
  {
    RunAdvance(rows, i, extract);
    var l := LastRun(rows[..i + 1]);
    var l0 := LastRun(rows[..i]);
    if i > 0 && rows[i - 1].cls == rows[i].cls {
      assert l == l0 + [rows[i]];
      assert (l0 + [rows[i]])[..|l0|] == l0;
      assert Maps(l, extract) == Maps(l0, extract) + Contribution(rows[i], extract);
    } else {
      assert l == [rows[i]];
      assert [rows[i]][..0] == [];
      assert Maps(l, extract) == Maps([], extract) + Contribution(rows[i], extract);
    }
  }

  /** Reading row i: a class change flushes the open buffer when it holds a map. */
  lemma DoneStep(rows: seq<Row>, i: int, extract: string -> Extract)
    requires 0 <= i < |rows|
    ensures Done(rows, i + 1, extract) == Done(rows, i, extract) +
      (if !(i > 0 && rows[i - 1].cls == rows[i].cls) && Open(rows, i, extract) != [] then [Open(rows, i, extract)] else [])
  {
    RunAdvance(rows, i, extract);
    if i > 0 && rows[i - 1].cls == rows[i].cls {
      assert Done(rows, i, extract) + [] == Done(rows, i, extract);
    }
  }

  /** The whole table's buffers are those of all runs but the last, then the last run's. */
  lemma FlushedLast(rows: seq<Row>, extract: string -> Extract)
    requires rows != []
    ensures Flushed(Runs(rows), extract) == Done(rows, |rows|, extract) +
      (if Open(rows, |rows|, extract) != [] then [Open(rows, |rows|, extract)] else [])
  {
    assert rows[..|rows|] == rows;
  }

  /** The buffers flushed so far and the open buffer. */
  datatype ScanState = ScanState(done: seq<seq<MapRecord>>, open: seq<MapRecord>)

  /** The loop's state after i rows, one row at a time. */
  ghost function Scan(rows: seq<Row>, i: int, extract: string -> Extract): ScanState
    requires 0 <= i <= |rows|
  {
    if i == 0 then ScanState([], [])
    else
      var st := Scan(rows, i - 1, extract);
      var same := i > 1 && rows[i - 2].cls == rows[i - 1].cls;
      ScanState(st.done + (if !same && st.open != [] then [st.open] else []),
        (if same then st.open else []) + Contribution(rows[i - 1], extract))
  }

  /** One row of the scan: a class change flushes a non-empty buffer and starts a new one. */
  lemma ScanStep(rows: seq<Row>, i: int, extract: string -> Extract)
    requires 0 <= i < |rows|
    ensures var st, same := Scan(rows, i, extract), i > 0 && rows[i - 1].cls == rows[i].cls;
      Scan(rows, i + 1, extract)
      == ScanState(st.done + (if !same && st.open != [] then [st.open] else []),
                   (if same then st.open else []) + Contribution(rows[i], extract))
  {
  }

  /** The row-at-a-time state is the run decomposition of the rows read so far. */
  lemma {:induction false} ScanMeaning(rows: seq<Row>, i: int, extract: string -> Extract)
    requires 0 <= i <= |rows|
    ensures Scan(rows, i, extract) == ScanState(Done(rows, i, extract), Open(rows, i, extract))
  {
    if i > 0 {
      ScanMeaning(rows, i - 1, extract);
      OpenStep(rows, i - 1, extract);
      DoneStep(rows, i - 1, extract);
    }
  }

  /** When every row gets through, the series are the buffers flushed in the loop and then
      the open buffer when it holds a map. */
  lemma GroupsAtEnd(rows: seq<Row>, extract: string -> Extract)
    requires forall j :: 0 <= j < |rows| ==> Good(rows[j], extract)
    ensures var st := Scan(rows, |rows|, extract);
      Groups(rows, extract) == st.done + (if st.open != [] then [st.open] else [])
  {
    StopAt(rows, extract, |rows|);
    ScanMeaning(rows, |rows|, extract);
    if rows != [] {
      FlushedLast(rows, extract);
    }
  }

  /** A row without a class ends the loop before the comparison: the series are the buffers
      flushed before it. */
  lemma GroupsAtMissingClass(rows: seq<Row>, extract: string -> Extract, i: int)
    requires 0 <= i < |rows| && rows[i].cls.None?
    requires forall j :: 0 <= j < i ==> Good(rows[j], extract)
    ensures Groups(rows, extract) == Scan(rows, i, extract).done
  {
    StopAt(rows, extract, i);
    ScanMeaning(rows, i, extract);
  }

  /** A raising page ends the loop after the comparison: the series are the buffers flushed
      up to and including the row's own class change. */
  lemma GroupsAtRaise(rows: seq<Row>, extract: string -> Extract, i: int)
    requires 0 <= i < |rows| && rows[i].cls.Some? && Step(rows[i], extract).Raised?
    requires forall j :: 0 <= j < i ==> Good(rows[j], extract)
    ensures Groups(rows, extract) == Scan(rows, i + 1, extract).done
  {
    ScanMeaning(rows, i + 1, extract);
    assert Scan(rows, i + 1, extract).done == Done(rows, i + 1, extract);
    StopAt(rows, extract, i);
  }

  /** `process_current_group`: one insert attempt when the buffer holds a map. */
  method ProcessCurrentGroup(containsMatch: bool, current: seq<MapRecord>, matchType: string)
    returns (attempt: seq<Result<SeriesRow>>)
    ensures attempt == InsertAll(if containsMatch && current != [] then [current] else [], matchType)
  {
    attempt := [];
    if containsMatch && current != [] {
      var r := InsertSeriesInfo(current, matchType);
      attempt := [r];
    }
  }

  /** Looks up the row's statistics link and, when there is one, extracts its page. */
  method ReadRow(row: Row, extract: string -> Extract) returns (page: Extract)
    ensures page == Step(row, extract)
  {
    var link := MatchLink(row.links);
    if link.None? {
      return Missing;
    }
    page := extract(link.value);
  }

  lemma InsertAllAppend(groups: seq<seq<MapRecord>>, more: seq<seq<MapRecord>>, matchType: string)
    ensures InsertAll(groups + more, matchType) == InsertAll(groups, matchType) + InsertAll(more, matchType)
  {
  }

  /** `scrape_team_data`: one pass over the rows with the group buffers, flushing on a class
      change and at the end. */
  method ScrapeTeamData(rows: seq<Row>, extract: string -> Extract, matchType: string)
    returns (inserted: seq<Result<SeriesRow>>)
    ensures inserted == InsertAll(Groups(rows, extract), matchType)
  {
    inserted := [];
    var groupNum: Option<string> := None;
    var current: seq<MapRecord> := [];
    var containsMatch := false;
    for i := 0 to |rows|
      invariant forall j :: 0 <= j < i ==> Good(rows[j], extract)
      invariant groupNum == (if i == 0 then None else rows[i - 1].cls)
      invariant current == Scan(rows, i, extract).open
      invariant containsMatch == (current != [])
      invariant inserted == InsertAll(Scan(rows, i, extract).done, matchType)
    {
      var row := rows[i];
      if row.cls.None? {
        GroupsAtMissingClass(rows, extract, i);
        return;
      }
      groupNum, current, containsMatch, inserted :=
        EnterGroup(rows, extract, i, matchType, groupNum, current, containsMatch, inserted);
      var page := ReadRow(row, extract);
      if page.Raised? {
        GroupsAtRaise(rows, extract, i);
        return;
      }
      if page.Found? {
        containsMatch := true;
        current := current + [page.m];
      } else {
        assert current + Contribution(row, extract) == current;
      }
      assert Good(row, extract);
    }
    GroupsAtEnd(rows, extract);
    inserted := FlushGroup(inserted, containsMatch, current, matchType, Scan(rows, |rows|, extract).done);
  }

  /** The comparison of row i's class with the current group's: on a change the buffer is
      flushed and a new group starts. */
  method EnterGroup(rows: seq<Row>, extract: string -> Extract, i: int, matchType: string,
                    groupNum: Option<string>, current: seq<MapRecord>, containsMatch: bool,
                    inserted: seq<Result<SeriesRow>>)
    returns (groupNum': Option<string>, current': seq<MapRecord>, containsMatch': bool,
             inserted': seq<Result<SeriesRow>>)
    requires 0 <= i < |rows| && rows[i].cls.Some?
    requires groupNum == (if i == 0 then None else rows[i - 1].cls)
    requires current == Scan(rows, i, extract).open && containsMatch == (current != [])
    requires inserted == InsertAll(Scan(rows, i, extract).done, matchType)
    ensures groupNum' == rows[i].cls
    ensures current' + Contribution(rows[i], extract) == Scan(rows, i + 1, extract).open
    ensures containsMatch' == (current' != [])
    ensures inserted' == InsertAll(Scan(rows, i + 1, extract).done, matchType)
  {
    ScanStep(rows, i, extract);
    groupNum', current', containsMatch', inserted' := groupNum, current, containsMatch, inserted;
    if groupNum != rows[i].cls {
      inserted' := FlushGroup(inserted, containsMatch, current, matchType, Scan(rows, i, extract).done);
      groupNum' := rows[i].cls;
      current' := [];
      containsMatch' := false;
    }
  }

  /** Appends the insert attempt for the current buffer to the attempts made for the
      series flushed before it. */
  method FlushGroup(inserted: seq<Result<SeriesRow>>, containsMatch: bool, current: seq<MapRecord>,
                    matchType: string, ghost done: seq<seq<MapRecord>>)
    returns (r: seq<Result<SeriesRow>>)
    requires inserted == InsertAll(done, matchType) && containsMatch == (current != [])
    ensures r == InsertAll(done + (if current != [] then [current] else []), matchType)
  {
    var attempt := ProcessCurrentGroup(containsMatch, current, matchType);
    InsertAllAppend(done, if current != [] then [current] else [], matchType);
    r := inserted + attempt;
  }
}
