/** The weekly team-statistics scraper (backend/scraper/teamStatsByDate.py). For every date
    from a year ago to today in 7-day steps it reads the ranking page, the first-to-use
    ("ftu") and pistol tables for the 50 days before that date, and inserts one
    `team_stats_by_date` row per ranked team found in both tables, converting the "x%" cells
    to fractions. Pages are given as values; the database as the sequence of committed rows. */
module TeamStatsByDate {
  import opened Common
  import opened Text
  import opened Calendar
  import opened TeamRanking
  import opened ScraperUtil

  /** One entry of `get_team_ranking`'s list. */
  datatype RankedTeam = RankedTeam(teamName: string, teamId: int, ranking: int)

  /** A row of the ftu table: the percent columns as the page shows them ("52.3%"), the
      other columns as numbers. */
  datatype FtuRow = FtuRow(team: string, roundWin: string, openingKill: string, multiKill: real,
                           won5v4: string, won4v5: string, traded: string, adr: real,
                           flashAssists: real)

  /** A row of the pistol table. */
  datatype PistolRow = PistolRow(team: string, pistolWin: string, round2Conv: string,
                                 round2Break: string)

  /** A row of `team_stats_by_date`; the converted percent cells are exact decimals. */
  datatype StatRow = StatRow(id: int, date: Date, teamName: string, ranking: int,
                             roundWr: Decimal, openingKillRate: Decimal, multikillRate: real,
                             wr5v4: Decimal, wr4v5: Decimal, tradeRate: Decimal,
                             utilityAdr: real, flashAssists: real, pistolWr: Decimal,
                             round2Conv: Decimal, round2Break: Decimal)

  /** The pages read for one date: the ranking blocks, and the two tables, None when
      `get_table_stats` caught an error and returned an empty list. */
  datatype WeekPages = WeekPages(rankingBlocks: seq<TeamBlock>, ftu: Option<seq<FtuRow>>,
                                 pistol: Option<seq<PistolRow>>)

  // ---------------------------------------------------------------- get_team_ranking

  /** The parsed blocks as entries ranked 1, 2, ... in page order. */
  function Ranked(parsed: seq<(int, string)>): (r: seq<RankedTeam>)
    ensures |r| == |parsed|
  {
    if parsed == [] then []
    else Ranked(parsed[..|parsed| - 1]) + [RankedTeam(parsed[|parsed| - 1].1, parsed[|parsed| - 1].0, |parsed|)]
  }

  lemma {:induction false} RankedAt(parsed: seq<(int, string)>)
    ensures forall k :: 0 <= k < |parsed| ==>
              Ranked(parsed)[k] == RankedTeam(parsed[k].1, parsed[k].0, k + 1)
  {
    if parsed != [] {
      RankedAt(parsed[..|parsed| - 1]);
    }
  }

  lemma RankedStep(parsed: seq<(int, string)>, i: int)
    requires 0 <= i < |parsed|
    ensures Ranked(parsed[..i + 1]) == Ranked(parsed[..i]) + [RankedTeam(parsed[i].1, parsed[i].0, i + 1)]
  {
    assert parsed[..i + 1][..i] == parsed[..i];
  }

  /** What `get_team_ranking` returns: every block ranked in page order, or None when
      reading any block raises. */
  function Ranking(blocks: seq<TeamBlock>): Option<seq<RankedTeam>>
  {
    var parsed := ParsedPrefix(blocks);
    if |parsed| < |blocks| then None else Some(Ranked(parsed))
  }

  /** The list exists exactly when every block reads, and then entry k is block k with
      rank k + 1. */
  lemma RankingSpec(blocks: seq<TeamBlock>)
    ensures Ranking(blocks).Some? <==> forall k :: 0 <= k < |blocks| ==> ParseBlock(blocks[k]).Some?
    ensures Ranking(blocks).Some? ==> |Ranking(blocks).value| == |blocks|
    ensures Ranking(blocks).Some? ==> forall k :: 0 <= k < |blocks| ==>
              ParseBlock(blocks[k])
                == Some((Ranking(blocks).value[k].teamId, Ranking(blocks).value[k].teamName))
              && Ranking(blocks).value[k].ranking == k + 1
  {
    PrefixWhileSpec(blocks, ParseBlock);
    RankedAt(ParsedPrefix(blocks));
  }

  /** `get_team_ranking`: the ranking counter loop, returning None on an exception. */
  method GetTeamRanking(blocks: seq<TeamBlock>) returns (r: Option<seq<RankedTeam>>)
    ensures r == Ranking(blocks)
  {
    ghost var parsed := ParsedPrefix(blocks);
    var teams: seq<RankedTeam> := [];
    var ranking := 1;
    var i := 0;
    while i < |blocks|
      invariant 0 <= i <= |parsed| && ranking == i + 1
      invariant teams == Ranked(parsed[..i])
    {
      var p := ParseBlock(blocks[i]);
      PrefixWhileAt(blocks, ParseBlock, i);
      if p.None? {
        return None;
      }
      RankedStep(parsed, i);
      teams := teams + [RankedTeam(p.value.1, p.value.0, ranking)];
      ranking := ranking + 1;
      i := i + 1;
    }
    assert parsed[..i] == parsed;
    r := Some(teams);
  }

  // ---------------------------------------------------------------- get_table_stats

  /** The first day of the stats window `get_table_stats` asks for: 50 days before the
      date, or None where `datetime` would overflow. */
  function WindowStart(dateAgo: Date): (r: Option<Date>)
    requires Valid(dateAgo)
    ensures r.Some? ==> InRange(r.value)
  {
    var start := AddDays(dateAgo, -50);
    if InRange(start) then Some(start) else None
  }

  lemma WindowStartFifty(dateAgo: Date)
    requires Valid(dateAgo) && WindowStart(dateAgo).Some?
    ensures Ordinal(WindowStart(dateAgo).value) == Ordinal(dateAgo) - 50
    ensures LessEq(WindowStart(dateAgo).value, dateAgo) && WindowStart(dateAgo).value != dateAgo
  {
    AddDaysOrdinal(dateAgo, -50);
    OrdinalOrder(WindowStart(dateAgo).value, dateAgo);
  }

  // ---------------------------------------------------------------- insert_team_stat

  /** `float(x.strip('%')) / 100`, or None for the ValueError. Dividing by 100 moves the
      decimal point two places. */
  function Percent(x: string): Option<Decimal>
  {
    match ParseDecimal(StripChar(x, '%'))
    case None => None
    case Some(d) => Some(Decimal(d.digits, d.scale + 2))
  }

  /** Moving the point two places divides the value by 100. */
  lemma PercentScale(d: Decimal)
    ensures DecimalReal(Decimal(d.digits, d.scale + 2)) == DecimalReal(d) / 100.0
  {
    assert Pow10(d.scale + 2) == 100.0 * Pow10(d.scale);
  }

  /** A cell written as "<whole>.<fraction>%" becomes whole + fraction / 10^|fraction|,
      divided by 100. */
  lemma PercentOfDecimal(whole: nat, frac: string)
    requires AllDigits(frac)
    ensures Percent(NatText(whole) + "." + frac + "%").Some?
    ensures DecimalReal(Percent(NatText(whole) + "." + frac + "%").value)
         == (whole as real + (DigitsValue(frac) as real) / Pow10(|frac|)) / 100.0
  {
    var w := NatText(whole);
    var body := w + "." + frac;
    DecimalTextEnds(w, frac);
    StripCharEnds(body, '%');
    assert w + "." + frac + "%" == body + ['%'];
    ParseDecimalOfParts(whole, frac);
    var d := Decimal(DigitsValue(w + frac), |frac|);
    assert Percent(body + ['%']) == Some(Decimal(d.digits, d.scale + 2));
    PercentScale(d);
    DecimalPartsValue(whole, frac);
  }

  /** The first row of a table whose `Team` column equals the name (`.iloc[0]` of the
      filtered table), or None for the IndexError. */
  function FirstRow<T>(table: seq<T>, name: string, team: T -> string): (r: Option<T>)
    ensures r.Some? ==> r.value in table && team(r.value) == name
    ensures r.None? ==> forall k :: 0 <= k < |table| ==> team(table[k]) != name
  {
    if table == [] then None
    else if team(table[0]) == name then Some(table[0])
    else FirstRow(table[1..], name, team)
  }

  /** The eight percent cells of a team, in the order the inserted tuple lists them. */
  function PercentCells(f: FtuRow, p: PistolRow): seq<string>
  {
    [f.roundWin, f.openingKill, f.won5v4, f.won4v5, f.traded,
     p.pistolWin, p.round2Conv, p.round2Break]
  }

  /** The row inserted for a team, converting its percent cells left to right; None is the
      ValueError of the first cell that is not a number. */
  function BuildStatRow(date: Date, t: RankedTeam, f: FtuRow, p: PistolRow): Option<StatRow>
  {
    var cells := PercentCells(f, p);
    var v := PrefixWhile(cells, Percent);
    PrefixWhileSpec(cells, Percent);
    if |v| < |cells| then None
    else
      Some(StatRow(t.teamId, date, t.teamName, t.ranking, v[0], v[1], f.multiKill, v[2], v[3],
                   v[4], f.adr, f.flashAssists, v[5], v[6], v[7]))
  }

  /** A row is built exactly when every percent cell converts; it carries the team's id, name
      and rank, the date, the numeric columns unchanged, and each converted cell in its own
      column. */
  lemma BuildStatRowSpec(date: Date, t: RankedTeam, f: FtuRow, p: PistolRow)
    ensures BuildStatRow(date, t, f, p).Some?
            <==> forall k :: 0 <= k < 8 ==> Percent(PercentCells(f, p)[k]).Some?
    ensures BuildStatRow(date, t, f, p).Some? ==>
              var r := BuildStatRow(date, t, f, p).value;
              r.id == t.teamId && r.date == date && r.teamName == t.teamName
              && r.ranking == t.ranking && r.multikillRate == f.multiKill
              && r.utilityAdr == f.adr && r.flashAssists == f.flashAssists
              && Some(r.roundWr) == Percent(f.roundWin)
              && Some(r.openingKillRate) == Percent(f.openingKill)
              && Some(r.wr5v4) == Percent(f.won5v4) && Some(r.wr4v5) == Percent(f.won4v5)
              && Some(r.tradeRate) == Percent(f.traded) && Some(r.pistolWr) == Percent(p.pistolWin)
              && Some(r.round2Conv) == Percent(p.round2Conv)
              && Some(r.round2Break) == Percent(p.round2Break)
  {
    PrefixWhileSpec(PercentCells(f, p), Percent);
  }

  /** The columns that do not come from a percent cell. */
  lemma BuildStatRowKeys(date: Date, t: RankedTeam, f: FtuRow, p: PistolRow)
    requires BuildStatRow(date, t, f, p).Some?
    ensures var r := BuildStatRow(date, t, f, p).value;
            r.id == t.teamId && r.date == date && r.teamName == t.teamName && r.ranking == t.ranking
  {
  }

  function FtuTeam(f: FtuRow): string { f.team }
  function PistolTeam(p: PistolRow): string { p.team }

  /** The rows one call of `insert_team_stat` executes for the first n ranked teams: a team
      missing from either table is skipped (the bare `except: continue`); a pistol table
      that is an empty list skips every team; a bad cell raises, and None then stands for the
      rollback of the whole date. */
  function JoinRows(date: Date, rankings: seq<RankedTeam>, ftu: seq<FtuRow>,
                    pistol: Option<seq<PistolRow>>): Option<seq<StatRow>>
  {
    if rankings == [] then Some([])
    else
      match JoinRows(date, rankings[..|rankings| - 1], ftu, pistol)
      case None => None
      case Some(rows) =>
        var t := rankings[|rankings| - 1];
        var f := FirstRow(ftu, t.teamName, FtuTeam);
        var p := if pistol.None? then None else FirstRow(pistol.value, t.teamName, PistolTeam);
        if f.None? || p.None? then Some(rows)
        else
          match BuildStatRow(date, t, f.value, p.value)
          case None => None
          case Some(row) => Some(rows + [row])
  }

  /** Only a team found by its exact name in BOTH tables gets a row, with its own id and
      rank and the date being processed. */
  lemma {:induction false} JoinRowsJoined(date: Date, rankings: seq<RankedTeam>, ftu: seq<FtuRow>,
                                          pistol: Option<seq<PistolRow>>)
    requires JoinRows(date, rankings, ftu, pistol).Some?
    ensures var rows := JoinRows(date, rankings, ftu, pistol).value;
            |rows| <= |rankings|
            && forall j :: 0 <= j < |rows| ==>
                 rows[j].date == date
                 && RankedTeam(rows[j].teamName, rows[j].id, rows[j].ranking) in rankings
                 && FirstRow(ftu, rows[j].teamName, FtuTeam).Some?
                 && pistol.Some? && FirstRow(pistol.value, rows[j].teamName, PistolTeam).Some?
  {
    if rankings != [] {
      var init := rankings[..|rankings| - 1];
      JoinRowsJoined(date, init, ftu, pistol);
      var rows := JoinRows(date, rankings, ftu, pistol).value;
      var before := JoinRows(date, init, ftu, pistol).value;
      forall j | 0 <= j < |rows|
        ensures RankedTeam(rows[j].teamName, rows[j].id, rows[j].ranking) in rankings
      {
        if j < |before| {
          assert rows[j] == before[j];
          assert RankedTeam(rows[j].teamName, rows[j].id, rows[j].ranking) in init;
        } else {
          var t := rankings[|rankings| - 1];
          BuildStatRowKeys(date, t, FirstRow(ftu, t.teamName, FtuTeam).value,
                           FirstRow(pistol.value, t.teamName, PistolTeam).value);
          assert t == RankedTeam(rows[j].teamName, rows[j].id, rows[j].ranking);
        }
      }
    }
  }

  /** Once a prefix of the teams raised, the whole date is rolled back. */
  lemma {:induction false} JoinRowsRollback(date: Date, rankings: seq<RankedTeam>, ftu: seq<FtuRow>,
                                            pistol: Option<seq<PistolRow>>, i: int)
    requires 0 <= i <= |rankings| && JoinRows(date, rankings[..i], ftu, pistol).None?
    ensures JoinRows(date, rankings, ftu, pistol).None?
    decreases |rankings| - i
  {
    if i < |rankings| {
      assert rankings[..i + 1][..i] == rankings[..i];
      JoinRowsRollback(date, rankings, ftu, pistol, i + 1);
    } else {
      assert rankings[..i] == rankings;
    }
  }

  /** `insert_team_stat`: the loop over the ranked teams. Returns the rows executed, or None
      when a conversion raised (the caller then rolls the date back). */
  method InsertTeamStat(date: Date, rankings: seq<RankedTeam>, ftu: seq<FtuRow>,
                        pistol: Option<seq<PistolRow>>) returns (rows: Option<seq<StatRow>>)
    ensures rows == JoinRows(date, rankings, ftu, pistol)
  {
    var done: seq<StatRow> := [];
    var i := 0;
    while i < |rankings|
      invariant 0 <= i <= |rankings|
      invariant JoinRows(date, rankings[..i], ftu, pistol) == Some(done)
    {
      assert rankings[..i + 1][..i] == rankings[..i];
      var t := rankings[i];
      var f := FirstRow(ftu, t.teamName, FtuTeam);
      var p := if pistol.None? then None else FirstRow(pistol.value, t.teamName, PistolTeam);
      if f.None? || p.None? {
        i := i + 1;
        continue;
      }
      var row := BuildStatRow(date, t, f.value, p.value);
      if row.None? {
        JoinRowsRollback(date, rankings, ftu, pistol, i + 1);
        return None;
      }
      done := done + [row.value];
      i := i + 1;
    }
    assert rankings[..i] == rankings;
    rows := Some(done);
  }

  // ---------------------------------------------------------------- main

  /** What one date commits: nothing when the ranking page raised (iterating None raises
      inside the guarded block) or a conversion raised; the joined rows otherwise. */
  function DateRows(date: Date, pages: WeekPages): seq<StatRow>
  {
    match Ranking(pages.rankingBlocks)
    case None => []
    case Some(rankings) =>
      if pages.ftu.None? then []
      else
        match JoinRows(date, rankings, pages.ftu.value, pages.pistol)
        case None => []
        case Some(rows) => rows
  }

  /** The rows committed over the dates visited, in date order. */
  function Committed(dates: seq<Date>, pages: Date -> WeekPages): seq<StatRow>
  {
    if dates == [] then []
    else Committed(dates[..|dates| - 1], pages) + DateRows(dates[|dates| - 1], pages(dates[|dates| - 1]))
  }

  /** One pass of the loop body after the ftu table was found: read the ranking, insert the
      joined rows, and keep them when the transaction commits. */
  method ProcessDate(date: Date, wp: WeekPages) returns (rows: seq<StatRow>)
    requires wp.ftu.Some?
    ensures rows == DateRows(date, wp)
  {
    var rankings := GetTeamRanking(wp.rankingBlocks);
    rows := [];
    if rankings.Some? {
      var inserted := InsertTeamStat(date, rankings.value, wp.ftu.value, wp.pistol);
      if inserted.Some? {
        rows := inserted.value;
      }
    }
  }

  lemma CommittedStep(dates: seq<Date>, d: Date, pages: Date -> WeekPages)
    ensures Committed(dates + [d], pages) == Committed(dates, pages) + DateRows(d, pages(d))
  {
    assert (dates + [d])[..|dates|] == dates;
  }

  /** n dates 7 days apart from s, the last within e and the next beyond it, number
      (e - s) / 7 + 1. */
  lemma WeekCount(s: int, e: int, n: int)
    requires n > 0 && s + 7 * (n - 1) <= e < s + 7 * n
    ensures n == (e - s) / 7 + 1
  {
    DivModUnique(e - s, 7, n - 1, e - s - 7 * (n - 1));
  }

  /** The `while date_ago_dt <= date_now_dt` loop of `main`: visits start, start + 7, ... up to
      end inclusive, committing each date's rows. A missing ftu table makes the column
      renaming raise outside any handler, which ends the run (`crashed`) at that date. */
  method WeeklyRun(start: Date, end: Date, pages: Date -> WeekPages)
    returns (visited: seq<Date>, committed: seq<StatRow>, crashed: bool)
    requires Valid(start) && Valid(end)
    ensures forall k :: 0 <= k < |visited| ==>
              Valid(visited[k]) && Ordinal(visited[k]) == Ordinal(start) + 7 * k
              && LessEq(visited[k], end)
    ensures !crashed && Ordinal(start) <= Ordinal(end) ==>
              |visited| == (Ordinal(end) - Ordinal(start)) / 7 + 1
    ensures Ordinal(start) > Ordinal(end) ==> visited == []
    ensures crashed ==> |visited| > 0 && pages(visited[|visited| - 1]).ftu.None?
    ensures committed == Committed(visited, pages)
  {
    visited, committed, crashed := [], [], false;
    var cur := start;
    while LessEq(cur, end)
      invariant Valid(cur) && Ordinal(cur) == Ordinal(start) + 7 * |visited|
      invariant Ordinal(start) <= Ordinal(cur)
      invariant visited != [] ==> Ordinal(start) <= Ordinal(end)
      invariant forall k :: 0 <= k < |visited| ==>
                  Valid(visited[k]) && Ordinal(visited[k]) == Ordinal(start) + 7 * k
                  && LessEq(visited[k], end)
      invariant committed == Committed(visited, pages)
      decreases Ordinal(end) - Ordinal(cur)
    {
      OrdinalOrder(cur, end);
      var wp := pages(cur);
      CommittedStep(visited, cur, pages);
      ghost var before := visited;
      visited := visited + [cur];
      assert forall k :: 0 <= k < |visited| ==>
               Valid(visited[k]) && Ordinal(visited[k]) == Ordinal(start) + 7 * k
               && LessEq(visited[k], end) by {
        forall k | 0 <= k < |visited|
          ensures Valid(visited[k]) && Ordinal(visited[k]) == Ordinal(start) + 7 * k
                  && LessEq(visited[k], end)
        {
          if k < |before| {
            assert visited[k] == before[k];
          }
        }
      }
      if wp.ftu.None? {
        crashed := true;
        return;
      }
      var rows := ProcessDate(cur, wp);
      committed := committed + rows;
      AddDaysOrdinal(cur, 7);
      cur := AddDays(cur, 7);
    }
    OrdinalOrder(cur, end);
    var n := |visited|;
    assert Ordinal(cur) == Ordinal(start) + 7 * n && Ordinal(end) < Ordinal(cur);
    if Ordinal(start) <= Ordinal(end) {
      assert n > 0;
      var last := visited[n - 1];
      assert Valid(last) && LessEq(last, end) && Ordinal(last) == Ordinal(start) + 7 * (n - 1);
      OrdinalOrder(last, end);
      WeekCount(Ordinal(start), Ordinal(end), n);
    }
  }

  /** The run as configured: `get_date_range("2025-05-26 00:00:00", 364)` gives
      ("2025-05-26", "2024-05-27"), exactly 52 weeks apart, so the loop visits 53 dates and
      the last one is the end date itself. */
  lemma ConfiguredRange()
    ensures GetDateRange("2025-05-26 00:00:00", 364) == Ok(("2025-05-26", "2024-05-27"))
    ensures Ordinal(Date(2025, 5, 26)) - Ordinal(Date(2024, 5, 27)) == 52 * 7
  {
    ConfiguredOrdinals();
    var today := Date(2025, 5, 26);
    var ago := Date(2024, 5, 27);
    assert ParseYmdHms("2025-05-26 00:00:00") == Some(DateTime(today, 0, 0, 0)) by {
      ConfiguredText();
      ParseYmdHmsFormatted(today, 0, 0, 0);
    }
    assert AddDays(today, -364) == ago by {
      ConfiguredOrdinals();
      AddDaysOrdinal(today, -364);
      OrdinalOrder(AddDays(today, -364), ago);
    }
    assert FormatYmd(today) == "2025-05-26" && FormatYmd(ago) == "2024-05-27" by {
      ConfiguredText();
    }
  }

  lemma ConfiguredOrdinals()
    ensures Ordinal(Date(2025, 5, 26)) == 739397 && Ordinal(Date(2024, 5, 27)) == 739033
  {
    assert DaysBeforeYear(2025) == 739251 by {
      assert 2024 / 4 == 506 && 2024 / 100 == 20 && 2024 / 400 == 5;
    }
    assert DaysBeforeYear(2024) == 738885 by {
      assert 2023 / 4 == 505 && 2023 / 100 == 20 && 2023 / 400 == 5;
    }
    assert !IsLeap(2025) && IsLeap(2024);
  }

  lemma ConfiguredText()
    ensures FormatYmd(Date(2025, 5, 26)) == "2025-05-26"
    ensures FormatYmd(Date(2024, 5, 27)) == "2024-05-27"
    ensures FormatYmd(Date(2025, 5, 26)) + " " + Padded(0, 2) + ":" + Padded(0, 2) + ":" + Padded(0, 2)
         == "2025-05-26 00:00:00"
  {
    PaddedDigits();
    var zero := Padded(0, 2);
    assert "2025-05-26" + " " + zero + ":" + zero + ":" + zero == "2025-05-26 00:00:00";
  }

  lemma PaddedDigits()
    ensures Padded(0, 2) == "00" && Padded(5, 2) == "05" && Padded(26, 2) == "26"
    ensures Padded(27, 2) == "27" && Padded(2025, 4) == "2025" && Padded(2024, 4) == "2024"
  {
    assert Padded(202, 3) == "202";
  }
}
