/** The upcoming-matches scraper (upcomingMatches.py): the match list of the first day section
    is turned into (tournament, date, team A, team B) records, and each record becomes one row
    of `upcoming_matches`. A match element is a record of the optional pieces the parser looks
    up; an attribute that is absent where the parser indexes it is an exception that ends the
    parse. */
module UpcomingMatches {
  import opened Common
  import opened Text

  /** A `div.match` element: the `match-event` div with its `data-event-headline` attribute, the
      `match-time` div with its `data-unix` attribute, and the texts of the `match-teamname`
      divs. `None` for a div that is absent, `Some(None)` for a div without the attribute. */
  datatype MatchElement = MatchElement(
    event: Option<Option<string>>, time: Option<Option<string>>, teamNames: seq<string>)

  /** A parsed match; `date` is the start time in seconds since the epoch. */
  datatype UpcomingMatch = UpcomingMatch(tournamentName: string, date: real, teamA: string, teamB: string)

  /** What the parser does with one element. */
  datatype Outcome = Skip | Keep(m: UpcomingMatch) | Raise

  /** One pass of the loop over the matches: skip on a missing div or fewer than two team
      names, raise on a missing attribute or a `data-unix` that `int` refuses. */
  function ParseOne(e: MatchElement): Outcome
  {
    match e.event
    case None => Skip
    case Some(None) => Raise
    case Some(Some(tournament)) =>
      match e.time
      case None => Skip
      case Some(None) => Raise
      case Some(Some(unix)) =>
        match ParseInt(unix)
        case None => Raise
        case Some(ms) =>
          if |e.teamNames| < 2 then Skip
          else Keep(UpcomingMatch(tournament, ms as real / 1000.0, Strip(e.teamNames[0]), Strip(e.teamNames[1])))
  }

  /** A match is kept exactly when it has an event headline, a readable time and at least two
      team names; the date is the milliseconds attribute divided by 1000 and the teams are the
      first two names, stripped. */
  lemma ParseOneSpec(e: MatchElement)
    ensures ParseOne(e).Keep? <==>
      e.event.Some? && e.event.value.Some? && e.time.Some? && e.time.value.Some? &&
      ParseInt(e.time.value.value).Some? && |e.teamNames| >= 2
    ensures ParseOne(e).Keep? ==>
      var m := ParseOne(e).m;
      m.tournamentName == e.event.value.value &&
      m.date * 1000.0 == ParseInt(e.time.value.value).value as real &&
      m.teamA == Strip(e.teamNames[0]) && m.teamB == Strip(e.teamNames[1])
  {
    if e.event.Some? && e.event.value.Some? && e.time.Some? && e.time.value.Some? {
      var parsed := ParseInt(e.time.value.value);
      if parsed.Some? && |e.teamNames| >= 2 {
        var date := parsed.value as real / 1000.0;
        assert ParseOne(e) == Keep(UpcomingMatch(e.event.value.value, date, Strip(e.teamNames[0]), Strip(e.teamNames[1])));
        assert date * 1000.0 == parsed.value as real;
      }
    }
  }

  /** What the loop does with each element, in page order. */
  function Outcomes(elements: seq<MatchElement>): (os: seq<Outcome>)
    ensures |os| == |elements|
  {
    seq(|elements|, i requires 0 <= i < |elements| => ParseOne(elements[i]))
  }

  /** The matches the loop collects from a run of outcomes, or `None` when one of them raised. */
  function Collect(os: seq<Outcome>): (r: Option<seq<UpcomingMatch>>)
    ensures r.Some? ==> |r.value| <= |os|
  {
    if os == [] then Some([])
    else
      match Collect(os[..|os| - 1])
      case None => None
      case Some(done) =>
        match os[|os| - 1]
        case Skip => Some(done)
        case Raise => None
        case Keep(m) => Some(done + [m])
  }

  /** The parsed matches of a list of elements. */
  function ParseAll(elements: seq<MatchElement>): Option<seq<UpcomingMatch>>
  {
    Collect(Outcomes(elements))
  }

  lemma {:induction false} CollectAppend(xs: seq<Outcome>, ys: seq<Outcome>)
    ensures Collect(xs + ys) ==
      (match (Collect(xs), Collect(ys))
       case (Some(a), Some(b)) => Some(a + b)
       case _ => None)
    decreases |ys|
  {
    if ys == [] {
      assert xs + ys == xs;
      if Collect(xs).Some? {
        assert Collect(xs).value + [] == Collect(xs).value;
      }
    } else {
      var init := ys[..|ys| - 1];
      assert (xs + ys)[..|xs + ys| - 1] == xs + init;
      assert (xs + ys)[|xs + ys| - 1] == ys[|ys| - 1];
      CollectAppend(xs, init);
      if Collect(xs).Some? && Collect(init).Some? && ys[|ys| - 1].Keep? {
        var a, b, m := Collect(xs).value, Collect(init).value, ys[|ys| - 1].m;
        assert a + b + [m] == a + (b + [m]);
      }
    }
  }

  /** Parsing keeps the page order: the matches of a concatenation are those of the first
      part followed by those of the second. */
  lemma ParseAllAppend(xs: seq<MatchElement>, ys: seq<MatchElement>)
    ensures ParseAll(xs + ys) ==
      (match (ParseAll(xs), ParseAll(ys))
       case (Some(a), Some(b)) => Some(a + b)
       case _ => None)
  {
    assert Outcomes(xs + ys) == Outcomes(xs) + Outcomes(ys);
    CollectAppend(Outcomes(xs), Outcomes(ys));
  }

  lemma {:induction false} CollectSpec(os: seq<Outcome>, m: UpcomingMatch)
    ensures Collect(os).Some? <==> Raise !in os
    ensures Collect(os).Some? ==> (m in Collect(os).value <==> Keep(m) in os)
  {
    if os != [] {
      var init := os[..|os| - 1];
      CollectSpec(init, m);
      assert os == init + [os[|os| - 1]];
    }
  }

  /** The parse succeeds exactly when no element raises, and then every match it returns
      comes from a kept element and every kept element's match is returned. */
  lemma ParseAllSpec(elements: seq<MatchElement>, m: UpcomingMatch)
    ensures ParseAll(elements).Some? <==> forall e :: e in elements ==> !ParseOne(e).Raise?
    ensures ParseAll(elements).Some? ==>
      (m in ParseAll(elements).value <==> exists e :: e in elements && ParseOne(e) == Keep(m))
  {
    var os := Outcomes(elements);
    CollectSpec(os, m);
    assert Raise in os <==> exists e :: e in elements && ParseOne(e).Raise? by {
      if Raise in os {
        var k :| 0 <= k < |os| && os[k] == Raise;
        assert elements[k] in elements;
      }
      if exists e :: e in elements && ParseOne(e).Raise? {
        var e :| e in elements && ParseOne(e).Raise?;
        var k :| 0 <= k < |elements| && elements[k] == e;
        assert os[k] == Raise;
      }
    }
    assert Keep(m) in os <==> exists e :: e in elements && ParseOne(e) == Keep(m) by {
      if Keep(m) in os {
        var k :| 0 <= k < |os| && os[k] == Keep(m);
        assert elements[k] in elements;
      }
      if exists e :: e in elements && ParseOne(e) == Keep(m) {
        var e :| e in elements && ParseOne(e) == Keep(m);
        var k :| 0 <= k < |elements| && elements[k] == e;
        assert os[k] == Keep(m);
      }
    }
  }

  /** `parse_upcoming_matches`: only the first `matches-list-section` is read (`None` for the
      page's sections when there is none and the lookup raises); the loop appends each kept
      match in page order. */
  method ParseUpcomingMatches(sections: seq<seq<MatchElement>>) returns (r: Option<seq<UpcomingMatch>>)
    ensures sections == [] ==> r.None?
    ensures sections != [] ==> r == ParseAll(sections[0])
  {
    if sections == [] {
      return None;
    }
    var matches := sections[0];
    ghost var os := Outcomes(matches);
    var data: seq<UpcomingMatch> := [];
    for i := 0 to |matches|
      invariant Collect(os[..i]) == Some(data)
    {
      assert os[..i + 1][..i] == os[..i];
      var outcome := ParseOne(matches[i]);
      assert os[i] == outcome;
      if outcome.Raise? {
        CollectAppend(os[..i + 1], os[i + 1..]);
        assert os[..i + 1] + os[i + 1..] == os;
        return None;
      }
      if outcome.Keep? {
        data := data + [outcome.m];
      }
    }
    assert os[..|matches|] == os;
    r := Some(data);
  }

  /** The row `insert_upcoming` writes: (team_a, team_b, date, tournament_name). */
  datatype InsertRow = InsertRow(teamA: string, teamB: string, date: real, tournamentName: string)

  /** The `executemany` value list. */
  function InsertValues(matches: seq<UpcomingMatch>): (rows: seq<InsertRow>)
    ensures |rows| == |matches|
  {
    seq(|matches|, i requires 0 <= i < |matches| =>
      InsertRow(matches[i].teamA, matches[i].teamB, matches[i].date, matches[i].tournamentName))
  }

  /** One row per parsed match, in order, with the match's four fields; no row of two different
      matches coincides. */
  lemma InsertValuesSpec(matches: seq<UpcomingMatch>, i: int, j: int)
    requires 0 <= i < |matches| && 0 <= j < |matches|
    ensures var v := InsertValues(matches)[i];
      UpcomingMatch(v.tournamentName, v.date, v.teamA, v.teamB) == matches[i]
    ensures InsertValues(matches)[i] == InsertValues(matches)[j] <==> matches[i] == matches[j]
  {
  }
}
