/** The results scraper (matchOutcome.py). The results page lists day blocks, each with a
    "Results for <Month> <day><suffix> <year>" headline and its finished matches;
    `parse_results` turns every complete match into a record carrying the day's date, the
    tournament, the two teams and, when the scores and the winner are shown, the outcome for
    the first team. `insert_match_outcome` then sets `actual_outcome` on the matching row of
    `upcoming_matches`. Page elements are records of the optional pieces the parser looks up. */
module MatchOutcome {
  import opened Common
  import opened Text
  import opened Calendar

  // ---------------------------------------------------------------- the day headline

  const ResultsFor: string := "Results for"

  /** `re.sub(r"Results for\s+", "", s)`: every occurrence of the words followed by white
      space is removed together with all of that white space, scanning left to right. */
  function DropResultsFor(s: string): string
    decreases |s|
  {
    if s == [] then []
    else if |s| > |ResultsFor| && s[..|ResultsFor|] == ResultsFor && IsSpace(s[|ResultsFor|]) then
      DropResultsFor(s[|ResultsFor| + LeadCount(s[|ResultsFor|..], Whitespace)..])
    else [s[0]] + DropResultsFor(s[1..])
  }

  predicate IsOrdinalSuffix(t: string)
  {
    t == "st" || t == "nd" || t == "rd" || t == "th"
  }

  /** `re.sub(r'(\d{1,2})(st|nd|rd|th)', r'\1', s)`: an ordinal suffix right after one or two
      digits is removed. The regular expression tries two digits before one, and the scan
      resumes after each replacement. */
  function DropOrdinals(s: string): string
    decreases |s|
  {
    if |s| >= 4 && IsDigit(s[0]) && IsDigit(s[1]) && IsOrdinalSuffix(s[2..4]) then s[..2] + DropOrdinals(s[4..])
    else if |s| >= 3 && IsDigit(s[0]) && IsOrdinalSuffix(s[1..3]) then s[..1] + DropOrdinals(s[3..])
    else if s == [] then []
    else [s[0]] + DropOrdinals(s[1..])
  }

  /** The month names `%B` accepts, in lower case: `strptime` compares them ignoring case. */
  const MonthNames: seq<string> := ["january", "february", "march", "april", "may", "june",
    "july", "august", "september", "october", "november", "december"]

  /** The month whose name starts s, searching from month k + 1, and the text after the
      name. */
  function MonthFrom(s: string, k: nat): Option<(int, string)>
    requires k <= 12
    decreases 12 - k
  {
    if k == 12 then None
    else
      var name := MonthNames[k];
      if |name| <= |s| && Lower(s[..|name|]) == name then Some((k + 1, s[|name|..]))
      else MonthFrom(s, k + 1)
  }

  /** `%B`: a full month name in any case. */
  function MonthField(s: string): Option<(int, string)>
  {
    MonthFrom(s, 0)
  }

  /** `datetime.strptime(s, "%B %d %Y")`: the month name, white space, the day in one or two
      digits, white space, four year digits and nothing after them, naming a real day. */
  function ParseDay(s: string): Option<Date>
  {
    match MonthField(s)
    case None => None
    case Some((m, s1)) =>
      match Spaces(s1)
      case None => None
      case Some(s2) =>
        match SmallField(s2, 1, 31, false)
        case None => None
        case Some((d, s3)) =>
          match Spaces(s3)
          case None => None
          case Some(s4) =>
            match YearField(s4)
            case None => None
            case Some((y, rest)) => if rest != [] then None else MakeDate(y, m, d)
  }

  /** The date of a day headline, or `None` when `strptime` raises. */
  function HeadlineDate(text: string): Option<Date>
  {
    ParseDay(DropOrdinals(DropResultsFor(Strip(text))))
  }

  // ---------------------------------------------------------------- the headline as written

  predicate AllLower(s: string)
  {
    forall i :: 0 <= i < |s| ==> 'a' <= s[i] <= 'z'
  }

  /** A lower-case name with its first letter in upper case, as the site writes months. */
  function Title(name: string): (t: string)
    requires name != [] && AllLower(name)
    ensures |t| == |name|
  {
    [((name[0] as int) - 32) as char] + name[1..]
  }

  lemma LowerTitle(name: string)
    requires name != [] && AllLower(name)
    ensures Lower(Title(name)) == name
  {
    assert Lower(Title(name))[0] == name[0];
  }

  /** Every month name is lower case and at least three letters long. */
  lemma MonthNamesLower(k: int)
    requires 0 <= k < 12
    ensures |MonthNames[k]| >= 3 && AllLower(MonthNames[k]) && MonthNames[k][0] != 'r'
  {
  }

  /** The first three letters tell the months apart. */
  lemma MonthNamesDiffer(j: int, k: int)
    requires 0 <= j < 12 && 0 <= k < 12 && j != k
    ensures |MonthNames[j]| >= 3 && |MonthNames[k]| >= 3 &&
      (MonthNames[j][0] != MonthNames[k][0] || MonthNames[j][1] != MonthNames[k][1] ||
      MonthNames[j][2] != MonthNames[k][2])
  {
  }

  /** The month as the site writes it. */
  function MonthTitle(m: int): string
    requires 1 <= m <= 12
  {
    MonthNamesLower(m - 1);
    Title(MonthNames[m - 1])
  }

  /** The day number as written, without a leading zero. */
  function DayText(d: nat): (s: string)
    requires 1 <= d <= 31
    ensures 1 <= |s| <= 2 && AllDigits(s)
  {
    if d < 10 then [DigitChar(d)] else [DigitChar(d / 10), DigitChar(d % 10)]
  }

  function OrdinalSuffix(d: nat): (t: string)
    ensures IsOrdinalSuffix(t)
  {
    if d % 10 == 1 && d != 11 then "st"
    else if d % 10 == 2 && d != 12 then "nd"
    else if d % 10 == 3 && d != 13 then "rd"
    else "th"
  }

  /** A headline as the results page writes it, such as "Results for March 21st 2024". */
  function Headline(d: Date): string
    requires InRange(d)
  {
    ResultsFor + " " + MonthTitle(d.month) + " " + DayText(d.day) + OrdinalSuffix(d.day)
      + " " + Padded(d.year, 4)
  }

  /** The date text once the words and the suffix are gone: "March 21 2024". */
  function CleanHeadline(d: Date): string
    requires InRange(d)
  {
    MonthTitle(d.month) + " " + DayText(d.day) + " " + Padded(d.year, 4)
  }

  predicate NoUpperR(s: string)
  {
    forall i :: 0 <= i < |s| ==> s[i] != 'R'
  }

  lemma {:induction false} DropResultsForNone(s: string)
    requires NoUpperR(s)
    ensures DropResultsFor(s) == s
    decreases |s|
  {
    if s != [] {
      if |s| > |ResultsFor| {
        assert s[..|ResultsFor|][0] == s[0];
      }
      DropResultsForNone(s[1..]);
    }
  }

  predicate NoLowerLetters(s: string)
  {
    forall i :: 0 <= i < |s| ==> !('a' <= s[i] <= 'z')
  }

  /** Text without lower-case letters holds no suffix to remove. */
  lemma {:induction false} DropOrdinalsNone(s: string)
    requires NoLowerLetters(s)
    ensures DropOrdinals(s) == s
    decreases |s|
  {
    if s != [] {
      if |s| >= 4 {
        assert s[2..4][0] == s[2];
      }
      if |s| >= 3 {
        assert s[1..3][0] == s[1];
      }
      DropOrdinalsNone(s[1..]);
    }
  }

  /** Text without digits is copied as it is. */
  lemma {:induction false} DropOrdinalsSkip(x: string, y: string)
    requires forall i :: 0 <= i < |x| ==> !IsDigit(x[i])
    ensures DropOrdinals(x + y) == x + DropOrdinals(y)
    decreases |x|
  {
    if x != [] {
      var s := x + y;
      assert s[0] == x[0] && !IsDigit(s[0]);
      assert s[1..] == x[1..] + y;
      assert DropOrdinals(s) == [x[0]] + DropOrdinals(s[1..]);
      DropOrdinalsSkip(x[1..], y);
      assert x == [x[0]] + x[1..];
    } else {
      assert x + y == y;
    }
  }

  /** The day with its suffix loses the suffix. */
  lemma DropOrdinalsDay(d: nat, rest: string)
    requires 1 <= d <= 31
    ensures DropOrdinals(DayText(d) + OrdinalSuffix(d) + rest) == DayText(d) + DropOrdinals(rest)
  {
    var s := DayText(d) + OrdinalSuffix(d) + rest;
    if d < 10 {
      assert s[1..3] == OrdinalSuffix(d);
      assert s[..1] == DayText(d) && s[3..] == rest;
    } else {
      assert s[2..4] == OrdinalSuffix(d);
      assert s[..2] == DayText(d) && s[4..] == rest;
    }
  }

  /** The month name written in any case is found, and no earlier month matches. */
  lemma {:induction false} MonthFromTitle(m: int, rest: string, k: nat)
    requires 1 <= m <= 12 && k <= m - 1
    ensures MonthFrom(MonthTitle(m) + rest, k) == Some((m, rest))
    decreases 12 - k
  {
    if k < m - 1 {
      MonthPassed(m, rest, k);
      MonthFromTitle(m, rest, k + 1);
    } else {
      var full := MonthNames[m - 1];
      MonthNamesLower(m - 1);
      LowerTitle(full);
      var s := MonthTitle(m) + rest;
      assert s[..|full|] == Title(full);
      assert s[|full|..] == rest;
    }
  }

  /** An earlier month's name does not start the title of month m. */
  lemma MonthPassed(m: int, rest: string, k: nat)
    requires 1 <= m <= 12 && k < m - 1
    ensures MonthFrom(MonthTitle(m) + rest, k) == MonthFrom(MonthTitle(m) + rest, k + 1)
  {
    var full := MonthNames[m - 1];
    MonthNamesLower(m - 1);
    LowerTitle(full);
    var s := MonthTitle(m) + rest;
    var name := MonthNames[k];
    MonthNamesLower(k);
    MonthNamesDiffer(k, m - 1);
    if |name| <= |s| {
      var low := Lower(s[..|name|]);
      assert forall i :: 0 <= i < 3 ==> low[i] == Lower(Title(full))[i];
      if name[0] != full[0] {
        assert low[0] != name[0];
      } else if name[1] != full[1] {
        assert low[1] != name[1];
      } else {
        assert low[2] != name[2];
      }
    }
  }

  lemma DayField(d: nat, rest: string)
    requires 1 <= d <= 31 && rest != [] && !IsDigit(rest[0])
    ensures SmallField(DayText(d) + rest, 1, 31, false) == Some((d, rest))
  {
    var s := DayText(d) + rest;
    if d < 10 {
      assert DigitRun(s, 2) == 1 by {
        assert s[1..][0] == rest[0];
      }
      assert s[..1] == DayText(d) && s[1..] == rest;
    } else {
      assert DigitRun(s, 2) == 2 by {
        assert s[1..][0] == s[1];
      }
      assert s[..2] == DayText(d) && s[2..] == rest;
    }
    DayTextValue(d);
  }

  /** The day's digits read back as the day. */
  lemma DayTextValue(d: nat)
    requires 1 <= d <= 31
    ensures DigitsValue(DayText(d)) == d
  {
    var t := DayText(d);
    if d < 10 {
      assert t[..0] == [];
    } else {
      assert t[..1] == [DigitChar(d / 10)];
      assert t[..1][..0] == [];
      assert DigitsValue(t[..1]) == d / 10;
    }
  }

  /** The headline after "Results for ": "March 21st 2024". */
  function Body(d: Date): string
    requires InRange(d)
  {
    MonthTitle(d.month) + " " + (DayText(d.day) + OrdinalSuffix(d.day) + (" " + Padded(d.year, 4)))
  }

  lemma NoUpperRAppend(a: string, b: string)
    requires NoUpperR(a) && NoUpperR(b)
    ensures NoUpperR(a + b)
  {
    assert forall i :: 0 <= i < |a + b| ==> (a + b)[i] == if i < |a| then a[i] else b[i - |a|];
  }

  /** The headline has no white space at either end. */
  lemma StripHeadline(d: Date)
    requires InRange(d)
    ensures Strip(Headline(d)) == Headline(d)
  {
    var h := Headline(d);
    var year := Padded(d.year, 4);
    assert h[0] == 'R';
    assert h[|h| - 1] == year[3];
    StripNoSpace(h);
  }

  /** "Results for " in front of text without "R" is removed, and only it. */
  lemma DropWordsBefore(rest: string)
    requires rest != [] && !IsSpace(rest[0]) && NoUpperR(rest)
    ensures DropResultsFor(ResultsFor + " " + rest) == rest
  {
    var h := ResultsFor + " " + rest;
    assert h[..|ResultsFor|] == ResultsFor;
    assert h[|ResultsFor|..] == " " + rest;
    assert LeadCount(" " + rest, Whitespace) == 1 by {
      assert (" " + rest)[1..] == rest;
    }
    assert h[|ResultsFor| + 1..] == rest;
    DropResultsForNone(rest);
  }

  /** The capitalised month has no digit, no white space and no "R". */
  lemma MonthTitleChars(m: int)
    requires 1 <= m <= 12
    ensures MonthTitle(m) != [] && NoUpperR(MonthTitle(m)) && !IsSpace(MonthTitle(m)[0])
    ensures forall i :: 0 <= i < |MonthTitle(m)| ==> !IsDigit(MonthTitle(m)[i])
  {
    MonthNamesLower(m - 1);
  }

  /** Digits, spaces and suffix letters hold no "R". */
  lemma DayPartNoUpperR(d: nat, year: string)
    requires 1 <= d <= 31 && AllDigits(year)
    ensures NoUpperR(" " + (DayText(d) + OrdinalSuffix(d) + (" " + year)))
  {
    var t := " " + (DayText(d) + OrdinalSuffix(d) + (" " + year));
    forall i | 0 <= i < |t|
      ensures t[i] != 'R'
    {
      var k := 1 + |DayText(d)| + |OrdinalSuffix(d)|;
      if i == 0 || i == k {
      } else if i < 1 + |DayText(d)| {
        assert t[i] == DayText(d)[i - 1];
      } else if i < k {
        assert t[i] == OrdinalSuffix(d)[i - 1 - |DayText(d)|];
      } else {
        assert t[i] == year[i - k - 1];
      }
    }
  }

  /** Removing "Results for " leaves the body. */
  lemma DropWords(d: Date)
    requires InRange(d)
    ensures DropResultsFor(Headline(d)) == Body(d)
  {
    var month := MonthTitle(d.month);
    var dayPart := " " + (DayText(d.day) + OrdinalSuffix(d.day) + (" " + Padded(d.year, 4)));
    MonthTitleChars(d.month);
    DayPartNoUpperR(d.day, Padded(d.year, 4));
    NoUpperRAppend(month, dayPart);
    assert Body(d) == month + dayPart;
    assert Headline(d) == ResultsFor + " " + Body(d);
    DropWordsBefore(Body(d));
  }

  /** The day part loses its suffix and keeps the year. */
  lemma DropSuffixDay(d: nat, year: string)
    requires 1 <= d <= 31 && AllDigits(year)
    ensures DropOrdinals(DayText(d) + OrdinalSuffix(d) + (" " + year)) == DayText(d) + (" " + year)
  {
    var tail := " " + year;
    DropOrdinalsDay(d, tail);
    assert forall i :: 0 <= i < |tail| ==> tail[i] == if i == 0 then ' ' else year[i - 1];
    DropOrdinalsNone(tail);
  }

  /** Removing the suffix after the day and nothing else. */
  lemma DropSuffixAfter(month: string, d: nat, year: string)
    requires 1 <= d <= 31 && AllDigits(year)
    requires forall i :: 0 <= i < |month| ==> !IsDigit(month[i])
    ensures DropOrdinals(month + " " + (DayText(d) + OrdinalSuffix(d) + (" " + year)))
         == month + " " + DayText(d) + " " + year
  {
    var x := month + " ";
    var r := DayText(d) + OrdinalSuffix(d) + (" " + year);
    assert DropOrdinals(x + r) == x + DropOrdinals(r) by {
      assert forall i :: 0 <= i < |x| ==> x[i] == if i < |month| then month[i] else ' ';
      DropOrdinalsSkip(x, r);
    }
    DropSuffixDay(d, year);
    assert x + (DayText(d) + (" " + year)) == month + " " + DayText(d) + " " + year;
  }

  /** Removing the suffix leaves "March 21 2024". */
  lemma DropSuffix(d: Date)
    requires InRange(d)
    ensures DropOrdinals(Body(d)) == CleanHeadline(d)
  {
    MonthTitleChars(d.month);
    DropSuffixAfter(MonthTitle(d.month), d.day, Padded(d.year, 4));
  }

  /** `strptime` reads "March 21 2024" as the date. */
  lemma ParseClean(d: Date)
    requires InRange(d)
    ensures ParseDay(CleanHeadline(d)) == Some(d)
  {
    var year := Padded(d.year, 4);
    var day := DayText(d.day);
    var tail := " " + year;
    var s1 := " " + (day + tail);
    assert CleanHeadline(d) == MonthTitle(d.month) + s1;
    MonthFromTitle(d.month, s1, 0);
    assert (day + tail)[0] == day[0];
    SpacesSingle(day + tail);
    DayField(d.day, tail);
    SpacesSingle(year);
    YearFieldPadded(d.year, "");
    assert year + "" == year;
    ParseDaySteps(CleanHeadline(d), d.month, s1, day + tail, d.day, tail, year, d.year, d);
  }

  /** ParseDay from the results of its stages. */
  lemma ParseDaySteps(text: string, m: int, s1: string, s2: string, day: int, s3: string,
                      s4: string, y: int, date: Date)
    requires MonthField(text) == Some((m, s1)) && Spaces(s1) == Some(s2)
    requires SmallField(s2, 1, 31, false) == Some((day, s3)) && Spaces(s3) == Some(s4)
    requires YearField(s4) == Some((y, "")) && MakeDate(y, m, day) == Some(date)
    ensures ParseDay(text) == Some(date)
  {
  }

  /** A headline written the site's way reads back as its date. */
  lemma HeadlineRoundTrip(d: Date)
    requires InRange(d)
    ensures HeadlineDate(Headline(d)) == Some(d)
  {
    StripHeadline(d);
    DropWords(d);
    DropSuffix(d);
    ParseClean(d);
  }

  // ---------------------------------------------------------------- the results

  /** A `div.result`: the texts of its `event-name` span, its `team` divs, its `team-won` div
      and its `score-won` and `score-lost` spans, `None` for an element that is absent. */
  datatype ResultElement = ResultElement(
    event: Option<string>, teams: seq<string>, teamWon: Option<string>,
    scoreWon: Option<string>, scoreLost: Option<string>)

  /** A `div.results-sublist`: the text of its `standard-headline` div and its results. */
  datatype DayBlock = DayBlock(headline: Option<string>, results: seq<ResultElement>)

  /** A parsed result; `outcome` is the `actual_outcome` key, absent when a score or the winner
      is blank. */
  datatype Record = Record(
    date: Date, tournamentName: string, teamA: string, teamB: string, outcome: Option<int>)

  /** What the loop does with one result or headline. */
  datatype Outcome = Skip | Keep(r: Record) | Raise

  /** One pass of the inner loop: skip without an event name, with fewer than two teams or
      without either score span; a missing `team-won` div raises when its text is read. */
  function ParseResult(e: ResultElement, date: Date): Outcome
  {
    if e.event.None? || |e.teams| < 2 then Skip
    else if e.teamWon.None? then Raise
    else if e.scoreWon.None? || e.scoreLost.None? then Skip
    else
      var won := Strip(e.teamWon.value);
      var teamA := Strip(e.teams[0]);
      var outcome :=
        if Strip(e.scoreWon.value) != [] && Strip(e.scoreLost.value) != [] && won != []
        then Some(if won == teamA then 1 else 0) else None;
      Keep(Record(date, Strip(e.event.value), teamA, Strip(e.teams[1]), outcome))
  }

  /** A result is kept exactly when it has an event name, two teams, a winner and both score
      spans, and raises exactly when only the winner is missing; a kept record has outcome 1
      when the winner is the first team, 0 when another, and none when a text is blank. */
  lemma ParseResultSpec(e: ResultElement, date: Date)
    ensures ParseResult(e, date).Keep? <==>
      e.event.Some? && |e.teams| >= 2 && e.teamWon.Some? && e.scoreWon.Some? && e.scoreLost.Some?
    ensures ParseResult(e, date).Raise? <==> e.event.Some? && |e.teams| >= 2 && e.teamWon.None?
    ensures ParseResult(e, date).Keep? ==>
      var r := ParseResult(e, date).r;
      var shown := Strip(e.scoreWon.value) != [] && Strip(e.scoreLost.value) != [] && Strip(e.teamWon.value) != [];
      r.date == date && r.tournamentName == Strip(e.event.value) &&
      r.teamA == Strip(e.teams[0]) && r.teamB == Strip(e.teams[1]) &&
      (r.outcome == Some(1) <==> shown && Strip(e.teamWon.value) == r.teamA) &&
      (r.outcome == Some(0) <==> shown && Strip(e.teamWon.value) != r.teamA) &&
      (r.outcome.None? <==> !shown)
  {
  }

  /** What the loops do with a day block, given how a headline reads as a date: nothing
      without a headline, a raise when its date does not parse, otherwise one outcome per
      result carrying the day's date. */
  function DayOutcomes(day: DayBlock, parse: string -> Option<Date>): (os: seq<Outcome>)
  {
    if day.headline.None? then []
    else
      match parse(day.headline.value)
      case None => [Raise]
      case Some(date) => seq(|day.results|, i requires 0 <= i < |day.results| => ParseResult(day.results[i], date))
  }

  /** The outcomes of the days, in page order. */
  function Events(days: seq<DayBlock>, parse: string -> Option<Date>): seq<Outcome>
  {
    if days == [] then [] else Events(days[..|days| - 1], parse) + DayOutcomes(days[|days| - 1], parse)
  }

  lemma {:induction false} EventsAppend(xs: seq<DayBlock>, ys: seq<DayBlock>, parse: string -> Option<Date>)
    ensures Events(xs + ys, parse) == Events(xs, parse) + Events(ys, parse)
    decreases |ys|
  {
    if ys == [] {
      assert xs + ys == xs;
    } else {
      var init := ys[..|ys| - 1];
      var last := DayOutcomes(ys[|ys| - 1], parse);
      assert Events(xs + ys, parse) == Events(xs + init, parse) + last by {
        assert (xs + ys)[..|xs + ys| - 1] == xs + init;
        assert (xs + ys)[|xs + ys| - 1] == ys[|ys| - 1];
      }
      EventsAppend(xs, init, parse);
      OutcomesAssoc(Events(xs, parse), Events(init, parse), last);
    }
  }

  lemma OutcomesAssoc(a: seq<Outcome>, b: seq<Outcome>, c: seq<Outcome>)
    ensures a + b + c == a + (b + c)
  {
  }

  /** The records collected from a run of outcomes, and whether an exception stopped the
      loop; after a raise nothing more is collected. */
  function Collected(os: seq<Outcome>): (seq<Record>, bool)
  {
    if os == [] then ([], false)
    else
      var (done, stopped) := Collected(os[..|os| - 1]);
      if stopped then (done, true)
      else
        match os[|os| - 1]
        case Raise => (done, true)
        case Skip => (done, false)
        case Keep(r) => (done + [r], false)
  }

  /** The records of the kept outcomes, in order. */
  function Keeps(os: seq<Outcome>): seq<Record>
  {
    if os == [] then []
    else Keeps(os[..|os| - 1]) + (match os[|os| - 1] case Keep(r) => [r] case _ => [])
  }

  lemma {:induction false} KeepsMember(os: seq<Outcome>, r: Record)
    ensures r in Keeps(os) <==> Keep(r) in os
  {
    if os != [] {
      KeepsMember(os[..|os| - 1], r);
      assert os == os[..|os| - 1] + [os[|os| - 1]];
    }
  }

  /** Without a raise the loop runs to the end and collects every kept record. */
  lemma {:induction false} CollectedNoRaise(os: seq<Outcome>)
    requires Raise !in os
    ensures Collected(os) == (Keeps(os), false)
  {
    if os != [] {
      assert os[|os| - 1] in os;
      var init := os[..|os| - 1];
      assert forall o :: o in init ==> o in os;
      CollectedNoRaise(init);
      assert Keeps(init) + [] == Keeps(init);
    }
  }

  /** Once the loop has stopped, later outcomes change nothing. */
  lemma {:induction false} CollectedSticky(os: seq<Outcome>, more: seq<Outcome>)
    requires Collected(os).1
    ensures Collected(os + more) == Collected(os)
    decreases |more|
  {
    if more == [] {
      assert os + more == os;
    } else {
      var init := more[..|more| - 1];
      assert (os + more)[..|os + more| - 1] == os + init;
      CollectedSticky(os, init);
    }
  }

  /** The first raise stops the loop with the records kept before it. */
  lemma CollectedFirstRaise(before: seq<Outcome>, after: seq<Outcome>)
    requires Raise !in before
    ensures Collected(before + [Raise] + after) == (Keeps(before), true)
  {
    CollectedNoRaise(before);
    var upTo := before + [Raise];
    assert upTo[..|upTo| - 1] == before;
    CollectedSticky(upTo, after);
  }

  /** A raise at position k with none before it stops the loop with the records kept before k. */
  lemma CollectedAtRaise(os: seq<Outcome>, k: int)
    requires 0 <= k < |os| && os[k] == Raise && Raise !in os[..k]
    ensures Collected(os) == (Keeps(os[..k]), true)
  {
    assert os == os[..k] + [Raise] + os[k + 1..];
    CollectedFirstRaise(os[..k], os[k + 1..]);
  }

  /** The parse collects exactly the kept records: all of them when nothing raises, and
      those before the first raise otherwise; a record is collected only if some result
      kept it. */
  lemma CollectedSpec(os: seq<Outcome>, r: Record)
    ensures Raise !in os ==> Collected(os) == (Keeps(os), false)
    ensures forall k :: 0 <= k < |os| && os[k] == Raise && Raise !in os[..k] ==>
      Collected(os) == (Keeps(os[..k]), true)
    ensures r in Collected(os).0 ==> Keep(r) in os
  {
    if Raise !in os {
      CollectedNoRaise(os);
      KeepsMember(os, r);
    } else {
      var first := FirstRaise(os);
      CollectedAtRaise(os, first);
      assert r in Collected(os).0 ==> Keep(r) in os by {
        KeepsMember(os[..first], r);
        assert forall o :: o in os[..first] ==> o in os;
      }
      forall k | 0 <= k < |os| && os[k] == Raise && Raise !in os[..k]
        ensures Collected(os) == (Keeps(os[..k]), true)
      {
        CollectedAtRaise(os, k);
      }
    }
  }

  /** The position of the first raise. */
  function FirstRaise(os: seq<Outcome>): (k: nat)
    requires Raise in os
    ensures k < |os| && os[k] == Raise && Raise !in os[..k]
  {
    if os[0] == Raise then 0
    else
      assert os == [os[0]] + os[1..];
      assert os[1..][..FirstRaise(os[1..])] == os[1..1 + FirstRaise(os[1..])];
      assert os[..1 + FirstRaise(os[1..])] == [os[0]] + os[1..][..FirstRaise(os[1..])];
      1 + FirstRaise(os[1..])
  }

  /** `parse_results` as a value: no records without the results container, otherwise the
      records collected before the first exception. */
  function ParseResults(container: Option<seq<DayBlock>>): seq<Record>
  {
    if container.None? then [] else Collected(Events(container.value, HeadlineDate)).0
  }

  /** An outcome other than a raise, after a run that did not stop, adds its record if it
      keeps one and lets the loop go on. */
  lemma CollectedNext(os: seq<Outcome>, o: Outcome, done: seq<Record>)
    requires Collected(os) == (done, false) && !o.Raise?
    ensures Collected(os + [o]) == (if o.Keep? then done + [o.r] else done, false)
  {
    assert (os + [o])[..|os|] == os;
  }

  lemma PrefixNext(seen: seq<Outcome>, os: seq<Outcome>, j: int)
    requires 0 <= j < |os|
    ensures seen + os[..j] + [os[j]] == seen + os[..j + 1]
  {
    assert os[..j + 1] == os[..j] + [os[j]];
  }

  /** A raise at position j of a block ends the loop with what was collected before it,
      whatever precedes or follows the block. */
  lemma RaiseSticks(e: seq<Outcome>, day: seq<Outcome>, rest: seq<Outcome>, j: int, collected: seq<Record>)
    requires 0 <= j < |day| && day[j] == Raise
    requires Collected(e + day[..j]) == (collected, false)
    ensures Collected(e + day + rest).0 == collected
  {
    var upTo := e + day[..j] + [Raise];
    var after := day[j + 1..] + rest;
    assert Collected(upTo).1 by {
      assert upTo[..|upTo| - 1] == e + day[..j];
    }
    assert e + day + rest == upTo + after by {
      assert day == day[..j] + [Raise] + day[j + 1..];
    }
    CollectedSticky(upTo, after);
  }

  /** A raise at result j of day d ends the parse with what was collected before it. */
  lemma RaiseInDay(days: seq<DayBlock>, parse: string -> Option<Date>, d: int, j: int, collected: seq<Record>)
    requires 0 <= d < |days| && 0 <= j < |DayOutcomes(days[d], parse)|
    requires DayOutcomes(days[d], parse)[j] == Raise
    requires Collected(Events(days[..d], parse) + DayOutcomes(days[d], parse)[..j]) == (collected, false)
    ensures Collected(Events(days, parse)).0 == collected
  {
    EventsSplit(days, parse, d);
    RaiseSticks(Events(days[..d], parse), DayOutcomes(days[d], parse), Events(days[d + 1..], parse), j, collected);
  }

  /** The outcomes of the days are those before day d, then day d's, then those after. */
  lemma EventsSplit(days: seq<DayBlock>, parse: string -> Option<Date>, d: int)
    requires 0 <= d < |days|
    ensures Events(days, parse) ==
      Events(days[..d], parse) + DayOutcomes(days[d], parse) + Events(days[d + 1..], parse)
  {
    assert Events(days, parse) == Events(days[..d + 1], parse) + Events(days[d + 1..], parse) by {
      assert days == days[..d + 1] + days[d + 1..];
      EventsAppend(days[..d + 1], days[d + 1..], parse);
    }
    EventsNext(days, parse, d);
  }

  /** The outcomes of the first d + 1 days are those of the first d followed by day d's. */
  lemma EventsNext(days: seq<DayBlock>, parse: string -> Option<Date>, d: int)
    requires 0 <= d < |days|
    ensures Events(days[..d + 1], parse) == Events(days[..d], parse) + DayOutcomes(days[d], parse)
  {
    assert days[..d + 1][..d] == days[..d];
  }

  /** The nested loops of `parse_results`: over the day blocks, reading each headline's date,
      then over the day's results, appending each kept record; an exception anywhere returns
      the records appended so far. */
  method ParseResultsLoop(container: Option<seq<DayBlock>>) returns (matches: seq<Record>)
    ensures matches == ParseResults(container)
  {
    matches := [];
    if container.None? {
      return;
    }
    var days := container.value;
    for d := 0 to |days|
      invariant Collected(Events(days[..d], HeadlineDate)) == (matches, false)
    {
      EventsNext(days, HeadlineDate, d);
      var day := days[d];
      if day.headline.None? {
        assert DayOutcomes(day, HeadlineDate) == [];
        assert Events(days[..d], HeadlineDate) + [] == Events(days[..d], HeadlineDate);
        continue;
      }
      var date := HeadlineDate(day.headline.value);
      ghost var os := DayOutcomes(day, HeadlineDate);
      if date.None? {
        assert os == [Raise] && os[..0] == [];
        assert Events(days[..d], HeadlineDate) + [] == Events(days[..d], HeadlineDate);
        RaiseInDay(days, HeadlineDate, d, 0, matches);
        return;
      }
      assert os == seq(|day.results|, i requires 0 <= i < |day.results| => ParseResult(day.results[i], date.value));
      ghost var seen := Events(days[..d], HeadlineDate);
      assert seen + os[..0] == seen;
      for j := 0 to |day.results|
        invariant Collected(seen + os[..j]) == (matches, false)
      {
        var outcome := ParseResult(day.results[j], date.value);
        assert os[j] == outcome;
        if outcome.Raise? {
          RaiseInDay(days, HeadlineDate, d, j, matches);
          return;
        }
        CollectedNext(seen + os[..j], outcome, matches);
        PrefixNext(seen, os, j);
        if outcome.Keep? {
          matches := matches + [outcome.r];
        }
      }
      assert os[..|day.results|] == os;
    }
    assert days[..|days|] == days;
  }

  // ---------------------------------------------------------------- the update

  /** One parameter tuple of the UPDATE: the outcome, then the key columns. */
  datatype UpdateValue = UpdateValue(outcome: int, teamA: string, teamB: string, date: Date, tournamentName: string)

  /** The parameter list as written: `match["actual_outcome"]` raises KeyError for a record
      without an outcome, so one such record means no update at all. */
  function UpdateValuesAsWritten(records: seq<Record>): Option<seq<UpdateValue>>
  {
    if records == [] then Some([])
    else
      var last := records[|records| - 1];
      match UpdateValuesAsWritten(records[..|records| - 1])
      case None => None
      case Some(vs) =>
        if last.outcome.None? then None
        else Some(vs + [UpdateValue(last.outcome.value, last.teamA, last.teamB, last.date, last.tournamentName)])
  }

  /** As written, the statement runs only when every record carries an outcome. */
  lemma {:induction false} AsWrittenNeedsEveryOutcome(records: seq<Record>)
    ensures UpdateValuesAsWritten(records).Some? <==> forall r :: r in records ==> r.outcome.Some?
  {
    if records != [] {
      var init := records[..|records| - 1];
      AsWrittenNeedsEveryOutcome(init);
      assert records == init + [records[|records| - 1]];
    }
  }

  /** A page with one scored and one unscored result writes nothing as written, although the
      scored one has an outcome to record. */
  lemma BlankScoreBlocksUpdate(date: Date)
    ensures var scored := Record(date, "Cup", "A", "B", Some(1));
      var blank := Record(date, "Cup", "C", "D", None);
      UpdateValuesAsWritten([scored, blank]).None? &&
      UpdateValues([scored, blank]) == [UpdateValue(1, "A", "B", date, "Cup")]
  {
    var scored := Record(date, "Cup", "A", "B", Some(1));
    var blank := Record(date, "Cup", "C", "D", None);
    assert [scored, blank][..1] == [scored];
    assert [scored][..0] == [];
    assert UpdateValues([scored]) == [] + [UpdateValue(1, "A", "B", date, "Cup")];
    assert UpdateValues([scored, blank]) == UpdateValues([scored]) + [];
  }

  /** The parameter list the statement evidently intends: one tuple per record that carries
      an outcome, in order. */
  function UpdateValues(records: seq<Record>): seq<UpdateValue>
  {
    if records == [] then []
    else
      var last := records[|records| - 1];
      UpdateValues(records[..|records| - 1]) +
        (if last.outcome.None? then []
         else [UpdateValue(last.outcome.value, last.teamA, last.teamB, last.date, last.tournamentName)])
  }

  /** Every record with an outcome gets its tuple, every tuple comes from such a record, and
      when every record has one the list is the one the source builds. */
  lemma {:induction false} UpdateValuesSpec(records: seq<Record>, v: UpdateValue)
    ensures v in UpdateValues(records) <==>
      exists r :: r in records && r.outcome == Some(v.outcome) &&
        v == UpdateValue(v.outcome, r.teamA, r.teamB, r.date, r.tournamentName)
    ensures UpdateValuesAsWritten(records).Some? ==> UpdateValuesAsWritten(records).value == UpdateValues(records)
  {
    if records != [] {
      var init := records[..|records| - 1];
      UpdateValuesSpec(init, v);
      assert records == init + [records[|records| - 1]];
    }
  }

  /** A row of `upcoming_matches` as far as the update reads and writes it. */
  datatype UpcomingRow = UpcomingRow(
    teamA: string, teamB: string, date: DateTime, tournamentName: string, actualOutcome: Option<int>)

  /** The WHERE clause: the teams in order, the calendar day of the start time and the
      tournament. */
  predicate Targets(v: UpdateValue, row: UpcomingRow)
  {
    row.teamA == v.teamA && row.teamB == v.teamB && row.date.date == v.date &&
    row.tournamentName == v.tournamentName
  }

  /** One UPDATE: every targeted row gets the outcome. */
  function ApplyUpdate(table: seq<UpcomingRow>, v: UpdateValue): (t: seq<UpcomingRow>)
    ensures |t| == |table|
  {
    seq(|table|, i requires 0 <= i < |table| =>
      if Targets(v, table[i]) then table[i].(actualOutcome := Some(v.outcome)) else table[i])
  }

  /** `executemany`: the updates in order. */
  function ApplyAll(table: seq<UpcomingRow>, vs: seq<UpdateValue>): (t: seq<UpcomingRow>)
    ensures |t| == |table|
  {
    if vs == [] then table else ApplyUpdate(ApplyAll(table, vs[..|vs| - 1]), vs[|vs| - 1])
  }

  /** The outcome of the last update that targets the row, if any. */
  function LastTargeting(vs: seq<UpdateValue>, row: UpcomingRow): Option<int>
  {
    if vs == [] then None
    else if Targets(vs[|vs| - 1], row) then Some(vs[|vs| - 1].outcome)
    else LastTargeting(vs[..|vs| - 1], row)
  }

  /** After the statement a row keeps its key columns; its outcome is that of the last update
      targeting it, and a row no update targets is unchanged. */
  lemma {:induction false} ApplyAllSpec(table: seq<UpcomingRow>, vs: seq<UpdateValue>, i: int)
    requires 0 <= i < |table|
    ensures var row := ApplyAll(table, vs)[i];
      row == table[i].(actualOutcome := row.actualOutcome) &&
      row.actualOutcome == (if LastTargeting(vs, table[i]).Some? then LastTargeting(vs, table[i]) else table[i].actualOutcome)
  {
    if vs != [] {
      ApplyAllSpec(table, vs[..|vs| - 1], i);
    }
  }
}
