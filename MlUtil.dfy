/** `process_matches` (backend/ml_model/ml_util.py): turns the historical matches, the
    per-match team statistics and the per-map team records into one fixed 20-slot feature row
    per match: the map and team codes, six statistics per team (or fixed defaults), each team's
    wins and losses on the map (or zeros), and the label "team A won". Values are reals; the
    tables are sequences of records. */
module MlUtil {
  import opened Common

  /** A row of the MATCHES table (the columns `process_matches` reads). */
  datatype MatchRow = MatchRow(matchId: int, mapName: string, teamA: string, teamB: string,
                               roundsA: int, roundsB: int)

  /** A row of `team_stats`. */
  datatype TeamStats = TeamStats(matchId: int, teamName: string, teamRating: real,
                                 firstKills: real, clutchesWon: real, avgKda: real,
                                 avgKast: real, avgAdr: real)

  /** A row of `map_stats`. */
  datatype MapStats = MapStats(teamName: string, mapName: string, wins: int, losses: int)

  // ---------------------------------------------------------------- label encoding

  predicate NoDuplicates<T(==)>(xs: seq<T>)
  {
    forall i, j :: 0 <= i < j < |xs| ==> xs[i] != xs[j]
  }

  /** Python's (and NumPy's) order on strings: code point by code point, a proper prefix
      first. */
  predicate StrLess(a: string, b: string)
  {
    if a == [] then b != []
    else if b == [] then false
    else if a[0] != b[0] then a[0] < b[0]
    else StrLess(a[1..], b[1..])
  }

  lemma {:induction false} StrLessIrreflexive(a: string)
    ensures !StrLess(a, a)
  {
    if a != [] {
      StrLessIrreflexive(a[1..]);
    }
  }

  lemma {:induction false} StrLessTransitive(a: string, b: string, c: string)
    requires StrLess(a, b) && StrLess(b, c)
    ensures StrLess(a, c)
  {
    if a != [] && a[0] == b[0] && b[0] == c[0] {
      StrLessTransitive(a[1..], b[1..], c[1..]);
    }
  }

  lemma {:induction false} StrLessTotal(a: string, b: string)
    requires a != b
    ensures StrLess(a, b) || StrLess(b, a)
  {
    if a != [] && b != [] && a[0] == b[0] {
      assert a == [a[0]] + a[1..] && b == [b[0]] + b[1..];
      StrLessTotal(a[1..], b[1..]);
    }
  }

  lemma StrLessAsymmetric(a: string, b: string)
    requires StrLess(a, b)
    ensures !StrLess(b, a)
  {
    StrLessIrreflexive(a);
    if StrLess(b, a) {
      StrLessTransitive(a, b, a);
      assert false;
    }
  }

  /** Strictly increasing in string order. */
  predicate StrictlySorted(s: seq<string>)
  {
    forall i, j :: 0 <= i < j < |s| ==> StrLess(s[i], s[j])
  }

  lemma SortedNoDuplicates(s: seq<string>)
    requires StrictlySorted(s)
    ensures NoDuplicates(s)
  {
    forall i, j | 0 <= i < j < |s| ensures s[i] != s[j] {
      StrLessIrreflexive(s[i]);
    }
  }

  lemma SortedTail(s: seq<string>)
    requires StrictlySorted(s) && s != []
    ensures StrictlySorted(s[1..])
  {
    forall i, j | 0 <= i < j < |s| - 1 ensures StrLess(s[1..][i], s[1..][j]) {
      assert s[1..][i] == s[i + 1] && s[1..][j] == s[j + 1];
    }
  }

  /** The first class is below every other one. */
  lemma SortedHeadLeast(s: seq<string>, y: string)
    requires StrictlySorted(s) && y in s && y != s[0]
    ensures StrLess(s[0], y)
  {
    var j :| 0 <= j < |s| && s[j] == y;
  }

  lemma ConsSorted(x: string, rest: seq<string>)
    requires StrictlySorted(rest) && forall y :: y in rest ==> StrLess(x, y)
    ensures StrictlySorted([x] + rest)
  {
    var s := [x] + rest;
    forall i, j | 0 <= i < j < |s| ensures StrLess(s[i], s[j]) {
      assert s[j] == rest[j - 1] && s[j] in rest;
      if i > 0 {
        assert s[i] == rest[i - 1];
      }
    }
  }

  /** In a strictly increasing list, the members of the tail are the members other than the
      head. */
  lemma TailMember(s: seq<string>, x: string)
    requires StrictlySorted(s) && s != []
    ensures x in s[1..] <==> x in s && x != s[0]
  {
    assert s == [s[0]] + s[1..];
    if x in s[1..] {
      var i :| 0 <= i < |s[1..]| && s[1..][i] == x;
      assert s[i + 1] == x;
      StrLessIrreflexive(s[0]);
    }
  }

  /** One step of `np.unique`: x put in its place among sorted classes, unless present. */
  function InsertClass(x: string, s: seq<string>): seq<string>
  {
    if s == [] then [x]
    else if x == s[0] then s
    else if StrLess(x, s[0]) then [x] + s
    else [s[0]] + InsertClass(x, s[1..])
  }

  lemma {:induction false} InsertClassSpec(x: string, s: seq<string>)
    requires StrictlySorted(s)
    ensures forall y :: y in InsertClass(x, s) <==> y == x || y in s
    ensures StrictlySorted(InsertClass(x, s))
  {
    if s == [] || x == s[0] {
    } else if StrLess(x, s[0]) {
      forall y | y in s ensures StrLess(x, y) {
        if y != s[0] {
          SortedHeadLeast(s, y);
          StrLessTransitive(x, s[0], y);
        }
      }
      ConsSorted(x, s);
    } else {
      SortedTail(s);
      InsertClassSpec(x, s[1..]);
      assert s == [s[0]] + s[1..];
      StrLessTotal(x, s[0]);
      forall y | y in InsertClass(x, s[1..]) ensures StrLess(s[0], y) {
        if y != x {
          var j :| 0 <= j < |s[1..]| && s[1..][j] == y;
          assert s[j + 1] == y;
        }
      }
      ConsSorted(s[0], InsertClass(x, s[1..]));
    }
  }

  /** The classes a `LabelEncoder` keeps after `fit`: `np.unique` of the values, each value
      once, in increasing string order. */
  function Classes(xs: seq<string>): seq<string>
  {
    if xs == [] then []
    else InsertClass(xs[|xs| - 1], Classes(xs[..|xs| - 1]))
  }

  /** The classes hold every value, nothing else, and are strictly increasing (so each value
      once). */
  lemma {:induction false} ClassesSpec(xs: seq<string>)
    ensures forall x :: x in Classes(xs) <==> x in xs
    ensures StrictlySorted(Classes(xs))
  {
    if xs != [] {
      var init := xs[..|xs| - 1];
      ClassesSpec(init);
      InsertClassSpec(xs[|xs| - 1], Classes(init));
      assert forall x :: x in xs <==> x in init || x == xs[|xs| - 1] by {
        assert xs == init + [xs[|xs| - 1]];
      }
    }
  }

  lemma EmptyNoMember(s: seq<string>)
    ensures s == [] <==> forall x :: x !in s
  {
    if s != [] {
      assert s[0] in s;
    }
  }

  /** There is only one strictly increasing list of a given set of names: whatever order the
      values come in, the fitted classes are the same. */
  lemma {:induction false} SortedClassesUnique(a: seq<string>, b: seq<string>)
    requires StrictlySorted(a) && StrictlySorted(b)
    requires forall x :: x in a <==> x in b
    ensures a == b
  {
    if a == [] || b == [] {
      EmptyNoMember(a);
      EmptyNoMember(b);
    } else {
      assert a[0] == b[0] by {
        if a[0] != b[0] {
          assert a[0] in b && b[0] in a;
          SortedHeadLeast(a, b[0]);
          SortedHeadLeast(b, a[0]);
          StrLessAsymmetric(a[0], b[0]);
          assert false;
        }
      }
      SortedTail(a);
      SortedTail(b);
      forall x ensures x in a[1..] <==> x in b[1..] {
        TailMember(a, x);
        TailMember(b, x);
      }
      SortedClassesUnique(a[1..], b[1..]);
      assert a == [a[0]] + a[1..] && b == [b[0]] + b[1..];
    }
  }

  /** The position of x in xs. */
  function IndexIn<T(==)>(xs: seq<T>, x: T): (i: nat)
    requires x in xs
    ensures i < |xs| && xs[i] == x
  {
    if xs[0] == x then 0 else 1 + IndexIn(xs[1..], x)
  }

  /** `LabelEncoder.transform` after `fit(classes)`: the index of the value among the classes,
      as the number the feature row holds. */
  function Code(classes: seq<string>, name: string): real
    requires name in classes
  {
    IndexIn(classes, name) as real
  }

  /** How many classes lie below the name in string order. */
  function CountBelow(classes: seq<string>, name: string): nat
  {
    if classes == [] then 0
    else (if StrLess(classes[0], name) then 1 else 0) + CountBelow(classes[1..], name)
  }

  lemma {:induction false} NoneBelow(s: seq<string>, name: string)
    requires forall y :: y in s ==> StrLess(name, y)
    ensures CountBelow(s, name) == 0
  {
    if s != [] {
      StrLessAsymmetric(name, s[0]);
      assert forall y :: y in s[1..] ==> y in s;
      NoneBelow(s[1..], name);
    }
  }

  /** Over sorted classes, a name's code is the number of classes below it. */
  lemma {:induction false} CodeIsRank(classes: seq<string>, name: string)
    requires StrictlySorted(classes) && name in classes
    ensures Code(classes, name) == CountBelow(classes, name) as real
  {
    if classes[0] == name {
      StrLessIrreflexive(name);
      forall y | y in classes[1..] ensures StrLess(name, y) {
        var j :| 0 <= j < |classes[1..]| && classes[1..][j] == y;
        assert classes[j + 1] == y;
      }
      NoneBelow(classes[1..], name);
    } else {
      SortedHeadLeast(classes, name);
      SortedTail(classes);
      assert classes == [classes[0]] + classes[1..];
      CodeIsRank(classes[1..], name);
    }
  }

  /** Over sorted classes, codes follow string order. */
  lemma CodeOrder(classes: seq<string>, a: string, b: string)
    requires StrictlySorted(classes) && a in classes && b in classes
    ensures Code(classes, a) < Code(classes, b) <==> StrLess(a, b)
  {
    var i, j := IndexIn(classes, a), IndexIn(classes, b);
    if i < j {
      assert StrLess(classes[i], classes[j]);
    } else if i == j {
      StrLessIrreflexive(a);
    } else {
      assert StrLess(classes[j], classes[i]);
      StrLessAsymmetric(b, a);
    }
  }

  /** With duplicate-free classes, two names get the same code exactly when they are equal. */
  lemma CodeInjective(classes: seq<string>, a: string, b: string)
    requires NoDuplicates(classes) && a in classes && b in classes
    ensures Code(classes, a) == Code(classes, b) <==> a == b
  {
    var i, j := IndexIn(classes, a), IndexIn(classes, b);
    if i != j {
      assert classes[i] != classes[j] by {
        if i < j { assert classes[i] != classes[j]; } else { assert classes[j] != classes[i]; }
      }
    }
  }

  // ---------------------------------------------------------------- keyed lookups

  /** A dict built by a comprehension over the rows: every key maps to the last row that has
      it. */
  function LastByKey<K, V>(rows: seq<V>, key: V -> K): map<K, V>
  {
    if rows == [] then map[]
    else LastByKey(rows[..|rows| - 1], key)[key(rows[|rows| - 1]) := rows[|rows| - 1]]
  }

  /** A key is present exactly when some row has it. */
  lemma {:induction false} LastByKeyDomain<K, V>(rows: seq<V>, key: V -> K, k: K)
    ensures k in LastByKey(rows, key) <==> exists i :: 0 <= i < |rows| && key(rows[i]) == k
  {
    if rows != [] {
      var init := rows[..|rows| - 1];
      LastByKeyDomain(init, key, k);
      if exists i :: 0 <= i < |init| && key(init[i]) == k {
        var i :| 0 <= i < |init| && key(init[i]) == k;
        assert rows[i] == init[i];
      }
      if exists i :: 0 <= i < |rows| && key(rows[i]) == k {
        var i :| 0 <= i < |rows| && key(rows[i]) == k;
        if i < |init| {
          assert init[i] == rows[i];
        }
      }
    }
  }

  /** With duplicate keys, the later row wins. */
  lemma {:induction false} LastByKeyLastWins<K, V>(rows: seq<V>, key: V -> K, i: int)
    requires 0 <= i < |rows|
    requires forall j :: i < j < |rows| ==> key(rows[j]) != key(rows[i])
    ensures key(rows[i]) in LastByKey(rows, key)
    ensures LastByKey(rows, key)[key(rows[i])] == rows[i]
  {
    if i < |rows| - 1 {
      var init := rows[..|rows| - 1];
      assert init[i] == rows[i];
      forall j | i < j < |init| ensures key(init[j]) != key(init[i]) {
        assert init[j] == rows[j];
      }
      LastByKeyLastWins(init, key, i);
    }
  }

  /** `dict.get`. */
  function Lookup<K, V>(m: map<K, V>, k: K): Option<V>
  {
    if k in m then Some(m[k]) else None
  }

  function StatsKey(s: TeamStats): (int, string) { (s.matchId, s.teamName) }
  function MapKey(s: MapStats): (string, string) { (s.teamName, s.mapName) }
  function MapOfMatch(m: MatchRow): string { m.mapName }
  function MapOfStats(s: MapStats): string { s.mapName }
  function TeamA(m: MatchRow): string { m.teamA }
  function TeamB(m: MatchRow): string { m.teamB }
  function TeamOfStats(s: TeamStats): string { s.teamName }
  function TeamOfMapStats(s: MapStats): string { s.teamName }

  /** A column of a table. */
  function Column<T, U>(rows: seq<T>, f: T -> U): (c: seq<U>)
    ensures |c| == |rows| && forall i :: 0 <= i < |rows| ==> c[i] == f(rows[i])
  {
    seq(|rows|, i requires 0 <= i < |rows| => f(rows[i]))
  }

  // ---------------------------------------------------------------- the feature row

  /** The two encoders and the two lookup dicts `process_matches` builds before its loop. */
  datatype Tables = Tables(mapClasses: seq<string>, teamClasses: seq<string>,
                           teamStats: map<(int, string), TeamStats>,
                           mapStats: map<(string, string), MapStats>)

  predicate Encodable(t: Tables, m: MatchRow)
  {
    m.mapName in t.mapClasses && m.teamA in t.teamClasses && m.teamB in t.teamClasses
  }

  /** Every map name of the matches and of `map_stats`. */
  function MapNames(matches: seq<MatchRow>, mapStats: seq<MapStats>): seq<string>
  {
    Column(matches, MapOfMatch) + Column(mapStats, MapOfStats)
  }

  /** Every team name of the three tables. */
  function TeamNames(matches: seq<MatchRow>, teamStats: seq<TeamStats>, mapStats: seq<MapStats>)
    : seq<string>
  {
    Column(matches, TeamA) + Column(matches, TeamB) + Column(teamStats, TeamOfStats)
    + Column(mapStats, TeamOfMapStats)
  }

  /** The encoders are fitted on every map and team name of the three tables: their classes
      are exactly those names, in increasing string order, so every match can be encoded; the
      dicts keep the last row of each key. */
  function BuildTables(matches: seq<MatchRow>, teamStats: seq<TeamStats>, mapStats: seq<MapStats>)
    : (t: Tables)
    ensures StrictlySorted(t.mapClasses) && StrictlySorted(t.teamClasses)
    ensures forall x :: x in t.mapClasses <==> x in MapNames(matches, mapStats)
    ensures forall x :: x in t.teamClasses <==> x in TeamNames(matches, teamStats, mapStats)
    ensures NoDuplicates(t.mapClasses) && NoDuplicates(t.teamClasses)
    ensures forall i :: 0 <= i < |matches| ==> Encodable(t, matches[i])
  {
    var maps := MapNames(matches, mapStats);
    var teams := TeamNames(matches, teamStats, mapStats);
    var t := Tables(Classes(maps), Classes(teams), LastByKey(teamStats, StatsKey),
                    LastByKey(mapStats, MapKey));
    ClassesSpec(maps);
    ClassesSpec(teams);
    SortedNoDuplicates(t.mapClasses);
    SortedNoDuplicates(t.teamClasses);
    assert forall i :: 0 <= i < |matches| ==> matches[i].mapName in maps && matches[i].teamA in teams
                                              && matches[i].teamB in teams by {
      forall i | 0 <= i < |matches|
        ensures matches[i].mapName in maps && matches[i].teamA in teams && matches[i].teamB in teams
      {
        assert maps[i] == matches[i].mapName;
        assert teams[i] == matches[i].teamA;
        assert teams[|matches| + i] == matches[i].teamB;
      }
    }
    t
  }

  /** The codes come from the sorted classes, not from the order the names are met: with one
      match of team "B" against team "A", team A (slot 1) gets code 1 and team B (slot 2)
      code 0. */
  lemma EncoderSortsNames()
    ensures var m := MatchRow(1, "Mirage", "B", "A", 13, 7);
            var t := BuildTables([m], [], []);
            Encodable(t, m) && FeatureRow(t, m)[1] == 1.0 && FeatureRow(t, m)[2] == 0.0
  {
    var m := MatchRow(1, "Mirage", "B", "A", 13, 7);
    var t := BuildTables([m], [], []);
    TwoTeamClasses(t.teamClasses);
    FeatureRowSlots(t, m);
  }

  /** The only strictly increasing list of the names "B" and "A". */
  lemma TwoTeamClasses(classes: seq<string>)
    requires StrictlySorted(classes)
    requires forall x :: x in classes <==> x in TeamNames([MatchRow(1, "Mirage", "B", "A", 13, 7)], [], [])
    ensures classes == ["A", "B"]
  {
    assert TeamNames([MatchRow(1, "Mirage", "B", "A", 13, 7)], [], []) == ["B", "A"];
    assert StrLess("A", "B");
    SortedClassesUnique(classes, ["A", "B"]);
  }

  /** The defaults for a team without a statistics row: rating 1, first kills 0.5, clutches
      0.1, KDA 1.0, KAST 70.0, ADR 80.0. */
  const DefaultStats: seq<real> := [1.0, 0.5, 0.1, 1.0, 70.0, 80.0]

  /** The six statistics of a team, or the defaults. */
  function StatBlock(s: Option<TeamStats>): (r: seq<real>)
    ensures |r| == 6
  {
    match s
    case None => DefaultStats
    case Some(t) => [t.teamRating, t.firstKills, t.clutchesWon, t.avgKda, t.avgKast, t.avgAdr]
  }

  /** A team's wins and losses on the map, or zeros. */
  function MapBlock(s: Option<MapStats>): (r: seq<real>)
    ensures |r| == 2
  {
    match s
    case None => [0.0, 0.0]
    case Some(t) => [t.wins as real, t.losses as real]
  }

  /** 1 when team A won more rounds, 0 otherwise (a tie included). */
  function Label(m: MatchRow): real
  {
    if m.roundsA > m.roundsB then 1.0 else 0.0
  }

  /** The row of one match: map, team A, team B, A's six statistics, B's six, A's map record,
      B's map record, label. */
  function FeatureRow(t: Tables, m: MatchRow): seq<real>
    requires Encodable(t, m)
  {
    [Code(t.mapClasses, m.mapName), Code(t.teamClasses, m.teamA), Code(t.teamClasses, m.teamB)]
    + StatBlock(Lookup(t.teamStats, (m.matchId, m.teamA)))
    + StatBlock(Lookup(t.teamStats, (m.matchId, m.teamB)))
    + MapBlock(Lookup(t.mapStats, (m.teamA, m.mapName)))
    + MapBlock(Lookup(t.mapStats, (m.teamB, m.mapName)))
    + [Label(m)]
  }

  /** The slots of a row, by position. */
  lemma FeatureRowSlots(t: Tables, m: MatchRow)
    requires Encodable(t, m)
    ensures var row := FeatureRow(t, m);
            |row| == 20
            && row[0] == Code(t.mapClasses, m.mapName)
            && row[1] == Code(t.teamClasses, m.teamA) && row[2] == Code(t.teamClasses, m.teamB)
            && row[3..9] == StatBlock(Lookup(t.teamStats, (m.matchId, m.teamA)))
            && row[9..15] == StatBlock(Lookup(t.teamStats, (m.matchId, m.teamB)))
            && row[15..17] == MapBlock(Lookup(t.mapStats, (m.teamA, m.mapName)))
            && row[17..19] == MapBlock(Lookup(t.mapStats, (m.teamB, m.mapName)))
            && row[19] == Label(m)
  {
    var row := FeatureRow(t, m);
    var a := StatBlock(Lookup(t.teamStats, (m.matchId, m.teamA)));
    var b := StatBlock(Lookup(t.teamStats, (m.matchId, m.teamB)));
    var ma := MapBlock(Lookup(t.mapStats, (m.teamA, m.mapName)));
    var mb := MapBlock(Lookup(t.mapStats, (m.teamB, m.mapName)));
    var head := [Code(t.mapClasses, m.mapName), Code(t.teamClasses, m.teamA), Code(t.teamClasses, m.teamB)];
    assert row == head + a + b + ma + mb + [Label(m)];
    assert row[3..9] == a;
    assert row[9..15] == b;
    assert row[15..17] == ma;
    assert row[17..19] == mb;
  }

  /** The label is 1 exactly when team A won more rounds; a tied score gives 0. */
  lemma LabelRule(m: MatchRow)
    ensures Label(m) == 1.0 <==> m.roundsA > m.roundsB
    ensures Label(m) == 0.0 <==> m.roundsA <= m.roundsB
  {
  }

  /** The match seen from the other side. */
  function Swapped(m: MatchRow): MatchRow
  {
    MatchRow(m.matchId, m.mapName, m.teamB, m.teamA, m.roundsB, m.roundsA)
  }

  /** Swapping the teams swaps their codes, statistics and map records, and flips the label
      except on a tie, where both labels are 0. */
  lemma SwapTeams(t: Tables, m: MatchRow)
    requires Encodable(t, m)
    ensures Encodable(t, Swapped(m))
    ensures var row, swapped := FeatureRow(t, m), FeatureRow(t, Swapped(m));
            swapped[0] == row[0] && swapped[1] == row[2] && swapped[2] == row[1]
            && swapped[3..9] == row[9..15] && swapped[9..15] == row[3..9]
            && swapped[15..17] == row[17..19] && swapped[17..19] == row[15..17]
            && (m.roundsA != m.roundsB ==> swapped[19] == 1.0 - row[19])
            && (m.roundsA == m.roundsB ==> swapped[19] == row[19] == 0.0)
  {
    FeatureRowSlots(t, m);
    FeatureRowSlots(t, Swapped(m));
  }

  /** A team keeps its code whichever side it plays on. */
  lemma TeamCodeEitherSide(t: Tables, m1: MatchRow, m2: MatchRow)
    requires Encodable(t, m1) && Encodable(t, m2) && m1.teamA == m2.teamB
    ensures FeatureRow(t, m1)[1] == FeatureRow(t, m2)[2]
  {
    FeatureRowSlots(t, m1);
    FeatureRowSlots(t, m2);
  }

  /** A team without a statistics row for the match gets exactly the defaults. */
  lemma MissingStatsDefault(matches: seq<MatchRow>, teamStats: seq<TeamStats>,
                            mapStats: seq<MapStats>, k: int)
    requires 0 <= k < |matches|
    requires forall i :: 0 <= i < |teamStats| ==>
               StatsKey(teamStats[i]) != (matches[k].matchId, matches[k].teamA)
    ensures FeatureRow(BuildTables(matches, teamStats, mapStats), matches[k])[3..9]
         == [1.0, 0.5, 0.1, 1.0, 70.0, 80.0]
  {
    var t := BuildTables(matches, teamStats, mapStats);
    LastByKeyDomain(teamStats, StatsKey, (matches[k].matchId, matches[k].teamA));
    FeatureRowSlots(t, matches[k]);
  }

  /** Team A's statistics come from the last `team_stats` row with the match id and name. */
  lemma StatsFromLastRow(matches: seq<MatchRow>, teamStats: seq<TeamStats>,
                         mapStats: seq<MapStats>, k: int, i: int)
    requires 0 <= k < |matches| && 0 <= i < |teamStats|
    requires StatsKey(teamStats[i]) == (matches[k].matchId, matches[k].teamA)
    requires forall j :: i < j < |teamStats| ==> StatsKey(teamStats[j]) != StatsKey(teamStats[i])
    ensures FeatureRow(BuildTables(matches, teamStats, mapStats), matches[k])[3..9]
         == [teamStats[i].teamRating, teamStats[i].firstKills, teamStats[i].clutchesWon,
             teamStats[i].avgKda, teamStats[i].avgKast, teamStats[i].avgAdr]
  {
    var t := BuildTables(matches, teamStats, mapStats);
    LastByKeyLastWins(teamStats, StatsKey, i);
    FeatureRowSlots(t, matches[k]);
  }

  /** A team with no record on the map gets zero wins and zero losses. */
  lemma MissingMapRecordZero(matches: seq<MatchRow>, teamStats: seq<TeamStats>,
                             mapStats: seq<MapStats>, k: int)
    requires 0 <= k < |matches|
    requires forall i :: 0 <= i < |mapStats| ==>
               MapKey(mapStats[i]) != (matches[k].teamA, matches[k].mapName)
    ensures FeatureRow(BuildTables(matches, teamStats, mapStats), matches[k])[15..17] == [0.0, 0.0]
  {
    var t := BuildTables(matches, teamStats, mapStats);
    LastByKeyDomain(mapStats, MapKey, (matches[k].teamA, matches[k].mapName));
    FeatureRowSlots(t, matches[k]);
  }

  /** The same for team B, whose statistics fill slots 9 to 14. */
  lemma MissingStatsDefaultB(matches: seq<MatchRow>, teamStats: seq<TeamStats>,
                             mapStats: seq<MapStats>, k: int)
    requires 0 <= k < |matches|
    requires forall i :: 0 <= i < |teamStats| ==>
               StatsKey(teamStats[i]) != (matches[k].matchId, matches[k].teamB)
    ensures FeatureRow(BuildTables(matches, teamStats, mapStats), matches[k])[9..15]
         == [1.0, 0.5, 0.1, 1.0, 70.0, 80.0]
  {
    var t := BuildTables(matches, teamStats, mapStats);
    LastByKeyDomain(teamStats, StatsKey, (matches[k].matchId, matches[k].teamB));
    FeatureRowSlots(t, matches[k]);
  }

  /** Team B's statistics come from the last `team_stats` row with the match id and its
      name. */
  lemma StatsFromLastRowB(matches: seq<MatchRow>, teamStats: seq<TeamStats>,
                          mapStats: seq<MapStats>, k: int, i: int)
    requires 0 <= k < |matches| && 0 <= i < |teamStats|
    requires StatsKey(teamStats[i]) == (matches[k].matchId, matches[k].teamB)
    requires forall j :: i < j < |teamStats| ==> StatsKey(teamStats[j]) != StatsKey(teamStats[i])
    ensures FeatureRow(BuildTables(matches, teamStats, mapStats), matches[k])[9..15]
         == [teamStats[i].teamRating, teamStats[i].firstKills, teamStats[i].clutchesWon,
             teamStats[i].avgKda, teamStats[i].avgKast, teamStats[i].avgAdr]
  {
    var t := BuildTables(matches, teamStats, mapStats);
    LastByKeyLastWins(teamStats, StatsKey, i);
    FeatureRowSlots(t, matches[k]);
  }

  /** Team B with no record on the map gets zeros in slots 17 and 18. */
  lemma MissingMapRecordZeroB(matches: seq<MatchRow>, teamStats: seq<TeamStats>,
                              mapStats: seq<MapStats>, k: int)
    requires 0 <= k < |matches|
    requires forall i :: 0 <= i < |mapStats| ==>
               MapKey(mapStats[i]) != (matches[k].teamB, matches[k].mapName)
    ensures FeatureRow(BuildTables(matches, teamStats, mapStats), matches[k])[17..19] == [0.0, 0.0]
  {
    var t := BuildTables(matches, teamStats, mapStats);
    LastByKeyDomain(mapStats, MapKey, (matches[k].teamB, matches[k].mapName));
    FeatureRowSlots(t, matches[k]);
  }

  /** The body of the loop in `process_matches`: start from the three codes and extend the
      list block by block. */
  method MatchFeatures(t: Tables, m: MatchRow) returns (stats: seq<real>)
    requires Encodable(t, m)
    ensures stats == FeatureRow(t, m)
  {
    stats := [Code(t.mapClasses, m.mapName), Code(t.teamClasses, m.teamA),
              Code(t.teamClasses, m.teamB)];
    stats := stats + StatBlock(Lookup(t.teamStats, (m.matchId, m.teamA)));
    stats := stats + StatBlock(Lookup(t.teamStats, (m.matchId, m.teamB)));
    stats := stats + MapBlock(Lookup(t.mapStats, (m.teamA, m.mapName)));
    stats := stats + MapBlock(Lookup(t.mapStats, (m.teamB, m.mapName)));
    stats := stats + [Label(m)];
  }

  /** `process_matches`: one row per match, in the order of the matches. */
  method ProcessMatches(matches: seq<MatchRow>, teamStats: seq<TeamStats>, mapStats: seq<MapStats>)
    returns (rows: seq<seq<real>>)
    ensures |rows| == |matches|
    ensures forall i :: 0 <= i < |matches| ==>
              rows[i] == FeatureRow(BuildTables(matches, teamStats, mapStats), matches[i])
  {
    var t := BuildTables(matches, teamStats, mapStats);
    rows := FeatureRows(t, matches);
  }

  /** The loop of `process_matches` over tables already built. */
  method FeatureRows(t: Tables, matches: seq<MatchRow>) returns (rows: seq<seq<real>>)
    requires forall i :: 0 <= i < |matches| ==> Encodable(t, matches[i])
    ensures |rows| == |matches|
    ensures forall i :: 0 <= i < |matches| ==> rows[i] == FeatureRow(t, matches[i])
  {
    rows := [];
    var i := 0;
    while i < |matches|
      invariant 0 <= i <= |matches| && |rows| == i
      invariant forall k :: 0 <= k < i ==> rows[k] == FeatureRow(t, matches[k])
    {
      var stats := MatchFeatures(t, matches[i]);
      rows := rows + [stats];
      i := i + 1;
    }
  }
}
