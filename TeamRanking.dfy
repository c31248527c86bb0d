/** The ranking scraper (backend/scraper/teamRanking.py): every ranked-team block on the
    ranking page yields a team id, a name and a rank (1, 2, 3, ... in page order), and each is
    upserted into the `teams` table keyed by id. The page is abstracted as a sequence of blocks
    whose parts may be missing; the table as a map from id to row. */
module TeamRanking {
  import opened Common
  import opened Text

  /** The `a.moreLink` element of a block; its `href` attribute may be absent. */
  datatype Link = Link(href: Option<string>)

  /** One `div.ranked-team.standard-box`: its link and the text of its `span.name`. */
  datatype TeamBlock = TeamBlock(moreLink: Option<Link>, nameText: Option<string>)

  /** A row of the `teams` table. */
  datatype TeamRow = TeamRow(teamName: string, ranking: int)

  /** The team id in a link such as `/team/4608/natus-vincere`: strip '/' at both ends, split on
      '/', and read the second field as an integer. None is the IndexError or ValueError. */
  function TeamIdFromHref(href: string): Option<int>
  {
    var parts := Split(StripChar(href, '/'), '/');
    if |parts| < 2 then None else ParseInt(parts[1])
  }

  /** A link built from a team id and slug gives that id back. */
  lemma TeamIdFromHrefRoundTrip(id: nat, slug: string)
    requires slug != [] && slug[|slug| - 1] != '/'
    ensures TeamIdFromHref("/team/" + NatText(id) + "/" + slug) == Some(id)
  {
    var digits := NatText(id);
    var inner := "team/" + digits + "/" + slug;
    assert "/team/" + digits + "/" + slug == "/" + inner;
    assert inner[|inner| - 1] == slug[|slug| - 1];
    StripSlashes(inner);
    assert '/' !in digits by {
      forall k | 0 <= k < |digits| ensures digits[k] != '/' {
        assert IsDigit(digits[k]);
      }
    }
    assert inner == "team" + "/" + digits + "/" + slug;
    SplitSecond("team", digits, slug);
    ParseIntNatText(id);
  }

  lemma StripSlashes(inner: string)
    requires inner != [] && inner[0] != '/' && inner[|inner| - 1] != '/'
    ensures StripChar("/" + inner, '/') == inner
  {
    var s := "/" + inner;
    assert s[1..] == inner;
    assert LeadCount(s, {'/'}) == 1;
  }

  lemma SplitSecond(a: string, b: string, c: string)
    requires '/' !in a && '/' !in b
    ensures |Split(a + "/" + b + "/" + c, '/')| >= 2
    ensures Split(a + "/" + b + "/" + c, '/')[1] == b
  {
    var s := a + "/" + b + "/" + c;
    assert s[|a|] == '/';
    assert s[..|a|] == a;
    assert IndexOf(s, '/') == |a|;
    var rest := s[|a| + 1..];
    assert rest == b + "/" + c;
    assert rest[|b|] == '/';
    assert rest[..|b|] == b;
    assert IndexOf(rest, '/') == |b|;
  }

  /** What a block yields, or None when reading it raises: no link, no href, an href without
      a numeric second field, or no name span. */
  function ParseBlock(b: TeamBlock): Option<(int, string)>
  {
    match b.moreLink
    case None => None
    case Some(link) =>
      match link.href
      case None => None
      case Some(href) =>
        match TeamIdFromHref(href)
        case None => None
        case Some(id) =>
          match b.nameText
          case None => None
          case Some(text) => Some((id, Strip(text)))
  }

  /** The blocks read before the first one that raises: the loop stops at the exception. */
  function ParsedPrefix(blocks: seq<TeamBlock>): seq<(int, string)>
  {
    PrefixWhile(blocks, ParseBlock)
  }

  /** The table after upserting the k-th parsed team with ranking k + 1, in order:
      `INSERT ... ON DUPLICATE KEY UPDATE ranking, team_name`. */
  function Upserts(table: map<int, TeamRow>, parsed: seq<(int, string)>): map<int, TeamRow>
  {
    if parsed == [] then table
    else
      var last := parsed[|parsed| - 1];
      Upserts(table, parsed[..|parsed| - 1])[last.0 := TeamRow(last.1, |parsed|)]
  }

  /** A team absent from the page keeps its previous row, and no row appears for it. */
  lemma {:induction false} UpsertsKeepAbsent(table: map<int, TeamRow>, parsed: seq<(int, string)>, id: int)
    requires forall k :: 0 <= k < |parsed| ==> parsed[k].0 != id
    ensures (id in Upserts(table, parsed)) == (id in table)
    ensures id in table ==> Upserts(table, parsed)[id] == table[id]
  {
    if parsed != [] {
      UpsertsKeepAbsent(table, parsed[..|parsed| - 1], id);
    }
  }

  /** The row of an id holds the name and rank of its LAST occurrence on the page. */
  lemma {:induction false} UpsertsLastWins(table: map<int, TeamRow>, parsed: seq<(int, string)>, j: int)
    requires 0 <= j < |parsed|
    requires forall k :: j < k < |parsed| ==> parsed[k].0 != parsed[j].0
    ensures parsed[j].0 in Upserts(table, parsed)
    ensures Upserts(table, parsed)[parsed[j].0] == TeamRow(parsed[j].1, j + 1)
  {
    if j < |parsed| - 1 {
      UpsertsLastWins(table, parsed[..|parsed| - 1], j);
    }
  }

  lemma UpsertsStep(table: map<int, TeamRow>, parsed: seq<(int, string)>, i: int)
    requires 0 <= i < |parsed|
    ensures Upserts(table, parsed[..i + 1])
         == Upserts(table, parsed[..i])[parsed[i].0 := TeamRow(parsed[i].1, i + 1)]
  {
    assert parsed[..i + 1][..i] == parsed[..i];
  }

  /** `get_teams`: walks the blocks with a ranking counter starting at 1, upserting each
      team, until a block raises. Returns the table and whether the loop was cut short; the
      caller commits what was upserted either way. */
  method GetTeams(blocks: seq<TeamBlock>, table: map<int, TeamRow>)
    returns (teams: map<int, TeamRow>, stopped: bool)
    ensures teams == Upserts(table, ParsedPrefix(blocks))
    ensures stopped <==> |ParsedPrefix(blocks)| < |blocks|
  {
    ghost var parsed := ParsedPrefix(blocks);
    teams := table;
    stopped := false;
    var ranking := 1;
    var i := 0;
    while i < |blocks|
      invariant 0 <= i <= |parsed|
      invariant ranking == i + 1
      invariant teams == Upserts(table, parsed[..i])
    {
      var p := ParseBlock(blocks[i]);
      PrefixWhileAt(blocks, ParseBlock, i);
      if p.None? {
        stopped := true;
        break;
      }
      UpsertsStep(table, parsed, i);
      teams := teams[p.value.0 := TeamRow(p.value.1, ranking)];
      ranking := ranking + 1;
      i := i + 1;
    }
    assert parsed[..i] == parsed;
  }
}
