/**
 * The scoreboard page parser.
 *
 * Every `table.matchup` block becomes a matchup: its first row is the away
 * team and its second row the home team. The team id is read from the
 * row's `id` attribute and selects the live scoring fields inside the
 * block's `.scoringDetails` element.
 */
module Scoreboard {
  import opened Wrappers
  import opened JsText
  import opened Document
  import opened Types

  /** The parser's `name`, its key in the registry. */
  const Name: string := "scoreboard"

  // ---------------------------------------------------------------------
  // Text helpers

  const Parens: set<char> := {'(', ')'}

  /** Neither end of `s` is a parenthesis. */
  predicate ParenFree(s: string)
  {
    s == [] || (s[0] !in Parens && s[|s| - 1] !in Parens)
  }

  /** `_.trim(s, '()')`: parentheses removed from both ends. */
  function TrimParens(s: string): (t: string)
    ensures ParenFree(t)
    ensures t == [] <==> forall i :: 0 <= i < |s| ==> s[i] in Parens
  {
    Strip(s, Parens)
  }

  /** Only parentheses are removed, and only at the ends. */
  lemma TrimParensSlice(s: string)
    ensures StrippedSlice(s, TrimParens(s), Parens)
  {
    StripSlice(s, Parens);
  }

  lemma TrimParensIdempotent(s: string)
    ensures TrimParens(TrimParens(s)) == TrimParens(s)
  {
    StripIdempotent(s, Parens);
  }

  /** A text shown in parentheses, "(ABC)", gives back the text inside. */
  lemma TrimParensOfWrapped(s: string)
    requires ParenFree(s)
    ensures TrimParens("(" + s + ")") == s
  {
    var w := "(" + s + ")";
    var t := s + ")";
    ConcatShape("(", s, ")");
    if s == [] {
      assert forall i :: 0 <= i < |w| ==> w[i] in Parens by {
        assert w == "()";
      }
    } else {
      assert StripStart(w, Parens) == t by {
        StripStartPrefix("(", t, Parens);
      }
      assert StripEnd(t, Parens) == s by {
        assert t[..|t| - 1] == s;
      }
    }
  }

  /** The team id in a row's `id` attribute: `parseInt` of the second
      '_'-separated part. Without a '_' the source parses `undefined`,
      which is NaN. */
  function TeamIdOf(idAttr: string): (id: Option<int>)
    ensures id.Some? ==> '_' in idAttr
  {
    var parts := Split(idAttr, '_');
    if |parts| >= 2 then ParseInt(parts[1]) else None
  }

  /** An id attribute without '_' has no second part: the id is NaN. */
  lemma TeamIdWithoutSegment(idAttr: string)
    requires '_' !in idAttr
    ensures TeamIdOf(idAttr) == None
  {
  }

  /** An id attribute "prefix_N" or "prefix_N_rest" carries team id N. */
  lemma TeamIdOfText(prefix: string, id: int, rest: string)
    requires '_' !in prefix && (rest == [] || rest[0] == '_')
    ensures TeamIdOf(prefix + "_" + IntText(id) + rest) == Some(id)
  {
    var n := IntText(id);
    IntTextWithout(id, '_');
    SplitSecond(prefix + "_" + n + rest, prefix, n, rest, '_');
    ParseIntOfText("", id, "");
    assert "" + n + "" == n;
  }

  // ---------------------------------------------------------------------
  // The scoring details

  const InPlayPrefix: string := "team_ip_"
  const YetToPlayPrefix: string := "team_ytp_"
  const MinsLeftPrefix: string := "team_pmr_"
  const ProjectedPrefix: string := "team_liveproj_"

  /** The element id `${prefix}${teamId}`; a NaN team id is written "NaN". */
  function DetailsId(prefix: string, teamId: Option<int>): (id: string)
    ensures |id| > |prefix| && id[..|prefix|] == prefix
    ensures ParseInt(id[|prefix|..]) == teamId
  {
    var id := prefix + NumberText(teamId);
    assert id[|prefix|..] == NumberText(teamId);
    NumberTextRoundTrip(teamId);
    id
  }

  /** Under one prefix, different team ids name different elements. */
  lemma DetailsIdInjective(prefix: string, x: Option<int>, y: Option<int>)
    requires DetailsId(prefix, x) == DetailsId(prefix, y)
    ensures x == y
  {
    var a, b := DetailsId(prefix, x), DetailsId(prefix, y);
    assert NumberText(x) == a[|prefix|..] == b[|prefix|..] == NumberText(y);
    NumberTextRoundTrip(x);
    NumberTextRoundTrip(y);
  }

  /** Ids under prefixes that differ at a common position differ. */
  lemma DetailsIdsDiffer(p: string, q: string, k: nat, x: Option<int>, y: Option<int>)
    requires k < |p| && k < |q| && p[k] != q[k]
    ensures DetailsId(p, x) != DetailsId(q, y)
  {
    assert DetailsId(p, x)[k] == p[k] && DetailsId(q, y)[k] == q[k];
  }

  /** The four scoring fields never read the same element, whatever the two
      team ids are. */
  lemma DetailsIdsDistinct(x: Option<int>, y: Option<int>)
    ensures DetailsId(InPlayPrefix, x) != DetailsId(YetToPlayPrefix, y)
    ensures DetailsId(InPlayPrefix, x) != DetailsId(MinsLeftPrefix, y)
    ensures DetailsId(InPlayPrefix, x) != DetailsId(ProjectedPrefix, y)
    ensures DetailsId(YetToPlayPrefix, x) != DetailsId(MinsLeftPrefix, y)
    ensures DetailsId(YetToPlayPrefix, x) != DetailsId(ProjectedPrefix, y)
    ensures DetailsId(MinsLeftPrefix, x) != DetailsId(ProjectedPrefix, y)
  {
    assert InPlayPrefix[5] == 'i' && YetToPlayPrefix[5] == 'y';
    assert MinsLeftPrefix[5] == 'p' && ProjectedPrefix[5] == 'l';
    DetailsIdsDiffer(InPlayPrefix, YetToPlayPrefix, 5, x, y);
    DetailsIdsDiffer(InPlayPrefix, MinsLeftPrefix, 5, x, y);
    DetailsIdsDiffer(InPlayPrefix, ProjectedPrefix, 5, x, y);
    DetailsIdsDiffer(YetToPlayPrefix, MinsLeftPrefix, 5, x, y);
    DetailsIdsDiffer(YetToPlayPrefix, ProjectedPrefix, 5, x, y);
    DetailsIdsDiffer(MinsLeftPrefix, ProjectedPrefix, 5, x, y);
  }

  /** `parseInt` of the text of the details element with that id. */
  function ScoringInt(details: Option<map<string, string>>, prefix: string, teamId: Option<int>): Option<int>
  {
    ParseInt(IdText(details, DetailsId(prefix, teamId)))
  }

  // ---------------------------------------------------------------------
  // One matchup

  /** The row's `id` attribute, when it has one. */
  function RowId(r: Row): Option<string>
  {
    if r.attribs.Some? && r.attribs.value.id.Some? then Some(r.attribs.value.id.value) else None
  }

  /** `parseMatchupTeam`. A missing row, or a row without an `id`
      attribute, makes the source throw. */
  function ParseMatchupTeam(row: Option<Row>, details: Option<map<string, string>>): (t: Result<TeamMatchup>)
    ensures t.Err? <==> row.None? || RowId(row.value).None?
  {
    match row
    case None => Err(MissingTeamRow)
    case Some(r) =>
      match RowId(r)
      case None => Err(MissingIdAttribute)
      case Some(idAttr) =>
        var teamId := TeamIdOf(idAttr);
        Ok(TeamMatchup(
          Team(
            teamId,
            TrimParens(ClassText(r, ".team > .name > .abbrev")),
            ClassText(r, ".team > .name > a"),
            ClassText(r, ".owners"),
            None,
            Some(TrimParens(ClassText(r, ".record")))),
          ParsedFloat(ClassText(r, ".score")),
          ParsedFloat(IdText(details, DetailsId(ProjectedPrefix, teamId))),
          ScoringInt(details, MinsLeftPrefix, teamId),
          ScoringInt(details, YetToPlayPrefix, teamId),
          ScoringInt(details, InPlayPrefix, teamId)))
  }

  /** The faults of `parseMatchupTeam` and the shape of its team: no
      division, a record, and neither the record nor the short name
      wrapped in parentheses. */
  lemma MatchupTeamShape(row: Option<Row>, details: Option<map<string, string>>)
    ensures row.None? ==> ParseMatchupTeam(row, details) == Err(MissingTeamRow)
    ensures row.Some? && RowId(row.value).None? ==> ParseMatchupTeam(row, details) == Err(MissingIdAttribute)
    ensures ParseMatchupTeam(row, details).Err? <==> row.None? || RowId(row.value).None?
    ensures ParseMatchupTeam(row, details).Ok? ==>
      var t := ParseMatchupTeam(row, details).value.team;
      t.division.None? && t.record.Some? && ParenFree(t.record.value) && ParenFree(t.short_name)
      && t.id == TeamIdOf(RowId(row.value).value)
  {
  }

  /** A team row with id "prefix_N..." and a details element holding the
      three counters for team N: the team gets id N and those counters. */
  lemma ScoringFieldsOfTeam(r: Row, prefix: string, id: int, rest: string, m: map<string, string>,
                            inPlay: int, yetToPlay: int, minsLeft: int)
    requires '_' !in prefix && (rest == [] || rest[0] == '_')
    requires RowId(r) == Some(prefix + "_" + IntText(id) + rest)
    requires DetailsId(InPlayPrefix, Some(id)) in m && m[DetailsId(InPlayPrefix, Some(id))] == IntText(inPlay)
    requires DetailsId(YetToPlayPrefix, Some(id)) in m && m[DetailsId(YetToPlayPrefix, Some(id))] == IntText(yetToPlay)
    requires DetailsId(MinsLeftPrefix, Some(id)) in m && m[DetailsId(MinsLeftPrefix, Some(id))] == IntText(minsLeft)
    ensures ParseMatchupTeam(Some(r), Some(m)).Ok?
    ensures var t := ParseMatchupTeam(Some(r), Some(m)).value;
      t.team.id == Some(id) && t.in_play == Some(inPlay)
      && t.yet_to_play == Some(yetToPlay) && t.mins_left == Some(minsLeft)
  {
    assert TeamIdOf(RowId(r).value) == Some(id) by {
      TeamIdOfText(prefix, id, rest);
    }
    ScoringIntOf(m, InPlayPrefix, id, inPlay);
    ScoringIntOf(m, YetToPlayPrefix, id, yetToPlay);
    ScoringIntOf(m, MinsLeftPrefix, id, minsLeft);
  }

  /** A counter whose element holds the decimal form of `v` reads as `v`. */
  lemma ScoringIntOf(m: map<string, string>, prefix: string, id: int, v: int)
    requires DetailsId(prefix, Some(id)) in m && m[DetailsId(prefix, Some(id))] == IntText(v)
    ensures ScoringInt(Some(m), prefix, Some(id)) == Some(v)
  {
    NumberTextRoundTrip(Some(v));
  }

  /** `cheerio('tr:nth-of-type(n)', element)[0]`: the `n`-th row, if any. */
  function RowAt(rows: seq<Row>, n: nat): (row: Option<Row>)
    ensures row.Some? <==> 1 <= n <= |rows|
  {
    if 1 <= n <= |rows| then Some(rows[n - 1]) else None
  }

  /** `parseMatchup`: the home team (second row) is parsed first, then the
      away team (first row), both against the same details element. */
  function ParseMatchup(b: Block): (m: Result<Matchup>)
    ensures m.Ok? ==> |b.rows| >= 2
  {
    match ParseMatchupTeam(RowAt(b.rows, 2), b.details)
    case Err(f) => Err(f)
    case Ok(home) =>
      match ParseMatchupTeam(RowAt(b.rows, 1), b.details)
      case Err(f) => Err(f)
      case Ok(away) => Ok(Matchup(home, away))
  }

  /** A block with fewer than two rows fails; a parsed matchup has the
      second row as home team and the first as away team, both read
      against the block's details element. */
  lemma MatchupRows(b: Block)
    ensures |b.rows| < 2 ==> ParseMatchup(b) == Err(MissingTeamRow)
    ensures ParseMatchup(b).Ok? ==>
      ParseMatchupTeam(Some(b.rows[1]), b.details) == Ok(ParseMatchup(b).value.home_team)
      && ParseMatchupTeam(Some(b.rows[0]), b.details) == Ok(ParseMatchup(b).value.away_team)
  {
  }

  // ---------------------------------------------------------------------
  // All matchups

  /** The outcome of parsing each block. */
  function Outcomes(blocks: seq<Block>): (rs: seq<Result<Matchup>>)
    ensures |rs| == |blocks|
    ensures forall i :: 0 <= i < |blocks| ==> rs[i] == ParseMatchup(blocks[i])
  {
    seq(|blocks|, i requires 0 <= i < |blocks| => ParseMatchup(blocks[i]))
  }

  /** Every value in order, or the first fault: a `result.push` loop whose
      body may throw. */
  function AllOk(rs: seq<Result<Matchup>>): Result<seq<Matchup>>
  {
    if rs == [] then Ok([])
    else
      match rs[0]
      case Err(f) => Err(f)
      case Ok(m) =>
        match AllOk(rs[1..])
        case Err(f) => Err(f)
        case Ok(ms) => Ok([m] + ms)
  }

  /** Collecting succeeds exactly when every outcome is a value, and then
      holds those values in order; otherwise its fault is the first one. */
  lemma {:induction false} AllOkMeaning(rs: seq<Result<Matchup>>)
    ensures AllOk(rs).Ok? <==> forall i :: 0 <= i < |rs| ==> rs[i].Ok?
    ensures AllOk(rs).Ok? ==>
      |AllOk(rs).value| == |rs| && forall i :: 0 <= i < |rs| ==> rs[i] == Ok(AllOk(rs).value[i])
    ensures AllOk(rs).Err? ==>
      exists i :: 0 <= i < |rs| && rs[i] == Err(AllOk(rs).fault) && forall j :: 0 <= j < i ==> rs[j].Ok?
  {
    if rs != [] {
      var tail := rs[1..];
      AllOkMeaning(tail);
      assert forall i :: 1 <= i < |rs| ==> rs[i] == tail[i - 1];
      match rs[0]
      case Err(f) =>
        assert rs[0] == Err(AllOk(rs).fault);
      case Ok(m) =>
        match AllOk(tail)
        case Err(f) =>
          var i :| 0 <= i < |tail| && tail[i] == Err(f) && forall j :: 0 <= j < i ==> tail[j].Ok?;
          assert rs[i + 1] == Err(f);
        case Ok(ms) =>
          assert AllOk(rs).value == [m] + ms;
    }
  }

  /** `ms` followed by what `r` carries, or `r`'s fault. */
  function Prepend(ms: seq<Matchup>, r: Result<seq<Matchup>>): Result<seq<Matchup>>
  {
    match r
    case Err(f) => Err(f)
    case Ok(rest) => Ok(ms + rest)
  }

  /** One step of the collecting loop at position `i`. */
  lemma AllOkStep(ms: seq<Matchup>, rs: seq<Result<Matchup>>, i: nat)
    requires i < |rs|
    ensures Prepend(ms, AllOk(rs[i..])) ==
      match rs[i]
      case Err(f) => Err(f)
      case Ok(m) => Prepend(ms + [m], AllOk(rs[i + 1..]))
  {
    assert rs[i..][0] == rs[i] && rs[i..][1..] == rs[i + 1..];
    match rs[i]
    case Err(f) =>
    case Ok(m) =>
      match AllOk(rs[i + 1..])
      case Err(f) =>
      case Ok(rest) =>
        assert ms + ([m] + rest) == (ms + [m]) + rest;
  }

  /** `ScoreboardParser.parse`, as a value: null when there is no matchup
      block. */
  function ParseScope(selector: Scope): Result<Option<seq<Matchup>>>
  {
    if selector.matchupBlocks == [] then Ok(None)
    else
      match AllOk(Outcomes(selector.matchupBlocks))
      case Err(f) => Err(f)
      case Ok(ms) => Ok(Some(ms))
  }

  /** `ScoreboardParser.parse`. */
  method Parse(selector: Scope) returns (result: Result<Option<seq<Matchup>>>)
    ensures result == ParseScope(selector)
    ensures result == Ok(None) <==> selector.matchupBlocks == []
  {
    var blocks := selector.matchupBlocks;
    if blocks == [] {
      return Ok(None);
    }
    ghost var rs := Outcomes(blocks);
    var matchups := [];
    var i := 0;
    assert rs[i..] == rs;
    match AllOk(rs) {
      case Err(f) =>
      case Ok(all) => assert [] + all == all;
    }
    while i < |blocks|
      invariant 0 <= i <= |blocks|
      invariant AllOk(rs) == Prepend(matchups, AllOk(rs[i..]))
    {
      AllOkStep(matchups, rs, i);
      var m := ParseMatchup(blocks[i]);
      if m.Err? {
        return Err(m.fault);
      }
      matchups := matchups + [m.value];
      i := i + 1;
    }
    assert AllOk(rs[i..]) == Ok([]);
    assert matchups + [] == matchups;
    return Ok(Some(matchups));
  }

  /** When every block parses, there is one matchup per block, in the same
      order. */
  lemma ParseEveryBlock(selector: Scope)
    requires selector.matchupBlocks != []
    requires forall i :: 0 <= i < |selector.matchupBlocks| ==> ParseMatchup(selector.matchupBlocks[i]).Ok?
    ensures ParseScope(selector).Ok? && ParseScope(selector).value.Some?
    ensures var ms := ParseScope(selector).value.value;
      |ms| == |selector.matchupBlocks|
      && forall i :: 0 <= i < |ms| ==> Ok(ms[i]) == ParseMatchup(selector.matchupBlocks[i])
  {
    AllOkMeaning(Outcomes(selector.matchupBlocks));
  }

  /** A block with fewer than two rows makes the whole parse fail. */
  lemma ShortBlockFails(selector: Scope, k: nat)
    requires k < |selector.matchupBlocks| && |selector.matchupBlocks[k].rows| < 2
    ensures ParseScope(selector).Err?
  {
    var rs := Outcomes(selector.matchupBlocks);
    MatchupRows(selector.matchupBlocks[k]);
    assert rs[k].Err?;
    AllOkMeaning(rs);
  }
}
