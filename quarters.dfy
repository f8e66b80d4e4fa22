/**
 * `scrape_quarter_scores`: the per-quarter scores of the two teams of a game,
 * read from the rows of the page's results table.
 */
module Quarters {
  import opened Wrappers
  import opened Text
  import opened Page
  import TeamNames

  /** One record of the quarters file: a team's score and its opponent's in one quarter. */
  datatype QuarterRecord = QuarterRecord(gameId: string, team: string, opponent: string, quarter: string, score: nat, scoreAgainst: nat)

  const QuarterNames: seq<string> := ["Q1", "Q2", "Q3", "Q4"]

  /** The cell classes the four quarter scores are read from, in quarter order. */
  const QuarterClasses: seq<string> := ["data-one", "data-two", "data-three", "data-four"]

  /**
   * The team a results row names, when it has a `data-name` cell: the text
   * of the cell's link, or of the cell when it has none, stripped and
   * resolved through the team mapping.
   */
  function RowTeam(row: Row, mapping: map<string, string>): Option<string> {
    match FindCell(row.cells, "data-name")
    case None => None
    case Some(c) =>
      var raw := if c.link.Some? then Strip(c.link.value.text) else Strip(c.text);
      Some(TeamNames.NormalizeTeamName(raw, mapping))
  }

  /** The teams named by the rows, in row order; rows without a name cell contribute nothing. */
  function TeamsOf(rows: seq<Row>, mapping: map<string, string>): (teams: seq<string>)
    ensures |teams| <= |rows|
  {
    if rows == [] then []
    else
      var teams := TeamsOf(rows[..|rows| - 1], mapping);
      match RowTeam(rows[|rows| - 1], mapping)
      case Some(t) => teams + [t]
      case None => teams
  }

  /**
   * The score a row shows in quarter `q` (0 to 3): the stripped text of its
   * quarter cell read as digits; a missing cell reads as '0', and text that
   * is not all digits as 0.
   */
  function QuarterScore(row: Row, q: nat): nat
    requires q < 4
  {
    match FindCell(row.cells, QuarterClasses[q])
    case None => 0
    case Some(c) => CoerceInt(Strip(c.text))
  }

  /** The four records of one team: its row's scores against the opponent row's scores. */
  function RowRecords(gameId: string, team: string, opponent: string, row: Row, opponentRow: Row): seq<QuarterRecord> {
    seq(4, q requires 0 <= q < 4 => QuarterRecord(gameId, team, opponent, QuarterNames[q], QuarterScore(row, q), QuarterScore(opponentRow, q)))
  }

  /**
   * What `scrape_quarter_scores` returns for the rows of the results table
   * (None when the table or its body is missing). Nothing unless exactly two
   * rows name a team; then the first two rows, paired with those two names.
   * A third row makes `teams[2]` raise, which the function catches by
   * returning the eight records already collected.
   */
  function QuartersOf(results: Option<seq<Row>>, gameId: string, mapping: map<string, string>): seq<QuarterRecord> {
    match results
    case None => []
    case Some(rows) =>
      var teams := TeamsOf(rows, mapping);
      if |teams| != 2 then []
      else RowRecords(gameId, teams[0], teams[1], rows[0], rows[1]) + RowRecords(gameId, teams[1], teams[0], rows[1], rows[0])
  }

  /** The result is empty or holds exactly eight records, and the latter exactly when two rows name a team. */
  lemma QuartersShape(results: Option<seq<Row>>, gameId: string, mapping: map<string, string>)
    ensures var r := QuartersOf(results, gameId, mapping);
      (|r| == 0 || |r| == 8) &&
      (|r| == 8 <==> results.Some? && |TeamsOf(results.value, mapping)| == 2)
  {
  }

  /**
   * The two teams' records mirror each other: in each quarter the first
   * team's score is the second's score against, and the other way round,
   * and each team is the other's opponent. Every record is of this game.
   */
  lemma QuartersMirror(results: Option<seq<Row>>, gameId: string, mapping: map<string, string>)
    ensures var r := QuartersOf(results, gameId, mapping);
      |r| == 8 ==> forall q :: 0 <= q < 4 ==>
        r[q].quarter == r[q + 4].quarter == QuarterNames[q] &&
        r[q].score == r[q + 4].scoreAgainst && r[q].scoreAgainst == r[q + 4].score &&
        r[q].team == r[q + 4].opponent && r[q].opponent == r[q + 4].team
    ensures forall k :: 0 <= k < |QuartersOf(results, gameId, mapping)| ==> QuartersOf(results, gameId, mapping)[k].gameId == gameId
  {
  }

  /** The name loop of `scrape_quarter_scores`. */
  method CollectTeams(rows: seq<Row>, mapping: map<string, string>) returns (teams: seq<string>)
    ensures teams == TeamsOf(rows, mapping)
  {
    teams := [];
    for i := 0 to |rows|
      invariant teams == TeamsOf(rows[..i], mapping)
    {
      assert rows[..i + 1][..i] == rows[..i];
      var team := RowTeam(rows[i], mapping);
      if team.Some? {
        teams := teams + [team.value];
      }
    }
    assert rows[..|rows|] == rows;
  }

  /** The quarter loop for one row: its four records appended to `data`. */
  method AppendRowRecords(data: seq<QuarterRecord>, gameId: string, team: string, opponent: string, row: Row, opponentRow: Row)
    returns (r: seq<QuarterRecord>)
    ensures r == data + RowRecords(gameId, team, opponent, row, opponentRow)
  {
    r := data;
    for q := 0 to 4
      invariant r == data + RowRecords(gameId, team, opponent, row, opponentRow)[..q]
    {
      r := r + [QuarterRecord(gameId, team, opponent, QuarterNames[q], QuarterScore(row, q), QuarterScore(opponentRow, q))];
    }
  }

  /** `scrape_quarter_scores`: the name loop, then the row loop that stops where `teams[idx]` raises. */
  method ScrapeQuarterScores(results: Option<seq<Row>>, gameId: string, mapping: map<string, string>) returns (data: seq<QuarterRecord>)
    ensures data == QuartersOf(results, gameId, mapping)
  {
    data := [];
    if results.None? {
      return;
    }
    var rows := results.value;
    var teams := CollectTeams(rows, mapping);
    if |teams| != 2 {
      return;
    }
    ghost var first := RowRecords(gameId, teams[0], teams[1], rows[0], rows[1]);
    ghost var second := RowRecords(gameId, teams[1], teams[0], rows[1], rows[0]);
    var idx := 0;
    while idx < |rows|
      invariant 0 <= idx <= 2 && idx <= |rows|
      invariant idx == 0 ==> data == []
      invariant idx == 1 ==> data == first
      invariant idx == 2 ==> data == first + second
    {
      if idx >= |teams| {
        // `teams[idx]` raises IndexError; the handler returns what was collected.
        break;
      }
      data := AppendRowRecords(data, gameId, teams[idx], teams[1 - idx], rows[idx], rows[1 - idx]);
      idx := idx + 1;
    }
  }
}
