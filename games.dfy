/**
 * The game-details step: the league id read from the schedule's export
 * link, the games of the schedule still to be fetched (`scrape_all_games`
 * with `load_existing_game_ids`), and the per-game details gathered from
 * the fetched pages (`scrape_game_details`).
 */
module Games {
  import opened Wrappers
  import opened Text
  import opened Records
  import opened Page
  import Quarters
  import PlayerStats
  import TeamStats

  const LeagueKey: string := "league_id="

  /**
   * `href.split('league_id=')[1].split('&')[0]` for the export link's
   * `href` (None when there is no link or it has no `href`): the text
   * after the first `league_id=`, up to the next `league_id=` or `&`;
   * None when the `href` does not contain `league_id=`.
   */
  function LeagueId(href: Option<string>): (r: Option<string>)
    ensures r.None? <==> href.None? || !Contains(href.value, LeagueKey)
  {
    if href.None? then None
    else
      match Find(href.value, LeagueKey)
      case None => None
      case Some(i) =>
        var after := href.value[i + |LeagueKey|..];
        var piece := match Find(after, LeagueKey) case None => after case Some(j) => after[..j];
        Some(Split(piece, '&')[0])
  }

  /** The first piece of `a + [sep] + b` split on `sep` is `a`, when `a` has no `sep`. */
  lemma SplitHead(a: string, sep: char, b: string)
    requires sep !in a
    ensures Split(a + [sep] + b, sep)[0] == a
  {
    var s := a + [sep] + b;
    assert s[|a|] == sep && s[..|a|] == a;
    assert FirstIndex(s, sep) == |a|;
  }

  /** No occurrence of `league_id=` starts before `|prefix|` in `prefix + league_id=...` when `prefix` has no `=`. */
  lemma NoEarlierKey(prefix: string, tail: string, j: nat)
    requires '=' !in prefix && j < |prefix|
    ensures !OccursAt(prefix + LeagueKey + tail, LeagueKey, j)
  {
    var s := prefix + LeagueKey + tail;
    if j + |LeagueKey| <= |s| {
      var w := s[j..j + |LeagueKey|];
      if j + 9 < |prefix| {
        assert w[9] == prefix[j + 9];
      } else {
        assert w[9] == LeagueKey[j + 9 - |prefix|];
      }
    }
  }

  /** An id with neither `=` nor `&` ends at the `&` after it. */
  lemma NoKeyBeforeAmp(id: string, rest: string, j: nat)
    requires '=' !in id && '&' !in id && j <= |id|
    ensures !OccursAt(id + "&" + rest, LeagueKey, j)
  {
    var s := id + "&" + rest;
    if j + |LeagueKey| <= |s| {
      var w := s[j..j + |LeagueKey|];
      if j + 9 < |id| {
        assert w[9] == id[j + 9];
      } else {
        assert w[|id| - j] == '&';
      }
    }
  }

  /**
   * Reading the id back from a link that names it: for
   * `prefix + "league_id=" + id + "&" + rest`, the id, as long as `prefix`
   * has no `=` and `id` has neither `=` nor `&`.
   */
  lemma LeagueIdOfLink(prefix: string, id: string, rest: string)
    requires '=' !in prefix && '=' !in id && '&' !in id
    ensures LeagueId(Some(prefix + LeagueKey + id + "&" + rest)) == Some(id)
  {
    var href := prefix + LeagueKey + id + "&" + rest;
    assert href == prefix + LeagueKey + (id + "&" + rest);
    assert OccursAt(href, LeagueKey, |prefix|) by {
      assert href[|prefix|..|prefix| + |LeagueKey|] == LeagueKey;
    }
    forall j: nat | j < |prefix| ensures !OccursAt(href, LeagueKey, j) {
      NoEarlierKey(prefix, id + "&" + rest, j);
    }
    assert Find(href, LeagueKey) == Some(|prefix|);
    var after := href[|prefix| + |LeagueKey|..];
    assert after == id + "&" + rest;
    forall j: nat | j <= |id| ensures !OccursAt(after, LeagueKey, j) {
      NoKeyBeforeAmp(id, rest, j);
    }
    var piece := match Find(after, LeagueKey) case None => after case Some(j) => after[..j];
    assert piece == id + "&" + piece[|id| + 1..] by {
      if Find(after, LeagueKey).Some? {
        var j := Find(after, LeagueKey).value;
        assert j > |id|;
      }
    }
    SplitHead(id, '&', piece[|id| + 1..]);
  }

  /** `load_existing_game_ids`: the ids of the stored quarters table's `game_id` column (None when it cannot be read). */
  function ExistingIds(stored: Option<seq<string>>): (r: set<string>)
    ensures stored.None? ==> r == {}
    ensures stored.Some? ==> forall id :: id in r <==> id in stored.value
  {
    if stored.None? then {} else set id | id in stored.value
  }

  /** A schedule `Code` cell: missing, a float (given by `int(code)`), an int, or text. */
  datatype Code = Missing | FloatCode(whole: int) | IntCode(n: int) | TextCode(s: string)

  /** One row of the schedule: its `Home Score` cell (None when NA, text otherwise) and its `Code`. */
  datatype ScheduleRow = ScheduleRow(homeScore: Option<string>, code: Code)

  /** The schedule: whether it has a `Home Score` column, and its rows in order. */
  datatype Schedule = Schedule(hasHomeScore: bool, rows: seq<ScheduleRow>)

  /** A game is completed when its home score is neither NA nor empty. */
  predicate Completed(row: ScheduleRow) {
    row.homeScore.Some? && row.homeScore.value != ""
  }

  /** The game's id string: `str(int(code))` for a float, `str(code)` otherwise; None for a missing code. */
  function GameId(code: Code): (r: Option<string>)
    ensures r.None? <==> code.Missing?
    ensures code.IntCode? ==> r == Some(IntToString(code.n))
    ensures code.FloatCode? ==> r == Some(IntToString(code.whole))
    ensures code.TextCode? ==> r == Some(code.s)
  {
    match code
    case Missing => None
    case FloatCode(whole) => Some(IntToString(whole))
    case IntCode(n) => Some(IntToString(n))
    case TextCode(s) => Some(s)
  }

  /** The id a schedule row asks to be fetched, if it is completed, has a code and is not stored yet. */
  function Pending(row: ScheduleRow, existing: set<string>): Option<string> {
    if !Completed(row) then None
    else
      match GameId(row.code)
      case None => None
      case Some(id) => if id in existing then None else Some(id)
  }

  /** The ids to fetch, in schedule order. */
  function ToScrape(rows: seq<ScheduleRow>, existing: set<string>): (ids: seq<string>)
    ensures |ids| <= |rows|
  {
    if rows == [] then []
    else
      var ids := ToScrape(rows[..|rows| - 1], existing);
      match Pending(rows[|rows| - 1], existing)
      case None => ids
      case Some(id) => ids + [id]
  }

  /**
   * An id is fetched exactly when some completed row with a code names it
   * and it is not stored yet.
   */
  lemma {:induction false} ToScrapeMembers(rows: seq<ScheduleRow>, existing: set<string>, id: string)
    ensures id in ToScrape(rows, existing) <==>
      id !in existing && exists i :: 0 <= i < |rows| && Completed(rows[i]) && GameId(rows[i].code) == Some(id)
  {
    if rows != [] {
      var init := rows[..|rows| - 1];
      ToScrapeMembers(init, existing, id);
      assert forall i :: 0 <= i < |init| ==> init[i] == rows[i];
      if id !in existing && exists i :: 0 <= i < |rows| && Completed(rows[i]) && GameId(rows[i].code) == Some(id) {
        var i :| 0 <= i < |rows| && Completed(rows[i]) && GameId(rows[i].code) == Some(id);
        if i < |init| {
          assert Completed(init[i]) && GameId(init[i].code) == Some(id);
        }
      }
    }
  }

  /** The delta of a delta is empty: once the scheduled ids are stored, nothing is left to fetch. */
  lemma ToScrapeSettles(rows: seq<ScheduleRow>, existing: set<string>)
    ensures ToScrape(rows, existing + set id | id in ToScrape(rows, existing)) == []
  {
    var later := existing + set id | id in ToScrape(rows, existing);
    if ToScrape(rows, later) != [] {
      var id := ToScrape(rows, later)[0];
      ToScrapeMembers(rows, later, id);
      ToScrapeMembers(rows, existing, id);
    }
  }

  /** The delta of a schedule in two parts is the delta of the first part followed by that of the second. */
  lemma {:induction false} ToScrapeAppend(rows: seq<ScheduleRow>, more: seq<ScheduleRow>, existing: set<string>)
    ensures ToScrape(rows + more, existing) == ToScrape(rows, existing) + ToScrape(more, existing)
    decreases |more|
  {
    if more == [] {
      assert rows + more == rows;
    } else {
      var init := more[..|more| - 1];
      assert (rows + more)[..|rows + more| - 1] == rows + init;
      assert (rows + more)[|rows + more| - 1] == more[|more| - 1];
      ToScrapeAppend(rows, init, existing);
    }
  }

  /** Storing more ids never schedules more games. */
  lemma ToScrapeShrinks(rows: seq<ScheduleRow>, existing: set<string>, more: set<string>, id: string)
    requires existing <= more
    ensures id in ToScrape(rows, more) ==> id in ToScrape(rows, existing)
  {
    ToScrapeMembers(rows, more, id);
    ToScrapeMembers(rows, existing, id);
  }

  /** What fetching one game gives: its quarters, player rows and team rows; nothing without a page; or an exception. */
  datatype Outcome = Details(quarters: seq<Quarters.QuarterRecord>, players: seq<Dict>, teams: seq<Dict>) | NoPage | Failed

  /**
   * `scrape_game_details` AS WRITTEN: without a page it returns three
   * Nones; with one, its call of `scrape_team_stats` passes three
   * arguments to a function of two, and the TypeError escapes.
   */
  function GameDetailsAsWritten(id: string, pages: map<string, GamePage>): Outcome {
    if id in pages then Failed else NoPage
  }

  /** `scrape_game_details` with `scrape_team_stats` called with the page and the id. */
  function GameDetails(id: string, pages: map<string, GamePage>, mapping: map<string, string>): Outcome {
    if id !in pages then NoPage
    else
      var page := pages[id];
      Details(Quarters.QuartersOf(page.results, id, mapping),
              PlayerStats.PlayerStatsOf(page.sections, id, mapping),
              TeamStats.TeamStatsOf(page.sections, id))
  }

  /** The outcome of each game to fetch, in order. */
  function Outcomes(ids: seq<string>, pages: map<string, GamePage>, mapping: map<string, string>): (r: seq<Outcome>)
    ensures |r| == |ids|
  {
    if ids == [] then [] else Outcomes(ids[..|ids| - 1], pages, mapping) + [GameDetails(ids[|ids| - 1], pages, mapping)]
  }

  /** `Outcomes` lists each game's outcome in order. */
  lemma {:induction false} OutcomesAt(ids: seq<string>, pages: map<string, GamePage>, mapping: map<string, string>, i: nat)
    requires i < |ids|
    ensures Outcomes(ids, pages, mapping)[i] == GameDetails(ids[i], pages, mapping)
  {
    if i < |ids| - 1 {
      OutcomesAt(ids[..|ids| - 1], pages, mapping, i);
    }
  }

  /** What the game loop accumulates: the quarters, player rows and team rows of every game. */
  datatype Gathered = Gathered(quarters: seq<Quarters.QuarterRecord>, players: seq<Dict>, teams: seq<Dict>)

  /** The first `n` outcomes gathered: details are appended, and a game that fails is skipped. */
  function Gather(outcomes: seq<Outcome>, n: nat): Gathered
    requires n <= |outcomes|
  {
    if n == 0 then Gathered([], [], [])
    else
      var g := Gather(outcomes, n - 1);
      match outcomes[n - 1]
      case Details(q, p, t) => Gathered(g.quarters + q, g.players + p, g.teams + t)
      case NoPage => g
      case Failed => g
  }

  /** What `scrape_all_games` returns and gathers for persisting. */
  datatype Run = Run(ok: bool, gathered: Gathered)

  /** `scrape_all_games`, with `scrape_game_details` as corrected. */
  function ScrapeAll(schedule: Schedule, stored: Option<seq<string>>, pages: map<string, GamePage>, mapping: map<string, string>): Run {
    if !schedule.hasHomeScore then Run(false, Gathered([], [], []))
    else
      var ids := ToScrape(schedule.rows, ExistingIds(stored));
      Run(true, Gather(Outcomes(ids, pages, mapping), |ids|))
  }

  /** `scrape_all_games` as written: the details of every game are computed by `GameDetailsAsWritten`. */
  function ScrapeAllAsWritten(schedule: Schedule, stored: Option<seq<string>>, pages: map<string, GamePage>): Run {
    if !schedule.hasHomeScore then Run(false, Gathered([], [], []))
    else
      var ids := ToScrape(schedule.rows, ExistingIds(stored));
      Run(true, Gather(seq(|ids|, i requires 0 <= i < |ids| => GameDetailsAsWritten(ids[i], pages)), |ids|))
  }

  /** A fold over outcomes none of which has details gathers nothing. */
  lemma {:induction false} GatherNothing(outcomes: seq<Outcome>, n: nat)
    requires n <= |outcomes| && forall i :: 0 <= i < n ==> !outcomes[i].Details?
    ensures Gather(outcomes, n) == Gathered([], [], [])
  {
    if n > 0 {
      GatherNothing(outcomes, n - 1);
    }
  }

  /**
   * As written, the run gathers nothing at all, whatever the schedule and
   * the pages: no quarters, player rows or team rows are ever persisted.
   */
  lemma AsWrittenGathersNothing(schedule: Schedule, stored: Option<seq<string>>, pages: map<string, GamePage>)
    ensures ScrapeAllAsWritten(schedule, stored, pages).gathered == Gathered([], [], [])
  {
    if schedule.hasHomeScore {
      var ids := ToScrape(schedule.rows, ExistingIds(stored));
      GatherNothing(seq(|ids|, i requires 0 <= i < |ids| => GameDetailsAsWritten(ids[i], pages)), |ids|);
    }
  }

  /** Every quarter record gathered is of a game the fold saw. */
  lemma {:induction false} GatherQuarterIds(ids: seq<string>, pages: map<string, GamePage>, mapping: map<string, string>, n: nat)
    requires n <= |ids|
    ensures forall k :: 0 <= k < |Gather(Outcomes(ids, pages, mapping), n).quarters| ==>
      Gather(Outcomes(ids, pages, mapping), n).quarters[k].gameId in ids[..n]
  {
    var outcomes := Outcomes(ids, pages, mapping);
    if n > 0 {
      GatherQuarterIds(ids, pages, mapping, n - 1);
      OutcomesAt(ids, pages, mapping, n - 1);
      var g := Gather(outcomes, n - 1);
      var id := ids[n - 1];
      assert forall x :: x in ids[..n - 1] ==> x in ids[..n];
      if id in pages {
        var q := Quarters.QuartersOf(pages[id].results, id, mapping);
        Quarters.QuartersMirror(pages[id].results, id, mapping);
        assert id == ids[..n][n - 1];
        forall k | 0 <= k < |g.quarters + q| ensures (g.quarters + q)[k].gameId in ids[..n] {
          if k >= |g.quarters| {
            assert (g.quarters + q)[k] == q[k - |g.quarters|];
          }
        }
      }
    }
  }

  /**
   * The corrected run gathers quarters only for games it was asked to
   * fetch: none of them is of a game already stored, so appending them
   * never duplicates a stored game.
   */
  lemma QuartersAreNew(schedule: Schedule, stored: Option<seq<string>>, pages: map<string, GamePage>, mapping: map<string, string>)
    ensures forall r :: r in ScrapeAll(schedule, stored, pages, mapping).gathered.quarters ==> r.gameId !in ExistingIds(stored)
  {
    if schedule.hasHomeScore {
      var ids := ToScrape(schedule.rows, ExistingIds(stored));
      GatherQuarterIds(ids, pages, mapping, |ids|);
      assert ids[..|ids|] == ids;
      forall r | r in ScrapeAll(schedule, stored, pages, mapping).gathered.quarters ensures r.gameId !in ExistingIds(stored) {
        ToScrapeMembers(schedule.rows, ExistingIds(stored), r.gameId);
      }
    }
  }

  /** The details of a fetched game hold the quarters of its page. */
  lemma GameDetailsQuarters(id: string, pages: map<string, GamePage>, mapping: map<string, string>)
    requires id in pages
    ensures GameDetails(id, pages, mapping).Details?
    ensures GameDetails(id, pages, mapping).quarters == Quarters.QuartersOf(pages[id].results, id, mapping)
  {
  }

  /** Everything a game with details contributes is gathered. */
  lemma {:induction false} GatherKeeps(outcomes: seq<Outcome>, n: nat, i: nat)
    requires i < n <= |outcomes| && outcomes[i].Details?
    ensures forall r :: r in outcomes[i].quarters ==> r in Gather(outcomes, n).quarters
    ensures forall r :: r in outcomes[i].players ==> r in Gather(outcomes, n).players
    ensures forall r :: r in outcomes[i].teams ==> r in Gather(outcomes, n).teams
  {
    if i < n - 1 {
      GatherKeeps(outcomes, n - 1, i);
    }
  }

  /**
   * Where the two runs part: every quarter record of a scheduled game's
   * page is gathered by the corrected run, while the run as written
   * gathers none.
   */
  lemma PagedGameIsLost(schedule: Schedule, stored: Option<seq<string>>, pages: map<string, GamePage>, mapping: map<string, string>, i: nat)
    requires schedule.hasHomeScore
    requires i < |ToScrape(schedule.rows, ExistingIds(stored))|
    requires ToScrape(schedule.rows, ExistingIds(stored))[i] in pages
    ensures var id := ToScrape(schedule.rows, ExistingIds(stored))[i];
      forall r :: r in Quarters.QuartersOf(pages[id].results, id, mapping) ==> r in ScrapeAll(schedule, stored, pages, mapping).gathered.quarters
    ensures ScrapeAllAsWritten(schedule, stored, pages).gathered.quarters == []
  {
    var ids := ToScrape(schedule.rows, ExistingIds(stored));
    var outcomes := Outcomes(ids, pages, mapping);
    OutcomesAt(ids, pages, mapping, i);
    GameDetailsQuarters(ids[i], pages, mapping);
    GatherKeeps(outcomes, |ids|, i);
    AsWrittenGathersNothing(schedule, stored, pages);
  }

  /** `extract_league_id` once the export link is found. */
  method ExtractLeagueId(href: Option<string>) returns (id: Option<string>)
    ensures id == LeagueId(href)
  {
    if href.None? {
      return None;
    }
    var h := href.value;
    var at := Find(h, LeagueKey);
    if at.None? {
      return None;
    }
    var after := h[at.value + |LeagueKey|..];
    var next := Find(after, LeagueKey);
    var piece := if next.None? then after else after[..next.value];
    id := Some(Split(piece, '&')[0]);
  }

  /** The loop of `scrape_all_games` that builds `games_to_scrape`. */
  method GamesToScrape(rows: seq<ScheduleRow>, existing: set<string>) returns (ids: seq<string>)
    ensures ids == ToScrape(rows, existing)
  {
    ids := [];
    for i := 0 to |rows|
      invariant ids == ToScrape(rows[..i], existing)
    {
      assert rows[..i + 1][..i] == rows[..i];
      var row := rows[i];
      if !Completed(row) {
        continue;
      }
      var id := GameId(row.code);
      if id.None? {
        continue;
      }
      if id.value !in existing {
        ids := ids + [id.value];
      }
    }
    assert rows[..|rows|] == rows;
  }

  /** `scrape_game_details`, corrected: the three extractors run on the fetched page. */
  method ScrapeGameDetails(id: string, pages: map<string, GamePage>, mapping: map<string, string>) returns (o: Outcome)
    ensures o == GameDetails(id, pages, mapping)
  {
    if id !in pages {
      return NoPage;
    }
    var page := pages[id];
    var quarters := Quarters.ScrapeQuarterScores(page.results, id, mapping);
    var players := PlayerStats.ScrapePlayerStats(page.sections, id, mapping);
    var teams := TeamStats.ScrapeTeamStats(page.sections, id);
    o := Details(quarters, players, teams);
  }

  /** One step of the game loop. */
  method ScrapeGameAt(ids: seq<string>, i: nat, pages: map<string, GamePage>, mapping: map<string, string>) returns (o: Outcome)
    requires i < |ids|
    ensures o == Outcomes(ids, pages, mapping)[i]
  {
    o := ScrapeGameDetails(ids[i], pages, mapping);
    OutcomesAt(ids, pages, mapping, i);
  }

  /** `scrape_all_games`, corrected: the delta, then the game loop gathering every game's details. */
  method ScrapeAllGames(schedule: Schedule, stored: Option<seq<string>>, pages: map<string, GamePage>, mapping: map<string, string>)
    returns (run: Run)
    ensures run == ScrapeAll(schedule, stored, pages, mapping)
  {
    if !schedule.hasHomeScore {
      return Run(false, Gathered([], [], []));
    }
    var existing := ExistingIds(stored);
    var ids := GamesToScrape(schedule.rows, existing);
    ghost var outcomes := Outcomes(ids, pages, mapping);
    var g := Gathered([], [], []);
    for i := 0 to |ids|
      invariant g == Gather(outcomes, i)
    {
      var o := ScrapeGameAt(ids, i, pages, mapping);
      if o.Details? {
        g := Gathered(g.quarters + o.quarters, g.players + o.players, g.teams + o.teams);
      }
    }
    run := Run(true, g);
  }
}
