/**
 * `calculate_averages`, the parts that are not floating point: the game
 * counts of the player and team averages, and the pairing of the two teams
 * of each game into the rows the opponent averages are taken over.
 */
module Aggregation {
  import opened Wrappers
  import opened Text
  import opened Records

  /** `groupby(['player_name', 'team'])` or `groupby('team')`. */
  datatype Grouping = ByPlayer | ByTeam

  /**
   * The group a row belongs to; a row missing one of the grouping keys
   * belongs to none (pandas drops such rows from a groupby).
   */
  function GroupKey(row: Dict, g: Grouping): Option<seq<Value>> {
    match g
    case ByPlayer =>
      if "player_name" in row && "team" in row then Some([row["player_name"], row["team"]]) else None
    case ByTeam =>
      if "team" in row then Some([row["team"]]) else None
  }

  /** The row counts toward `games_played` of `key`: it is in the group and has a game id. */
  predicate PlayedIn(row: Dict, g: Grouping, key: seq<Value>) {
    GroupKey(row, g) == Some(key) && "game_id" in row
  }

  /** `games_played`: the `count` of `game_id` over the group, which skips missing ids. */
  function GamesPlayed(rows: seq<Dict>, g: Grouping, key: seq<Value>): (n: nat)
    ensures n <= |rows|
  {
    if rows == [] then 0
    else (if PlayedIn(rows[0], g, key) then 1 else 0) + GamesPlayed(rows[1..], g, key)
  }

  /**
   * What `pd.to_numeric(errors='coerce')` makes of a `starter` cell for the
   * `sum`: its number, or nothing (a missing value the sum skips) for a
   * missing cell or text that is not a number.
   */
  function StarterCount(row: Dict): int {
    match Get(row, "starter")
    case Some(Int(n)) => n
    case Some(Str(s)) => if IsDigits(s) then DigitsValue(s) else 0
    case _ => 0
  }

  /** `games_started`: the `sum` of `starter` over a player's group. */
  function GamesStarted(rows: seq<Dict>, key: seq<Value>): int {
    if rows == [] then 0
    else (if GroupKey(rows[0], ByPlayer) == Some(key) then StarterCount(rows[0]) else 0) + GamesStarted(rows[1..], key)
  }

  /** Counting over two files of rows one after the other adds up. */
  lemma {:induction false} GamesPlayedAppend(a: seq<Dict>, b: seq<Dict>, g: Grouping, key: seq<Value>)
    ensures GamesPlayed(a + b, g, key) == GamesPlayed(a, g, key) + GamesPlayed(b, g, key)
  {
    if a == [] {
      assert a + b == b;
    } else {
      assert (a + b)[1..] == a[1..] + b;
      GamesPlayedAppend(a[1..], b, g, key);
    }
  }

  lemma {:induction false} GamesStartedAppend(a: seq<Dict>, b: seq<Dict>, key: seq<Value>)
    ensures GamesStarted(a + b, key) == GamesStarted(a, key) + GamesStarted(b, key)
  {
    if a == [] {
      assert a + b == b;
    } else {
      assert (a + b)[1..] == a[1..] + b;
      GamesStartedAppend(a[1..], b, key);
    }
  }

  /** A group has played a game exactly when one of its rows carries a game id. */
  lemma {:induction false} GamesPlayedPositive(rows: seq<Dict>, g: Grouping, key: seq<Value>)
    ensures GamesPlayed(rows, g, key) > 0 <==> exists i :: 0 <= i < |rows| && PlayedIn(rows[i], g, key)
  {
    if rows != [] {
      GamesPlayedPositive(rows[1..], g, key);
      if PlayedIn(rows[0], g, key) {
      } else {
        assert forall i :: 1 <= i < |rows| ==> rows[i] == rows[1..][i - 1];
        if exists i :: 0 <= i < |rows| && PlayedIn(rows[i], g, key) {
          var i :| 0 <= i < |rows| && PlayedIn(rows[i], g, key);
          assert PlayedIn(rows[1..][i - 1], g, key);
        }
      }
    }
  }

  /**
   * The rows the scraper writes have `starter` 0 or 1 and always a game id;
   * over such rows nobody has started more games than they played.
   */
  predicate StarterFlag(row: Dict) {
    0 <= StarterCount(row) <= 1 && (StarterCount(row) == 1 ==> "game_id" in row)
  }

  lemma {:induction false} StartedAtMostPlayed(rows: seq<Dict>, key: seq<Value>)
    requires forall i :: 0 <= i < |rows| ==> StarterFlag(rows[i])
    ensures 0 <= GamesStarted(rows, key) <= GamesPlayed(rows, ByPlayer, key)
  {
    if rows != [] {
      assert forall i :: 0 <= i < |rows| - 1 ==> rows[1..][i] == rows[i + 1];
      StartedAtMostPlayed(rows[1..], key);
      assert StarterFlag(rows[0]);
    }
  }

  // ---------------------------------------------------------------------
  // Opponent rows
  // ---------------------------------------------------------------------

  /** `numeric_team_cols`: the team columns averaged, and copied into the opponent rows. */
  const NumericTeamCols: seq<string> := [
    "pts", "2ptm", "2pta", "3ptm", "3pta", "fgm", "fga",
    "ftm", "fta", "def", "off", "reb", "pf", "pfa",
    "stl", "to", "ast", "blk", "blka", "rate",
    "second_chance_pts", "bench_pts", "fast_break_pts",
    "points_in_paint", "pts_off_turnovers"]

  const OppPrefix: string := "opp_"

  /** `f"opp_{c}"`. */
  function OppName(c: string): (r: string)
    ensures StartsWith(r, OppPrefix)
  {
    assert (OppPrefix + c)[..|OppPrefix|] == OppPrefix;
    OppPrefix + c
  }

  lemma OppNameInjective(a: string, b: string)
    requires OppName(a) == OppName(b)
    ensures a == b
  {
    assert a == OppName(a)[|OppPrefix|..];
    assert b == OppName(b)[|OppPrefix|..];
  }

  lemma OppNameNotKey(c: string)
    ensures OppName(c) != "team" && OppName(c) != "game_id"
  {
    assert OppName(c)[0] == 'o';
  }

  function GameIdOf(row: Dict): Option<Value> {
    Get(row, "game_id")
  }

  /**
   * `team_df['game_id'].unique()` over the first `n` rows: each game id once,
   * in the order it first appears. A row without a game id would add a
   * missing value that selects no row, so it is left out here.
   */
  function UniqueIds(rows: seq<Dict>, n: nat): seq<Value>
    requires n <= |rows|
  {
    if n == 0 then []
    else
      var ids := UniqueIds(rows, n - 1);
      match GameIdOf(rows[n - 1])
      case None => ids
      case Some(g) => if g in ids then ids else ids + [g]
  }

  /** The ids are distinct, and they are exactly the game ids of the rows. */
  lemma {:induction false} UniqueIdsMembers(rows: seq<Dict>, n: nat)
    requires n <= |rows|
    ensures var ids := UniqueIds(rows, n);
      (forall i, j :: 0 <= i < j < |ids| ==> ids[i] != ids[j]) &&
      (forall g :: g in ids <==> exists i :: 0 <= i < n && GameIdOf(rows[i]) == Some(g))
  {
    if n > 0 {
      UniqueIdsMembers(rows, n - 1);
    }
  }

  /** `team_df[team_df['game_id'] == game_id]`: the rows of one game, in file order. */
  function GameRows(rows: seq<Dict>, g: Value): (r: seq<Dict>)
    ensures |r| <= |rows|
    ensures forall x :: x in r ==> x in rows && GameIdOf(x) == Some(g)
  {
    if rows == [] then []
    else (if GameIdOf(rows[0]) == Some(g) then [rows[0]] else []) + GameRows(rows[1..], g)
  }

  /** A game with an id in the file has at least one row. */
  lemma {:induction false} GameRowsOfId(rows: seq<Dict>, i: nat, g: Value)
    requires i < |rows| && GameIdOf(rows[i]) == Some(g)
    ensures rows[i] in GameRows(rows, g)
  {
    if i > 0 {
      GameRowsOfId(rows[1..], i - 1, g);
    }
  }

  /**
   * The opponent columns of a row after the loop over the first `n` numeric
   * columns: `opp_<c>` holds the other row's `c` for each such column the
   * other row has.
   */
  function WithOpponentStats(d: Dict, other: Dict, cols: seq<string>, n: nat): Dict
    requires n <= |cols|
  {
    if n == 0 then d
    else
      var e := WithOpponentStats(d, other, cols, n - 1);
      var c := cols[n - 1];
      if c in other then e[OppName(c) := other[c]] else e
  }

  /**
   * After the loop, `opp_<c>` holds the other row's `c` when `c` was one of
   * the columns visited and the other row has it; every other key is as it
   * was.
   */
  lemma {:induction false} WithOpponentStatsAt(d: Dict, other: Dict, cols: seq<string>, n: nat, k: string)
    requires n <= |cols|
    ensures Get(WithOpponentStats(d, other, cols, n), k) ==
      if exists c :: c in cols[..n] && c in other && k == OppName(c)
      then Get(other, k[|OppPrefix|..])
      else Get(d, k)
  {
    if n > 0 {
      WithOpponentStatsAt(d, other, cols, n - 1, k);
      var c := cols[n - 1];
      assert cols[..n] == cols[..n - 1] + [c];
      if c in other && k == OppName(c) {
        assert OppName(c)[|OppPrefix|..] == c;
      } else {
        forall b | b in cols[..n] && b in other && k == OppName(b)
          ensures b in cols[..n - 1]
        {
          if b == c {
          }
        }
      }
      if exists b :: b in cols[..n - 1] && b in other && k == OppName(b) {
        var b :| b in cols[..n - 1] && b in other && k == OppName(b);
        assert OppName(b)[|OppPrefix|..] == b;
      }
    }
  }

  /** `{'team': team1['team'], 'game_id': game_id}`. */
  function OpponentBase(row: Dict, g: Value): Dict {
    (if "team" in row then map["team" := row["team"]] else map[])["game_id" := g]
  }

  /** One opponent row: a team's name and game with its opponent's numeric stats as `opp_` columns. */
  function OpponentRow(row: Dict, other: Dict, g: Value): Dict {
    WithOpponentStats(OpponentBase(row, g), other, NumericTeamCols, |NumericTeamCols|)
  }

  /**
   * An opponent row holds the team and the game it was built for, and under
   * `opp_<c>` the other team's value of each numeric column `c` that team's
   * row has; it holds nothing else.
   */
  lemma OpponentRowContents(row: Dict, other: Dict, g: Value)
    ensures var o := OpponentRow(row, other, g);
      Get(o, "team") == Get(row, "team") && Get(o, "game_id") == Some(g) &&
      (forall c :: c in NumericTeamCols ==> Get(o, OppName(c)) == Get(other, c)) &&
      (forall k :: k in o ==> k == "team" || k == "game_id" || exists c :: c in NumericTeamCols && c in other && k == OppName(c))
  {
    var o := OpponentRow(row, other, g);
    var base := OpponentBase(row, g);
    assert NumericTeamCols[..|NumericTeamCols|] == NumericTeamCols;
    forall k | k == "team" || k == "game_id"
      ensures Get(o, k) == Get(base, k)
    {
      WithOpponentStatsAt(base, other, NumericTeamCols, |NumericTeamCols|, k);
      forall c | c in NumericTeamCols
        ensures k != OppName(c)
      {
        OppNameNotKey(c);
      }
    }
    forall c | c in NumericTeamCols
      ensures Get(o, OppName(c)) == Get(other, c)
    {
      WithOpponentStatsAt(base, other, NumericTeamCols, |NumericTeamCols|, OppName(c));
      OppNameNotKey(c);
      assert OppName(c)[|OppPrefix|..] == c;
    }
    forall k | k in o
      ensures k == "team" || k == "game_id" || exists c :: c in NumericTeamCols && c in other && k == OppName(c)
    {
      WithOpponentStatsAt(base, other, NumericTeamCols, |NumericTeamCols|, k);
    }
  }

  /** The pair of opponent rows of one game, or none unless the game has exactly two rows. */
  function GamePair(rows: seq<Dict>, g: Value): seq<Dict> {
    var teams := GameRows(rows, g);
    if |teams| == 2 then [OpponentRow(teams[0], teams[1], g), OpponentRow(teams[1], teams[0], g)] else []
  }

  /** `opponent_stats` after the game loop has visited the first `n` ids. */
  function OpponentStats(rows: seq<Dict>, ids: seq<Value>, n: nat): (r: seq<Dict>)
    requires n <= |ids|
    ensures |r| % 2 == 0
  {
    if n == 0 then [] else OpponentStats(rows, ids, n - 1) + GamePair(rows, ids[n - 1])
  }

  /** `a` and `b` are the two opponent rows of game `g`, which has exactly two team rows. */
  predicate IsGamePair(rows: seq<Dict>, g: Value, a: Dict, b: Dict) {
    var teams := GameRows(rows, g);
    |teams| == 2 && a == OpponentRow(teams[0], teams[1], g) && b == OpponentRow(teams[1], teams[0], g)
  }

  /**
   * Each consecutive pair of opponent rows belongs to one game that has
   * exactly two rows: the first team's row carries the second team's stats
   * and the other way round.
   */
  lemma {:induction false} OpponentStatsPairs(rows: seq<Dict>, ids: seq<Value>, n: nat, k: nat)
    requires n <= |ids|
    requires 2 * k + 1 < |OpponentStats(rows, ids, n)|
    ensures exists j :: 0 <= j < n && IsGamePair(rows, ids[j], OpponentStats(rows, ids, n)[2 * k], OpponentStats(rows, ids, n)[2 * k + 1])
  {
    var before := OpponentStats(rows, ids, n - 1);
    if 2 * k + 1 < |before| {
      OpponentStatsPairs(rows, ids, n - 1, k);
    } else {
      assert |GameRows(rows, ids[n - 1])| == 2;
      assert 2 * k == |before|;
    }
  }

  /** Game `j` has its two opponent rows at positions `2k` and `2k + 1` of the list. */
  predicate PairAt(rows: seq<Dict>, ids: seq<Value>, n: nat, j: nat, k: nat)
    requires j < n <= |ids|
  {
    var s := OpponentStats(rows, ids, n);
    2 * k + 1 < |s| && IsGamePair(rows, ids[j], s[2 * k], s[2 * k + 1])
  }

  /** A pair already listed stays where it is when later games are visited. */
  lemma PairAtExtends(rows: seq<Dict>, ids: seq<Value>, n: nat, j: nat, k: nat)
    requires j < n - 1 && n <= |ids|
    requires PairAt(rows, ids, n - 1, j, k)
    ensures PairAt(rows, ids, n, j, k)
  {
    var before := OpponentStats(rows, ids, n - 1);
    var s := OpponentStats(rows, ids, n);
    assert s == before + GamePair(rows, ids[n - 1]);
    assert s[2 * k] == before[2 * k] && s[2 * k + 1] == before[2 * k + 1];
  }

  /** The game visited last, when it has two rows, has its pair at the end. */
  lemma PairAtLast(rows: seq<Dict>, ids: seq<Value>, n: nat)
    requires 0 < n <= |ids|
    requires |GameRows(rows, ids[n - 1])| == 2
    ensures PairAt(rows, ids, n, n - 1, |OpponentStats(rows, ids, n - 1)| / 2)
  {
    var before := OpponentStats(rows, ids, n - 1);
    var s := OpponentStats(rows, ids, n);
    var pair := GamePair(rows, ids[n - 1]);
    assert s == before + pair;
    var k := |before| / 2;
    assert s[2 * k] == pair[0] && s[2 * k + 1] == pair[1];
  }

  /** Every game with exactly two rows contributes its two opponent rows, as one consecutive pair. */
  lemma {:induction false} OpponentStatsComplete(rows: seq<Dict>, ids: seq<Value>, n: nat, j: nat)
    requires j < n <= |ids|
    requires |GameRows(rows, ids[j])| == 2
    ensures exists k :: PairAt(rows, ids, n, j, k)
  {
    if j < n - 1 {
      OpponentStatsComplete(rows, ids, n - 1, j);
      var k :| PairAt(rows, ids, n - 1, j, k);
      PairAtExtends(rows, ids, n, j, k);
    } else {
      PairAtLast(rows, ids, n);
    }
  }

  /** The `for col in numeric_team_cols` loop filling both rows of a game at once. */
  method BuildOpponentPair(team1: Dict, team2: Dict, g: Value) returns (opp1: Dict, opp2: Dict)
    ensures opp1 == OpponentRow(team1, team2, g)
    ensures opp2 == OpponentRow(team2, team1, g)
  {
    opp1 := OpponentBase(team1, g);
    opp2 := OpponentBase(team2, g);
    for i := 0 to |NumericTeamCols|
      invariant opp1 == WithOpponentStats(OpponentBase(team1, g), team2, NumericTeamCols, i)
      invariant opp2 == WithOpponentStats(OpponentBase(team2, g), team1, NumericTeamCols, i)
    {
      var col := NumericTeamCols[i];
      if col in team2 {
        opp1 := opp1[OppName(col) := team2[col]];
      }
      if col in team1 {
        opp2 := opp2[OppName(col) := team1[col]];
      }
    }
  }

  /** `team_df['game_id'].unique()` as a loop. */
  method CollectGameIds(rows: seq<Dict>) returns (ids: seq<Value>)
    ensures ids == UniqueIds(rows, |rows|)
  {
    ids := [];
    for i := 0 to |rows|
      invariant ids == UniqueIds(rows, i)
    {
      var g := GameIdOf(rows[i]);
      if g.Some? && g.value !in ids {
        ids := ids + [g.value];
      }
    }
  }

  /**
   * The opponent loop of `calculate_averages`: for each game, in the order
   * its id first appears, the two opponent rows when the game has exactly
   * two team rows.
   */
  method PairOpponents(rows: seq<Dict>) returns (stats: seq<Dict>)
    ensures stats == OpponentStats(rows, UniqueIds(rows, |rows|), |UniqueIds(rows, |rows|)|)
  {
    var ids := CollectGameIds(rows);
    stats := [];
    for n := 0 to |ids|
      invariant stats == OpponentStats(rows, ids, n)
    {
      var teams := GameRows(rows, ids[n]);
      if |teams| == 2 {
        var opp1, opp2 := BuildOpponentPair(teams[0], teams[1], ids[n]);
        stats := stats + [opp1, opp2];
      }
    }
  }
}
