/**
 * `scrape_player_stats`: one row per player who played, read from the body
 * rows of each team's performance table, with minutes converted, the jersey
 * number renamed, the plus-minus dropped and the shooting cells split.
 */
module PlayerStats {
  import opened Wrappers
  import opened Text
  import opened Records
  import opened Page
  import Shooting
  import TeamNames

  /** The header of the player column ("player"). */
  const PlayerHeader: string := "שחקן"

  /** A cell read as the player's name: under the player header, or carrying the `data-name` class. */
  predicate IsNameCell(header: string, c: Cell) {
    header == PlayerHeader || "data-name" in c.classes
  }

  /** What one cell does to the row: sets the name, the name and URL, or a field; raises; or nothing. */
  datatype CellEffect = SetName(name: string) | SetNameAndUrl(name: string, url: string) | SetField(key: string, value: string) | BrokenLink | Ignored

  /**
   * One cell of a body row, under its header. A name cell sets the player's
   * name (and URL, from its link); any other cell stores its stripped text
   * under its `data-key`, or under the header when it has none. A player
   * link without an `href` raises KeyError.
   */
  function CellEffectOf(header: string, c: Cell): CellEffect {
    if IsNameCell(header, c) then
      match c.link
      case Some(l) => if l.href.None? then BrokenLink else SetNameAndUrl(Strip(l.text), l.href.value)
      case None => SetName(Strip(c.text))
    else SetField(c.dataKey.GetOr(header), Strip(c.text))
  }

  /** The effect of each cell of a row; cells past the last header are ignored. */
  function CellEffects(headers: seq<string>, cells: seq<Cell>): (r: seq<CellEffect>)
    ensures |r| == |cells|
  {
    if cells == [] then []
    else
      var i := |cells| - 1;
      CellEffects(headers, cells[..i]) + [if i < |headers| then CellEffectOf(headers[i], cells[i]) else Ignored]
  }

  /** `CellEffects` lists each cell's effect in order. */
  lemma {:induction false} CellEffectsAt(headers: seq<string>, cells: seq<Cell>, i: nat)
    requires i < |cells|
    ensures CellEffects(headers, cells)[i] == if i < |headers| then CellEffectOf(headers[i], cells[i]) else Ignored
  {
    if i < |cells| - 1 {
      CellEffectsAt(headers, cells[..|cells| - 1], i);
    }
  }

  /** A cell's effect applied to the row; None when it raises. */
  function Apply(d: Dict, e: CellEffect): Option<Dict> {
    match e
    case SetName(name) => Some(d["player_name" := Str(name)])
    case SetNameAndUrl(name, url) => Some(d["player_name" := Str(name)]["player_url" := Str(url)])
    case SetField(key, value) => Some(d[key := Str(value)])
    case BrokenLink => None
    case Ignored => Some(d)
  }

  /** The first `n` cell effects applied in order, stopping at the first that raises. */
  function FillCells(d: Dict, effects: seq<CellEffect>, n: nat): Option<Dict>
    requires n <= |effects|
  {
    if n == 0 then Some(d)
    else
      match FillCells(d, effects, n - 1)
      case None => None
      case Some(e) => Apply(e, effects[n - 1])
  }

  /** A cell raises exactly when it is a name cell under a header whose link has no `href`. */
  lemma CellRaises(headers: seq<string>, cells: seq<Cell>, i: nat)
    requires i < |cells|
    ensures CellEffects(headers, cells)[i].BrokenLink? <==>
      i < |headers| && IsNameCell(headers[i], cells[i]) && cells[i].link.Some? && cells[i].link.value.href.None?
  {
    CellEffectsAt(headers, cells, i);
  }

  /** Filling raises exactly when one of the cells filled raises. */
  lemma {:induction false} FillCellsRaises(d: Dict, effects: seq<CellEffect>, n: nat)
    requires n <= |effects|
    ensures FillCells(d, effects, n).None? <==> exists i :: 0 <= i < n && effects[i].BrokenLink?
  {
    if n > 0 {
      FillCellsRaises(d, effects, n - 1);
    }
  }

  /** Filling stores text only: values that were text, apart from those under `except`, stay text. */
  lemma {:induction false} FillCellsText(d: Dict, effects: seq<CellEffect>, n: nat, except: set<string>)
    requires n <= |effects| && TextExcept(d, except)
    requires FillCells(d, effects, n).Some?
    ensures TextExcept(FillCells(d, effects, n).value, except)
  {
    if n > 0 {
      FillCellsText(d, effects, n - 1, except);
    }
  }

  /** The value a cell's effect stores under `k`, if it stores one there. */
  function Stored(e: CellEffect, k: string): Option<Value> {
    match e
    case SetName(name) => if k == "player_name" then Some(Str(name)) else None
    case SetNameAndUrl(name, url) =>
      if k == "player_url" then Some(Str(url)) else if k == "player_name" then Some(Str(name)) else None
    case SetField(key, value) => if k == key then Some(Str(value)) else None
    case _ => None
  }

  /** A key no filled cell stores under keeps the value it had. */
  lemma {:induction false} FillCellsKeeps(d: Dict, effects: seq<CellEffect>, n: nat, k: string)
    requires n <= |effects| && FillCells(d, effects, n).Some?
    requires forall i :: 0 <= i < n ==> Stored(effects[i], k).None?
    ensures Get(FillCells(d, effects, n).value, k) == Get(d, k)
  {
    if n > 0 {
      FillCellsKeeps(d, effects, n - 1, k);
    }
  }

  /** The last filled cell to store under a key decides its value. */
  lemma {:induction false} FillCellsLast(d: Dict, effects: seq<CellEffect>, n: nat, i: nat, k: string)
    requires i < n <= |effects| && FillCells(d, effects, n).Some?
    requires Stored(effects[i], k).Some?
    requires forall j :: i < j < n ==> Stored(effects[j], k).None?
    ensures Get(FillCells(d, effects, n).value, k) == Stored(effects[i], k)
  {
    if n - 1 > i {
      FillCellsLast(d, effects, n - 1, i, k);
    }
  }

  /** `int(s)`, for the strings of ASCII digits this model reads as numbers. */
  function ParseInt(s: string): Option<nat> {
    if IsDigits(s) then Some(DigitsValue(s)) else None
  }

  /**
   * The playing time a "min" value converts to: "mm:ss" gives the minutes,
   * one more from 30 seconds up; a bare number is taken as it is; anything
   * the conversion rejects gives 0.
   */
  function Minutes(v: Value): nat {
    match v
    case Str(s) =>
      if ':' in s then
        var parts := Split(s, ':');
        match (ParseInt(parts[0]), ParseInt(parts[1]))
        case (Some(m), Some(sec)) => if sec >= 30 then m + 1 else m
        case _ => 0
      else ParseInt(s).GetOr(0)
    case _ => 0
  }

  /** "mm:ss" rounds to the nearest minute, halves up. */
  lemma MinutesRounding(mm: string, ss: string)
    requires IsDigits(mm) && IsDigits(ss)
    ensures Minutes(Str(mm + ":" + ss)) == DigitsValue(mm) + (if DigitsValue(ss) >= 30 then 1 else 0)
  {
    assert ':' !in mm && ':' !in ss;
    assert Join([mm, ss], [':']) == mm + ":" + ss by {
      assert [mm, ss][1..] == [ss];
    }
    SplitOfJoin([mm, ss], ':');
    assert (mm + ":" + ss)[|mm|] == ':';
  }

  /** A bare number of minutes is kept, and text that is no time at all gives 0. */
  lemma MinutesPlain(s: string)
    requires ':' !in s
    ensures IsDigits(s) ==> Minutes(Str(s)) == DigitsValue(s)
    ensures !IsDigits(s) ==> Minutes(Str(s)) == 0
  {
  }

  /** The row is kept: it names a player and its minutes (default "00:00") are not zero. */
  predicate Played(d: Dict) {
    "player_name" in d && Truthy(d["player_name"]) &&
    var minutes := if "min" in d then d["min"] else Str("00:00");
    minutes != Str("00:00") && minutes != Str("0:00")
  }

  /** A kept row tidied: `#` renamed to `number`, minutes converted, `pm` dropped. */
  function Tidy(d: Dict): Dict {
    var d1 := if "#" in d then (d - {"#"})["number" := d["#"]] else d;
    var d2 := if "min" in d1 then d1["min" := Int(Minutes(d1["min"]))] else d1;
    d2 - {"pm"}
  }

  /** A body row's dict before its cells: the game, the team and whether the player started. */
  function StartRow(gameId: string, team: string, row: Row): Dict {
    map["game_id" := Str(gameId), "team" := Str(team), "starter" := Int(if "lineup" in row.classes then 1 else 0)]
  }

  /** The row a body row's cells fill in, or None when one of them raises. */
  function FilledRow(row: Row, headers: seq<string>, gameId: string, team: string): Option<Dict> {
    FillCells(StartRow(gameId, team, row), CellEffects(headers, row.cells), |row.cells|)
  }

  /** The value cell `i` of a row stores under `k`, if any; cells past the last header store nothing. */
  function CellStores(headers: seq<string>, cells: seq<Cell>, i: nat, k: string): Option<Value>
    requires i < |cells|
  {
    if i < |headers| then Stored(CellEffectOf(headers[i], cells[i]), k) else None
  }

  /** A key no cell of the row stores under keeps its starting value. */
  lemma FilledRowKeeps(row: Row, headers: seq<string>, gameId: string, team: string, k: string)
    requires FilledRow(row, headers, gameId, team).Some?
    requires forall i :: 0 <= i < |row.cells| ==> CellStores(headers, row.cells, i, k).None?
    ensures Get(FilledRow(row, headers, gameId, team).value, k) == Get(StartRow(gameId, team, row), k)
  {
    var effects := CellEffects(headers, row.cells);
    forall i | 0 <= i < |row.cells| ensures Stored(effects[i], k).None? {
      CellEffectsAt(headers, row.cells, i);
      assert CellStores(headers, row.cells, i, k).None?;
    }
    FillCellsKeeps(StartRow(gameId, team, row), effects, |row.cells|, k);
  }

  /** The last cell of the row to store under a key decides the key's value in the filled row. */
  lemma FilledRowCell(row: Row, headers: seq<string>, gameId: string, team: string, i: nat, k: string)
    requires i < |row.cells| && FilledRow(row, headers, gameId, team).Some?
    requires CellStores(headers, row.cells, i, k).Some?
    requires forall j :: i < j < |row.cells| ==> CellStores(headers, row.cells, j, k).None?
    ensures Get(FilledRow(row, headers, gameId, team).value, k) == CellStores(headers, row.cells, i, k)
  {
    var effects := CellEffects(headers, row.cells);
    forall j | i <= j < |row.cells| ensures Stored(effects[j], k) == CellStores(headers, row.cells, j, k) {
      CellEffectsAt(headers, row.cells, j);
    }
    FillCellsLast(StartRow(gameId, team, row), effects, |row.cells|, i, k);
  }

  /** What one body row of a team's table contributes. */
  function PlayerRowStep(row: Row, headers: seq<string>, gameId: string, team: string): Step {
    if "sp-total-row" in row.classes then Skipped
    else
      match FilledRow(row, headers, gameId, team)
      case None => Raised
      case Some(d) =>
        if !Played(d) then Skipped
        else
          match Shooting.SplitShooting(Tidy(d))
          case None => Raised
          case Some(r) => Emitted(r)
  }

  /** Filled cells hold text, except whether the player started. */
  lemma FilledText(row: Row, headers: seq<string>, gameId: string, team: string)
    requires FilledRow(row, headers, gameId, team).Some?
    ensures TextExcept(FilledRow(row, headers, gameId, team).value, {"starter"})
  {
    FillCellsText(StartRow(gameId, team, row), CellEffects(headers, row.cells), |row.cells|, {"starter"});
  }

  /** A tidied row holds text, except whether the player started and the minutes. */
  lemma TidyText(d: Dict)
    requires TextExcept(d, {"starter"})
    ensures TextExcept(Tidy(d), {"starter", "min"})
  {
  }

  /** Splitting the shooting cells of a tidied row never raises: its composites are text. */
  lemma TidySplits(d: Dict)
    requires TextExcept(d, {"starter"})
    ensures Shooting.SplitShooting(Tidy(d)).Some?
  {
    TidyText(d);
    Shooting.TextRowsDoNotRaise(Tidy(d), Shooting.Site, {"starter", "min"});
    Shooting.SiteStepsApart();
    Shooting.SplitRaises(Tidy(d), Shooting.Site);
  }

  /**
   * A body row raises exactly when it is no total row and one of its cells
   * is a name cell under a header whose player link has no `href`; it is
   * kept exactly when it is no total row, does not raise and names a
   * player who played.
   */
  lemma PlayerRowOutcome(row: Row, headers: seq<string>, gameId: string, team: string)
    ensures PlayerRowStep(row, headers, gameId, team).Raised? <==>
      "sp-total-row" !in row.classes &&
      exists i :: 0 <= i < |row.cells| && i < |headers| && IsNameCell(headers[i], row.cells[i]) &&
                  row.cells[i].link.Some? && row.cells[i].link.value.href.None?
    ensures PlayerRowStep(row, headers, gameId, team).Emitted? <==>
      "sp-total-row" !in row.classes && FilledRow(row, headers, gameId, team).Some? &&
      Played(FilledRow(row, headers, gameId, team).value)
  {
    var effects := CellEffects(headers, row.cells);
    FillCellsRaises(StartRow(gameId, team, row), effects, |row.cells|);
    forall i | 0 <= i < |row.cells|
      ensures effects[i].BrokenLink? <==>
                (i < |headers| && IsNameCell(headers[i], row.cells[i]) && row.cells[i].link.Some? && row.cells[i].link.value.href.None?) {
      CellRaises(headers, row.cells, i);
    }
    if FilledRow(row, headers, gameId, team).Some? {
      FilledText(row, headers, gameId, team);
      TidySplits(FilledRow(row, headers, gameId, team).value);
    }
  }

  /** A finished player row: a non-empty name, minutes as a number, no `#` and no `pm`. */
  predicate PlayerShape(r: Dict) {
    && "player_name" in r && r["player_name"].Str? && r["player_name"].s != ""
    && "min" in r && r["min"].Int?
    && "#" !in r && "pm" !in r
  }

  /** The keys the finished row is described by are none the shooting split touches. */
  lemma ShapeKeysUntouched()
    ensures "player_name" !in Shooting.Touched(Shooting.Site)
    ensures "min" !in Shooting.Touched(Shooting.Site)
    ensures "#" !in Shooting.Touched(Shooting.Site)
    ensures "pm" !in Shooting.Touched(Shooting.Site)
    ensures "number" !in Shooting.Touched(Shooting.Site)
  {
  }

  /** A key neither tidying nor the shooting split touches. */
  predicate Untidied(k: string) {
    k != "#" && k != "number" && k != "min" && k != "pm" && k !in Shooting.Touched(Shooting.Site)
  }

  /**
   * `r` is the filled row `d` finished: a player row whose minutes are
   * converted from `d`'s, whose `number` is `d`'s `#` (or `d`'s own
   * `number` when it has no `#`), and which agrees with `d` on every key
   * that neither tidying nor the shooting split touches.
   */
  ghost predicate FinishedFrom(r: Dict, d: Dict) {
    && PlayerShape(r)
    && "min" in d && r["min"] == Int(Minutes(d["min"]))
    && Get(r, "number") == (if "#" in d then Some(d["#"]) else Get(d, "number"))
    && forall k :: Untidied(k) ==> Get(r, k) == Get(d, k)
  }

  /**
   * Every row a body row contributes is its filled row finished: the name,
   * the converted minutes, the renamed number, no `#` and no `pm`, and every
   * other key outside the shooting split as the cells left it.
   */
  lemma EmittedShape(row: Row, headers: seq<string>, gameId: string, team: string)
    requires PlayerRowStep(row, headers, gameId, team).Emitted?
    ensures FilledRow(row, headers, gameId, team).Some?
    ensures FinishedFrom(PlayerRowStep(row, headers, gameId, team).row, FilledRow(row, headers, gameId, team).value)
  {
    var d := FilledRow(row, headers, gameId, team).value;
    var r := PlayerRowStep(row, headers, gameId, team).row;
    EmittedIsSplit(row, headers, gameId, team);
    FilledText(row, headers, gameId, team);
    TidyShape(d, r);
    forall k | Untidied(k) ensures Get(r, k) == Get(d, k) {
      EmittedKeeps(row, headers, gameId, team, k);
    }
  }

  /** An emitted row is the shooting split of its filled row, tidied. */
  lemma EmittedIsSplit(row: Row, headers: seq<string>, gameId: string, team: string)
    requires PlayerRowStep(row, headers, gameId, team).Emitted?
    ensures FilledRow(row, headers, gameId, team).Some? && Played(FilledRow(row, headers, gameId, team).value)
    ensures Shooting.SplitShooting(Tidy(FilledRow(row, headers, gameId, team).value)) == Some(PlayerRowStep(row, headers, gameId, team).row)
  {
  }

  /** The split of a tidied played row is a player row with the converted minutes and the renamed number. */
  lemma TidyShape(d: Dict, r: Dict)
    requires Played(d) && TextExcept(d, {"starter"})
    requires Shooting.SplitShooting(Tidy(d)) == Some(r)
    ensures PlayerShape(r)
    ensures "min" in d && r["min"] == Int(Minutes(d["min"]))
    ensures Get(r, "number") == (if "#" in d then Some(d["#"]) else Get(d, "number"))
  {
    var t := Tidy(d);
    assert "min" in d;
    assert "player_name" in t && t["player_name"] == d["player_name"] && t["player_name"].Str?;
    assert t["min"] == Int(Minutes(d["min"]));
    assert Get(t, "number") == (if "#" in d then Some(d["#"]) else Get(d, "number"));
    ShapeKeysUntouched();
    Shooting.SplitKeeps(t, Shooting.Site, r, "player_name");
    Shooting.SplitKeeps(t, Shooting.Site, r, "min");
    Shooting.SplitKeeps(t, Shooting.Site, r, "#");
    Shooting.SplitKeeps(t, Shooting.Site, r, "pm");
    Shooting.SplitKeeps(t, Shooting.Site, r, "number");
  }

  /** A key neither tidying nor the split touches has in the emitted row the value the cells left it. */
  lemma EmittedKeeps(row: Row, headers: seq<string>, gameId: string, team: string, k: string)
    requires PlayerRowStep(row, headers, gameId, team).Emitted? && Untidied(k)
    ensures FilledRow(row, headers, gameId, team).Some?
    ensures Get(PlayerRowStep(row, headers, gameId, team).row, k) == Get(FilledRow(row, headers, gameId, team).value, k)
  {
    EmittedIsSplit(row, headers, gameId, team);
    var d := FilledRow(row, headers, gameId, team).value;
    assert Get(Tidy(d), k) == Get(d, k);
    Shooting.SplitKeeps(Tidy(d), Shooting.Site, PlayerRowStep(row, headers, gameId, team).row, k);
  }

  /**
   * An emitted row keeps the game, the team and the starter flag (1 for a
   * `lineup` row, else 0) it was started with, unless a cell stores under
   * that key.
   */
  lemma EmittedStart(row: Row, headers: seq<string>, gameId: string, team: string, k: string)
    requires PlayerRowStep(row, headers, gameId, team).Emitted?
    requires k == "game_id" || k == "team" || k == "starter"
    requires forall i :: 0 <= i < |row.cells| ==> CellStores(headers, row.cells, i, k).None?
    ensures Get(PlayerRowStep(row, headers, gameId, team).row, k) ==
      Some(if k == "game_id" then Str(gameId) else if k == "team" then Str(team) else Int(if "lineup" in row.classes then 1 else 0))
  {
    StartKeysUntidied(k);
    EmittedKeeps(row, headers, gameId, team, k);
    FilledRowKeeps(row, headers, gameId, team, k);
    StartRowGet(gameId, team, row, k);
  }

  /** The keys a body row starts with are keys neither tidying nor the split touches. */
  lemma StartKeysUntidied(k: string)
    requires k == "game_id" || k == "team" || k == "starter"
    ensures Untidied(k)
  {
  }

  /** The starting row holds the game, the team and the starter flag. */
  lemma StartRowGet(gameId: string, team: string, row: Row, k: string)
    requires k == "game_id" || k == "team" || k == "starter"
    ensures Get(StartRow(gameId, team, row), k) ==
      Some(if k == "game_id" then Str(gameId) else if k == "team" then Str(team) else Int(if "lineup" in row.classes then 1 else 0))
  {
  }

  /**
   * The last cell to store under a key neither tidying nor the split
   * touches puts that value in the emitted row: a field's stripped text
   * under its `data-key` (or its header), the player's name and URL.
   */
  lemma EmittedCell(row: Row, headers: seq<string>, gameId: string, team: string, i: nat, k: string)
    requires PlayerRowStep(row, headers, gameId, team).Emitted?
    requires i < |row.cells| && Untidied(k)
    requires CellStores(headers, row.cells, i, k).Some?
    requires forall j :: i < j < |row.cells| ==> CellStores(headers, row.cells, j, k).None?
    ensures Get(PlayerRowStep(row, headers, gameId, team).row, k) == CellStores(headers, row.cells, i, k)
  {
    EmittedKeeps(row, headers, gameId, team, k);
    FilledRowCell(row, headers, gameId, team, i, k);
  }

  /** The jersey number is renamed: the last cell storing under `#` gives the emitted row's `number`. */
  lemma EmittedNumber(row: Row, headers: seq<string>, gameId: string, team: string, i: nat)
    requires PlayerRowStep(row, headers, gameId, team).Emitted?
    requires i < |row.cells|
    requires CellStores(headers, row.cells, i, "#").Some?
    requires forall j :: i < j < |row.cells| ==> CellStores(headers, row.cells, j, "#").None?
    ensures Get(PlayerRowStep(row, headers, gameId, team).row, "number") == CellStores(headers, row.cells, i, "#")
  {
    EmittedIsSplit(row, headers, gameId, team);
    FilledText(row, headers, gameId, team);
    TidyShape(FilledRow(row, headers, gameId, team).value, PlayerRowStep(row, headers, gameId, team).row);
    FilledRowCell(row, headers, gameId, team, i, "#");
  }

  /** The stripped texts of the header row; none without a `thead` (one without a `tr` raises instead). */
  function HeaderTexts(head: Option<Thead>): (r: seq<string>)
    ensures head.Some? && head.value.row.Some? ==>
      |r| == |head.value.row.value| && forall i :: 0 <= i < |r| ==> r[i] == Strip(head.value.row.value[i].text)
    ensures head.None? ==> r == []
  {
    match head
    case None => []
    case Some(h) =>
      match h.row
      case None => []
      case Some(hs) => seq(|hs|, i requires 0 <= i < |hs| => Strip(hs[i].text))
  }

  /** The outcome of each body row of a table. */
  function RowSteps(rows: seq<Row>, headers: seq<string>, gameId: string, team: string): (r: seq<Step>)
    ensures |r| == |rows|
  {
    if rows == [] then []
    else RowSteps(rows[..|rows| - 1], headers, gameId, team) + [PlayerRowStep(rows[|rows| - 1], headers, gameId, team)]
  }

  /** `RowSteps` lists each row's outcome in order. */
  lemma {:induction false} RowStepsAt(rows: seq<Row>, headers: seq<string>, gameId: string, team: string, i: nat)
    requires i < |rows|
    ensures RowSteps(rows, headers, gameId, team)[i] == PlayerRowStep(rows[i], headers, gameId, team)
  {
    if i < |rows| - 1 {
      RowStepsAt(rows[..|rows| - 1], headers, gameId, team, i);
    }
  }

  /**
   * What one performance section contributes: nothing without a caption or
   * a table; an exception for a `thead` without a `tr`; otherwise nothing
   * without a body.
   */
  function SectionRows(sec: Section, gameId: string, mapping: map<string, string>): Collected {
    match sec.caption
    case None => Collected([], false)
    case Some(caption) =>
      var team := TeamNames.NormalizeTeamName(Strip(caption), mapping);
      match sec.table
      case None => Collected([], false)
      case Some(t) =>
        if HeadRaises(t.head) then Collected([], true)
        else
          match t.body
          case None => Collected([], false)
          case Some(rows) => RowsFold(RowSteps(rows, HeaderTexts(t.head), gameId, team), |rows|)
  }

  /** What each performance section contributes. */
  function SectionResults(sections: seq<Section>, gameId: string, mapping: map<string, string>): (r: seq<Collected>)
    ensures |r| == |sections|
  {
    if sections == [] then []
    else SectionResults(sections[..|sections| - 1], gameId, mapping) + [SectionRows(sections[|sections| - 1], gameId, mapping)]
  }

  /** `SectionResults` lists each section's contribution in order. */
  lemma {:induction false} SectionResultsAt(sections: seq<Section>, gameId: string, mapping: map<string, string>, i: nat)
    requires i < |sections|
    ensures SectionResults(sections, gameId, mapping)[i] == SectionRows(sections[i], gameId, mapping)
  {
    if i < |sections| - 1 {
      SectionResultsAt(sections[..|sections| - 1], gameId, mapping, i);
    }
  }

  /** The first `n` sections' rows, stopping at the first section whose rows raise. */
  function SectionsFold(results: seq<Collected>, n: nat): Collected
    requires n <= |results|
  {
    if n == 0 then Collected([], false)
    else
      var c := SectionsFold(results, n - 1);
      if c.stopped then c
      else Collected(c.rows + results[n - 1].rows, results[n - 1].stopped)
  }

  /** What `scrape_player_stats` returns: the rows collected until the end or until an exception. */
  function PlayerStatsOf(sections: seq<Section>, gameId: string, mapping: map<string, string>): seq<Dict> {
    SectionsFold(SectionResults(sections, gameId, mapping), |sections|).rows
  }

  /** Every row of a fold over sections is a row one of the sections collected. */
  lemma {:induction false} SectionsFoldRows(results: seq<Collected>, n: nat)
    requires n <= |results|
    ensures forall r :: r in SectionsFold(results, n).rows ==> exists i :: 0 <= i < n && r in results[i].rows
  {
    if n > 0 {
      SectionsFoldRows(results, n - 1);
    }
  }

  /**
   * `r` is the finished form of one body row of the section: a row that is
   * no total row, whose cells fill without raising, name a player who
   * played, and finish to `r`.
   */
  ghost predicate FromSection(r: Dict, sec: Section, gameId: string, mapping: map<string, string>) {
    && sec.caption.Some? && sec.table.Some? && sec.table.value.body.Some?
    && var rows := sec.table.value.body.value;
       var headers := HeaderTexts(sec.table.value.head);
       var team := TeamNames.NormalizeTeamName(Strip(sec.caption.value), mapping);
       exists j :: 0 <= j < |rows| && RowFinishesTo(r, rows[j], headers, gameId, team)
  }

  /** A body row that is no total row, fills without raising, names a player who played, and finishes to `r`. */
  ghost predicate RowFinishesTo(r: Dict, row: Row, headers: seq<string>, gameId: string, team: string) {
    && "sp-total-row" !in row.classes
    && FilledRow(row, headers, gameId, team).Some?
    && Played(FilledRow(row, headers, gameId, team).value)
    && FinishedFrom(r, FilledRow(row, headers, gameId, team).value)
  }

  /** Every row a section collects is the finished form of one of its body rows. */
  lemma SectionShape(sec: Section, gameId: string, mapping: map<string, string>)
    ensures forall r :: r in SectionRows(sec, gameId, mapping).rows ==> PlayerShape(r) && FromSection(r, sec, gameId, mapping)
  {
    if sec.caption.Some? && sec.table.Some? && !HeadRaises(sec.table.value.head) && sec.table.value.body.Some? {
      var rows := sec.table.value.body.value;
      var team := TeamNames.NormalizeTeamName(Strip(sec.caption.value), mapping);
      var headers := HeaderTexts(sec.table.value.head);
      var steps := RowSteps(rows, headers, gameId, team);
      RowsFoldEmitted(steps, |rows|);
      forall r | r in SectionRows(sec, gameId, mapping).rows ensures PlayerShape(r) && FromSection(r, sec, gameId, mapping) {
        var i :| 0 <= i < |rows| && steps[i] == Emitted(r);
        RowStepsAt(rows, headers, gameId, team, i);
        EmittedShape(rows[i], headers, gameId, team);
        PlayerRowOutcome(rows[i], headers, gameId, team);
        assert RowFinishesTo(r, rows[i], headers, gameId, team);
      }
    }
  }

  /**
   * Every row `scrape_player_stats` returns is the finished form of a body
   * row of one of the page's sections: it names a player, has numeric
   * minutes, has its `#` renamed to `number`, has no `pm`, and keeps the
   * cells' other values.
   */
  lemma PlayerStatsShape(sections: seq<Section>, gameId: string, mapping: map<string, string>)
    ensures forall r :: r in PlayerStatsOf(sections, gameId, mapping) ==>
      PlayerShape(r) && exists i :: 0 <= i < |sections| && FromSection(r, sections[i], gameId, mapping)
  {
    var results := SectionResults(sections, gameId, mapping);
    SectionsFoldRows(results, |sections|);
    forall i | 0 <= i < |sections|
      ensures forall r :: r in results[i].rows ==> PlayerShape(r) && FromSection(r, sections[i], gameId, mapping)
    {
      SectionResultsAt(sections, gameId, mapping, i);
      SectionShape(sections[i], gameId, mapping);
    }
  }

  /**
   * A section whose table has a `thead` without a `tr` ends the scrape:
   * what is returned is the rows of the sections before it.
   */
  lemma BareHeadEndsScrape(sections: seq<Section>, gameId: string, mapping: map<string, string>, i: nat)
    requires i < |sections| && sections[i].caption.Some? && sections[i].table.Some?
    requires HeadRaises(sections[i].table.value.head)
    ensures PlayerStatsOf(sections, gameId, mapping) == SectionsFold(SectionResults(sections, gameId, mapping), i).rows
  {
    var results := SectionResults(sections, gameId, mapping);
    SectionResultsAt(sections, gameId, mapping, i);
    assert results[i] == Collected([], true);
    var c := SectionsFold(results, i);
    if c.stopped {
      SectionsFoldStopped(results, i, |sections|);
    } else {
      assert SectionsFold(results, i + 1) == Collected(c.rows + [], true);
      assert c.rows + [] == c.rows;
      SectionsFoldStopped(results, i + 1, |sections|);
    }
  }

  /** Once a fold over sections has stopped it stays as it is. */
  lemma {:induction false} SectionsFoldStopped(results: seq<Collected>, i: nat, n: nat)
    requires i <= n <= |results| && SectionsFold(results, i).stopped
    ensures SectionsFold(results, n) == SectionsFold(results, i)
    decreases n
  {
    if n > i {
      SectionsFoldStopped(results, i, n - 1);
    }
  }

  /** The header loop: the stripped text of each `th`; None when the `thead` has no `tr` and the loop raises. */
  method ReadHeaders(head: Option<Thead>) returns (headers: Option<seq<string>>)
    ensures headers == if HeadRaises(head) then None else Some(HeaderTexts(head))
  {
    if head.None? {
      return Some([]);
    }
    if head.value.row.None? {
      return None;
    }
    var hs := head.value.row.value;
    var texts := [];
    for i := 0 to |hs|
      invariant texts == HeaderTexts(head)[..i]
    {
      texts := texts + [Strip(hs[i].text)];
    }
    assert HeaderTexts(head)[..|hs|] == HeaderTexts(head);
    headers := Some(texts);
  }

  /** One cell of the cell loop: the name branch or the field branch; None when a player link has no `href`. */
  method FillCell(e: Dict, header: string, cell: Cell) returns (r: Option<Dict>)
    ensures r == Apply(e, CellEffectOf(header, cell))
  {
    if header == PlayerHeader || "data-name" in cell.classes {
      if cell.link.Some? {
        if cell.link.value.href.None? {
          return None;
        }
        var named := e["player_name" := Str(Strip(cell.link.value.text))];
        r := Some(named["player_url" := Str(cell.link.value.href.value)]);
      } else {
        r := Some(e["player_name" := Str(Strip(cell.text))]);
      }
    } else {
      r := Some(e[cell.dataKey.GetOr(header) := Str(Strip(cell.text))]);
    }
  }

  /** The cell loop of a body row; None when a player link has no `href`. */
  method FillRow(d: Dict, headers: seq<string>, cells: seq<Cell>) returns (r: Option<Dict>)
    ensures r == FillCells(d, CellEffects(headers, cells), |cells|)
  {
    var e := d;
    ghost var effects := CellEffects(headers, cells);
    for idx := 0 to |cells|
      invariant FillCells(d, effects, idx) == Some(e)
    {
      CellEffectsAt(headers, cells, idx);
      if idx < |headers| {
        var filled := FillCell(e, headers[idx], cells[idx]);
        if filled.None? {
          FillCellsStopped(d, effects, idx + 1, |cells|);
          return None;
        }
        e := filled.value;
      }
    }
    r := Some(e);
  }

  /** Once filling has raised it stays raised. */
  lemma {:induction false} FillCellsStopped(d: Dict, effects: seq<CellEffect>, i: nat, n: nat)
    requires i <= n <= |effects| && FillCells(d, effects, i).None?
    ensures FillCells(d, effects, n).None?
    decreases n
  {
    if n > i {
      FillCellsStopped(d, effects, i, n - 1);
    }
  }

  /** One body row of `scrape_player_stats`. */
  method ScrapePlayerRow(row: Row, headers: seq<string>, gameId: string, team: string) returns (step: Step)
    ensures step == PlayerRowStep(row, headers, gameId, team)
  {
    if "sp-total-row" in row.classes {
      return Skipped;
    }
    var start := StartRow(gameId, team, row);
    var filled := FillRow(start, headers, row.cells);
    if filled.None? {
      return Raised;
    }
    var d := filled.value;
    if !Played(d) {
      return Skipped;
    }
    if "#" in d {
      var number := d["#"];
      d := d - {"#"};
      d := d["number" := number];
    }
    if "min" in d {
      d := d["min" := Int(Minutes(d["min"]))];
    }
    d := d - {"pm"};
    var split := Shooting.SplitShootingStats(d);
    if split.None? {
      return Raised;
    }
    step := Emitted(split.value);
  }

  /** Body row `i` of a table, stated as its place among the table's outcomes. */
  method ScrapeRowAt(rows: seq<Row>, i: nat, headers: seq<string>, gameId: string, team: string) returns (step: Step)
    requires i < |rows|
    ensures step == RowSteps(rows, headers, gameId, team)[i]
  {
    step := ScrapePlayerRow(rows[i], headers, gameId, team);
    RowStepsAt(rows, headers, gameId, team, i);
  }

  /** The row loop of one body, stopping at the first row that raises. */
  method ScrapeRows(rows: seq<Row>, headers: seq<string>, gameId: string, team: string) returns (c: Collected)
    ensures c == RowsFold(RowSteps(rows, headers, gameId, team), |rows|)
  {
    ghost var steps := RowSteps(rows, headers, gameId, team);
    c := Collected([], false);
    for i := 0 to |rows|
      invariant c == RowsFold(steps, i) && !c.stopped
    {
      var step := ScrapeRowAt(rows, i, headers, gameId, team);
      c := Extend(c, step);
      if c.stopped {
        RowsFoldStopped(steps, i + 1, |rows|);
        return;
      }
    }
  }

  /** One section of `scrape_player_stats`. */
  method ScrapeSection(sec: Section, gameId: string, mapping: map<string, string>) returns (c: Collected)
    ensures c == SectionRows(sec, gameId, mapping)
  {
    c := Collected([], false);
    if sec.caption.None? {
      return;
    }
    var team := TeamNames.NormalizeTeamName(Strip(sec.caption.value), mapping);
    if sec.table.None? {
      return;
    }
    var headers := ReadHeaders(sec.table.value.head);
    if headers.None? {
      return Collected([], true);
    }
    if sec.table.value.body.None? {
      return;
    }
    c := ScrapeRows(sec.table.value.body.value, headers.value, gameId, team);
  }

  /** Section `i` of the page, stated as its place among the sections' contributions. */
  method ScrapeSectionAt(sections: seq<Section>, i: nat, gameId: string, mapping: map<string, string>) returns (c: Collected)
    requires i < |sections|
    ensures c == SectionResults(sections, gameId, mapping)[i]
  {
    c := ScrapeSection(sections[i], gameId, mapping);
    SectionResultsAt(sections, gameId, mapping, i);
  }

  /** `scrape_player_stats`: the section loop, returning what was collected when a row raises. */
  method ScrapePlayerStats(sections: seq<Section>, gameId: string, mapping: map<string, string>) returns (stats: seq<Dict>)
    ensures stats == PlayerStatsOf(sections, gameId, mapping)
  {
    ghost var results := SectionResults(sections, gameId, mapping);
    stats := [];
    for i := 0 to |sections|
      invariant SectionsFold(results, i) == Collected(stats, false)
    {
      var c := ScrapeSectionAt(sections, i, gameId, mapping);
      stats := stats + c.rows;
      if c.stopped {
        SectionsFoldStopped(results, i + 1, |sections|);
        return;
      }
    }
  }
}
