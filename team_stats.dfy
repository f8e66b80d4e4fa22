/**
 * `scrape_team_stats`: one row per team, read from the total row of each
 * performance table, keyed by the `data-` classes of the cells (or of the
 * header cells above them), with the shooting cells split, the per-player
 * columns dropped and the supplemental numbers of the team-stats block added.
 */
module TeamStats {
  import opened Wrappers
  import opened Text
  import opened Records
  import opened Page
  import Shooting

  const DataPrefix: string := "data-"

  /** The class of the total row in a table's `tfoot`. */
  const TotalRowClass: string := "sp-total-row"

  /** The text that marks a body row as the totals ("total"). */
  const TotalLabel: string := "סך הכל"

  /**
   * The key a class list names: taken from its first class that starts
   * with `data-`, with EVERY occurrence of `data-` removed from it (the
   * source uses a global `replace`); None when no class starts with `data-`.
   */
  function DataKeyOf(classes: seq<string>): (r: Option<string>)
    ensures r.None? <==> forall i :: 0 <= i < |classes| ==> !StartsWith(classes[i], DataPrefix)
  {
    if classes == [] then None
    else if StartsWith(classes[0], DataPrefix) then Some(RemoveAll(classes[0], DataPrefix))
    else
      assert forall i :: 1 <= i < |classes| ==> classes[i] == classes[1..][i - 1];
      DataKeyOf(classes[1..])
  }

  /** The key comes from the first `data-` class. */
  lemma {:induction false} DataKeyAt(classes: seq<string>, i: nat)
    requires i < |classes| && StartsWith(classes[i], DataPrefix)
    requires forall j :: 0 <= j < i ==> !StartsWith(classes[j], DataPrefix)
    ensures DataKeyOf(classes) == Some(RemoveAll(classes[i], DataPrefix))
  {
    if i > 0 {
      assert forall j :: 0 <= j < i - 1 ==> classes[1..][j] == classes[j + 1];
      DataKeyAt(classes[1..], i - 1);
    }
  }

  /** A class `data-k` names the key `k`, when `k` itself does not contain `data-`. */
  lemma DataKeyOfTagged(classes: seq<string>, i: nat, k: string)
    requires i < |classes| && classes[i] == DataPrefix + k && !Contains(k, DataPrefix)
    requires forall j :: 0 <= j < i ==> !StartsWith(classes[j], DataPrefix)
    ensures DataKeyOf(classes) == Some(k)
  {
    assert StartsWith(classes[i], DataPrefix) by { assert classes[i][..|DataPrefix|] == DataPrefix; }
    DataKeyAt(classes, i);
    RemoveAllPrefix(DataPrefix, k);
  }

  /** The keys of the header cells, one per cell; none without a `thead` (one without a `tr` raises instead). */
  function HeaderKeys(head: Option<Thead>): (r: seq<Option<string>>)
    ensures head.None? ==> r == []
    ensures head.Some? && head.value.row.Some? ==> |r| == |head.value.row.value|
  {
    match head
    case None => []
    case Some(h) =>
      match h.row
      case None => []
      case Some(hs) => KeysOf(hs)
  }

  /** The key each header cell names, in order. */
  function KeysOf(hs: seq<HeaderCell>): (r: seq<Option<string>>)
    ensures |r| == |hs|
  {
    if hs == [] then [] else KeysOf(hs[..|hs| - 1]) + [DataKeyOf(hs[|hs| - 1].classes)]
  }

  /** `KeysOf` lists each header cell's key in order. */
  lemma {:induction false} KeysOfAt(hs: seq<HeaderCell>, i: nat)
    requires i < |hs|
    ensures KeysOf(hs)[i] == DataKeyOf(hs[i].classes)
  {
    if i < |hs| - 1 {
      KeysOfAt(hs[..|hs| - 1], i);
    }
  }

  /** `tfoot.find('tr', class_=cls)`: the first row carrying the class. */
  function FirstWithClass(rows: seq<Row>, cls: string): (r: Option<Row>)
    ensures r.None? <==> forall i :: 0 <= i < |rows| ==> cls !in rows[i].classes
  {
    if rows == [] then None
    else if cls in rows[0].classes then Some(rows[0])
    else
      assert forall i :: 1 <= i < |rows| ==> rows[i] == rows[1..][i - 1];
      FirstWithClass(rows[1..], cls)
  }

  /** The row found is the first one carrying the class. */
  lemma {:induction false} FirstWithClassAt(rows: seq<Row>, cls: string, i: nat)
    requires i < |rows| && cls in rows[i].classes
    requires forall j :: 0 <= j < i ==> cls !in rows[j].classes
    ensures FirstWithClass(rows, cls) == Some(rows[i])
  {
    if i > 0 {
      assert forall j :: 0 <= j < i - 1 ==> rows[1..][j] == rows[j + 1];
      FirstWithClassAt(rows[1..], cls, i - 1);
    }
  }

  /** A body row is a totals row when its first `data-name` cell's text contains the totals tag. */
  predicate IsTotalLine(row: Row) {
    match FindCell(row.cells, "data-name")
    case None => false
    case Some(c) => Contains(c.text, TotalLabel)
  }

  /** The last totals row of a body, found scanning it in reverse. */
  function LastTotalLine(rows: seq<Row>): (r: Option<Row>)
    ensures r.None? <==> forall i :: 0 <= i < |rows| ==> !IsTotalLine(rows[i])
  {
    if rows == [] then None
    else if IsTotalLine(rows[|rows| - 1]) then Some(rows[|rows| - 1])
    else
      assert forall i :: 0 <= i < |rows| - 1 ==> rows[i] == rows[..|rows| - 1][i];
      LastTotalLine(rows[..|rows| - 1])
  }

  /** The row found is the last totals row. */
  lemma {:induction false} LastTotalLineAt(rows: seq<Row>, i: nat)
    requires i < |rows| && IsTotalLine(rows[i])
    requires forall j :: i < j < |rows| ==> !IsTotalLine(rows[j])
    ensures LastTotalLine(rows) == Some(rows[i])
  {
    if i < |rows| - 1 {
      assert forall j :: i < j < |rows| - 1 ==> rows[..|rows| - 1][j] == rows[j];
      LastTotalLineAt(rows[..|rows| - 1], i);
    }
  }

  /**
   * The row a table's totals are read from: the `sp-total-row` of its
   * `tfoot`; failing that, the last body row marked as the totals.
   */
  function TotalRow(t: Table): (r: Option<Row>)
    ensures t.foot.Some? && FirstWithClass(t.foot.value, TotalRowClass).Some? ==> r == FirstWithClass(t.foot.value, TotalRowClass)
    ensures r.None? <==>
      ((t.foot.None? || forall i :: 0 <= i < |t.foot.value| ==> TotalRowClass !in t.foot.value[i].classes) &&
       (t.body.None? || forall i :: 0 <= i < |t.body.value| ==> !IsTotalLine(t.body.value[i])))
  {
    var foot := if t.foot.Some? then FirstWithClass(t.foot.value, TotalRowClass) else None;
    if foot.Some? then foot
    else if t.body.Some? then LastTotalLine(t.body.value)
    else None
  }

  /**
   * The key a total-row cell's text is stored under: the cell's own key
   * when it is non-empty, else the key of the header cell at the same
   * position; None when neither gives a non-empty key.
   */
  function CellKey(classes: seq<string>, idx: nat, headerKeys: seq<Option<string>>): (r: Option<string>)
    ensures r.Some? ==> r.value != ""
    ensures DataKeyOf(classes).Some? && DataKeyOf(classes).value != "" ==> r == DataKeyOf(classes)
    ensures (DataKeyOf(classes).None? || DataKeyOf(classes).value == "") ==>
      (r.Some? <==> idx < |headerKeys| && headerKeys[idx].Some? && headerKeys[idx].value != "") &&
      (r.Some? ==> r == headerKeys[idx])
  {
    var own := DataKeyOf(classes);
    var key := if (own.None? || own.value == "") && idx < |headerKeys| then headerKeys[idx] else own;
    if key.Some? && key.value != "" then key else None
  }

  /** What the cell at position `idx` of the total row stores: nothing for the name cell or a cell without a key. */
  function TotalEntry(cell: Cell, idx: nat, headerKeys: seq<Option<string>>): Option<(string, Value)> {
    if "data-name" in cell.classes then None
    else
      match CellKey(cell.classes, idx, headerKeys)
      case None => None
      case Some(k) => Some((k, Str(Strip(cell.text))))
  }

  /** What each cell of the total row stores, in order. */
  function TotalEntries(cells: seq<Cell>, headerKeys: seq<Option<string>>): (r: seq<Option<(string, Value)>>)
    ensures |r| == |cells|
  {
    if cells == [] then []
    else TotalEntries(cells[..|cells| - 1], headerKeys) + [TotalEntry(cells[|cells| - 1], |cells| - 1, headerKeys)]
  }

  /** `TotalEntries` lists each cell's entry in order. */
  lemma {:induction false} TotalEntriesAt(cells: seq<Cell>, headerKeys: seq<Option<string>>, i: nat)
    requires i < |cells|
    ensures TotalEntries(cells, headerKeys)[i] == TotalEntry(cells[i], i, headerKeys)
  {
    if i < |cells| - 1 {
      TotalEntriesAt(cells[..|cells| - 1], headerKeys, i);
    }
  }

  /** Every total-row entry stores text under a non-empty key. */
  lemma {:induction false} TotalEntriesText(cells: seq<Cell>, headerKeys: seq<Option<string>>)
    ensures forall i :: 0 <= i < |cells| && TotalEntries(cells, headerKeys)[i].Some? ==>
      TotalEntries(cells, headerKeys)[i].value.0 != "" && TotalEntries(cells, headerKeys)[i].value.1.Str?
  {
    forall i | 0 <= i < |cells| && TotalEntries(cells, headerKeys)[i].Some?
      ensures TotalEntries(cells, headerKeys)[i].value.0 != "" && TotalEntries(cells, headerKeys)[i].value.1.Str?
    {
      TotalEntriesAt(cells, headerKeys, i);
    }
  }

  /** The row a team's totals start from. */
  function StartTeamRow(gameId: string, team: string): Dict {
    map["game_id" := Str(gameId), "team" := Str(team)]
  }

  /** The row after the cell loop over the total row. */
  function FilledTeamRow(total: Row, headerKeys: seq<Option<string>>, gameId: string, team: string): Dict {
    StoreAll(StartTeamRow(gameId, team), TotalEntries(total.cells, headerKeys), |total.cells|)
  }

  /** The per-player columns a team row drops. */
  function DropPlayerColumns(d: Dict): Dict {
    d - {"min", "pm", "#", "number"}
  }

  /** The key a label of the team-stats block is stored under: the English name of a known label, else its own text. */
  function LabelKey(text: string): string {
    if text == "נקודות מהזדמנות שנייה:" then "second_chance_pts"
    else if text == "נקודות ספסל:" then "bench_pts"
    else if text == "נקודות ממתפרצת:" then "fast_break_pts"
    else if text == "נקודות בצבע:" then "points_in_paint"
    else if text == "נקודות מאיבודים:" then "pts_off_turnovers"
    else text
  }

  /** The keys the known labels are stored under. */
  const SupplementalKeys: set<string> := {"second_chance_pts", "bench_pts", "fast_break_pts", "points_in_paint", "pts_off_turnovers"}

  /** `int(v) if v.isdigit() else v`. */
  function LabelValue(v: string): (r: Value)
    ensures IsDigits(v) ==> r == Int(DigitsValue(v))
    ensures !IsDigits(v) ==> r == Str(v)
  {
    if IsDigits(v) then Int(DigitsValue(v)) else Str(v)
  }

  /**
   * `label.contents[0].strip()` on an element raises TypeError: bs4 reads
   * `tag.strip` as a search for a `strip` child, finds None, and None
   * cannot be called.
   */
  predicate LabelRaises(tag: Label) {
    tag.first == Some(ElementChild)
  }

  /** Some label of the team-stats block raises. */
  predicate LabelsRaise(labels: seq<Label>) {
    exists i :: 0 <= i < |labels| && LabelRaises(labels[i])
  }

  /** The stripped text of a label's first child; empty when it has none (an element child raises before it is used). */
  function LabelText(tag: Label): string {
    match tag.first
    case Some(TextChild(t)) => Strip(t)
    case _ => ""
  }

  /** What one label stores: nothing without a `span`; else its value under its key. */
  function LabelEntry(tag: Label): Option<(string, Value)> {
    match tag.value
    case None => None
    case Some(v) => Some((LabelKey(LabelText(tag)), LabelValue(Strip(v))))
  }

  /** What each label stores, in order. */
  function LabelEntries(labels: seq<Label>): (r: seq<Option<(string, Value)>>)
    ensures |r| == |labels|
  {
    if labels == [] then [] else LabelEntries(labels[..|labels| - 1]) + [LabelEntry(labels[|labels| - 1])]
  }

  /** `LabelEntries` lists each label's entry in order. */
  lemma {:induction false} LabelEntriesAt(labels: seq<Label>, i: nat)
    requires i < |labels|
    ensures LabelEntries(labels)[i] == LabelEntry(labels[i])
  {
    if i < |labels| - 1 {
      LabelEntriesAt(labels[..|labels| - 1], i);
    }
  }

  /** The row with the team-stats labels stored, when the section has the block. */
  function WithLabels(d: Dict, teamStats: Option<seq<Label>>): Dict {
    match teamStats
    case None => d
    case Some(labels) => StoreAll(d, LabelEntries(labels), |labels|)
  }

  /**
   * The team's row after the cell loop, when the section has a caption, a
   * table and a total row. The team is the caption's text as it stands,
   * NOT resolved through the team mapping.
   */
  function TeamTotals(sec: Section, gameId: string): Option<Dict> {
    if sec.caption.None? || sec.table.None? then None
    else
      match TotalRow(sec.table.value)
      case None => None
      case Some(total) => Some(FilledTeamRow(total, HeaderKeys(sec.table.value.head), gameId, Strip(sec.caption.value)))
  }

  /** The finished team row: the split row without the per-player columns, with the labels stored. */
  function FinishTeamRow(split: Dict, teamStats: Option<seq<Label>>): Dict {
    WithLabels(DropPlayerColumns(split), teamStats)
  }

  /**
   * What one performance section contributes: nothing without a caption or
   * a table; an exception for a `thead` without a `tr`; nothing without a
   * total row; an exception when the split or a label raises; otherwise the
   * team's row.
   */
  function TeamSectionStep(sec: Section, gameId: string): Step {
    if sec.caption.None? || sec.table.None? then Skipped
    else if HeadRaises(sec.table.value.head) then Raised
    else
      match TeamTotals(sec, gameId)
      case None => Skipped
      case Some(d) =>
        match Shooting.SplitShooting(d)
        case None => Raised
        case Some(split) =>
          if sec.teamStats.Some? && LabelsRaise(sec.teamStats.value) then Raised
          else Emitted(FinishTeamRow(split, sec.teamStats))
  }

  /** The outcome of each section, in order. */
  function TeamSteps(sections: seq<Section>, gameId: string): (r: seq<Step>)
    ensures |r| == |sections|
  {
    if sections == [] then [] else TeamSteps(sections[..|sections| - 1], gameId) + [TeamSectionStep(sections[|sections| - 1], gameId)]
  }

  /** `TeamSteps` lists each section's outcome in order. */
  lemma {:induction false} TeamStepsAt(sections: seq<Section>, gameId: string, i: nat)
    requires i < |sections|
    ensures TeamSteps(sections, gameId)[i] == TeamSectionStep(sections[i], gameId)
  {
    if i < |sections| - 1 {
      TeamStepsAt(sections[..|sections| - 1], gameId, i);
    }
  }

  /** What `scrape_team_stats` returns for a page's performance sections. */
  function TeamStatsOf(sections: seq<Section>, gameId: string): seq<Dict> {
    RowsFold(TeamSteps(sections, gameId), |sections|).rows
  }

  /** The filled row holds nothing but text. */
  lemma FilledTeamText(total: Row, headerKeys: seq<Option<string>>, gameId: string, team: string)
    ensures TextExcept(FilledTeamRow(total, headerKeys, gameId, team), {})
  {
    TotalEntriesText(total.cells, headerKeys);
    StoreAllText(StartTeamRow(gameId, team), TotalEntries(total.cells, headerKeys), |total.cells|, {});
  }

  /**
   * A section with a caption and a table raises exactly when its `thead`
   * has no `tr`, or when it has a total row and one of its labels has an
   * element as its first child: the shooting split of a row of text never
   * raises.
   */
  predicate SectionRaises(sec: Section) {
    && sec.caption.Some? && sec.table.Some?
    && (|| HeadRaises(sec.table.value.head)
        || (TotalRow(sec.table.value).Some? && sec.teamStats.Some? && LabelsRaise(sec.teamStats.value)))
  }

  /**
   * A section ends the scrape exactly when SectionRaises says so, and yields
   * a team row exactly when it has a caption, a table, a header row when it
   * has a `thead`, a total row, and no label that raises.
   */
  lemma TeamSectionOutcome(sec: Section, gameId: string)
    ensures TeamSectionStep(sec, gameId).Raised? <==> SectionRaises(sec)
    ensures TeamSectionStep(sec, gameId).Emitted? <==>
      sec.caption.Some? && sec.table.Some? && !HeadRaises(sec.table.value.head) && TotalRow(sec.table.value).Some? &&
      !(sec.teamStats.Some? && LabelsRaise(sec.teamStats.value))
  {
    var d := TeamTotals(sec, gameId);
    if d.Some? {
      var t := sec.table.value;
      FilledTeamText(TotalRow(t).value, HeaderKeys(t.head), gameId, Strip(sec.caption.value));
      Shooting.TextRowsDoNotRaise(d.value, Shooting.Site, {});
      Shooting.SiteStepsApart();
      Shooting.SplitRaises(d.value, Shooting.Site);
    }
  }

  /** The columns a team row is described by are none the shooting split touches. */
  lemma TeamKeysUntouched()
    ensures "game_id" !in Shooting.Touched(Shooting.Site)
    ensures "team" !in Shooting.Touched(Shooting.Site)
  {
  }

  /** The key label `i` stores its value under, when it has a `span`. */
  predicate LabelNames(labels: seq<Label>, i: nat, k: string)
    requires i < |labels|
  {
    labels[i].value.Some? && LabelKey(LabelText(labels[i])) == k
  }

  /**
   * A finished team row has none of the per-player columns unless a label
   * is named after one; every other key no label names keeps its value
   * from the split row.
   */
  lemma FinishTeamRowKeeps(split: Dict, labels: seq<Label>, k: string)
    requires forall i :: 0 <= i < |labels| ==> !LabelNames(labels, i, k)
    ensures k in {"min", "pm", "#", "number"} ==> k !in FinishTeamRow(split, Some(labels))
    ensures k !in {"min", "pm", "#", "number"} ==> Get(FinishTeamRow(split, Some(labels)), k) == Get(split, k)
  {
    forall i | 0 <= i < |labels| && LabelEntries(labels)[i].Some? ensures LabelEntries(labels)[i].value.0 != k {
      LabelEntriesAt(labels, i);
      assert !LabelNames(labels, i, k);
    }
    StoreAllKeeps(DropPlayerColumns(split), LabelEntries(labels), |labels|, k);
  }

  /** Without a team-stats block the finished row is the split row without the per-player columns. */
  lemma FinishTeamRowPlain(split: Dict, k: string)
    ensures k in {"min", "pm", "#", "number"} ==> k !in FinishTeamRow(split, None)
    ensures k !in {"min", "pm", "#", "number"} ==> Get(FinishTeamRow(split, None), k) == Get(split, k)
  {
  }

  /** The last label naming a key decides its value: the number its text spells, or the text itself. */
  lemma LabelStored(split: Dict, labels: seq<Label>, i: nat)
    requires i < |labels|
    requires labels[i].value.Some?
    requires forall j :: i < j < |labels| ==> !LabelNames(labels, j, LabelKey(LabelText(labels[i])))
    ensures Get(FinishTeamRow(split, Some(labels)), LabelKey(LabelText(labels[i]))) == Some(LabelValue(Strip(labels[i].value.value)))
  {
    var k := LabelKey(LabelText(labels[i]));
    forall j | i < j < |labels| && LabelEntries(labels)[j].Some? ensures LabelEntries(labels)[j].value.0 != k {
      LabelEntriesAt(labels, j);
      assert !LabelNames(labels, j, k);
    }
    LabelEntriesAt(labels, i);
    StoreAllLast(DropPlayerColumns(split), LabelEntries(labels), |labels|, i);
  }

  /** A label's text is stored under one of the English keys, or else under the text itself. */
  lemma LabelKeys(text: string)
    ensures LabelKey(text) in SupplementalKeys || LabelKey(text) == text
    ensures LabelKey(text) != text ==> LabelKey(text) in SupplementalKeys
  {
  }

  /** Some cell of the total row other than the name cell stores its text under `k`. */
  predicate CellNames(cells: seq<Cell>, headerKeys: seq<Option<string>>, i: nat, k: string)
    requires i < |cells|
  {
    "data-name" !in cells[i].classes && CellKey(cells[i].classes, i, headerKeys) == Some(k)
  }

  /**
   * The split keeps the game and the stripped caption the row was started
   * with, unless a cell of the total row stores a value under their keys.
   */
  lemma SplitKeepsTeam(total: Row, headerKeys: seq<Option<string>>, gameId: string, team: string, k: string)
    requires k == "game_id" || k == "team"
    requires forall i :: 0 <= i < |total.cells| ==> !CellNames(total.cells, headerKeys, i, k)
    ensures var d := FilledTeamRow(total, headerKeys, gameId, team);
      Shooting.SplitShooting(d).Some? && Get(Shooting.SplitShooting(d).value, k) == Some(Str(if k == "team" then team else gameId))
  {
    var d := FilledTeamRow(total, headerKeys, gameId, team);
    var entries := TotalEntries(total.cells, headerKeys);
    forall i | 0 <= i < |total.cells| && entries[i].Some? ensures entries[i].value.0 != k {
      TotalEntriesAt(total.cells, headerKeys, i);
      assert !CellNames(total.cells, headerKeys, i, k);
    }
    StoreAllKeeps(StartTeamRow(gameId, team), entries, |total.cells|, k);
    FilledTeamText(total, headerKeys, gameId, team);
    Shooting.TextRowsDoNotRaise(d, Shooting.Site, {});
    Shooting.SiteStepsApart();
    Shooting.SplitRaises(d, Shooting.Site);
    TeamKeysUntouched();
    Shooting.SplitKeeps(d, Shooting.Site, Shooting.SplitShooting(d).value, k);
  }

  /** Exactly the sections SectionRaises picks out end the scrape. */
  lemma TeamStepsRaise(sections: seq<Section>, gameId: string)
    ensures forall i :: 0 <= i < |sections| ==> (TeamSteps(sections, gameId)[i].Raised? <==> SectionRaises(sections[i]))
  {
    forall i | 0 <= i < |sections| ensures TeamSteps(sections, gameId)[i].Raised? <==> SectionRaises(sections[i]) {
      TeamStepsAt(sections, gameId, i);
      TeamSectionOutcome(sections[i], gameId);
    }
  }

  /** Some section of the list ends the scrape. */
  predicate AnyRaises(sections: seq<Section>) {
    exists i :: 0 <= i < |sections| && SectionRaises(sections[i])
  }

  /**
   * Adding a section adds its team row, if it yields one, at the end, unless
   * an earlier section has ended the scrape: the result is one row per
   * complete section, in section order, up to the first that raises.
   */
  lemma TeamStatsSnoc(sections: seq<Section>, sec: Section, gameId: string)
    ensures TeamStatsOf(sections + [sec], gameId) ==
      TeamStatsOf(sections, gameId) +
      (if !AnyRaises(sections) && TeamSectionStep(sec, gameId).Emitted? then [TeamSectionStep(sec, gameId).row] else [])
  {
    var all := sections + [sec];
    assert all[..|all| - 1] == sections;
    var steps := TeamSteps(all, gameId);
    var before := TeamSteps(sections, gameId);
    assert steps == before + [TeamSectionStep(sec, gameId)];
    RowsFoldPrefix(before, steps, |sections|);
    TeamStepsRaise(sections, gameId);
    RowsFoldStoppedIff(before, |sections|);
    assert RowsFold(before, |sections|).stopped <==> AnyRaises(sections) by {
      if AnyRaises(sections) {
        var i :| 0 <= i < |sections| && SectionRaises(sections[i]);
        assert before[i].Raised?;
      }
    }
  }

  /**
   * A section that raises ends the scrape: what is returned is the rows of
   * the sections before it, whatever follows.
   */
  lemma RaisingSectionEndsScrape(sections: seq<Section>, gameId: string, i: nat)
    requires i < |sections| && SectionRaises(sections[i])
    ensures TeamStatsOf(sections, gameId) == RowsFold(TeamSteps(sections, gameId), i).rows
  {
    var steps := TeamSteps(sections, gameId);
    TeamStepsAt(sections, gameId, i);
    TeamSectionOutcome(sections[i], gameId);
    if RowsFold(steps, i).stopped {
      RowsFoldStopped(steps, i, |sections|);
    } else {
      RowsFoldStopped(steps, i + 1, |sections|);
    }
  }

  /** The first `data-` class loop: the key of the first class starting with `data-`. */
  method FirstDataKey(classes: seq<string>) returns (key: Option<string>)
    ensures key == DataKeyOf(classes)
  {
    key := None;
    var i := 0;
    while i < |classes|
      invariant i <= |classes|
      invariant forall j :: 0 <= j < i ==> !StartsWith(classes[j], DataPrefix)
    {
      if StartsWith(classes[i], DataPrefix) {
        key := Some(RemoveAll(classes[i], DataPrefix));
        DataKeyAt(classes, i);
        return;
      }
      i := i + 1;
    }
  }

  /** The header loop: the key of each header cell, in order; None when the `thead` has no `tr` and the loop raises. */
  method ReadHeaderKeys(head: Option<Thead>) returns (keys: Option<seq<Option<string>>>)
    ensures keys == if HeadRaises(head) then None else Some(HeaderKeys(head))
  {
    if head.None? {
      return Some([]);
    }
    if head.value.row.None? {
      return None;
    }
    var hs := head.value.row.value;
    var ks := [];
    for i := 0 to |hs|
      invariant ks == KeysOf(hs[..i])
    {
      assert hs[..i + 1][..i] == hs[..i];
      var key := FirstDataKey(hs[i].classes);
      ks := ks + [key];
    }
    assert hs[..|hs|] == hs;
    keys := Some(ks);
  }

  /** `tfoot.find('tr', class_='sp-total-row')`. */
  method FindFootTotal(rows: seq<Row>) returns (r: Option<Row>)
    ensures r == FirstWithClass(rows, TotalRowClass)
  {
    for i := 0 to |rows|
      invariant forall j :: 0 <= j < i ==> TotalRowClass !in rows[j].classes
    {
      if TotalRowClass in rows[i].classes {
        FirstWithClassAt(rows, TotalRowClass, i);
        return Some(rows[i]);
      }
    }
    return None;
  }

  /** The reversed scan of the body rows for the totals row. */
  method FindTotalLine(rows: seq<Row>) returns (r: Option<Row>)
    ensures r == LastTotalLine(rows)
  {
    var k := |rows|;
    while k > 0
      invariant 0 <= k <= |rows|
      invariant forall j :: k <= j < |rows| ==> !IsTotalLine(rows[j])
    {
      if IsTotalLine(rows[k - 1]) {
        LastTotalLineAt(rows, k - 1);
        return Some(rows[k - 1]);
      }
      k := k - 1;
    }
    return None;
  }

  /** The search for the total row: the footer first, then the body in reverse. */
  method FindTotalRow(t: Table) returns (r: Option<Row>)
    ensures r == TotalRow(t)
  {
    r := None;
    if t.foot.Some? {
      r := FindFootTotal(t.foot.value);
    }
    if r.None? && t.body.Some? {
      r := FindTotalLine(t.body.value);
    }
  }

  /** One step of the cell loop: what the cell at `idx` stores. */
  method TotalCellEntry(cells: seq<Cell>, idx: nat, headerKeys: seq<Option<string>>) returns (e: Option<(string, Value)>)
    requires idx < |cells|
    ensures e == TotalEntries(cells, headerKeys)[idx]
  {
    TotalEntriesAt(cells, headerKeys, idx);
    var cell := cells[idx];
    if "data-name" in cell.classes {
      return None;
    }
    var key := FirstDataKey(cell.classes);
    if (key.None? || key.value == "") && idx < |headerKeys| {
      key := headerKeys[idx];
    }
    if key.Some? && key.value != "" {
      e := Some((key.value, Str(Strip(cell.text))));
    } else {
      e := None;
    }
  }

  /** The cell loop over the total row. */
  method FillTeamRow(d: Dict, cells: seq<Cell>, headerKeys: seq<Option<string>>) returns (r: Dict)
    ensures r == StoreAll(d, TotalEntries(cells, headerKeys), |cells|)
  {
    ghost var entries := TotalEntries(cells, headerKeys);
    r := d;
    for idx := 0 to |cells|
      invariant r == StoreAll(d, entries, idx)
    {
      var e := TotalCellEntry(cells, idx, headerKeys);
      if e.Some? {
        r := r[e.value.0 := e.value.1];
      }
    }
  }

  /** One step of the label loop. */
  method ReadLabel(labels: seq<Label>, i: nat) returns (e: Option<(string, Value)>)
    requires i < |labels|
    ensures e == LabelEntries(labels)[i]
  {
    LabelEntriesAt(labels, i);
    var tag := labels[i];
    if tag.value.None? {
      return None;
    }
    var text := LabelText(tag);
    var v := Strip(tag.value.value);
    e := Some((LabelKey(text), LabelValue(v)));
  }

  /** The label loop of the team-stats block; None when a label's first child is an element and the loop raises. */
  method AddLabels(d: Dict, labels: seq<Label>) returns (r: Option<Dict>)
    ensures r == if LabelsRaise(labels) then None else Some(StoreAll(d, LabelEntries(labels), |labels|))
  {
    ghost var entries := LabelEntries(labels);
    var e := d;
    for i := 0 to |labels|
      invariant e == StoreAll(d, entries, i)
      invariant forall j :: 0 <= j < i ==> !LabelRaises(labels[j])
    {
      if labels[i].first == Some(ElementChild) {
        return None;
      }
      var entry := ReadLabel(labels, i);
      if entry.Some? {
        e := e[entry.value.0 := entry.value.1];
      }
    }
    r := Some(e);
  }

  /** The body of the section loop of `scrape_team_stats`. */
  method ScrapeTeamSection(sec: Section, gameId: string) returns (step: Step)
    ensures step == TeamSectionStep(sec, gameId)
  {
    if sec.caption.None? || sec.table.None? {
      return Skipped;
    }
    var team := Strip(sec.caption.value);
    var t := sec.table.value;
    var headerKeys := ReadHeaderKeys(t.head);
    if headerKeys.None? {
      return Raised;
    }
    var total := FindTotalRow(t);
    if total.None? {
      return Skipped;
    }
    var d := FillTeamRow(StartTeamRow(gameId, team), total.value.cells, headerKeys.value);
    var split := Shooting.SplitShootingStats(d);
    if split.None? {
      return Raised;
    }
    var r := DropPlayerColumns(split.value);
    if sec.teamStats.Some? {
      var labelled := AddLabels(r, sec.teamStats.value);
      if labelled.None? {
        return Raised;
      }
      r := labelled.value;
    }
    step := Emitted(r);
  }

  /** One step of the section loop. */
  method ScrapeTeamSectionAt(sections: seq<Section>, i: nat, gameId: string) returns (step: Step)
    requires i < |sections|
    ensures step == TeamSteps(sections, gameId)[i]
  {
    step := ScrapeTeamSection(sections[i], gameId);
    TeamStepsAt(sections, gameId, i);
  }

  /** `scrape_team_stats`: the section loop, ending early if a section raises. */
  method ScrapeTeamStats(sections: seq<Section>, gameId: string) returns (stats: seq<Dict>)
    ensures stats == TeamStatsOf(sections, gameId)
  {
    ghost var steps := TeamSteps(sections, gameId);
    var c := Collected([], false);
    for i := 0 to |sections|
      invariant c == RowsFold(steps, i) && !c.stopped
    {
      var step := ScrapeTeamSectionAt(sections, i, gameId);
      c := Extend(c, step);
      if c.stopped {
        RowsFoldStopped(steps, i + 1, |sections|);
        return c.rows;
      }
    }
    stats := c.rows;
  }
}
