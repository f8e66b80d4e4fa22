/**
 * Player biography rules: the season label normalisation, the date-of-birth
 * reformatting, and the completeness planner that decides whether a
 * player's page must be fetched again (`has_any_history`, `needs_scraping`).
 */
module PlayerDetails {
  import opened Wrappers
  import opened Text

  /** Python's `s[-2:]`: the last two characters, or all of a shorter string. */
  function LastTwo(s: string): (r: string)
    ensures |r| == if |s| < 2 then |s| else 2
    ensures EndsWith(s, r)
  {
    if |s| <= 2 then s else s[|s| - 2..]
  }

  /**
   * `normalize_season`: a label with exactly one `-` keeps its first part
   * and the last two characters of the second ("2024-2025" becomes
   * "2024-25"); any other label is returned as it is.
   */
  function NormalizeSeason(season: string): (r: string)
    ensures '-' !in season ==> r == season
  {
    var parts := Split(season, '-');
    if |parts| == 2 then parts[0] + "-" + LastTwo(parts[1]) else season
  }

  /** A two-part label `a-b` becomes `a-` followed by the last two characters of `b`. */
  lemma NormalizeTwoPartSeason(a: string, b: string)
    requires '-' !in a && '-' !in b
    ensures NormalizeSeason(a + "-" + b) == a + "-" + LastTwo(b)
  {
    assert Join([a, b], ['-']) == a + "-" + b;
    SplitOfJoin([a, b], '-');
  }

  /** A label with two or more dashes is returned unchanged. */
  lemma NormalizeManyPartSeason(a: string, b: string, c: string)
    requires '-' !in a && '-' !in b
    ensures NormalizeSeason(a + "-" + b + "-" + c) == a + "-" + b + "-" + c
  {
    var s := a + "-" + b + "-" + c;
    var parts := Split(s, '-');
    assert s == a + "-" + (b + "-" + c);
    assert s[|a|] == '-' && s[..|a|] == a;
    assert FirstIndex(s, '-') == |a|;
    var rest := s[|a| + 1..];
    assert rest == b + "-" + c;
    assert rest[|b|] == '-' && rest[..|b|] == b;
    assert FirstIndex(rest, '-') == |b|;
    assert |parts| >= 3;
  }

  /** Normalising a normalised season label changes nothing. */
  lemma NormalizeSeasonIdempotent(season: string)
    ensures NormalizeSeason(NormalizeSeason(season)) == NormalizeSeason(season)
  {
    var parts := Split(season, '-');
    if |parts| == 2 {
      SplitJoin(season, '-');
      var tail := LastTwo(parts[1]);
      assert '-' !in parts[0] && '-' !in parts[1];
      assert '-' !in tail by {
        assert forall k :: 0 <= k < |tail| ==> tail[k] == parts[1][|parts[1]| - |tail| + k];
      }
      NormalizeTwoPartSeason(parts[0], tail);
    }
  }

  function Reverse<T>(s: seq<T>): (r: seq<T>)
    ensures |r| == |s|
    ensures forall i :: 0 <= i < |s| ==> r[i] == s[|s| - 1 - i]
  {
    if s == [] then [] else Reverse(s[1..]) + [s[0]]
  }

  lemma ReverseReverse<T>(s: seq<T>)
    ensures Reverse(Reverse(s)) == s
  {
  }

  /**
   * The date-of-birth reformatting: the `-`-separated parts of the page's
   * date, in reverse order, joined with `/` ("1999-04-17" becomes
   * "17/04/1999"); an empty date stays empty.
   */
  function FormatDob(dobText: string): (r: string)
    ensures dobText == "" <==> r == ""
  {
    if dobText == "" then "" else Join(Reverse(Split(dobText, '-')), "/")
  }

  lemma JoinThree(a: string, b: string, c: string, sep: string)
    ensures Join([a, b, c], sep) == a + sep + b + sep + c
  {
    assert [a, b, c][1..] == [b, c] && [b, c][1..] == [c];
    assert Join([b, c], sep) == b + sep + c;
  }

  /** A `year-month-day` date becomes `day/month/year`. */
  lemma FormatIsoDate(year: string, month: string, day: string)
    requires '-' !in year && '-' !in month && '-' !in day
    ensures FormatDob(year + "-" + month + "-" + day) == day + "/" + month + "/" + year
  {
    JoinThree(year, month, day, "-");
    SplitOfJoin([year, month, day], '-');
    assert Reverse([year, month, day]) == [day, month, year];
    JoinThree(day, month, year, "/");
  }

  /** The reformatting is undone by splitting on `/`, reversing and joining with `-`. */
  lemma FormatDobRoundTrip(dobText: string)
    requires dobText != "" && '/' !in dobText
    ensures Join(Reverse(Split(FormatDob(dobText), '/')), "-") == dobText
  {
    var parts := Split(dobText, '-');
    SplitPiecesAvoid(dobText, '-', '/');
    var reversed := Reverse(parts);
    assert forall i :: 0 <= i < |reversed| ==> '/' !in reversed[i];
    assert FormatDob(dobText) == Join(reversed, ['/']);
    SplitOfJoin(reversed, '/');
    ReverseReverse(parts);
    SplitJoin(dobText, '-');
    assert Join(parts, ['-']) == dobText;
  }

  /** The columns of a history row that are biography, not seasons. */
  const BioColumns: set<string> := {"Name", "Current Team", "Date Of Birth", "Height", "Number"}

  /**
   * A stored cell: None is a missing value (NaN), `Some(s)` a present one
   * with `s` its `str()` rendering.
   */
  type Stored = Option<string>

  /** A persisted row, its columns in file order. */
  type StoredRow = seq<(string, Stored)>

  /** `pd.isna(v) or str(v).strip() == ""`. */
  predicate Blank(v: Stored) {
    v.None? || Strip(v.value) == ""
  }

  /** The loop of `has_any_history` over one row: some season column holds a non-blank value. */
  function HasSeasonEntry(row: StoredRow): (r: bool)
    ensures r <==> exists i :: 0 <= i < |row| && row[i].0 !in BioColumns && !Blank(row[i].1)
  {
    if row == [] then false
    else if row[0].0 !in BioColumns && !Blank(row[0].1) then true
    else
      var r := HasSeasonEntry(row[1..]);
      assert forall i :: 1 <= i < |row| ==> row[i] == row[1..][i - 1];
      r
  }

  /** `has_any_history`: the player has a history row with some non-blank season column. */
  function HasAnyHistory(name: string, history: map<string, StoredRow>): (r: bool)
    ensures r <==> name in history && exists i :: 0 <= i < |history[name]| && history[name][i].0 !in BioColumns && !Blank(history[name][i].1)
  {
    name in history && HasSeasonEntry(history[name])
  }

  /** The tags `needs_scraping` reports. */
  datatype Reason = NewPlayer | MissingDob | MissingHeight | MissingNumber | NoHistory | Complete

  /** The text the scraper logs for each reason. */
  function ReasonText(reason: Reason): string {
    match reason
    case NewPlayer => "New player"
    case MissingDob => "Missing DOB"
    case MissingHeight => "Missing Height"
    case MissingNumber => "Missing Number"
    case NoHistory => "No history data"
    case Complete => "Complete data"
  }

  /** `details.get(column, "")`. */
  function Field(details: map<string, Stored>, column: string): Stored {
    if column in details then details[column] else Some("")
  }

  /** The player's stored details are all present and a season entry is stored. */
  predicate CompleteRecord(name: string, details: map<string, map<string, Stored>>, history: map<string, StoredRow>) {
    && name in details
    && !Blank(Field(details[name], "Date Of Birth"))
    && !Blank(Field(details[name], "Height"))
    && !Blank(Field(details[name], "Number"))
    && HasAnyHistory(name, history)
  }

  /**
   * `needs_scraping`: the first failing check, in order (no stored details,
   * blank date of birth, blank height, blank number, no season entry)
   * decides the reason, and only a complete record is not fetched again.
   */
  function NeedsScraping(name: string, details: map<string, map<string, Stored>>, history: map<string, StoredRow>): (r: (bool, Reason))
    ensures r.0 <==> r.1 != Complete
    ensures r.1 == Complete <==> CompleteRecord(name, details, history)
    ensures r.1 == NewPlayer <==> name !in details
    ensures r.1 == MissingDob <==> name in details && Blank(Field(details[name], "Date Of Birth"))
    ensures r.1 == MissingHeight <==>
      (name in details && !Blank(Field(details[name], "Date Of Birth")) && Blank(Field(details[name], "Height")))
    ensures r.1 == MissingNumber <==>
      (name in details && !Blank(Field(details[name], "Date Of Birth")) && !Blank(Field(details[name], "Height"))
       && Blank(Field(details[name], "Number")))
  {
    if name !in details then (true, NewPlayer)
    else
      var d := details[name];
      if Blank(Field(d, "Date Of Birth")) then (true, MissingDob)
      else if Blank(Field(d, "Height")) then (true, MissingHeight)
      else if Blank(Field(d, "Number")) then (true, MissingNumber)
      else if !HasAnyHistory(name, history) then (true, NoHistory)
      else (false, Complete)
  }

  /** A stored row with complete biography but only biography columns is fetched for its history. */
  lemma BioOnlyHistoryIsRefetched(name: string, details: map<string, map<string, Stored>>, history: map<string, StoredRow>)
    requires name in details && name in history
    requires !Blank(Field(details[name], "Date Of Birth")) && !Blank(Field(details[name], "Height")) && !Blank(Field(details[name], "Number"))
    requires forall i :: 0 <= i < |history[name]| ==> history[name][i].0 in BioColumns
    ensures NeedsScraping(name, details, history) == (true, NoHistory)
    ensures ReasonText(NeedsScraping(name, details, history).1) == "No history data"
  {
  }
}
