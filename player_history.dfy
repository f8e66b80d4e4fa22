/**
 * The season history read from a player's page (`scrape_player_history`).
 * The page's walk over the teams block is given as the sequence of entries
 * it meets, one per line break: the season span that follows it, the team
 * link after the span and the league link after the team, each possibly
 * missing.
 */
module PlayerHistory {
  import opened Wrappers
  import opened Text
  import PlayerDetails

  datatype HistoryEntry = HistoryEntry(seasonRaw: Option<string>, team: Option<string>, league: Option<string>)

  /** The word that marks a youth league ("youth" in Hebrew). */
  const YouthMark: string := "נוער"

  /** The entry has its season, its team and its league; the others are passed over. */
  predicate Full(e: HistoryEntry) {
    e.seasonRaw.Some? && e.team.Some? && e.league.Some?
  }

  /** A full entry whose league is a youth league. */
  predicate IsYouth(e: HistoryEntry) {
    Full(e) && Contains(e.league.value, YouthMark)
  }

  /** The number of youth entries among `es`. */
  function YouthCount(es: seq<HistoryEntry>): nat {
    if es == [] then 0
    else YouthCount(es[..|es| - 1]) + (if IsYouth(es[|es| - 1]) then 1 else 0)
  }

  /** The length of the longest prefix of `es` holding at most one youth entry. */
  function Cutoff(es: seq<HistoryEntry>): (c: nat)
    ensures c <= |es|
  {
    if YouthCount(es) <= 1 then |es| else Cutoff(es[..|es| - 1])
  }

  /** The text recorded for a full entry: `team (league)`. */
  function Describe(e: HistoryEntry): string
    requires Full(e)
  {
    e.team.value + " (" + e.league.value + ")"
  }

  /** The season key of a full entry. */
  function SeasonKey(e: HistoryEntry): string
    requires Full(e)
  {
    PlayerDetails.NormalizeSeason(e.seasonRaw.value)
  }

  /** The (season key, text) pairs of the full entries among `es`, in order. */
  function Recorded(es: seq<HistoryEntry>): seq<(string, string)> {
    if es == [] then []
    else
      var last := es[|es| - 1];
      Recorded(es[..|es| - 1]) + (if Full(last) then [(SeasonKey(last), Describe(last))] else [])
  }

  /** One step of the accumulation: a repeated season gets `, text` appended. */
  function Add(history: map<string, string>, season: string, text: string): map<string, string> {
    if season in history then history[season := history[season] + ", " + text] else history[season := text]
  }

  /** The history dict after recording `pairs` in order. */
  function Accumulate(pairs: seq<(string, string)>): map<string, string> {
    if pairs == [] then map[]
    else
      var last := pairs[|pairs| - 1];
      Add(Accumulate(pairs[..|pairs| - 1]), last.0, last.1)
  }

  /** What the history of a page holds: the full entries before the second youth entry, accumulated. */
  function HistoryOf(es: seq<HistoryEntry>): map<string, string> {
    Accumulate(Recorded(es[..Cutoff(es)]))
  }

  /** The texts recorded for `season`, in encounter order. */
  function TextsFor(pairs: seq<(string, string)>, season: string): seq<string> {
    if pairs == [] then []
    else
      var last := pairs[|pairs| - 1];
      TextsFor(pairs[..|pairs| - 1], season) + (if last.0 == season then [last.1] else [])
  }

  /** Accumulating one more pair is one more `Add`. */
  lemma AccumulateSnoc(pairs: seq<(string, string)>, season: string, text: string)
    ensures Accumulate(pairs + [(season, text)]) == Add(Accumulate(pairs), season, text)
  {
    assert (pairs + [(season, text)])[..|pairs|] == pairs;
  }

  /** One more entry in the walk: what the prefix functions become. */
  lemma StepEntry(es: seq<HistoryEntry>, i: nat)
    requires i < |es|
    ensures YouthCount(es[..i + 1]) == YouthCount(es[..i]) + (if IsYouth(es[i]) then 1 else 0)
    ensures Recorded(es[..i + 1]) == Recorded(es[..i]) + (if Full(es[i]) then [(SeasonKey(es[i]), Describe(es[i]))] else [])
  {
    assert es[..i + 1][..i] == es[..i];
  }

  /** Counting youth entries over a longer prefix never gives fewer. */
  lemma {:induction false} YouthCountMonotone(es: seq<HistoryEntry>, a: nat, b: nat)
    requires a <= b <= |es|
    ensures YouthCount(es[..a]) <= YouthCount(es[..b])
    decreases b - a
  {
    if a < b {
      assert es[..b][..b - 1] == es[..b - 1];
      YouthCountMonotone(es, a, b - 1);
    }
  }

  /** The cutoff is the unique prefix length holding at most one youth entry that stops at the second. */
  lemma {:induction false} CutoffIs(es: seq<HistoryEntry>, c: nat)
    requires c <= |es| && YouthCount(es[..c]) <= 1
    requires c < |es| ==> YouthCount(es[..c + 1]) >= 2
    ensures Cutoff(es) == c
  {
    assert es[..|es|] == es;
    if YouthCount(es) <= 1 {
      if c < |es| {
        YouthCountMonotone(es, c + 1, |es|);
      }
    } else {
      var n := |es| - 1;
      var prefix := es[..n];
      assert c < |es|;
      assert prefix[..c] == es[..c];
      if c < n {
        assert prefix[..c + 1] == es[..c + 1];
      } else {
        assert prefix[..c] == prefix;
      }
      CutoffIs(prefix, c);
    }
  }

  /**
   * The cutoff keeps at most one youth entry, and when it stops early the
   * entry it stops at is a youth entry and the second one.
   */
  lemma {:induction false} CutoffStopsAtSecondYouth(es: seq<HistoryEntry>)
    ensures YouthCount(es[..Cutoff(es)]) <= 1
    ensures Cutoff(es) < |es| ==> IsYouth(es[Cutoff(es)]) && YouthCount(es[..Cutoff(es) + 1]) == 2
  {
    assert es[..|es|] == es;
    if YouthCount(es) > 1 {
      var n := |es| - 1;
      var prefix := es[..n];
      CutoffStopsAtSecondYouth(prefix);
      var c := Cutoff(prefix);
      assert prefix[..c] == es[..c];
      if c < n {
        assert prefix[..c + 1] == es[..c + 1];
      } else {
        assert es[..c + 1] == es;
        assert es[..c + 1][..c] == prefix;
      }
    }
  }

  /**
   * Repeated seasons are joined with ", " in encounter order: a season is
   * present exactly when some pair has it, and then holds the texts of
   * those pairs joined.
   */
  lemma {:induction false} AccumulateLookup(pairs: seq<(string, string)>, season: string)
    ensures season in Accumulate(pairs) <==> TextsFor(pairs, season) != []
    ensures season in Accumulate(pairs) ==> Accumulate(pairs)[season] == Join(TextsFor(pairs, season), ", ")
  {
    if pairs != [] {
      var prefix := pairs[..|pairs| - 1];
      var last := pairs[|pairs| - 1];
      AccumulateLookup(prefix, season);
      var before := TextsFor(prefix, season);
      if last.0 != season {
        assert TextsFor(pairs, season) == before + [] == before;
      } else if before == [] {
        assert TextsFor(pairs, season) == [] + [last.1] == [last.1];
      } else {
        assert TextsFor(pairs, season) == before + [last.1];
        JoinSnoc(before, last.1, ", ");
      }
    }
  }

  /** Every recorded season key is the normalised label of an entry. */
  lemma {:induction false} RecordedSeasons(es: seq<HistoryEntry>, k: nat)
    requires k < |Recorded(es)|
    ensures exists i :: 0 <= i < |es| && Full(es[i]) && Recorded(es)[k] == (SeasonKey(es[i]), Describe(es[i]))
  {
    var prefix := es[..|es| - 1];
    assert forall i :: 0 <= i < |prefix| ==> prefix[i] == es[i];
    if k < |Recorded(prefix)| {
      RecordedSeasons(prefix, k);
    }
  }

  /**
   * `scrape_player_history`: `entries` is None when the page could not be
   * fetched or has no teams block, and the history is then empty. The walk
   * counts youth entries among the full ones and stops at the second,
   * before recording it.
   */
  method ScrapePlayerHistory(entries: Option<seq<HistoryEntry>>) returns (history: map<string, string>)
    ensures entries.None? ==> history == map[]
    ensures entries.Some? ==> history == HistoryOf(entries.value)
  {
    history := map[];
    if entries.None? {
      return;
    }
    var es := entries.value;
    var youth := 0;
    var i := 0;
    while i < |es|
      invariant i <= |es|
      invariant youth == YouthCount(es[..i]) && youth <= 1
      invariant history == Accumulate(Recorded(es[..i]))
    {
      var e := es[i];
      StepEntry(es, i);
      ghost var before := Recorded(es[..i]);
      if e.seasonRaw.Some? && e.team.Some? && e.league.Some? {
        var season := PlayerDetails.NormalizeSeason(e.seasonRaw.value);
        var team := e.team.value;
        var league := e.league.value;
        if Contains(league, YouthMark) {
          youth := youth + 1;
          if youth > 1 {
            CutoffIs(es, i);
            break;
          }
        }
        var text := team + " (" + league + ")";
        AccumulateSnoc(before, season, text);
        if season in history {
          history := history[season := history[season] + ", " + text];
        } else {
          history := history[season := text];
        }
      } else {
        assert Recorded(es[..i + 1]) == before + [] == before;
      }
      i := i + 1;
    }
    if i == |es| {
      assert es[..i] == es;
      CutoffIs(es, i);
    }
  }
}
