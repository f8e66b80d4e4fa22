/**
 * The rank columns of the team and opponent averages: pandas'
 * `rank(method='min')`, which columns are ranked, and in which direction.
 */
module Ranking {
  import opened Text
  import opened Columns

  /** `ascending=False`: a larger value ranks better; `ascending=True`: a smaller one does. */
  datatype Direction = Descending | Ascending

  /** `x` ranks strictly ahead of `y`. */
  predicate Better(x: real, y: real, d: Direction) {
    if d == Descending then x > y else x < y
  }

  /** How many values of `xs` rank strictly ahead of `x`. */
  function CountBetter(xs: seq<real>, x: real, d: Direction): (k: nat)
    ensures k <= |xs|
  {
    if xs == [] then 0
    else (if Better(xs[0], x, d) then 1 else 0) + CountBetter(xs[1..], x, d)
  }

  /**
   * `rank(method='min')` of row `i`: one more than the number of rows whose
   * value ranks strictly ahead, so that tied rows share the lowest rank of
   * their group.
   */
  function Rank(xs: seq<real>, i: nat, d: Direction): int
    requires i < |xs|
  {
    1 + CountBetter(xs, xs[i], d)
  }

  /** No value ranks ahead of itself, so a value of the column is outranked by fewer than all rows. */
  lemma {:induction false} CountBetterOfMember(xs: seq<real>, x: real, d: Direction)
    requires x in xs
    ensures CountBetter(xs, x, d) < |xs|
  {
    if xs[0] != x {
      CountBetterOfMember(xs[1..], x, d);
    }
  }

  /** Whatever ranks ahead of `x` ranks ahead of anything `x` ranks ahead of; and `x` itself counts when it is in the column. */
  lemma {:induction false} CountBetterMonotone(xs: seq<real>, x: real, y: real, d: Direction)
    requires Better(x, y, d)
    ensures CountBetter(xs, x, d) <= CountBetter(xs, y, d)
    ensures x in xs ==> CountBetter(xs, x, d) < CountBetter(xs, y, d)
  {
    if xs != [] {
      CountBetterMonotone(xs[1..], x, y, d);
    }
  }

  /** Nothing ranks ahead of `x` exactly when no value of the column is better. */
  lemma {:induction false} CountBetterZero(xs: seq<real>, x: real, d: Direction)
    ensures CountBetter(xs, x, d) == 0 <==> forall j :: 0 <= j < |xs| ==> !Better(xs[j], x, d)
  {
    if xs != [] {
      CountBetterZero(xs[1..], x, d);
      assert forall j :: 1 <= j < |xs| ==> xs[j] == xs[1..][j - 1];
    }
  }

  /** Every rank lies between 1 and the number of rows. */
  lemma RankBounds(xs: seq<real>, i: nat, d: Direction)
    requires i < |xs|
    ensures 1 <= Rank(xs, i, d) <= |xs|
  {
    CountBetterOfMember(xs, xs[i], d);
  }

  /**
   * Ranks follow the values: a row ranks strictly ahead of another exactly
   * when its value is strictly better, and equal values share a rank.
   */
  lemma RankOrder(xs: seq<real>, i: nat, j: nat, d: Direction)
    requires i < |xs| && j < |xs|
    ensures Rank(xs, i, d) < Rank(xs, j, d) <==> Better(xs[i], xs[j], d)
    ensures xs[i] == xs[j] ==> Rank(xs, i, d) == Rank(xs, j, d)
  {
    if Better(xs[i], xs[j], d) {
      CountBetterMonotone(xs, xs[i], xs[j], d);
    } else if Better(xs[j], xs[i], d) {
      CountBetterMonotone(xs, xs[j], xs[i], d);
    } else {
      assert xs[i] == xs[j];
    }
  }

  /** A row is ranked first exactly when no row has a better value. */
  lemma RankFirst(xs: seq<real>, i: nat, d: Direction)
    requires i < |xs|
    ensures Rank(xs, i, d) == 1 <==> forall j :: 0 <= j < |xs| ==> !Better(xs[j], xs[i], d)
  {
    CountBetterZero(xs, xs[i], d);
  }

  /** The values negated. */
  function Negated(xs: seq<real>): (r: seq<real>)
    ensures |r| == |xs| && forall i :: 0 <= i < |xs| ==> r[i] == -xs[i]
  {
    seq(|xs|, i requires 0 <= i < |xs| => -xs[i])
  }

  /** Ranking ascending is ranking the negated values descending. */
  lemma {:induction false} CountBetterNegated(xs: seq<real>, x: real)
    ensures CountBetter(xs, x, Ascending) == CountBetter(Negated(xs), -x, Descending)
  {
    if xs != [] {
      CountBetterNegated(xs[1..], x);
      assert Negated(xs)[1..] == Negated(xs[1..]);
    }
  }

  lemma RankNegated(xs: seq<real>, i: nat)
    requires i < |xs|
    ensures Rank(xs, i, Ascending) == Rank(Negated(xs), i, Descending)
  {
    CountBetterNegated(xs, xs[i]);
  }

  /** One rank column: the rank of every row, as the integer `astype(int)` makes of it. */
  function RankValues(xs: seq<real>, d: Direction): (r: seq<real>)
    ensures |r| == |xs|
  {
    seq(|xs|, i requires 0 <= i < |xs| => Rank(xs, i, d) as real)
  }

  /**
   * An averages table, by column: the column names in order, and the values
   * of each numeric column, one per team, in row order.
   */
  datatype Averages = Averages(columns: seq<string>, values: map<string, seq<real>>)

  /** The values of a column; a column without numbers has none. */
  function Column(t: Averages, c: string): seq<real> {
    if c in t.values then t.values[c] else []
  }

  /**
   * `t[f"{c}_rank"] = t[c].rank(...)`: a new rank column goes at the end,
   * an existing one is overwritten in place.
   */
  function WithRank(t: Averages, c: string, d: Direction): (r: Averages)
    ensures Column(r, RankName(c)) == RankValues(Column(t, c), d)
    ensures forall k :: k != RankName(c) ==> Column(r, k) == Column(t, k)
  {
    var name := RankName(c);
    Averages(if name in t.columns then t.columns else t.columns + [name], t.values[name := RankValues(Column(t, c), d)])
  }

  /** The names none of which is a rank column. */
  predicate NoRankNames(cols: seq<string>) {
    forall c :: c in cols ==> !EndsWith(c, RankSuffix)
  }

  /** The rank column names of `cols`, in order. */
  function RankNames(cols: seq<string>): (r: seq<string>)
    ensures |r| == |cols| && forall i :: 0 <= i < |cols| ==> r[i] == RankName(cols[i])
  {
    seq(|cols|, i requires 0 <= i < |cols| => RankName(cols[i]))
  }

  /**
   * A ranking loop: every listed column the table has gets its rank column in
   * direction `d`, and no other column changes. When none of those rank
   * columns exists yet and the list has no repeats, they are appended in the
   * list's order.
   */
  method RankColumns(t: Averages, bases: seq<string>, d: Direction) returns (r: Averages)
    requires NoRankNames(bases)
    ensures forall c :: c in bases && c in t.columns ==> RankName(c) in r.columns && Column(r, RankName(c)) == RankValues(Column(t, c), d)
    ensures forall k :: !EndsWith(k, RankSuffix) ==> Column(r, k) == Column(t, k)
    ensures forall k :: (forall c :: c in bases && c in t.columns ==> k != RankName(c)) ==> Column(r, k) == Column(t, k)
    ensures forall c :: c in t.columns ==> c in r.columns
    ensures Distinct(bases) && (forall c :: c in bases ==> RankName(c) !in t.columns) ==>
      r.columns == t.columns + RankNames(Present(bases, t.columns))
  {
    r := t;
    assert bases[..0] == [];
    for i := 0 to |bases|
      invariant RankedSoFar(t, r, bases, i, d)
      invariant ColumnsSoFar(t, r, bases, i)
    {
      RankedStep(t, r, bases, i, d);
      ColumnsStep(t, r, bases, i, d);
      if bases[i] in r.columns {
        r := WithRank(r, bases[i], d);
      }
    }
    assert bases[..|bases|] == bases;
    RankedAll(t, r, bases, d);
  }

  /** After the last round, the loop's facts over positions are facts over the listed names. */
  lemma RankedAll(t: Averages, r: Averages, bases: seq<string>, d: Direction)
    requires RankedSoFar(t, r, bases, |bases|, d)
    ensures forall c :: c in bases && c in t.columns ==> RankName(c) in r.columns && Column(r, RankName(c)) == RankValues(Column(t, c), d)
    ensures forall k :: (forall c :: c in bases && c in t.columns ==> k != RankName(c)) ==> Column(r, k) == Column(t, k)
  {
    forall c | c in bases && c in t.columns
      ensures RankName(c) in r.columns && Column(r, RankName(c)) == RankValues(Column(t, c), d)
    {
      var j :| 0 <= j < |bases| && bases[j] == c;
    }
    forall k | (forall c :: c in bases && c in t.columns ==> k != RankName(c))
      ensures Column(r, k) == Column(t, k)
    {
      forall j | 0 <= j < |bases| && bases[j] in t.columns
        ensures k != RankName(bases[j])
      {
        assert bases[j] in bases;
      }
    }
  }

  /** The ranking loop's own step: rank `c` when the table has it. */
  function RankStep(r: Averages, c: string, d: Direction): Averages {
    if c in r.columns then WithRank(r, c, d) else r
  }

  /** What the ranking loop has done to the values after `i` rounds. */
  ghost predicate RankedSoFar(t: Averages, r: Averages, bases: seq<string>, i: nat, d: Direction)
    requires i <= |bases|
  {
    (forall j :: 0 <= j < i && bases[j] in t.columns ==>
      RankName(bases[j]) in r.columns && Column(r, RankName(bases[j])) == RankValues(Column(t, bases[j]), d)) &&
    (forall k :: !EndsWith(k, RankSuffix) ==> Column(r, k) == Column(t, k)) &&
    (forall k :: (forall j :: 0 <= j < i && bases[j] in t.columns ==> k != RankName(bases[j])) ==> Column(r, k) == Column(t, k))
  }

  /** What the ranking loop has done to the column list after `i` rounds. */
  ghost predicate ColumnsSoFar(t: Averages, r: Averages, bases: seq<string>, i: nat)
    requires i <= |bases|
  {
    (forall c :: c in t.columns ==> c in r.columns) &&
    (forall k :: k in r.columns ==> k in t.columns || EndsWith(k, RankSuffix)) &&
    (Distinct(bases) && (forall c :: c in bases ==> RankName(c) !in t.columns) ==>
      r.columns == t.columns + RankNames(Present(bases[..i], t.columns)))
  }

  lemma RankedStep(t: Averages, r: Averages, bases: seq<string>, i: nat, d: Direction)
    requires i < |bases| && NoRankNames(bases)
    requires RankedSoFar(t, r, bases, i, d) && ColumnsSoFar(t, r, bases, i)
    ensures RankedSoFar(t, RankStep(r, bases[i], d), bases, i + 1, d)
  {
    var c := bases[i];
    assert !EndsWith(c, RankSuffix) by {
      assert c in bases;
    }
    if c in r.columns {
      assert c in t.columns;
      var next := WithRank(r, c, d);
      forall j | 0 <= j < i && bases[j] in t.columns
        ensures Column(next, RankName(bases[j])) == RankValues(Column(t, bases[j]), d)
      {
        if RankName(bases[j]) == RankName(c) {
          RankNameInjective(bases[j], c);
        }
      }
    }
  }

  lemma ColumnsStep(t: Averages, r: Averages, bases: seq<string>, i: nat, d: Direction)
    requires i < |bases| && NoRankNames(bases)
    requires ColumnsSoFar(t, r, bases, i)
    ensures ColumnsSoFar(t, RankStep(r, bases[i], d), bases, i + 1)
  {
    var c := bases[i];
    assert !EndsWith(c, RankSuffix) by {
      assert c in bases;
    }
    if Distinct(bases) && (forall b :: b in bases ==> RankName(b) !in t.columns) {
      OrderStep(t, r, bases, i, d);
    }
  }

  /** The order part of a round: a new rank column goes after those of the earlier names. */
  lemma OrderStep(t: Averages, r: Averages, bases: seq<string>, i: nat, d: Direction)
    requires i < |bases| && !EndsWith(bases[i], RankSuffix)
    requires Distinct(bases) && (forall b :: b in bases ==> RankName(b) !in t.columns)
    requires (forall k :: k in r.columns ==> k in t.columns || EndsWith(k, RankSuffix))
    requires r.columns == t.columns + RankNames(Present(bases[..i], t.columns))
    ensures RankStep(r, bases[i], d).columns == t.columns + RankNames(Present(bases[..i + 1], t.columns))
  {
    var c := bases[i];
    assert bases[..i + 1] == bases[..i] + [c];
    PresentSnoc(bases[..i], c, t.columns);
    if c in r.columns {
      assert c in t.columns;
      assert c !in bases[..i] by {
        assert forall j :: 0 <= j < i ==> bases[j] != bases[i];
      }
      RankNamesOfPresent(bases[..i], t.columns, c);
      assert RankName(c) !in t.columns by {
        assert c in bases;
      }
    }
  }

  /** A column outside `wanted` has its rank column outside the rank columns of `wanted`. */
  lemma RankNamesOfPresent(wanted: seq<string>, cols: seq<string>, c: string)
    requires c !in wanted
    ensures RankName(c) !in RankNames(Present(wanted, cols))
  {
    var p := Present(wanted, cols);
    forall i | 0 <= i < |p|
      ensures RankNames(p)[i] != RankName(c)
    {
      assert p[i] in p;
    }
  }

  /**
   * `higher_better_cols`, in its order, written as three runs of nine so
   * that facts about each name are proved a run at a time.
   */
  const HigherBetter: seq<string> := HigherBetterHead + HigherBetterMiddle + HigherBetterTail
  const HigherBetterHead: seq<string> := ["pts", "fgm", "fga", "fg_pct", "2ptm", "2pta", "2pt_pct", "3ptm", "3pta"]
  const HigherBetterMiddle: seq<string> := ["3pt_pct", "ftm", "fta", "ft_pct", "def", "off", "reb", "ast", "stl"]
  const HigherBetterTail: seq<string> := [
    "blk", "pfa", "rate", "second_chance_pts", "bench_pts", "fast_break_pts",
    "points_in_paint", "pts_off_turnovers", "possessions"]

  /** `lower_better_cols`. */
  const LowerBetter: seq<string> := ["to", "pf", "blka"]

  /** A name whose fifth character from the end is not `_` does not end in `_rank`. */
  lemma NotRankName(c: string)
    requires |c| < 5 || c[|c| - 5] != '_'
    ensures !EndsWith(c, RankSuffix)
  {
    if |c| >= 5 {
      assert c[|c| - 5..][0] == c[|c| - 5];
    }
  }

  /** None of the team columns that are ranked is itself a rank column. */
  lemma TeamListsHaveNoRankNames()
    ensures NoRankNames(HigherBetter) && NoRankNames(LowerBetter)
  {
    forall c | c in HigherBetterHead
      ensures !EndsWith(c, RankSuffix)
    {
      NotRankName(c);
    }
    forall c | c in HigherBetterMiddle
      ensures !EndsWith(c, RankSuffix)
    {
      NotRankName(c);
    }
    forall c | c in HigherBetterTail
      ensures !EndsWith(c, RankSuffix)
    {
      NotRankName(c);
    }
    forall c | c in LowerBetter
      ensures !EndsWith(c, RankSuffix)
    {
      NotRankName(c);
    }
  }

  /**
   * Two ranking loops in a row, the first descending over `higher`, the
   * second ascending over `lower`: a column of `lower` is ranked ascending,
   * a column only in `higher` descending, and no column that is not a rank
   * column changes.
   */
  method RankBoth(t: Averages, higher: seq<string>, lower: seq<string>) returns (r: Averages)
    requires NoRankNames(higher) && NoRankNames(lower)
    ensures forall c :: c in higher && c !in lower && c in t.columns ==> RankName(c) in r.columns && Column(r, RankName(c)) == RankValues(Column(t, c), Descending)
    ensures forall c :: c in lower && c in t.columns ==> RankName(c) in r.columns && Column(r, RankName(c)) == RankValues(Column(t, c), Ascending)
    ensures forall k :: !EndsWith(k, RankSuffix) ==> Column(r, k) == Column(t, k)
  {
    var first := RankColumns(t, higher, Descending);
    r := RankColumns(first, lower, Ascending);
    forall c | c in higher && c !in lower && c in t.columns
      ensures Column(r, RankName(c)) == RankValues(Column(t, c), Descending)
    {
      forall b | b in lower && b in first.columns
        ensures RankName(c) != RankName(b)
      {
        if RankName(c) == RankName(b) {
          RankNameInjective(c, b);
        }
      }
    }
  }

  /**
   * The team ranking: every column of `higher_better_cols` the table has is
   * ranked descending, every column of `lower_better_cols` ascending (the
   * second loop runs last, so it would win for a name on both lists), and no
   * column that is not a rank column changes.
   */
  method RankTeams(t: Averages) returns (r: Averages)
    ensures forall c :: c in HigherBetter && c !in LowerBetter && c in t.columns ==>
      RankName(c) in r.columns && Column(r, RankName(c)) == RankValues(Column(t, c), Descending)
    ensures forall c :: c in LowerBetter && c in t.columns ==> RankName(c) in r.columns && Column(r, RankName(c)) == RankValues(Column(t, c), Ascending)
    ensures forall k :: !EndsWith(k, RankSuffix) ==> Column(r, k) == Column(t, k)
  {
    TeamListsHaveNoRankNames();
    r := RankBoth(t, HigherBetter, LowerBetter);
  }

  /** `opp_stat_cols`: the opponent columns other than `opp_to`, in table order. */
  function OpponentRankBases(cols: seq<string>): (r: seq<string>)
    ensures forall c :: c in r <==> c in cols && StartsWith(c, "opp_") && c != "opp_to"
  {
    if cols == [] then []
    else (if StartsWith(cols[0], "opp_") && cols[0] != "opp_to" then [cols[0]] else []) + OpponentRankBases(cols[1..])
  }

  /**
   * `opp_bench_pts` and `opp_pfa` are dropped before the ranks are
   * computed: they leave the table, and neither gets a rank column, while
   * every other `opp_` column but `opp_to` is still ranked.
   */
  lemma DroppedOpponentsUnranked(cols: seq<string>)
    ensures forall c :: c in OpponentDropped ==> c !in Absent(cols, OpponentDropped)
    ensures forall c :: c in OpponentDropped ==> c !in OpponentRankBases(Absent(cols, OpponentDropped))
    ensures forall c :: c in cols && StartsWith(c, "opp_") && c != "opp_to" && c !in OpponentDropped ==>
      c in OpponentRankBases(Absent(cols, OpponentDropped))
  {
  }

  /**
   * The opponent ranking: every `opp_` column except `opp_to` is ranked
   * ascending (allowing less ranks better), `opp_to` descending (forcing
   * more turnovers ranks better), and no column that is not a rank column
   * changes.
   */
  method RankOpponents(t: Averages) returns (r: Averages)
    requires NoRankNames(t.columns)
    ensures forall c :: c in t.columns && StartsWith(c, "opp_") && c != "opp_to" ==>
      RankName(c) in r.columns && Column(r, RankName(c)) == RankValues(Column(t, c), Ascending)
    ensures "opp_to" in t.columns ==> RankName("opp_to") in r.columns && Column(r, RankName("opp_to")) == RankValues(Column(t, "opp_to"), Descending)
    ensures forall k :: !EndsWith(k, RankSuffix) ==> Column(r, k) == Column(t, k)
  {
    var bases := OpponentRankBases(t.columns);
    r := RankColumns(t, bases, Ascending);
    if "opp_to" in r.columns {
      var ascending := r;
      r := WithRank(r, "opp_to", Descending);
      forall c | c in t.columns && StartsWith(c, "opp_") && c != "opp_to"
        ensures Column(r, RankName(c)) == RankValues(Column(t, c), Ascending)
      {
        if RankName(c) == RankName("opp_to") {
          RankNameInjective(c, "opp_to");
        }
        assert Column(r, RankName(c)) == Column(ascending, RankName(c));
      }
      NotRankName("opp_to");
    }
  }
}
