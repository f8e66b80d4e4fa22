/**
 * The column lists of the saved tables: the requested-then-extra order of
 * `save_to_csv` and `append_to_csv`, the `final_cols` loop of the averages,
 * the opponent columns that are dropped, and the placement of the
 * `pts_allowed` columns in the team averages.
 */
module Columns {
  import opened Wrappers
  import opened Text

  const RankSuffix: string := "_rank"

  /** The two columns every averages table starts with. */
  const Leading: seq<string> := ["team", "games_played"]

  /** The opponent columns removed before the opponent ranks are computed. */
  const OpponentDropped: seq<string> := ["opp_bench_pts", "opp_pfa"]

  const PointsAllowed: string := "pts_allowed"
  const PointsAllowedRank: string := "pts_allowed_rank"

  /** A list without repeated names. */
  predicate Distinct(xs: seq<string>) {
    forall i, j :: 0 <= i < j < |xs| ==> xs[i] != xs[j]
  }

  /** `f"{c}_rank"`: the name of the rank column of `c`. */
  function RankName(c: string): (r: string)
    ensures EndsWith(r, RankSuffix)
  {
    assert (c + RankSuffix)[|c|..] == RankSuffix;
    c + RankSuffix
  }

  /** Two columns with the same rank column are the same column. */
  lemma RankNameInjective(a: string, b: string)
    requires RankName(a) == RankName(b)
    ensures a == b
  {
    assert a == RankName(a)[..|a|];
    assert b == RankName(b)[..|b|];
  }

  /** The two leading columns are not rank columns. */
  lemma LeadingNotRanks()
    ensures forall c :: c in Leading ==> !EndsWith(c, RankSuffix)
  {
    assert "games_played"[7..] != RankSuffix by {
      assert "games_played"[7..][0] == 'l';
    }
  }

  /** `[c for c in wanted if c in cols]`: the columns of `wanted` that `cols` holds, in `wanted`'s order. */
  function Present(wanted: seq<string>, cols: seq<string>): (r: seq<string>)
    ensures forall c :: c in r <==> c in wanted && c in cols
  {
    if wanted == [] then []
    else (if wanted[0] in cols then [wanted[0]] else []) + Present(wanted[1..], cols)
  }

  /** `[c for c in cols if c not in excluded]`: the columns of `cols` outside `excluded`, in `cols`' order. */
  function Absent(cols: seq<string>, excluded: seq<string>): (r: seq<string>)
    ensures forall c :: c in r <==> c in cols && c !in excluded
    ensures |r| <= |cols|
  {
    if cols == [] then []
    else (if cols[0] !in excluded then [cols[0]] else []) + Absent(cols[1..], excluded)
  }

  /** Filtering a list one longer filters the extra name last. */
  lemma {:induction false} PresentSnoc(wanted: seq<string>, x: string, cols: seq<string>)
    ensures Present(wanted + [x], cols) == Present(wanted, cols) + (if x in cols then [x] else [])
  {
    if wanted == [] {
      assert wanted + [x] == [x];
    } else {
      assert (wanted + [x])[1..] == wanted[1..] + [x];
      PresentSnoc(wanted[1..], x, cols);
    }
  }

  /**
   * The column order `save_to_csv` and `append_to_csv` write: when a list of
   * columns is requested, the requested columns the table has, in the
   * requested order, then the table's other columns in the table's order;
   * otherwise the table's own order.
   */
  function OrderColumns(requested: seq<string>, cols: seq<string>): seq<string> {
    if requested == [] then cols
    else Present(requested, cols) + Absent(cols, requested)
  }

  /** The set of names in a list. */
  function Names(xs: seq<string>): set<string> {
    set x | x in xs
  }

  lemma {:induction false} DistinctCard(xs: seq<string>)
    requires Distinct(xs)
    ensures |Names(xs)| == |xs|
  {
    if xs != [] {
      assert Distinct(xs[1..]);
      DistinctCard(xs[1..]);
      assert Names(xs) == {xs[0]} + Names(xs[1..]);
      assert xs[0] !in Names(xs[1..]);
    }
  }

  lemma {:induction false} PresentDistinct(wanted: seq<string>, cols: seq<string>)
    requires Distinct(wanted)
    ensures Distinct(Present(wanted, cols))
  {
    if wanted != [] {
      assert Distinct(wanted[1..]);
      PresentDistinct(wanted[1..], cols);
      assert wanted[0] !in wanted[1..];
    }
  }

  lemma {:induction false} AbsentDistinct(cols: seq<string>, excluded: seq<string>)
    requires Distinct(cols)
    ensures Distinct(Absent(cols, excluded))
  {
    if cols != [] {
      assert Distinct(cols[1..]);
      AbsentDistinct(cols[1..], excluded);
      assert cols[0] !in cols[1..];
    }
  }

  /** `r` is `xs` with some names left out: the names of `r` appear in `xs` in the same order. */
  predicate Subsequence(r: seq<string>, xs: seq<string>)
    decreases |xs|
  {
    if r == [] then true
    else if xs == [] then false
    else if r[0] == xs[0] then Subsequence(r[1..], xs[1..])
    else Subsequence(r, xs[1..])
  }

  /** A subsequence of a list is one of the list with a name put in front. */
  lemma {:induction false} SubsequenceSkip(r: seq<string>, x: string, t: seq<string>)
    requires Subsequence(r, t)
    ensures Subsequence(r, [x] + t)
    decreases |t|, 1
  {
    assert ([x] + t)[1..] == t;
    if r != [] && r[0] == x {
      SubsequenceDropHead(r, t);
    }
  }

  /** A subsequence without its first name is still a subsequence. */
  lemma {:induction false} SubsequenceDropHead(r: seq<string>, t: seq<string>)
    requires r != [] && Subsequence(r, t)
    ensures Subsequence(r[1..], t)
    decreases |t|, 0
  {
    assert t != [];
    assert t == [t[0]] + t[1..];
    if r[0] == t[0] {
      SubsequenceSkip(r[1..], t[0], t[1..]);
    } else {
      SubsequenceDropHead(r, t[1..]);
      SubsequenceSkip(r[1..], t[0], t[1..]);
    }
  }

  /** The requested columns the table has keep the requested order. */
  lemma {:induction false} PresentSubsequence(wanted: seq<string>, cols: seq<string>)
    ensures Subsequence(Present(wanted, cols), wanted)
  {
    if wanted != [] {
      PresentSubsequence(wanted[1..], cols);
      var tail := Present(wanted[1..], cols);
      if wanted[0] in cols {
        assert Present(wanted, cols) == [wanted[0]] + tail;
        assert ([wanted[0]] + tail)[1..] == tail;
      } else {
        assert Present(wanted, cols) == tail;
        SubsequenceSkip(tail, wanted[0], wanted[1..]);
        assert [wanted[0]] + wanted[1..] == wanted;
      }
    }
  }

  /** The table's other columns keep the table's order. */
  lemma {:induction false} AbsentSubsequence(cols: seq<string>, excluded: seq<string>)
    ensures Subsequence(Absent(cols, excluded), cols)
  {
    if cols != [] {
      AbsentSubsequence(cols[1..], excluded);
      var tail := Absent(cols[1..], excluded);
      if cols[0] !in excluded {
        assert Absent(cols, excluded) == [cols[0]] + tail;
        assert ([cols[0]] + tail)[1..] == tail;
      } else {
        assert Absent(cols, excluded) == tail;
        SubsequenceSkip(tail, cols[0], cols[1..]);
        assert [cols[0]] + cols[1..] == cols;
      }
    }
  }

  /** Every list is a subsequence of itself. */
  lemma {:induction false} SubsequenceOfSelf(xs: seq<string>)
    ensures Subsequence(xs, xs)
  {
    if xs != [] {
      SubsequenceOfSelf(xs[1..]);
    }
  }

  /**
   * The written order splits into the requested columns, in the requested
   * order, followed by the table's other columns, in the table's order.
   */
  lemma OrderColumnsOrder(requested: seq<string>, cols: seq<string>)
    ensures var r := OrderColumns(requested, cols);
      exists k :: 0 <= k <= |r| && Subsequence(r[..k], requested) && Subsequence(r[k..], cols) &&
        (forall c :: c in r[..k] ==> c in requested) && (forall c :: c in r[k..] ==> c !in requested)
  {
    var r := OrderColumns(requested, cols);
    if requested == [] {
      SubsequenceOfSelf(cols);
      assert r[..0] == [] && r[0..] == cols;
    } else {
      var p := Present(requested, cols);
      PresentSubsequence(requested, cols);
      AbsentSubsequence(cols, requested);
      assert r[..|p|] == p && r[|p|..] == Absent(cols, requested);
    }
  }

  /**
   * With distinct names on both sides, the written order is a permutation
   * of the table's columns (no column lost, none repeated) in which every
   * requested column comes before every extra one.
   */
  lemma OrderColumnsPermutes(requested: seq<string>, cols: seq<string>)
    requires Distinct(requested)
    requires Distinct(cols)
    ensures var r := OrderColumns(requested, cols);
      Distinct(r) && |r| == |cols| && (forall c :: c in r <==> c in cols) &&
      (forall i, j :: 0 <= i < j < |r| && r[j] in requested ==> r[i] in requested)
  {
    if requested != [] {
      var p := Present(requested, cols);
      var e := Absent(cols, requested);
      var r := p + e;
      PresentDistinct(requested, cols);
      AbsentDistinct(cols, requested);
      forall i, j | 0 <= i < j < |r|
        ensures r[i] != r[j]
      {
        if j < |p| {
        } else if i >= |p| {
          assert r[i] == e[i - |p|] && r[j] == e[j - |p|];
        } else {
          assert r[i] in p && r[j] in e;
        }
      }
      forall k | |p| <= k < |r|
        ensures r[k] !in requested
      {
        assert r[k] == e[k - |p|];
      }
      forall k | 0 <= k < |p|
        ensures r[k] in requested
      {
        assert r[k] == p[k];
      }
      assert Names(r) == Names(cols);
      DistinctCard(r);
      DistinctCard(cols);
    }
  }

  /**
   * The list `final_cols` holds once the `final_cols` loop has visited the
   * first `n` columns: every column not yet listed and not itself a rank
   * column is appended, followed by its rank column when the table has one.
   */
  function FinalFrom(cols: seq<string>, n: nat): seq<string>
    requires n <= |cols|
  {
    if n == 0 then Leading
    else
      var f := FinalFrom(cols, n - 1);
      var c := cols[n - 1];
      if c !in f && !EndsWith(c, RankSuffix) then
        f + [c] + (if RankName(c) in cols then [RankName(c)] else [])
      else f
  }

  /** What the loop leaves: the two leading columns first, then only columns of the table. */
  lemma {:induction false} FinalFromMembers(cols: seq<string>, n: nat)
    requires n <= |cols|
    ensures |FinalFrom(cols, n)| >= 2 && FinalFrom(cols, n)[..2] == Leading
    ensures forall c :: c in FinalFrom(cols, n) ==> c in Leading || c in cols
  {
    if n > 0 {
      FinalFromMembers(cols, n - 1);
      var f := FinalFrom(cols, n - 1);
      var c := cols[n - 1];
      if c !in f && !EndsWith(c, RankSuffix) {
        var tail := [c] + (if RankName(c) in cols then [RankName(c)] else []);
        assert FinalFrom(cols, n) == f + tail;
        assert (f + tail)[..2] == f[..2];
        assert forall x :: x in tail ==> x in cols;
      }
    }
  }

  /** Every column visited that is not a rank column is listed. */
  lemma {:induction false} FinalFromCovers(cols: seq<string>, n: nat)
    requires n <= |cols|
    ensures forall j :: 0 <= j < n && !EndsWith(cols[j], RankSuffix) ==> cols[j] in FinalFrom(cols, n)
  {
    if n > 0 {
      FinalFromCovers(cols, n - 1);
      var f := FinalFrom(cols, n - 1);
      var c := cols[n - 1];
      if c !in f && !EndsWith(c, RankSuffix) {
        var tail := [c] + (if RankName(c) in cols then [RankName(c)] else []);
        assert FinalFrom(cols, n) == f + tail;
        assert c in f + tail;
        assert forall x :: x in f ==> x in f + tail;
      }
    }
  }

  /** Every rank column after the leading two stands right after its own column. */
  predicate RanksFollowColumns(f: seq<string>) {
    forall i :: 2 <= i < |f| && EndsWith(f[i], RankSuffix) ==> !EndsWith(f[i - 1], RankSuffix) && RankName(f[i - 1]) == f[i]
  }

  /** Every column after the leading two is followed by its rank column when `cols` has one. */
  predicate ColumnsPrecedeRanks(f: seq<string>, cols: seq<string>) {
    forall i :: 2 <= i < |f| && !EndsWith(f[i], RankSuffix) && RankName(f[i]) in cols ==> i + 1 < |f| && f[i + 1] == RankName(f[i])
  }

  /** The loop appends a column, then its rank column when the table has one. */
  lemma FinalFromStep(cols: seq<string>, n: nat)
    requires 0 < n <= |cols|
    requires cols[n - 1] !in FinalFrom(cols, n - 1) && !EndsWith(cols[n - 1], RankSuffix)
    ensures var f := FinalFrom(cols, n - 1);
      var g := FinalFrom(cols, n);
      var c := cols[n - 1];
      g[..|f|] == f && g[|f|] == c &&
      (RankName(c) in cols ==> |g| == |f| + 2 && g[|f| + 1] == RankName(c)) &&
      (RankName(c) !in cols ==> |g| == |f| + 1)
  {
  }

  /** In what the loop leaves, every rank column after the leading two stands right after its own column. */
  lemma {:induction false} FinalFromRanksFollow(cols: seq<string>, n: nat)
    requires n <= |cols|
    ensures RanksFollowColumns(FinalFrom(cols, n))
  {
    if n > 0 {
      FinalFromRanksFollow(cols, n - 1);
      var f := FinalFrom(cols, n - 1);
      var c := cols[n - 1];
      if c !in f && !EndsWith(c, RankSuffix) {
        FinalFromStep(cols, n);
        var g := FinalFrom(cols, n);
        forall i | 2 <= i < |g| && EndsWith(g[i], RankSuffix)
          ensures !EndsWith(g[i - 1], RankSuffix) && RankName(g[i - 1]) == g[i]
        {
          if i < |f| {
            assert g[i - 1] == g[..|f|][i - 1] && g[i] == g[..|f|][i];
          }
        }
      }
    }
  }

  /** In what the loop leaves, every column after the leading two is followed by its rank column when the table has one. */
  lemma {:induction false} FinalFromColumnsPrecede(cols: seq<string>, n: nat)
    requires n <= |cols|
    ensures ColumnsPrecedeRanks(FinalFrom(cols, n), cols)
  {
    if n > 0 {
      FinalFromColumnsPrecede(cols, n - 1);
      var f := FinalFrom(cols, n - 1);
      var c := cols[n - 1];
      if c !in f && !EndsWith(c, RankSuffix) {
        FinalFromStep(cols, n);
        var g := FinalFrom(cols, n);
        forall i | 2 <= i < |g| && !EndsWith(g[i], RankSuffix) && RankName(g[i]) in cols
          ensures i + 1 < |g| && g[i + 1] == RankName(g[i])
        {
          if i < |f| {
            assert g[i] == g[..|f|][i];
            assert i + 1 < |f|;
            assert g[i + 1] == g[..|f|][i + 1];
          }
        }
      }
    }
  }

  /** A column the loop has not listed has its rank column unlisted too. */
  lemma RankNotListed(cols: seq<string>, n: nat, c: string)
    requires n <= |cols|
    requires !EndsWith(c, RankSuffix) && c !in FinalFrom(cols, n)
    ensures RankName(c) !in FinalFrom(cols, n)
  {
    var f := FinalFrom(cols, n);
    FinalFromMembers(cols, n);
    FinalFromRanksFollow(cols, n);
    LeadingNotRanks();
    forall i | 0 <= i < |f|
      ensures f[i] != RankName(c)
    {
      if i < 2 {
        assert f[i] == Leading[i];
      } else if f[i] == RankName(c) {
        RankNameInjective(f[i - 1], c);
      }
    }
  }

  /** What the loop leaves never lists a name twice. */
  lemma {:induction false} FinalFromDistinct(cols: seq<string>, n: nat)
    requires n <= |cols|
    ensures Distinct(FinalFrom(cols, n))
  {
    if n > 0 {
      FinalFromDistinct(cols, n - 1);
      var f := FinalFrom(cols, n - 1);
      var c := cols[n - 1];
      if c !in f && !EndsWith(c, RankSuffix) {
        RankNotListed(cols, n - 1, c);
        assert RankName(c) != c;
        var tail := [c] + (if RankName(c) in cols then [RankName(c)] else []);
        assert Distinct(tail);
        assert forall x :: x in tail ==> x !in f;
        DistinctAppend(f, tail);
        assert FinalFrom(cols, n) == f + tail;
      }
    }
  }

  lemma DistinctAppend(a: seq<string>, b: seq<string>)
    requires Distinct(a) && Distinct(b)
    requires forall x :: x in b ==> x !in a
    ensures Distinct(a + b)
  {
    forall i, j | 0 <= i < j < |a + b|
      ensures (a + b)[i] != (a + b)[j]
    {
      if j < |a| {
        assert (a + b)[i] == a[i] && (a + b)[j] == a[j];
      } else if i < |a| {
        assert (a + b)[i] == a[i] && (a + b)[j] == b[j - |a|];
        assert b[j - |a|] in b;
      } else {
        assert (a + b)[i] == b[i - |a|] && (a + b)[j] == b[j - |a|];
      }
    }
  }

  /**
   * The column list the `final_cols` loop produces: `team` and
   * `games_played` first; no name twice; only columns of the table; every
   * column of the table that is not a rank column; each rank column right
   * after its own column, and each listed column followed by its rank column
   * when the table has one. A rank column whose own column is missing is
   * left out.
   */
  lemma FinalColumnsShape(cols: seq<string>)
    ensures var f := FinalFrom(cols, |cols|);
      |f| >= 2 && f[..2] == Leading && Distinct(f) &&
      (forall c :: c in f ==> c in Leading || c in cols) &&
      (forall c :: c in cols && !EndsWith(c, RankSuffix) ==> c in f) &&
      RanksFollowColumns(f) && ColumnsPrecedeRanks(f, cols)
  {
    FinalFromMembers(cols, |cols|);
    FinalFromCovers(cols, |cols|);
    FinalFromDistinct(cols, |cols|);
    FinalFromRanksFollow(cols, |cols|);
    FinalFromColumnsPrecede(cols, |cols|);
  }

  /** The `final_cols` loop of the team and the opponent averages (Python lists `append`). */
  method FinalColumns(cols: seq<string>) returns (r: seq<string>)
    ensures r == FinalFrom(cols, |cols|)
  {
    r := Leading;
    for n := 0 to |cols|
      invariant r == FinalFrom(cols, n)
    {
      var c := cols[n];
      if c !in r && !EndsWith(c, RankSuffix) {
        r := r + [c];
        var rank := RankName(c);
        if rank in cols {
          r := r + [rank];
        }
      }
    }
  }

  /** Dropping labels that are absent changes nothing. */
  lemma {:induction false} AbsentNothing(cols: seq<string>, excluded: seq<string>)
    requires forall c :: c in excluded ==> c !in cols
    ensures Absent(cols, excluded) == cols
  {
    if cols != [] {
      AbsentNothing(cols[1..], excluded);
    }
  }

  /** Dropping `x` after dropping `excluded` is dropping `excluded + [x]`. */
  lemma {:induction false} AbsentSnoc(cols: seq<string>, excluded: seq<string>, x: string)
    ensures Absent(Absent(cols, excluded), [x]) == Absent(cols, excluded + [x])
  {
    if cols != [] {
      AbsentSnoc(cols[1..], excluded, x);
      var head := if cols[0] !in excluded then [cols[0]] else [];
      assert Absent(cols, excluded) == head + Absent(cols[1..], excluded);
      AbsentAppend(head, Absent(cols[1..], excluded), [x]);
    }
  }

  lemma {:induction false} AbsentAppend(a: seq<string>, b: seq<string>, excluded: seq<string>)
    ensures Absent(a + b, excluded) == Absent(a, excluded) + Absent(b, excluded)
  {
    if a != [] {
      assert (a + b)[1..] == a[1..] + b;
      AbsentAppend(a[1..], b, excluded);
    } else {
      assert a + b == b;
    }
  }

  /**
   * The `cols_to_drop` loop: each listed column the table has is dropped in
   * turn; the table's other columns stay in their order.
   */
  method DropColumns(cols: seq<string>, drop: seq<string>) returns (r: seq<string>)
    ensures r == Absent(cols, drop)
  {
    r := cols;
    AbsentNothing(cols, []);
    for i := 0 to |drop|
      invariant r == Absent(cols, drop[..i])
    {
      AbsentSnoc(cols, drop[..i], drop[i]);
      if drop[i] in r {
        r := Absent(r, [drop[i]]);
      } else {
        AbsentNothing(r, [drop[i]]);
      }
      assert drop[..i + 1] == drop[..i] + [drop[i]];
    }
    assert drop[..|drop|] == drop;
  }

  /** `xs.index(x)`: the first position of `x`. */
  function IndexOf(xs: seq<string>, x: string): (i: nat)
    requires x in xs
    ensures i < |xs| && xs[i] == x && x !in xs[..i]
  {
    if xs[0] == x then 0
    else
      var i := IndexOf(xs[1..], x);
      assert xs[..i + 1] == [xs[0]] + xs[1..][..i];
      i + 1
  }

  /** `xs.remove(x)`: the list without its first `x`; None where Python raises ValueError. */
  function RemoveFirst(xs: seq<string>, x: string): (r: Option<seq<string>>)
    ensures r.None? <==> x !in xs
    ensures r.Some? ==> multiset(r.value) + multiset{x} == multiset(xs)
    ensures r.Some? ==> forall y :: y != x ==> (y in r.value <==> y in xs)
  {
    if x !in xs then None
    else
      var i := IndexOf(xs, x);
      assert xs == xs[..i] + [x] + xs[i + 1..];
      Some(xs[..i] + xs[i + 1..])
  }

  /** Removing the first `x` from a list where it first stands at `i`. */
  lemma RemoveFirstAt(xs: seq<string>, x: string, i: nat)
    requires i < |xs| && xs[i] == x && x !in xs[..i]
    ensures RemoveFirst(xs, x) == Some(xs[..i] + xs[i + 1..])
  {
    IndexOfUnique(xs, x, i);
  }

  /** `xs.insert(i, x)`: `x` at position `i`, or at the end when `i` is past it. */
  function InsertAt(xs: seq<string>, i: nat, x: string): (r: seq<string>)
    ensures |r| == |xs| + 1
    ensures multiset(r) == multiset(xs) + multiset{x}
    ensures i <= |xs| ==> r[i] == x && r[..i] == xs[..i] && r[i + 1..] == xs[i..]
    ensures i > |xs| ==> r == xs + [x]
  {
    if i > |xs| then xs + [x]
    else
      assert xs == xs[..i] + xs[i..];
      xs[..i] + [x] + xs[i..]
  }

  /** `pts_idx`: the position of `pts_rank`, or of `pts` when there is no `pts_rank`. */
  function PointsPosition(cols: seq<string>): (i: nat)
    requires "pts" in cols
    ensures i < |cols| && (cols[i] == "pts_rank" || ("pts_rank" !in cols && cols[i] == "pts"))
  {
    if "pts_rank" in cols then IndexOf(cols, "pts_rank") else IndexOf(cols, "pts")
  }

  /** The two inserts: `pts_allowed` at `at + 1`, then `pts_allowed_rank` at `at + 2`. */
  function Reinsert(cols: seq<string>, at: nat): (r: seq<string>)
    ensures multiset(r) == multiset(cols) + multiset{PointsAllowed, PointsAllowedRank}
  {
    InsertAt(InsertAt(cols, at + 1, PointsAllowed), at + 2, PointsAllowedRank)
  }

  /** Inside the list, the two inserts put the pair right after position `at`. */
  lemma ReinsertInside(cols: seq<string>, at: nat)
    requires at < |cols|
    ensures Reinsert(cols, at) == cols[..at + 1] + [PointsAllowed, PointsAllowedRank] + cols[at + 1..]
  {
    var c := InsertAt(cols, at + 1, PointsAllowed);
    assert c == cols[..at + 1] + [PointsAllowed] + cols[at + 1..];
    assert c[..at + 2] == cols[..at + 1] + [PointsAllowed];
    assert c[at + 2..] == cols[at + 1..];
  }

  /**
   * The reordering of the team columns after the merge: the position of
   * `pts_rank` (or of `pts` when the table has no `pts_rank`) is taken first;
   * then `pts_allowed` and `pts_allowed_rank` are removed and inserted right
   * after that position. Tables without `pts` keep their order; None is
   * where a `remove` raises.
   */
  function PlacePointsAllowed(cols: seq<string>): (r: Option<seq<string>>)
    ensures "pts" !in cols ==> r == Some(cols)
    ensures "pts" in cols ==> (r.None? <==> PointsAllowed !in cols || PointsAllowedRank !in cols)
    ensures r.Some? ==> multiset(r.value) == multiset(cols)
  {
    if "pts" !in cols then Some(cols)
    else
      match RemoveFirst(cols, PointsAllowed)
      case None => None
      case Some(a) =>
        match RemoveFirst(a, PointsAllowedRank)
        case None => None
        case Some(b) => Some(Reinsert(b, PointsPosition(cols)))
  }

  /**
   * Right after the merge the two `pts_allowed` columns stand at the end of
   * the team columns; the reordering then places them, in this order, right
   * after `pts_rank` (or after `pts` when there is no `pts_rank`), and leaves
   * every other column where it was.
   */
  lemma PointsAllowedAfterMerge(teamCols: seq<string>)
    requires "pts" in teamCols
    requires PointsAllowed !in teamCols && PointsAllowedRank !in teamCols
    ensures var at := PointsPosition(teamCols);
      PlacePointsAllowed(teamCols + [PointsAllowed, PointsAllowedRank]) ==
        Some(teamCols[..at + 1] + [PointsAllowed, PointsAllowedRank] + teamCols[at + 1..])
  {
    var n := |teamCols|;
    var merged := teamCols + [PointsAllowed, PointsAllowedRank];
    assert merged[..n] == teamCols;
    var at := PointsPosition(teamCols);
    assert merged[..at] == teamCols[..at];
    if "pts_rank" in teamCols {
      IndexOfUnique(merged, "pts_rank", IndexOf(teamCols, "pts_rank"));
    } else {
      IndexOfUnique(merged, "pts", IndexOf(teamCols, "pts"));
    }
    assert PointsPosition(merged) == at;
    RemoveFirstAt(merged, PointsAllowed, n);
    var a := teamCols + [PointsAllowedRank];
    assert merged[..n] + merged[n + 1..] == a;
    assert a[..n] == teamCols;
    RemoveFirstAt(a, PointsAllowedRank, n);
    assert a[..n] + a[n + 1..] == teamCols;
    ReinsertInside(teamCols, at);
  }

  /** The first position of a name is the position where it occurs and does not occur before. */
  lemma IndexOfUnique(xs: seq<string>, x: string, i: nat)
    requires i < |xs| && xs[i] == x && x !in xs[..i]
    ensures IndexOf(xs, x) == i
  {
    var j := IndexOf(xs, x);
    assert xs[..j + 1][j] == x;
    assert xs[..i + 1][i] == x;
  }
}
