/**
 * `split_shooting_stats`: a stat row's composite shooting cells ("made-attempted")
 * become separate made and attempted counts, the field-goal totals and the four
 * percentages are added, and the site's own percentage cells are dropped. The
 * row is changed in place, so every step is a map update or a key removal.
 *
 * The steps are stated over a `Columns` record of key names; the properties
 * hold for any names that are pairwise distinct, and the names the scraper
 * uses (`Site`) are.
 */
module Shooting {
  import opened Wrappers
  import opened Text
  import opened Records

  /** The keys the split reads and writes. */
  datatype Columns = Columns(
    fgs: string, threeps: string, fts: string,
    made2: string, att2: string, made3: string, att3: string, madeFt: string, attFt: string,
    fgm: string, fga: string, pct2: string, pct3: string, pctFg: string, pctFt: string,
    siteFg: string, siteThree: string, siteFt: string)

  /** The names the site's cells and the scraper's computed fields go by. */
  const Site: Columns := Columns(
    "fgs", "threeps", "fts",
    "2ptm", "2pta", "3ptm", "3pta", "ftm", "fta",
    "fgm", "fga", "2pt_pct", "3pt_pct", "fg_pct", "ft_pct",
    "fgpercent", "threeppercent", "ftpercent")

  /** The three composites and their six counts are nine different names. */
  predicate StepsApart(c: Columns) {
    && c.fgs != c.threeps && c.fgs != c.fts && c.fgs != c.made2 && c.fgs != c.att2 && c.fgs != c.made3 && c.fgs != c.att3 && c.fgs != c.madeFt && c.fgs != c.attFt
    && c.threeps != c.fts && c.threeps != c.made2 && c.threeps != c.att2 && c.threeps != c.made3 && c.threeps != c.att3 && c.threeps != c.madeFt && c.threeps != c.attFt
    && c.fts != c.made2 && c.fts != c.att2 && c.fts != c.made3 && c.fts != c.att3 && c.fts != c.madeFt && c.fts != c.attFt
    && c.made2 != c.att2 && c.made2 != c.made3 && c.made2 != c.att3 && c.made2 != c.madeFt && c.made2 != c.attFt
    && c.att2 != c.made3 && c.att2 != c.att3 && c.att2 != c.madeFt && c.att2 != c.attFt
    && c.made3 != c.att3 && c.made3 != c.madeFt && c.made3 != c.attFt
    && c.att3 != c.madeFt && c.att3 != c.attFt
    && c.madeFt != c.attFt
  }

  /** The six computed totals are six different names. */
  predicate TotalsApart(c: Columns) {
    && c.fgm != c.fga && c.fgm != c.pct2 && c.fgm != c.pct3 && c.fgm != c.pctFg && c.fgm != c.pctFt
    && c.fga != c.pct2 && c.fga != c.pct3 && c.fga != c.pctFg && c.fga != c.pctFt
    && c.pct2 != c.pct3 && c.pct2 != c.pctFg && c.pct2 != c.pctFt
    && c.pct3 != c.pctFg && c.pct3 != c.pctFt
    && c.pctFg != c.pctFt
  }

  /** The site's three percentage cells are three different names. */
  predicate SitePercentsApart(c: Columns) {
    && c.siteFg != c.siteThree && c.siteFg != c.siteFt
    && c.siteThree != c.siteFt
  }

  /** No composite or count is also a computed total. */
  predicate StepsNotTotals(c: Columns) {
    && c.fgs != c.fgm && c.fgs != c.fga && c.fgs != c.pct2 && c.fgs != c.pct3 && c.fgs != c.pctFg && c.fgs != c.pctFt
    && c.threeps != c.fgm && c.threeps != c.fga && c.threeps != c.pct2 && c.threeps != c.pct3 && c.threeps != c.pctFg && c.threeps != c.pctFt
    && c.fts != c.fgm && c.fts != c.fga && c.fts != c.pct2 && c.fts != c.pct3 && c.fts != c.pctFg && c.fts != c.pctFt
    && c.made2 != c.fgm && c.made2 != c.fga && c.made2 != c.pct2 && c.made2 != c.pct3 && c.made2 != c.pctFg && c.made2 != c.pctFt
    && c.att2 != c.fgm && c.att2 != c.fga && c.att2 != c.pct2 && c.att2 != c.pct3 && c.att2 != c.pctFg && c.att2 != c.pctFt
    && c.made3 != c.fgm && c.made3 != c.fga && c.made3 != c.pct2 && c.made3 != c.pct3 && c.made3 != c.pctFg && c.made3 != c.pctFt
    && c.att3 != c.fgm && c.att3 != c.fga && c.att3 != c.pct2 && c.att3 != c.pct3 && c.att3 != c.pctFg && c.att3 != c.pctFt
    && c.madeFt != c.fgm && c.madeFt != c.fga && c.madeFt != c.pct2 && c.madeFt != c.pct3 && c.madeFt != c.pctFg && c.madeFt != c.pctFt
    && c.attFt != c.fgm && c.attFt != c.fga && c.attFt != c.pct2 && c.attFt != c.pct3 && c.attFt != c.pctFg && c.attFt != c.pctFt
  }

  /** No composite, count or computed total is also one of the site's percentage cells. */
  predicate NotSitePercents(c: Columns) {
    && c.fgs != c.siteFg && c.fgs != c.siteThree && c.fgs != c.siteFt
    && c.threeps != c.siteFg && c.threeps != c.siteThree && c.threeps != c.siteFt
    && c.fts != c.siteFg && c.fts != c.siteThree && c.fts != c.siteFt
    && c.made2 != c.siteFg && c.made2 != c.siteThree && c.made2 != c.siteFt
    && c.att2 != c.siteFg && c.att2 != c.siteThree && c.att2 != c.siteFt
    && c.made3 != c.siteFg && c.made3 != c.siteThree && c.made3 != c.siteFt
    && c.att3 != c.siteFg && c.att3 != c.siteThree && c.att3 != c.siteFt
    && c.madeFt != c.siteFg && c.madeFt != c.siteThree && c.madeFt != c.siteFt
    && c.attFt != c.siteFg && c.attFt != c.siteThree && c.attFt != c.siteFt
    && c.fgm != c.siteFg && c.fgm != c.siteThree && c.fgm != c.siteFt
    && c.fga != c.siteFg && c.fga != c.siteThree && c.fga != c.siteFt
    && c.pct2 != c.siteFg && c.pct2 != c.siteThree && c.pct2 != c.siteFt
    && c.pct3 != c.siteFg && c.pct3 != c.siteThree && c.pct3 != c.siteFt
    && c.pctFg != c.siteFg && c.pctFg != c.siteThree && c.pctFg != c.siteFt
    && c.pctFt != c.siteFg && c.pctFt != c.siteThree && c.pctFt != c.siteFt
  }

  /** `k` is none of the six computed totals. */
  predicate NotTotal(c: Columns, k: string) {
    k != c.fgm && k != c.fga && k != c.pct2 && k != c.pct3 && k != c.pctFg && k != c.pctFt
  }

  /** `k` is none of the site's three percentage cells. */
  predicate NotSitePercent(c: Columns, k: string) {
    k != c.siteFg && k != c.siteThree && k != c.siteFt
  }

  /** No two of the names coincide. */
  predicate Distinct(c: Columns) {
    StepsApart(c) && TotalsApart(c) && SitePercentsApart(c) && StepsNotTotals(c) && NotSitePercents(c)
  }

  /** The scraper's names are pairwise distinct. */
  lemma SiteDistinct()
    ensures Distinct(Site)
  {
    SiteStepsApart();
    SiteTotalsApart();
    SiteNotSitePercents();
  }

  lemma SiteStepsApart()
    ensures StepsApart(Site)
  {
  }

  lemma SiteTotalsApart()
    ensures TotalsApart(Site) && SitePercentsApart(Site) && StepsNotTotals(Site)
  {
  }

  lemma SiteNotSitePercents()
    ensures NotSitePercents(Site)
  {
  }

  /** The three composites, each with the made and attempted keys it splits into, in the order they are split. */
  function Composites(c: Columns): seq<(string, string, string)> {
    [(c.fgs, c.made2, c.att2), (c.threeps, c.made3, c.att3), (c.fts, c.madeFt, c.attFt)]
  }

  /** The six count keys, in the order the coercion pass visits them. */
  function CountKeys(c: Columns): seq<string> {
    [c.made2, c.att2, c.made3, c.att3, c.madeFt, c.attFt]
  }

  /** The site's percentage cells, removed at the end. */
  function SitePercentKeys(c: Columns): seq<string> {
    [c.siteFg, c.siteThree, c.siteFt]
  }

  /** Every key the split may add, change or remove; all others are left alone. */
  function Touched(c: Columns): set<string> {
    {c.fgs, c.threeps, c.fts, c.made2, c.att2, c.made3, c.att3, c.madeFt, c.attFt,
     c.fgm, c.fga, c.pct2, c.pct3, c.pctFg, c.pctFt, c.siteFg, c.siteThree, c.siteFt}
  }

  /** `'-' in str(v)`: the printed value has a dash (for a number, it is negative). */
  predicate HasDash(v: Value) {
    match v
    case Str(s) => '-' in s
    case Int(n) => n < 0
    case Percent(made, attempted) => attempted > 0 && made < 0
  }

  /** `n // d` for a natural `n`, by repeated subtraction. */
  function NatDiv(n: nat, d: nat): nat
    requires d > 0
  {
    if n < d then 0 else 1 + NatDiv(n - d, d)
  }

  /** Python's `int(x)` on the float `n / d`: the quotient truncated toward zero. */
  function TruncDiv(n: int, d: nat): int
    requires d > 0
  {
    if n < 0 then -(NatDiv(-n, d) as int) else NatDiv(n, d)
  }

  /** The coercion pass on one count: text read as digits (else 0), an int kept, a float truncated. */
  function Coerce(v: Value): (r: Value)
    ensures r.Int?
    ensures v.Int? ==> r == v
    ensures v.Str? ==> r.n == CoerceInt(Strip(v.s))
  {
    match v
    case Str(s) => Int(CoerceInt(Strip(s)))
    case Int(n) => v
    case Percent(made, attempted) => Int(if attempted > 0 then TruncDiv(100 * made, attempted) else 0)
  }

  /** `s.split('-')`: the first two pieces, each stripped and read as digits, else 0. */
  function Halves(s: string): (nat, nat)
    requires '-' in s
  {
    var parts := Split(s, '-');
    (CoerceInt(Strip(parts[0])), CoerceInt(Strip(parts[1])))
  }

  /**
   * One composite key: when its printed value has a dash it is split on '-',
   * the two halves (stripped, digits or 0) go to `made` and `attempted`, and
   * the composite is deleted. Splitting a value that is not text raises, which
   * is None here.
   */
  function SplitComposite(d: Dict, composite: string, made: string, attempted: string): Option<Dict> {
    match Get(d, composite)
    case None => Some(d)
    case Some(v) =>
      if !HasDash(v) then Some(d)
      else if !v.Str? then None
      else
        var (m, a) := Halves(v.s);
        Some(d[made := Int(m)][attempted := Int(a)] - {composite})
  }

  /** The composite steps of `cs`, in order; None as soon as one raises. */
  function RunComposites(d: Dict, cs: seq<(string, string, string)>): Option<Dict> {
    if cs == [] then Some(d)
    else
      var last := cs[|cs| - 1];
      match RunComposites(d, cs[..|cs| - 1])
      case None => None
      case Some(d') => SplitComposite(d', last.0, last.1, last.2)
  }

  /** The coercion pass over `keys`, in order; absent keys are skipped. */
  function CoerceKeys(d: Dict, keys: seq<string>): Dict {
    if keys == [] then d
    else
      var d' := CoerceKeys(d, keys[..|keys| - 1]);
      var k := keys[|keys| - 1];
      match Get(d', k)
      case None => d'
      case Some(v) => d'[k := Coerce(v)]
  }

  /** `d.get(k, 0)` on a count that the coercion pass has made an int. */
  function CountOf(d: Dict, k: string): int {
    if k in d && d[k].Int? then d[k].n else 0
  }

  /** The number a percentage stands for. */
  function PercentValue(made: int, attempted: int): real {
    if attempted > 0 then (made as real / attempted as real) * 100.0 else 0.0
  }

  /**
   * Totals and percentages, assigned in this order after the coercion pass;
   * `fg_pct` reads the `fgm`/`fga` just stored, and `ft_pct` reads `ftm`/`fta`
   * after the other assignments.
   */
  function AddTotals(d: Dict, c: Columns): Dict {
    var m2, a2, m3, a3 := CountOf(d, c.made2), CountOf(d, c.att2), CountOf(d, c.made3), CountOf(d, c.att3);
    var d1 := d[c.fgm := Int(m2 + m3)][c.fga := Int(a2 + a3)];
    var d2 := d1[c.pct2 := Percent(m2, a2)][c.pct3 := Percent(m3, a3)];
    var d3 := d2[c.pctFg := Percent(CountOf(d2, c.fgm), CountOf(d2, c.fga))];
    d3[c.pctFt := Percent(CountOf(d3, c.madeFt), CountOf(d3, c.attFt))]
  }

  /** `del` of each of `keys` that is present. */
  function DropKeys(d: Dict, keys: seq<string>): Dict {
    if keys == [] then d
    else
      var d' := DropKeys(d, keys[..|keys| - 1]);
      if keys[|keys| - 1] in d' then d' - {keys[|keys| - 1]} else d'
  }

  /** The row after the composite steps and the coercion pass. */
  function Coerced(d: Dict, c: Columns): Dict
    requires RunComposites(d, Composites(c)).Some?
  {
    CoerceKeys(RunComposites(d, Composites(c)).value, CountKeys(c))
  }

  /** The row after the totals and the drop. */
  function Finish(d: Dict, c: Columns): Dict {
    DropKeys(AddTotals(d, c), SitePercentKeys(c))
  }

  /** The whole split over the names `c`; None when a composite that is not text has a dash. */
  function SplitWith(d: Dict, c: Columns): Option<Dict> {
    if RunComposites(d, Composites(c)).None? then None
    else Some(Finish(Coerced(d, c), c))
  }

  /** `split_shooting_stats` on a row. */
  function SplitShooting(d: Dict): Option<Dict> {
    SplitWith(d, Site)
  }

  /**
   * The made and attempted counts one composite stands for, read from the
   * input row alone: the two halves of a text composite with a dash, else
   * the separate counts as the coercion pass leaves them (0 when absent).
   */
  function ShotPair(d: Dict, t: (string, string, string)): (int, int) {
    if Splits(d, t.0) then HalvesOf(d, t.0) else (Separate(d, t.1), Separate(d, t.2))
  }

  /** A separate count after the coercion pass; absent is 0. */
  function Separate(d: Dict, k: string): int {
    match Get(d, k)
    case None => 0
    case Some(v) => Coerce(v).n
  }

  /** Splitting the composite raises: it holds a value that is not text and prints with a dash. */
  predicate RaisesAt(d: Dict, composite: string) {
    Get(d, composite).Some? && HasDash(Get(d, composite).value) && !Get(d, composite).value.Str?
  }

  /** The split raises: one of the three composites does. */
  predicate Raises(d: Dict, c: Columns) {
    RaisesAt(d, c.fgs) || RaisesAt(d, c.threeps) || RaisesAt(d, c.fts)
  }

  /** The composite is text with a dash, so it is split. */
  predicate Splits(d: Dict, composite: string) {
    Get(d, composite).Some? && Get(d, composite).value.Str? && '-' in Get(d, composite).value.s
  }

  /** The halves of a composite that is split. */
  function HalvesOf(d: Dict, composite: string): (nat, nat)
    requires Splits(d, composite)
  {
    Halves(Get(d, composite).value.s)
  }

  /** `k` is one of the three keys of a composite step. */
  predicate InTriple(t: (string, string, string), k: string) {
    k == t.0 || k == t.1 || k == t.2
  }

  /** Each step's three keys are distinct, and no step touches another step's keys. */
  predicate WellFormed(cs: seq<(string, string, string)>) {
    && (forall i :: 0 <= i < |cs| ==> cs[i].0 != cs[i].1 && cs[i].0 != cs[i].2 && cs[i].1 != cs[i].2)
    && (forall i, j :: 0 <= i < j < |cs| ==> !InTriple(cs[i], cs[j].0) && !InTriple(cs[i], cs[j].1) && !InTriple(cs[i], cs[j].2))
  }

  /** Distinct names give well-formed composite steps. */
  lemma CompositesWellFormed(c: Columns)
    requires StepsApart(c)
    ensures WellFormed(Composites(c))
  {
    var cs := Composites(c);
    forall i, j | 0 <= i < j < |cs|
      ensures !InTriple(cs[i], cs[j].0) && !InTriple(cs[i], cs[j].1) && !InTriple(cs[i], cs[j].2)
    {
      assert i == 0 || i == 1;
    }
  }

  /** A composite step raises exactly when its composite does. */
  lemma StepRaises(d: Dict, composite: string, made: string, attempted: string)
    ensures SplitComposite(d, composite, made, attempted).None? <==> RaisesAt(d, composite)
  {
  }

  /** A composite step leaves every key but its own three alone. */
  lemma StepKeeps(d: Dict, composite: string, made: string, attempted: string, k: string)
    requires SplitComposite(d, composite, made, attempted).Some?
    requires k != composite && k != made && k != attempted
    ensures Get(SplitComposite(d, composite, made, attempted).value, k) == Get(d, k)
  {
    if Splits(d, composite) {
      var (m, a) := HalvesOf(d, composite);
      assert SplitComposite(d, composite, made, attempted) == Some(d[made := Int(m)][attempted := Int(a)] - {composite});
    }
  }

  /** A composite step puts the halves under its two count keys and removes the composite. */
  lemma StepSplits(d: Dict, composite: string, made: string, attempted: string)
    requires Splits(d, composite) && composite != made && composite != attempted && made != attempted
    ensures SplitComposite(d, composite, made, attempted).Some?
    ensures var r := SplitComposite(d, composite, made, attempted).value;
      Get(r, made) == Some(Int(HalvesOf(d, composite).0)) && Get(r, attempted) == Some(Int(HalvesOf(d, composite).1)) && Get(r, composite) == None
  {
    var (m, a) := HalvesOf(d, composite);
    assert SplitComposite(d, composite, made, attempted) == Some(d[made := Int(m)][attempted := Int(a)] - {composite});
  }

  /** A composite that is not split leaves the row as it is. */
  lemma StepSkips(d: Dict, composite: string, made: string, attempted: string)
    requires !Splits(d, composite) && !RaisesAt(d, composite)
    ensures SplitComposite(d, composite, made, attempted) == Some(d)
  {
  }

  /** Well-formedness holds of every prefix. */
  lemma WellFormedPrefix(cs: seq<(string, string, string)>, n: nat)
    requires WellFormed(cs) && n <= |cs|
    ensures WellFormed(cs[..n])
  {
    assert forall i :: 0 <= i < n ==> cs[..n][i] == cs[i];
  }

  /** A key that no step names passes the composite steps unchanged. */
  lemma {:induction false} RunCompositesKeeps(d: Dict, cs: seq<(string, string, string)>, k: string)
    requires RunComposites(d, cs).Some?
    requires forall i :: 0 <= i < |cs| ==> !InTriple(cs[i], k)
    ensures Get(RunComposites(d, cs).value, k) == Get(d, k)
  {
    if cs != [] {
      var prefix := cs[..|cs| - 1];
      var last := cs[|cs| - 1];
      assert forall i :: 0 <= i < |prefix| ==> prefix[i] == cs[i];
      RunCompositesKeeps(d, prefix, k);
      StepKeeps(RunComposites(d, prefix).value, last.0, last.1, last.2, k);
    }
  }

  /** The composite steps raise exactly when one of their composites raises in the input. */
  lemma {:induction false} RunCompositesSome(d: Dict, cs: seq<(string, string, string)>)
    requires WellFormed(cs)
    ensures RunComposites(d, cs).Some? <==> forall i :: 0 <= i < |cs| ==> !RaisesAt(d, cs[i].0)
  {
    if cs != [] {
      var n := |cs| - 1;
      var prefix := cs[..n];
      var last := cs[n];
      WellFormedPrefix(cs, n);
      assert forall i :: 0 <= i < n ==> prefix[i] == cs[i];
      RunCompositesSome(d, prefix);
      if RunComposites(d, prefix).Some? {
        RunCompositesKeeps(d, prefix, last.0);
        StepRaises(RunComposites(d, prefix).value, last.0, last.1, last.2);
      }
    }
  }

  /** What the composite steps leave under step `i`'s three keys. */
  lemma {:induction false} RunCompositesAt(d: Dict, cs: seq<(string, string, string)>, i: nat)
    requires WellFormed(cs) && RunComposites(d, cs).Some? && i < |cs|
    ensures var r := RunComposites(d, cs).value;
      var t := cs[i];
      if Splits(d, t.0) then Get(r, t.1) == Some(Int(HalvesOf(d, t.0).0)) && Get(r, t.2) == Some(Int(HalvesOf(d, t.0).1)) && Get(r, t.0) == None
      else Get(r, t.0) == Get(d, t.0) && Get(r, t.1) == Get(d, t.1) && Get(r, t.2) == Get(d, t.2)
  {
    var n := |cs| - 1;
    var prefix := cs[..n];
    var last := cs[n];
    WellFormedPrefix(cs, n);
    assert forall j :: 0 <= j < n ==> prefix[j] == cs[j];
    var before := RunComposites(d, prefix).value;
    if i == n {
      RunCompositesKeeps(d, prefix, last.0);
      RunCompositesKeeps(d, prefix, last.1);
      RunCompositesKeeps(d, prefix, last.2);
      if Splits(d, last.0) {
        StepSplits(before, last.0, last.1, last.2);
      } else {
        StepSkips(before, last.0, last.1, last.2);
      }
    } else {
      RunCompositesAt(d, prefix, i);
      StepKeeps(before, last.0, last.1, last.2, cs[i].0);
      StepKeeps(before, last.0, last.1, last.2, cs[i].1);
      StepKeeps(before, last.0, last.1, last.2, cs[i].2);
    }
  }

  /** What the coercion pass does to one key. */
  lemma {:induction false} CoerceKeysGet(d: Dict, keys: seq<string>, k: string)
    ensures Get(CoerceKeys(d, keys), k) == if k in keys && Get(d, k).Some? then Some(Coerce(Get(d, k).value)) else Get(d, k)
  {
    if keys != [] {
      var prefix := keys[..|keys| - 1];
      var last := keys[|keys| - 1];
      CoerceKeysGet(d, prefix, k);
      assert k in keys <==> k in prefix || k == last;
      CoerceKeysGet(d, prefix, last);
    }
  }

  /** What dropping does to one key. */
  lemma {:induction false} DropKeysGet(d: Dict, keys: seq<string>, k: string)
    ensures Get(DropKeys(d, keys), k) == if k in keys then None else Get(d, k)
  {
    if keys != [] {
      var prefix := keys[..|keys| - 1];
      DropKeysGet(d, prefix, k);
      assert k in keys <==> k in prefix || k == keys[|keys| - 1];
    }
  }

  /** The split raises exactly when one of its composites holds a value that is not text and prints with a dash. */
  lemma SplitRaises(d: Dict, c: Columns)
    requires StepsApart(c)
    ensures SplitWith(d, c).None? <==> Raises(d, c)
  {
    CompositesWellFormed(c);
    RunCompositesSome(d, Composites(c));
    assert Composites(c)[0].0 == c.fgs && Composites(c)[1].0 == c.threeps && Composites(c)[2].0 == c.fts;
  }

  /** After the coercion pass, a composite's two count keys hold the counts it stands for, as ints. */
  lemma CoercedAt(d: Dict, c: Columns, i: nat)
    requires StepsApart(c) && RunComposites(d, Composites(c)).Some? && i < 3
    ensures var r := Coerced(d, c);
      var t := Composites(c)[i];
      && Get(r, t.1) == (if Splits(d, t.0) || Get(d, t.1).Some? then Some(Int(ShotPair(d, t).0)) else None)
      && Get(r, t.2) == (if Splits(d, t.0) || Get(d, t.2).Some? then Some(Int(ShotPair(d, t).1)) else None)
      && Get(r, t.0) == (if Splits(d, t.0) then None else Get(d, t.0))
  {
    var t := Composites(c)[i];
    var d3 := RunComposites(d, Composites(c)).value;
    CompositesWellFormed(c);
    RunCompositesAt(d, Composites(c), i);
    assert t.1 in CountKeys(c) && t.2 in CountKeys(c) && t.0 !in CountKeys(c) by {
      assert i == 0 || i == 1 || i == 2;
    }
    CoerceKeysGet(d3, CountKeys(c), t.0);
    CoerceKeysGet(d3, CountKeys(c), t.1);
    CoerceKeysGet(d3, CountKeys(c), t.2);
  }

  /** A key outside the composites and their counts passes the composite steps and the coercion unchanged. */
  lemma CoercedKeeps(d: Dict, c: Columns, k: string)
    requires RunComposites(d, Composites(c)).Some?
    requires k !in Touched(c)
    ensures Get(Coerced(d, c), k) == Get(d, k)
  {
    var cs := Composites(c);
    assert forall i :: 0 <= i < |cs| ==> !InTriple(cs[i], k) by {
      forall i | 0 <= i < |cs| ensures !InTriple(cs[i], k) {
        assert i == 0 || i == 1 || i == 2;
      }
    }
    RunCompositesKeeps(d, cs, k);
    CoerceKeysGet(RunComposites(d, cs).value, CountKeys(c), k);
  }

  /** The totals step leaves every other key alone. */
  lemma AddTotalsKeeps(d: Dict, c: Columns, k: string)
    requires NotTotal(c, k)
    ensures Get(AddTotals(d, c), k) == Get(d, k)
  {
  }

  /** The totals step stores the two sums and the two- and three-point percentages of the row's counts. */
  lemma AddTotalsCounts(d: Dict, c: Columns)
    requires TotalsApart(c)
    ensures var m2, a2, m3, a3 := CountOf(d, c.made2), CountOf(d, c.att2), CountOf(d, c.made3), CountOf(d, c.att3);
      && Get(AddTotals(d, c), c.fgm) == Some(Int(m2 + m3))
      && Get(AddTotals(d, c), c.fga) == Some(Int(a2 + a3))
      && Get(AddTotals(d, c), c.pct2) == Some(Percent(m2, a2))
      && Get(AddTotals(d, c), c.pct3) == Some(Percent(m3, a3))
  {
  }

  /** The field-goal percentage is that of the two sums, read back from the `fgm`/`fga` just stored. */
  lemma AddTotalsFieldGoals(d: Dict, c: Columns)
    requires TotalsApart(c)
    ensures Get(AddTotals(d, c), c.pctFg) ==
      Some(Percent(CountOf(d, c.made2) + CountOf(d, c.made3), CountOf(d, c.att2) + CountOf(d, c.att3)))
  {
    var m2, a2, m3, a3 := CountOf(d, c.made2), CountOf(d, c.att2), CountOf(d, c.made3), CountOf(d, c.att3);
    var d1 := d[c.fgm := Int(m2 + m3)][c.fga := Int(a2 + a3)];
    var d2 := d1[c.pct2 := Percent(m2, a2)][c.pct3 := Percent(m3, a3)];
    assert Get(d2, c.fgm) == Some(Int(m2 + m3)) && Get(d2, c.fga) == Some(Int(a2 + a3));
  }

  /** The free-throw percentage is that of the row's free throws, which the earlier assignments do not touch. */
  lemma AddTotalsFreeThrows(d: Dict, c: Columns)
    requires TotalsApart(c) && StepsNotTotals(c)
    ensures Get(AddTotals(d, c), c.pctFt) == Some(Percent(CountOf(d, c.madeFt), CountOf(d, c.attFt)))
  {
    AddTotalsKeeps(d, c, c.madeFt);
    AddTotalsKeeps(d, c, c.attFt);
  }

  /** The split row, key by key from the coerced row: the totals, the dropped cells, and the rest. */
  lemma FinishAt(d: Dict, c: Columns, k: string)
    ensures Get(Finish(d, c), k) ==
      if k == c.siteFg || k == c.siteThree || k == c.siteFt then None else Get(AddTotals(d, c), k)
  {
    DropKeysGet(AddTotals(d, c), SitePercentKeys(c), k);
    assert k in SitePercentKeys(c) <==> k == c.siteFg || k == c.siteThree || k == c.siteFt;
  }

  /**
   * After the totals step and the drop, `fgm`/`fga` are the sums of the
   * row's own two- and three-point counts (`get(k, 0)`), and the two- and
   * three-point percentages are the ratios of its counts.
   */
  lemma FinishedCounts(d: Dict, c: Columns, r: Dict)
    requires TotalsApart(c) && StepsNotTotals(c) && NotSitePercents(c) && r == Finish(d, c)
    ensures var m2, a2, m3, a3 := CountOf(r, c.made2), CountOf(r, c.att2), CountOf(r, c.made3), CountOf(r, c.att3);
      && Get(r, c.fgm) == Some(Int(m2 + m3))
      && Get(r, c.fga) == Some(Int(a2 + a3))
      && Get(r, c.pct2) == Some(Percent(m2, a2))
      && Get(r, c.pct3) == Some(Percent(m3, a3))
  {
    FinishKeeps(d, c, c.made2);
    FinishKeeps(d, c, c.att2);
    FinishKeeps(d, c, c.made3);
    FinishKeeps(d, c, c.att3);
    var m2, a2, m3, a3 := CountOf(d, c.made2), CountOf(d, c.att2), CountOf(d, c.made3), CountOf(d, c.att3);
    assert CountOf(r, c.made2) == m2 && CountOf(r, c.att2) == a2 && CountOf(r, c.made3) == m3 && CountOf(r, c.att3) == a3;
    assert CountOf(r, c.made2) + CountOf(r, c.made3) == m2 + m3;
    assert CountOf(r, c.att2) + CountOf(r, c.att3) == a2 + a3;
    AddTotalsCounts(d, c);
    FinishTotal(d, c, c.fgm);
    FinishTotal(d, c, c.fga);
    FinishTotal(d, c, c.pct2);
    FinishTotal(d, c, c.pct3);
  }

  /**
   * After the totals step and the drop, the field-goal and free-throw
   * percentages are the ratios of the row's own counts, and the site's
   * percentage cells are gone.
   */
  lemma FinishedRatios(d: Dict, c: Columns, r: Dict)
    requires TotalsApart(c) && StepsNotTotals(c) && NotSitePercents(c) && r == Finish(d, c)
    ensures var m2, a2, m3, a3 := CountOf(r, c.made2), CountOf(r, c.att2), CountOf(r, c.made3), CountOf(r, c.att3);
      && Get(r, c.pctFg) == Some(Percent(m2 + m3, a2 + a3))
      && Get(r, c.pctFt) == Some(Percent(CountOf(r, c.madeFt), CountOf(r, c.attFt)))
      && Get(r, c.siteFg) == None && Get(r, c.siteThree) == None && Get(r, c.siteFt) == None
  {
    FinishKeeps(d, c, c.made2);
    FinishKeeps(d, c, c.att2);
    FinishKeeps(d, c, c.made3);
    FinishKeeps(d, c, c.att3);
    FinishKeeps(d, c, c.madeFt);
    FinishKeeps(d, c, c.attFt);
    var m2, a2, m3, a3 := CountOf(d, c.made2), CountOf(d, c.att2), CountOf(d, c.made3), CountOf(d, c.att3);
    assert CountOf(r, c.made2) + CountOf(r, c.made3) == m2 + m3;
    assert CountOf(r, c.att2) + CountOf(r, c.att3) == a2 + a3;
    assert CountOf(r, c.madeFt) == CountOf(d, c.madeFt) && CountOf(r, c.attFt) == CountOf(d, c.attFt);
    AddTotalsFieldGoals(d, c);
    AddTotalsFreeThrows(d, c);
    FinishTotal(d, c, c.pctFg);
    FinishTotal(d, c, c.pctFt);
    FinishAt(d, c, c.siteFg);
    FinishAt(d, c, c.siteThree);
    FinishAt(d, c, c.siteFt);
  }

  /** A total survives the drop. */
  lemma FinishTotal(d: Dict, c: Columns, k: string)
    requires NotSitePercent(c, k)
    ensures Get(Finish(d, c), k) == Get(AddTotals(d, c), k)
  {
    FinishAt(d, c, k);
  }

  /** Every key but the totals and the site's percentage cells keeps what the coercion pass left. */
  lemma FinishKeeps(d: Dict, c: Columns, k: string)
    requires NotTotal(c, k) && NotSitePercent(c, k)
    ensures Get(Finish(d, c), k) == Get(d, k)
  {
    FinishAt(d, c, k);
    AddTotalsKeeps(d, c, k);
  }

  /**
   * A composite that is split becomes two ints, made and attempted, and is
   * removed; one that is not keeps its value, and its separate counts are
   * coerced to ints where present.
   */
  lemma SplitCounts(d: Dict, c: Columns, r: Dict, i: nat)
    requires StepsApart(c) && StepsNotTotals(c) && NotSitePercents(c) && SplitWith(d, c) == Some(r) && i < 3
    ensures var t := Composites(c)[i];
      && Get(r, t.1) == (if Splits(d, t.0) || Get(d, t.1).Some? then Some(Int(ShotPair(d, t).0)) else None)
      && Get(r, t.2) == (if Splits(d, t.0) || Get(d, t.2).Some? then Some(Int(ShotPair(d, t).1)) else None)
      && Get(r, t.0) == (if Splits(d, t.0) then None else Get(d, t.0))
  {
    var t := Composites(c)[i];
    assert NotTotal(c, t.0) && NotTotal(c, t.1) && NotTotal(c, t.2) by {
      assert i == 0 || i == 1 || i == 2;
    }
    assert NotSitePercent(c, t.0) && NotSitePercent(c, t.1) && NotSitePercent(c, t.2) by {
      assert i == 0 || i == 1 || i == 2;
    }
    CoercedAt(d, c, i);
    FinishKeeps(Coerced(d, c), c, t.0);
    FinishKeeps(Coerced(d, c), c, t.1);
    FinishKeeps(Coerced(d, c), c, t.2);
  }

  /** The totals and percentages of the split row, read off its own counts. */
  lemma SplitTotals(d: Dict, c: Columns, r: Dict)
    requires TotalsApart(c) && StepsNotTotals(c) && NotSitePercents(c) && SplitWith(d, c) == Some(r)
    ensures var m2, a2, m3, a3 := CountOf(r, c.made2), CountOf(r, c.att2), CountOf(r, c.made3), CountOf(r, c.att3);
      && Get(r, c.fgm) == Some(Int(m2 + m3))
      && Get(r, c.fga) == Some(Int(a2 + a3))
      && Get(r, c.pct2) == Some(Percent(m2, a2))
      && Get(r, c.pct3) == Some(Percent(m3, a3))
      && Get(r, c.pctFg) == Some(Percent(m2 + m3, a2 + a3))
      && Get(r, c.pctFt) == Some(Percent(CountOf(r, c.madeFt), CountOf(r, c.attFt)))
      && Get(r, c.siteFg) == None && Get(r, c.siteThree) == None && Get(r, c.siteFt) == None
  {
    FinishedCounts(Coerced(d, c), c, r);
    FinishedRatios(Coerced(d, c), c, r);
  }

  /** Every key the split does not touch keeps its value. */
  lemma SplitKeeps(d: Dict, c: Columns, r: Dict, k: string)
    requires SplitWith(d, c) == Some(r) && k !in Touched(c)
    ensures Get(r, k) == Get(d, k)
  {
    FinishKeeps(Coerced(d, c), c, k);
    CoercedKeeps(d, c, k);
  }

  /** A percentage lies between 0 and 100 when no more shots were made than attempted, and is 0.0 when none were attempted. */
  lemma PercentBounds(made: int, attempted: int)
    ensures attempted <= 0 ==> PercentValue(made, attempted) == 0.0
    ensures 0 <= made <= attempted ==> 0.0 <= PercentValue(made, attempted) <= 100.0
  {
    if 0 <= made <= attempted && attempted > 0 {
      assert made as real / attempted as real <= 1.0;
    }
  }

  /** A row whose composites are text never raises. */
  lemma TextRowsDoNotRaise(d: Dict, c: Columns, except: set<string>)
    requires TextExcept(d, except) && c.fgs !in except && c.threeps !in except && c.fts !in except
    ensures !Raises(d, c)
  {
  }

  /** One composite block of `split_shooting_stats`: `if composite in row: if '-' in str(row[composite]): ...`. */
  method SplitCompositeCell(d: Dict, composite: string, made: string, attempted: string) returns (r: Option<Dict>)
    ensures r == SplitComposite(d, composite, made, attempted)
  {
    if composite in d && HasDash(d[composite]) {
      if !d[composite].Str? {
        return None;
      }
      var parts := Split(d[composite].s, '-');
      var row := d[made := Int(CoerceInt(Strip(parts[0])))];
      row := row[attempted := Int(CoerceInt(Strip(parts[1])))];
      row := row - {composite};
      return Some(row);
    }
    return Some(d);
  }

  /** The coercion loop over the count keys: text is stripped and read as digits (else 0), an int is kept, anything else goes through `int()`. */
  method CoerceCounts(d: Dict, keys: seq<string>) returns (r: Dict)
    ensures r == CoerceKeys(d, keys)
  {
    r := d;
    for i := 0 to |keys|
      invariant r == CoerceKeys(d, keys[..i])
    {
      assert keys[..i + 1][..i] == keys[..i];
      var key := keys[i];
      if key in r {
        var v := r[key];
        if v.Str? {
          r := r[key := Int(CoerceInt(Strip(v.s)))];
        } else if !v.Int? {
          r := r[key := Coerce(v)];
        }
      }
    }
    assert keys[..|keys|] == keys;
  }

  /** The totals and percentages, assigned in the order the scraper assigns them; `fg_pct` reads the `fgm`/`fga` just stored. */
  method AssignTotals(d: Dict, c: Columns) returns (r: Dict)
    ensures r == AddTotals(d, c)
  {
    var twoMade, twoAttempted := CountOf(d, c.made2), CountOf(d, c.att2);
    var threeMade, threeAttempted := CountOf(d, c.made3), CountOf(d, c.att3);
    r := d[c.fgm := Int(twoMade + threeMade)];
    r := r[c.fga := Int(twoAttempted + threeAttempted)];
    r := r[c.pct2 := Percent(twoMade, twoAttempted)];
    r := r[c.pct3 := Percent(threeMade, threeAttempted)];
    r := r[c.pctFg := Percent(CountOf(r, c.fgm), CountOf(r, c.fga))];
    var ftMade, ftAttempted := CountOf(r, c.madeFt), CountOf(r, c.attFt);
    r := r[c.pctFt := Percent(ftMade, ftAttempted)];
  }

  /** The deletion loop: each of `keys` that is present is deleted. */
  method DeleteKeys(d: Dict, keys: seq<string>) returns (r: Dict)
    ensures r == DropKeys(d, keys)
  {
    r := d;
    for i := 0 to |keys|
      invariant r == DropKeys(d, keys[..i])
    {
      assert keys[..i + 1][..i] == keys[..i];
      if keys[i] in r {
        r := r - {keys[i]};
      }
    }
    assert keys[..|keys|] == keys;
  }

  /** The composite steps over the three composites, written out. */
  lemma RunCompositesThree(d: Dict, c: Columns)
    ensures RunComposites(d, Composites(c)) ==
      match SplitComposite(d, c.fgs, c.made2, c.att2)
      case None => None
      case Some(d1) =>
        match SplitComposite(d1, c.threeps, c.made3, c.att3)
        case None => None
        case Some(d2) => SplitComposite(d2, c.fts, c.madeFt, c.attFt)
  {
    var cs := Composites(c);
    assert cs[..1][..0] == [];
    assert RunComposites(d, cs[..1]) == SplitComposite(d, c.fgs, c.made2, c.att2);
    assert cs[..2][..1] == cs[..1];
    assert cs[..3][..2] == cs[..2] && cs[..3] == cs;
  }

  /** The blocks of `split_shooting_stats` over the names `c`. */
  method SplitShootingOver(row: Dict, c: Columns) returns (r: Option<Dict>)
    ensures r == SplitWith(row, c)
  {
    RunCompositesThree(row, c);
    var step := SplitCompositeCell(row, c.fgs, c.made2, c.att2);
    if step.None? {
      return None;
    }
    step := SplitCompositeCell(step.value, c.threeps, c.made3, c.att3);
    if step.None? {
      return None;
    }
    step := SplitCompositeCell(step.value, c.fts, c.madeFt, c.attFt);
    if step.None? {
      return None;
    }
    var d := CoerceCounts(step.value, CountKeys(c));
    d := AssignTotals(d, c);
    d := DeleteKeys(d, SitePercentKeys(c));
    r := Some(d);
  }

  /**
   * `split_shooting_stats(player_data)`: the three composite blocks, the
   * coercion loop, the totals and the deletion loop, in order. None stands
   * for the exception raised by splitting a composite that is not text.
   */
  method SplitShootingStats(row: Dict) returns (r: Option<Dict>)
    ensures r == SplitShooting(row)
    ensures r.None? <==> Raises(row, Site)
  {
    SiteStepsApart();
    SplitRaises(row, Site);
    r := SplitShootingOver(row, Site);
  }
}
