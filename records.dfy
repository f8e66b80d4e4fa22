/**
 * The Python dicts the scraper builds for each stat row, as maps from key to
 * value: `d[k] = v` is `d[k := v]`, `del d[k]` is `d - {k}`, and `d.get(k)`
 * is `Get`.
 */
module Records {
  import opened Wrappers

  /**
   * A value in a scraped row: text as found in a cell, an int the scraper
   * computed, or a percentage the scraper computed, kept as the exact ratio
   * `made / attempted * 100` it stands for (0.0 when nothing was attempted).
   */
  datatype Value = Str(s: string) | Int(n: int) | Percent(made: int, attempted: int)

  /** A stat row. */
  type Dict = map<string, Value>

  /** Python truthiness of a value: a non-empty string or a non-zero number. */
  predicate Truthy(v: Value) {
    match v
    case Str(s) => s != ""
    case Int(n) => n != 0
    case Percent(made, attempted) => attempted > 0 && made != 0
  }

  /** `d.get(k)`: the value stored under `k`, if any. */
  function Get(d: Dict, k: string): Option<Value> {
    if k in d then Some(d[k]) else None
  }

  /** Every value is text, except possibly those stored under a key in `except`. */
  predicate TextExcept(d: Dict, except: set<string>) {
    forall k :: k in d && k !in except ==> d[k].Str?
  }

  /** What one body row contributes: nothing, a finished row, or an exception that ends the scrape. */
  datatype Step = Skipped | Emitted(row: Dict) | Raised

  /** The rows collected so far, and whether an exception has ended the scrape. */
  datatype Collected = Collected(rows: seq<Dict>, stopped: bool)

  /** One more row outcome collected, unless an exception has already ended the scrape. */
  function Extend(c: Collected, step: Step): Collected {
    if c.stopped then c
    else
      match step
      case Skipped => c
      case Emitted(r) => Collected(c.rows + [r], false)
      case Raised => Collected(c.rows, true)
  }

  /** The first `n` row outcomes collected, stopping at the first that raises. */
  function RowsFold(steps: seq<Step>, n: nat): Collected
    requires n <= |steps|
  {
    if n == 0 then Collected([], false) else Extend(RowsFold(steps, n - 1), steps[n - 1])
  }

  /** Every row of a fold over row outcomes is a row some outcome emitted. */
  lemma {:induction false} RowsFoldEmitted(steps: seq<Step>, n: nat)
    requires n <= |steps|
    ensures forall r :: r in RowsFold(steps, n).rows ==> exists i :: 0 <= i < n && steps[i] == Emitted(r)
  {
    if n > 0 {
      RowsFoldEmitted(steps, n - 1);
    }
  }

  /** Once a fold over row outcomes has stopped it stays as it is. */
  lemma {:induction false} RowsFoldStopped(steps: seq<Step>, i: nat, n: nat)
    requires i <= n <= |steps| && RowsFold(steps, i).stopped
    ensures RowsFold(steps, n) == RowsFold(steps, i)
    decreases n
  {
    if n > i {
      RowsFoldStopped(steps, i, n - 1);
    }
  }

  /**
   * `d[k] = v` for each of the first `n` entries in order, skipping the
   * entries that are None; a later entry for the same key overwrites an
   * earlier one.
   */
  function StoreAll(d: Dict, entries: seq<Option<(string, Value)>>, n: nat): Dict
    requires n <= |entries|
  {
    if n == 0 then d
    else
      var r := StoreAll(d, entries, n - 1);
      match entries[n - 1]
      case None => r
      case Some(e) => r[e.0 := e.1]
  }

  /** The keys after storing: the old ones and those the entries name. */
  lemma {:induction false} StoreAllKeys(d: Dict, entries: seq<Option<(string, Value)>>, n: nat, k: string)
    requires n <= |entries|
    ensures k in StoreAll(d, entries, n) <==>
      (k in d || exists i :: 0 <= i < n && entries[i].Some? && entries[i].value.0 == k)
  {
    if n > 0 {
      StoreAllKeys(d, entries, n - 1, k);
    }
  }

  /** A key no entry names keeps its value. */
  lemma {:induction false} StoreAllKeeps(d: Dict, entries: seq<Option<(string, Value)>>, n: nat, k: string)
    requires n <= |entries|
    requires forall i :: 0 <= i < n && entries[i].Some? ==> entries[i].value.0 != k
    ensures Get(StoreAll(d, entries, n), k) == Get(d, k)
  {
    if n > 0 {
      StoreAllKeeps(d, entries, n - 1, k);
    }
  }

  /** The last entry to name a key decides the value stored under it. */
  lemma {:induction false} StoreAllLast(d: Dict, entries: seq<Option<(string, Value)>>, n: nat, i: nat)
    requires i < n <= |entries| && entries[i].Some?
    requires forall j :: i < j < n && entries[j].Some? ==> entries[j].value.0 != entries[i].value.0
    ensures Get(StoreAll(d, entries, n), entries[i].value.0) == Some(entries[i].value.1)
  {
    if n - 1 > i {
      StoreAllLast(d, entries, n - 1, i);
    }
  }

  /** Storing only text keeps a row text-only outside `except`. */
  lemma {:induction false} StoreAllText(d: Dict, entries: seq<Option<(string, Value)>>, n: nat, except: set<string>)
    requires n <= |entries| && TextExcept(d, except)
    requires forall i :: 0 <= i < n && entries[i].Some? ==> entries[i].value.1.Str?
    ensures TextExcept(StoreAll(d, entries, n), except)
  {
    if n > 0 {
      StoreAllText(d, entries, n - 1, except);
    }
  }

  /** A fold over the first `n` outcomes sees only those outcomes. */
  lemma {:induction false} RowsFoldPrefix(a: seq<Step>, b: seq<Step>, n: nat)
    requires n <= |a| && n <= |b| && a[..n] == b[..n]
    ensures RowsFold(a, n) == RowsFold(b, n)
  {
    if n > 0 {
      assert a[n - 1] == a[..n][n - 1] == b[..n][n - 1] == b[n - 1];
      assert a[..n - 1] == a[..n][..n - 1] == b[..n][..n - 1] == b[..n - 1];
      RowsFoldPrefix(a, b, n - 1);
    }
  }

  /** A fold over row outcomes has stopped exactly when one of the outcomes it saw raised. */
  lemma {:induction false} RowsFoldStoppedIff(steps: seq<Step>, n: nat)
    requires n <= |steps|
    ensures RowsFold(steps, n).stopped <==> exists i :: 0 <= i < n && steps[i].Raised?
  {
    if n > 0 {
      RowsFoldStoppedIff(steps, n - 1);
    }
  }

  /** A fold over outcomes none of which raises never stops. */
  lemma {:induction false} RowsFoldNeverStops(steps: seq<Step>, n: nat)
    requires n <= |steps| && forall i :: 0 <= i < n ==> !steps[i].Raised?
    ensures !RowsFold(steps, n).stopped
  {
    if n > 0 {
      RowsFoldNeverStops(steps, n - 1);
    }
  }
}
