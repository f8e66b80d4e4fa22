/**
 * Team identity resolution: the name map built from the team reference
 * table (`load_team_mapping`) and the lookup that resolves a scraped label
 * with it (`normalize_team_name`).
 */
module TeamNames {
  import opened Wrappers
  import opened Text

  /**
   * One row of the team reference table. `shortName` is None when the
   * table has no `short_name` column or the cell is missing.
   */
  datatype TeamRow = TeamRow(detailsName: string, scheduleName: string, normalized: string, shortName: Option<string>)

  /** `name` is one of the labels the row registers. */
  predicate Lists(row: TeamRow, name: string) {
    name == row.detailsName || name == row.scheduleName || name == row.normalized || row.shortName == Some(name)
  }

  /** The map after the row's four assignments, in the order the loader makes them. */
  function AddRow(m: map<string, string>, row: TeamRow): (r: map<string, string>)
    ensures forall k :: k in r <==> k in m || Lists(row, k)
    ensures forall k :: Lists(row, k) ==> r[k] == row.normalized
    ensures forall k :: k in m && !Lists(row, k) ==> r[k] == m[k]
  {
    var m1 := m[row.detailsName := row.normalized][row.scheduleName := row.normalized][row.normalized := row.normalized];
    if row.shortName.Some? then m1[row.shortName.value := row.normalized] else m1
  }

  /** The map after all rows' assignments, in table order. */
  function MappingOf(rows: seq<TeamRow>): map<string, string> {
    if rows == [] then map[] else AddRow(MappingOf(rows[..|rows| - 1]), rows[|rows| - 1])
  }

  /** `Lists(rows[i], name)` and no later row lists `name`. */
  predicate LastLister(rows: seq<TeamRow>, name: string, i: nat) {
    i < |rows| && Lists(rows[i], name) && forall j :: i < j < |rows| ==> !Lists(rows[j], name)
  }

  /** A label is mapped exactly when some row lists it. */
  lemma {:induction false} MappingOfKeys(rows: seq<TeamRow>, name: string)
    ensures name in MappingOf(rows) <==> exists i :: 0 <= i < |rows| && Lists(rows[i], name)
  {
    if rows != [] {
      var n := |rows| - 1;
      var prefix := rows[..n];
      MappingOfKeys(prefix, name);
      if Lists(rows[n], name) {
      } else if name in MappingOf(prefix) {
        var i :| 0 <= i < n && Lists(prefix[i], name);
        assert Lists(rows[i], name);
      } else {
        forall i | 0 <= i < |rows| ensures !Lists(rows[i], name) {
          if i < n {
            assert prefix[i] == rows[i];
          }
        }
      }
    }
  }

  /** Last write wins: a label maps to the normalized name of the last row that lists it. */
  lemma {:induction false} MappingOfValue(rows: seq<TeamRow>, name: string, i: nat)
    requires LastLister(rows, name, i)
    ensures name in MappingOf(rows) && MappingOf(rows)[name] == rows[i].normalized
  {
    var n := |rows| - 1;
    var prefix := rows[..n];
    if i < n {
      assert prefix[i] == rows[i];
      assert LastLister(prefix, name, i);
      MappingOfValue(prefix, name, i);
    }
  }

  /** Both halves of the lookup, for every last lister. */
  lemma MappingOfLookup(rows: seq<TeamRow>, name: string)
    ensures name in MappingOf(rows) <==> exists i :: 0 <= i < |rows| && Lists(rows[i], name)
    ensures forall i: nat :: LastLister(rows, name, i) ==> name in MappingOf(rows) && MappingOf(rows)[name] == rows[i].normalized
  {
    MappingOfKeys(rows, name);
    forall i: nat | LastLister(rows, name, i)
      ensures name in MappingOf(rows) && MappingOf(rows)[name] == rows[i].normalized
    {
      MappingOfValue(rows, name, i);
    }
  }

  /**
   * `load_team_mapping`: `table` is None when the reference file is absent or
   * unreadable, and then the map is empty. Otherwise each row, in order,
   * maps its details name, schedule name, normalized name and (when present)
   * short name to its normalized name.
   */
  method LoadTeamMapping(table: Option<seq<TeamRow>>) returns (mapping: map<string, string>)
    ensures table.None? ==> mapping == map[]
    ensures table.Some? ==> mapping == MappingOf(table.value)
    ensures table.Some? ==> forall name :: name in mapping <==> exists i :: 0 <= i < |table.value| && Lists(table.value[i], name)
  {
    mapping := map[];
    if table.None? {
      return;
    }
    var rows := table.value;
    for i := 0 to |rows|
      invariant mapping == MappingOf(rows[..i])
    {
      var row := rows[i];
      assert rows[..i + 1][..i] == rows[..i];
      mapping := mapping[row.detailsName := row.normalized];
      mapping := mapping[row.scheduleName := row.normalized];
      mapping := mapping[row.normalized := row.normalized];
      if row.shortName.Some? {
        mapping := mapping[row.shortName.value := row.normalized];
      }
    }
    assert rows[..|rows|] == rows;
    forall name ensures name in mapping <==> exists i :: 0 <= i < |rows| && Lists(rows[i], name) {
      MappingOfLookup(rows, name);
    }
  }

  /**
   * `normalize_team_name`: an empty map resolves nothing; otherwise the
   * label itself is looked up, then its stripped form, and a label found
   * neither way is returned unchanged.
   */
  function NormalizeTeamName(name: string, mapping: map<string, string>): (r: string)
    ensures mapping == map[] ==> r == name
    ensures r == name || r in mapping.Values
  {
    if mapping == map[] then name
    else if name in mapping then mapping[name]
    else if Strip(name) in mapping then mapping[Strip(name)]
    else name
  }

  /** What a label resolves to against the map built from `rows`, in terms of the rows alone. */
  lemma ResolveAgainstTable(rows: seq<TeamRow>, name: string)
    ensures forall i: nat :: LastLister(rows, name, i) ==> NormalizeTeamName(name, MappingOf(rows)) == rows[i].normalized
    ensures (forall i :: 0 <= i < |rows| ==> !Lists(rows[i], name)) ==>
      forall i: nat :: LastLister(rows, Strip(name), i) ==> NormalizeTeamName(name, MappingOf(rows)) == rows[i].normalized
    ensures (forall i :: 0 <= i < |rows| ==> !Lists(rows[i], name) && !Lists(rows[i], Strip(name))) ==>
      NormalizeTeamName(name, MappingOf(rows)) == name
  {
    MappingOfLookup(rows, name);
    MappingOfLookup(rows, Strip(name));
  }

  /** A row's normalized name resolves to itself unless a later row lists it too. */
  lemma CanonicalResolvesToItself(rows: seq<TeamRow>, i: nat)
    requires i < |rows|
    requires forall j :: i < j < |rows| ==> !Lists(rows[j], rows[i].normalized)
    ensures NormalizeTeamName(rows[i].normalized, MappingOf(rows)) == rows[i].normalized
  {
    assert LastLister(rows, rows[i].normalized, i);
    ResolveAgainstTable(rows, rows[i].normalized);
  }

  /** No row lists a label that another row uses as its normalized name, unless they agree on it. */
  predicate Consistent(rows: seq<TeamRow>) {
    forall i, j :: 0 <= i < |rows| && 0 <= j < |rows| && Lists(rows[j], rows[i].normalized) ==> rows[j].normalized == rows[i].normalized
  }

  /** Over a consistent table, resolving is idempotent: a resolved name resolves to itself. */
  lemma ResolveIdempotent(rows: seq<TeamRow>, name: string)
    requires Consistent(rows)
    ensures var once := NormalizeTeamName(name, MappingOf(rows));
            NormalizeTeamName(once, MappingOf(rows)) == once
  {
    var m := MappingOf(rows);
    var once := NormalizeTeamName(name, m);
    if once != name {
      var key := if name in m then name else Strip(name);
      MappingOfLookup(rows, key);
      var i :| 0 <= i < |rows| && Lists(rows[i], key);
      var last := LastIndex(rows, key, i);
      assert once == rows[last].normalized;
      MappingOfLookup(rows, once);
      assert Lists(rows[last], once);
      var last2 := LastIndex(rows, once, last);
      assert rows[last2].normalized == once;
    }
  }

  /** The index of the last row listing `name`, given one that does. */
  lemma {:induction false} LastIndex(rows: seq<TeamRow>, name: string, i: nat) returns (last: nat)
    requires i < |rows| && Lists(rows[i], name)
    ensures LastLister(rows, name, last) && i <= last
    decreases |rows| - i
  {
    if forall j :: i < j < |rows| ==> !Lists(rows[j], name) {
      last := i;
    } else {
      var j :| i < j < |rows| && Lists(rows[j], name);
      last := LastIndex(rows, name, j);
    }
  }
}
