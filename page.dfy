/**
 * A game page as the scraper sees it once parsed: tables of rows of cells.
 * Each element keeps only what the scraper reads from it (its class list,
 * its `data-key` attribute, its first link and its raw text).
 */
module Page {
  import opened Wrappers

  /** An `<a>` element: its text and its `href` attribute, if it has one. */
  datatype Link = Link(text: string, href: Option<string>)

  /** A `td` cell: its classes, its `data-key` attribute, its first link and its text. */
  datatype Cell = Cell(classes: seq<string>, dataKey: Option<string>, link: Option<Link>, text: string)

  /** A `tr` row: its classes and its `td` cells, in order. */
  datatype Row = Row(classes: seq<string>, cells: seq<Cell>)

  /** A `th` header cell: its classes and its text. */
  datatype HeaderCell = HeaderCell(classes: seq<string>, text: string)

  /** A `thead`: the header cells of its first `tr`, None when it has no `tr`. */
  datatype Thead = Thead(row: Option<seq<HeaderCell>>)

  /**
   * A performance table: its `thead`, the rows of its `tbody` and the rows
   * of its `tfoot`, each None when the part is missing.
   */
  datatype Table = Table(head: Option<Thead>, body: Option<seq<Row>>, foot: Option<seq<Row>>)

  /**
   * Reading the header row of a `thead` that has no `tr` raises
   * AttributeError (`thead.find('tr')` is None, and None has no `find_all`).
   */
  predicate HeadRaises(head: Option<Thead>) {
    head.Some? && head.value.row.None?
  }

  /** The first child of a `label`: a piece of text, or an element. */
  datatype Child = TextChild(text: string) | ElementChild

  /** A `label` of the team-stats block: its first child (None when it has none) and the text of its `span`. */
  datatype Label = Label(first: Option<Child>, value: Option<string>)

  /**
   * One team's performance section: the text of its caption, its table and
   * the labels of its team-stats block, each None when missing.
   */
  datatype Section = Section(caption: Option<string>, table: Option<Table>, teamStats: Option<seq<Label>>)

  /**
   * A game page: the `tbody` rows of its results table (None when the table
   * or its body is missing) and its performance sections.
   */
  datatype GamePage = GamePage(results: Option<seq<Row>>, sections: seq<Section>)

  /** `row.find('td', class_=cls)`: the first cell carrying the class. */
  function FindCell(cells: seq<Cell>, cls: string): (r: Option<Cell>)
    ensures r.None? <==> forall i :: 0 <= i < |cells| ==> cls !in cells[i].classes
    ensures r.Some? ==> exists i :: 0 <= i < |cells| && cells[i] == r.value && cls in r.value.classes &&
                                    (forall j :: 0 <= j < i ==> cls !in cells[j].classes)
  {
    if cells == [] then None
    else if cls in cells[0].classes then Some(cells[0])
    else
      var r := FindCell(cells[1..], cls);
      assert forall i :: 1 <= i < |cells| ==> cells[i] == cells[1..][i - 1];
      if r.Some? then
        assert exists i :: 1 <= i < |cells| && cells[i] == r.value && cls in r.value.classes &&
                           (forall j :: 0 <= j < i ==> cls !in cells[j].classes) by {
          var k :| 0 <= k < |cells| - 1 && cells[1..][k] == r.value && cls in r.value.classes &&
                   (forall j :: 0 <= j < k ==> cls !in cells[1..][j].classes);
          assert cells[k + 1] == r.value;
          assert forall j :: 1 <= j < k + 1 ==> cls !in cells[j].classes;
        }
        r
      else r
  }
}
