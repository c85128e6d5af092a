/**
 * The parts of a parsed FBRef page that the collectors read, in place of
 * BeautifulSoup.  A table keeps its `<tbody>` rows (when it has a tbody) and
 * all of its `<tr>` rows; a row is its `th`/`td` cells in document order; a
 * cell keeps its tag, its `data-stat` attribute, its text and its first link.
 */
module Html {
  import opened Wrappers
  import opened PyStrings
  import opened Lists

  datatype Tag = Th | Td

  /** An `<a>` element: its text and its `href` attribute, if any. */
  datatype Link = Link(text: string, href: Option<string>)

  datatype Cell = Cell(tag: Tag, dataStat: Option<string>, text: string, link: Option<Link>)

  type Row = seq<Cell>

  datatype Table = Table(tbody: Option<seq<Row>>, rows: seq<Row>)

  /** A page: its tables by `id` in document order, `div#team_stats` with the
      first table inside it (if any), and the direct child divs of
      `div#team_stats_extra`, each given as the stripped texts of the divs it
      contains. */
  datatype Document = Document(
    tables: seq<(string, Table)>,
    teamStats: Option<Option<Table>>,
    teamStatsExtra: Option<seq<seq<string>>>)

  /** The outcome of fetching a page: a document, `None`, or an exception. */
  datatype Fetch = Page(doc: Document) | NoPage | Raised

  /** `soup.find('table', {'id': id})`: the first table with that id. */
  function FindTable(doc: Document, id: string): (r: Option<Table>)
    ensures r.Some? <==> exists i :: 0 <= i < |doc.tables| && doc.tables[i].0 == id
    ensures r.Some? ==> exists i :: 0 <= i < |doc.tables| && doc.tables[i] == (id, r.value) &&
                                    forall j :: 0 <= j < i ==> doc.tables[j].0 != id
  {
    FindTableFrom(doc.tables, id, 0)
  }

  function FindTableFrom(tables: seq<(string, Table)>, id: string, from: nat): (r: Option<Table>)
    requires from <= |tables|
    ensures r.Some? <==> exists i :: from <= i < |tables| && tables[i].0 == id
    ensures r.Some? ==> exists i :: from <= i < |tables| && tables[i] == (id, r.value) &&
                                    forall j :: from <= j < i ==> tables[j].0 != id
    decreases |tables| - from
  {
    if from == |tables| then None
    else if tables[from].0 == id then Some(tables[from].1)
    else FindTableFrom(tables, id, from + 1)
  }

  /** `row.find('td')` is not None */
  predicate HasTd(row: Row) {
    exists i :: 0 <= i < |row| && row[i].tag == Td
  }

  /** `[row for row in rows if row.find('td')]` */
  function RowsWithTd(rows: seq<Row>): (r: seq<Row>)
    ensures |r| <= |rows|
    ensures forall i :: 0 <= i < |r| ==> HasTd(r[i])
    ensures forall row :: row in rows && HasTd(row) <==> row in r
  {
    if rows == [] then []
    else RowsWithTd(rows[..|rows| - 1]) + (if HasTd(rows[|rows| - 1]) then [rows[|rows| - 1]] else [])
  }

  /** The kept rows are the rows with a `td`, in table order. */
  lemma {:induction false} RowsWithTdOrder(rows: seq<Row>)
    ensures RowsWithTd(rows) == Filter(rows, HasTd)
    ensures |RowsWithTd(rows)| == |Positions(rows, HasTd)|
    ensures forall j :: 0 <= j < |RowsWithTd(rows)| ==> RowsWithTd(rows)[j] == rows[Positions(rows, HasTd)[j]]
  {
    if rows != [] {
      RowsWithTdOrder(rows[..|rows| - 1]);
    }
    FilterPositions(rows, HasTd);
  }

  /** The rows the extractors walk: the tbody rows when the table has a tbody
      (a found tag is always truthy, even an empty one), else the rows that
      contain a `td`, which leaves out header rows. */
  function DataRows(t: Table): (r: seq<Row>)
    ensures t.tbody.Some? ==> r == t.tbody.value
    ensures t.tbody.None? ==> forall row :: row in r <==> row in t.rows && HasTd(row)
  {
    if t.tbody.Some? then t.tbody.value else RowsWithTd(t.rows)
  }

  /** `tag.get_text(strip=True)` and `tag.text.strip()` of a cell. */
  function CellText(c: Cell): string {
    Strip(c.text)
  }

  /** `row.get_text(strip=True)`: the stripped texts of its cells, joined. */
  function RowText(row: Row): string {
    if row == [] then [] else RowText(row[..|row| - 1]) + CellText(row[|row| - 1])
  }

  /** `row.find(tag, {'data-stat': stat})`: the first such cell. */
  function FindCell(row: Row, tag: Tag, stat: string): (r: Option<Cell>)
    ensures r.Some? ==> r.value in row && r.value.tag == tag && r.value.dataStat == Some(stat)
    ensures r.None? <==> forall i :: 0 <= i < |row| ==> !(row[i].tag == tag && row[i].dataStat == Some(stat))
  {
    if row == [] then None
    else if row[0].tag == tag && row[0].dataStat == Some(stat) then Some(row[0])
    else FindCell(row[1..], tag, stat)
  }

  /** `row.find_all(tag)` */
  function CellsWithTag(row: Row, tag: Tag): (r: seq<Cell>)
    ensures |r| <= |row|
    ensures forall i :: 0 <= i < |r| ==> r[i].tag == tag
    ensures forall c :: c in row && c.tag == tag <==> c in r
  {
    if row == [] then []
    else CellsWithTag(row[..|row| - 1], tag) + (if row[|row| - 1].tag == tag then [row[|row| - 1]] else [])
  }

  /** The cell test of `find_all(tag)`. */
  function IsTag(tag: Tag): Cell -> bool {
    (c: Cell) => c.tag == tag
  }

  /** `find_all` lists the cells with the tag in document order. */
  lemma {:induction false} CellsWithTagOrder(row: Row, tag: Tag)
    ensures CellsWithTag(row, tag) == Filter(row, IsTag(tag))
    ensures |CellsWithTag(row, tag)| == |Positions(row, IsTag(tag))|
    ensures forall j :: 0 <= j < |CellsWithTag(row, tag)| ==>
              CellsWithTag(row, tag)[j] == row[Positions(row, IsTag(tag))[j]]
  {
    if row != [] {
      CellsWithTagOrder(row[..|row| - 1], tag);
    }
    FilterPositions(row, IsTag(tag));
  }

  /** `find` returns the FIRST matching cell: every cell before it fails the
      match. */
  lemma {:induction false} FindCellFirst(row: Row, tag: Tag, stat: string)
    ensures FindCell(row, tag, stat).Some? ==>
              exists i :: 0 <= i < |row| && row[i] == FindCell(row, tag, stat).value &&
                forall j :: 0 <= j < i ==> !(row[j].tag == tag && row[j].dataStat == Some(stat))
  {
    if row != [] && !(row[0].tag == tag && row[0].dataStat == Some(stat)) && FindCell(row, tag, stat).Some? {
      var rest := row[1..];
      FindCellFirst(rest, tag, stat);
      var i :| 0 <= i < |rest| && rest[i] == FindCell(rest, tag, stat).value &&
               forall j :: 0 <= j < i ==> !(rest[j].tag == tag && rest[j].dataStat == Some(stat));
      assert row[i + 1] == rest[i];
      forall j | 0 <= j < i + 1 ensures !(row[j].tag == tag && row[j].dataStat == Some(stat)) {
        if j > 0 {
          assert row[j] == rest[j - 1];
        }
      }
    } else if row != [] && FindCell(row, tag, stat).Some? {
      assert row[0] == FindCell(row, tag, stat).value;
    }
  }

  /** Python truthiness of an optional string: present and not empty. */
  predicate Truthy(s: Option<string>) {
    s.Some? && s.value != []
  }
}
