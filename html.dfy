/** The parts of a parsed statistics page that the scrapers read, in place of
    the HTML document tree. Every text is already what get_text(strip=True)
    returns for that element. A BeautifulSoup tag is always true, so
    `if tag:` in the source only asks whether the element was found: an
    optional element is present or absent, and nothing more. */
module Html {
  import opened Text

  datatype CellTag = Th | Td

  /** The first <a> inside a cell. */
  datatype Anchor = Anchor(href: Option<string>, text: string)

  /** A <th> or <td>; `dataStat` is its data-stat attribute. */
  datatype Cell = Cell(tag: CellTag, dataStat: Option<string>, text: string,
                       anchor: Option<Anchor>)

  /** A <tr>; `isSeparator` is "thead" among its classes. */
  datatype Row = Row(isSeparator: bool, cells: seq<Cell>)

  /** A <table>: the rows of its first <thead> and of its first <tbody>. */
  datatype Table = Table(id: string, thead: Option<seq<Row>>, tbody: Option<seq<Row>>)

  /** A page: its tables in document order, the text of its <title>, the
      texts of the <div>s inside div.scorebox_meta, and the text of the
      parent of the first <strong> whose string mentions "Attendance". */
  datatype Document = Document(tables: seq<Table>, title: Option<string>,
                               scoreboxDivs: Option<seq<string>>,
                               attendanceText: Option<string>)

  /** soup.find("table", {"id": id}): the first table with that id. */
  function FindTable(tables: seq<Table>, id: string): (r: Option<Table>)
    ensures r.Some? ==> r.value in tables && r.value.id == id
    ensures r.None? <==> forall k :: 0 <= k < |tables| ==> tables[k].id != id
    ensures r.Some? ==> exists k :: 0 <= k < |tables| && tables[k] == r.value
                                    && forall j :: 0 <= j < k ==> tables[j].id != id
  {
    if tables == [] then None
    else if tables[0].id == id then Some(tables[0])
    else FindTable(tables[1..], id)
  }

  /** The body rows of the table with that id, None when the table is
      missing (`if not table` in the source) or has no tbody (`if not
      tbody`). */
  function BodyRows(doc: Document, id: string): (r: Option<seq<Row>>)
    ensures r.Some? <==> FindTable(doc.tables, id).Some? && FindTable(doc.tables, id).value.tbody.Some?
    ensures r.Some? ==> FindTable(doc.tables, id).value.tbody == r
  {
    match FindTable(doc.tables, id)
    case None => None
    case Some(t) => t.tbody
  }

  /** The last cell among `cells` whose data-stat is `stat`: the entry a
      {data-stat: cell} dict comprehension keeps for that key. */
  function CellByStat(cells: seq<Cell>, stat: string): (r: Option<Cell>)
    ensures r.Some? ==> r.value in cells && r.value.dataStat == Some(stat)
    ensures r.None? <==> forall k :: 0 <= k < |cells| ==> cells[k].dataStat != Some(stat)
    ensures r.Some? ==> exists k :: 0 <= k < |cells| && cells[k] == r.value
                                    && forall j :: k < j < |cells| ==> cells[j].dataStat != Some(stat)
  {
    if cells == [] then None
    else if cells[|cells| - 1].dataStat == Some(stat) then Some(cells[|cells| - 1])
    else CellByStat(cells[..|cells| - 1], stat)
  }

  /** The first cell of the given tag whose data-stat is `stat`:
      tr.find(tag, {"data-stat": stat}). */
  function FindCell(cells: seq<Cell>, tag: CellTag, stat: string): (r: Option<Cell>)
    ensures r.Some? ==> r.value in cells && r.value.tag == tag && r.value.dataStat == Some(stat)
    ensures r.None? <==> forall k :: 0 <= k < |cells| ==> !(cells[k].tag == tag && cells[k].dataStat == Some(stat))
    ensures r.Some? ==> exists k :: 0 <= k < |cells| && cells[k] == r.value
                                    && forall j :: 0 <= j < k ==> !(cells[j].tag == tag && cells[j].dataStat == Some(stat))
  {
    if cells == [] then None
    else if cells[0].tag == tag && cells[0].dataStat == Some(stat) then Some(cells[0])
    else FindCell(cells[1..], tag, stat)
  }

  /** `cell.get_text(strip=True) if cell else None`: the text of a present
      cell, empty or not. */
  function TextIfPresent(c: Option<Cell>): (r: Option<string>)
    ensures r.Some? <==> c.Some?
    ensures r.Some? ==> r.value == c.value.text
  {
    if c.Some? then Some(c.value.text) else None
  }

  /** The <td> cells of a row, in order: row.find_all("td"). */
  function TdCells(cells: seq<Cell>): (r: seq<Cell>)
    ensures |r| <= |cells|
    ensures forall k :: 0 <= k < |r| ==> r[k].tag == Td
  {
    if cells == [] then []
    else (if cells[0].tag == Td then [cells[0]] else []) + TdCells(cells[1..])
  }

  /** The <td> cells of a row are exactly its cells with the td tag. */
  lemma {:induction false} TdCellsMembers(cells: seq<Cell>)
    ensures forall c :: c in TdCells(cells) <==> c in cells && c.tag == Td
  {
    if cells != [] {
      TdCellsMembers(cells[1..]);
      assert cells == [cells[0]] + cells[1..];
    }
  }

  /** The <td> cells keep row order: those of two runs of cells are the
      first run's followed by the second's. */
  lemma {:induction false} TdCellsAppend(a: seq<Cell>, b: seq<Cell>)
    ensures TdCells(a + b) == TdCells(a) + TdCells(b)
  {
    if a == [] {
      assert a + b == b;
    } else {
      assert (a + b)[1..] == a[1..] + b;
      TdCellsAppend(a[1..], b);
    }
  }
}
