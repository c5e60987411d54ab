/** parse_box_score_table: a basic or advanced box-score table becomes one
    labelled record per player who played, tagged as starter or reserve. */
module BoxTable {
  import opened Text
  import opened Html

  /** One output record: the cell texts keyed by column label, and the
      `_starter` flag. */
  datatype BoxRow = BoxRow(fields: map<string, string>, starter: bool)

  /** th.get("data-stat", th.get_text(strip=True)) */
  function HeaderLabel(c: Cell): string {
    match c.dataStat
    case Some(stat) => stat
    case None => c.text
  }

  /** The labels of the <th> cells of the last header row, in order. */
  function Columns(cells: seq<Cell>): (cols: seq<string>)
    ensures |cols| <= |cells|
  {
    if cells == [] then []
    else
      var last := cells[|cells| - 1];
      Columns(cells[..|cells| - 1]) + (if last.tag == Th then [HeaderLabel(last)] else [])
  }

  /** The dict row_data: the i-th cell's text under the i-th column label for
      every i below the number of columns, a later cell overwriting an
      earlier one with the same label. */
  function LabelCells(cols: seq<string>, cells: seq<Cell>): map<string, string> {
    if cells == [] then map[]
    else
      var n := |cells| - 1;
      var m := LabelCells(cols, cells[..n]);
      if n < |cols| then m[cols[n] := cells[n].text] else m
  }

  /** row_data.get("player", "") */
  function PlayerOf(fields: map<string, string>): string {
    if "player" in fields then fields["player"] else ""
  }

  predicate IsTotalsLabel(name: string) {
    Lower(name) == "team totals" || Lower(name) == "totals"
  }

  /** A body row that is not a separator survives all four skip rules: it
      has cells, it has no reason cell at all, and its player
      label is present, non-empty and not a totals label. */
  predicate Emitted(cols: seq<string>, row: Row) {
    && row.cells != []
    && FindCell(row.cells, Td, "reason").None?
    && PlayerOf(LabelCells(cols, row.cells)) != ""
    && !IsTotalsLabel(PlayerOf(LabelCells(cols, row.cells)))
  }

  /** What one body row amounts to: a separator, a skipped row, or a
      player's labelled cells. */
  datatype Line = Separator | Skipped | Player(fields: map<string, string>)

  function LineOf(cols: seq<string>, row: Row): Line {
    if row.isSeparator then Separator
    else if Emitted(cols, row) then Player(LabelCells(cols, row.cells))
    else Skipped
  }

  /** The lines of the body rows, in order. */
  function Lines(cols: seq<string>, body: seq<Row>): (ls: seq<Line>)
    ensures |ls| == |body|
  {
    seq(|body|, k requires 0 <= k < |body| => LineOf(cols, body[k]))
  }

  lemma LinesAt(cols: seq<string>, body: seq<Row>, k: nat)
    requires k < |body|
    ensures Lines(cols, body)[k] == LineOf(cols, body[k])
  {
  }

  /** A player line carries a real player name. */
  predicate NamedLine(l: Line) {
    l.Player? ==> PlayerOf(l.fields) != "" && !IsTotalsLabel(PlayerOf(l.fields))
  }

  lemma LinesNamed(cols: seq<string>, body: seq<Row>)
    ensures forall k :: 0 <= k < |body| ==> NamedLine(Lines(cols, body)[k])
  {
  }

  /** The record a non-separator line contributes. */
  function Record(l: Line, starter: bool): (out: seq<BoxRow>)
    ensures |out| <= 1
    ensures out != [] <==> l.Player?
    ensures out != [] ==> out[0] == BoxRow(l.fields, starter)
  {
    if l.Player? then [BoxRow(l.fields, starter)] else []
  }

  /** The records of the remaining lines once `seenReserves` says whether a
      separator row was passed. */
  function RowsFrom(lines: seq<Line>, seenReserves: bool): seq<BoxRow> {
    if lines == [] then []
    else if lines[0].Separator? then RowsFrom(lines[1..], true)
    else Record(lines[0], !seenReserves) + RowsFrom(lines[1..], seenReserves)
  }

  /** The whole function: a missing table gives no rows; a table without a
      thead raises AttributeError (find returns None), a thead without rows
      raises IndexError (header_rows[-1]), and a missing tbody then gives no
      rows. */
  function BoxScoreTable(doc: Document, tableId: string): Result<seq<BoxRow>> {
    match FindTable(doc.tables, tableId)
    case None => Ok([])
    case Some(t) =>
      match t.thead
        case None => Raised(AttributeError)
        case Some(headerRows) =>
          if headerRows == [] then Raised(IndexError)
          else match t.tbody
            case None => Ok([])
            case Some(body) => Ok(RowsFrom(Lines(Columns(headerRows[|headerRows| - 1].cells), body), false))
  }

  /** Exactly the labels of the first min(|cells|, |cols|) positions are
      keys: cells beyond the header count are dropped. */
  lemma {:induction false} LabelCellsKeys(cols: seq<string>, cells: seq<Cell>)
    ensures forall k :: k in LabelCells(cols, cells) <==>
                          exists i :: 0 <= i < |cells| && i < |cols| && cols[i] == k
  {
    if cells != [] {
      var n := |cells| - 1;
      LabelCellsKeys(cols, cells[..n]);
      forall k | k in LabelCells(cols, cells)
        ensures exists i :: 0 <= i < |cells| && i < |cols| && cols[i] == k
      {
        if k !in LabelCells(cols, cells[..n]) {
          assert cols[n] == k;
        } else {
          var i :| 0 <= i < n && i < |cols| && cols[i] == k;
        }
      }
      forall k | exists i :: 0 <= i < |cells| && i < |cols| && cols[i] == k
        ensures k in LabelCells(cols, cells)
      {
        var i :| 0 <= i < |cells| && i < |cols| && cols[i] == k;
        if i < n {
          assert cells[..n][i] == cells[i];
        }
      }
    }
  }

  /** The i-th cell's text sits under the i-th label unless a later cell
      reuses that label. */
  lemma {:induction false} LabelCellsAt(cols: seq<string>, cells: seq<Cell>, i: nat)
    requires i < |cells| && i < |cols|
    requires forall j :: i < j < |cells| && j < |cols| ==> cols[j] != cols[i]
    ensures cols[i] in LabelCells(cols, cells)
    ensures LabelCells(cols, cells)[cols[i]] == cells[i].text
  {
    var n := |cells| - 1;
    if i < n {
      LabelCellsAt(cols, cells[..n], i);
      assert cells[..n][i] == cells[i];
    }
  }

  /** The records of `lines`, all tagged with the same flag; separators
      are passed over. */
  function Select(lines: seq<Line>, starter: bool): (out: seq<BoxRow>)
    ensures |out| <= |lines|
  {
    if lines == [] then []
    else Record(lines[0], starter) + Select(lines[1..], starter)
  }

  /** Every selected record carries the given flag, and a real player name
      when every line does. */
  lemma {:induction false} SelectedRecords(lines: seq<Line>, starter: bool)
    requires forall k :: 0 <= k < |lines| ==> NamedLine(lines[k])
    ensures forall r :: r in Select(lines, starter) ==>
              r.starter == starter && PlayerOf(r.fields) != "" && !IsTotalsLabel(PlayerOf(r.fields))
  {
    if lines != [] {
      assert NamedLine(lines[0]);
      SelectedRecords(lines[1..], starter);
    }
  }

  /** Index of the first separator, or |lines| when there is none. */
  function FirstSeparator(lines: seq<Line>): (s: nat)
    ensures s <= |lines|
    ensures forall k :: 0 <= k < s ==> !lines[k].Separator?
    ensures s < |lines| ==> lines[s].Separator?
  {
    if lines == [] then 0
    else if lines[0].Separator? then 0
    else 1 + FirstSeparator(lines[1..])
  }

  /** Once a separator has been seen the flag never resets: every later
      record is a reserve. */
  lemma {:induction false} RowsAfterSeparator(lines: seq<Line>)
    ensures RowsFrom(lines, true) == Select(lines, false)
  {
    if lines != [] {
      RowsAfterSeparator(lines[1..]);
    }
  }

  /** The records are the starters (player lines before the first
      separator) followed by the reserves (player lines after it). */
  lemma {:induction false} RowsSplitAtFirstSeparator(lines: seq<Line>)
    ensures var s := FirstSeparator(lines);
            RowsFrom(lines, false) == Select(lines[..s], true) + Select(lines[s..], false)
  {
    var s := FirstSeparator(lines);
    if lines != [] {
      if lines[0].Separator? {
        RowsAfterSeparator(lines[1..]);
        assert lines[..s] == [];
        assert lines[s..] == lines;
      } else {
        RowsSplitAtFirstSeparator(lines[1..]);
        SplitStep(lines, s);
      }
    }
  }

  /** The inductive step of the split: a leading player line is the first
      starter. */
  lemma SplitStep(lines: seq<Line>, n: nat)
    requires lines != [] && !lines[0].Separator? && 0 < n <= |lines|
    requires RowsFrom(lines[1..], false) == Select(lines[1..][..n - 1], true) + Select(lines[1..][n - 1..], false)
    ensures RowsFrom(lines, false) == Select(lines[..n], true) + Select(lines[n..], false)
  {
    var rest := lines[1..];
    var head := Record(lines[0], true);
    var starters := Select(rest[..n - 1], true);
    var reserves := Select(rest[n - 1..], false);
    assert lines[..n][1..] == rest[..n - 1];
    assert Select(lines[..n], true) == head + starters;
    assert lines[n..] == rest[n - 1..];
    AppendAssoc(head, starters, reserves);
  }

  /** What every parse returns: no more records than body rows, each with a
      real player name, and a record is a starter exactly when it is one of
      the records of the rows before the first separator. */
  lemma StartersPrecedeReserves(lines: seq<Line>)
    requires forall k :: 0 <= k < |lines| ==> NamedLine(lines[k])
    ensures var out := RowsFrom(lines, false);
            var starters := |Select(lines[..FirstSeparator(lines)], true)|;
            && |out| <= |lines|
            && starters <= |out|
            && (forall k :: 0 <= k < |out| ==>
                  PlayerOf(out[k].fields) != "" && !IsTotalsLabel(PlayerOf(out[k].fields)))
            && (forall k :: 0 <= k < |out| ==> (out[k].starter <==> k < starters))
  {
    var s := FirstSeparator(lines);
    RowsSplitAtFirstSeparator(lines);
    var out := RowsFrom(lines, false);
    var a := Select(lines[..s], true);
    var b := Select(lines[s..], false);
    assert out == a + b;
    assert |lines| == |lines[..s]| + |lines[s..]|;
    SelectedRecords(lines[..s], true);
    SelectedRecords(lines[s..], false);
    forall k | 0 <= k < |out|
      ensures out[k].starter <==> k < |a|
      ensures PlayerOf(out[k].fields) != "" && !IsTotalsLabel(PlayerOf(out[k].fields))
    {
      if k < |a| { assert out[k] == a[k] && a[k] in a; } else { assert out[k] == b[k - |a|] && b[k - |a|] in b; }
    }
  }

  /** Every record the parse returns names a real player. */
  lemma BoxScoreTableRows(doc: Document, tableId: string)
    ensures var r := BoxScoreTable(doc, tableId);
            r.Ok? ==> forall k :: 0 <= k < |r.value| ==>
                        PlayerOf(r.value[k].fields) != "" && !IsTotalsLabel(PlayerOf(r.value[k].fields))
  {
    var t := FindTable(doc.tables, tableId);
    if t.Some? && t.value.thead.Some? && t.value.thead.value != [] && t.value.tbody.Some? {
      var headers := t.value.thead.value;
      var cols := Columns(headers[|headers| - 1].cells);
      var lines := Lines(cols, t.value.tbody.value);
      assert BoxScoreTable(doc, tableId) == Ok(RowsFrom(lines, false));
      LinesNamed(cols, t.value.tbody.value);
      StartersPrecedeReserves(lines);
    }
  }

  method ReadColumns(cells: seq<Cell>) returns (cols: seq<string>)
    ensures cols == Columns(cells)
  {
    cols := [];
    for i := 0 to |cells|
      invariant cols == Columns(cells[..i])
    {
      assert cells[..i + 1][..i] == cells[..i];
      if cells[i].tag == Th {
        cols := cols + [HeaderLabel(cells[i])];
      }
    }
    assert cells[..|cells|] == cells;
  }

  method LabelRow(cols: seq<string>, cells: seq<Cell>) returns (rowData: map<string, string>)
    ensures rowData == LabelCells(cols, cells)
  {
    rowData := map[];
    for i := 0 to |cells|
      invariant rowData == LabelCells(cols, cells[..i])
    {
      assert cells[..i + 1][..i] == cells[..i];
      if i < |cols| {
        rowData := rowData[cols[i] := cells[i].text];
      }
    }
    assert cells[..|cells|] == cells;
  }

  /** One body row that is not a separator: skipped when it has no cells,
      when it has a reason cell, or when its player label is
      missing, empty or a totals label; otherwise its labelled cells with
      the flag. */
  method RowRecord(cols: seq<string>, tr: Row, starter: bool) returns (out: seq<BoxRow>)
    requires !tr.isSeparator
    ensures out == Record(LineOf(cols, tr), starter)
  {
    out := [];
    if tr.cells != [] {
      var rowData := LabelRow(cols, tr.cells);
      var reasonCell := FindCell(tr.cells, Td, "reason");
      var playerName := if "player" in rowData then rowData["player"] else "";
      if reasonCell.None? && playerName != "" && !IsTotalsLabel(playerName) {
        out := [BoxRow(rowData, starter)];
      }
    }
  }

  /** The loop over the body rows, with the `seen_reserves` flag. */
  method CollectRows(cols: seq<string>, body: seq<Row>) returns (rows: seq<BoxRow>)
    ensures rows == RowsFrom(Lines(cols, body), false)
  {
    ghost var lines := Lines(cols, body);
    rows := [];
    var seenReserves := false;
    for i := 0 to |body|
      invariant rows + RowsFrom(lines[i..], seenReserves) == RowsFrom(lines, false)
    {
      var tr := body[i];
      LinesAt(cols, body, i);
      ghost var seenBefore := seenReserves;
      var out: seq<BoxRow> := [];
      if tr.isSeparator {
        seenReserves := true;
      } else {
        out := RowRecord(cols, tr, !seenReserves);
      }
      CollectStep(lines, i, seenBefore, seenReserves, rows, out, RowsFrom(lines, false));
      rows := rows + out;
    }
  }

  /** One pass of the body loop keeps the invariant: a separator sets the
      flag and adds nothing, any other row adds its own record. */
  lemma CollectStep(lines: seq<Line>, i: nat, seen: bool, seen': bool,
                    rows: seq<BoxRow>, out: seq<BoxRow>, total: seq<BoxRow>)
    requires i < |lines|
    requires rows + RowsFrom(lines[i..], seen) == total
    requires seen' == (seen || lines[i].Separator?)
    requires out == if lines[i].Separator? then [] else Record(lines[i], !seen)
    ensures (rows + out) + RowsFrom(lines[i + 1..], seen') == total
  {
    assert lines[i..][1..] == lines[i + 1..];
    if !lines[i].Separator? {
      assert (rows + out) + RowsFrom(lines[i + 1..], seen') == rows + (out + RowsFrom(lines[i + 1..], seen'));
    }
  }

  method ParseBoxScoreTable(doc: Document, tableId: string) returns (result: Result<seq<BoxRow>>)
    ensures result == BoxScoreTable(doc, tableId)
  {
    var table := FindTable(doc.tables, tableId);
    if table.None? {
      return Ok([]);
    }
    if table.value.thead.None? {
      return Raised(AttributeError);
    }
    var headerRows := table.value.thead.value;
    if headerRows == [] {
      return Raised(IndexError);
    }
    var cols := ReadColumns(headerRows[|headerRows| - 1].cells);
    if table.value.tbody.None? {
      return Ok([]);
    }
    var rows := CollectRows(cols, table.value.tbody.value);
    return Ok(rows);
  }
}
