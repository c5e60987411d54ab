/** parse_season_averages: the row of a player's #per_game table whose
    season label matches the label computed from the season year. */
module Averages {
  import opened Text
  import opened Numbers
  import opened Html

  /** The values returned for the matching row; the per-game rates stay the
      text safe_float would round. */
  datatype SeasonAverages = SeasonAverages(
    games: Option<int>, mpg: RawFloat, ppg: RawFloat, rpg: RawFloat, apg: RawFloat,
    spg: RawFloat, bpg: RawFloat, topg: RawFloat,
    fgPct: RawFloat, tpPct: RawFloat, ftPct: RawFloat)

  /** f"{season}-{str(season+1)[-2:]}": the year, a dash, and the last two
      characters of the following year. */
  function SeasonLabel(season: int): string {
    IntToString(season) + "-" + LastTwo(IntToString(season + 1))
  }

  /** The last two characters of str(n) are n % 100 zero-padded, once n
      has two digits. */
  lemma LastTwoOfNat(n: nat)
    requires n >= 10
    ensures LastTwo(NatToString(n)) == Digits2(n % 100)
  {
    var s := NatToString(n);
    var hi := NatToString(n / 10);
    assert s == hi + [DigitChar(n % 10)];
    assert hi[|hi| - 1] == DigitChar((n / 10) % 10) by {
      if n / 10 >= 10 {
        assert hi == NatToString(n / 10 / 10) + [DigitChar((n / 10) % 10)];
      }
    }
    assert LastTwo(s) == [DigitChar((n / 10) % 10), DigitChar(n % 10)];
    TwoLowDigits(n);
  }

  /** The tens and units digits of n are those of n % 100. */
  lemma TwoLowDigits(n: nat)
    ensures (n % 100) / 10 == (n / 10) % 10 && (n % 100) % 10 == n % 10
  {
    var q := n / 10;
    var d0 := n % 10;
    var d1 := q % 10;
    assert n == 100 * (q / 10) + (10 * d1 + d0);
    DivModHundred(n, q / 10, 10 * d1 + d0);
    DivModTen(10 * d1 + d0, d1, d0);
  }

  /** Division by 100 with remainder has one answer. */
  lemma DivModHundred(n: int, a: int, b: int)
    requires 0 <= b < 100 && n == 100 * a + b
    ensures n % 100 == b
  {
  }

  /** Division by 10 with remainder has one answer. */
  lemma DivModTen(n: int, a: int, b: int)
    requires 0 <= b < 10 && n == 10 * a + b
    ensures n / 10 == a && n % 10 == b
  {
  }

  /** For a season year from 9 on, the label is the year followed by the
      following year modulo 100, zero-padded. */
  lemma SeasonLabelDigits(season: nat)
    requires season >= 9
    ensures SeasonLabel(season) == NatToString(season) + "-" + Digits2((season + 1) % 100)
  {
    LastTwoOfNat(season + 1);
  }

  /** 2024 is labelled "2024-25". */
  lemma SeasonLabel2024()
    ensures SeasonLabel(2024) == "2024-25"
  {
    SeasonLabelDigits(2024);
    FourDigitYear(2024);
  }

  /** The century wraps: 1999 is labelled "1999-00". */
  lemma SeasonLabel1999()
    ensures SeasonLabel(1999) == "1999-00"
  {
    SeasonLabelDigits(1999);
    FourDigitYear(1999);
  }

  /** The season as the code labels it: 2025 is "2025-26". */
  lemma SeasonLabel2025()
    ensures SeasonLabel(2025) == "2025-26"
  {
    SeasonLabelDigits(2025);
    FourDigitYear(2025);
  }

  /** The four digits of a year from 1000 to 9999. */
  lemma FourDigitYear(y: nat)
    requires 1000 <= y <= 9999
    ensures NatToString(y) == [DigitChar(y / 1000), DigitChar((y / 100) % 10),
                               DigitChar((y / 10) % 10), DigitChar(y % 10)]
  {
    assert NatToString(y) == NatToString(y / 10) + [DigitChar(y % 10)];
    assert NatToString(y / 10) == NatToString(y / 10 / 10) + [DigitChar((y / 10) % 10)];
    assert y / 10 / 10 == y / 100;
    assert NatToString(y / 100) == NatToString(y / 100 / 10) + [DigitChar((y / 100) % 10)];
    assert y / 100 / 10 == y / 1000;
  }

  /** The season text of a body row: absent for a separator row and for a
      row without a <th data-stat="season">. */
  function RowSeason(row: Row): Option<string> {
    if row.isSeparator then None
    else
      var c := FindCell(row.cells, Th, "season");
      if c.Some? then Some(c.value.text) else None
  }

  /** The index of the first row whose season text is `wanted`. */
  function FirstSeasonRow(rows: seq<Row>, wanted: string): (r: Option<nat>)
    ensures r.Some? ==> r.value < |rows| && RowSeason(rows[r.value]) == Some(wanted)
    ensures r.Some? ==> forall j :: 0 <= j < r.value ==> RowSeason(rows[j]) != Some(wanted)
    ensures r.None? <==> forall j :: 0 <= j < |rows| ==> RowSeason(rows[j]) != Some(wanted)
  {
    if rows == [] then None
    else if RowSeason(rows[0]) == Some(wanted) then Some(0)
    else
      var rest := FirstSeasonRow(rows[1..], wanted);
      assert forall j :: 1 <= j < |rows| ==> rows[j] == rows[1..][j - 1];
      if rest.None? then None else Some(rest.value + 1)
  }

  /** cells.get(stat) for the dict of the row's <td> texts by data-stat. */
  function TdText(row: Row, stat: string): (r: Option<string>)
    ensures r.None? <==> forall c :: c in TdCells(row.cells) ==> c.dataStat != Some(stat)
    ensures r.Some? ==>
              var tds := TdCells(row.cells);
              exists k :: 0 <= k < |tds| && tds[k].dataStat == Some(stat) && tds[k].text == r.value
                          && forall j :: k < j < |tds| ==> tds[j].dataStat != Some(stat)
  {
    match CellByStat(TdCells(row.cells), stat)
    case None => None
    case Some(c) => Some(c.text)
  }

  /** The averages read from one row. */
  function AveragesOf(row: Row): SeasonAverages {
    SeasonAverages(
      SafeInt(TdText(row, "g")),
      TdText(row, "mp_per_g"), TdText(row, "pts_per_g"), TdText(row, "trb_per_g"),
      TdText(row, "ast_per_g"), TdText(row, "stl_per_g"), TdText(row, "blk_per_g"),
      TdText(row, "tov_per_g"), TdText(row, "fg_pct"), TdText(row, "fg3_pct"), TdText(row, "ft_pct"))
  }

  /** parse_season_averages: absent without a #per_game table and tbody or
      without a row labelled with the season; otherwise the first such row's
      values. */
  function SeasonAveragesOf(doc: Document, season: int): (r: Option<SeasonAverages>)
    ensures BodyRows(doc, "per_game").None? ==> r.None?
    ensures BodyRows(doc, "per_game").Some? ==>
              var rows := BodyRows(doc, "per_game").value;
              (r.None? <==> forall j :: 0 <= j < |rows| ==> RowSeason(rows[j]) != Some(SeasonLabel(season)))
  {
    match BodyRows(doc, "per_game")
    case None => None
    case Some(rows) =>
      match FirstSeasonRow(rows, SeasonLabel(season))
      case None => None
      case Some(k) => Some(AveragesOf(rows[k]))
  }

  /** What a found row is: the first row, in table order, that is not a
      separator and whose season cell reads the label; its values are taken
      from that row alone. */
  lemma SeasonAveragesRow(doc: Document, season: int)
    requires SeasonAveragesOf(doc, season).Some?
    ensures var rows := BodyRows(doc, "per_game").value;
            exists k :: 0 <= k < |rows|
              && !rows[k].isSeparator
              && RowSeason(rows[k]) == Some(SeasonLabel(season))
              && (forall j :: 0 <= j < k ==> RowSeason(rows[j]) != Some(SeasonLabel(season)))
              && SeasonAveragesOf(doc, season) == Some(AveragesOf(rows[k]))
  {
    var rows := BodyRows(doc, "per_game").value;
    var wanted := SeasonLabel(season);
    var found := FirstSeasonRow(rows, wanted);
    assert found.Some?;
    var k := found.value;
    assert SeasonAveragesOf(doc, season) == Some(AveragesOf(rows[k]));
    assert !rows[k].isSeparator;
  }

  /** parse_season_averages: the table lookup, then the row loop. */
  method ParseSeasonAverages(doc: Document, season: int) returns (result: Option<SeasonAverages>)
    ensures result == SeasonAveragesOf(doc, season)
  {
    var body := BodyRows(doc, "per_game");
    if body.None? {
      return None;
    }
    var rows := body.value;
    var found := FindSeasonRow(rows, SeasonLabel(season));
    if found.None? {
      return None;
    }
    SeasonAveragesFound(doc, season, rows, found.value);
    return Some(AveragesOf(rows[found.value]));
  }

  /** The row loop with its early return: the index of the first row that
      is not a separator and has a season cell reading `seasonStr`. */
  method FindSeasonRow(rows: seq<Row>, seasonStr: string) returns (found: Option<nat>)
    ensures found == FirstSeasonRow(rows, seasonStr)
  {
    for i := 0 to |rows|
      invariant forall j :: 0 <= j < i ==> RowSeason(rows[j]) != Some(seasonStr)
    {
      var tr := rows[i];
      if tr.isSeparator {
        assert RowSeason(tr) == None;
        continue;
      }
      var seasonCell := FindCell(tr.cells, Th, "season");
      if seasonCell.None? {
        assert RowSeason(tr) == None;
        continue;
      }
      if seasonCell.value.text != seasonStr {
        assert RowSeason(tr) == Some(seasonCell.value.text);
        continue;
      }
      assert RowSeason(tr) == Some(seasonStr);
      FirstSeasonRowAt(rows, seasonStr, i);
      return Some(i);
    }
    return None;
  }

  /** The result of the first matching row is that row's values. */
  lemma SeasonAveragesFound(doc: Document, season: int, rows: seq<Row>, i: nat)
    requires BodyRows(doc, "per_game") == Some(rows)
    requires FirstSeasonRow(rows, SeasonLabel(season)) == Some(i)
    ensures SeasonAveragesOf(doc, season) == Some(AveragesOf(rows[i]))
  {
  }

  /** A matching row with no match before it is the one found. */
  lemma FirstSeasonRowAt(rows: seq<Row>, wanted: string, i: nat)
    requires i < |rows| && RowSeason(rows[i]) == Some(wanted)
    requires forall j :: 0 <= j < i ==> RowSeason(rows[j]) != Some(wanted)
    ensures FirstSeasonRow(rows, wanted) == Some(i)
  {
  }
}
