/** The parts of a box-score page other than the player tables: the line
    score (parse_quarter_scores), the playoff round named in the page title
    (parse_playoff_round), arena and attendance (parse_arena_attendance),
    and the address of the page itself (fetch_game_page). */
module GamePage {
  import opened Text
  import opened Numbers
  import opened Html
  import opened Calendar
  import opened Abbrev

  datatype Side = Away | Home

  /** A column of the games table that the scraper fills. */
  datatype GameColumn =
    | QuarterScore(side: Side, quarter: nat)
    | Overtime(side: Side)
    | PlayoffRoundColumn
    | ArenaColumn
    | AttendanceColumn

  function SidePrefix(side: Side): string {
    match side
    case Away => "away"
    case Home => "home"
  }

  /** The database column name: away_q1 … home_q4, away_ot, home_ot,
      playoff_round, arena, attendance. */
  function ColumnName(c: GameColumn): string {
    match c
    case QuarterScore(side, q) => SidePrefix(side) + "_q" + NatToString(q)
    case Overtime(side) => SidePrefix(side) + "_ot"
    case PlayoffRoundColumn => "playoff_round"
    case ArenaColumn => "arena"
    case AttendanceColumn => "attendance"
  }

  /** The ten columns a line score fills. */
  predicate IsLineScoreColumn(c: GameColumn) {
    (c.QuarterScore? && 1 <= c.quarter <= 4) || c.Overtime?
  }

  /** The ten line-score columns have ten different names. */
  lemma LineScoreColumnNamesDistinct(c: GameColumn, d: GameColumn)
    requires IsLineScoreColumn(c) && IsLineScoreColumn(d)
    requires ColumnName(c) == ColumnName(d)
    ensures c == d
  {
    assert ColumnName(c)[0] == ColumnName(d)[0];
    assert ColumnName(c)[5] == ColumnName(d)[5];
    if c.QuarterScore? && d.QuarterScore? {
      assert ColumnName(c)[6] == ColumnName(d)[6];
    }
  }

  // ---------------------------------------------------------------- line score

  /** parse_row: safe_int of the text of every <td> of the row, in order. */
  function ScoreRow(cells: seq<Cell>): (scores: seq<Option<int>>)
    ensures |scores| == |TdCells(cells)|
    ensures forall k :: 0 <= k < |scores| ==> scores[k] == SafeInt(Some(TdCells(cells)[k].text))
  {
    var tds := TdCells(cells);
    seq(|tds|, k requires 0 <= k < |tds| => SafeInt(Some(tds[k].text)))
  }

  /** `scores[i] if i < len(scores) else None` */
  function QuarterValue(scores: seq<Option<int>>, i: nat): Option<int> {
    if i < |scores| then scores[i] else None
  }

  /** sum(s for s in scores if s is not None) */
  function PresentSum(scores: seq<Option<int>>): int {
    if scores == [] then 0
    else (if scores[0].Some? then scores[0].value else 0) + PresentSum(scores[1..])
  }

  /** The overtime value of one team's row: with more than five cells, the
      sum of the present values strictly between the fourth quarter and the
      final total; a sum that is not positive, or a shorter row, is absent. */
  function OvertimeValue(scores: seq<Option<int>>): (r: Option<int>)
    ensures r.Some? <==> |scores| > 5 && PresentSum(scores[4..|scores| - 1]) > 0
    ensures r.Some? ==> r.value == PresentSum(scores[4..|scores| - 1]) && r.value > 0
  {
    if |scores| > 5 then
      var total := PresentSum(scores[4..|scores| - 1]);
      if total > 0 then Some(total) else None
    else None
  }

  /** The overtime sum adds up the periods piece by piece. */
  lemma {:induction false} PresentSumAppend(a: seq<Option<int>>, b: seq<Option<int>>)
    ensures PresentSum(a + b) == PresentSum(a) + PresentSum(b)
  {
    if a != [] {
      assert (a + b)[1..] == a[1..] + b;
      PresentSumAppend(a[1..], b);
    } else {
      assert a + b == b;
    }
  }

  /** Rows whose overtime cells are all empty or non-numeric have no overtime. */
  lemma {:induction false} PresentSumAbsent(scores: seq<Option<int>>)
    requires forall k :: 0 <= k < |scores| ==> scores[k].None?
    ensures PresentSum(scores) == 0
  {
    if scores != [] {
      PresentSumAbsent(scores[1..]);
    }
  }

  /** The last cell is the game total and never counts as overtime: any
      value can stand there. */
  lemma OvertimeIgnoresTotal(scores: seq<Option<int>>, total: Option<int>)
    requires |scores| > 5
    ensures OvertimeValue(scores[..|scores| - 1] + [total]) == OvertimeValue(scores)
  {
    var t := scores[..|scores| - 1] + [total];
    assert t[4..|t| - 1] == scores[4..|scores| - 1];
  }

  /** With one overtime period (six cells) the overtime is that period's
      points when they are positive, and absent otherwise. */
  lemma OvertimeSinglePeriod(scores: seq<Option<int>>)
    requires |scores| == 6
    ensures OvertimeValue(scores) ==
              if scores[4].Some? && scores[4].value > 0 then scores[4] else None
  {
    assert scores[4..5] == [scores[4]];
    assert [scores[4]][1..] == [];
    assert PresentSum(scores[4..5]) == if scores[4].Some? then scores[4].value else 0;
  }

  /** With two overtime periods both are added; the total cell is left out. */
  lemma OvertimeTwoPeriods(scores: seq<Option<int>>, p: int, q: int)
    requires |scores| == 7 && scores[4] == Some(p) && scores[5] == Some(q) && p + q > 0
    ensures OvertimeValue(scores) == Some(p + q)
  {
    var ot := scores[4..6];
    assert ot == [Some(p)] + [Some(q)];
    PresentSumAppend([Some(p)], [Some(q)]);
    assert [Some(p)][1..] == [] && [Some(q)][1..] == [];
  }

  /** The entries for quarters 1..n of one side. */
  function QuarterEntries(side: Side, scores: seq<Option<int>>, n: nat): (m: map<GameColumn, Option<int>>)
    ensures forall c :: c in m <==> c.QuarterScore? && c.side == side && 1 <= c.quarter <= n
    ensures forall q :: 1 <= q <= n ==> m[QuarterScore(side, q)] == QuarterValue(scores, q - 1)
  {
    if n == 0 then map[]
    else QuarterEntries(side, scores, n - 1)[QuarterScore(side, n) := QuarterValue(scores, n - 1)]
  }

  /** One side's five entries: q1..q4 and ot. */
  function SideEntries(side: Side, scores: seq<Option<int>>): (m: map<GameColumn, Option<int>>)
    ensures forall c :: c in m <==> IsLineScoreColumn(c) && c.side == side
    ensures forall q :: 1 <= q <= 4 ==>
              QuarterScore(side, q) in m && m[QuarterScore(side, q)] == QuarterValue(scores, q - 1)
    ensures Overtime(side) in m && m[Overtime(side)] == OvertimeValue(scores)
  {
    QuarterEntries(side, scores, 4)[Overtime(side) := OvertimeValue(scores)]
  }

  /** parse_quarter_scores: absent without a line_score table, its tbody, or
      two body rows; otherwise away entries from the first row and home
      entries from the second. */
  function LineScore(doc: Document): Option<map<GameColumn, Option<int>>> {
    match BodyRows(doc, "line_score")
    case None => None
    case Some(rows) =>
      if |rows| < 2 then None
      else Some(SideEntries(Away, ScoreRow(rows[0].cells)) + SideEntries(Home, ScoreRow(rows[1].cells)))
  }

  /** The row of the line score that holds a side's scores. */
  function SideRow(side: Side): nat {
    match side
    case Away => 0
    case Home => 1
  }

  /** What a line score holds: exactly the ten columns, quarter q from cell
      q - 1 of the side's row (absent past the row's end) and the overtime
      value of that row. */
  lemma LineScoreEntries(doc: Document)
    ensures LineScore(doc).Some? <==> BodyRows(doc, "line_score").Some? && |BodyRows(doc, "line_score").value| >= 2
    ensures LineScore(doc).Some? ==>
              var m := LineScore(doc).value;
              var rows := BodyRows(doc, "line_score").value;
              && (forall c :: c in m <==> IsLineScoreColumn(c))
              && (forall side: Side, q :: 1 <= q <= 4 ==>
                    m[QuarterScore(side, q)] == QuarterValue(ScoreRow(rows[SideRow(side)].cells), q - 1))
              && (forall side: Side :: m[Overtime(side)] == OvertimeValue(ScoreRow(rows[SideRow(side)].cells)))
  {
    if LineScore(doc).Some? {
      var rows := BodyRows(doc, "line_score").value;
      var a := SideEntries(Away, ScoreRow(rows[0].cells));
      var h := SideEntries(Home, ScoreRow(rows[1].cells));
      var m := LineScore(doc).value;
      assert m == a + h;
      forall side: Side, q | 1 <= q <= 4
        ensures m[QuarterScore(side, q)] == QuarterValue(ScoreRow(rows[SideRow(side)].cells), q - 1)
      {
        if side == Away {
          assert QuarterScore(side, q) !in h;
        }
      }
      forall side: Side
        ensures m[Overtime(side)] == OvertimeValue(ScoreRow(rows[SideRow(side)].cells))
      {
        if side == Away {
          assert Overtime(side) !in h;
        }
      }
    }
  }

  /** The nested loop that fills the result dict, side by side and quarter
      by quarter. */
  method ParseQuarterScores(doc: Document) returns (result: Option<map<GameColumn, Option<int>>>)
    ensures result == LineScore(doc)
  {
    var body := BodyRows(doc, "line_score");
    if body.None? {
      return None;
    }
    var rows := body.value;
    if |rows| < 2 {
      return None;
    }
    var awayScores := ScoreRow(rows[0].cells);
    var homeScores := ScoreRow(rows[1].cells);
    var sides := [(Away, awayScores), (Home, homeScores)];
    ghost var done := [map[], SideEntries(Away, awayScores),
                       SideEntries(Away, awayScores) + SideEntries(Home, homeScores)];
    var m: map<GameColumn, Option<int>> := map[];
    for j := 0 to 2
      invariant m == done[j]
    {
      m := FillSide(m, sides[j].0, sides[j].1);
      if j == 0 {
        EmptyUnion(SideEntries(Away, awayScores));
      }
    }
    return Some(m);
  }

  /** One pass of the outer loop: q1..q4 by position, then the overtime. */
  method FillSide(m0: map<GameColumn, Option<int>>, side: Side, scores: seq<Option<int>>)
    returns (m: map<GameColumn, Option<int>>)
    ensures m == m0 + SideEntries(side, scores)
  {
    m := m0;
    for i := 0 to 4
      invariant m == m0 + QuarterEntries(side, scores, i)
    {
      UnionUpdate(m0, QuarterEntries(side, scores, i), QuarterScore(side, i + 1), QuarterValue(scores, i));
      m := m[QuarterScore(side, i + 1) := QuarterValue(scores, i)];
    }
    UnionUpdate(m0, QuarterEntries(side, scores, 4), Overtime(side), OvertimeValue(scores));
    m := m[Overtime(side) := OvertimeValue(scores)];
  }

  lemma UnionUpdate<K, V>(a: map<K, V>, b: map<K, V>, k: K, v: V)
    ensures (a + b)[k := v] == a + b[k := v]
  {
  }

  lemma EmptyUnion<K, V>(b: map<K, V>)
    ensures map[] + b == b
  {
  }

  // ------------------------------------------------------------- playoff round

  datatype PlayoffRound = FirstRound | ConfSemis | ConfFinals | Finals

  /** The playoff_round value written to the games table. */
  function RoundName(r: PlayoffRound): string {
    match r
    case FirstRound => "first_round"
    case ConfSemis => "conf_semis"
    case ConfFinals => "conf_finals"
    case Finals => "finals"
  }

  /** The four phrases, tried in this order on the lowercased title. */
  function RoundOfTitle(title: string): (r: Option<PlayoffRound>)
    ensures r == Some(FirstRound) <==> Contains(title, "first round")
    ensures r == Some(ConfSemis) <==>
              !Contains(title, "first round") && Contains(title, "conference semifinals")
    ensures r == Some(ConfFinals) <==>
              !Contains(title, "first round") && !Contains(title, "conference semifinals")
              && Contains(title, "conference finals")
    ensures r == Some(Finals) <==>
              !Contains(title, "first round") && !Contains(title, "conference semifinals")
              && !Contains(title, "conference finals") && Contains(title, "nba finals")
    ensures r.None? <==>
              !Contains(title, "first round") && !Contains(title, "conference semifinals")
              && !Contains(title, "conference finals") && !Contains(title, "nba finals")
  {
    if Contains(title, "first round") then Some(FirstRound)
    else if Contains(title, "conference semifinals") then Some(ConfSemis)
    else if Contains(title, "conference finals") then Some(ConfFinals)
    else if Contains(title, "nba finals") then Some(Finals)
    else None
  }

  /** parse_playoff_round: no title, or a title naming no round, is absent. */
  function PlayoffRoundOf(title: Option<string>): (r: Option<PlayoffRound>)
    ensures title.None? ==> r.None?
  {
    match title
    case None => None
    case Some(t) => RoundOfTitle(Lower(t))
  }

  /** The title's letter case does not matter. */
  lemma PlayoffRoundIgnoresCase(t: string)
    ensures PlayoffRoundOf(Some(Lower(t))) == PlayoffRoundOf(Some(t))
  {
    LowerIdempotent(t);
  }

  /** A round phrase anywhere in the lowercased title is found: the title
      names first-round games whenever "first round" occurs in it. */
  lemma FirstRoundWins(t: string, i: int)
    requires OccursAt(Lower(t), "first round", i)
    ensures PlayoffRoundOf(Some(t)) == Some(FirstRound)
  {
    ContainsIff(Lower(t), "first round");
  }

  // ------------------------------------------------------- arena and attendance

  /** The arena: the text of the second meta div up to its first comma,
      stripped; absent with fewer than two divs, or when that text starts
      with "Attendance" or "Logo". */
  function ParseArena(divs: Option<seq<string>>): (r: Option<string>)
    ensures r.Some? <==> divs.Some? && |divs.value| >= 2
                         && !StartsWith(divs.value[1], "Attendance") && !StartsWith(divs.value[1], "Logo")
    ensures r.Some? ==> ',' !in r.value
  {
    match divs
    case None => None
    case Some(ds) =>
      if |ds| < 2 then None
      else
        var candidate := ds[1];
        if StartsWith(candidate, "Attendance") || StartsWith(candidate, "Logo") then None
        else
          var r := Strip(BeforeFirst(candidate, ','));
          StripSubset(BeforeFirst(candidate, ','));
          Some(r)
  }

  /** An arena shown as "Name, City, State" yields its name; a text without
      a comma yields all of it. */
  lemma ArenaOfMeta(date: string, name: string, place: string)
    requires name != [] && ',' !in name && !IsSpace(name[0]) && !IsSpace(name[|name| - 1])
    requires !StartsWith(name, "Attendance") && !StartsWith(name, "Logo")
    ensures ParseArena(Some([date, name + ", " + place])) == Some(name)
    ensures ParseArena(Some([date, name])) == Some(name)
  {
    var c := name + ", " + place;
    assert c == name + (", " + place);
    StartsWithLeft(name, ", " + place, "Attendance");
    StartsWithLeft(name, ", " + place, "Logo");
    IndexOfPast(name, ", " + place, ',');
    assert c[..|name|] == name;
    StripNoEdgeSpace(name);
    ArenaOfCandidate(date, c, name);
    ArenaOfCandidate(date, name, name);
  }

  lemma ArenaOfCandidate(date: string, candidate: string, name: string)
    requires !StartsWith(candidate, "Attendance") && !StartsWith(candidate, "Logo")
    requires BeforeFirst(candidate, ',') == name && Strip(name) == name
    ensures ParseArena(Some([date, candidate])) == Some(name)
  {
  }

  /** A prefix that contains no first character of b and starts a + b
      already starts a. */
  lemma StartsWithLeft(a: string, b: string, p: string)
    requires b != [] && b[0] !in p
    ensures StartsWith(a + b, p) ==> StartsWith(a, p)
  {
    if |a| < |p| <= |a + b| {
      assert (a + b)[..|p|][|a|] == b[0];
    } else if |p| <= |a| {
      assert (a + b)[..|p|] == a[..|p|];
    }
  }

  /** The attendance text with every "Attendance:", non-breaking space and
      comma removed, stripped. */
  function CleanAttendance(t: string): (r: string)
    ensures ',' !in r && '\U{A0}' !in r
  {
    var noLabel := RemoveAll(t, "Attendance:");
    var noNbsp := RemoveAll(noLabel, "\U{A0}");
    RemoveCharGone(noLabel, '\U{A0}');
    var noComma := RemoveAll(noNbsp, ",");
    RemoveCharGone(noNbsp, ',');
    assert forall k :: 0 <= k < |noComma| ==> noComma[k] in noNbsp by {
      RemoveCharSubset(noNbsp, ',');
    }
    StripSubset(noComma);
    var r := Strip(noComma);
    r
  }

  lemma {:induction false} RemoveCharSubset(s: string, c: char)
    ensures forall x :: x in RemoveAll(s, [c]) ==> x in s
    decreases |s|
  {
    if s != [] {
      RemoveCharSubset(s[1..], c);
    }
  }

  /** The attendance: absent without an "Attendance" label, otherwise
      safe_int of the cleaned text. */
  function ParseAttendance(text: Option<string>): (r: Option<int>)
    ensures text.None? ==> r.None?
    ensures r.Some? ==> -ExactFloatBound < r.value < ExactFloatBound
  {
    match text
    case None => None
    case Some(t) => SafeInt(Some(CleanAttendance(t)))
  }

  /** "Attendance:" followed by a number written with one thousands comma
      reads back as that number ("Attendance:19,156" is 19156). */
  lemma AttendanceOfThousands(high: string, low: string)
    requires high != [] && AllDigits(high) && AllDigits(low)
    requires ValueOf(high + low) < ExactFloatBound
    ensures ParseAttendance(Some("Attendance:" + high + "," + low)) == Some(ValueOf(high + low) as int)
  {
    CleanThousands(high, low);
    DigitsConcat(high, low);
    SafeIntOfDigits(high + low);
  }

  lemma DigitsConcat(a: string, b: string)
    requires AllDigits(a) && AllDigits(b)
    ensures AllDigits(a + b)
  {
    forall k | 0 <= k < |a + b| ensures IsDigit((a + b)[k]) {
      if k < |a| { assert (a + b)[k] == a[k]; } else { assert (a + b)[k] == b[k - |a|]; }
    }
  }

  /** Unsigned digit text within the exact range is read as its value. */
  lemma SafeIntOfDigits(d: string)
    requires d != [] && AllDigits(d) && ValueOf(d) < ExactFloatBound
    ensures SafeInt(Some(Strip(d))) == Some(ValueOf(d) as int)
  {
    assert !IsSpace(d[0]) && !IsSpace(d[|d| - 1]);
    StripNoEdgeSpace(d);
    StripEmptyIffBlank(d);
    assert d[0] != '-' && d[0] != '+';
  }

  /** Cleaning removes the label and the thousands comma and nothing else. */
  lemma CleanThousands(high: string, low: string)
    requires high != [] && AllDigits(high) && AllDigits(low)
    ensures CleanAttendance("Attendance:" + high + "," + low) == Strip(high + low)
  {
    var number := high + "," + low;
    assert "Attendance:" + high + "," + low == "Attendance:" + number;
    RemoveLeading("Attendance:", number);
    DigitsAndCommas(high, low);
    RemoveAbsent(number, "Attendance:");
    RemoveAbsent(number, "\U{A0}");
    RemoveComma(high, low);
  }

  lemma DigitsAndCommas(high: string, low: string)
    requires AllDigits(high) && AllDigits(low)
    ensures 'A' !in high + "," + low && '\U{A0}' !in high + "," + low
  {
    var number := high + "," + low;
    forall k | 0 <= k < |number| ensures number[k] == ',' || IsDigit(number[k]) {
      if k < |high| { assert number[k] == high[k]; }
      else if k > |high| { assert number[k] == low[k - |high| - 1]; }
    }
  }

  lemma RemoveComma(high: string, low: string)
    requires AllDigits(high) && AllDigits(low)
    ensures RemoveAll(high + "," + low, ",") == high + low
  {
    assert high + "," + low == high + ([','] + low);
    RemoveCharAppend(high, [','] + low, ',');
    RemoveCharAppend([','], low, ',');
    assert ',' !in high && ',' !in low;
    RemoveAbsent(high, ",");
    RemoveAbsent(low, ",");
    assert RemoveAll([','], ",") == [] by {
      assert StartsWith([','], ",");
      assert [','][1..] == [];
    }
  }

  // ----------------------------------------------------------- page address

  const BoxScoreBase: string := "https://www.basketball-reference.com/boxscores/"

  /** game_date[:10] */
  function GameDay(gameDate: string): (r: string)
    ensures |r| == if |gameDate| < 10 then |gameDate| else 10
    ensures StartsWith(gameDate, r)
  {
    if |gameDate| < 10 then gameDate else gameDate[..10]
  }

  /** The box-score page of a game: the date as YYYYMMDD, a "0", and the
      home team's site code; a date that does not parse with ASCII digits
      raises ValueError. */
  function BoxScoreUrl(homeAbbrev: string, gameDate: string): (r: Result<string>)
    ensures r.Raised? <==> ParseIsoDate(GameDay(gameDate)).None?
    ensures r.Raised? ==> r.error == ValueError
    ensures r.Ok? ==> StartsWith(r.value, BoxScoreBase)
  {
    match ParseIsoDate(GameDay(gameDate))
    case None => Raised(ValueError)
    case Some(d) => Ok(BoxScoreBase + CompactFormat(d) + "0" + ToBref(homeAbbrev) + ".html")
  }

  /** For a zero-padded timestamp such as "2024-10-22T23:30:00Z" the key is
      its first ten characters without the dashes. */
  lemma BoxScoreUrlOfTimestamp(homeAbbrev: string, gameDate: string)
    requires |gameDate| >= 10 && gameDate[4] == '-' && gameDate[7] == '-' && gameDate[0] != '0'
    requires AllDigits(gameDate[..4]) && AllDigits(gameDate[5..7]) && AllDigits(gameDate[8..10])
    requires ParseIsoDate(gameDate[..10]).Some?
    ensures BoxScoreUrl(homeAbbrev, gameDate) ==
              Ok(BoxScoreBase + gameDate[..4] + gameDate[5..7] + gameDate[8..10] + "0" + ToBref(homeAbbrev) + ".html")
  {
    var day := gameDate[..10];
    assert GameDay(gameDate) == day;
    assert day[..4] == gameDate[..4] && day[5..7] == gameDate[5..7] && day[8..] == gameDate[8..10];
    CompactOfIsoText(day);
    var comp := CompactFormat(ParseIsoDate(day).value);
    assert comp == gameDate[..4] + gameDate[5..7] + gameDate[8..10];
    assert BoxScoreBase + comp == BoxScoreBase + gameDate[..4] + gameDate[5..7] + gameDate[8..10];
    assert BoxScoreUrl(homeAbbrev, gameDate) == Ok(BoxScoreBase + comp + "0" + ToBref(homeAbbrev) + ".html");
  }
}
