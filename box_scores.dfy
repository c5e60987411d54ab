/** The pure assembly inside scrape_game: basic and advanced rows of both
    teams merged into box_scores records, and the games-table update built
    from the line score, playoff round, arena and attendance. */
module BoxScores {
  import opened Text
  import opened Numbers
  import opened Html
  import opened Abbrev
  import opened BoxTable
  import opened GamePage

  /** A team as the games query returns it: its id and its abbreviation. */
  datatype Team = Team(id: string, abbreviation: string)

  datatype BasicStats = BasicStats(
    points: Option<int>, rebounds: Option<int>,
    offensiveRebounds: Option<int>, defensiveRebounds: Option<int>,
    assists: Option<int>, steals: Option<int>, blocks: Option<int>, turnovers: Option<int>,
    fgm: Option<int>, fga: Option<int>, fgPct: RawFloat,
    tpm: Option<int>, tpa: Option<int>, tpPct: RawFloat,
    ftm: Option<int>, fta: Option<int>, ftPct: RawFloat,
    personalFouls: Option<int>, plusMinus: Option<int>)

  datatype AdvancedStats = AdvancedStats(
    tsPct: RawFloat, efgPct: RawFloat, threePar: RawFloat, ftRate: RawFloat,
    orbPct: RawFloat, drbPct: RawFloat, trbPct: RawFloat, astPct: RawFloat,
    stlPct: RawFloat, blkPct: RawFloat, tovPct: RawFloat, usgPct: RawFloat,
    offensiveRating: Option<int>, defensiveRating: Option<int>, bpm: RawFloat)

  /** One row of the box_scores table. */
  datatype BoxScoreRecord = BoxScoreRecord(
    gameId: string, teamId: string, playerName: string, minutes: Option<string>,
    basic: BasicStats, advanced: AdvancedStats, starter: bool)

  /** row.get(key) */
  function Get(fields: map<string, string>, key: string): (r: Option<string>)
    ensures r.Some? <==> key in fields
    ensures r.Some? ==> r.value == fields[key]
  {
    if key in fields then Some(fields[key]) else None
  }

  /** row.get("mp") or None: a missing or empty minutes text is absent. */
  function Minutes(fields: map<string, string>): (r: Option<string>)
    ensures r.None? <==> "mp" !in fields || fields["mp"] == ""
    ensures r.Some? ==> r.value == fields["mp"]
  {
    if "mp" in fields && fields["mp"] != "" then Some(fields["mp"]) else None
  }

  function BasicOf(f: map<string, string>): BasicStats {
    BasicStats(
      SafeInt(Get(f, "pts")), SafeInt(Get(f, "trb")),
      SafeInt(Get(f, "orb")), SafeInt(Get(f, "drb")),
      SafeInt(Get(f, "ast")), SafeInt(Get(f, "stl")), SafeInt(Get(f, "blk")), SafeInt(Get(f, "tov")),
      SafeInt(Get(f, "fg")), SafeInt(Get(f, "fga")), Get(f, "fg_pct"),
      SafeInt(Get(f, "fg3")), SafeInt(Get(f, "fg3a")), Get(f, "fg3_pct"),
      SafeInt(Get(f, "ft")), SafeInt(Get(f, "fta")), Get(f, "ft_pct"),
      SafeInt(Get(f, "pf")), SafeInt(Get(f, "plus_minus")))
  }

  function AdvancedOf(f: map<string, string>): AdvancedStats {
    AdvancedStats(
      Get(f, "ts_pct"), Get(f, "efg_pct"), Get(f, "fg3a_per_fga_pct"), Get(f, "fta_per_fga_pct"),
      Get(f, "orb_pct"), Get(f, "drb_pct"), Get(f, "trb_pct"), Get(f, "ast_pct"),
      Get(f, "stl_pct"), Get(f, "blk_pct"), Get(f, "tov_pct"), Get(f, "usg_pct"),
      SafeInt(Get(f, "off_rtg")), SafeInt(Get(f, "def_rtg")), Get(f, "bpm"))
  }

  /** A player without an advanced row gets every advanced field absent. */
  lemma AdvancedOfNothing()
    ensures AdvancedOf(map[]) ==
              AdvancedStats(None, None, None, None, None, None, None, None,
                            None, None, None, None, None, None, None)
  {
  }

  // ---------------------------------------------------------- advanced lookup

  /** adv_lookup: every advanced row with a non-empty player name, keyed by
      that name, a later row replacing an earlier one. */
  function AdvLookup(rows: seq<BoxRow>): map<string, map<string, string>> {
    if rows == [] then map[]
    else
      var m := AdvLookup(rows[..|rows| - 1]);
      var last := rows[|rows| - 1];
      var name := PlayerOf(last.fields);
      if name != "" then m[name := last.fields] else m
  }

  /** The keys are exactly the non-empty names of the advanced rows. */
  lemma {:induction false} AdvLookupKeys(rows: seq<BoxRow>)
    ensures forall name :: name in AdvLookup(rows) <==>
              name != "" && exists k :: 0 <= k < |rows| && PlayerOf(rows[k].fields) == name
  {
    if rows != [] {
      var init := rows[..|rows| - 1];
      AdvLookupKeys(init);
      forall name | name != "" && exists k :: 0 <= k < |rows| && PlayerOf(rows[k].fields) == name
        ensures name in AdvLookup(rows)
      {
        var k :| 0 <= k < |rows| && PlayerOf(rows[k].fields) == name;
        if k < |rows| - 1 {
          assert init[k] == rows[k];
        }
      }
      forall name | name in AdvLookup(rows)
        ensures exists k :: 0 <= k < |rows| && PlayerOf(rows[k].fields) == name
      {
        if name in AdvLookup(init) {
          var k :| 0 <= k < |init| && PlayerOf(init[k].fields) == name;
          assert rows[k] == init[k];
        } else {
          assert PlayerOf(rows[|rows| - 1].fields) == name;
        }
      }
    }
  }

  /** For a name, the lookup holds the fields of the last advanced row with
      that name. */
  lemma {:induction false} AdvLookupLastWins(rows: seq<BoxRow>, name: string, k: nat)
    requires k < |rows| && PlayerOf(rows[k].fields) == name && name != ""
    requires forall j :: k < j < |rows| ==> PlayerOf(rows[j].fields) != name
    ensures name in AdvLookup(rows) && AdvLookup(rows)[name] == rows[k].fields
  {
    var n := |rows| - 1;
    if k < n {
      var init := rows[..n];
      assert init[k] == rows[k];
      AdvLookupLastWins(init, name, k);
    }
  }

  /** The advanced_lookup loop. */
  method BuildAdvLookup(rows: seq<BoxRow>) returns (lookup: map<string, map<string, string>>)
    ensures lookup == AdvLookup(rows)
  {
    lookup := map[];
    for i := 0 to |rows|
      invariant lookup == AdvLookup(rows[..i])
    {
      assert rows[..i + 1][..i] == rows[..i];
      var name := PlayerOf(rows[i].fields);
      if name != "" {
        lookup := lookup[name := rows[i].fields];
      }
    }
    assert rows[..|rows|] == rows;
  }

  // ------------------------------------------------------------- team records

  /** adv_lookup.get(name, {}) */
  function AdvancedFields(lookup: map<string, map<string, string>>, name: string): map<string, string> {
    if name in lookup then lookup[name] else map[]
  }

  /** The record of a named basic row: its name, minutes and basic stats,
      the advanced stats stored under its name, and its starter flag. */
  function RecordFor(gameId: string, teamId: string, row: BoxRow,
                     lookup: map<string, map<string, string>>): BoxScoreRecord {
    var name := PlayerOf(row.fields);
    BoxScoreRecord(gameId, teamId, name, Minutes(row.fields), BasicOf(row.fields),
                   AdvancedOf(AdvancedFields(lookup, name)), row.starter)
  }

  /** The records of a team's basic rows, in order; a row without a player
      name gives none. */
  function TeamRecords(gameId: string, teamId: string, basic: seq<BoxRow>,
                       lookup: map<string, map<string, string>>): (out: seq<BoxScoreRecord>)
    ensures |out| <= |basic|
  {
    NamedRecords(basic, row => RecordFor(gameId, teamId, row, lookup))
  }

  /** `record` applied to the rows with a player name, in order. */
  function NamedRecords(rows: seq<BoxRow>, record: BoxRow -> BoxScoreRecord): (out: seq<BoxScoreRecord>)
    ensures |out| <= |rows|
  {
    if rows == [] then []
    else
      var row := rows[|rows| - 1];
      NamedRecords(rows[..|rows| - 1], record) + (if PlayerOf(row.fields) == "" then [] else [record(row)])
  }

  /** With every row named, every row gives its own record at its own
      position. */
  lemma {:induction false} NamedRecordsAt(rows: seq<BoxRow>, record: BoxRow -> BoxScoreRecord)
    requires forall j :: 0 <= j < |rows| ==> PlayerOf(rows[j].fields) != ""
    ensures |NamedRecords(rows, record)| == |rows|
    ensures forall k :: 0 <= k < |rows| ==> NamedRecords(rows, record)[k] == record(rows[k])
  {
    if rows != [] {
      var init := rows[..|rows| - 1];
      NamedRecordsAt(init, record);
      assert forall k :: 0 <= k < |init| ==> init[k] == rows[k];
    }
  }

  /** With every basic row named, as parse_box_score_table guarantees, the
      k-th record is the record of the k-th row. */
  lemma TeamRecordsAt(gameId: string, teamId: string, basic: seq<BoxRow>,
                      lookup: map<string, map<string, string>>)
    requires forall j :: 0 <= j < |basic| ==> PlayerOf(basic[j].fields) != ""
    ensures |TeamRecords(gameId, teamId, basic, lookup)| == |basic|
    ensures forall k :: 0 <= k < |basic| ==>
              TeamRecords(gameId, teamId, basic, lookup)[k] == RecordFor(gameId, teamId, basic[k], lookup)
  {
    NamedRecordsAt(basic, row => RecordFor(gameId, teamId, row, lookup));
  }

  /** A basic row's advanced stats are those of the last advanced row with
      the same player name. */
  lemma AdvancedFromLastNamed(gameId: string, teamId: string, row: BoxRow, adv: seq<BoxRow>, k: nat)
    requires k < |adv| && PlayerOf(adv[k].fields) == PlayerOf(row.fields) != ""
    requires forall j :: k < j < |adv| ==> PlayerOf(adv[j].fields) != PlayerOf(row.fields)
    ensures RecordFor(gameId, teamId, row, AdvLookup(adv)).advanced == AdvancedOf(adv[k].fields)
  {
    AdvLookupLastWins(adv, PlayerOf(row.fields), k);
  }

  /** A basic row whose name has no advanced row gets every advanced field
      absent. */
  lemma AdvancedAbsent(gameId: string, teamId: string, row: BoxRow, adv: seq<BoxRow>)
    requires forall j :: 0 <= j < |adv| ==> PlayerOf(adv[j].fields) != PlayerOf(row.fields)
    ensures RecordFor(gameId, teamId, row, AdvLookup(adv)).advanced ==
              AdvancedStats(None, None, None, None, None, None, None, None,
                            None, None, None, None, None, None, None)
  {
    AdvLookupKeys(adv);
    AdvancedOfNothing();
  }

  /** The loop over a team's basic rows. */
  method CollectTeamRecords(gameId: string, teamId: string, basic: seq<BoxRow>,
                            lookup: map<string, map<string, string>>) returns (out: seq<BoxScoreRecord>)
    ensures out == TeamRecords(gameId, teamId, basic, lookup)
  {
    out := [];
    for i := 0 to |basic|
      invariant out == TeamRecords(gameId, teamId, basic[..i], lookup)
    {
      assert basic[..i + 1][..i] == basic[..i];
      var row := basic[i];
      var name := PlayerOf(row.fields);
      if name != "" {
        var adv := AdvancedFields(lookup, name);
        var record := BoxScoreRecord(gameId, teamId, name, Minutes(row.fields), BasicOf(row.fields),
                                     AdvancedOf(adv), row.starter);
        assert record == RecordFor(gameId, teamId, row, lookup);
        out := out + [record];
      }
    }
    assert basic[..|basic|] == basic;
  }

  function BasicTableId(bref: string): string {
    "box-" + bref + "-game-basic"
  }

  function AdvancedTableId(bref: string): string {
    "box-" + bref + "-game-advanced"
  }

  /** One team's share: both tables are parsed (an error in either is
      raised, the basic table's first); a team without basic rows adds
      nothing. */
  function TeamPart(doc: Document, gameId: string, team: Team): (r: Result<seq<BoxScoreRecord>>)
    ensures var bref := ToBref(team.abbreviation);
            && (r.Raised? <==> BoxScoreTable(doc, BasicTableId(bref)).Raised?
                               || BoxScoreTable(doc, AdvancedTableId(bref)).Raised?)
            && (BoxScoreTable(doc, BasicTableId(bref)).Raised? ==> r == Raised(BoxScoreTable(doc, BasicTableId(bref)).error))
            && (BoxScoreTable(doc, BasicTableId(bref)) == Ok([]) && r.Ok? ==> r.value == [])
            && (r.Ok? ==> |r.value| <= |BoxScoreTable(doc, BasicTableId(bref)).value|)
  {
    var bref := ToBref(team.abbreviation);
    match BoxScoreTable(doc, BasicTableId(bref))
    case Raised(e) => Raised(e)
    case Ok(basic) =>
      match BoxScoreTable(doc, AdvancedTableId(bref))
      case Raised(e) => Raised(e)
      case Ok(adv) =>
        if basic == [] then Ok([])
        else Ok(TeamRecords(gameId, team.id, basic, AdvLookup(adv)))
  }

  /** Error-propagating concatenation. */
  function Then(first: seq<BoxScoreRecord>, rest: Result<seq<BoxScoreRecord>>): Result<seq<BoxScoreRecord>> {
    match rest
    case Raised(e) => Raised(e)
    case Ok(more) => Ok(first + more)
  }

  /** The records of the teams in order; the first error stops the scrape. */
  function TeamsRecords(doc: Document, gameId: string, teams: seq<Team>): Result<seq<BoxScoreRecord>> {
    if teams == [] then Ok([])
    else
      match TeamPart(doc, gameId, teams[0])
      case Raised(e) => Raised(e)
      case Ok(part) => Then(part, TeamsRecords(doc, gameId, teams[1..]))
  }

  /** box_rows of a game: the away team's records, then the home team's. */
  function GameRecords(doc: Document, gameId: string, away: Team, home: Team): Result<seq<BoxScoreRecord>> {
    TeamsRecords(doc, gameId, [away, home])
  }

  /** Away records come first, then home records; an error in the away
      tables is raised before the home tables matter. */
  lemma AwayBeforeHome(doc: Document, gameId: string, away: Team, home: Team)
    ensures TeamPart(doc, gameId, away).Raised? ==>
              GameRecords(doc, gameId, away, home) == TeamPart(doc, gameId, away)
    ensures TeamPart(doc, gameId, away).Ok? && TeamPart(doc, gameId, home).Raised? ==>
              GameRecords(doc, gameId, away, home) == TeamPart(doc, gameId, home)
    ensures TeamPart(doc, gameId, away).Ok? && TeamPart(doc, gameId, home).Ok? ==>
              GameRecords(doc, gameId, away, home) ==
                Ok(TeamPart(doc, gameId, away).value + TeamPart(doc, gameId, home).value)
  {
    var h := TeamPart(doc, gameId, home);
    assert [away, home][1..] == [home];
    assert [home][1..] == [];
    assert TeamsRecords(doc, gameId, []) == Ok([]);
    if h.Ok? {
      assert h.value + [] == h.value;
      assert TeamsRecords(doc, gameId, [home]) == h;
    } else {
      assert TeamsRecords(doc, gameId, [home]) == Raised(h.error);
    }
  }

  /** One team's tables, as the loop body computes them. */
  method ScrapeTeam(doc: Document, gameId: string, team: Team) returns (r: Result<seq<BoxScoreRecord>>)
    ensures r == TeamPart(doc, gameId, team)
  {
    var bref := ToBref(team.abbreviation);
    var basicRows := ParseBoxScoreTable(doc, BasicTableId(bref));
    if basicRows.Raised? {
      return Raised(basicRows.error);
    }
    var advRows := ParseBoxScoreTable(doc, AdvancedTableId(bref));
    if advRows.Raised? {
      return Raised(advRows.error);
    }
    if basicRows.value == [] {
      return Ok([]);
    }
    var lookup := BuildAdvLookup(advRows.value);
    var records := CollectTeamRecords(gameId, team.id, basicRows.value, lookup);
    return Ok(records);
  }

  /** The loop over (away, home) that appends to box_rows. */
  method ScrapeGameRecords(doc: Document, gameId: string, away: Team, home: Team)
    returns (r: Result<seq<BoxScoreRecord>>)
    ensures r == GameRecords(doc, gameId, away, home)
  {
    var teams := [away, home];
    var boxRows: seq<BoxScoreRecord> := [];
    assert teams[0..] == teams;
    ThenNothing(TeamsRecords(doc, gameId, teams));
    for j := 0 to |teams|
      invariant TeamsRecords(doc, gameId, teams) == Then(boxRows, TeamsRecords(doc, gameId, teams[j..]))
    {
      assert teams[j..][1..] == teams[j + 1..];
      var part := ScrapeTeam(doc, gameId, teams[j]);
      if part.Raised? {
        return Raised(part.error);
      }
      ThenAssoc(boxRows, part.value, TeamsRecords(doc, gameId, teams[j + 1..]));
      boxRows := boxRows + part.value;
    }
    assert teams[|teams|..] == [];
    assert boxRows + [] == boxRows;
    return Ok(boxRows);
  }

  lemma ThenNothing(rest: Result<seq<BoxScoreRecord>>)
    ensures Then([], rest) == rest
  {
    if rest.Ok? {
      assert [] + rest.value == rest.value;
    }
  }

  lemma ThenAssoc(a: seq<BoxScoreRecord>, b: seq<BoxScoreRecord>, rest: Result<seq<BoxScoreRecord>>)
    ensures Then(a, Then(b, rest)) == Then(a + b, rest)
  {
    if rest.Ok? {
      assert a + (b + rest.value) == (a + b) + rest.value;
    }
  }

  // -------------------------------------------------------------- game update

  /** A value written to a games column. */
  datatype UpdateValue = IntValue(int) | TextValue(string)

  /** {k: v for k, v in quarter_data.items() if v is not None} */
  function PresentValues(q: Option<map<GameColumn, Option<int>>>): (m: map<GameColumn, UpdateValue>)
    ensures forall c :: c in m <==> q.Some? && c in q.value && q.value[c].Some?
    ensures forall c :: c in m ==> m[c] == IntValue(q.value[c].value)
  {
    if q.None? then map[]
    else map c | c in q.value && q.value[c].Some? :: IntValue(q.value[c].value)
  }

  /** update_data: the present line-score values, the playoff round when
      one is named, the arena when non-empty and the attendance when
      non-zero; nothing else. */
  function GameUpdate(q: Option<map<GameColumn, Option<int>>>, round: Option<PlayoffRound>,
                      arena: Option<string>, attendance: Option<int>): (u: map<GameColumn, UpdateValue>)
    requires q.Some? ==> forall c :: c in q.value ==> IsLineScoreColumn(c)
    ensures forall c :: IsLineScoreColumn(c) ==>
              (c in u <==> q.Some? && c in q.value && q.value[c].Some?)
    ensures forall c :: IsLineScoreColumn(c) && c in u ==> u[c] == IntValue(q.value[c].value)
    ensures PlayoffRoundColumn in u <==> round.Some?
    ensures round.Some? ==> u[PlayoffRoundColumn] == TextValue(RoundName(round.value))
    ensures ArenaColumn in u <==> arena.Some? && arena.value != ""
    ensures ArenaColumn in u ==> u[ArenaColumn] == TextValue(arena.value)
    ensures AttendanceColumn in u <==> attendance.Some? && attendance.value != 0
    ensures AttendanceColumn in u ==> u[AttendanceColumn] == IntValue(attendance.value)
    ensures forall c :: c in u ==>
              IsLineScoreColumn(c) || c == PlayoffRoundColumn || c == ArenaColumn || c == AttendanceColumn
  {
    var m := PresentValues(q);
    var withRound := if round.Some? then m[PlayoffRoundColumn := TextValue(RoundName(round.value))] else m;
    var withArena := if arena.Some? && arena.value != "" then withRound[ArenaColumn := TextValue(arena.value)]
                     else withRound;
    if attendance.Some? && attendance.value != 0 then withArena[AttendanceColumn := IntValue(attendance.value)]
    else withArena
  }

  /** The update scrape_game sends for a page. */
  method BuildGameUpdate(doc: Document) returns (update: map<GameColumn, UpdateValue>)
    ensures LineScore(doc).Some? ==> forall c :: c in LineScore(doc).value ==> IsLineScoreColumn(c)
    ensures update == GameUpdate(LineScore(doc), PlayoffRoundOf(doc.title),
                                 ParseArena(doc.scoreboxDivs), ParseAttendance(doc.attendanceText))
  {
    var quarterData := ParseQuarterScores(doc);
    LineScoreEntries(doc);
    var arena := ParseArena(doc.scoreboxDivs);
    var attendance := ParseAttendance(doc.attendanceText);
    var playoffRound := PlayoffRoundOf(doc.title);
    update := Stage(quarterData, playoffRound, arena, attendance);
  }

  /** The three conditional assignments after update_data.update(...). */
  method Stage(quarterData: Option<map<GameColumn, Option<int>>>, playoffRound: Option<PlayoffRound>,
               arena: Option<string>, attendance: Option<int>) returns (update: map<GameColumn, UpdateValue>)
    requires quarterData.Some? ==> forall c :: c in quarterData.value ==> IsLineScoreColumn(c)
    ensures update == GameUpdate(quarterData, playoffRound, arena, attendance)
  {
    update := PresentValues(quarterData);
    if playoffRound.Some? {
      update := update[PlayoffRoundColumn := TextValue(RoundName(playoffRound.value))];
    }
    if arena.Some? && arena.value != "" {
      update := update[ArenaColumn := TextValue(arena.value)];
    }
    if attendance.Some? && attendance.value != 0 {
      update := update[AttendanceColumn := IntValue(attendance.value)];
    }
  }

  // -------------------------------------------------------------- one game

  /** What one call of scrape_game leads to: the page could not be fetched,
      no box-score row was parsed, or the rows to upsert and the update to
      send. */
  datatype GameScrape =
    | FetchFailed
    | NoRows
    | Scraped(rows: seq<BoxScoreRecord>, update: map<GameColumn, UpdateValue>)

  /** scrape_game for the game played on `gameDate` with `home` at home:
      the date is parsed before the page is requested (a malformed date
      raises ValueError), and `page` is what the request returned (None for
      a failed fetch). The upserts themselves are not modelled, so the
      update is the one sent after a successful box-score upsert; an empty
      update is not sent. */
  function ScrapeGame(gameDate: string, page: Option<Document>, gameId: string, away: Team, home: Team)
    : (r: Result<GameScrape>)
    ensures BoxScoreUrl(home.abbreviation, gameDate).Raised? ==> r == Raised(ValueError)
    ensures BoxScoreUrl(home.abbreviation, gameDate).Ok? && page.None? ==> r == Ok(FetchFailed)
    ensures BoxScoreUrl(home.abbreviation, gameDate).Ok? && page.Some? ==>
              (r.Raised? <==> GameRecords(page.value, gameId, away, home).Raised?)
    ensures page.Some? && r.Ok? ==>
              (r.value == NoRows <==> GameRecords(page.value, gameId, away, home).value == [])
    ensures r.Ok? && r.value.Scraped? ==>
              page.Some? && r.value.rows != [] && r.value.rows == GameRecords(page.value, gameId, away, home).value
    ensures r.Ok? && r.value.Scraped? ==>
              LineScore(page.value).Some? ==> forall c :: c in LineScore(page.value).value ==> IsLineScoreColumn(c)
    ensures r.Ok? && r.value.Scraped? ==>
              r.value.update == GameUpdate(LineScore(page.value), PlayoffRoundOf(page.value.title),
                                           ParseArena(page.value.scoreboxDivs), ParseAttendance(page.value.attendanceText))
  {
    match BoxScoreUrl(home.abbreviation, gameDate)
    case Raised(e) => Raised(e)
    case Ok(_) =>
      match page
      case None => Ok(FetchFailed)
      case Some(doc) =>
        match GameRecords(doc, gameId, away, home)
        case Raised(e) => Raised(e)
        case Ok(rows) =>
          if rows == [] then Ok(NoRows)
          else
            LineScoreEntries(doc);
            Ok(Scraped(rows, GameUpdate(LineScore(doc), PlayoffRoundOf(doc.title),
                                        ParseArena(doc.scoreboxDivs), ParseAttendance(doc.attendanceText))))
  }
}
