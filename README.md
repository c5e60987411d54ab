# Basketball-reference scrapers: the parsing and normalisation core

This project models the deterministic part of two batch scrapers. The scrapers
read public basketball-reference pages and turn them into rows for a
hosted database:

- `scripts/scrape_box_scores.py` reads a game's box-score page. It parses the
  basic and advanced player tables of both teams, merges them by player name
  into `box_scores` rows, and builds the update for the `games` row. That
  update holds the line score (q1–q4 and a summed overtime), the playoff
  round taken from the page title, the arena and the attendance.
- `scripts/scrape_players.py` reads team roster pages. It turns each roster
  row into a player record, derives a numeric provider id from the player's
  slug with Adler-32, and assembles the `players` upsert rows with an
  optional headshot address. It also picks the per-game averages row of one
  season from a player page.

The HTML document is replaced by plain datatypes (`Html`): a table is its
header rows and body rows; a row is a separator flag and its cells; a cell is
its tag, its `data-stat`, its stripped text and its first link. A
BeautifulSoup tag is always true, so every `if tag:` of the scripts is a test
of presence, and an optional element is modelled as present or absent. Every
loop that
the scripts run by mutation is a method proved equal to a function on these
values. What the scripts promise is stated as lemmas about those functions.

Modules, one per component:

| file | module | models |
|---|---|---|
| text.dfy | `Text` | `strip`, ASCII `lower`, `in`, `startswith`, `replace(p, "")`, `split(sep, 1)`; Option and Result |
| numbers.dfy | `Numbers` | `str(int)`, the decimal-integer subset of `safe_int` |
| calendar.dfy | `Calendar` | dates, `strftime("%Y-%m-%d")`, `strftime("%Y%m%d")`, `strptime(s, "%Y-%m-%d")` |
| html.dfy | `Html` | the page as data; `find` by id, by `data-stat`, dict comprehensions over cells |
| abbrev.dfy | `Abbrev` | `to_bref` |
| box_table.dfy | `BoxTable` | `parse_box_score_table` |
| game_page.dfy | `GamePage` | `parse_quarter_scores`, `parse_playoff_round`, `parse_arena_attendance`, the box-score URL |
| box_scores.dfy | `BoxScores` | the row merge and update map of `scrape_game` |
| adler32.dfy | `Adler32` | `slug_to_provider_id` (Adler-32, sections 2.2 and 9 of RFC 1950) |
| player_fields.dfy | `PlayerFields` | `parse_height`, `parse_birth_date` |
| roster.dfy | `Roster` | `parse_roster` |
| averages.dfy | `Averages` | `parse_season_averages` |
| players.dfy | `Players` | roster and player URLs, `all_players`, the name map, the upsert rows of `scrape_rosters` |

The season convention follows the code. `parse_season_averages` labels the
season `season-(season+1)[-2:]`, so 2025 is "2025-26". `fetch_roster_page`
fetches the page of year `season + 1`. The doc-comments say that 2025 means
the 2024-25 season; the model does not follow them (`Averages.SeasonLabel2025`,
`Players.RosterUrl2025`).

## Model

| member | source | states |
|---|---|---|
| Abbrev.ToBref | scripts/scrape_players.py:33-44 | PHX becomes PHO, BKN becomes BRK, CHA becomes CHO; every other code is unchanged |
| Abbrev.ToBrefIdempotent | scripts/scrape_box_scores.py:29-37 | translating a code twice gives the same as translating it once |
| Abbrev.ToBrefChanges | scripts/scrape_box_scores.py:29-37 | a code is changed exactly when it is one of the three exceptions |
| Numbers.SafeInt | scripts/scrape_box_scores.py:40-46 | None, empty and whitespace-only text are absent; any integer returned has magnitude below 2^53 |
| Numbers.SafeIntOfDecimal | scripts/scrape_box_scores.py:40-46 | the decimal text of any integer of magnitude below 2^53, with whitespace around it, reads back as that integer |
| Numbers.SafeIntOfSignedDigits | scripts/scrape_box_scores.py:40-46 | an optional "+" or "-" and any digits (leading zeros allowed) below 2^53, with whitespace around them, read back as the signed value: "+12" is 12 |
| Numbers.SafeIntRejectsPunctuation | scripts/scrape_box_scores.py:43-46 | text containing punctuation that `float()` rejects (a comma, a colon, …) is absent |
| Html.FindTable | scripts/scrape_box_scores.py:114 | the table found is the FIRST of the page's tables with the id; none is found exactly when no table has the id |
| Html.BodyRows | scripts/scrape_box_scores.py:114-129 | body rows exist exactly when the table exists and has a tbody, and they are that tbody's rows |
| Html.CellByStat | scripts/scrape_players.py:135-139 | the `{data-stat: cell}` entry for a key is the LAST cell with that data-stat, as a dict built in order keeps the last write; absent exactly when no cell has it |
| Html.FindCell | scripts/scrape_box_scores.py:149 | the cell found is the FIRST cell with the tag and data-stat asked for; none is found exactly when no cell matches |
| BoxTable.ReadColumns | scripts/scrape_box_scores.py:119-124 | the loop yields the labels (data-stat, else text) of the `th` cells of the last header row, in order |
| BoxTable.LabelRow | scripts/scrape_box_scores.py:143-146 | the loop yields the labelled-cell dict of the specification function |
| BoxTable.LabelCellsKeys | scripts/scrape_box_scores.py:143-146 | the dict's keys are exactly the labels of positions below both the cell count and the header count: extra cells are dropped |
| BoxTable.LabelCellsAt | scripts/scrape_box_scores.py:143-146 | the i-th cell's text is stored under the i-th label unless a later cell reuses that label |
| BoxTable.RowRecord | scripts/scrape_box_scores.py:139-160 | a non-separator row gives no record when it has no cells, has any `td` with data-stat "reason" (empty or not), or has a missing, empty or "totals"/"team totals" player label; otherwise one record with the flag |
| BoxTable.RowsAfterSeparator | scripts/scrape_box_scores.py:131-137 | once a separator has been seen every later record is a reserve: the flag never resets |
| BoxTable.RowsSplitAtFirstSeparator | scripts/scrape_box_scores.py:131-160 | the output is the records of the rows before the first separator, flagged starters, followed by the records of the rows after it, flagged reserves |
| BoxTable.StartersPrecedeReserves | scripts/scrape_box_scores.py:131-160 | no more records than body rows; every record names a real player; a record is a starter exactly when it comes before the first reserve |
| BoxTable.BoxScoreTableRows | scripts/scrape_box_scores.py:112-162 | every record the table parse returns has a non-empty player name that is not a totals label |
| BoxTable.CollectRows | scripts/scrape_box_scores.py:131-160 | the body loop with the `seen_reserves` flag returns the fold over the rows |
| BoxTable.CollectStep | scripts/scrape_box_scores.py:133-160 | one pass of the body loop keeps the invariant: a separator sets the flag and adds nothing, any other row adds its own record |
| BoxTable.ParseBoxScoreTable | scripts/scrape_box_scores.py:112-162 | a missing table gives no rows; a table without a thead raises AttributeError; an empty thead raises IndexError; then a missing tbody gives no rows; otherwise the rows of the fold |
| GamePage.ScoreRow | scripts/scrape_box_scores.py:179-181 | one `safe_int` value per `td` cell of the row, in order |
| GamePage.OvertimeValue | scripts/scrape_box_scores.py:190-196 | overtime is present only for rows of more than five cells with a positive sum of the present cells 4..len-2, and then it is that sum |
| GamePage.PresentSumAbsent | scripts/scrape_box_scores.py:193 | overtime cells that are all absent add up to 0 |
| GamePage.PresentSumAppend | scripts/scrape_box_scores.py:193 | the overtime sum of two runs of cells is the sum of their sums |
| GamePage.OvertimeIgnoresTotal | scripts/scrape_box_scores.py:192 | the last cell (the total) never affects the overtime |
| GamePage.OvertimeSinglePeriod | scripts/scrape_box_scores.py:191-196 | with six cells the overtime is cell 4 when positive, absent otherwise |
| GamePage.OvertimeTwoPeriods | scripts/scrape_box_scores.py:191-194 | with seven cells the two overtime periods are added |
| GamePage.SideEntries | scripts/scrape_box_scores.py:187-196 | one side fills exactly q1–q4 and ot; quarter q is cell q-1, absent past the row's end |
| GamePage.LineScoreEntries | scripts/scrape_box_scores.py:165-198 | the result is absent exactly without a table, tbody or two rows; otherwise it has exactly the ten columns, the away side from row 0 and the home side from row 1 |
| GamePage.LineScoreColumnNamesDistinct | scripts/scrape_box_scores.py:189-196 | the ten column names away_q1 … home_ot are distinct |
| GamePage.ParseQuarterScores | scripts/scrape_box_scores.py:165-198 | the nested loop fills the same entries as the specification function |
| GamePage.FillSide | scripts/scrape_box_scores.py:187-196 | one pass of the outer loop adds one side's five entries |
| GamePage.RoundOfTitle | scripts/scrape_box_scores.py:207-215 | the first of "first round", "conference semifinals", "conference finals", "nba finals" that occurs decides the round; none gives absent (each case both ways) |
| GamePage.PlayoffRoundOf | scripts/scrape_box_scores.py:201-206 | no title gives absent |
| GamePage.PlayoffRoundIgnoresCase | scripts/scrape_box_scores.py:206 | the title's letter case does not change the round |
| GamePage.FirstRoundWins | scripts/scrape_box_scores.py:207-208 | "first round" at any position of the lowercased title gives first_round, whatever else the title says |
| GamePage.ParseArena | scripts/scrape_box_scores.py:224-230 | the arena is present exactly with two or more divs and a second div not starting with "Attendance" or "Logo"; it contains no comma |
| GamePage.ArenaOfMeta | scripts/scrape_box_scores.py:228-230 | "Name, City, State" yields "Name"; a text without a comma yields itself |
| GamePage.CleanAttendance | scripts/scrape_box_scores.py:236 | the cleaned attendance text holds no comma and no non-breaking space |
| GamePage.ParseAttendance | scripts/scrape_box_scores.py:233-237 | no "Attendance" label gives absent; any value is within the `safe_int` range |
| GamePage.AttendanceOfThousands | scripts/scrape_box_scores.py:232-237 | "Attendance:" and a number with a thousands comma read as that number ("Attendance:19,156" is 19156) |
| GamePage.BoxScoreUrl | scripts/scrape_box_scores.py:91-96 | a date that does not parse with ASCII digits raises ValueError; otherwise the address is on the box-score path |
| GamePage.BoxScoreUrlOfTimestamp | scripts/scrape_box_scores.py:93-96 | for a timestamp "YYYY-MM-DD…" the page key is `YYYYMMDD0{bref_home}.html` |
| Calendar.IsoRoundTrip | scripts/scrape_box_scores.py:93-94 | every date from year 1000 on rendered with "%Y-%m-%d" parses back to itself |
| BoxScores.Minutes | scripts/scrape_box_scores.py:290 | minutes are absent exactly when "mp" is missing or empty, and otherwise the text itself |
| BoxScores.AdvancedOfNothing | scripts/scrape_box_scores.py:284 | an empty advanced row gives every advanced field absent |
| BoxScores.AdvLookupKeys | scripts/scrape_box_scores.py:272-277 | the lookup's keys are exactly the non-empty names of the advanced rows |
| BoxScores.AdvLookupLastWins | scripts/scrape_box_scores.py:274-277 | a name maps to the fields of the last advanced row with that name |
| BoxScores.BuildAdvLookup | scripts/scrape_box_scores.py:273-277 | the lookup loop returns the specification's lookup |
| BoxScores.TeamRecordsAt | scripts/scrape_box_scores.py:279-327 | with every basic row named, the k-th record is the record of the k-th basic row |
| BoxScores.AdvancedFromLastNamed | scripts/scrape_box_scores.py:284 | a basic row's advanced fields come from the last advanced row with its name |
| BoxScores.AdvancedAbsent | scripts/scrape_box_scores.py:284 | a basic row with no advanced row of its name gets every advanced field absent |
| BoxScores.CollectTeamRecords | scripts/scrape_box_scores.py:279-327 | the loop over basic rows returns the specification's records |
| BoxScores.TeamPart | scripts/scrape_box_scores.py:264-270 | an error in either table is raised, the basic table's first; a team without basic rows contributes nothing; never more records than basic rows |
| BoxScores.AwayBeforeHome | scripts/scrape_box_scores.py:263-264 | the away team's records come first, then the home team's; the first error stops the scrape |
| BoxScores.ScrapeTeam | scripts/scrape_box_scores.py:265-327 | one pass of the team loop returns the team's share |
| BoxScores.ScrapeGameRecords | scripts/scrape_box_scores.py:262-327 | the team loop returns the records of both teams |
| BoxScores.PresentValues | scripts/scrape_box_scores.py:347-349 | exactly the present line-score values are kept, unchanged |
| BoxScores.GameUpdate | scripts/scrape_box_scores.py:345-359 | the update holds the present line-score values, the round when named, the arena when non-empty, the attendance when non-zero, and nothing else |
| BoxScores.BuildGameUpdate | scripts/scrape_box_scores.py:344-359 | the update built from a page is the update of its line score, round, arena and attendance |
| BoxScores.Stage | scripts/scrape_box_scores.py:353-359 | the three conditional assignments give the specification's update |
| BoxScores.ScrapeGame | scripts/scrape_box_scores.py:242-368 | a game date that `strptime` rejects raises ValueError before any fetch; a failed fetch writes nothing; an error in a table is raised; a game without rows writes nothing; otherwise the rows are both teams' records and the update is the one built from the line score, the title, the scorebox and the attendance |
| Adler32.Checksum | scripts/scrape_players.py:47-49 | the checksum is below 2^32, s1 in the low 16 bits and s2 in the high 16 bits |
| Adler32.UpdateAdler32 | scripts/scrape_players.py:47-49 | the running-sum loop of section 9 of RFC 1950 computes the checksum of section 2.2 |
| Adler32.ChecksumEmpty | scripts/scrape_players.py:47-49 | the empty input has checksum 1 |
| Adler32.ChecksumOfWikipedia | scripts/scrape_players.py:47-49 | the standard test string "Wikipedia" has checksum 0x11E60398 |
| Adler32.Utf8Ascii | scripts/scrape_players.py:49 | an ASCII string encodes to one byte per character, its code |
| Adler32.SlugToProviderId | scripts/scrape_players.py:47-49 | the provider id is the checksum of the slug's UTF-8 bytes and is below 2^32 |
| PlayerFields.ParseHeight | scripts/scrape_players.py:70-74 | blank text is absent; otherwise the stripped text |
| PlayerFields.ParseHeightKeeps | scripts/scrape_players.py:70-74 | a height with no whitespace at either end is kept as it is |
| PlayerFields.ParseHeightIdempotent | scripts/scrape_players.py:70-74 | normalising a height twice equals normalising it once |
| PlayerFields.BirthDate | scripts/scrape_players.py:77-90 | blank text is absent; any date read is a calendar date |
| PlayerFields.ParseBirthDate | scripts/scrape_players.py:77-90 | the result is present exactly when a date is read, and is then that date as "YYYY-MM-DD" |
| PlayerFields.BirthDateFullRoundTrip | scripts/scrape_players.py:81-83 | every date from year 1000 on written "March 14, 1988" is read back |
| PlayerFields.BirthDateAbbrevRoundTrip | scripts/scrape_players.py:86-88 | every date from year 1000 on written "Sep 5, 1990" is read back |
| PlayerFields.AbbrevNotFullParse | scripts/scrape_players.py:81-85 | the full-name format rejects every abbreviation except "May" |
| PlayerFields.BirthDateNeedsMonth | scripts/scrape_players.py:77-90 | a text whose first word is no month name is absent |
| Roster.MatchAt | scripts/scrape_players.py:154 | a match at one position captures a non-empty `[a-z0-9]+` slug |
| Roster.SearchFromLeftmost | scripts/scrape_players.py:154-156 | a slug is found exactly when the pattern matches somewhere, and it is the capture of the leftmost match |
| Roster.SlugOf | scripts/scrape_players.py:150-156 | a slug is found exactly when a link is present with a non-empty href in which the pattern matches, and it is that match's capture |
| Roster.SlugOfProfilePath | scripts/scrape_players.py:153-156 | the profile path "/players/c/curryst01.html" yields its slug back |
| Roster.NameSplit | scripts/scrape_players.py:163-165 | the first name holds no space; with a space, first + " " + last is the name; without one the last name is "" |
| Roster.HeightOf | scripts/scrape_players.py:173-174 | a present height cell gives `parse_height` of its text, which is never ""; an absent cell gives none |
| Roster.LinkedTextOf | scripts/scrape_players.py:187-195 | for a present cell, the college is the text of its link when it has one (even an empty link), else the cell's text, and an empty text is absent; an absent cell gives none |
| Roster.NonEmptyTextOf | scripts/scrape_players.py:197-200 | the country is present exactly for a present cell with non-empty text, and is that text |
| Roster.RosterRecord | scripts/scrape_players.py:141-212 | a row gives a record exactly with a player cell, a non-empty name and a slug; the slug is the one taken from the player link's href; the names are the split name; jersey number, position and weight are the cells' texts (an empty cell gives "") or none for an absent cell; height, college and country are as their helpers state and never "" |
| Roster.RosterRows | scripts/scrape_players.py:133-214 | no more records than rows, and every slug is a non-empty `[a-z0-9]+` text |
| Roster.RosterRowsAppend | scripts/scrape_players.py:133-212 | records keep row order: the records of two runs of rows are the first run's followed by the second's |
| Roster.RosterRowsOne | scripts/scrape_players.py:141-160 | a single row contributes its record, or nothing when it is skipped |
| Roster.RosterOfPage | scripts/scrape_players.py:125-131 | no table or no tbody gives no records |
| Roster.ParseRoster | scripts/scrape_players.py:123-214 | the row loop returns the specification's records |
| Averages.SeasonLabelDigits | scripts/scrape_players.py:330 | from season 9 on, the label is the year, a dash and (season+1) mod 100 as two digits |
| Averages.SeasonLabel2024 | scripts/scrape_players.py:330 | 2024 is labelled "2024-25" |
| Averages.SeasonLabel1999 | scripts/scrape_players.py:330 | 1999 is labelled "1999-00" |
| Averages.SeasonLabel2025 | scripts/scrape_players.py:330 | 2025 is labelled "2025-26", as the code computes |
| Averages.FirstSeasonRow | scripts/scrape_players.py:332-343 | the row found is the first whose season text is the label; none is found exactly when no row has it |
| Averages.FindSeasonRow | scripts/scrape_players.py:332-343 | the row loop with its three `continue`s stops at the first row whose season text is the label, or finds none |
| Averages.TdText | scripts/scrape_players.py:345-349 | absent exactly when no `td` cell of the row has that data-stat; otherwise the text of the last such `td` cell |
| Html.TdCellsMembers | scripts/scrape_players.py:346 | the cells kept by `row.find_all("td")` are exactly the row's `td` cells |
| Html.TdCellsAppend | scripts/scrape_players.py:346 | the `td` cells of two runs of cells are those of the first run followed by those of the second, so document order is kept |
| Averages.SeasonAveragesOf | scripts/scrape_players.py:315-365 | no table or tbody gives absent; otherwise absent exactly when no non-separator row has a season `th` reading the label |
| Averages.SeasonAveragesRow | scripts/scrape_players.py:332-363 | a found result is the values of the first matching row, which is not a separator |
| Averages.ParseSeasonAverages | scripts/scrape_players.py:315-365 | the loop with its early return gives the specification's result |
| Players.RosterUrlYear | scripts/scrape_players.py:108-112 | the roster address's year reads back as season + 1, and its last two digits end the season label |
| Players.RosterUrl2025 | scripts/scrape_players.py:111-112 | season 2025 fetches the 2026 team page |
| Players.PlayerPath | scripts/scrape_players.py:301-302 | an empty slug raises IndexError; no other slug does |
| Players.PlayerUrl | scripts/scrape_players.py:299-302 | the player address fails exactly for the empty slug |
| Players.PlayerPathOfRosterSlug | scripts/scrape_players.py:301-302 | every slug of a roster record has a player page, and a letter-initial slug's page path yields the slug back |
| Players.Tagged | scripts/scrape_players.py:245-247 | every record of a team's roster is tagged with that team, in order |
| Players.AllPlayers | scripts/scrape_players.py:232-247 | the teams' records in team order, a failed fetch adding nothing; every slug is valid |
| Players.CollectPlayers | scripts/scrape_players.py:232-247 | the team loop returns the specification's list |
| Players.AppendTagged | scripts/scrape_players.py:245-247 | the inner loop appends the tagged roster |
| Players.NameMapLastWins | scripts/scrape_players.py:256-259 | a lowercased full name maps to the id of the last entry with that name |
| Players.NameMapKeys | scripts/scrape_players.py:256-259 | every key is the lowercased full name of some entry |
| Players.BuildNameMap | scripts/scrape_players.py:255-259 | the loop returns the specification's name map |
| Players.HeadshotKeyOfName | scripts/scrape_players.py:263-264 | a name with a space is looked up as itself lowercased; a one-word name is looked up with a trailing space |
| Players.Headshot | scripts/scrape_players.py:263-269 | the headshot is present exactly when the lowercased full name maps to a non-zero id, and then it is that id's address |
| Players.UpsertRows | scripts/scrape_players.py:261-284 | one upsert row per player |
| Players.UpsertRowsShape | scripts/scrape_players.py:261-284 | each row has provider "bref", the Adler-32 of the slug's character codes (below 2^32) as id, the record's names, position, jersey number, height, weight, team, college and country, and a headshot exactly when the name map gives a non-zero id |
| Players.BuildUpsertRows | scripts/scrape_players.py:254-284 | the upsert loop returns the specification's rows |

## Left out

- Database access is not modelled: the games query, the season and team lookups, every upsert and update call, the `sys.exit` paths, and the whole of `backfill_playoff_rounds`. `scrape_game` and `scrape_rosters` are modelled up to the values they would send.
- HTTP requests and the 3.5-second sleep are not modelled. A fetched page is a parameter; `None` stands for a non-200 response.
- BeautifulSoup is not modelled. Pages are given as data whose texts are already stripped.
- The regular expression that un-comments hidden tables is not modelled; pages are given after that step.
- `safe_float` is not modelled. Every float field carries the raw text `safe_float` would round.
- Numbers.SafeInt: float-syntax text ("1.5", "1e3", "1_000", "nan", "inf", non-ASCII digits) is absent in the model. The source truncates such text to an integer, or raises OverflowError for "inf". Decimal integers of magnitude 2^53 or more are absent in the model, where the source returns a rounded integer.
- Text.Lower: only ASCII capitals are lowered. Python lowers every cased character, which matters only for non-ASCII titles, totals labels and headshot names.
- Calendar.ParseIsoDate: only ASCII digits are read. `strptime`'s `\d` also matches other Unicode decimal digits, so a game date such as "２０２４-10-22" parses in the source and yields the key "20241022". The model returns None for it, and GamePage.BoxScoreUrl raises ValueError for it.
- GamePage.BoxScoreUrl: a game date with non-ASCII digits raises ValueError in the model, through Calendar.ParseIsoDate above, where the source builds the address.
- PlayerFields.ParseBirthDate: month names, digits and case-insensitive matching are ASCII only. Python's `strptime` also accepts Unicode digits and case-folded letters.
- `datetime.now()` for the day window, `argparse`, the environment variables and the nba_api player list are not modelled. The player list is a parameter of `Players.BuildUpsertRows`.
- `scrape_averages` is not modelled: it looks players up in the database and fetches pages. `Averages.ParseSeasonAverages` and `Players.PlayerUrl` model its pure steps.
- The birth date that `parse_roster` parses is not computed in the record. It is never emitted, and `parse_birth_date` cannot raise, so it has no effect on the output.
- The team order of `scrape_rosters` (sorted abbreviations) is not modelled. `Players.AllPlayers` takes the teams in the order given.
