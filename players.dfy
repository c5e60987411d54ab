/** The pure part of scrape_rosters and the page addresses of the roster
    scraper: the parsed rosters tagged with their team, the name map used
    for headshots, and the rows upserted into the players table. */
module Players {
  import opened Text
  import opened Numbers
  import opened Html
  import opened Adler32
  import opened Roster
  import opened Averages

  // -------------------------------------------------------------- addresses

  const SiteBase: string := "https://www.basketball-reference.com"

  /** fetch_roster_page: the team page of the year after `season`. */
  function RosterUrl(brefAbbrev: string, season: int): string {
    SiteBase + "/teams/" + brefAbbrev + "/" + IntToString(season + 1) + ".html"
  }

  /** The year in a roster address reads back as season + 1, and its last
      two characters are the ones that end the season label, so the page
      fetched is the one of the season the averages look for. */
  lemma RosterUrlYear(brefAbbrev: string, season: int)
    requires -1 <= season < ExactFloatBound - 1
    ensures exists y :: RosterUrl(brefAbbrev, season) == SiteBase + "/teams/" + brefAbbrev + "/" + y + ".html"
                        && ParseDecimal(y) == Some(season + 1)
                        && SeasonLabel(season) == IntToString(season) + "-" + LastTwo(y)
  {
    var y := IntToString(season + 1);
    ParseDecimalOfIntToString(season + 1);
    assert RosterUrl(brefAbbrev, season) == SiteBase + "/teams/" + brefAbbrev + "/" + y + ".html";
  }

  /** The 2025 roster of a team is fetched from its 2026 page. */
  lemma RosterUrl2025(brefAbbrev: string)
    ensures RosterUrl(brefAbbrev, 2025) == SiteBase + "/teams/" + brefAbbrev + "/2026.html"
  {
    FourDigitYear(2026);
  }

  /** The profile path of a slug: its first character names the directory. */
  function PlayerPath(slug: string): (r: Result<string>)
    ensures r.Raised? <==> slug == []
    ensures r.Raised? ==> r.error == IndexError
  {
    if slug == [] then Raised(IndexError)
    else Ok("/players/" + [slug[0]] + "/" + slug + ".html")
  }

  /** fetch_player_page: slug[0] raises IndexError on an empty slug. */
  function PlayerUrl(slug: string): (r: Result<string>)
    ensures r.Raised? <==> slug == []
    ensures r.Ok? ==> r.value == SiteBase + PlayerPath(slug).value
  {
    match PlayerPath(slug)
    case Raised(e) => Raised(e)
    case Ok(path) => Ok(SiteBase + path)
  }

  /** Every slug parse_roster emits has a player page, and when it starts
      with a letter, the page's path holds that slug as its profile link. */
  lemma PlayerPathOfRosterSlug(slug: string)
    requires ValidSlug(slug)
    ensures PlayerUrl(slug).Ok?
    ensures 'a' <= slug[0] <= 'z' ==> SearchFrom(PlayerPath(slug).value, 0) == Some(slug)
  {
    if 'a' <= slug[0] <= 'z' {
      SlugOfProfilePath(slug[0], slug);
    }
  }

  // ---------------------------------------------------------- all players

  /** A roster record with the team it was found for. */
  datatype TaggedPlayer = TaggedPlayer(player: RosterPlayer, teamId: string)

  /** The team's id and its fetched page, None when the fetch failed. */
  datatype TeamPage = TeamPage(teamId: string, page: Option<Document>)

  /** The roster of one page, each record tagged with the team. */
  function Tagged(teamId: string, roster: seq<RosterPlayer>): (out: seq<TaggedPlayer>)
    ensures |out| == |roster|
    ensures forall k :: 0 <= k < |out| ==> out[k] == TaggedPlayer(roster[k], teamId)
  {
    seq(|roster|, k requires 0 <= k < |roster| => TaggedPlayer(roster[k], teamId))
  }

  /** all_players: the teams in order, a failed fetch contributing nothing. */
  function AllPlayers(pages: seq<TeamPage>): (out: seq<TaggedPlayer>)
    ensures forall k :: 0 <= k < |out| ==> ValidSlug(out[k].player.slug)
  {
    if pages == [] then []
    else
      var last := pages[|pages| - 1];
      var more := if last.page.None? then [] else Tagged(last.teamId, RosterOfPage(last.page.value));
      AllPlayers(pages[..|pages| - 1]) + more
  }

  /** The team loop: a fetched page's roster is parsed and appended. */
  method CollectPlayers(pages: seq<TeamPage>) returns (allPlayers: seq<TaggedPlayer>)
    ensures allPlayers == AllPlayers(pages)
  {
    allPlayers := [];
    for i := 0 to |pages|
      invariant allPlayers == AllPlayers(pages[..i])
    {
      assert pages[..i + 1][..i] == pages[..i];
      assert pages[..i + 1][i] == pages[i];
      if pages[i].page.None? {
        assert AllPlayers(pages[..i + 1]) == AllPlayers(pages[..i]) + [];
        continue;
      }
      var roster := ParseRoster(pages[i].page.value);
      assert AllPlayers(pages[..i + 1]) == AllPlayers(pages[..i]) + Tagged(pages[i].teamId, roster);
      allPlayers := AppendTagged(allPlayers, pages[i].teamId, roster);
    }
    assert pages[..|pages|] == pages;
  }

  /** The inner loop: each record gets the team id and is appended. */
  method AppendTagged(before: seq<TaggedPlayer>, teamId: string, roster: seq<RosterPlayer>)
    returns (allPlayers: seq<TaggedPlayer>)
    ensures allPlayers == before + Tagged(teamId, roster)
  {
    allPlayers := before;
    for j := 0 to |roster|
      invariant allPlayers == before + Tagged(teamId, roster[..j])
    {
      assert Tagged(teamId, roster[..j + 1]) == Tagged(teamId, roster[..j]) + [TaggedPlayer(roster[j], teamId)];
      allPlayers := allPlayers + [TaggedPlayer(roster[j], teamId)];
    }
    assert roster[..|roster|] == roster;
  }

  // ------------------------------------------------------------- headshots

  /** One entry of the nba_api player list. */
  datatype NbaPlayer = NbaPlayer(fullName: string, id: int)

  /** nba_name_map: lowercased full name to person id, a later entry
      replacing an earlier one. */
  function NameMap(nba: seq<NbaPlayer>): map<string, int> {
    if nba == [] then map[]
    else NameMap(nba[..|nba| - 1])[Lower(nba[|nba| - 1].fullName) := nba[|nba| - 1].id]
  }

  /** The keys are the lowercased full names, and a key maps to the id of
      the last entry with that lowercased name. */
  lemma {:induction false} NameMapLastWins(nba: seq<NbaPlayer>, k: nat)
    requires k < |nba|
    requires forall j :: k < j < |nba| ==> Lower(nba[j].fullName) != Lower(nba[k].fullName)
    ensures Lower(nba[k].fullName) in NameMap(nba)
    ensures NameMap(nba)[Lower(nba[k].fullName)] == nba[k].id
  {
    var n := |nba| - 1;
    if k < n {
      var init := nba[..n];
      assert init[k] == nba[k];
      NameMapLastWins(init, k);
    }
  }

  /** Only lowercased full names are keys. */
  lemma {:induction false} NameMapKeys(nba: seq<NbaPlayer>, key: string)
    requires key in NameMap(nba)
    ensures exists k :: 0 <= k < |nba| && Lower(nba[k].fullName) == key
  {
    var n := |nba| - 1;
    if key != Lower(nba[n].fullName) {
      NameMapKeys(nba[..n], key);
      var k :| 0 <= k < n && Lower(nba[..n][k].fullName) == key;
      assert nba[..n][k] == nba[k];
    }
  }

  method BuildNameMap(nba: seq<NbaPlayer>) returns (nameMap: map<string, int>)
    ensures nameMap == NameMap(nba)
  {
    nameMap := map[];
    for i := 0 to |nba|
      invariant nameMap == NameMap(nba[..i])
    {
      assert nba[..i + 1][..i] == nba[..i];
      nameMap := nameMap[Lower(nba[i].fullName) := nba[i].id];
    }
    assert nba[..|nba|] == nba;
  }

  const HeadshotBase: string := "https://cdn.nba.com/headshots/nba/latest/1040x760/"

  /** The key looked up: f"{first} {last}".lower(). */
  function HeadshotKey(firstName: string, lastName: string): string {
    Lower(firstName + " " + lastName)
  }

  /** A name with a space is looked up as itself, lowercased; a one-word
      name is looked up with a trailing space. */
  lemma HeadshotKeyOfName(name: string)
    ensures ' ' in name ==> HeadshotKey(FirstName(name), LastName(name)) == Lower(name)
    ensures ' ' !in name ==> HeadshotKey(FirstName(name), LastName(name)) == Lower(name + " ")
  {
    NameSplit(name);
    if ' ' !in name {
      assert FirstName(name) + " " + LastName(name) == name + " ";
    }
  }

  /** The headshot address, present when the key names a person whose id is
      truthy (not 0). */
  function Headshot(nameMap: map<string, int>, firstName: string, lastName: string): (r: Option<string>)
    ensures r.Some? <==> HeadshotKey(firstName, lastName) in nameMap
                         && nameMap[HeadshotKey(firstName, lastName)] != 0
    ensures r.Some? ==> r.value == HeadshotBase + IntToString(nameMap[HeadshotKey(firstName, lastName)]) + ".png"
  {
    var key := HeadshotKey(firstName, lastName);
    if key in nameMap && nameMap[key] != 0 then Some(HeadshotBase + IntToString(nameMap[key]) + ".png")
    else None
  }

  // ---------------------------------------------------------------- upserts

  /** One row of the players upsert, keyed by (provider, provider_player_id). */
  datatype PlayerUpsert = PlayerUpsert(
    provider: string, providerPlayerId: nat,
    firstName: string, lastName: string, position: Option<string>, jerseyNumber: Option<string>,
    teamId: string, height: Option<string>, weight: Option<string>,
    college: Option<string>, country: Option<string>, headshotUrl: Option<string>)

  function UpsertRow(p: TaggedPlayer, nameMap: map<string, int>): PlayerUpsert {
    var r := p.player;
    PlayerUpsert("bref", Checksum(Utf8(r.slug)), r.firstName, r.lastName, r.position, r.jerseyNumber,
                 p.teamId, r.height, r.weight, r.college, r.country,
                 Headshot(nameMap, r.firstName, r.lastName))
  }

  function UpsertRows(players: seq<TaggedPlayer>, nameMap: map<string, int>): (rows: seq<PlayerUpsert>)
    ensures |rows| == |players|
  {
    seq(|players|, k requires 0 <= k < |players| => UpsertRow(players[k], nameMap))
  }

  /** The key of every upsert row: provider "bref" and the Adler-32 checksum
      of the slug's character codes, below 2^32; every other field is the
      roster record's own, and the headshot is present exactly when the
      lowercased full name has a non-zero id in the name map. */
  lemma UpsertRowsShape(players: seq<TaggedPlayer>, nameMap: map<string, int>, k: nat)
    requires k < |players| && ValidSlug(players[k].player.slug)
    ensures var row := UpsertRows(players, nameMap)[k];
            var p := players[k].player;
            && row.provider == "bref"
            && |Utf8(p.slug)| == |p.slug|
            && (forall i :: 0 <= i < |p.slug| ==> Utf8(p.slug)[i] == p.slug[i] as int)
            && row.providerPlayerId == Checksum(Utf8(p.slug)) < 0x1_0000_0000
            && row.firstName == p.firstName && row.lastName == p.lastName
            && row.teamId == players[k].teamId
            && row.position == p.position && row.jerseyNumber == p.jerseyNumber
            && row.height == p.height && row.weight == p.weight
            && row.college == p.college && row.country == p.country
            && (var key := HeadshotKey(p.firstName, p.lastName);
                row.headshotUrl.Some? <==> key in nameMap && nameMap[key] != 0)
  {
    var slug := players[k].player.slug;
    assert forall i :: 0 <= i < |slug| ==> slug[i] as int < 0x80 by {
      forall i | 0 <= i < |slug| ensures slug[i] as int < 0x80 {
        assert IsSlugChar(slug[i]);
      }
    }
    Utf8Ascii(slug);
  }

  /** The upsert loop of scrape_rosters. */
  method BuildUpsertRows(players: seq<TaggedPlayer>, nba: seq<NbaPlayer>) returns (rows: seq<PlayerUpsert>)
    ensures rows == UpsertRows(players, NameMap(nba))
  {
    var nameMap := BuildNameMap(nba);
    rows := [];
    for i := 0 to |players|
      invariant rows == UpsertRows(players[..i], nameMap)
    {
      var p := players[i].player;
      var personKey := HeadshotKey(p.firstName, p.lastName);
      var headshotUrl := if personKey in nameMap && nameMap[personKey] != 0
                         then Some(HeadshotBase + IntToString(nameMap[personKey]) + ".png") else None;
      var providerId := SlugToProviderId(p.slug);
      var row := PlayerUpsert("bref", providerId, p.firstName, p.lastName, p.position, p.jerseyNumber,
                              players[i].teamId, p.height, p.weight, p.college, p.country, headshotUrl);
      assert row == UpsertRow(players[i], nameMap);
      assert UpsertRows(players[..i + 1], nameMap) == UpsertRows(players[..i], nameMap) + [row];
      rows := rows + [row];
    }
    assert players[..|players|] == players;
  }
}
