/** parse_roster: the #roster table of a team page becomes one record per
    player row that links to a profile page, with the name split in two and
    the optional cells normalised. */
module Roster {
  import opened Text
  import opened Html
  import opened PlayerFields

  /** One record as parse_roster emits it. The birth date is parsed by the
      source but not part of the record. */
  datatype RosterPlayer = RosterPlayer(
    slug: string, firstName: string, lastName: string,
    jerseyNumber: Option<string>, position: Option<string>, height: Option<string>,
    weight: Option<string>, college: Option<string>, country: Option<string>)

  // ------------------------------------------------------------------ slugs

  /** A character of the group [a-z0-9]. */
  predicate IsSlugChar(c: char) {
    ('a' <= c <= 'z') || ('0' <= c <= '9')
  }

  /** A non-empty [a-z0-9]+ text: what the profile-link pattern captures. */
  predicate ValidSlug(s: string) {
    s != [] && forall k :: 0 <= k < |s| ==> IsSlugChar(s[k])
  }

  /** The length of the longest prefix of s made of slug characters. */
  function SlugRun(s: string): (n: nat)
    ensures n <= |s|
    ensures forall k :: 0 <= k < n ==> IsSlugChar(s[k])
    ensures n < |s| ==> !IsSlugChar(s[n])
  {
    if s != [] && IsSlugChar(s[0]) then 1 + SlugRun(s[1..]) else 0
  }

  /** The pattern /players/[a-z]/([a-z0-9]+)\.html tried at position i of h.
      The greedy group takes the longest run of slug characters; a shorter
      run would leave a slug character where the "." must be, so no
      backtracking can succeed where the longest run fails. */
  function MatchAt(h: string, i: nat): (r: Option<string>)
    requires i <= |h|
    ensures r.Some? ==> ValidSlug(r.value)
  {
    var rest := h[i..];
    if StartsWith(rest, "/players/") && |rest| > 10 && 'a' <= rest[9] <= 'z' && rest[10] == '/' then
      var tail := rest[11..];
      var n := SlugRun(tail);
      if n > 0 && StartsWith(tail[n..], ".html") then Some(tail[..n]) else None
    else None
  }

  /** re.search from position i on: the group of the leftmost match. */
  function SearchFrom(h: string, i: nat): (r: Option<string>)
    requires i <= |h|
    ensures r.Some? ==> ValidSlug(r.value)
    decreases |h| - i
  {
    if MatchAt(h, i).Some? then MatchAt(h, i)
    else if i == |h| then None
    else SearchFrom(h, i + 1)
  }

  /** The search finds a slug exactly when the pattern matches at some
      position from i on, and then it is the group of the leftmost match. */
  lemma SearchFromLeftmost(h: string, i: nat)
    requires i <= |h|
    ensures SearchFrom(h, i).Some? <==> exists k :: i <= k <= |h| && MatchAt(h, k).Some?
    ensures SearchFrom(h, i).Some? ==>
              exists k :: i <= k <= |h| && MatchAt(h, k) == SearchFrom(h, i)
                          && forall j :: i <= j < k ==> MatchAt(h, j).None?
  {
    var ms := Matches(h);
    SearchFromIsLeftmost(h, i);
    LeftmostFound(ms, i);
    if SearchFrom(h, i).Some? {
      var k :| i <= k < |ms| && ms[k] == Leftmost(ms, i) && forall j :: i <= j < k ==> ms[j].None?;
      assert MatchAt(h, k) == SearchFrom(h, i);
    } else {
      forall k | i <= k <= |h|
        ensures MatchAt(h, k).None?
      {
        assert ms[k] == MatchAt(h, k);
      }
    }
  }

  /** The pattern tried at every position of h, the end included. */
  function Matches(h: string): (ms: seq<Option<string>>)
    ensures |ms| == |h| + 1
    ensures forall k :: 0 <= k <= |h| ==> ms[k] == MatchAt(h, k)
  {
    seq(|h| + 1, k requires 0 <= k <= |h| => MatchAt(h, k))
  }

  /** The first present entry from position i on. */
  function Leftmost<T>(ms: seq<Option<T>>, i: nat): Option<T>
    requires i <= |ms|
    decreases |ms| - i
  {
    if i == |ms| then None
    else if ms[i].Some? then ms[i]
    else Leftmost(ms, i + 1)
  }

  lemma {:induction false} LeftmostFound<T>(ms: seq<Option<T>>, i: nat)
    requires i <= |ms|
    ensures Leftmost(ms, i).Some? <==> exists k :: i <= k < |ms| && ms[k].Some?
    ensures Leftmost(ms, i).Some? ==>
              exists k :: i <= k < |ms| && ms[k] == Leftmost(ms, i) && forall j :: i <= j < k ==> ms[j].None?
    decreases |ms| - i
  {
    if i < |ms| {
      LeftmostFound(ms, i + 1);
      if ms[i].Some? {
        assert ms[i] == Leftmost(ms, i);
      } else if Leftmost(ms, i).Some? {
        var k :| i + 1 <= k < |ms| && ms[k] == Leftmost(ms, i + 1) && forall j :: i + 1 <= j < k ==> ms[j].None?;
        assert forall j :: i <= j < k ==> ms[j].None?;
      }
    }
  }

  lemma {:induction false} SearchFromIsLeftmost(h: string, i: nat)
    requires i <= |h|
    ensures SearchFrom(h, i) == Leftmost(Matches(h), i)
    decreases |h| - i
  {
    if MatchAt(h, i).None? && i < |h| {
      SearchFromIsLeftmost(h, i + 1);
    }
  }

  /** The slug of a profile link: the link must be present and carry a
      non-empty href, which the pattern is searched in. */
  function SlugOf(link: Option<Anchor>): (r: Option<string>)
    ensures r.Some? ==> ValidSlug(r.value)
    ensures r.Some? <==> link.Some? && link.value.href.Some? && link.value.href.value != ""
                         && SearchFrom(link.value.href.value, 0).Some?
    ensures r.Some? ==> r == SearchFrom(link.value.href.value, 0)
  {
    match link
    case None => None
    case Some(a) =>
      if a.href.Some? && a.href.value != "" then SearchFrom(a.href.value, 0) else None
  }

  /** The profile path of a player, "/players/c/curryst01.html", yields its
      slug back. */
  lemma SlugOfProfilePath(letter: char, slug: string)
    requires 'a' <= letter <= 'z' && ValidSlug(slug)
    ensures SearchFrom("/players/" + [letter] + "/" + slug + ".html", 0) == Some(slug)
  {
    var h := "/players/" + [letter] + "/" + slug + ".html";
    var rest := h[0..];
    assert rest == h;
    assert h[..9] == "/players/";
    assert h[9] == letter && h[10] == '/';
    var tail := h[11..];
    assert tail == slug + ".html";
    SlugRunOf(slug, ".html");
    assert tail[|slug|..] == ".html";
    assert tail[..|slug|] == slug;
    assert MatchAt(h, 0) == Some(slug);
  }

  /** A run of slug characters ends at the first other character. */
  lemma {:induction false} SlugRunOf(slug: string, rest: string)
    requires forall k :: 0 <= k < |slug| ==> IsSlugChar(slug[k])
    requires rest != [] && !IsSlugChar(rest[0])
    ensures SlugRun(slug + rest) == |slug|
    decreases |slug|
  {
    if slug != [] {
      assert (slug + rest)[1..] == slug[1..] + rest;
      SlugRunOf(slug[1..], rest);
    } else {
      assert slug + rest == rest;
    }
  }

  // ------------------------------------------------------------------- names

  /** name_text.split(" ", 1)[0] */
  function FirstName(name: string): string {
    BeforeFirst(name, ' ')
  }

  /** name_text.split(" ", 1)[1], or "" when there is no space. */
  function LastName(name: string): string {
    var i := IndexOf(name, ' ');
    if i < |name| then name[i + 1..] else ""
  }

  /** The split is at the first space: with a space the two halves joined
      by one space give the name back and the first half has no space;
      without one the first name is the whole name and the last is empty. */
  lemma NameSplit(name: string)
    ensures ' ' !in FirstName(name)
    ensures ' ' in name ==> FirstName(name) + " " + LastName(name) == name
    ensures ' ' !in name ==> FirstName(name) == name && LastName(name) == ""
  {
    var i := IndexOf(name, ' ');
    if i < |name| {
      assert name == name[..i] + [name[i]] + name[i + 1..];
    } else {
      assert name[..i] == name;
    }
  }

  // ----------------------------------------------------------- optional cells

  /** `parse_height(ht.get_text(strip=True)) if ht else None` */
  function HeightOf(c: Option<Cell>): (r: Option<string>)
    ensures r.Some? ==> c.Some? && r.value != ""
    ensures c.Some? ==> r == ParseHeight(c.value.text)
  {
    if c.Some? then
      var h := ParseHeight(c.value.text);
      StripEmptyIffBlank(c.value.text);
      h
    else None
  }

  /** The text of the cell's first link if it has one, else the cell's
      text; an empty result is absent (`... or None`). */
  function LinkedTextOf(c: Option<Cell>): (r: Option<string>)
    ensures r.Some? ==> c.Some? && r.value != ""
    ensures c.Some? && c.value.anchor.Some? ==>
              r == if c.value.anchor.value.text == "" then None else Some(c.value.anchor.value.text)
    ensures c.Some? && c.value.anchor.None? ==>
              r == if c.value.text == "" then None else Some(c.value.text)
  {
    if c.None? then None
    else
      var a := c.value.anchor;
      var t := if a.Some? then a.value.text else c.value.text;
      if t == "" then None else Some(t)
  }

  /** `cell.get_text(strip=True) or None` for a present cell. */
  function NonEmptyTextOf(c: Option<Cell>): (r: Option<string>)
    ensures r.Some? <==> c.Some? && c.value.text != ""
    ensures r.Some? ==> r.value == c.value.text
  {
    if c.Some? && c.value.text != "" then Some(c.value.text) else None
  }

  // ---------------------------------------------------------------- records

  /** The text of the row's player cell, when the row has one. */
  function PlayerName(row: Row): Option<string> {
    TextIfPresent(CellByStat(row.cells, "player"))
  }

  /** The record of one body row: none without a player cell, with
      an empty name, or without a slug in its link. */
  function RosterRecord(row: Row): (r: Option<RosterPlayer>)
    ensures r.Some? <==> PlayerName(row).Some? && PlayerName(row).value != ""
                         && SlugOf(CellByStat(row.cells, "player").value.anchor).Some?
    ensures r.Some? ==> ValidSlug(r.value.slug)
    ensures r.Some? ==> Some(r.value.slug) == SlugOf(CellByStat(row.cells, "player").value.anchor)
    ensures r.Some? ==> r.value.firstName == FirstName(PlayerName(row).value)
                        && r.value.lastName == LastName(PlayerName(row).value)
    ensures r.Some? ==> r.value.jerseyNumber == TextIfPresent(CellByStat(row.cells, "number"))
                        && r.value.position == TextIfPresent(CellByStat(row.cells, "pos"))
                        && r.value.weight == TextIfPresent(CellByStat(row.cells, "weight"))
    ensures r.Some? ==> r.value.height == HeightOf(CellByStat(row.cells, "height"))
                        && r.value.college == LinkedTextOf(CellByStat(row.cells, "college"))
                        && r.value.country == NonEmptyTextOf(CellByStat(row.cells, "birth_place"))
    ensures r.Some? && r.value.college.Some? ==> r.value.college.value != ""
    ensures r.Some? && r.value.country.Some? ==> r.value.country.value != ""
    ensures r.Some? && r.value.height.Some? ==> r.value.height.value != ""
  {
    var cells := row.cells;
    var playerCell := CellByStat(cells, "player");
    if playerCell.None? then None
    else
      var name := playerCell.value.text;
      if name == "" then None
      else match SlugOf(playerCell.value.anchor)
        case None => None
        case Some(slug) =>
          Some(RosterPlayer(
            slug, FirstName(name), LastName(name),
            TextIfPresent(CellByStat(cells, "number")),
            TextIfPresent(CellByStat(cells, "pos")),
            HeightOf(CellByStat(cells, "height")),
            TextIfPresent(CellByStat(cells, "weight")),
            LinkedTextOf(CellByStat(cells, "college")),
            NonEmptyTextOf(CellByStat(cells, "birth_place"))))
  }

  /** The records of the body rows, in row order. */
  function RosterRows(rows: seq<Row>): (out: seq<RosterPlayer>)
    ensures |out| <= |rows|
    ensures forall k :: 0 <= k < |out| ==> ValidSlug(out[k].slug)
  {
    if rows == [] then []
    else
      var init := RosterRows(rows[..|rows| - 1]);
      var last := RosterRecord(rows[|rows| - 1]);
      if last.Some? then init + [last.value] else init
  }

  /** Each row contributes its own record in place: the records of two runs
      of rows are the records of the first followed by those of the second. */
  lemma {:induction false} RosterRowsAppend(a: seq<Row>, b: seq<Row>)
    ensures RosterRows(a + b) == RosterRows(a) + RosterRows(b)
    decreases |b|
  {
    if b == [] {
      assert a + b == a;
    } else {
      var b' := b[..|b| - 1];
      assert (a + b)[..|a + b| - 1] == a + b';
      assert (a + b)[|a + b| - 1] == b[|b| - 1];
      RosterRowsAppend(a, b');
    }
  }

  /** A row is dropped exactly when it has no record of its own. */
  lemma RosterRowsOne(row: Row)
    ensures RosterRows([row]) == if RosterRecord(row).Some? then [RosterRecord(row).value] else []
  {
    assert [row][..0] == [];
  }

  /** parse_roster: no #roster table or no tbody gives
      no records. */
  function RosterOfPage(doc: Document): (out: seq<RosterPlayer>)
    ensures BodyRows(doc, "roster").None? ==> out == []
    ensures forall k :: 0 <= k < |out| ==> ValidSlug(out[k].slug)
  {
    match BodyRows(doc, "roster")
    case None => []
    case Some(rows) => RosterRows(rows)
  }

  /** The loop that appends a record per accepted row. */
  method ParseRoster(doc: Document) returns (players: seq<RosterPlayer>)
    ensures players == RosterOfPage(doc)
  {
    var body := BodyRows(doc, "roster");
    if body.None? {
      return [];
    }
    var rows := body.value;
    players := [];
    for i := 0 to |rows|
      invariant players == RosterRows(rows[..i])
    {
      assert rows[..i + 1][..i] == rows[..i];
      var tr := rows[i];
      var playerCell := CellByStat(tr.cells, "player");
      if playerCell.None? {
        continue;
      }
      var nameText := playerCell.value.text;
      if nameText == "" {
        continue;
      }
      var slug := SlugOf(playerCell.value.anchor);
      if slug.None? {
        continue;
      }
      var record := RosterPlayer(
        slug.value, FirstName(nameText), LastName(nameText),
        TextIfPresent(CellByStat(tr.cells, "number")),
        TextIfPresent(CellByStat(tr.cells, "pos")),
        HeightOf(CellByStat(tr.cells, "height")),
        TextIfPresent(CellByStat(tr.cells, "weight")),
        LinkedTextOf(CellByStat(tr.cells, "college")),
        NonEmptyTextOf(CellByStat(tr.cells, "birth_place")));
      players := players + [record];
    }
    assert rows[..|rows|] == rows;
  }
}
