/** The two cell normalisations of the roster scraper: parse_height and
    parse_birth_date, the latter being datetime.strptime with the formats
    "%B %d, %Y" and "%b %d, %Y" rendered back with "%Y-%m-%d". */
module PlayerFields {
  import opened Text
  import opened Numbers
  import opened Calendar

  /** parse_height: blank text is absent, anything else is kept stripped. */
  function ParseHeight(ht: string): (r: Option<string>)
    ensures r.None? <==> AllSpace(ht)
    ensures r.Some? ==> r.value == Strip(ht)
  {
    StripEmptyIffBlank(ht);
    if Strip(ht) == "" then None else Some(Strip(ht))
  }

  /** A height such as "6-3", with no whitespace at either end, comes back
      unchanged. */
  lemma ParseHeightKeeps(ht: string)
    requires ht != [] && !IsSpace(ht[0]) && !IsSpace(ht[|ht| - 1])
    ensures ParseHeight(ht) == Some(ht)
  {
    StripNoEdgeSpace(ht);
  }

  /** Normalising a height twice is normalising it once. */
  lemma ParseHeightIdempotent(ht: string)
    ensures ParseHeight(ht).Some? ==> ParseHeight(ParseHeight(ht).value) == ParseHeight(ht)
  {
    StripIdempotent(ht);
  }

  // ------------------------------------------------------------ month names

  /** The %B alternatives, as strptime lowercases them. */
  const FullMonthNames: seq<string> :=
    ["january", "february", "march", "april", "may", "june",
     "july", "august", "september", "october", "november", "december"]

  /** The %b alternatives. */
  const AbbrevMonthNames: seq<string> :=
    ["jan", "feb", "mar", "apr", "may", "jun", "jul", "aug", "sep", "oct", "nov", "dec"]

  /** The position of x among names, the first if it occurs twice. */
  function IndexIn(x: string, names: seq<string>): (r: Option<nat>)
    ensures r.Some? ==> r.value < |names| && names[r.value] == x
    ensures r.None? <==> x !in names
  {
    if names == [] then None
    else if names[0] == x then Some(0)
    else match IndexIn(x, names[1..])
      case None => None
      case Some(k) => Some(k + 1)
  }

  /** A name at a position where it does not occur earlier is found there. */
  lemma {:induction false} IndexInAt(names: seq<string>, k: nat)
    requires k < |names|
    requires forall j :: 0 <= j < k ==> names[j] != names[k]
    ensures IndexIn(names[k], names) == Some(k)
  {
    if k > 0 {
      IndexInAt(names[1..], k - 1);
    }
  }

  /** The month name as the statistics site prints it. */
  function MonthTitle(m: int): (r: string)
    requires 1 <= m <= 12
  {
    [(FullMonthNames[m - 1][0] as int - 32) as char] + FullMonthNames[m - 1][1..]
  }

  /** The abbreviated month name with a capital. */
  function AbbrevTitle(m: int): (r: string)
    requires 1 <= m <= 12
  {
    [(AbbrevMonthNames[m - 1][0] as int - 32) as char] + AbbrevMonthNames[m - 1][1..]
  }

  predicate IsLowerAscii(c: char) {
    'a' <= c <= 'z'
  }

  predicate LowerWord(s: string) {
    s != [] && forall k :: 0 <= k < |s| ==> IsLowerAscii(s[k])
  }

  /** A lowercase word with its first letter capitalised lowers back to the
      word. */
  lemma CapitalLower(w: string)
    requires LowerWord(w)
    ensures var t := [(w[0] as int - 32) as char] + w[1..];
            Lower(t) == w && t != [] && !IsSpace(t[0]) && FirstSpace(t) == |t|
  {
    var t := [(w[0] as int - 32) as char] + w[1..];
    LowerAt(t);
    assert forall k :: 1 <= k < |t| ==> t[k] == w[k];
    NoSpaceRunsOut(t);
  }

  /** A word without whitespace has its first whitespace at its end. */
  lemma NoSpaceRunsOut(t: string)
    requires forall k :: 0 <= k < |t| ==> !IsSpace(t[k])
    ensures FirstSpace(t) == |t|
  {
  }

  lemma MonthNamesAreWords(m: int)
    requires 1 <= m <= 12
    ensures LowerWord(FullMonthNames[m - 1]) && LowerWord(AbbrevMonthNames[m - 1])
  {
  }

  // -------------------------------------------------------------- strptime

  /** Index of the first whitespace character, or |s|. */
  function FirstSpace(s: string): (i: nat)
    ensures i <= |s|
    ensures i < |s| ==> IsSpace(s[i])
    ensures forall k :: 0 <= k < i ==> !IsSpace(s[k])
  {
    if s == [] then 0
    else if IsSpace(s[0]) then 0
    else 1 + FirstSpace(s[1..])
  }

  /** strptime(t, "<month> %d, %Y") for one table of month names: the
      month text (up to the first whitespace) names a month ignoring case;
      then at least one whitespace character, one or two day digits
      (3[01]|[12]\d|0[1-9]|[1-9]), a comma, at least one whitespace
      character and exactly four year digits end the text; the date must
      exist. */
  function ParseMonthDayYear(t: string, names: seq<string>): (r: Option<Date>)
    ensures r.Some? ==> ValidDate(r.value)
  {
    var i := FirstSpace(t);
    MonthDayYearOf(Lower(t[..i]), t[i..], names)
  }

  /** The month token looked up in the table, then the rest of the text. */
  function MonthDayYearOf(token: string, rest: string, names: seq<string>): (r: Option<Date>)
    ensures r.Some? ==> ValidDate(r.value)
  {
    match IndexIn(token, names)
    case None => None
    case Some(mi) => AfterMonth(mi, rest)
  }

  /** What follows the month at table position mi (month number mi + 1):
      at least one whitespace character, then the day and the year, which
      must form a calendar date. */
  function AfterMonth(mi: nat, rest: string): (r: Option<Date>)
    ensures r.Some? ==> ValidDate(r.value) && r.value.month == mi + 1
  {
    var afterMonth := TrimLeft(rest);
    if |afterMonth| == |rest| then None
    else DateOf(mi, ParseDayYear(afterMonth))
  }

  /** The date of month mi + 1 with the day and year read, when it exists. */
  function DateOf(mi: nat, dayYear: Option<(int, int)>): (r: Option<Date>)
    ensures r.Some? ==> ValidDate(r.value) && r.value.month == mi + 1
  {
    match dayYear
    case None => None
    case Some((day, year)) =>
      var d := Date(year, mi + 1, day);
      if ValidDate(d) then Some(d) else None
  }

  /** The part after the month's whitespace: "%d," then whitespace and
      "%Y" up to the end. */
  function ParseDayYear(s: string): (r: Option<(int, int)>)
    ensures r.Some? ==> 1 <= r.value.0 <= 31 && 0 <= r.value.1 <= 9999
  {
    var c := IndexOf(s, ',');
    if c == |s| then None
    else match DayField(s[..c])
      case None => None
      case Some(day) =>
        var tail := s[c + 1..];
        var yearText := TrimLeft(tail);
        if |yearText| == |tail| || |yearText| != 4 || !AllDigits(yearText) then None
        else
          FourDigitsBound(yearText);
          Some((day, ValueOf(yearText) as int))
  }

  lemma FourDigitsBound(s: string)
    requires |s| == 4 && AllDigits(s)
    ensures ValueOf(s) <= 9999
  {
    ValueOfBound(s);
    assert Pow10(4) == 10000;
  }

  /** The date parse_birth_date reads: blank text is absent; the stripped
      text is tried with full month names, then with abbreviated ones. */
  function BirthDate(s: string): (r: Option<Date>)
    ensures AllSpace(s) ==> r.None?
    ensures r.Some? ==> ValidDate(r.value)
  {
    StripEmptyIffBlank(s);
    var t := Strip(s);
    if t == "" then None
    else match ParseMonthDayYear(t, FullMonthNames)
      case Some(d) => Some(d)
      case None => ParseMonthDayYear(t, AbbrevMonthNames)
  }

  /** parse_birth_date: the date as "YYYY-MM-DD", or absent when the text
      is blank or matches neither format or names no calendar date. */
  function ParseBirthDate(s: string): (r: Option<string>)
    ensures r.Some? <==> BirthDate(s).Some?
    ensures r.Some? ==> r.value == IsoFormat(BirthDate(s).value)
  {
    match BirthDate(s)
    case None => None
    case Some(d) => Some(IsoFormat(d))
  }

  // ------------------------------------------------------------- round trips

  lemma AllDistinctFull(k: nat)
    requires k < 12
    ensures forall j :: 0 <= j < k ==> FullMonthNames[j] != FullMonthNames[k]
  {
  }

  lemma AllDistinctAbbrev(k: nat)
    requires k < 12
    ensures forall j :: 0 <= j < k ==> AbbrevMonthNames[j] != AbbrevMonthNames[k]
  {
  }

  /** An abbreviation other than "may" is no full month name. */
  lemma AbbrevNotFull(k: nat)
    requires k < 12 && k != 4
    ensures AbbrevMonthNames[k] !in FullMonthNames
  {
    assert forall j :: 0 <= j < 12 && j != 4 ==> |FullMonthNames[j]| > 3;
  }

  lemma DayDigits(n: nat)
    requires 1 <= n <= 31
    ensures |NatToString(n)| <= 2
    ensures DayField(NatToString(n)) == Some(n)
  {
    NatToStringValue(n);
  }

  lemma {:induction false} FirstSpacePast(a: string, b: string)
    requires forall k :: 0 <= k < |a| ==> !IsSpace(a[k])
    requires b != [] && IsSpace(b[0])
    ensures FirstSpace(a + b) == |a|
    decreases |a|
  {
    if a != [] {
      assert (a + b)[1..] == a[1..] + b;
      FirstSpacePast(a[1..], b);
    } else {
      assert a + b == b;
    }
  }

  /** The text "<word> D, YYYY" parses against the table that holds the
      word at position m - 1. */
  lemma ParseOfText(word: string, names: seq<string>, m: int, d: Date)
    requires 1 <= m <= |names| && IndexIn(Lower(word), names) == Some(m - 1)
    requires word != [] && FirstSpace(word) == |word|
    requires ValidDate(d) && d.month == m && d.year >= 1000
    ensures ParseMonthDayYear(word + " " + NatToString(d.day) + ", " + NatToString(d.year), names) == Some(d)
  {
    var afterMonth := NatToString(d.day) + ", " + NatToString(d.year);
    DayYearOfText(d.day, d.year);
    DayYearStart(d.day, d.year);
    ParseOfParts(word, afterMonth, names, m - 1, d);
    Regroup(word, " ", NatToString(d.day), ", ", NatToString(d.year));
  }

  lemma Regroup(a: string, b: string, c: string, d: string, e: string)
    ensures a + b + c + d + e == a + (b + (c + d + e))
  {
  }

  /** A month word, one space and a text whose day and year form the date d
      with that month parse as d. */
  lemma ParseOfParts(word: string, afterMonth: string, names: seq<string>, mi: nat, d: Date)
    requires mi < |names| && IndexIn(Lower(word), names) == Some(mi)
    requires word != [] && FirstSpace(word) == |word|
    requires afterMonth != [] && !IsSpace(afterMonth[0])
    requires ValidDate(d) && d.month == mi + 1
    requires ParseDayYear(afterMonth) == Some((d.day, d.year))
    ensures ParseMonthDayYear(word + (" " + afterMonth), names) == Some(d)
  {
    MonthThen(word, " " + afterMonth, names, mi);
    AfterMonthOf(mi, afterMonth, d);
  }


  lemma AfterMonthOf(mi: nat, afterMonth: string, d: Date)
    requires afterMonth != [] && !IsSpace(afterMonth[0])
    requires ValidDate(d) && d.month == mi + 1
    requires ParseDayYear(afterMonth) == Some((d.day, d.year))
    ensures AfterMonth(mi, " " + afterMonth) == Some(d)
  {
    LeftOfText(" ", afterMonth);
    DateOfValid(mi, d);
  }

  lemma DateOfValid(mi: nat, d: Date)
    requires ValidDate(d) && d.month == mi + 1
    ensures DateOf(mi, Some((d.day, d.year))) == Some(d)
  {
  }

  /** A month word followed by whitespace: the table lookup decides, and
      the parse goes on with what follows the word. */
  lemma MonthThen(word: string, rest: string, names: seq<string>, mi: nat)
    requires FirstSpace(word) == |word|
    requires rest != [] && IsSpace(rest[0])
    requires IndexIn(Lower(word), names) == Some(mi)
    ensures ParseMonthDayYear(word + rest, names) == AfterMonth(mi, rest)
  {
    FirstSpacePast(word, rest);
    ConcatParts(word, rest);
    MonthLookup(word + rest, names, mi);
  }

  lemma ConcatParts(a: string, b: string)
    ensures (a + b)[..|a|] == a && (a + b)[|a|..] == b
  {
  }

  /** The parse once the month token is known to name month mi + 1. */
  lemma MonthLookup(t: string, names: seq<string>, mi: nat)
    requires IndexIn(Lower(t[..FirstSpace(t)]), names) == Some(mi)
    ensures ParseMonthDayYear(t, names) == AfterMonth(mi, t[FirstSpace(t)..])
  {
    MonthKnown(Lower(t[..FirstSpace(t)]), t[FirstSpace(t)..], names, mi);
  }

  lemma MonthKnown(token: string, rest: string, names: seq<string>, mi: nat)
    requires IndexIn(token, names) == Some(mi)
    ensures MonthDayYearOf(token, rest, names) == AfterMonth(mi, rest)
  {
  }

  /** "D, YYYY" reads as the day and the year. */
  lemma DayYearOfText(day: nat, year: nat)
    requires 1 <= day <= 31 && 1000 <= year <= 9999
    ensures ParseDayYear(NatToString(day) + ", " + NatToString(year)) == Some((day as int, year as int))
  {
    var dayText := NatToString(day);
    var yearText := NatToString(year);
    DayDigits(day);
    YearHasFourDigits(year);
    NatToStringValue(year);
    DayYearOfParts(dayText, yearText, day, year);
    Regroup3(dayText, ", ", yearText);
  }

  /** The day-and-year text starts with a digit of the day. */
  lemma DayYearStart(day: nat, year: nat)
    ensures var s := NatToString(day) + ", " + NatToString(year); s != [] && !IsSpace(s[0])
  {
    var s := NatToString(day) + ", " + NatToString(year);
    assert s[0] == NatToString(day)[0];
  }

  lemma Regroup3(a: string, b: string, c: string)
    ensures a + b + c == a + (b + c)
  {
  }

  /** A day field, a comma, a space and four year digits. */
  lemma DayYearOfParts(dayText: string, yearText: string, day: int, year: int)
    requires ',' !in dayText && DayField(dayText) == Some(day)
    requires |yearText| == 4 && AllDigits(yearText) && ValueOf(yearText) == year
    ensures ParseDayYear(dayText + (", " + yearText)) == Some((day, year))
  {
    var tail := ", " + yearText;
    var s := dayText + tail;
    var c := |dayText|;
    IndexOfPast(dayText, tail, ',');
    ConcatParts(dayText, tail);
    assert s[..c] == dayText;
    DropAfter(dayText, tail);
    assert tail[1..] == " " + yearText;
    assert s[c + 1..] == " " + yearText;
    LeftOfText(" ", yearText);
    assert TrimLeft(s[c + 1..]) == yearText;
    DayYearLookup(s, c, day, yearText);
  }

  lemma DropAfter(a: string, b: string)
    requires b != []
    ensures (a + b)[|a| + 1..] == b[1..]
  {
  }

  /** The day and year parse once the comma, the day field and the year
      digits are located. */
  lemma DayYearLookup(s: string, c: nat, day: int, yearText: string)
    requires IndexOf(s, ',') == c < |s| && DayField(s[..c]) == Some(day)
    requires TrimLeft(s[c + 1..]) == yearText && |yearText| < |s[c + 1..]|
    requires |yearText| == 4 && AllDigits(yearText)
    ensures ParseDayYear(s) == Some((day, ValueOf(yearText) as int))
  {
  }

  /** A date text the way the roster pages print it can be stripped to
      itself. */
  lemma DateTextStrips(word: string, d: Date)
    requires word != [] && !IsSpace(word[0]) && ValidDate(d)
    ensures var t := word + " " + NatToString(d.day) + ", " + NatToString(d.year);
            t != [] && Strip(t) == t
  {
    var t := word + " " + NatToString(d.day) + ", " + NatToString(d.year);
    var y := NatToString(d.year);
    assert t[0] == word[0];
    assert t[|t| - 1] == y[|y| - 1];
    StripNoEdgeSpace(t);
  }

  /** The capitalised month names are single words that lower back to the
      table entries. */
  lemma TitleFacts(m: int)
    requires 1 <= m <= 12
    ensures MonthTitle(m) != [] && !IsSpace(MonthTitle(m)[0])
    ensures FirstSpace(MonthTitle(m)) == |MonthTitle(m)| && Lower(MonthTitle(m)) == FullMonthNames[m - 1]
    ensures AbbrevTitle(m) != [] && !IsSpace(AbbrevTitle(m)[0])
    ensures FirstSpace(AbbrevTitle(m)) == |AbbrevTitle(m)| && Lower(AbbrevTitle(m)) == AbbrevMonthNames[m - 1]
  {
    MonthNamesAreWords(m);
    CapitalLower(FullMonthNames[m - 1]);
    CapitalLower(AbbrevMonthNames[m - 1]);
  }

  lemma MayTitles()
    ensures AbbrevTitle(5) == MonthTitle(5)
  {
    assert AbbrevMonthNames[4] == FullMonthNames[4];
  }

  /** The month token of a date text is its first word. */
  lemma MonthTokenOf(word: string, d: Date)
    requires FirstSpace(word) == |word| && ValidDate(d)
    ensures var t := word + " " + NatToString(d.day) + ", " + NatToString(d.year);
            t[..FirstSpace(t)] == word
  {
    var rest := " " + NatToString(d.day) + ", " + NatToString(d.year);
    FirstSpacePast(word, rest);
    ConcatParts(word, rest);
    RegroupHead(word, " ", NatToString(d.day), ", ", NatToString(d.year));
  }

  lemma RegroupHead(a: string, b: string, c: string, d: string, e: string)
    ensures a + b + c + d + e == a + (b + c + d + e)
  {
  }

  /** Every date from year 1000 on, written "March 14, 1988", is read back. */
  lemma BirthDateFullRoundTrip(d: Date)
    requires ValidDate(d) && d.year >= 1000
    ensures ParseBirthDate(MonthTitle(d.month) + " " + NatToString(d.day) + ", " + NatToString(d.year))
            == Some(IsoFormat(d))
  {
    var word := MonthTitle(d.month);
    var t := word + " " + NatToString(d.day) + ", " + NatToString(d.year);
    TitleFacts(d.month);
    FullWordParses(d);
    DateTextStrips(word, d);
    FirstAttemptWins(t, d);
  }

  /** The capitalised full month name reads as its month. */
  lemma FullWordParses(d: Date)
    requires ValidDate(d) && d.year >= 1000
    ensures ParseMonthDayYear(MonthTitle(d.month) + " " + NatToString(d.day) + ", " + NatToString(d.year),
                              FullMonthNames) == Some(d)
  {
    TitleFacts(d.month);
    AllDistinctFull(d.month - 1);
    IndexInAt(FullMonthNames, d.month - 1);
    ParseOfText(MonthTitle(d.month), FullMonthNames, d.month, d);
  }

  /** The capitalised abbreviation reads as its month. */
  lemma AbbrevWordParses(d: Date)
    requires ValidDate(d) && d.year >= 1000
    ensures ParseMonthDayYear(AbbrevTitle(d.month) + " " + NatToString(d.day) + ", " + NatToString(d.year),
                              AbbrevMonthNames) == Some(d)
  {
    TitleFacts(d.month);
    AllDistinctAbbrev(d.month - 1);
    IndexInAt(AbbrevMonthNames, d.month - 1);
    ParseOfText(AbbrevTitle(d.month), AbbrevMonthNames, d.month, d);
  }

  /** A stripped text that the full-name format reads is read as that. */
  lemma FirstAttemptWins(t: string, d: Date)
    requires t != [] && Strip(t) == t
    requires ParseMonthDayYear(t, FullMonthNames) == Some(d)
    ensures ParseBirthDate(t) == Some(IsoFormat(d))
  {
  }

  /** A stripped text that the full-name format rejects is read with
      abbreviations. */
  lemma SecondAttempt(t: string, d: Date)
    requires t != [] && Strip(t) == t
    requires ParseMonthDayYear(t, FullMonthNames) == None
    requires ParseMonthDayYear(t, AbbrevMonthNames) == Some(d)
    ensures ParseBirthDate(t) == Some(IsoFormat(d))
  {
  }

  /** A month token outside the table rejects the text. */
  lemma NotAMonth(t: string, names: seq<string>)
    requires Lower(t[..FirstSpace(t)]) !in names
    ensures ParseMonthDayYear(t, names) == None
  {
  }

  /** So is every date written with an abbreviated month, "Sep 5, 1990":
      the full-name attempt fails first (for "May" it succeeds with the
      same month). */
  lemma BirthDateAbbrevRoundTrip(d: Date)
    requires ValidDate(d) && d.year >= 1000
    ensures ParseBirthDate(AbbrevTitle(d.month) + " " + NatToString(d.day) + ", " + NatToString(d.year))
            == Some(IsoFormat(d))
  {
    if d.month == 5 {
      MayRoundTrip(d);
    } else {
      AbbrevOnlyRoundTrip(d);
    }
  }

  /** "May" is read by the full-name format already. */
  lemma MayRoundTrip(d: Date)
    requires ValidDate(d) && d.year >= 1000 && d.month == 5
    ensures ParseBirthDate(AbbrevTitle(d.month) + " " + NatToString(d.day) + ", " + NatToString(d.year))
            == Some(IsoFormat(d))
  {
    MayTitles();
    BirthDateFullRoundTrip(d);
  }

  /** Any other abbreviation fails the full-name format and is read by the
      abbreviated one. */
  lemma AbbrevOnlyRoundTrip(d: Date)
    requires ValidDate(d) && d.year >= 1000 && d.month != 5
    ensures ParseBirthDate(AbbrevTitle(d.month) + " " + NatToString(d.day) + ", " + NatToString(d.year))
            == Some(IsoFormat(d))
  {
    var word := AbbrevTitle(d.month);
    var t := word + " " + NatToString(d.day) + ", " + NatToString(d.year);
    TitleFacts(d.month);
    AbbrevWordParses(d);
    DateTextStrips(word, d);
    AbbrevNotFullParse(d);
    SecondAttempt(t, d);
  }

  /** The full-name format rejects any abbreviation but "May". */
  lemma AbbrevNotFullParse(d: Date)
    requires ValidDate(d) && d.month != 5
    ensures ParseMonthDayYear(AbbrevTitle(d.month) + " " + NatToString(d.day) + ", " + NatToString(d.year),
                              FullMonthNames) == None
  {
    var word := AbbrevTitle(d.month);
    var t := word + " " + NatToString(d.day) + ", " + NatToString(d.year);
    TitleFacts(d.month);
    MonthTokenOf(word, d);
    AbbrevNotFull(d.month - 1);
    NotAMonth(t, FullMonthNames);
  }

  /** A text that does not start with a month name is absent. */
  lemma BirthDateNeedsMonth(s: string)
    requires var t := Strip(s); Lower(t[..FirstSpace(t)]) !in FullMonthNames
                                && Lower(t[..FirstSpace(t)]) !in AbbrevMonthNames
    ensures ParseBirthDate(s) == None
  {
  }
}
