/** Gregorian dates as datetime.date accepts them, the strftime renderings
    the scripts use, and strptime with the format "%Y-%m-%d". */
module Calendar {
  import opened Text
  import opened Numbers

  datatype Date = Date(year: int, month: int, day: int)

  predicate IsLeapYear(y: int) {
    y % 4 == 0 && (y % 100 != 0 || y % 400 == 0)
  }

  function DaysInMonth(y: int, m: int): int
    requires 1 <= m <= 12
  {
    if m == 2 then (if IsLeapYear(y) then 29 else 28)
    else if m == 4 || m == 6 || m == 9 || m == 11 then 30
    else 31
  }

  /** What datetime.date(year, month, day) accepts (MINYEAR 1, MAXYEAR 9999). */
  predicate ValidDate(d: Date) {
    && 1 <= d.year <= 9999
    && 1 <= d.month <= 12
    && 1 <= d.day <= DaysInMonth(d.year, d.month)
  }

  /** strftime("%Y-%m-%d"); %Y is unpadded below year 1000, as with glibc. */
  function IsoFormat(d: Date): string
    requires ValidDate(d)
  {
    NatToString(d.year) + "-" + Digits2(d.month) + "-" + Digits2(d.day)
  }

  /** strftime("%Y%m%d") */
  function CompactFormat(d: Date): string
    requires ValidDate(d)
  {
    NatToString(d.year) + Digits2(d.month) + Digits2(d.day)
  }

  /** The %m field as strptime matches it (1[0-2]|0[1-9]|[1-9]) when it is
      followed by a literal separator. */
  function MonthField(t: string): (r: Option<int>)
    ensures r.Some? ==> 1 <= r.value <= 12
  {
    if 1 <= |t| <= 2 && AllDigits(t) && 1 <= ValueOf(t) <= 12 then Some(ValueOf(t)) else None
  }

  /** The %d field as strptime matches it (3[01]|[12]\d|0[1-9]|[1-9]| [1-9])
      when it runs to the end of the text or up to a literal separator. */
  function DayField(t: string): (r: Option<int>)
    ensures r.Some? ==> 1 <= r.value <= 31
  {
    if 1 <= |t| <= 2 && AllDigits(t) && 1 <= ValueOf(t) <= 31 then Some(ValueOf(t))
    else if |t| == 2 && t[0] == ' ' && '1' <= t[1] <= '9' then Some(DigitValue(t[1]))
    else None
  }

  /** datetime.strptime(s, "%Y-%m-%d") for ASCII digits: None where it
      raises ValueError. Dates written with other Unicode decimal digits,
      which strptime also reads, are None here. */
  function ParseIsoDate(s: string): (r: Option<Date>)
    ensures r.Some? ==> ValidDate(r.value)
  {
    if |s| < 5 || !AllDigits(s[..4]) || s[4] != '-' then None
    else
      var rest := s[5..];
      var i := IndexOf(rest, '-');
      if i == |rest| then None
      else
        match (MonthField(rest[..i]), DayField(rest[i + 1..]))
        case (Some(m), Some(d)) =>
          var date := Date(ValueOf(s[..4]), m, d);
          if ValidDate(date) then Some(date) else None
        case _ => None
  }

  /** A zero-padded ISO date from year 1000 on parses to the date whose
      compact rendering is the same text without its dashes. */
  lemma CompactOfIsoText(s: string)
    requires |s| == 10 && s[4] == '-' && s[7] == '-' && s[0] != '0'
    requires AllDigits(s[..4]) && AllDigits(s[5..7]) && AllDigits(s[8..])
    requires ParseIsoDate(s).Some?
    ensures CompactFormat(ParseIsoDate(s).value) == s[..4] + s[5..7] + s[8..]
  {
    var rest := s[5..];
    assert rest[2] == '-' && rest[0] != '-' && rest[1] != '-';
    assert IndexOf(rest, '-') == 2 by {
      assert rest[..2] == s[5..7];
      assert IndexOf(rest[1..], '-') == 1;
    }
    assert rest[..2] == s[5..7];
    assert rest[3..] == s[8..];
    assert s[..4][0] == s[0];
    NatToStringOfValue(s[..4]);
    Digits2OfValue(s[5..7]);
    Digits2OfValue(s[8..]);
  }

  /** Every valid date from year 1000 on survives strftime then strptime. */
  lemma IsoRoundTrip(d: Date)
    requires ValidDate(d) && d.year >= 1000
    ensures ParseIsoDate(IsoFormat(d)) == Some(d)
  {
    var y := NatToString(d.year);
    NatToStringValue(d.year);
    YearHasFourDigits(d.year);
    var s := IsoFormat(d);
    assert s[..4] == y;
    assert s[4] == '-';
    var rest := s[5..];
    assert rest == Digits2(d.month) + "-" + Digits2(d.day);
    assert IndexOf(rest, '-') == 2 by {
      assert IndexOf(rest[1..], '-') == 1;
    }
    assert rest[..2] == Digits2(d.month);
    assert rest[3..] == Digits2(d.day);
  }

  lemma YearHasFourDigits(y: nat)
    requires 1000 <= y <= 9999
    ensures |NatToString(y)| == 4
  {
    assert NatToString(y) == NatToString(y / 10) + [DigitChar(y % 10)];
    assert NatToString(y / 10) == NatToString(y / 100) + [DigitChar((y / 10) % 10)];
    assert NatToString(y / 100) == NatToString(y / 1000) + [DigitChar((y / 100) % 10)];
  }
}
