/** Decimal text: Python's str(int), the decimal-integer subset of
    int(float(s)), and the nullable coercion `safe_int` that both scripts
    define identically. */
module Numbers {
  import opened Text

  predicate IsDigit(c: char) {
    '0' <= c <= '9'
  }

  predicate AllDigits(s: string) {
    forall k :: 0 <= k < |s| ==> IsDigit(s[k])
  }

  function DigitValue(c: char): nat
    requires IsDigit(c)
  {
    c as int - '0' as int
  }

  function DigitChar(d: nat): (c: char)
    requires d < 10
    ensures IsDigit(c) && DigitValue(c) == d
  {
    ('0' as int + d) as char
  }

  /** The value of a string of decimal digits (leading zeros allowed). */
  function ValueOf(s: string): nat
    requires AllDigits(s)
  {
    if s == [] then 0 else ValueOf(s[..|s| - 1]) * 10 + DigitValue(s[|s| - 1])
  }

  /** str(n) for n >= 0: no leading zero unless n is 0. */
  function NatToString(n: nat): (r: string)
    ensures r != [] && AllDigits(r)
    ensures |r| > 1 ==> r[0] != '0'
  {
    if n < 10 then [DigitChar(n)] else NatToString(n / 10) + [DigitChar(n % 10)]
  }

  /** str(i): a minus sign before the digits of a negative number. */
  function IntToString(i: int): string {
    if i < 0 then "-" + NatToString(-i) else NatToString(i)
  }

  lemma {:induction false} NatToStringValue(n: nat)
    ensures ValueOf(NatToString(n)) == n
  {
    if n >= 10 {
      NatToStringValue(n / 10);
      var s := NatToString(n);
      assert s[..|s| - 1] == NatToString(n / 10);
    }
  }

  /** A digit string with no redundant leading zero is str() of its value. */
  lemma {:induction false} NatToStringOfValue(s: string)
    requires s != [] && AllDigits(s) && (|s| > 1 ==> s[0] != '0')
    ensures NatToString(ValueOf(s)) == s
    decreases |s|
  {
    if |s| > 1 {
      var init := s[..|s| - 1];
      assert init[0] == s[0];
      NatToStringOfValue(init);
      ValueOfPositive(init);
      assert s == init + [s[|s| - 1]];
    } else {
      assert s[..0] == [];
    }
  }

  lemma {:induction false} ValueOfPositive(s: string)
    requires s != [] && AllDigits(s) && s[0] != '0'
    ensures ValueOf(s) >= 1
    decreases |s|
  {
    if |s| > 1 {
      var init := s[..|s| - 1];
      assert init[0] == s[0];
      ValueOfPositive(init);
    } else {
      assert s[..0] == [];
    }
  }

  /** Appending one digit multiplies the value by ten and adds the digit. */
  lemma ValueOfSnoc(a: string, c: char)
    requires AllDigits(a) && IsDigit(c)
    ensures AllDigits(a + [c])
    ensures ValueOf(a + [c]) == ValueOf(a) * 10 + DigitValue(c)
  {
    assert (a + [c])[..|a|] == a;
  }

  function Pow10(k: nat): (r: nat)
    ensures r >= 1
  {
    if k == 0 then 1 else 10 * Pow10(k - 1)
  }

  /** k digits never exceed 10^k - 1. */
  lemma {:induction false} ValueOfBound(s: string)
    requires AllDigits(s)
    ensures ValueOf(s) < Pow10(|s|)
    decreases |s|
  {
    if s != [] {
      ValueOfBound(s[..|s| - 1]);
    }
  }

  /** A two-character zero-padded rendering of n, as strftime's %m and %d. */
  function Digits2(n: nat): (r: string)
    requires n < 100
    ensures |r| == 2 && AllDigits(r) && ValueOf(r) == n
  {
    var r := [DigitChar(n / 10), DigitChar(n % 10)];
    ValueOfTwo(r);
    r
  }

  /** Any two decimal digits are the padded rendering of their value. */
  lemma Digits2OfValue(s: string)
    requires |s| == 2 && AllDigits(s)
    ensures ValueOf(s) < 100 && Digits2(ValueOf(s)) == s
  {
    ValueOfTwo(s);
  }

  lemma ValueOfTwo(s: string)
    requires |s| == 2 && AllDigits(s)
    ensures ValueOf(s) == DigitValue(s[0]) * 10 + DigitValue(s[1])
  {
    ValueOfSnoc([], s[0]);
    ValueOfSnoc([s[0]], s[1]);
    assert s == [s[0]] + [s[1]];
  }

  /** Python's s[-2:]: the last two characters, or all of a shorter s. */
  function LastTwo(s: string): (r: string)
    ensures |r| == if |s| < 2 then |s| else 2
    ensures s == s[..|s| - |r|] + r
  {
    if |s| < 2 then s else s[|s| - 2..]
  }

  /** The text a float-valued column receives before safe_float rounds it
      (the float parse and the rounding are not modelled). */
  type RawFloat = Option<string>

  /** 2^53: below this magnitude every integer is exact as a double, so the
      float round trip in int(float(s)) cannot change a decimal integer. */
  const ExactFloatBound: int := 0x20_0000_0000_0000

  /** The decimal-integer part of int(float(t)) on stripped text t: an
      optional sign and one or more ASCII digits. */
  function ParseDecimal(t: string): (r: Option<int>)
    ensures r.Some? ==> -ExactFloatBound < r.value < ExactFloatBound
  {
    var negative := |t| > 0 && t[0] == '-';
    var digits := if |t| > 0 && (t[0] == '-' || t[0] == '+') then t[1..] else t;
    if digits != [] && AllDigits(digits) && ValueOf(digits) < ExactFloatBound then
      Some(if negative then -(ValueOf(digits) as int) else ValueOf(digits))
    else None
  }

  /** safe_int: None, empty or whitespace-only text is absent; signed
      decimal-integer text is its integer. */
  function SafeInt(val: Option<string>): (r: Option<int>)
    ensures val.None? ==> r.None?
    ensures val.Some? && AllSpace(val.value) ==> r.None?
    ensures r.Some? ==> -ExactFloatBound < r.value < ExactFloatBound
  {
    match val
    case None => None
    case Some(s) =>
      StripEmptyIffBlank(s);
      var t := Strip(s);
      if t == "" then None else ParseDecimal(t)
  }

  /** safe_int reads back str(n) for every n within the exact range, also
      with whitespace around it. */
  lemma SafeIntOfDecimal(n: int, lead: string, trail: string)
    requires -ExactFloatBound < n < ExactFloatBound
    requires AllSpace(lead) && AllSpace(trail)
    ensures SafeInt(Some(lead + IntToString(n) + trail)) == Some(n)
  {
    var text := IntToString(n);
    ParseDecimalOfIntToString(n);
    assert !IsSpace(text[0]) && !IsSpace(text[|text| - 1]);
    StripAround(lead, text, trail);
  }

  /** safe_int reads any optionally signed run of digits below 2^53, with
      whitespace around it: "+12", "-3", "007". */
  lemma SafeIntOfSignedDigits(lead: string, sign: string, digits: string, trail: string)
    requires AllSpace(lead) && AllSpace(trail)
    requires sign == "" || sign == "+" || sign == "-"
    requires digits != [] && AllDigits(digits) && ValueOf(digits) < ExactFloatBound
    ensures SafeInt(Some(lead + sign + digits + trail)) ==
              Some(if sign == "-" then -(ValueOf(digits) as int) else ValueOf(digits))
  {
    var text := sign + digits;
    SignedEdges(sign, digits);
    AppendAssoc(lead, sign, digits);
    StripAround(lead, text, trail);
    ParseDecimalOfSigned(sign, digits);
  }

  lemma SignedEdges(sign: string, digits: string)
    requires sign == "" || sign == "+" || sign == "-"
    requires digits != [] && IsDigit(digits[0]) && IsDigit(digits[|digits| - 1])
    ensures var text := sign + digits;
            text != [] && !IsSpace(text[0]) && !IsSpace(text[|text| - 1])
  {
    var text := sign + digits;
    assert text[|text| - 1] == digits[|digits| - 1];
    if sign == "" {
      assert text[0] == digits[0];
    }
  }

  lemma ParseDecimalOfSigned(sign: string, digits: string)
    requires sign == "" || sign == "+" || sign == "-"
    requires digits != [] && AllDigits(digits) && ValueOf(digits) < ExactFloatBound
    ensures ParseDecimal(sign + digits) ==
              Some(if sign == "-" then -(ValueOf(digits) as int) else ValueOf(digits))
  {
    var text := sign + digits;
    if sign == "" {
      assert text == digits;
      assert IsDigit(text[0]);
    } else {
      assert text[0] == sign[0];
      assert text[1..] == digits;
    }
  }

  lemma ParseDecimalOfIntToString(n: int)
    requires -ExactFloatBound < n < ExactFloatBound
    ensures ParseDecimal(IntToString(n)) == Some(n)
  {
    var m: nat := if n < 0 then -n else n;
    NatToStringValue(m);
    if n < 0 {
      assert ("-" + NatToString(m))[1..] == NatToString(m);
    }
  }

  /** Whitespace around a text without edge whitespace is what strip removes. */
  lemma {:induction false} StripAround(lead: string, text: string, trail: string)
    requires AllSpace(lead) && AllSpace(trail)
    requires text != [] && !IsSpace(text[0]) && !IsSpace(text[|text| - 1])
    ensures Strip(lead + text + trail) == text
  {
    LeftOfText(lead, text + trail);
    assert lead + text + trail == lead + (text + trail);
    RightOfText(text, trail);
  }

  lemma {:induction false} LeftOfText(lead: string, rest: string)
    requires AllSpace(lead) && rest != [] && !IsSpace(rest[0])
    ensures TrimLeft(lead + rest) == rest
    decreases |lead|
  {
    if lead != [] {
      assert (lead + rest)[1..] == lead[1..] + rest;
      LeftOfText(lead[1..], rest);
    } else {
      assert lead + rest == rest;
    }
  }

  lemma {:induction false} RightOfText(text: string, trail: string)
    requires AllSpace(trail) && text != [] && !IsSpace(text[|text| - 1])
    ensures TrimRight(text + trail) == text
    decreases |trail|
  {
    if trail != [] {
      var t' := trail[..|trail| - 1];
      assert (text + trail)[..|text + trail| - 1] == text + t';
      RightOfText(text, t');
    } else {
      assert text + trail == text;
    }
  }

  /** ASCII punctuation that float() accepts nowhere in its input: every
      printable non-alphanumeric character except ".", "+", "-" and "_". */
  predicate IsForeignPunctuation(c: char) {
    c in ",:;!?\"#$%&'()*/<=>@[\\]^`{|}~"
  }

  /** Text holding such a character ("19,156", "Attendance:19156") is
      absent: the source's float() raises ValueError on it. */
  lemma SafeIntRejectsPunctuation(s: string, k: nat)
    requires k < |s| && IsForeignPunctuation(s[k])
    ensures SafeInt(Some(s)) == None
  {
    var c := s[k];
    assert !IsDigit(c) && !IsSpace(c) && c != '-' && c != '+';
    StripKeeps(s, k);
    var t := Strip(s);
    var m :| 0 <= m < |t| && t[m] == c;
    ParseDecimalRejects(t, m);
  }

  /** Text with a character other than a digit, or a sign anywhere but in
      front, is no decimal integer. */
  lemma ParseDecimalRejects(t: string, k: nat)
    requires k < |t| && !IsDigit(t[k]) && (k == 0 ==> t[k] != '-' && t[k] != '+')
    ensures ParseDecimal(t) == None
  {
    if t[0] == '-' || t[0] == '+' {
      assert t[1..][k - 1] == t[k];
    }
  }
}
