/**
  The date property of PyQSO's calendar dialog (pyqso/calendar.py): it takes
  the (year, month, day) triple the calendar widget reports, with the month
  counted from 0, and writes the date as the digits YYYYMMDD that an ADIF
  record's date field expects.

  The widget call itself is not modelled; its three numbers are the
  parameters of `FormatDate`. `ParseDate` is an independent reader of the
  YYYYMMDD shape, and the lemmas prove that the two are inverse on the dates
  the widget can show with a four-digit year.
 */
module Calendar {
  import opened Decimal

  datatype Option<T> = None | Some(value: T)

  /** What the calendar widget reports: the month counts from 0 (January),
      the day from 1, and nothing checks the day against the month. */
  datatype WidgetDate = WidgetDate(year: nat, month: nat, day: nat)

  /** A date whose YYYYMMDD form has exactly eight digits: a four-digit year,
      a 0-based month of the year, and a day that fits in two digits as a
      day of a month does. Days per month and leap years are not checked,
      just as the formatter does not check them. */
  predicate InRange(d: WidgetDate) {
    1000 <= d.year <= 9999 && d.month <= 11 && d.day <= 31
  }

  /** A number written with a leading "0" when it is below 10, otherwise as
      `str()` writes it. This is the shape of both padding branches of the
      formatter; a number of 100 or more is not cut down. */
  function Pad2(n: nat): (r: string)
    ensures |r| >= 2 && AllDigits(r)
    ensures Value(r) == n
    ensures r[0] == '0' <==> n < 10
    ensures |r| == 2 <==> n < 100
  {
    ShowLength(n);
    ValueOfShow(n);
    if n < 10 then
      var s := Show(n);
      assert Value("0" + s) == Value(s) by {
        assert ("0" + s)[..1] == "0";
      }
      "0" + s
    else
      Show(n)
  }

  /** Every two-digit string, leading zero or not, is what `Pad2` writes for
      its value: the padding loses no information below 100. */
  lemma Pad2OfValue(t: string)
    requires |t| == 2 && AllDigits(t)
    ensures Pad2(Value(t)) == t
  {
    var v := Value(t);
    assert t[..1] == [t[0]] && t[..1][..0] == [];
    assert Value(t[..1]) == CharValue(t[0]);
    assert v == 10 * CharValue(t[0]) + CharValue(t[1]);
    if t[0] == '0' {
      assert v < 10;
      assert Show(v) == [t[1]];
      assert t == "0" + [t[1]];
    } else {
      ShowOfValue(t);
    }
  }

  /** The month text: the widget's 0-based month turned into the 1-based
      month number, padded to two characters when it is below 10. */
  function MonthField(month0: nat): (r: string)
    ensures |r| >= 2 && AllDigits(r)
    ensures Value(r) == month0 + 1
    ensures r[0] == '0' <==> month0 + 1 < 10
    ensures month0 <= 11 ==> |r| == 2
  {
    Pad2(month0 + 1)
  }

  /** The day text: the day of the month, padded to two characters when it
      is below 10. */
  function DayField(day: nat): (r: string)
    ensures |r| >= 2 && AllDigits(r)
    ensures Value(r) == day
    ensures r[0] == '0' <==> day < 10
    ensures day <= 31 ==> |r| == 2
  {
    Pad2(day)
  }

  /** The date text of the calendar dialog: the year as `str()` writes it,
      with no padding, then the month text, then the day text, with nothing
      between them. */
  function FormatDate(year: nat, month0: nat, day: nat): (r: string)
    ensures AllDigits(r)
    ensures |r| == |Show(year)| + |MonthField(month0)| + |DayField(day)|
    ensures r[..|Show(year)|] == Show(year)
    ensures r[|Show(year)|..|Show(year)| + |MonthField(month0)|] == MonthField(month0)
    ensures r[|r| - |DayField(day)|..] == DayField(day)
  {
    Show(year) + MonthField(month0) + DayField(day)
  }

  /** Reads an eight-digit YYYYMMDD string back into the widget's triple.
      It accepts a year without a leading zero, a month from 01 to 12 and a
      day from 00 to 31, and answers `None` for anything else. */
  function ParseDate(s: string): (r: Option<WidgetDate>)
    ensures r.Some? ==> InRange(r.value)
  {
    if |s| == 8 && AllDigits(s) && s[0] != '0' then
      var y := Field(s, 0, 4);
      var m := Field(s, 4, 6);
      var d := Field(s, 6, 8);
      ShowLength(y);
      ShowOfValue(s[..4]);
      if 1 <= m <= 12 && d <= 31 then Some(WidgetDate(y, m - 1, d)) else None
    else
      None
  }

  /** The value of the digits `s[i..j]`. */
  function Field(s: string, i: nat, j: nat): (v: nat)
    requires AllDigits(s) && i <= j <= |s|
    ensures AllDigits(s[i..j]) && v == Value(s[i..j])
  {
    var t := s[i..j];
    assert AllDigits(t) by {
      forall k | 0 <= k < |t| ensures IsDigit(t[k]) {
        assert t[k] == s[i + k];
      }
    }
    Value(t)
  }

  /** Below 100, `Pad2` writes the tens digit and then the units digit. */
  lemma TwoDigits(n: nat)
    requires n < 100
    ensures Pad2(n) == [DigitChar(n / 10), DigitChar(n % 10)]
  {
    if n >= 10 {
      var s := Show(n);
      assert s[..1] == Show(n / 10);
    }
  }

  /** The YYYYMMDD promise: for a date in range the text is eight decimal
      digits, and its three fields read back as the year, the 1-based month
      and the day. */
  lemma FormatDateFields(year: nat, month0: nat, day: nat)
    requires InRange(WidgetDate(year, month0, day))
    ensures var r := FormatDate(year, month0, day);
      |r| == 8 && AllDigits(r) &&
      AllDigits(r[..4]) && Value(r[..4]) == year &&
      AllDigits(r[4..6]) && Value(r[4..6]) == month0 + 1 &&
      AllDigits(r[6..8]) && Value(r[6..8]) == day
  {
    ShowLength(year);
    ValueOfShow(year);
    var r := FormatDate(year, month0, day);
    assert r[6..8] == r[6..] == DayField(day);
  }

  /** Because the year is not padded, the text has eight characters exactly
      when the year has four digits; in general it is the year's digits plus
      four. */
  lemma FormatDateLength(year: nat, month0: nat, day: nat)
    requires month0 <= 11 && day <= 31
    ensures |FormatDate(year, month0, day)| == |Show(year)| + 4
    ensures |FormatDate(year, month0, day)| == 8 <==> 1000 <= year <= 9999
  {
    ShowLength(year);
  }

  /** A year below 1000 gives a text shorter than eight characters, short by
      exactly the digits the year lacks: the formatter does not pad it. */
  lemma ShortYear(year: nat, month0: nat, day: nat)
    requires year < 1000 && month0 <= 11 && day <= 31
    ensures |FormatDate(year, month0, day)| < 8
    ensures 8 - |FormatDate(year, month0, day)| == 4 - |Show(year)|
  {
    ShowLengthBound(year, 3);
  }

  /** Reading the text of a date in range gives the date back. */
  lemma ParseFormat(d: WidgetDate)
    requires InRange(d)
    ensures ParseDate(FormatDate(d.year, d.month, d.day)) == Some(d)
  {
    var r := FormatDate(d.year, d.month, d.day);
    FormatDateFields(d.year, d.month, d.day);
    ShowLength(d.year);
    assert r[0] == Show(d.year)[0];
  }

  /** Every string the reader accepts is the text of the date it reads. */
  lemma FormatParse(s: string)
    requires ParseDate(s).Some?
    ensures var d := ParseDate(s).value;
      FormatDate(d.year, d.month, d.day) == s
  {
    var d := ParseDate(s).value;
    ShowOfValue(s[..4]);
    Pad2OfValue(s[4..6]);
    Pad2OfValue(s[6..8]);
    assert s == s[..4] + s[4..6] + s[6..8];
  }
}
