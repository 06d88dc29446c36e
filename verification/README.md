# PyQSO calendar date formatter, in Dafny

PyQSO is an amateur-radio logbook. When a contact record is edited, a small
calendar dialog lets the operator pick a date; the dialog's `date` property
turns the calendar widget's `(year, month, day)` triple into the `YYYYMMDD`
text that the ADIF date field expects. This project models that property and
proves what its text looks like and that the text can be read back.

The formatter does three things, all modelled in `Calendar.FormatDate`:

- it turns the widget's 0-based month into the 1-based month number;
- it puts a `"0"` in front of the month and the day when they are below 10;
- it joins `str(year)`, the month text and the day text, with no separators.

The year is written with `str(year)` and is never padded. The model keeps that:
the text has eight characters only when the year has four digits, and a year
below 1000 gives a shorter text.

Files:

- `decimal.dfy`, module `Decimal`: Python's `str()` on a non-negative int
  (`Show`), an independent reader of digit strings (`Value`), and the lemmas
  that make them inverse to each other, plus the digit-count bounds.
- `calendar.dfy`, module `Calendar`: the widget's triple (`WidgetDate`), the
  two padding branches (`Pad2`, `MonthField`, `DayField`), the formatter
  (`FormatDate`), a reader of the `YYYYMMDD` shape (`ParseDate`) and the
  lemmas about them.

## Model

| member | source | states |
|---|---|---|
| Decimal.Show | pyqso/calendar.py:59 | `str(n)` of a non-negative int is at least one decimal digit with no leading zero, and starts with "0" exactly when n is 0 |
| Decimal.Value | pyqso/calendar.py:59 | the number a digit string stands for is below 10 to the power of its length |
| Decimal.ValueOfShow | pyqso/calendar.py:59 | reading the digits `str(n)` writes gives n back |
| Decimal.ShowOfValue | pyqso/calendar.py:59 | every canonical digit string is `str()` of its own value, so `str()` is one-to-one onto canonical strings |
| Decimal.ShowLengthBound | pyqso/calendar.py:59 | `str(n)` has at most k digits exactly when n is below 10 to the power k |
| Decimal.ShowLength | pyqso/calendar.py:53-59 | `str(n)` has one digit exactly below 10, two exactly from 10 to 99, four exactly from 1000 to 9999 |
| Calendar.Pad2 | pyqso/calendar.py:53-58 | the padded text is all digits, at least two of them, reads back as n, starts with "0" exactly when n is below 10, and is exactly two characters exactly when n is below 100 |
| Calendar.Pad2OfValue | pyqso/calendar.py:53-58 | every two-digit string is the padded text of its own value, so padding loses nothing below 100 |
| Calendar.TwoDigits | pyqso/calendar.py:53-58 | below 100 (so for months 0 to 11 and days 0 to 31) the padded text is exactly the tens digit followed by the units digit |
| Calendar.MonthField | pyqso/calendar.py:53-56 | the month text reads back as the 0-based month plus one, has a leading "0" exactly when that number is below 10, and has two characters for months 0 to 11 |
| Calendar.DayField | pyqso/calendar.py:57-58 | the day text reads back as the day, has a leading "0" exactly when the day is below 10, and has two characters for days up to 31 |
| Calendar.FormatDate | pyqso/calendar.py:59 | the date text is all digits and is the unpadded year text, then the month text, then the day text, in that order with nothing between them |
| Calendar.FormatDateFields | pyqso/calendar.py:43-60 | for a four-digit year, months 0 to 11 and days 0 to 31 the text is eight digits whose characters 0-3 read as the year, 4-5 as the month plus one and 6-7 as the day |
| Calendar.FormatDateLength | pyqso/calendar.py:59 | for months 0 to 11 and days 0 to 31 the text is the year's digit count plus four long, and is eight long exactly when the year has four digits |
| Calendar.ShortYear | pyqso/calendar.py:59 | a year below 1000 is not padded: the text is shorter than eight characters by the number of digits the year lacks |
| Calendar.ParseDate | pyqso/calendar.py:26 | a string read as a `YYYYMMDD` date yields only a four-digit year, a month 0 to 11 and a day up to 31 |
| Calendar.ParseFormat | pyqso/calendar.py:51-59 | reading the text of any date with a four-digit year, month 0 to 11 and day up to 31 gives that date back |
| Calendar.FormatParse | pyqso/calendar.py:51-59 | every string the reader accepts is exactly the text the formatter writes for the date read from it |

## Left out

- `Calendar.__init__` (pyqso/calendar.py:28-41): loading the UI-definition file, looking up the widgets and showing the dialog are GUI toolkit calls with no logic of their own.
- The widget call `get_date()` (pyqso/calendar.py:51) is not modelled; the three numbers it returns are the parameters of `FormatDate`. They are `nat` because the toolkit reports unsigned integers, so Python's `str()` of a negative number is not modelled.
- The debug logging calls are output only and are left out.
- Calendar validity (days per month, leap years) is neither checked by the formatter nor assumed by the model; the bounds "day up to 31" and "month 0 to 11" are only the ranges in which the fields are two characters wide.
- The reader `ParseDate` has no counterpart in the source: it is a reference reader of the `YYYYMMDD` shape, written so that the formatter's output can be checked against it.
