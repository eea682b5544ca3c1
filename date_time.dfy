/**
  DateTimeUtil.formatDateTime: a LocalDateTime rendered with the pattern
  "yyyy-MM-dd HH:mm:ss". "yyyy" is the year of era, at least four digits,
  with a '+' in front once it needs more than four (a year before year 1
  counts back from 1 BCE and shows no sign or era); the other fields are
  two zero-padded digits; fractions of a second are not printed.
 */
module DateTime {
  import opened JavaText

  datatype LocalDateTime = LocalDateTime(
    year: int, month: int, day: int, hour: int, minute: int, second: int, nano: int)

  predicate IsLeapYear(y: int) {
    y % 4 == 0 && (y % 100 != 0 || y % 400 == 0)
  }

  function DaysInMonth(y: int, m: int): int {
    if m == 2 then (if IsLeapYear(y) then 29 else 28)
    else if m == 4 || m == 6 || m == 9 || m == 11 then 30
    else 31
  }

  /** The values a LocalDateTime can hold. */
  predicate Valid(dt: LocalDateTime) {
    -999999999 <= dt.year <= 999999999
    && 1 <= dt.month <= 12 && 1 <= dt.day <= DaysInMonth(dt.year, dt.month)
    && 0 <= dt.hour < 24 && 0 <= dt.minute < 60 && 0 <= dt.second < 60
    && 0 <= dt.nano < 1000000000
  }

  /** ChronoField.YEAR_OF_ERA: year 0 is 1 BCE, year -1 is 2 BCE. */
  function YearOfEra(y: int): (yoe: nat)
    ensures yoe >= 1
  {
    if y >= 1 then y else 1 - y
  }

  /** The year field: four digits zero-padded, or a '+' and every digit
      when the value does not fit in four. */
  function YearField(y: int): string {
    var yoe := YearOfEra(y);
    if yoe < 10000 then PaddedDigits(yoe, 4) else "+" + NatToString(yoe)
  }

  /** A separator, then a fixed-width field, then what follows it. */
  function Piece(sep: string, v: nat, w: nat, rest: string): string {
    sep + (PaddedDigits(v, w) + rest)
  }

  /** "-MM-dd HH:mm:ss" */
  function AfterYear(dt: LocalDateTime): string
    requires Valid(dt)
  {
    Piece("-", dt.month, 2, Piece("-", dt.day, 2, Piece(" ", dt.hour, 2,
      Piece(":", dt.minute, 2, Piece(":", dt.second, 2, "")))))
  }

  function FormatDateTime(dt: LocalDateTime): (s: string)
    requires Valid(dt)
    ensures |s| >= 19
    ensures |s| == 19 <==> YearOfEra(dt.year) < 10000
    ensures s[0] == '+' <==> YearOfEra(dt.year) >= 10000
    ensures YearOfEra(dt.year) < 10000 ==> s[..4] == PaddedDigits(YearOfEra(dt.year), 4)
  {
    var yoe := YearOfEra(dt.year);
    assert yoe >= 10000 ==> |NatToString(yoe)| >= 5 by {
      if yoe >= 10000 {
        Pow10Values();
        NatToStringLength(yoe, 4);
      }
    }
    YearField(dt.year) + AfterYear(dt)
  }

  /** Field-by-field order of date-times to the second, which for valid
      date-times is their order in time. */
  predicate EarlierToTheSecond(a: LocalDateTime, b: LocalDateTime) {
    a.year < b.year || (a.year == b.year &&
    (a.month < b.month || (a.month == b.month &&
    (a.day < b.day || (a.day == b.day &&
    (a.hour < b.hour || (a.hour == b.hour &&
    (a.minute < b.minute || (a.minute == b.minute && a.second < b.second)))))))))
  }

  predicate SameSecond(a: LocalDateTime, b: LocalDateTime) {
    a.year == b.year && a.month == b.month && a.day == b.day
    && a.hour == b.hour && a.minute == b.minute && a.second == b.second
  }

  /** Years with a four-digit year of era and no sign. */
  predicate FourDigitYear(dt: LocalDateTime) {
    1 <= dt.year <= 9999
  }

  lemma Pow10Values()
    ensures Pow10(2) == 100 && Pow10(4) == 10000
  {
  }

  /** A piece compares by its field, then by what follows. */
  lemma PieceOrder(sep: string, x: nat, y: nat, w: nat, r1: string, r2: string)
    requires x < Pow10(w) && y < Pow10(w)
    ensures LexLess(Piece(sep, x, w, r1), Piece(sep, y, w, r2)) <==> x < y || (x == y && LexLess(r1, r2))
  {
    LexLessConcat(sep, PaddedDigits(x, w) + r1, sep, PaddedDigits(y, w) + r2);
    LexLessIrreflexive(sep);
    LexLessConcat(PaddedDigits(x, w), r1, PaddedDigits(y, w), r2);
    PaddedDigitsOrder(x, y, w);
    PaddedDigitsInjective(x, y, w);
  }

  lemma {:induction false} AfterYearOrder(a: LocalDateTime, b: LocalDateTime)
    requires Valid(a) && Valid(b) && a.year == b.year
    ensures LexLess(AfterYear(a), AfterYear(b)) <==> EarlierToTheSecond(a, b)
  {
    Pow10Values();
    PieceOrder(":", a.second, b.second, 2, "", "");
    PieceOrder(":", a.minute, b.minute, 2,
      Piece(":", a.second, 2, ""), Piece(":", b.second, 2, ""));
    PieceOrder(" ", a.hour, b.hour, 2,
      Piece(":", a.minute, 2, Piece(":", a.second, 2, "")),
      Piece(":", b.minute, 2, Piece(":", b.second, 2, "")));
    PieceOrder("-", a.day, b.day, 2,
      Piece(" ", a.hour, 2, Piece(":", a.minute, 2, Piece(":", a.second, 2, ""))),
      Piece(" ", b.hour, 2, Piece(":", b.minute, 2, Piece(":", b.second, 2, ""))));
    PieceOrder("-", a.month, b.month, 2,
      Piece("-", a.day, 2, Piece(" ", a.hour, 2, Piece(":", a.minute, 2, Piece(":", a.second, 2, "")))),
      Piece("-", b.day, 2, Piece(" ", b.hour, 2, Piece(":", b.minute, 2, Piece(":", b.second, 2, "")))));
    LexLessIrreflexive("");
  }

  /** For four-digit years, comparing the formatted strings as text
      (String.compareTo) orders them as the date-times are ordered in
      time. */
  lemma {:induction false} FormatOrder(a: LocalDateTime, b: LocalDateTime)
    requires Valid(a) && Valid(b) && FourDigitYear(a) && FourDigitYear(b)
    ensures LexLess(FormatDateTime(a), FormatDateTime(b)) <==> EarlierToTheSecond(a, b)
  {
    Pow10Values();
    LexLessConcat(PaddedDigits(a.year, 4), AfterYear(a), PaddedDigits(b.year, 4), AfterYear(b));
    PaddedDigitsOrder(a.year, b.year, 4);
    PaddedDigitsInjective(a.year, b.year, 4);
    if a.year == b.year {
      AfterYearOrder(a, b);
    }
  }

  /** For four-digit years, two date-times format alike exactly when they
      agree to the second. */
  lemma {:induction false} FormatInjective(a: LocalDateTime, b: LocalDateTime)
    requires Valid(a) && Valid(b) && FourDigitYear(a) && FourDigitYear(b)
    ensures FormatDateTime(a) == FormatDateTime(b) <==> SameSecond(a, b)
  {
    FormatOrder(a, b);
    FormatOrder(b, a);
    LexLessIrreflexive(FormatDateTime(a));
  }

  /** The fraction of a second never shows. */
  lemma NanosDropped(dt: LocalDateTime, nano: int)
    requires Valid(dt) && 0 <= nano < 1000000000
    ensures FormatDateTime(dt.(nano := nano)) == FormatDateTime(dt)
  {
  }

  /** For four-digit years the text is 19 characters, with '-' at 4 and
      7, ' ' at 10 and ':' at 13 and 16, and every other character a
      zero-padded digit of the field it belongs to. */
  lemma {:induction false} FormatShape(dt: LocalDateTime)
    requires Valid(dt) && FourDigitYear(dt)
    ensures var s := FormatDateTime(dt);
      && |s| == 19
      && s[4] == '-' && s[7] == '-' && s[10] == ' ' && s[13] == ':' && s[16] == ':'
      && s[0..4] == PaddedDigits(dt.year, 4)
      && s[5..7] == PaddedDigits(dt.month, 2) && s[8..10] == PaddedDigits(dt.day, 2)
      && s[11..13] == PaddedDigits(dt.hour, 2) && s[14..16] == PaddedDigits(dt.minute, 2)
      && s[17..19] == PaddedDigits(dt.second, 2)
  {
    var s := FormatDateTime(dt);
    var a := AfterYear(dt);
    Pow10Values();
    assert s[0..4] == PaddedDigits(dt.year, 4) && s[4..] == a;
    var r5 := Piece(":", dt.second, 2, "");
    var r4 := Piece(":", dt.minute, 2, r5);
    var r3 := Piece(" ", dt.hour, 2, r4);
    var r2 := Piece("-", dt.day, 2, r3);
    PieceAt(s, 4, "-", dt.month, 2, r2);
    PieceAt(s, 7, "-", dt.day, 2, r3);
    PieceAt(s, 10, " ", dt.hour, 2, r4);
    PieceAt(s, 13, ":", dt.minute, 2, r5);
    PieceAt(s, 16, ":", dt.second, 2, "");
  }

  /** Where a piece sits in the text: its separator at off, its field
      right after, then what follows it. */
  lemma PieceAt(s: string, off: nat, sep: string, v: nat, w: nat, rest: string)
    requires |sep| == 1 && off <= |s| && s[off..] == Piece(sep, v, w, rest)
    ensures |s| == off + 1 + w + |rest|
    ensures s[off] == sep[0] && s[off + 1..off + 1 + w] == PaddedDigits(v, w) && s[off + 1 + w..] == rest
  {
    var p := Piece(sep, v, w, rest);
    var digits := PaddedDigits(v, w);
    assert p[1..] == digits + rest;
    assert p[1..1 + w] == (digits + rest)[..w] == digits;
    assert s[off] == s[off..][0] == p[0];
    assert s[off + 1..off + 1 + w] == s[off..][1..1 + w];
    assert s[off + 1 + w..] == s[off..][1 + w..] == p[1 + w..];
  }

  /** Each field of the text reads back as the value it was formatted
      from. */
  lemma FormatFieldsReadBack(dt: LocalDateTime)
    requires Valid(dt) && FourDigitYear(dt)
    ensures var s := FormatDateTime(dt);
      && |s| == 19
      && DecimalValue(PaddedDigits(dt.year, 4)) == dt.year && s[0..4] == PaddedDigits(dt.year, 4)
      && DecimalValue(PaddedDigits(dt.month, 2)) == dt.month && s[5..7] == PaddedDigits(dt.month, 2)
      && DecimalValue(PaddedDigits(dt.day, 2)) == dt.day && s[8..10] == PaddedDigits(dt.day, 2)
      && DecimalValue(PaddedDigits(dt.hour, 2)) == dt.hour && s[11..13] == PaddedDigits(dt.hour, 2)
      && DecimalValue(PaddedDigits(dt.minute, 2)) == dt.minute && s[14..16] == PaddedDigits(dt.minute, 2)
      && DecimalValue(PaddedDigits(dt.second, 2)) == dt.second && s[17..19] == PaddedDigits(dt.second, 2)
  {
    Pow10Values();
    FormatShape(dt);
    PaddedDigitsValue(dt.year, 4);
    PaddedDigitsValue(dt.month, 2);
    PaddedDigitsValue(dt.day, 2);
    PaddedDigitsValue(dt.hour, 2);
    PaddedDigitsValue(dt.minute, 2);
    PaddedDigitsValue(dt.second, 2);
  }

  /** The era is not printed: year 0 (1 BCE) formats as year 1 does. */
  lemma YearZeroLooksLikeYearOne(dt: LocalDateTime)
    requires Valid(dt) && dt.year == 0 && !(dt.month == 2 && dt.day == 29)
    ensures Valid(dt.(year := 1))
    ensures FormatDateTime(dt) == FormatDateTime(dt.(year := 1))
  {
  }

  /** A year of era past 9999 is printed whole, after a '+'. */
  lemma LongYearsSigned(dt: LocalDateTime)
    requires Valid(dt) && dt.year >= 10000
    ensures FormatDateTime(dt)[0] == '+'
    ensures |FormatDateTime(dt)| > 19
  {
    assert dt.year >= Pow10(4) by { Pow10Values(); }
    NatToStringLength(dt.year, 4);
  }

  /** %d of a number of at least 10^k has more than k digits. */
  lemma {:induction false} NatToStringLength(n: nat, k: nat)
    requires n >= Pow10(k)
    ensures |NatToString(n)| >= k + 1
  {
    if k > 0 {
      NatToStringLength(n / 10, k - 1);
    }
  }
}
