/** Parsing and formatting of the amount and date inputs (lib/validation.ts).
    `Number(text)` and `new Date(text)` are engine-defined conversions and are
    parameters here; `new Date(year, monthIndex, day)` is modelled by the
    calendar arithmetic it performs (proleptic Gregorian, local time). */
module Validation {
  import opened Js

  // ---- parseAmount

  /** What `Number(text)` yields. */
  datatype JsNumber = Finite(value: real) | NaN | PositiveInfinity | NegativeInfinity

  /** `value.replace(/,/g, '')`. */
  function RemoveCommas(s: string): (r: string)
    ensures forall c :: c in r <==> c in s && c != ','
    ensures |r| <= |s|
  {
    if s == [] then []
    else (if s[0] == ',' then [] else [s[0]]) + RemoveCommas(s[1..])
  }

  /** Removing commas from a concatenation removes them from each part. */
  lemma {:induction false} RemoveCommasAppend(a: string, b: string)
    ensures RemoveCommas(a + b) == RemoveCommas(a) + RemoveCommas(b)
  {
    if a == [] {
      assert a + b == b;
    } else {
      assert (a + b)[0] == a[0];
      assert (a + b)[1..] == a[1..] + b;
      RemoveCommasAppend(a[1..], b);
    }
  }

  /** Text without commas is left as it is. */
  lemma {:induction false} RemoveCommasNoComma(s: string)
    requires ',' !in s
    ensures RemoveCommas(s) == s
  {
    if s != [] {
      RemoveCommasNoComma(s[1..]);
    }
  }

  /** The text `parseAmount` hands to `Number`: commas removed, then trimmed. */
  function AmountText(value: string): (r: string)
    ensures ',' !in r && IsTrimmed(r)
    ensures exists i :: IsInnerPart(RemoveCommas(value), r, i)
  {
    Trim(RemoveCommas(value))
  }

  /** `parseAmount`: null for text that is empty once normalised, or whose
      number is not finite or is negative; otherwise that number. */
  function ParseAmount(value: string, number: string -> JsNumber): (r: Option<real>)
    ensures AmountText(value) == "" ==> r == None
    ensures r.Some? ==> r.value >= 0.0 && number(AmountText(value)) == Finite(r.value)
    ensures r.None? ==> AmountText(value) == "" || !number(AmountText(value)).Finite? || number(AmountText(value)).value < 0.0
  {
    var normalized := AmountText(value);
    if normalized == "" then None
    else
      var numberValue := number(normalized);
      if !numberValue.Finite? || numberValue.value < 0.0 then None
      else Some(numberValue.value)
  }

  /** Normalising the normalised text changes nothing more. */
  lemma AmountTextIdempotent(a: string)
    ensures AmountText(AmountText(a)) == AmountText(a)
  {
    RemoveCommasNoComma(AmountText(a));
  }

  /** A comma anywhere in the input makes no difference to the amount. */
  lemma AmountIgnoresCommas(a: string, b: string, number: string -> JsNumber)
    ensures ParseAmount(a + "," + b, number) == ParseAmount(a + b, number)
  {
    assert RemoveCommas(",") == [];
    RemoveCommasAppend(a + ",", b);
    RemoveCommasAppend(a, ",");
    RemoveCommasAppend(a, b);
    assert RemoveCommas(a + "," + b) == RemoveCommas(a + b);
    assert AmountText(a + "," + b) == AmountText(a + b);
  }

  // ---- The calendar

  /** A Date object as its getters see it: invalid (getTime() is NaN), or a local
      calendar day with `month` = getMonth() + 1. */
  datatype JsDate = InvalidDate | LocalDate(year: int, month: int, day: int)

  predicate IsLeapYear(y: int) {
    y % 4 == 0 && (y % 100 != 0 || y % 400 == 0)
  }

  function DaysInMonth(y: int, m: int): (n: int)
    requires 1 <= m <= 12
    ensures 28 <= n <= 31
  {
    if m == 2 then (if IsLeapYear(y) then 29 else 28)
    else if m == 4 || m == 6 || m == 9 || m == 11 then 30
    else 31
  }

  predicate IsCalendarDate(y: int, m: int, d: int) {
    1 <= m <= 12 && 1 <= d <= DaysInMonth(y, m)
  }

  predicate ValidDate(date: JsDate) {
    date.LocalDate? && IsCalendarDate(date.year, date.month, date.day)
  }

  /** The day `d` of month `m` of year `y`, with days before the first or past
      the last of the month carried into the neighbouring months, as the Date
      constructor does. */
  function RollOver(y: int, m: int, d: int): (r: JsDate)
    requires 1 <= m <= 12
    ensures ValidDate(r)
    decreases if d < 1 then 1 - d else 0, d
  {
    if d < 1 then
      var py := if m == 1 then y - 1 else y;
      var pm := if m == 1 then 12 else m - 1;
      RollOver(py, pm, d + DaysInMonth(py, pm))
    else if d > DaysInMonth(y, m) then
      var ny := if m == 12 then y + 1 else y;
      var nm := if m == 12 then 1 else m + 1;
      RollOver(ny, nm, d - DaysInMonth(y, m))
    else LocalDate(y, m, d)
  }

  /** Carrying forward never yields a later day of the month than the one asked for. */
  lemma {:induction false} RollOverDayBound(y: int, m: int, d: int)
    requires 1 <= m <= 12 && d >= 1
    ensures RollOver(y, m, d).day <= d
    decreases d
  {
    if d > DaysInMonth(y, m) {
      var ny := if m == 12 then y + 1 else y;
      var nm := if m == 12 then 1 else m + 1;
      RollOverDayBound(ny, nm, d - DaysInMonth(y, m));
    }
  }

  /** The Date constructor keeps a day exactly when it exists in its month. */
  lemma RollOverKeeps(y: int, m: int, d: int)
    requires 1 <= m <= 12
    ensures RollOver(y, m, d) == LocalDate(y, m, d) <==> IsCalendarDate(y, m, d)
    ensures !IsCalendarDate(y, m, d) ==> RollOver(y, m, d).day != d
  {
    if d > DaysInMonth(y, m) {
      var ny := if m == 12 then y + 1 else y;
      var nm := if m == 12 then 1 else m + 1;
      RollOverDayBound(ny, nm, d - DaysInMonth(y, m));
    }
  }

  /** `new Date(year, monthIndex, day)` in local time: a year in 0..99 means
      1900 + year. */
  function NewDate(year: int, monthIndex: int, day: int): (r: JsDate)
    requires 0 <= monthIndex <= 11
    ensures ValidDate(r)
  {
    var fullYear := if 0 <= year <= 99 then 1900 + year else year;
    RollOver(fullYear, monthIndex + 1, day)
  }

  /** The year, month and day survive the Date constructor exactly when the day
      exists in that month and the year is not one of 0..99, which the
      constructor moves into the 1900s. */
  lemma NewDateKeeps(year: int, month: int, day: int)
    requires 0 <= year && 1 <= month <= 12
    ensures NewDate(year, month - 1, day) == LocalDate(year, month, day) <==> year >= 100 && IsCalendarDate(year, month, day)
  {
    var fullYear := if year <= 99 then 1900 + year else year;
    RollOverKeeps(fullYear, month, day);
  }

  // ---- parseDateInput

  /** `/^(\d{4})-(\d{2})-(\d{2})$/`: four digits, a hyphen, two digits, a
      hyphen, two digits, and nothing else. */
  predicate MatchesDatePattern(t: string) {
    |t| == 10 && t[4] == '-' && t[7] == '-'
    && IsDigit(t[0]) && IsDigit(t[1]) && IsDigit(t[2]) && IsDigit(t[3])
    && IsDigit(t[5]) && IsDigit(t[6]) && IsDigit(t[8]) && IsDigit(t[9])
  }

  function YearField(t: string): nat
    requires MatchesDatePattern(t)
  {
    DigitsValue(t[..4])
  }

  function MonthField(t: string): nat
    requires MatchesDatePattern(t)
  {
    DigitsValue(t[5..7])
  }

  function DayField(t: string): nat
    requires MatchesDatePattern(t)
  {
    DigitsValue(t[8..])
  }

  /** `parseDateInput`: the trimmed text must match the pattern, the month must
      be 1..12 and the date must come back unchanged from the Date constructor.
      So it accepts exactly the existing calendar days of years 100..9999. */
  function ParseDateInput(value: string): (r: Option<JsDate>)
    ensures r.Some? <==>
      && MatchesDatePattern(Trim(value))
      && YearField(Trim(value)) >= 100
      && IsCalendarDate(YearField(Trim(value)), MonthField(Trim(value)), DayField(Trim(value)))
    ensures r.Some? ==> r.value == LocalDate(YearField(Trim(value)), MonthField(Trim(value)), DayField(Trim(value)))
  {
    var t := Trim(value);
    if !MatchesDatePattern(t) then None
    else
      var year := YearField(t);
      var month := MonthField(t);
      var day := DayField(t);
      // Number() of a digit string is always finite.
      if month < 1 || month > 12 then None
      else
        var date := NewDate(year, month - 1, day);
        NewDateKeeps(year, month, day);
        // date.month is getMonth() + 1, so this is getMonth() !== month - 1.
        if date.year != year || date.month != month || date.day != day then None
        else Some(date)
  }

  // ---- formatDateInput

  /** The argument of `formatDateInput`: missing (undefined or null), a Date, or
      a string. */
  datatype DateArg = NoValue | DateObject(date: JsDate) | DateText(text: string)

  /** `y` is how `String` writes the natural number `n`: digits, no leading zero. */
  predicate WritesNat(y: string, n: int) {
    && y != [] && (forall i :: 0 <= i < |y| ==> IsDigit(y[i]))
    && (|y| > 1 ==> y[0] != '0')
    && DigitsValue(y) == n
  }

  /** `y` is how `String` writes the integer `year`. */
  predicate WritesYear(y: string, year: int) {
    if year >= 0 then WritesNat(y, year) else y != [] && y[0] == '-' && WritesNat(y[1..], -year)
  }

  /** `r` ends in `-MM-dd`: two two-digit fields whose values are `month` and
      `day`, after the year part `r[..|r| - 6]`. */
  predicate EndsInMonthDay(r: string, month: int, day: int) {
    && |r| >= 6 && r[|r| - 6] == '-' && r[|r| - 3] == '-'
    && TwoDigits(r[|r| - 5..|r| - 3], month)
    && TwoDigits(r[|r| - 2..], day)
  }

  /** Two digits whose value is `n`. */
  predicate TwoDigits(f: string, n: int) {
    |f| == 2 && IsDigit(f[0]) && IsDigit(f[1]) && DigitsValue(f) == n
  }

  /** The `year-MM-dd` text of a Date: the year as `String` writes it, month and
      day padded to two digits. */
  function FormatDate(date: JsDate): (r: string)
    ensures date.InvalidDate? ==> r == ""
    ensures ValidDate(date) ==> EndsInMonthDay(r, date.month, date.day) && WritesYear(r[..|r| - 6], date.year)
    ensures ValidDate(date) && 1000 <= date.year <= 9999 ==>
      MatchesDatePattern(r) && LocalDate(YearField(r), MonthField(r), DayField(r)) == date
  {
    if date.InvalidDate? then ""
    else
      var r := IntToString(date.year) + "-" + PadStart2(IntToString(date.month)) + "-" + PadStart2(IntToString(date.day));
      if ValidDate(date) then
        FormatParts(date);
        if 1000 <= date.year <= 9999 then
          FormatFields(date);
          r
        else r
      else r
  }

  /** `formatDateInput`: "" for a missing value, for the empty string and for an
      invalid date; a string is first read by the engine's `new Date(text)`. */
  function FormatDateInput(value: DateArg, parseText: string -> JsDate): (r: string)
    ensures value.NoValue? || value == DateText("") ==> r == ""
    ensures value.DateObject? ==> r == FormatDate(value.date)
    ensures value.DateText? && value.text != "" ==> r == FormatDate(parseText(value.text))
  {
    match value
    case NoValue => ""
    case DateText(text) => if text == "" then "" else FormatDate(parseText(text))
    case DateObject(date) => FormatDate(date)
  }

  // ---- Round trips between the two

  /** Formatting a date parsed from a text with a four-digit year at least 1000
      gives back the trimmed text. */
  lemma FormatAfterParse(value: string)
    requires ParseDateInput(value).Some?
    requires Trim(value)[0] != '0'
    ensures FormatDateInput(DateObject(ParseDateInput(value).value), (s: string) => InvalidDate) == Trim(value)
  {
    FormatOfPattern(Trim(value));
  }

  /** A text of the pattern with no leading zero in its year is the text of the
      date it names. */
  lemma FormatOfPattern(t: string)
    requires MatchesDatePattern(t) && t[0] != '0'
    ensures FormatDate(LocalDate(YearField(t), MonthField(t), DayField(t))) == t
  {
    DigitsRoundTrip(t[..4]);
    TwoDigitsRoundTrip(t[5..7]);
    TwoDigitsRoundTrip(t[8..]);
    var y := IntToString(YearField(t));
    var m := PadStart2(IntToString(MonthField(t)));
    var d := PadStart2(IntToString(DayField(t)));
    assert y == t[..4] && m == t[5..7] && d == t[8..];
    assert t == t[..4] + "-" + t[5..7] + "-" + t[8..];
    assert FormatDate(LocalDate(YearField(t), MonthField(t), DayField(t))) == y + "-" + m + "-" + d;
  }

  /** Parsing the text of an existing date with a year in 1000..9999 gives the
      date back. */
  lemma ParseAfterFormat(date: JsDate)
    requires ValidDate(date) && 1000 <= date.year <= 9999
    ensures ParseDateInput(FormatDateInput(DateObject(date), (s: string) => InvalidDate)) == Some(date)
  {
    var t := FormatDate(date);
    assert MatchesDatePattern(t) && LocalDate(YearField(t), MonthField(t), DayField(t)) == date;
    ParseOfPattern(t);
  }

  /** A text of the pattern naming an existing day of a year from 100 on parses
      to that day. */
  lemma ParseOfPattern(t: string)
    requires MatchesDatePattern(t) && YearField(t) >= 100
    requires IsCalendarDate(YearField(t), MonthField(t), DayField(t))
    ensures ParseDateInput(t) == Some(LocalDate(YearField(t), MonthField(t), DayField(t)))
  {
    PatternIsTrimmed(t);
    var r := ParseDateInput(t);
    assert r.Some?;
  }

  /** A text of the pattern starts and ends with a digit, so trimming keeps it. */
  lemma PatternIsTrimmed(t: string)
    requires MatchesDatePattern(t)
    ensures Trim(t) == t
  {
    assert IsDigit(t[0]) && IsDigit(t[9]);
    assert IsTrimmed(t);
  }

  // ---- Digit strings

  lemma {:induction false} DigitsValuePositive(t: string)
    requires t != [] && forall i :: 0 <= i < |t| ==> IsDigit(t[i])
    requires t[0] != '0'
    ensures DigitsValue(t) >= 1
  {
    if |t| > 1 {
      DigitsValuePositive(t[..|t| - 1]);
    }
  }

  /** A digit string without a leading zero is how `String` writes its value. */
  lemma {:induction false} DigitsRoundTrip(t: string)
    requires t != [] && forall i :: 0 <= i < |t| ==> IsDigit(t[i])
    requires |t| > 1 ==> t[0] != '0'
    ensures NatToString(DigitsValue(t)) == t
    ensures IntToString(DigitsValue(t)) == t
  {
    if |t| == 1 {
      SingleDigitRoundTrip(t);
    } else {
      var init := t[..|t| - 1];
      DigitsValuePositive(init);
      DigitsRoundTrip(init);
      DigitsStep(t, init);
    }
  }

  /** One digit is written as itself. */
  lemma SingleDigitRoundTrip(t: string)
    requires |t| == 1 && IsDigit(t[0])
    ensures NatToString(DigitsValue(t)) == t
  {
    var d := t[0] as int - '0' as int;
    assert t[..0] == [];
    assert DigitsValue(t) == d;
    assert DigitChar(d) == t[0];
    assert t == [t[0]];
  }

  /** Writing a digit string whose front is already written as itself: the last
      digit is the remainder by ten, the front the quotient. */
  lemma DigitsStep(t: string, init: string)
    requires |t| > 1 && forall i :: 0 <= i < |t| ==> IsDigit(t[i])
    requires init == t[..|t| - 1]
    requires DigitsValue(init) >= 1 && NatToString(DigitsValue(init)) == init
    ensures NatToString(DigitsValue(t)) == t
  {
    var v := DigitsValue(init);
    var d := t[|t| - 1] as int - '0' as int;
    assert DigitsValue(t) == v * 10 + d;
    DivModTen(v, d);
    assert DigitChar(d) == t[|t| - 1];
    assert t == init + [t[|t| - 1]];
  }

  lemma DivModTen(v: nat, d: int)
    requires v >= 1 && 0 <= d < 10
    ensures v * 10 + d >= 10 && (v * 10 + d) / 10 == v && (v * 10 + d) % 10 == d
  {
  }

  /** Two digits are how `padStart(2, '0')` writes their value. */
  lemma TwoDigitsRoundTrip(t: string)
    requires |t| == 2 && IsDigit(t[0]) && IsDigit(t[1])
    ensures PadStart2(IntToString(DigitsValue(t))) == t
  {
    if t[0] == '0' {
      DigitsRoundTrip(t[1..]);
      assert DigitsValue(t) == DigitsValue(t[1..]) by {
        assert t[..1] == "0";
      }
      assert t == "0" + t[1..];
    } else {
      DigitsRoundTrip(t);
    }
  }

  /** The fields of a formatted date read back as the date. */
  lemma FormatFields(date: JsDate)
    requires ValidDate(date) && 1000 <= date.year <= 9999
    ensures var r := IntToString(date.year) + "-" + PadStart2(IntToString(date.month)) + "-" + PadStart2(IntToString(date.day));
      MatchesDatePattern(r) && LocalDate(YearField(r), MonthField(r), DayField(r)) == date
  {
    var y := NatToString(date.year);
    FourDigits(date.year);
    var m := PadStart2(NatToString(date.month));
    var d := PadStart2(NatToString(date.day));
    PaddedValue(date.month);
    PaddedValue(date.day);
    var r := y + "-" + m + "-" + d;
    assert r[..4] == y;
    assert r[5..7] == m;
    assert r[8..] == d;
  }

  /** Every valid date is written as its year, then two-digit month and day. */
  lemma FormatParts(date: JsDate)
    requires ValidDate(date)
    ensures var r := IntToString(date.year) + "-" + PadStart2(IntToString(date.month)) + "-" + PadStart2(IntToString(date.day));
      EndsInMonthDay(r, date.month, date.day) && WritesYear(r[..|r| - 6], date.year)
  {
    PaddedValue(date.month);
    PaddedValue(date.day);
    YearWritten(date.year);
    JoinedParts(IntToString(date.year), PadStart2(NatToString(date.month)), PadStart2(NatToString(date.day)), date.month, date.day);
  }

  /** `String(year)` writes the year. */
  lemma YearWritten(year: int)
    ensures WritesYear(IntToString(year), year)
  {
    if year < 0 {
      assert IntToString(year)[1..] == NatToString(-year);
    }
  }

  /** Joining a year part and two two-digit fields with hyphens. */
  lemma JoinedParts(y: string, m: string, d: string, month: int, day: int)
    requires TwoDigits(m, month) && TwoDigits(d, day)
    ensures var r := y + "-" + m + "-" + d;
      EndsInMonthDay(r, month, day) && r[..|r| - 6] == y
  {
    var r := y + "-" + m + "-" + d;
    assert r[|r| - 5..|r| - 3] == m;
    assert r[|r| - 2..] == d;
    assert r[..|r| - 6] == y;
  }

  lemma FourDigits(n: nat)
    requires 1000 <= n <= 9999
    ensures |NatToString(n)| == 4
  {
    var a := n / 10;
    var b := a / 10;
    var c := b / 10;
    assert 100 <= a <= 999 && 10 <= b <= 99 && 1 <= c <= 9;
    assert |NatToString(c)| == 1;
    assert |NatToString(b)| == |NatToString(c)| + 1;
    assert |NatToString(a)| == |NatToString(b)| + 1;
    assert |NatToString(n)| == |NatToString(a)| + 1;
  }

  lemma PaddedValue(n: nat)
    requires 1 <= n <= 99
    ensures |PadStart2(NatToString(n))| == 2
    ensures forall i :: 0 <= i < 2 ==> IsDigit(PadStart2(NatToString(n))[i])
    ensures DigitsValue(PadStart2(NatToString(n))) == n
  {
    var s := NatToString(n);
    if n < 10 {
      var p := PadStart2(s);
      assert p == "0" + s;
      assert p[..1] == "0";
    } else {
      assert |NatToString(n / 10)| == 1;
    }
  }
}
