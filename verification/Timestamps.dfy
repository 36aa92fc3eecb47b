/** Timestamps printed with trailing zeros trimmed, and used as text by the retention and history queries. */
module Timestamps {
  import opened Text

  /** An instant in UTC. */
  datatype Instant = Instant(year: nat, month: nat, day: nat, hour: nat, minute: nat, second: nat, nano: nat)

  predicate IsLeap(year: nat) {
    year % 4 == 0 && (year % 100 != 0 || year % 400 == 0)
  }

  function DaysIn(year: nat, month: nat): nat {
    if month == 2 then (if IsLeap(year) then 29 else 28)
    else if month in {4, 6, 9, 11} then 30 else 31
  }

  predicate Valid(t: Instant) {
    && t.year < 10000 && 1 <= t.month <= 12 && 1 <= t.day <= DaysIn(t.year, t.month)
    && t.hour < 24 && t.minute < 60 && t.second < 60 && t.nano < 1_000_000_000
  }

  // ----- The order of time

  function DaysBeforeYear(year: nat): nat {
    if year == 0 then 0 else DaysBeforeYear(year - 1) + if IsLeap(year - 1) then 366 else 365
  }

  function DaysBeforeMonth(year: nat, month: nat): nat {
    if month <= 1 then 0 else DaysBeforeMonth(year, month - 1) + DaysIn(year, month - 1)
  }

  function DayNumber(t: Instant): nat {
    DaysBeforeYear(t.year) + DaysBeforeMonth(t.year, t.month) + t.day
  }

  /** Seconds since the start of the year 0, counting the day before it. */
  function EpochSecond(t: Instant): nat {
    ((DayNumber(t) * 24 + t.hour) * 60 + t.minute) * 60 + t.second
  }

  predicate Before(a: Instant, b: Instant) {
    EpochSecond(a) < EpochSecond(b) || (EpochSecond(a) == EpochSecond(b) && a.nano < b.nano)
  }

  // ----- The order of text

  /** Byte order, as SQLite compares TEXT. */
  predicate Less(a: string, b: string) {
    b != "" && (a == "" || a[0] < b[0] || (a[0] == b[0] && Less(a[1..], b[1..])))
  }

  lemma {:induction false} LessIrreflexive(a: string)
    ensures !Less(a, a)
  {
    if a != "" { LessIrreflexive(a[1..]); }
  }

  lemma {:induction false} LessTransitive(a: string, b: string, c: string)
    requires Less(a, b) && Less(b, c)
    ensures Less(a, c)
  {
    if a != "" && a[0] == b[0] && b[0] == c[0] {
      LessTransitive(a[1..], b[1..], c[1..]);
    }
  }

  lemma {:induction false} LessTotal(a: string, b: string)
    ensures Less(a, b) || a == b || Less(b, a)
  {
    if a != "" && b != "" && a[0] == b[0] {
      LessTotal(a[1..], b[1..]);
      assert a[1..] == b[1..] ==> a == [a[0]] + a[1..] == b;
    }
  }

  /** Texts that begin with equally long parts are ordered by those parts first. */
  lemma {:induction false} LessByParts(p: string, x: string, q: string, y: string)
    requires |p| == |q|
    ensures Less(p + x, q + y) <==> Less(p, q) || (p == q && Less(x, y))
  {
    if p == "" {
      assert p + x == x && q + y == y;
    } else {
      assert (p + x)[1..] == p[1..] + x && (q + y)[1..] == q[1..] + y;
      LessByParts(p[1..], x, q[1..], y);
      assert p[0] == q[0] && p[1..] == q[1..] ==> p == [p[0]] + p[1..] == q;
    }
  }

  lemma OneDigit(a: nat, b: nat)
    requires a < 10 && b < 10
    ensures Less([Digit(a)], [Digit(b)]) <==> a < b
    ensures [Digit(a)] == [Digit(b)] <==> a == b
  {
    assert [Digit(a)][1..] == "" == [Digit(b)][1..];
    assert [Digit(a)][0] == Digit(a) && [Digit(b)][0] == Digit(b);
  }

  /** Equally long numerals are ordered as numbers. */
  lemma {:induction false} DigitsInOrder(a: nat, b: nat, k: nat)
    requires a < Power10(k) && b < Power10(k)
    ensures Less(Digits(a, k), Digits(b, k)) <==> a < b
    ensures Digits(a, k) == Digits(b, k) <==> a == b
    decreases k
  {
    hide Less;
    if k == 0 {
      LessIrreflexive("");
    } else {
      DigitsInOrder(a / 10, b / 10, k - 1);
      LessByParts(Digits(a / 10, k - 1), [Digit(a % 10)], Digits(b / 10, k - 1), [Digit(b % 10)]);
      OneDigit(a % 10, b % 10);
      var p, q := Digits(a, k), Digits(b, k);
      assert p[..k - 1] == Digits(a / 10, k - 1) && q[..k - 1] == Digits(b / 10, k - 1);
      assert p[k - 1..] == [Digit(a % 10)] && q[k - 1..] == [Digit(b % 10)];
    }
  }

  // ----- Printing, the layout RFC3339Nano in UTC

  function TrimZeros(s: string): (r: string)
    ensures |r| <= |s| && r == s[..|r|]
    ensures r != "" ==> r[|r| - 1] != '0'
    ensures forall i :: |r| <= i < |s| ==> s[i] == '0'
  {
    if s != "" && s[|s| - 1] == '0' then TrimZeros(s[..|s| - 1]) else s
  }

  /** The digits of the fraction that are printed. */
  function FractionDigits(nano: nat): string {
    TrimZeros(Digits(nano, 9))
  }

  function Fraction(nano: nat): string {
    if nano == 0 then "" else "." + FractionDigits(nano)
  }

  /** Date and time to the second, 19 characters. */
  function SecondText(t: Instant): string {
    Digits(t.year, 4) + ("-" + (Digits(t.month, 2) + ("-" + (Digits(t.day, 2) + ("T" +
    (Digits(t.hour, 2) + (":" + (Digits(t.minute, 2) + (":" + Digits(t.second, 2))))))))))
  }

  function Format(t: Instant): string {
    SecondText(t) + (Fraction(t.nano) + "Z")
  }

  // ----- The calendar and the printed form

  /** Leap years every four years, but not every hundred, but every four hundred. */
  lemma {:induction false} LeapDays(year: nat)
    ensures DaysBeforeYear(year) == 365 * year + (year + 3) / 4 - (year + 99) / 100 + (year + 399) / 400
  {
    if year > 0 {
      LeapDays(year - 1);
      CountsFours(year - 1);
      CountsHundreds(year - 1);
      CountsFourHundreds(year - 1);
      Multiples(year - 1);
    }
  }

  lemma CountsFours(n: nat)
    ensures (n + 4) / 4 == (n + 3) / 4 + if n % 4 == 0 then 1 else 0
  {
  }

  lemma CountsHundreds(n: nat)
    ensures (n + 100) / 100 == (n + 99) / 100 + if n % 100 == 0 then 1 else 0
  {
  }

  lemma CountsFourHundreds(n: nat)
    ensures (n + 400) / 400 == (n + 399) / 400 + if n % 400 == 0 then 1 else 0
  {
  }

  lemma Multiples(n: nat)
    ensures n % 100 == 0 ==> n % 4 == 0
    ensures n % 400 == 0 ==> n % 100 == 0
  {
    assert n % 100 == 0 ==> n == 4 * (25 * (n / 100));
    assert n % 400 == 0 ==> n == 100 * (4 * (n / 400));
  }

  /** The next second, carried through the calendar. */
  function NextSecond(t: Instant): Instant {
    if t.second < 59 then t.(second := t.second + 1)
    else if t.minute < 59 then t.(minute := t.minute + 1, second := 0)
    else if t.hour < 23 then t.(hour := t.hour + 1, minute := 0, second := 0)
    else if t.day < DaysIn(t.year, t.month) then t.(day := t.day + 1, hour := 0, minute := 0, second := 0)
    else if t.month < 12 then t.(month := t.month + 1, day := 1, hour := 0, minute := 0, second := 0)
    else Instant(t.year + 1, 1, 1, 0, 0, 0, t.nano)
  }

  /** Seconds are counted one by one, at the end of every month and year included. */
  lemma CountsSeconds(t: Instant)
    requires Valid(t)
    ensures EpochSecond(NextSecond(t)) == EpochSecond(t) + 1
    ensures Valid(NextSecond(t)) || NextSecond(t).year == 10000
  {
    hide DaysBeforeYear, DaysBeforeMonth, IsLeap;
    if t.second == 59 && t.minute == 59 && t.hour == 23 && t.day >= DaysIn(t.year, t.month) {
      if t.month < 12 { NextMonth(t.year, t.month); } else { NextYear(t.year); }
    }
  }

  lemma NextMonth(year: nat, month: nat)
    requires month >= 1
    ensures DaysBeforeMonth(year, month + 1) == DaysBeforeMonth(year, month) + DaysIn(year, month)
  {
  }

  lemma NextYear(year: nat)
    ensures DaysBeforeYear(year + 1) + DaysBeforeMonth(year + 1, 1)
      == DaysBeforeYear(year) + DaysBeforeMonth(year, 12) + DaysIn(year, 12)
  {
    YearLength(year);
    NextMonth(year, 12);
  }

  /** The number that digits stand for. */
  function NumberOf(s: string): nat
    requires forall c :: c in s ==> IsDigit(c)
  {
    if s == "" then 0
    else
      var last := s[|s| - 1];
      assert forall c :: c in s[..|s| - 1] ==> c in s;
      assert last in s && IsDigit(last);
      NumberOf(s[..|s| - 1]) * 10 + (last as int - '0' as int)
  }

  lemma {:induction false} DigitsAreNumber(n: nat, k: nat)
    requires n < Power10(k)
    ensures NumberOf(Digits(n, k)) == n
    decreases k
  {
    if k > 0 {
      DigitsAreNumber(n / 10, k - 1);
      var s := Digits(n, k);
      assert s[..k - 1] == Digits(n / 10, k - 1) && s[k - 1] == Digit(n % 10);
    }
  }

  lemma {:induction false} ZerosMultiply(s: string, k: nat)
    requires forall c :: c in s ==> IsDigit(c)
    requires k <= |s| && forall i :: k <= i < |s| ==> s[i] == '0'
    ensures forall c :: c in s[..k] ==> IsDigit(c)
    ensures NumberOf(s) == NumberOf(s[..k]) * Power10(|s| - k)
    decreases |s|
  {
    if k == |s| {
      assert s[..k] == s;
    } else {
      var front := s[..|s| - 1];
      assert forall c :: c in front ==> c in s;
      ZerosMultiply(front, k);
      assert front[..k] == s[..k];
      assert Power10(|s| - k) == 10 * Power10(|front| - k);
    }
  }

  /** The layout: numbers with the separators of RFC 3339 between them, and a fraction of one to nine digits or none. */
  predicate IsLayout(text: string) {
    && |text| >= 20 && text[4] == '-' && text[7] == '-' && text[10] == 'T' && text[13] == ':' && text[16] == ':'
    && text[|text| - 1] == 'Z'
    && (|text| == 20 || (text[19] == '.' && 22 <= |text| <= 30))
    && forall i :: 0 <= i < |text| - 1 && i !in {4, 7, 10, 13, 16, 19} ==> IsDigit(text[i])
  }

  function NumberAt(text: string, from: nat, to: nat): nat
    requires from <= to <= |text| && forall i :: from <= i < to ==> IsDigit(text[i])
  {
    NumberOf(text[from..to])
  }

  /** Section 5.6 of RFC 3339, in UTC: the instant a text stands for. */
  function ReadInstant(text: string): Instant
    requires IsLayout(text)
  {
    var digits := if |text| == 20 then 0 else |text| - 21;
    Instant(NumberAt(text, 0, 4), NumberAt(text, 5, 7), NumberAt(text, 8, 10),
      NumberAt(text, 11, 13), NumberAt(text, 14, 16), NumberAt(text, 17, 19),
      if digits == 0 then 0 else NumberAt(text, 20, 20 + digits) * Power10(9 - digits))
  }

  lemma FractionIsNumber(nano: nat)
    requires 0 < nano < 1_000_000_000
    ensures var d := FractionDigits(nano);
      && 1 <= |d| <= 9 && (forall c :: c in d ==> IsDigit(c))
      && NumberOf(d) * Power10(9 - |d|) == nano
  {
    hide Digits, NumberOf, TrimZeros;
    var all := Digits(nano, 9);
    var d := TrimZeros(all);
    PowersOfTen();
    DigitsAreNumber(nano, 9);
    ZerosMultiply(all, |d|);
    if d == "" { assert NumberOf(all[..0]) == 0 by { NoNumber(); } }
  }

  lemma NoNumber()
    ensures NumberOf("") == 0
  {
  }

  lemma SecondTextIs(t: Instant, rest: string)
    ensures |SecondText(t)| == 19
    ensures var s := SecondText(t) + rest;
      && s[..4] == Digits(t.year, 4) && s[4] == '-' && s[5..7] == Digits(t.month, 2) && s[7] == '-'
      && s[8..10] == Digits(t.day, 2) && s[10] == 'T' && s[11..13] == Digits(t.hour, 2) && s[13] == ':'
      && s[14..16] == Digits(t.minute, 2) && s[16] == ':' && s[17..19] == Digits(t.second, 2) && s[19..] == rest
  {
    hide Digits;
  }

  lemma NumberOfSlice(text: string, from: nat, digits: string)
    requires from + |digits| <= |text| && text[from..from + |digits|] == digits
    requires forall c :: c in digits ==> IsDigit(c)
    ensures forall i :: from <= i < from + |digits| ==> IsDigit(text[i])
    ensures NumberAt(text, from, from + |digits|) == NumberOf(digits)
  {
    hide IsDigit;
    forall i | from <= i < from + |digits| ensures IsDigit(text[i]) {
      assert text[i] == digits[i - from] && digits[i - from] in digits;
    }
  }

  /** The printed text stands for the instant, to the nanosecond. */
  lemma FormatReadsBack(t: Instant)
    requires Valid(t)
    ensures IsLayout(Format(t)) && ReadInstant(Format(t)) == t
  {
    hide Digits, NumberOf, SecondText, IsDigit, FractionDigits, IsLeap;
    var text, rest := Format(t), Fraction(t.nano) + "Z";
    SecondTextIs(t, rest);
    PowersOfTen();
    NumberOfSlice(text, 0, Digits(t.year, 4));
    NumberOfSlice(text, 5, Digits(t.month, 2));
    NumberOfSlice(text, 8, Digits(t.day, 2));
    NumberOfSlice(text, 11, Digits(t.hour, 2));
    NumberOfSlice(text, 14, Digits(t.minute, 2));
    NumberOfSlice(text, 17, Digits(t.second, 2));
    DigitsAreNumber(t.year, 4);
    TwoDigits(t.month);
    TwoDigits(t.day);
    TwoDigits(t.hour);
    TwoDigits(t.minute);
    TwoDigits(t.second);
    if t.nano > 0 {
      FractionIsNumber(t.nano);
      var d := FractionDigits(t.nano);
      assert rest == "." + d + "Z";
      assert text[19..] == rest;
      assert text[20..20 + |d|] == d;
      NumberOfSlice(text, 20, d);
    }
  }

  lemma TwoDigits(n: nat)
    requires n < 100
    ensures NumberOf(Digits(n, 2)) == n
  {
    hide Digits, NumberOf;
    PowersOfTen();
    DigitsAreNumber(n, 2);
  }

  // ----- Text order is time order between different seconds

  /** The order of the calendar fields, from the year down to the second. */
  predicate FieldsLess(a: Instant, b: Instant) {
    || a.year < b.year
    || (a.year == b.year &&
         (|| a.month < b.month
          || (a.month == b.month &&
               (|| a.day < b.day
                || (a.day == b.day &&
                     (|| a.hour < b.hour
                      || (a.hour == b.hour &&
                           (|| a.minute < b.minute
                            || (a.minute == b.minute && a.second < b.second)))))))))
  }

  predicate SameFields(a: Instant, b: Instant) {
    a.year == b.year && a.month == b.month && a.day == b.day && a.hour == b.hour && a.minute == b.minute
      && a.second == b.second
  }

  /** A separator and a field before the rest of both texts. */
  lemma FieldInOrder(sep: string, a: nat, x: string, b: nat, y: string, k: nat)
    requires a < Power10(k) && b < Power10(k)
    ensures Less(sep + (Digits(a, k) + x), sep + (Digits(b, k) + y)) <==> a < b || (a == b && Less(x, y))
  {
    hide Less, Digits;
    DigitsInOrder(a, b, k);
    LessByParts(Digits(a, k), x, Digits(b, k), y);
    LessByParts(sep, Digits(a, k) + x, sep, Digits(b, k) + y);
    LessIrreflexive(sep);
  }

  lemma SecondTextLess(a: Instant, b: Instant)
    requires Valid(a) && Valid(b)
    ensures Less(SecondText(a), SecondText(b)) <==> FieldsLess(a, b)
  {
    hide Less, Digits, Power10;
    PowersOfTen();
    assert DaysIn(a.year, a.month) <= 31 && DaysIn(b.year, b.month) <= 31;
    var a6, b6 := Digits(a.second, 2), Digits(b.second, 2);
    var a5, b5 := Digits(a.minute, 2) + (":" + a6), Digits(b.minute, 2) + (":" + b6);
    var a4, b4 := Digits(a.hour, 2) + (":" + a5), Digits(b.hour, 2) + (":" + b5);
    var a3, b3 := Digits(a.day, 2) + ("T" + a4), Digits(b.day, 2) + ("T" + b4);
    var a2, b2 := Digits(a.month, 2) + ("-" + a3), Digits(b.month, 2) + ("-" + b3);
    assert a6 + "" == a6 && b6 + "" == b6;
    LessIrreflexive("");
    FieldInOrder(":", a.second, "", b.second, "", 2);
    FieldInOrder(":", a.minute, ":" + a6, b.minute, ":" + b6, 2);
    FieldInOrder("T", a.hour, ":" + a5, b.hour, ":" + b5, 2);
    FieldInOrder("-", a.day, "T" + a4, b.day, "T" + b4, 2);
    FieldInOrder("-", a.month, "-" + a3, b.month, "-" + b3, 2);
    FieldInOrder("", a.year, "-" + a2, b.year, "-" + b2, 4);
    assert "" + SecondText(a) == SecondText(a) && "" + SecondText(b) == SecondText(b);
  }

  lemma PowersOfTen()
    ensures Power10(1) == 10 && Power10(2) == 100 && Power10(4) == 10000 && Power10(9) == 1_000_000_000
  {
    assert Power10(3) == 1000 && Power10(6) == 1000 * Power10(3);
    assert Power10(9) == 1000 * Power10(6);
  }

  /** The seconds' texts are ordered as the instants' calendar fields. */
  lemma SecondTextInOrder(a: Instant, b: Instant)
    requires Valid(a) && Valid(b)
    ensures Less(SecondText(a), SecondText(b)) <==> FieldsLess(a, b)
    ensures SecondText(a) == SecondText(b) <==> SameFields(a, b)
  {
    hide Less, Valid;
    SecondTextLess(a, b);
    SecondTextLess(b, a);
    LessIrreflexive(SecondText(a));
  }

  // ----- Calendar order is the order of seconds

  lemma {:induction false} YearsGrow(a: nat, b: nat)
    requires a < b
    ensures DaysBeforeYear(a) + (if IsLeap(a) then 366 else 365) <= DaysBeforeYear(b)
    decreases b - a
  {
    if a + 1 < b { YearsGrow(a, b - 1); }
  }

  lemma {:induction false} MonthsGrow(year: nat, a: nat, b: nat)
    requires 1 <= a < b <= 13
    ensures DaysBeforeMonth(year, a) + DaysIn(year, a) <= DaysBeforeMonth(year, b)
    decreases b - a
  {
    if a + 1 < b { MonthsGrow(year, a, b - 1); }
  }

  lemma YearLength(year: nat)
    ensures DaysBeforeMonth(year, 13) == if IsLeap(year) then 366 else 365
  {
    var feb := DaysIn(year, 2);
    assert DaysBeforeMonth(year, 1) == 0;
    assert DaysBeforeMonth(year, 2) == 31;
    assert DaysBeforeMonth(year, 3) == 31 + feb;
    assert DaysBeforeMonth(year, 4) == 62 + feb;
    assert DaysBeforeMonth(year, 5) == 92 + feb;
    assert DaysBeforeMonth(year, 6) == 123 + feb;
    assert DaysBeforeMonth(year, 7) == 153 + feb;
    assert DaysBeforeMonth(year, 8) == 184 + feb;
    assert DaysBeforeMonth(year, 9) == 215 + feb;
    assert DaysBeforeMonth(year, 10) == 245 + feb;
    assert DaysBeforeMonth(year, 11) == 276 + feb;
    assert DaysBeforeMonth(year, 12) == 306 + feb;
  }

  lemma LaterDay(a: Instant, b: Instant)
    requires Valid(a) && Valid(b)
    requires a.year < b.year || (a.year == b.year && (a.month < b.month || (a.month == b.month && a.day < b.day)))
    ensures DayNumber(a) < DayNumber(b)
  {
    hide DaysBeforeYear, DaysBeforeMonth;
    if a.year < b.year {
      YearsGrow(a.year, b.year);
      MonthsGrow(a.year, a.month, 13);
      YearLength(a.year);
    } else if a.month < b.month {
      MonthsGrow(a.year, a.month, b.month);
    }
  }

  lemma EarlierFields(a: Instant, b: Instant)
    requires Valid(a) && Valid(b) && FieldsLess(a, b)
    ensures EpochSecond(a) < EpochSecond(b)
  {
    hide DayNumber;
    if a.year == b.year && a.month == b.month && a.day == b.day {
      assert DayNumber(a) == DayNumber(b) by { SameDay(a, b); }
    } else {
      LaterDay(a, b);
    }
  }

  lemma SameDay(a: Instant, b: Instant)
    requires a.year == b.year && a.month == b.month && a.day == b.day
    ensures DayNumber(a) == DayNumber(b)
  {
  }

  lemma FieldsAreTime(a: Instant, b: Instant)
    requires Valid(a) && Valid(b)
    ensures EpochSecond(a) < EpochSecond(b) <==> FieldsLess(a, b)
    ensures EpochSecond(a) == EpochSecond(b) <==> SameFields(a, b)
  {
    hide Valid, EpochSecond;
    if FieldsLess(a, b) {
      EarlierFields(a, b);
    } else if FieldsLess(b, a) {
      EarlierFields(b, a);
    } else {
      SameSecond(a, b);
    }
  }

  lemma SameSecond(a: Instant, b: Instant)
    requires SameFields(a, b)
    ensures EpochSecond(a) == EpochSecond(b)
  {
  }

  // ----- Within one second

  /** The printed digits of the earlier fraction begin those of the later one. */
  predicate RunsOn(earlier: nat, later: nat) {
    FractionDigits(earlier) <= FractionDigits(later)
  }

  /** The first place where two different, equally long texts differ. */
  lemma {:induction false} FirstDifference(a: string, b: string) returns (p: nat)
    requires |a| == |b| && Less(a, b)
    ensures p < |a| && a[..p] == b[..p] && a[p] < b[p]
  {
    if a[0] < b[0] {
      p := 0;
    } else {
      p := FirstDifference(a[1..], b[1..]);
      p := p + 1;
    }
  }

  lemma {:induction false} LessAtDifference(a: string, b: string, p: nat)
    requires p < |a| && p < |b| && a[..p] == b[..p] && a[p] != b[p]
    ensures Less(a, b) <==> a[p] < b[p]
    decreases p
  {
    if p > 0 {
      assert a[0] == a[..p][0] == b[..p][0] == b[0];
      assert a[1..][..p - 1] == a[..p][1..] && b[1..][..p - 1] == b[..p][1..];
      LessAtDifference(a[1..], b[1..], p - 1);
    }
  }

  /** Where the digits of two fractions part; the later fraction prints at least that far. */
  lemma DigitsPart(a: nat, b: nat) returns (p: nat)
    requires a < b < 1_000_000_000
    ensures p < 9 && Digits(a, 9)[..p] == Digits(b, 9)[..p] && Digits(a, 9)[p] < Digits(b, 9)[p]
    ensures forall i :: 0 <= i < 9 ==> IsDigit(Digits(a, 9)[i]) && IsDigit(Digits(b, 9)[i])
    ensures |FractionDigits(b)| > p
  {
    hide Less, Digits, Power10, TrimZeros;
    PowersOfTen();
    DigitsInOrder(a, b, 9);
    var A, B := Digits(a, 9), Digits(b, 9);
    assert forall i :: 0 <= i < 9 ==> A[i] in A && B[i] in B;
    p := FirstDifference(A, B);
  }

  lemma FractionOrder(a: nat, b: nat)
    requires a < b < 1_000_000_000
    ensures Less(Fraction(a) + "Z", Fraction(b) + "Z") <==> !RunsOn(a, b)
  {
    hide Less, Digits, TrimZeros, Fraction;
    var p := DigitsPart(a, b);
    if |FractionDigits(a)| > p {
      BothPrintThatFar(a, b, p);
    } else {
      EarlierEndsBefore(a, b, p);
    }
  }

  lemma BothPrintThatFar(a: nat, b: nat, p: nat)
    requires p < |FractionDigits(a)| && p < |FractionDigits(b)| && a < b
    requires p < 9 && Digits(a, 9)[..p] == Digits(b, 9)[..p] && Digits(a, 9)[p] < Digits(b, 9)[p]
    ensures Less(Fraction(a) + "Z", Fraction(b) + "Z") && !RunsOn(a, b)
  {
    hide Less, Digits, TrimZeros;
    ZeroHasNoDigits();
    var da, db := FractionDigits(a), FractionDigits(b);
    var x, y := "." + da + "Z", "." + db + "Z";
    assert da[p] == Digits(a, 9)[p] && db[p] == Digits(b, 9)[p];
    assert x[..p + 1] == "." + Digits(a, 9)[..p] && y[..p + 1] == "." + Digits(b, 9)[..p];
    LessAtDifference(x, y, p + 1);
    assert a != 0 && b != 0;
    assert x == Fraction(a) + "Z" && y == Fraction(b) + "Z";
  }

  lemma EarlierEndsBefore(a: nat, b: nat, p: nat)
    requires |FractionDigits(a)| <= p < |FractionDigits(b)| && a < b
    requires p < 9 && Digits(a, 9)[..p] == Digits(b, 9)[..p]
    requires forall i :: 0 <= i < 9 ==> IsDigit(Digits(b, 9)[i])
    ensures !Less(Fraction(a) + "Z", Fraction(b) + "Z") && RunsOn(a, b)
  {
    hide Less, Digits, TrimZeros;
    var da, db := FractionDigits(a), FractionDigits(b);
    var k := |da|;
    assert da == Digits(a, 9)[..p][..k] == Digits(b, 9)[..p][..k] == db[..k];
    var x, y := Fraction(a) + "Z", "." + db + "Z";
    assert y == Fraction(b) + "Z";
    if a == 0 {
      assert x[0] == 'Z' && y[0] == '.';
      LessAtDifference(x, y, 0);
    } else {
      assert x == "." + da + "Z";
      assert db[k] == Digits(b, 9)[k];
      assert x[k + 1] == 'Z' && y[k + 1] == db[k];
      assert x[..k + 1] == "." + da && y[..k + 1] == "." + db[..k];
      LessAtDifference(x, y, k + 1);
    }
  }

  lemma {:induction false} DigitsOfZero(k: nat)
    ensures forall c :: c in Digits(0, k) ==> c == '0'
    decreases k
  {
    if k > 0 { DigitsOfZero(k - 1); }
  }

  lemma ZeroHasNoDigits()
    ensures FractionDigits(0) == ""
  {
    hide TrimZeros, Digits;
    DigitsOfZero(9);
    assert forall i :: 0 <= i < 9 ==> Digits(0, 9)[i] in Digits(0, 9);
  }

  /** For an earlier and a later instant the texts stand in that order, except when both fall in one second and
      the earlier fraction's digits begin the later one's. */
  lemma TextOrder(a: Instant, b: Instant)
    requires Valid(a) && Valid(b) && Before(a, b)
    ensures Less(Format(a), Format(b)) <==> !(EpochSecond(a) == EpochSecond(b) && RunsOn(a.nano, b.nano))
    ensures !Less(Format(a), Format(b)) ==> Less(Format(b), Format(a))
  {
    hide Less, EpochSecond, SecondText, Fraction, RunsOn, FieldsLess, SameFields;
    SecondTextInOrder(a, b);
    FieldsAreTime(a, b);
    assert |SecondText(a)| == |SecondText(b)| by { SecondTextLength(a); SecondTextLength(b); }
    var x, y := Fraction(a.nano) + "Z", Fraction(b.nano) + "Z";
    LessByParts(SecondText(a), x, SecondText(b), y);
    if EpochSecond(a) == EpochSecond(b) {
      FractionOrder(a.nano, b.nano);
      LessIrreflexive(SecondText(a));
      FractionsDiffer(a.nano, b.nano);
    }
    assert Less(Format(a), Format(b)) || Format(a) == Format(b) || Less(Format(b), Format(a)) by {
      LessTotal(Format(a), Format(b));
    }
    assert |SecondText(a)| == |SecondText(b)| == 19 by { SecondTextLength(a); SecondTextLength(b); }
    assert Format(a)[..19] == SecondText(a) && Format(b)[..19] == SecondText(b);
    assert Format(a)[19..] == x && Format(b)[19..] == y;
  }

  lemma SecondTextLength(t: Instant)
    ensures |SecondText(t)| == 19
  {
  }

  /** Different fractions print differently. */
  lemma FractionsDiffer(a: nat, b: nat)
    requires a < b < 1_000_000_000
    ensures Fraction(a) + "Z" != Fraction(b) + "Z"
  {
    hide Less, Digits, Power10, TrimZeros, FractionDigits;
    ZeroHasNoDigits();
    if FractionDigits(a) == FractionDigits(b) { TrimmedDigitsDecide(a, b); }
    var da, db := FractionDigits(a), FractionDigits(b);
    var x, y := Fraction(a) + "Z", Fraction(b) + "Z";
    assert a != 0 ==> x[1..|x| - 1] == da;
    assert y[1..|y| - 1] == db && y[0] == '.';
    assert a == 0 ==> x[0] == 'Z';
  }

  lemma TrimmedDigitsDecide(a: nat, b: nat)
    requires a < 1_000_000_000 && b < 1_000_000_000 && FractionDigits(a) == FractionDigits(b)
    ensures a == b
  {
    hide Less, Digits, TrimZeros;
    PowersOfTen();
    DigitsInOrder(a, b, 9);
    var A, B, d := Digits(a, 9), Digits(b, 9), FractionDigits(a);
    forall i | 0 <= i < 9 ensures A[i] == B[i] {
      if i < |d| { assert A[i] == d[i] == B[i]; }
    }
    assert A == B;
  }

  // ----- Retention

  datatype Metric = Metric(timestamp: string, reading: int)

  /** The rows a query with "timestamp < cutoff" leaves. */
  function Kept(rows: seq<Metric>, cutoff: string): (r: seq<Metric>)
    ensures forall m :: m in r <==> m in rows && !Less(m.timestamp, cutoff)
  {
    if rows == [] then []
    else (if Less(rows[0].timestamp, cutoff) then [] else [rows[0]]) + Kept(rows[1..], cutoff)
  }

  /** The two metric tables. */
  class Database {
    var containerMetrics: seq<Metric>
    var serverMetrics: seq<Metric>

    constructor ()
      ensures containerMetrics == [] && serverMetrics == []
    {
      containerMetrics, serverMetrics := [], [];
    }

    /** Deletes rows older than the cutoff; a statement that fails ends the cleanup. */
    method CleanupMetrics(cutoff: Instant, firstRuns: bool, secondRuns: bool) returns (failed: bool)
      modifies this
      ensures failed <==> !firstRuns || !secondRuns
      ensures containerMetrics == if firstRuns then Kept(old(containerMetrics), Format(cutoff))
        else old(containerMetrics)
      ensures serverMetrics ==
        if firstRuns && secondRuns then Kept(old(serverMetrics), Format(cutoff)) else old(serverMetrics)
    {
      var cutoffText := Format(cutoff);
      if !firstRuns { return true; }
      containerMetrics := Kept(containerMetrics, cutoffText);
      if !secondRuns { return true; }
      serverMetrics := Kept(serverMetrics, cutoffText);
      failed := false;
    }

    /** The timestamp is the table's primary key. */
    method SaveMetric(metric: Metric, now: Instant) returns (saved: bool)
      modifies this`serverMetrics
      ensures var row := if metric.timestamp == "" then metric.(timestamp := Format(now)) else metric;
        && saved == (forall m :: m in old(serverMetrics) ==> m.timestamp != row.timestamp)
        && serverMetrics == if saved then old(serverMetrics) + [row] else old(serverMetrics)
    {
      var row := if metric.timestamp == "" then metric.(timestamp := Format(now)) else metric;
      saved := forall m :: m in serverMetrics ==> m.timestamp != row.timestamp;
      if saved { serverMetrics := serverMetrics + [row]; }
    }
  }

  /** Cleanup deletes a row exactly when it is older than the cutoff, up to the order of texts within the
      cutoff's own second: there an older row stays when its digits begin the cutoff's, and a newer one goes when
      the cutoff's digits begin its own. */
  lemma RetentionExactly(metric: Metric, t: Instant, cutoff: Instant, rows: seq<Metric>)
    requires Valid(t) && Valid(cutoff) && metric in rows && metric.timestamp == Format(t)
    ensures metric in Kept(rows, Format(cutoff)) <==>
      if Before(t, cutoff) then EpochSecond(t) == EpochSecond(cutoff) && RunsOn(t.nano, cutoff.nano)
      else !(EpochSecond(t) == EpochSecond(cutoff) && cutoff.nano < t.nano && RunsOn(cutoff.nano, t.nano))
  {
    hide Less, EpochSecond, Format, RunsOn, Kept;
    if Before(t, cutoff) {
      TextOrder(t, cutoff);
    } else if Before(cutoff, t) {
      TextOrder(cutoff, t);
      LessIrreflexive(Format(t));
      if Less(Format(cutoff), Format(t)) && Less(Format(t), Format(cutoff)) {
        LessTransitive(Format(t), Format(cutoff), Format(t));
      }
    } else {
      SameInstantSameText(t, cutoff);
      LessIrreflexive(Format(t));
    }
  }

  lemma SameInstantSameText(a: Instant, b: Instant)
    requires Valid(a) && Valid(b) && EpochSecond(a) == EpochSecond(b) && a.nano == b.nano
    ensures Format(a) == Format(b)
  {
    hide SecondText, EpochSecond;
    FieldsAreTime(a, b);
    SecondTextInOrder(a, b);
  }

  /** A cutoff on a whole second deletes every row of that second, newer ones included. */
  lemma WholeSecondCutoffDeletesNewer(metric: Metric, t: Instant, cutoff: Instant, rows: seq<Metric>)
    requires Valid(t) && Valid(cutoff) && metric in rows && metric.timestamp == Format(t)
    requires EpochSecond(t) == EpochSecond(cutoff) && cutoff.nano == 0 < t.nano
    ensures Before(cutoff, t) && metric !in Kept(rows, Format(cutoff))
  {
    hide EpochSecond, Format, FractionDigits, Kept;
    ZeroHasNoDigits();
    RetentionExactly(metric, t, cutoff, rows);
  }

  // ----- The last rows of a table

  predicate NotAfter(a: Metric, b: Metric) {
    !Less(b.timestamp, a.timestamp)
  }

  predicate Ascending(rows: seq<Metric>) {
    forall i, j :: 0 <= i < j < |rows| ==> NotAfter(rows[i], rows[j])
  }

  /** ORDER BY timestamp ASC. */
  function Insert(m: Metric, rows: seq<Metric>): seq<Metric> {
    if rows == [] || NotAfter(m, rows[0]) then [m] + rows else [rows[0]] + Insert(m, rows[1..])
  }

  function Sorted(rows: seq<Metric>): seq<Metric> {
    if rows == [] then [] else Insert(rows[0], Sorted(rows[1..]))
  }

  function Reversed(rows: seq<Metric>): (r: seq<Metric>)
    ensures |r| == |rows|
    ensures forall i :: 0 <= i < |rows| ==> r[i] == rows[|rows| - 1 - i]
  {
    seq(|rows|, i requires 0 <= i < |rows| => rows[|rows| - 1 - i])
  }

  /** The first n rows in descending order, sorted ascending again; a negative limit is no limit. */
  function LastN(rows: seq<Metric>, n: int): seq<Metric> {
    var descending := Reversed(Sorted(rows));
    Sorted(if 0 <= n < |rows| && n <= |descending| then descending[..n] else descending)
  }

  lemma NotAfterTransitive(a: Metric, b: Metric, c: Metric)
    requires NotAfter(a, b) && NotAfter(b, c)
    ensures NotAfter(a, c)
  {
    hide Less;
    if Less(c.timestamp, a.timestamp) {
      LessTotal(a.timestamp, b.timestamp);
      if Less(a.timestamp, b.timestamp) {
        LessTransitive(c.timestamp, a.timestamp, b.timestamp);
      }
    }
  }

  lemma NotAfterTotal(a: Metric, b: Metric)
    ensures NotAfter(a, b) || NotAfter(b, a)
  {
    hide Less;
    if Less(b.timestamp, a.timestamp) && Less(a.timestamp, b.timestamp) {
      LessTransitive(a.timestamp, b.timestamp, a.timestamp);
      LessIrreflexive(a.timestamp);
    }
  }

  lemma {:induction false} InsertSorts(m: Metric, rows: seq<Metric>)
    requires Ascending(rows)
    ensures Ascending(Insert(m, rows)) && multiset(Insert(m, rows)) == multiset(rows) + multiset{m}
    decreases |rows|
  {
    hide NotAfter;
    if rows != [] {
      var first, rest := rows[0], rows[1..];
      assert rows == [first] + rest;
      if NotAfter(m, first) {
        forall j | 0 <= j < |rows| ensures NotAfter(m, rows[j]) {
          if j > 0 { NotAfterTransitive(m, first, rows[j]); }
        }
      } else {
        NotAfterTotal(m, first);
        InsertSorts(m, rest);
        var tail := Insert(m, rest);
        forall x | x in tail ensures NotAfter(first, x) {
          assert x in multiset(tail);
          if x != m {
            assert x in rest;
          }
        }
        assert forall j :: 0 <= j < |tail| ==> tail[j] in tail;
      }
    }
  }

  lemma {:induction false} SortedSorts(rows: seq<Metric>)
    ensures Ascending(Sorted(rows)) && multiset(Sorted(rows)) == multiset(rows) && |Sorted(rows)| == |rows|
  {
    hide NotAfter, Insert;
    if rows != [] {
      SortedSorts(rows[1..]);
      InsertSorts(rows[0], Sorted(rows[1..]));
      assert rows == [rows[0]] + rows[1..];
      assert |multiset(Sorted(rows))| == |multiset(rows)|;
    }
  }

  /** In descending order every row of the first part follows every row of the second. */
  lemma TopFollowsBottom(all: seq<Metric>, k: nat)
    requires Ascending(all) && k <= |all|
    ensures forall out, kept :: kept in Reversed(all)[..k] && out in Reversed(all)[k..] ==> NotAfter(out, kept)
  {
    hide NotAfter;
    var descending := Reversed(all);
    forall out, kept | kept in descending[..k] && out in descending[k..] ensures NotAfter(out, kept) {
      var i :| 0 <= i < k && descending[..k][i] == kept;
      var j :| 0 <= j < |descending[k..]| && descending[k..][j] == out;
      assert kept == all[|all| - 1 - i] && out == all[|all| - 1 - (k + j)];
    }
  }

  function Limit(rows: seq<Metric>, n: int): nat {
    if 0 <= n < |rows| then n else |rows|
  }

  lemma LastNIsTop(rows: seq<Metric>, n: int) returns (top: seq<Metric>, bottom: seq<Metric>)
    ensures LastN(rows, n) == Sorted(top) && |top| == Limit(rows, n)
    ensures multiset(rows) == multiset(top) + multiset(bottom)
    ensures forall out, kept :: kept in top && out in bottom ==> NotAfter(out, kept)
  {
    hide NotAfter, Sorted, Ascending, Reversed;
    SortedSorts(rows);
    var all, k := Sorted(rows), Limit(rows, n);
    ReversedSameRows(all);
    var descending := Reversed(all);
    top, bottom := descending[..k], descending[k..];
    assert descending == top + bottom;
    assert k == |descending| ==> top == descending;
    TopFollowsBottom(all, k);
  }

  /** The query returns, in ascending order, as many rows as asked for and none that a left-out row follows. */
  lemma LastNAreLargest(rows: seq<Metric>, n: int)
    ensures var last := LastN(rows, n);
      && Ascending(last)
      && |last| == Limit(rows, n)
      && multiset(last) <= multiset(rows)
      && forall out, kept :: out in multiset(rows) - multiset(last) && kept in last ==> NotAfter(out, kept)
  {
    hide NotAfter, Sorted, Ascending, LastN;
    var top, bottom := LastNIsTop(rows, n);
    SortedSorts(top);
    var last := LastN(rows, n);
    assert multiset(rows) - multiset(last) == multiset(bottom);
    forall out, kept | out in multiset(bottom) && kept in last ensures NotAfter(out, kept) {
      assert kept in multiset(last);
      assert kept in top && out in bottom;
    }
  }

  lemma {:induction false} ReversedSameRows(rows: seq<Metric>)
    ensures multiset(Reversed(rows)) == multiset(rows)
    decreases |rows|
  {
    if rows != [] {
      ReversedSameRows(rows[1..]);
      assert Reversed(rows) == Reversed(rows[1..]) + [rows[0]];
      assert rows == [rows[0]] + rows[1..];
    } else {
      assert Reversed(rows) == [];
    }
  }

  /** In particular the rows left out are older, whenever they fall in another second. */
  lemma LeftOutIsOlder(out: Metric, kept: Metric, a: Instant, b: Instant)
    requires Valid(a) && Valid(b) && out.timestamp == Format(a) && kept.timestamp == Format(b)
    requires NotAfter(out, kept) && EpochSecond(a) != EpochSecond(b)
    ensures Before(a, b)
  {
    hide Less, EpochSecond, Format;
    if EpochSecond(b) < EpochSecond(a) {
      TextOrder(b, a);
    }
  }
}
