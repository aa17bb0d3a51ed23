/**
 * The store's timestamp text (tsLayout and fmtTime in
 * internal/store/sqlite/sqlite.go): a UTC calendar time with nine fractional
 * digits, as section 5.6 of RFC 3339 lays it out.
 */
module Timestamps {
  import opened Prelude

  /** A UTC instant, broken down by the calendar. */
  datatype Instant =
    Instant(year: nat, month: nat, day: nat, hour: nat, minute: nat, second: nat, nano: nat)

  type Time = i: Instant | OnCalendar(i) witness Instant(1, 1, 1, 0, 0, 0, 0)

  predicate IsLeap(year: nat) {
    year % 4 == 0 && (year % 100 != 0 || year % 400 == 0)
  }

  function DaysInYear(year: nat): nat {
    if IsLeap(year) then 366 else 365
  }

  function DaysInMonth(year: nat, month: nat): nat {
    if month == 2 then (if IsLeap(year) then 29 else 28)
    else if month == 4 || month == 6 || month == 9 || month == 11 then 30
    else 31
  }

  predicate OnCalendar(i: Instant) {
    && 1 <= i.month <= 12 && 1 <= i.day <= DaysInMonth(i.year, i.month)
    && i.hour < 24 && i.minute < 60 && i.second < 60 && i.nano < 1_000_000_000
  }

  /** The layout has four digits for the year. */
  predicate FourDigitYear(i: Instant) {
    i.year <= 9999
  }

  // ---------------------------------------------------------------------------
  // Chronology
  // ---------------------------------------------------------------------------

  function DaysBeforeYear(year: nat): nat {
    if year == 0 then 0 else DaysBeforeYear(year - 1) + DaysInYear(year - 1)
  }

  function DaysBeforeMonth(year: nat, month: nat): nat {
    if month <= 1 then 0 else DaysBeforeMonth(year, month - 1) + DaysInMonth(year, month - 1)
  }

  function Days(i: Instant): int {
    DaysBeforeYear(i.year) + DaysBeforeMonth(i.year, i.month) + i.day - 1
  }

  function DayTime(i: Instant): nat {
    ((i.hour * 60 + i.minute) * 60 + i.second) * 1_000_000_000 + i.nano
  }

  const NANOS_PER_DAY := 86_400_000_000_000

  /** Nanoseconds since the start of year 0. */
  function Nanos(i: Instant): int {
    Days(i) * NANOS_PER_DAY + DayTime(i)
  }

  /** The days before a year: 365 each, one more every fourth year, but not every hundredth, but every four hundredth. */
  lemma {:induction false} DaysBeforeYearAre(year: nat)
    ensures DaysBeforeYear(year) == 365 * year + (year + 3) / 4 - (year + 99) / 100 + (year + 399) / 400
  {
    if year > 0 {
      DaysBeforeYearAre(year - 1);
      EveryFourth(year - 1);
      EveryHundredth(year - 1);
      EveryFourHundredth(year - 1);
      HundredthIsFourth(year - 1);
    }
  }

  lemma EveryFourth(y: nat)
    ensures (y + 4) / 4 == (y + 3) / 4 + if y % 4 == 0 then 1 else 0
  {
  }

  lemma EveryHundredth(y: nat)
    ensures (y + 100) / 100 == (y + 99) / 100 + if y % 100 == 0 then 1 else 0
  {
  }

  lemma EveryFourHundredth(y: nat)
    ensures (y + 400) / 400 == (y + 399) / 400 + if y % 400 == 0 then 1 else 0
  {
  }

  lemma HundredthIsFourth(y: nat)
    ensures y % 100 == 0 ==> y % 4 == 0
    ensures y % 400 == 0 ==> y % 100 == 0
  {
    if y % 100 == 0 {
      assert y == 4 * (25 * (y / 100));
      FourTimes(25 * (y / 100));
    }
    if y % 400 == 0 {
      assert y == 100 * (4 * (y / 400));
      HundredTimes(4 * (y / 400));
    }
  }

  lemma FourTimes(q: nat)
    ensures 4 * q % 4 == 0
  {
  }

  lemma HundredTimes(q: nat)
    ensures 100 * q % 100 == 0
  {
  }

  lemma {:induction false} YearsBefore(a: nat, b: nat)
    requires a < b
    ensures DaysBeforeYear(a) + DaysInYear(a) <= DaysBeforeYear(b)
  {
    if a < b - 1 {
      YearsBefore(a, b - 1);
    }
  }

  lemma {:induction false} MonthsBefore(year: nat, a: nat, b: nat)
    requires 1 <= a < b
    ensures DaysBeforeMonth(year, a) + DaysInMonth(year, a) <= DaysBeforeMonth(year, b)
  {
    if a < b - 1 {
      MonthsBefore(year, a, b - 1);
    }
  }

  lemma TwelveMonths(year: nat)
    ensures DaysBeforeMonth(year, 13) == DaysInYear(year)
  {
    assert DaysBeforeMonth(year, 2) == 31;
    assert DaysBeforeMonth(year, 3) == 31 + DaysInMonth(year, 2);
    assert DaysBeforeMonth(year, 4) == DaysBeforeMonth(year, 3) + 31;
    assert DaysBeforeMonth(year, 5) == DaysBeforeMonth(year, 3) + 61;
    assert DaysBeforeMonth(year, 6) == DaysBeforeMonth(year, 5) + 31;
    assert DaysBeforeMonth(year, 7) == DaysBeforeMonth(year, 5) + 61;
    assert DaysBeforeMonth(year, 8) == DaysBeforeMonth(year, 7) + 31;
    assert DaysBeforeMonth(year, 9) == DaysBeforeMonth(year, 7) + 62;
    assert DaysBeforeMonth(year, 10) == DaysBeforeMonth(year, 9) + 30;
    assert DaysBeforeMonth(year, 11) == DaysBeforeMonth(year, 9) + 61;
    assert DaysBeforeMonth(year, 12) == DaysBeforeMonth(year, 11) + 30;
    assert DaysBeforeMonth(year, 13) == DaysBeforeMonth(year, 11) + 61;
  }

  /** An earlier date has a smaller day number. */
  lemma EarlierDate(i: Instant, j: Instant)
    requires OnCalendar(i) && OnCalendar(j)
    requires DateLess(i, j)
    ensures Days(i) < Days(j)
  {
    if i.year < j.year {
      YearsBefore(i.year, j.year);
      TwelveMonths(i.year);
      MonthsBefore(i.year, i.month, 13);
    } else if i.month < j.month {
      MonthsBefore(i.year, i.month, j.month);
    }
  }

  /** The instant one nanosecond later. */
  function Next(i: Time): Time
  {
    if i.nano < 999_999_999 then i.(nano := i.nano + 1)
    else if i.second < 59 then i.(second := i.second + 1, nano := 0)
    else if i.minute < 59 then i.(minute := i.minute + 1, second := 0, nano := 0)
    else if i.hour < 23 then i.(hour := i.hour + 1, minute := 0, second := 0, nano := 0)
    else if i.day < DaysInMonth(i.year, i.month) then
      Instant(i.year, i.month, i.day + 1, 0, 0, 0, 0)
    else if i.month < 12 then Instant(i.year, i.month + 1, 1, 0, 0, 0, 0)
    else Instant(i.year + 1, 1, 1, 0, 0, 0, 0)
  }

  /** Next carries correctly through every unit of the calendar. */
  lemma NextIsOneLater(i: Instant)
    requires OnCalendar(i)
    ensures Nanos(Next(i)) == Nanos(i) + 1
  {
    if i.nano == 999_999_999 && i.second == 59 && i.minute == 59 && i.hour == 23 {
      assert DayTime(i) == NANOS_PER_DAY - 1;
      TwelveMonths(i.year);
      assert Days(Next(i)) == Days(i) + 1;
    }
  }

  // ---------------------------------------------------------------------------
  // Text
  // ---------------------------------------------------------------------------

  function Digit(d: nat): (c: char)
    requires d < 10
    ensures '0' <= c <= '9' && c as int - '0' as int == d
  {
    ('0' as int + d) as char
  }

  predicate IsDigit(c: char) {
    '0' <= c <= '9'
  }

  /** A number in decimal, padded with zeros to at least width digits. */
  function Field(n: nat, width: nat): (s: string)
    ensures s != [] && Digits(s)
    decreases n, width
  {
    if n < 10 && width <= 1 then [Digit(n)]
    else if n < 10 then Field(0, width - 1) + [Digit(n)]
    else Field(n / 10, if width == 0 then 0 else width - 1) + [Digit(n % 10)]
  }

  /** One number of the layout, its width, and the mark after it. */
  datatype Part = Part(value: nat, width: nat, mark: char)

  function Text(parts: seq<Part>): string {
    if parts == [] then []
    else Field(parts[0].value, parts[0].width) + [parts[0].mark] + Text(parts[1..])
  }

  function Parts(i: Instant): seq<Part> {
    [Part(i.year, 4, '-'), Part(i.month, 2, '-'), Part(i.day, 2, 'T'), Part(i.hour, 2, ':'),
     Part(i.minute, 2, ':'), Part(i.second, 2, '.'), Part(i.nano, 9, 'Z')]
  }

  function FmtTime(i: Instant): string {
    Text(Parts(i))
  }

  // ---------------------------------------------------------------------------
  // Different instants have different texts
  // ---------------------------------------------------------------------------

  function ValueOf(s: string): int {
    if s == [] then 0 else 10 * ValueOf(s[..|s| - 1]) + (s[|s| - 1] as int - '0' as int)
  }

  lemma ValueOfMore(s: string, d: nat)
    requires d < 10
    ensures ValueOf(s + [Digit(d)]) == 10 * ValueOf(s) + d
  {
    var t := s + [Digit(d)];
    assert t[..|t| - 1] == s && t[|t| - 1] == Digit(d);
    assert ValueOf(t) == 10 * ValueOf(t[..|t| - 1]) + (t[|t| - 1] as int - '0' as int);
  }

  lemma {:induction false} FieldReadsBack(n: nat, width: nat)
    ensures ValueOf(Field(n, width)) == n
    decreases n, width
  {
    if n < 10 && width <= 1 {
      ValueOfMore([], n);
      assert Field(n, width) == [] + [Digit(n)];
    } else if n < 10 {
      FieldReadsBack(0, width - 1);
      ValueOfMore(Field(0, width - 1), n);
    } else {
      var fewer := if width == 0 then 0 else width - 1;
      FieldReadsBack(n / 10, fewer);
      ValueOfMore(Field(n / 10, fewer), n % 10);
    }
  }

  predicate Digits(s: string) {
    forall k :: 0 <= k < |s| ==> IsDigit(s[k])
  }

  lemma FirstMark(a: string, m: char, s: string)
    requires Digits(a) && !IsDigit(m)
    ensures IsDigit((a + [m] + s)[0]) <==> a != []
    ensures a == [] ==> a + [m] + s == [m] + s
    ensures a != [] ==> (a + [m] + s)[0] == a[0] && (a + [m] + s)[1..] == a[1..] + [m] + s
  {
  }

  /** Digits up to a mark that is no digit can be told from the rest. */
  lemma {:induction false} SplitAtTheMark(a: string, m: char, s: string, b: string, n: char, t: string)
    requires Digits(a) && Digits(b) && !IsDigit(m) && !IsDigit(n)
    requires a + [m] + s == b + [n] + t
    ensures a == b && m == n && s == t
  {
    FirstMark(a, m, s);
    FirstMark(b, n, t);
    if a == [] {
      assert m == ([m] + s)[0] && s == ([m] + s)[1..] && t == ([n] + t)[1..];
    } else {
      SplitAtTheMark(a[1..], m, s, b[1..], n, t);
      assert a == [a[0]] + a[1..] && b == [b[0]] + b[1..];
    }
  }

  ghost predicate SameShape(ps: seq<Part>, qs: seq<Part>) {
    |ps| == |qs| && forall k :: 0 <= k < |ps| ==>
      ps[k].width == qs[k].width && ps[k].mark == qs[k].mark && !IsDigit(ps[k].mark)
  }

  lemma {:induction false} TextTellsTheParts(ps: seq<Part>, qs: seq<Part>)
    requires SameShape(ps, qs) && Text(ps) == Text(qs)
    ensures ps == qs
  {
    if ps != [] {
      var p, q := ps[0], qs[0];
      SplitAtTheMark(Field(p.value, p.width), p.mark, Text(ps[1..]), Field(q.value, q.width), q.mark, Text(qs[1..]));
      FieldReadsBack(p.value, p.width);
      FieldReadsBack(q.value, q.width);
      TextTellsTheParts(ps[1..], qs[1..]);
      assert ps == [p] + ps[1..] && qs == [q] + qs[1..];
    }
  }

  /** Comparing texts for equality is comparing instants, whatever the year. */
  lemma TextTellsTheInstant(i: Instant, j: Instant)
    requires FmtTime(i) == FmtTime(j)
    ensures i == j
  {
    TextTellsTheParts(Parts(i), Parts(j));
    assert forall k :: 0 <= k < 7 ==> Parts(i)[k].value == Parts(j)[k].value;
    assert Parts(i)[0].value == i.year && Parts(i)[1].value == i.month && Parts(i)[2].value == i.day;
  }

  // ---------------------------------------------------------------------------
  // Text order is time order
  // ---------------------------------------------------------------------------

  /** SQLite's binary collation. */
  predicate TextLess(a: string, b: string) {
    b != [] && (a == [] || a[0] < b[0] || (a[0] == b[0] && TextLess(a[1..], b[1..])))
  }

  /** Texts that begin with equally long pieces are ordered by those pieces first. */
  lemma {:induction false} TextLessInTwo(x: string, s: string, y: string, t: string)
    requires |x| == |y|
    ensures TextLess(x + s, y + t) <==> TextLess(x, y) || (x == y && TextLess(s, t))
  {
    if x == [] {
      assert x + s == s && y + t == t;
    } else {
      assert (x + s)[1..] == x[1..] + s && (y + t)[1..] == y[1..] + t;
      TextLessInTwo(x[1..], s, y[1..], t);
      assert x == [x[0]] + x[1..] && y == [y[0]] + y[1..];
    }
  }

  function Pow10(k: nat): nat {
    if k == 0 then 1 else 10 * Pow10(k - 1)
  }

  lemma {:induction false} FieldWidth(n: nat, width: nat)
    requires width > 0 && n < Pow10(width)
    ensures |Field(n, width)| == width
    ensures width > 1 ==> Field(n, width) == Field(n / 10, width - 1) + [Digit(n % 10)] && n / 10 < Pow10(width - 1)
  {
    if width > 1 {
      FieldWidth(n / 10, width - 1);
    }
  }

  /** Padded to the same width, numbers are ordered as their digits are. */
  lemma {:induction false} FieldOrder(a: nat, b: nat, width: nat)
    requires width > 0 && a < Pow10(width) && b < Pow10(width)
    ensures TextLess(Field(a, width), Field(b, width)) <==> a < b
    ensures |Field(a, width)| == |Field(b, width)| == width
    ensures Field(a, width) == Field(b, width) <==> a == b
  {
    FieldWidth(a, width);
    FieldWidth(b, width);
    FieldReadsBack(a, width);
    FieldReadsBack(b, width);
    if width > 1 {
      FieldOrder(a / 10, b / 10, width - 1);
      TextLessInTwo(Field(a / 10, width - 1), [Digit(a % 10)], Field(b / 10, width - 1), [Digit(b % 10)]);
    }
  }

  ghost predicate Fits(ps: seq<Part>) {
    forall k :: 0 <= k < |ps| ==> ps[k].width > 0 && ps[k].value < Pow10(ps[k].width)
  }

  /** The first part that differs decides. */
  ghost predicate PartsLess(ps: seq<Part>, qs: seq<Part>)
    requires |ps| == |qs|
  {
    ps != [] && (ps[0].value < qs[0].value || (ps[0].value == qs[0].value && PartsLess(ps[1..], qs[1..])))
  }

  lemma {:induction false} TextOrder(ps: seq<Part>, qs: seq<Part>)
    requires SameShape(ps, qs) && Fits(ps) && Fits(qs)
    ensures TextLess(Text(ps), Text(qs)) <==> PartsLess(ps, qs)
  {
    if ps != [] {
      var p, q := ps[0], qs[0];
      var a, b := Field(p.value, p.width), Field(q.value, q.width);
      FieldOrder(p.value, q.value, p.width);
      TextLessInTwo(a, [p.mark], b, [q.mark]);
      TextLessInTwo(a + [p.mark], Text(ps[1..]), b + [q.mark], Text(qs[1..]));
      TextOrder(ps[1..], qs[1..]);
      if a + [p.mark] == b + [q.mark] {
        assert a == (a + [p.mark])[..|a|] && b == (b + [q.mark])[..|b|];
      }
    }
  }

  lemma InstantFits(i: Instant)
    requires OnCalendar(i) && FourDigitYear(i)
    ensures Fits(Parts(i))
  {
    assert Pow10(2) == 100 && Pow10(4) == 100 * Pow10(2);
    assert Pow10(5) == 10 * Pow10(4) && Pow10(7) == 100 * Pow10(5) && Pow10(9) == 100 * Pow10(7);
  }

  ghost predicate DateLess(i: Instant, j: Instant) {
    i.year < j.year || (i.year == j.year && (i.month < j.month || (i.month == j.month && i.day < j.day)))
  }

  ghost predicate SameDate(i: Instant, j: Instant) {
    i.year == j.year && i.month == j.month && i.day == j.day
  }

  ghost predicate ClockLess(i: Instant, j: Instant) {
    i.hour < j.hour || (i.hour == j.hour && (i.minute < j.minute || (i.minute == j.minute &&
    (i.second < j.second || (i.second == j.second && i.nano < j.nano)))))
  }

  lemma PartsDecide(i: Instant, j: Instant)
    ensures PartsLess(Parts(i), Parts(j)) <==> DateLess(i, j) || (SameDate(i, j) && ClockLess(i, j))
  {
    var ps, qs := Parts(i), Parts(j);
    assert ps[1..][1..] == ps[2..] && qs[1..][1..] == qs[2..];
    assert ps[2..][1..] == ps[3..] && qs[2..][1..] == qs[3..];
    assert ps[3..][1..] == ps[4..] && qs[3..][1..] == qs[4..];
    assert ps[4..][1..] == ps[5..] && qs[4..][1..] == qs[5..];
    assert ps[5..][1..] == ps[6..] && qs[5..][1..] == qs[6..];
    assert PartsLess(ps[6..], qs[6..]) <==> i.nano < j.nano;
    assert PartsLess(ps[5..], qs[5..]) <==>
      i.second < j.second || (i.second == j.second && i.nano < j.nano);
    assert PartsLess(ps[3..], qs[3..]) <==> ClockLess(i, j);
    assert PartsLess(ps[1..], qs[1..]) <==>
      i.month < j.month || (i.month == j.month && (i.day < j.day || (i.day == j.day && ClockLess(i, j))));
  }

  lemma TimeDecides(i: Instant, j: Instant)
    requires OnCalendar(i) && OnCalendar(j) && (DateLess(i, j) || (SameDate(i, j) && ClockLess(i, j)))
    ensures Nanos(i) < Nanos(j)
  {
    assert DayTime(i) < NANOS_PER_DAY;
    if DateLess(i, j) {
      EarlierDate(i, j);
    }
  }

  /** The text order of two timestamps is their order in time, so ordering by the column is sound. */
  lemma TextOrderIsTimeOrder(i: Instant, j: Instant)
    requires OnCalendar(i) && OnCalendar(j) && FourDigitYear(i) && FourDigitYear(j)
    ensures TextLess(FmtTime(i), FmtTime(j)) <==> Nanos(i) < Nanos(j)
    ensures FmtTime(i) == FmtTime(j) <==> Nanos(i) == Nanos(j)
  {
    InstantFits(i);
    InstantFits(j);
    TextOrder(Parts(i), Parts(j));
    PartsDecide(i, j);
    if FmtTime(i) == FmtTime(j) {
      TextTellsTheInstant(i, j);
    }
    if DateLess(i, j) || (SameDate(i, j) && ClockLess(i, j)) {
      TimeDecides(i, j);
    } else if DateLess(j, i) || (SameDate(i, j) && ClockLess(j, i)) {
      TimeDecides(j, i);
    } else {
      assert i == j;
    }
  }

  lemma {:induction false} LeadingDigit(n: nat, width: nat)
    requires n >= 10
    ensures Field(n, width)[0] == Field(n / 10, if width == 0 then 0 else width - 1)[0]
  {
  }

  lemma TextHead(parts: seq<Part>)
    requires parts != []
    ensures Text(parts) != [] && Text(parts)[0] == Field(parts[0].value, parts[0].width)[0]
  {
  }

  lemma HeadsDecide(a: string, b: string)
    requires a != [] && b != [] && a[0] < b[0]
    ensures TextLess(a, b)
  {
  }

  /** Past the four-digit years the two orders part: the year 10000 sorts before 9999. */
  lemma FiveDigitYearsSortEarly(i: Time, j: Time)
    requires i.year == 9999 && j.year == 10000
    ensures Nanos(i) < Nanos(j) && TextLess(FmtTime(j), FmtTime(i))
  {
    TimeDecides(i, j);
    FirstOfTheYear();
    TextHead(Parts(i));
    TextHead(Parts(j));
    HeadsDecide(FmtTime(j), FmtTime(i));
  }

  ghost predicate OrdersUpTo(year: nat, i: Time, j: Time) {
    i.year <= year && j.year <= year ==> (TextLess(FmtTime(i), FmtTime(j)) <==> Nanos(i) < Nanos(j))
  }

  /** Up to which years the two orders agree: exactly the four-digit ones. */
  lemma TextOrderHoldsIff(year: nat)
    ensures (forall i: Time, j: Time :: OrdersUpTo(year, i, j)) <==> year <= 9999
  {
    if year <= 9999 {
      forall i: Time, j: Time ensures OrdersUpTo(year, i, j) {
        if i.year <= year && j.year <= year {
          TextOrderIsTimeOrder(i, j);
        }
      }
    } else {
      var i, j := Instant(9999, 1, 1, 0, 0, 0, 0), Instant(10000, 1, 1, 0, 0, 0, 0);
      FiveDigitYearsSortEarly(i, j);
      assert !OrdersUpTo(year, j, i);
    }
  }

  lemma FirstOfTheYear()
    ensures Field(9999, 4)[0] == '9' && Field(10000, 4)[0] == '1'
  {
    LeadingDigit(9999, 4);
    LeadingDigit(999, 3);
    LeadingDigit(99, 2);
    LeadingDigit(10000, 4);
    LeadingDigit(1000, 3);
    LeadingDigit(100, 2);
    LeadingDigit(10, 1);
  }

  // ---------------------------------------------------------------------------
  // Reading a timestamp back
  // ---------------------------------------------------------------------------

  /** The numbers of a text that follows the widths and marks of a layout. */
  function Scan(s: string, layout: seq<Part>): Option<seq<int>> {
    if layout == [] then (if s == [] then Some([]) else None)
    else
      var w := layout[0].width;
      if |s| <= w || !Digits(s[..w]) || s[w] != layout[0].mark then None
      else
        match Scan(s[w + 1..], layout[1..])
        case None => None
        case Some(rest) => Some([ValueOf(s[..w])] + rest)
  }

  const LAYOUT := Parts(Instant(0, 0, 0, 0, 0, 0, 0))

  function ParseTime(s: string): Option<Time> {
    match Scan(s, LAYOUT)
    case None => None
    case Some(v) =>
      if |v| != 7 || exists k :: 0 <= k < 7 && v[k] < 0 then None
      else
        var i := Instant(v[0], v[1], v[2], v[3], v[4], v[5], v[6]);
        if OnCalendar(i) then Some(i) else None
  }

  function Values(parts: seq<Part>): (r: seq<int>)
    ensures |r| == |parts| && forall k :: 0 <= k < |parts| ==> r[k] == parts[k].value
  {
    seq(|parts|, k requires 0 <= k < |parts| => parts[k].value)
  }

  lemma {:induction false} ScanReadsBack(parts: seq<Part>, layout: seq<Part>)
    requires SameShape(parts, layout) && Fits(parts)
    ensures Scan(Text(parts), layout) == Some(Values(parts))
  {
    if parts == [] {
      assert Values(parts) == [];
    } else {
      var p, s := parts[0], Text(parts);
      FieldWidth(p.value, p.width);
      FieldReadsBack(p.value, p.width);
      assert s[..p.width] == Field(p.value, p.width) && s[p.width + 1..] == Text(parts[1..]);
      ScanReadsBack(parts[1..], layout[1..]);
      assert Values(parts) == [p.value] + Values(parts[1..]);
    }
  }

  /** A longer year leaves a digit where the mark should be. */
  lemma LongYear(i: Instant)
    requires !FourDigitYear(i)
    ensures Scan(FmtTime(i), LAYOUT) == None
  {
    FieldIsLong(i.year, 4);
    var f := Field(i.year, 4);
    assert FmtTime(i)[4] == f[4];
  }

  lemma {:induction false} FieldIsLong(n: nat, width: nat)
    requires n >= Pow10(width)
    ensures |Field(n, width)| > width
  {
    if width > 0 {
      FieldIsLong(n / 10, width - 1);
    }
  }

  /** Where a part begins in the text. */
  function Offset(parts: seq<Part>, k: nat): nat
    requires k <= |parts|
  {
    if k == 0 then 0 else Offset(parts, k - 1) + parts[k - 1].width + 1
  }

  lemma {:induction false} FromPart(parts: seq<Part>, k: nat)
    requires Fits(parts) && k <= |parts|
    ensures Offset(parts, k) <= |Text(parts)| && Text(parts)[Offset(parts, k)..] == Text(parts[k..])
  {
    if k == 0 {
      assert parts[0..] == parts;
    } else {
      FromPart(parts, k - 1);
      AfterFirstPart(parts[k - 1..]);
      assert parts[k - 1..][1..] == parts[k..];
      DropTwice(Text(parts), Offset(parts, k - 1), parts[k - 1].width + 1);
    }
  }

  lemma AfterFirstPart(parts: seq<Part>)
    requires Fits(parts) && parts != []
    ensures parts[0].width + 1 <= |Text(parts)| && Text(parts)[parts[0].width + 1..] == Text(parts[1..])
  {
    FieldWidth(parts[0].value, parts[0].width);
  }

  lemma DropTwice(s: string, a: nat, b: nat)
    requires a + b <= |s|
    ensures s[a..][b..] == s[a + b..]
  {
  }

  lemma PartAt(parts: seq<Part>, k: nat)
    requires Fits(parts) && k < |parts|
    ensures var o, p, s := Offset(parts, k), parts[k], Text(parts);
      && o + p.width < |s| && s[o + p.width] == p.mark && ValueOf(s[o..o + p.width]) == p.value
      && (k == |parts| - 1 ==> |s| == o + p.width + 1)
  {
    FromPart(parts, k);
    var o, p, s := Offset(parts, k), parts[k], Text(parts);
    FieldWidth(p.value, p.width);
    FieldReadsBack(p.value, p.width);
    var rest := parts[k..];
    assert s[o..][..p.width] == s[o..o + p.width];
    assert Text(rest)[..p.width] == Field(p.value, p.width);
    assert k == |parts| - 1 ==> rest[1..] == [];
  }

  /** The text of an instant, mark by mark. */
  lemma LayoutIsFixed(i: Instant)
    requires OnCalendar(i) && FourDigitYear(i)
    ensures var s := FmtTime(i);
      && |s| == 30
      && s[4] == '-' && s[7] == '-' && s[10] == 'T' && s[13] == ':' && s[16] == ':' && s[19] == '.' && s[29] == 'Z'
      && ValueOf(s[..4]) == i.year && ValueOf(s[5..7]) == i.month && ValueOf(s[8..10]) == i.day
      && ValueOf(s[11..13]) == i.hour && ValueOf(s[14..16]) == i.minute && ValueOf(s[17..19]) == i.second
      && ValueOf(s[20..29]) == i.nano
  {
    InstantFits(i);
    var ps := Parts(i);
    assert Offset(ps, 1) == 5 && Offset(ps, 2) == 8 && Offset(ps, 3) == 11 && Offset(ps, 4) == 14;
    assert Offset(ps, 5) == 17 && Offset(ps, 6) == 20;
    PartAt(ps, 0);
    PartAt(ps, 1);
    PartAt(ps, 2);
    PartAt(ps, 3);
    PartAt(ps, 4);
    PartAt(ps, 5);
    PartAt(ps, 6);
  }

  /** Parsing undoes formatting exactly for the years the layout was made for. */
  lemma ParseUndoesFmt(t: Time)
    ensures ParseTime(FmtTime(t)) == if FourDigitYear(t) then Some(t) else None
  {
    if FourDigitYear(t) {
      InstantFits(t);
      ScanReadsBack(Parts(t), LAYOUT);
      var v := Values(Parts(t));
      assert v == [t.year, t.month, t.day, t.hour, t.minute, t.second, t.nano];
    } else {
      LongYear(t);
    }
  }

  // ---------------------------------------------------------------------------
  // Why the width is fixed
  // ---------------------------------------------------------------------------

  function WithoutZeros(s: string): string {
    if s != [] && s[|s| - 1] == '0' then WithoutZeros(s[..|s| - 1]) else s
  }

  /** The layout that drops trailing zeros of the fraction, and a fraction of zero altogether. */
  function Stripped(i: Instant): string {
    var upToSecond := Text(Parts(i)[..5]) + Field(i.second, 2);
    if i.nano == 0 then upToSecond + "Z" else upToSecond + "." + WithoutZeros(Field(i.nano, 9)) + "Z"
  }

  /** Without the zeros, a whole second sorts after every later instant of that second. */
  lemma StrippingBreaksTheOrder(i: Instant, j: Instant)
    requires OnCalendar(i) && OnCalendar(j)
    requires j == i.(nano := j.nano) && i.nano == 0 < j.nano
    ensures Nanos(i) < Nanos(j) && TextLess(Stripped(j), Stripped(i))
  {
    assert Parts(i)[..5] == Parts(j)[..5];
    var same := Text(Parts(i)[..5]) + Field(i.second, 2);
    var fraction := "." + WithoutZeros(Field(j.nano, 9)) + "Z";
    assert Stripped(j) == same + fraction;
    TextLessInTwo(same, fraction, same, "Z");
    NotBelowItself(same);
    assert fraction[0] == '.' && "Z"[0] == 'Z';
  }

  lemma {:induction false} NotBelowItself(s: string)
    ensures !TextLess(s, s)
  {
    if s != [] {
      NotBelowItself(s[1..]);
    }
  }
}
