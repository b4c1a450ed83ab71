/**
 UTC instants and the text `datetime.isoformat()` writes for them. The program stores times as text and
 compares the text; this module shows when that is the same as comparing the times.

 An instant counts microseconds since 0001-01-01T00:00:00, the first one Python's datetime can hold.
 */
module IsoTime {
  import opened Text
  import opened Decimal

  const MICROS_PER_SECOND: nat := 1000000
  const MICROS_PER_MINUTE: nat := 60000000
  const MICROS_PER_HOUR: nat := 3600000000
  const MICROS_PER_DAY: nat := 86400000000

  // ---------------------------------------------------------------- calendar

  /** The proleptic Gregorian calendar: `datetime`'s `_is_leap`, `_days_before_year`, `_days_in_month`. */
  predicate IsLeap(year: int) {
    year % 4 == 0 && (year % 100 != 0 || year % 400 == 0)
  }

  function DaysBeforeYear(year: nat): int
    requires year >= 1
  {
    var y := year - 1;
    y * 365 + y / 4 - y / 100 + y / 400
  }

  function DaysInMonth(year: int, month: nat): nat
    requires 1 <= month <= 12
  {
    if month == 2 then (if IsLeap(year) then 29 else 28)
    else if month == 4 || month == 6 || month == 9 || month == 11 then 30
    else 31
  }

  function DaysBeforeMonth(year: int, month: nat): nat
    requires 1 <= month <= 12
  {
    if month == 1 then 0 else DaysBeforeMonth(year, month - 1) + DaysInMonth(year, month - 1)
  }

  datatype Date = Date(year: nat, month: nat, day: nat) {
    predicate Valid() {
      1 <= year <= 9999 && 1 <= month <= 12 && 1 <= day <= DaysInMonth(year, month)
    }

    /** Days before this one, counted from 0001-01-01. */
    function Ordinal(): int
      requires Valid()
    {
      DaysBeforeYear(year) + DaysBeforeMonth(year, month) + day - 1
    }

    function Next(): Date
      requires Valid()
    {
      if day < DaysInMonth(year, month) then Date(year, month, day + 1)
      else if month < 12 then Date(year, month + 1, 1)
      else Date(year + 1, 1, 1)
    }

    predicate Before(other: Date) {
      year < other.year || (year == other.year && (month < other.month || (month == other.month && day < other.day)))
    }
  }

  const FIRST := Date(1, 1, 1)

  lemma YearLength(year: nat)
    requires year >= 1
    ensures DaysBeforeYear(year + 1) == DaysBeforeYear(year) + (if IsLeap(year) then 366 else 365)
  {
    var y := year - 1;
    QuotientStep(y, 4);
    QuotientStep(y, 100);
    QuotientStep(y, 400);
    LeapRule(year);
  }

  lemma LeapRule(year: nat)
    ensures year % 400 == 0 ==> year % 100 == 0
    ensures year % 100 == 0 ==> year % 4 == 0
  {
    FourHundreds(year / 400);
    Hundreds(year / 100);
  }

  lemma FourHundreds(q: nat)
    ensures 400 * q % 100 == 0
  {
    assert 400 * q == 100 * (4 * q);
  }

  lemma Hundreds(q: nat)
    ensures 100 * q % 4 == 0
  {
    Fours(25 * q);
  }

  lemma Fours(q: nat)
    ensures 4 * q % 4 == 0
  {
  }

  lemma QuotientStep(y: nat, d: nat)
    requires d == 4 || d == 100 || d == 400
    ensures (y + 1) / d == y / d + (if (y + 1) % d == 0 then 1 else 0)
  {
  }

  lemma MonthsOfYear(year: nat)
    ensures DaysBeforeMonth(year, 12) + 31 == if IsLeap(year) then 366 else 365
  {
    assert DaysBeforeMonth(year, 2) == 31;
    assert DaysBeforeMonth(year, 4) == 31 + DaysInMonth(year, 2) + 31;
    assert DaysBeforeMonth(year, 6) == DaysBeforeMonth(year, 4) + 61;
    assert DaysBeforeMonth(year, 8) == DaysBeforeMonth(year, 6) + 61;
    assert DaysBeforeMonth(year, 10) == DaysBeforeMonth(year, 8) + 61;
    assert DaysBeforeMonth(year, 12) == DaysBeforeMonth(year, 10) + 61;
  }

  /** The next day has the next ordinal. */
  lemma NextOrdinal(d: Date)
    requires d.Valid() && d != Date(9999, 12, 31)
    ensures d.Next().Valid() && d.Next().Ordinal() == d.Ordinal() + 1
  {
    if d.day == DaysInMonth(d.year, d.month) && d.month == 12 {
      YearLength(d.year);
      MonthsOfYear(d.year);
    }
  }

  const LAST_ORDINAL: nat := 3652058

  lemma LastOrdinal()
    ensures Date(9999, 12, 31).Valid() && Date(9999, 12, 31).Ordinal() == LAST_ORDINAL
  {
    MonthsOfYear(9999);
  }

  /** The date with an ordinal, found by counting days. */
  function FromOrdinal(n: nat): (d: Date)
    requires n <= LAST_ORDINAL
    ensures d.Valid() && d.Ordinal() == n
  {
    if n == 0 then FIRST
    else
      var d := FromOrdinal(n - 1);
      LastOrdinal();
      NextOrdinal(d);
      d.Next()
  }

  lemma {:induction false} MonthsAscend(year: int, m: nat, n: nat)
    requires 1 <= m < n <= 12
    ensures DaysBeforeMonth(year, m) + DaysInMonth(year, m) <= DaysBeforeMonth(year, n)
  {
    if n > m + 1 {
      MonthsAscend(year, m, n - 1);
    }
  }

  lemma {:induction false} YearsAscend(y: nat, z: nat)
    requires 1 <= y < z
    ensures DaysBeforeYear(y) + (if IsLeap(y) then 366 else 365) <= DaysBeforeYear(z)
  {
    YearLength(z - 1);
    if z > y + 1 {
      YearsAscend(y, z - 1);
    }
  }

  lemma WithinYear(d: Date)
    requires d.Valid()
    ensures DaysBeforeYear(d.year) <= d.Ordinal() < DaysBeforeYear(d.year) + (if IsLeap(d.year) then 366 else 365)
  {
    MonthsOfYear(d.year);
    if d.month < 12 {
      MonthsAscend(d.year, d.month, 12);
    }
  }

  lemma EarlierDate(a: Date, b: Date)
    requires a.Valid() && b.Valid() && a.Before(b)
    ensures a.Ordinal() < b.Ordinal()
  {
    if a.year < b.year {
      WithinYear(a);
      WithinYear(b);
      YearsAscend(a.year, b.year);
    } else if a.month < b.month {
      MonthsAscend(a.year, a.month, b.month);
    }
  }

  /** Dates are ordered as their ordinals are. */
  lemma DateOrder(a: Date, b: Date)
    requires a.Valid() && b.Valid()
    ensures a.Before(b) <==> a.Ordinal() < b.Ordinal()
    ensures a == b <==> a.Ordinal() == b.Ordinal()
  {
    if a.Before(b) {
      EarlierDate(a, b);
    } else if b.Before(a) {
      EarlierDate(b, a);
    }
  }

  /** The lengths of the months, the leap years, and four days of the calendar. */
  lemma CalendarMeans(year: int, month: nat)
    requires 1 <= month <= 12
    ensures DaysInMonth(year, month)
      == [31, if IsLeap(year) then 29 else 28, 31, 30, 31, 30, 31, 31, 30, 31, 30, 31][month - 1]
    ensures IsLeap(2024) && IsLeap(2000) && !IsLeap(1900) && !IsLeap(2023)
    ensures Date(1970, 1, 1).Ordinal() == 719162 && Date(1900, 3, 1).Ordinal() == 693654
    ensures Date(2000, 3, 1).Ordinal() == 730179 && Date(2024, 2, 29).Ordinal() == 738944
  {
    assert DaysBeforeMonth(1900, 2) == 31 && DaysBeforeMonth(2000, 2) == 31 && DaysBeforeMonth(2024, 2) == 31;
  }

  // ---------------------------------------------------------------- instants

  datatype Stamp = Stamp(date: Date, hour: nat, minute: nat, second: nat, micro: nat) {
    predicate Valid() {
      date.Valid() && hour < 24 && minute < 60 && second < 60 && micro < MICROS_PER_SECOND
    }

    /** Microseconds into the day. */
    function OfDay(): nat {
      hour * MICROS_PER_HOUR + minute * MICROS_PER_MINUTE + second * MICROS_PER_SECOND + micro
    }

    function Micros(): int
      requires Valid()
    {
      date.Ordinal() * MICROS_PER_DAY + OfDay()
    }

    predicate TimeBefore(other: Stamp) {
      hour < other.hour || (hour == other.hour && (minute < other.minute || (minute == other.minute
        && (second < other.second || (second == other.second && micro < other.micro)))))
    }
  }

  type Instant = t: int | 0 <= t < (LAST_ORDINAL + 1) * MICROS_PER_DAY

  /** The fields of an instant's datetime. */
  function StampOf(t: Instant): (s: Stamp)
    ensures s.Valid() && s.Micros() == t
  {
    var days, inDay := t / MICROS_PER_DAY, t % MICROS_PER_DAY;
    var inHour := inDay % MICROS_PER_HOUR;
    var inMinute := inHour % MICROS_PER_MINUTE;
    assert inDay == inDay / MICROS_PER_HOUR * MICROS_PER_HOUR + inHour;
    assert inHour == inHour / MICROS_PER_MINUTE * MICROS_PER_MINUTE + inMinute;
    assert inMinute == inMinute / MICROS_PER_SECOND * MICROS_PER_SECOND + inMinute % MICROS_PER_SECOND;
    Stamp(FromOrdinal(days), inDay / MICROS_PER_HOUR, inHour / MICROS_PER_MINUTE,
          inMinute / MICROS_PER_SECOND, inMinute % MICROS_PER_SECOND)
  }

  lemma StampOrder(a: Stamp, b: Stamp)
    requires a.Valid() && b.Valid()
    ensures a.Micros() < b.Micros() <==> a.date.Before(b.date) || (a.date == b.date && a.TimeBefore(b))
    ensures a.Micros() == b.Micros() <==> a == b
  {
    DateOrder(a.date, b.date);
    TimeOrder(a, b);
    DayThenTime(a.date.Ordinal(), a.OfDay(), b.date.Ordinal(), b.OfDay());
  }

  lemma TimeOrder(a: Stamp, b: Stamp)
    requires a.Valid() && b.Valid()
    ensures a.TimeBefore(b) <==> a.OfDay() < b.OfDay()
    ensures a.OfDay() == b.OfDay() <==> a == b.(date := a.date)
    ensures a.OfDay() < MICROS_PER_DAY && b.OfDay() < MICROS_PER_DAY
  {
  }

  lemma DayThenTime(d: int, t: nat, e: int, u: nat)
    requires t < MICROS_PER_DAY && u < MICROS_PER_DAY
    ensures d * MICROS_PER_DAY + t < e * MICROS_PER_DAY + u <==> d < e || (d == e && t < u)
  {
  }

  // ---------------------------------------------------------------- text

  /** The fraction, left out when it is zero, and the offset. */
  function FractionText(micro: nat): string {
    (if micro == 0 then "" else "." + Pad(micro, 6)) + "+00:00"
  }

  function TimeText(s: Stamp): string {
    Pad(s.hour, 2) + (":" + (Pad(s.minute, 2) + (":" + (Pad(s.second, 2) + FractionText(s.micro)))))
  }

  /** `isoformat()` of a UTC datetime */
  function Iso(s: Stamp): string {
    Pad(s.date.year, 4) + ("-" + (Pad(s.date.month, 2) + ("-" + (Pad(s.date.day, 2) + ("T" + TimeText(s))))))
  }

  function Written(t: Instant): string {
    Iso(StampOf(t))
  }

  /** A fixed-width number in front decides; only behind equal ones does the rest. */
  lemma PadFirst(m: nat, n: nat, w: nat, x: string, y: string)
    requires w > 0 && m < Pow10(w) && n < Pow10(w)
    ensures Less(Pad(m, w) + x, Pad(n, w) + y) <==> m < n || (m == n && Less(x, y))
  {
    PadOrder(m, n, w);
    LessAppend(Pad(m, w), Pad(n, w), x, y);
  }

  lemma SameFirst(sep: char, x: string, y: string)
    ensures Less([sep] + x, [sep] + y) <==> Less(x, y)
  {
    assert ([sep] + x)[1..] == x && ([sep] + y)[1..] == y;
  }

  lemma Powers()
    ensures Pow10(2) == 100 && Pow10(4) == 10000 && Pow10(6) == 1000000
  {
    assert Pow10(1) == 10;
    assert Pow10(3) == 1000 && Pow10(5) == 100000;
  }

  /** A dropped zero fraction still sorts first: the offset's '+' comes before '.'. */
  lemma FractionOrder(m: nat, n: nat)
    requires m < MICROS_PER_SECOND && n < MICROS_PER_SECOND
    ensures Less(FractionText(m), FractionText(n)) <==> m < n
  {
    Powers();
    var x, y := FractionText(m), FractionText(n);
    if m > 0 && n > 0 {
      assert x == "." + (Pad(m, 6) + "+00:00") && y == "." + (Pad(n, 6) + "+00:00");
      SameFirst('.', Pad(m, 6) + "+00:00", Pad(n, 6) + "+00:00");
      PadFirst(m, n, 6, "+00:00", "+00:00");
      LessIrreflexive("+00:00");
    } else if m == 0 && n == 0 {
      LessIrreflexive(x);
    } else {
      assert m == 0 ==> x[0] == '+' && y[0] == '.';
      assert n == 0 ==> x[0] == '.' && y[0] == '+';
    }
  }

  lemma Behind(front: string, rest: string, n: nat)
    requires |front| == n
    ensures (front + rest)[..n] == front && (front + rest)[n..] == rest
  {
  }

  /** The numbers of a date stand padded with zeros in their places. */
  lemma DateMeans(s: Stamp)
    requires s.Valid()
    ensures var t := Iso(s);
      && |t| == 11 + |TimeText(s)| && t[11..] == TimeText(s)
      && t[..4] == Pad(s.date.year, 4) && t[5..7] == Pad(s.date.month, 2) && t[8..10] == Pad(s.date.day, 2)
      && t[4] == t[7] == '-' && t[10] == 'T'
  {
    Powers();
    PadWidth(s.date.year, 4);
    PadWidth(s.date.month, 2);
    PadWidth(s.date.day, 2);
    DatePlaces(Pad(s.date.year, 4), Pad(s.date.month, 2), Pad(s.date.day, 2), TimeText(s), Iso(s));
  }

  lemma DatePlaces(year: string, month: string, day: string, time: string, all: string)
    requires |year| == 4 && |month| == |day| == 2
    requires all == year + ("-" + (month + ("-" + (day + ("T" + time)))))
    ensures |all| == 11 + |time| && all[11..] == time
    ensures all[..4] == year && all[5..7] == month && all[8..10] == day
    ensures all[4] == all[7] == '-' && all[10] == 'T'
  {
    var fromDay := day + ("T" + time);
    Behind(year, "-" + (month + ("-" + fromDay)), 4);
    assert all[4..] == "-" + (month + ("-" + fromDay));
    assert all[5..] == month + ("-" + fromDay);
    assert all[8..] == fromDay;
  }

  /** So do those of the time, with a fraction only when there is one. */
  lemma TimeMeans(s: Stamp)
    requires s.Valid()
    ensures var t := TimeText(s);
      && t[8..] == (if s.micro == 0 then "" else "." + Pad(s.micro, 6)) + "+00:00"
      && t[..2] == Pad(s.hour, 2) && t[3..5] == Pad(s.minute, 2) && t[6..8] == Pad(s.second, 2)
      && t[2] == t[5] == ':'
  {
    Powers();
    PadWidth(s.hour, 2);
    PadWidth(s.minute, 2);
    PadWidth(s.second, 2);
    TimePlaces(Pad(s.hour, 2), Pad(s.minute, 2), Pad(s.second, 2), FractionText(s.micro), TimeText(s));
  }

  lemma TimePlaces(hour: string, minute: string, second: string, rest: string, all: string)
    requires |hour| == |minute| == |second| == 2 && all == hour + (":" + (minute + (":" + (second + rest))))
    ensures |all| == 8 + |rest| && all[8..] == rest
    ensures all[..2] == hour && all[3..5] == minute && all[6..8] == second
    ensures all[2] == all[5] == ':'
  {
    Behind(hour, ":" + (minute + (":" + (second + rest))), 2);
    assert all[2..] == ":" + (minute + (":" + (second + rest)));
    assert all[3..] == minute + (":" + (second + rest));
    assert all[6..] == second + rest;
  }

  lemma TimeTextOrder(a: Stamp, b: Stamp)
    requires a.Valid() && b.Valid()
    ensures Less(TimeText(a), TimeText(b)) <==> a.TimeBefore(b)
  {
    Powers();
    var x2, y2 := Pad(a.second, 2) + FractionText(a.micro), Pad(b.second, 2) + FractionText(b.micro);
    var x1, y1 := Pad(a.minute, 2) + (":" + x2), Pad(b.minute, 2) + (":" + y2);
    FractionOrder(a.micro, b.micro);
    PadFirst(a.second, b.second, 2, FractionText(a.micro), FractionText(b.micro));
    SameFirst(':', x2, y2);
    PadFirst(a.minute, b.minute, 2, ":" + x2, ":" + y2);
    SameFirst(':', x1, y1);
    PadFirst(a.hour, b.hour, 2, ":" + x1, ":" + y1);
  }

  lemma IsoTextOrder(a: Stamp, b: Stamp)
    requires a.Valid() && b.Valid()
    ensures Less(Iso(a), Iso(b)) <==> a.date.Before(b.date) || (a.date == b.date && a.TimeBefore(b))
  {
    Powers();
    var x2, y2 := Pad(a.date.day, 2) + ("T" + TimeText(a)), Pad(b.date.day, 2) + ("T" + TimeText(b));
    var x1, y1 := Pad(a.date.month, 2) + ("-" + x2), Pad(b.date.month, 2) + ("-" + y2);
    TimeTextOrder(a, b);
    SameFirst('T', TimeText(a), TimeText(b));
    PadFirst(a.date.day, b.date.day, 2, "T" + TimeText(a), "T" + TimeText(b));
    SameFirst('-', x2, y2);
    PadFirst(a.date.month, b.date.month, 2, "-" + x2, "-" + y2);
    SameFirst('-', x1, y1);
    PadFirst(a.date.year, b.date.year, 4, "-" + x1, "-" + y1);
  }

  /**
   The texts of two instants compare as strings exactly as the instants compare, for every instant of the
   years 1 to 9999, whether or not either has a fraction; and an instant is recovered from its text.
   */
  lemma WrittenOrder(s: Instant, t: Instant)
    ensures Less(Written(s), Written(t)) <==> s < t
    ensures Leq(Written(s), Written(t)) <==> s <= t
    ensures Written(s) == Written(t) <==> s == t
  {
    var a, b := StampOf(s), StampOf(t);
    IsoTextOrder(a, b);
    IsoTextOrder(b, a);
    StampOrder(a, b);
    StampOrder(b, a);
    LessIrreflexive(Written(s));
  }

  /**
   A way of writing instants as text. What the stores need of it is only that text order is time order, which
   is what they rely on when they compare columns in SQL and in Python.
   */
  datatype Format = Format(iso: Instant -> string) {
    ghost predicate OrdersByTime() {
      && (forall s: Instant, t: Instant :: Leq(iso(s), iso(t)) <==> s <= t)
      && (forall s: Instant :: iso(s) != "")
    }
  }

  /** `isoformat` */
  const ISO_FORMAT := Format((t: Instant) => Written(t))

  lemma IsoOrdersByTime()
    ensures ISO_FORMAT.OrdersByTime()
  {
    forall s: Instant, t: Instant ensures Leq(ISO_FORMAT.iso(s), ISO_FORMAT.iso(t)) <==> s <= t {
      WrittenOrder(s, t);
    }
    forall s: Instant ensures ISO_FORMAT.iso(s) != "" {
      assert |Iso(StampOf(s))| >= 1;
    }
  }
}
