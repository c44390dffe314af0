/**
 The month keys of `backfill/ingest.py` and `migrate.py`: `YYYY-MM` strings, which the
 archive walk compares as strings. Month `i` is the `i`-th month since January of year 0.
 */
module Months {
  import opened Strings
  import opened Wrappers

  const HORIZON := 120000   // years of at most four digits

  function Digit(d: nat): char
    requires d < 10
  {
    '0' + d as char
  }

  predicate IsDigit(c: char) {
    '0' <= c <= '9'
  }

  function Value(c: char): nat
    requires IsDigit(c)
  {
    (c - '0') as nat
  }

  /** `f"{year:04d}-{month:02d}"` */
  function Format(year: nat, month: nat): string
    requires year < 10000 && month < 100
  {
    [Digit(year / 1000), Digit(year / 100 % 10), Digit(year / 10 % 10), Digit(year % 10), '-',
     Digit(month / 10), Digit(month % 10)]
  }

  function Key(i: nat): string
    requires i < HORIZON
  {
    Format(i / 12, i % 12 + 1)
  }

  /** The year and month of a key, if it is one. */
  function Parse(key: string): Option<(nat, nat)> {
    if |key| == 7 && IsDigit(key[0]) && IsDigit(key[1]) && IsDigit(key[2]) && IsDigit(key[3]) && key[4] == '-'
       && IsDigit(key[5]) && IsDigit(key[6]) then
      var year := 1000 * Value(key[0]) + 100 * Value(key[1]) + 10 * Value(key[2]) + Value(key[3]);
      var month := 10 * Value(key[5]) + Value(key[6]);
      if 1 <= month <= 12 then Some((year, month)) else None
    else None
  }

  /** Which month a key names. */
  function Ordinal(key: string): (month: Option<nat>)
    ensures month.Some? <==> Parse(key).Some?
  {
    match Parse(key)
    case None => None
    case Some((year, month)) => Some(12 * year + month - 1)
  }

  function PreviousMonth(key: string): string
    requires Parse(key).Some? && Ordinal(key) != Some(0)
  {
    FormatBounds(key);
    var (year, month) := Parse(key).value;
    if month == 1 then Format(year - 1, 12) else Format(year, month - 1)
  }

  function NextMonth(key: string): string
    requires Parse(key).Some? && Ordinal(key).value + 1 < HORIZON
  {
    FormatBounds(key);
    var (year, month) := Parse(key).value;
    if month == 12 then Format(year + 1, 1) else Format(year, month + 1)
  }

  lemma FormatBounds(key: string)
    requires Parse(key).Some?
    ensures Parse(key).value.0 < 10000 && 1 <= Parse(key).value.1 <= 12
  {
  }

  lemma DigitsOf(y: nat)
    requires y < 10000
    ensures y == 1000 * (y / 1000) + 100 * (y / 100 % 10) + 10 * (y / 10 % 10) + y % 10
    ensures y / 1000 < 10
  {
    assert y / 100 == y / 10 / 10;
    assert y / 1000 == y / 100 / 10;
  }

  lemma DigitValue(d: nat)
    requires d < 10
    ensures '0' <= Digit(d) <= '9' && Value(Digit(d)) == d
  {
  }

  lemma ParseFormat(year: nat, month: nat)
    requires year < 10000 && 1 <= month <= 12
    ensures Parse(Format(year, month)) == Some((year, month))
  {
    DigitsOf(year);
    DigitValue(year / 1000);
    DigitValue(year / 100 % 10);
    DigitValue(year / 10 % 10);
    DigitValue(year % 10);
    DigitValue(month / 10);
    DigitValue(month % 10);
  }

  /** Printing and parsing undo each other. */
  lemma KeyNamesItsMonth(i: nat)
    requires i < HORIZON
    ensures Parse(Key(i)) == Some((i / 12, i % 12 + 1)) && Ordinal(Key(i)) == Some(i)
  {
    ParseFormat(i / 12, i % 12 + 1);
  }

  lemma MonthHasOneKey(key: string)
    requires Parse(key).Some?
    ensures Ordinal(key).value < HORIZON && Key(Ordinal(key).value) == key
  {
    var (year, month) := Parse(key).value;
    var i := Ordinal(key).value;
    assert i / 12 == year && i % 12 + 1 == month;
    FormatBounds(key);
    FourDigits(Value(key[0]), Value(key[1]), Value(key[2]), Value(key[3]));
    assert month / 10 == Value(key[5]) && month % 10 == Value(key[6]);
    assert forall k :: 0 <= k < 7 ==> Key(i)[k] == key[k];
  }

  lemma FourDigits(a: nat, b: nat, c: nat, d: nat)
    requires a < 10 && b < 10 && c < 10 && d < 10
    ensures var y := 1000 * a + 100 * b + 10 * c + d;
      y / 1000 == a && y / 100 % 10 == b && y / 10 % 10 == c && y % 10 == d
  {
    var y := 1000 * a + 100 * b + 10 * c + d;
    assert y / 10 == 100 * a + 10 * b + c;
    assert y / 100 == 10 * a + b;
  }

  lemma PreviousMonthIsOneBack(key: string)
    requires Parse(key).Some? && Ordinal(key) != Some(0)
    ensures PreviousMonth(key) == Key(Ordinal(key).value - 1)
    ensures Ordinal(PreviousMonth(key)) == Some(Ordinal(key).value - 1)
  {
    FormatBounds(key);
    var (year, month) := Parse(key).value;
    var i := Ordinal(key).value - 1;
    assert i / 12 == if month == 1 then year - 1 else year;
    KeyNamesItsMonth(i);
  }

  lemma NextMonthIsOneOn(key: string)
    requires Parse(key).Some? && Ordinal(key).value + 1 < HORIZON
    ensures NextMonth(key) == Key(Ordinal(key).value + 1)
    ensures Ordinal(NextMonth(key)) == Some(Ordinal(key).value + 1)
  {
    FormatBounds(key);
    var (year, month) := Parse(key).value;
    var i := Ordinal(key).value + 1;
    assert i / 12 == if month == 12 then year + 1 else year;
    KeyNamesItsMonth(i);
  }

  /** One step back undoes one step on ... */
  lemma BackUndoesOn(key: string)
    requires Parse(key).Some? && Ordinal(key).value + 1 < HORIZON
    ensures Parse(NextMonth(key)).Some? && Ordinal(NextMonth(key)) != Some(0) && PreviousMonth(NextMonth(key)) == key
  {
    MonthHasOneKey(key);
    NextMonthIsOneOn(key);
    PreviousMonthIsOneBack(NextMonth(key));
  }

  /** ... and the other way round. */
  lemma OnUndoesBack(key: string)
    requires Parse(key).Some? && Ordinal(key) != Some(0)
    ensures Parse(PreviousMonth(key)).Some? && Ordinal(PreviousMonth(key)).value + 1 < HORIZON
    ensures NextMonth(PreviousMonth(key)) == key
  {
    MonthHasOneKey(key);
    PreviousMonthIsOneBack(key);
    NextMonthIsOneOn(PreviousMonth(key));
  }

  lemma DigitFirst(c: nat, d: nat, s: string, t: string)
    requires c < 10 && d < 10
    ensures Less([Digit(c)] + s, [Digit(d)] + t) <==> c < d || (c == d && Less(s, t))
  {
    assert ([Digit(c)] + s)[1..] == s && ([Digit(d)] + t)[1..] == t;
  }

  lemma FourDigitsFirst(a: nat, b: nat, c: nat, d: nat, a': nat, b': nat, c': nat, d': nat, s: string, t: string)
    requires a < 10 && b < 10 && c < 10 && d < 10 && a' < 10 && b' < 10 && c' < 10 && d' < 10
    ensures var y, z := 1000 * a + 100 * b + 10 * c + d, 1000 * a' + 100 * b' + 10 * c' + d';
      Less([Digit(a), Digit(b), Digit(c), Digit(d)] + s, [Digit(a'), Digit(b'), Digit(c'), Digit(d')] + t) ==
      (y < z || (y == z && Less(s, t)))
  {
    hide Less, Digit;
    var s1, t1 := [Digit(d)] + s, [Digit(d')] + t;
    var s2, t2 := [Digit(c)] + s1, [Digit(c')] + t1;
    var s3, t3 := [Digit(b)] + s2, [Digit(b')] + t2;
    DigitFirst(d, d', s, t);
    DigitFirst(c, c', s1, t1);
    DigitFirst(b, b', s2, t2);
    DigitFirst(a, a', s3, t3);
    assert [Digit(a), Digit(b), Digit(c), Digit(d)] + s == [Digit(a)] + s3;
    assert [Digit(a'), Digit(b'), Digit(c'), Digit(d')] + t == [Digit(a')] + t3;
  }

  lemma YearFirst(y: nat, z: nat, s: string, t: string)
    requires y < 10000 && z < 10000
    ensures Less([Digit(y / 1000), Digit(y / 100 % 10), Digit(y / 10 % 10), Digit(y % 10)] + s,
                 [Digit(z / 1000), Digit(z / 100 % 10), Digit(z / 10 % 10), Digit(z % 10)] + t)
            <==> y < z || (y == z && Less(s, t))
  {
    hide Less, Digit;
    DigitsOf(y);
    DigitsOf(z);
    FourDigitsFirst(y / 1000, y / 100 % 10, y / 10 % 10, y % 10, z / 1000, z / 100 % 10, z / 10 % 10, z % 10, s, t);
  }

  lemma MonthLast(m: nat, n: nat)
    requires 1 <= m <= 12 && 1 <= n <= 12
    ensures Less(['-', Digit(m / 10), Digit(m % 10)], ['-', Digit(n / 10), Digit(n % 10)]) <==> m < n
  {
    assert !Less([], []);
    DigitFirst(m % 10, n % 10, [], []);
    DigitFirst(m / 10, n / 10, [Digit(m % 10)], [Digit(n % 10)]);
    assert [Digit(m / 10)] + [Digit(m % 10)] == ['-', Digit(m / 10), Digit(m % 10)][1..];
    assert [Digit(n / 10)] + [Digit(n % 10)] == ['-', Digit(n / 10), Digit(n % 10)][1..];
  }

  /** Comparing keys as strings is comparing months. */
  lemma StringOrderIsCalendarOrder(i: nat, j: nat)
    requires i < HORIZON && j < HORIZON
    ensures Less(Key(i), Key(j)) <==> i < j
  {
    var y, m, z, n := i / 12, i % 12 + 1, j / 12, j % 12 + 1;
    YearFirst(y, z, ['-', Digit(m / 10), Digit(m % 10)], ['-', Digit(n / 10), Digit(n % 10)]);
    MonthLast(m, n);
    assert Key(i) == [Digit(y / 1000), Digit(y / 100 % 10), Digit(y / 10 % 10), Digit(y % 10)] + ['-', Digit(m / 10), Digit(m % 10)];
    assert Key(j) == [Digit(z / 1000), Digit(z / 100 % 10), Digit(z / 10 % 10), Digit(z % 10)] + ['-', Digit(n / 10), Digit(n % 10)];
  }

  /** Oldest month a walk anchored at `anchor` reaches back to. */
  method FloorFromAnchor(anchor: string, months: nat) returns (key: string)
    requires Parse(anchor).Some? && months <= Ordinal(anchor).value
    ensures key == Key(Ordinal(anchor).value - months) && Ordinal(key) == Some(Ordinal(anchor).value - months)
  {
    hide Parse, Key, PreviousMonth;
    key := anchor;
    MonthHasOneKey(anchor);
    for i := 0 to months
      invariant Parse(key).Some? && Ordinal(key) == Some(Ordinal(anchor).value - i)
      invariant key == Key(Ordinal(anchor).value - i)
    {
      PreviousMonthIsOneBack(key);
      key := PreviousMonth(key);
    }
  }

  /** The anchor a migrated walk is given: its cursor moved forward by the whole window. */
  method AnchorFor(cursor: string, months: nat) returns (anchor: string)
    requires Parse(cursor).Some? && Ordinal(cursor).value + months < HORIZON
    ensures anchor == Key(Ordinal(cursor).value + months) && Ordinal(anchor) == Some(Ordinal(cursor).value + months)
  {
    hide Parse, Key, NextMonth;
    anchor := cursor;
    MonthHasOneKey(cursor);
    for i := 0 to months
      invariant Parse(anchor).Some? && Ordinal(anchor) == Some(Ordinal(cursor).value + i)
      invariant anchor == Key(Ordinal(cursor).value + i)
    {
      NextMonthIsOneOn(anchor);
      anchor := NextMonth(anchor);
    }
  }

  /** So a migrated walk resumes at its cursor: the floor of the anchor it is given is that very month. */
  method MigratedFloor(cursor: string, months: nat) returns (floor: string)
    requires Parse(cursor).Some? && Ordinal(cursor).value + months < HORIZON
    ensures floor == cursor
  {
    var anchor := AnchorFor(cursor, months);
    floor := FloorFromAnchor(anchor, months);
    MonthHasOneKey(cursor);
  }

  // ------------------------------------------------------------------ instants

  /** A UTC instant; `rest` is the time within the day, in any unit. */
  datatype Instant = Instant(year: nat, month: nat, day: nat, rest: nat)

  predicate OnCalendar(t: Instant) {
    t.year < 10000 && 1 <= t.month <= 12 && 1 <= t.day
  }

  predicate Before(a: Instant, b: Instant) {
    || a.year < b.year
    || (a.year == b.year && (a.month < b.month
        || (a.month == b.month && (a.day < b.day || (a.day == b.day && a.rest < b.rest)))))
  }

  function MonthKey(t: Instant): string
    requires OnCalendar(t)
  {
    Format(t.year, t.month)
  }

  /** `[start, end)` of a month, as `month_bounds` builds it. */
  function Bounds(key: string): (Instant, Instant)
    requires Parse(key).Some?
  {
    var (year, month) := Parse(key).value;
    (Instant(year, month, 1, 0),
     if month == 12 then Instant(year + 1, 1, 1, 0) else Instant(year, month + 1, 1, 0))
  }

  lemma FormatIsInjective(year: nat, month: nat, year': nat, month': nat)
    requires year < 10000 && 1 <= month <= 12 && year' < 10000 && 1 <= month' <= 12
    ensures Format(year, month) == Format(year', month') <==> year == year' && month == month'
  {
    ParseFormat(year, month);
    ParseFormat(year', month');
  }

  lemma KeyIsItsFormat(key: string)
    requires Parse(key).Some?
    ensures var (year, month) := Parse(key).value; year < 10000 && 1 <= month <= 12 && key == Format(year, month)
  {
    FormatBounds(key);
    MonthHasOneKey(key);
    var (year, month) := Parse(key).value;
    assert (12 * year + month - 1) / 12 == year;
  }

  /** Months tile time: an instant lies within the bounds of exactly the month its key names. */
  lemma BoundsHoldExactlyTheirMonth(key: string, t: Instant)
    requires Parse(key).Some? && OnCalendar(t)
    ensures (!Before(t, Bounds(key).0) && Before(t, Bounds(key).1)) <==> MonthKey(t) == key
  {
    hide Parse, Format;
    KeyIsItsFormat(key);
    var (year, month) := Parse(key).value;
    FormatIsInjective(t.year, t.month, year, month);
  }

  lemma BoundsMeet(key: string)
    requires Parse(key).Some? && Ordinal(key).value + 1 < HORIZON
    ensures Parse(NextMonth(key)).Some? && Bounds(key).1 == Bounds(NextMonth(key)).0
  {
    NextMonthIsOneOn(key);
    FormatBounds(key);
    var (year, month) := Parse(key).value;
    ParseFormat(if month == 12 then year + 1 else year, if month == 12 then 1 else month + 1);
  }
}
