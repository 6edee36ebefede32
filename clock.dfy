/**
 * Clock readings and the three `strftime` formats the chat application uses:
 * `%Y-%m-%d` (default chat titles), `%Y-%m-%d %H:%M:%S` (history timestamps)
 * and `%Y%m%d_%H%M%S` (chat identifiers). Also Python's `<` on `str`, so that
 * ordering history entries by their timestamp string can be related to
 * chronological order.
 */
module Clock {

  datatype DateTime = DateTime(year: int, month: int, day: int, hour: int, minute: int, second: int)

  /** A reading of the wall clock: every field in the range `strftime` prints at a fixed width. */
  predicate Valid(t: DateTime) {
    && 1000 <= t.year <= 9999
    && 1 <= t.month <= 12
    && 1 <= t.day <= 31
    && 0 <= t.hour < 24
    && 0 <= t.minute < 60
    && 0 <= t.second < 60
  }

  type Instant = t: DateTime | Valid(t) witness DateTime(2000, 1, 1, 0, 0, 0)

  /** Chronological order: strictly earlier. */
  predicate Before(a: DateTime, b: DateTime) {
    if a.year != b.year then a.year < b.year
    else if a.month != b.month then a.month < b.month
    else if a.day != b.day then a.day < b.day
    else if a.hour != b.hour then a.hour < b.hour
    else if a.minute != b.minute then a.minute < b.minute
    else a.second < b.second
  }

  function Digit(d: int): (c: char)
    requires 0 <= d < 10
    ensures '0' <= c <= '9'
  {
    (48 + d) as char
  }

  /** A number below 100 as two decimal digits, zero padded (`%m`, `%d`, `%H`, `%M`, `%S`). */
  function Pad2(n: int): (s: string)
    requires 0 <= n < 100
    ensures |s| == 2
  {
    [Digit(n / 10), Digit(n % 10)]
  }

  /** A number below 10000 as four decimal digits (`%Y`). */
  function Pad4(n: int): (s: string)
    requires 0 <= n < 10000
    ensures |s| == 4
  {
    Pad2(n / 100) + Pad2(n % 100)
  }

  /** `strftime('%Y-%m-%d')` */
  function FormatDate(t: Instant): (s: string)
    ensures |s| == 10
  {
    Pad4(t.year) + "-" + Pad2(t.month) + "-" + Pad2(t.day)
  }

  /** `strftime('%Y-%m-%d %H:%M:%S')` */
  function FormatTimestamp(t: Instant): (s: string)
    ensures |s| == 19
  {
    FormatDate(t) + " " + Pad2(t.hour) + ":" + Pad2(t.minute) + ":" + Pad2(t.second)
  }

  /** `strftime('%Y%m%d_%H%M%S')` */
  function FormatChatId(t: Instant): (s: string)
    ensures |s| == 15
  {
    Pad4(t.year) + Pad2(t.month) + Pad2(t.day) + "_" + Pad2(t.hour) + Pad2(t.minute) + Pad2(t.second)
  }

  /** Python's `a < b` on `str`: lexicographic by code point, a proper prefix is smaller. */
  predicate StrLess(a: string, b: string): (less: bool)
    ensures a < b ==> less
    ensures less ==> b != [] && !(b <= a)
  {
    if b == [] then false
    else if a == [] then true
    else if a[0] != b[0] then a[0] < b[0]
    else StrLess(a[1..], b[1..])
  }

  lemma StrLessIrreflexive(a: string)
    ensures !StrLess(a, a)
  {
  }

  lemma {:induction false} StrLessTransitive(a: string, b: string, c: string)
    requires StrLess(a, b) && StrLess(b, c)
    ensures StrLess(a, c)
  {
    if a != [] && a[0] == b[0] && b[0] == c[0] {
      StrLessTransitive(a[1..], b[1..], c[1..]);
    }
  }

  lemma {:induction false} StrLessTotal(a: string, b: string)
    ensures a == b || StrLess(a, b) || StrLess(b, a)
  {
    if a != [] && b != [] && a[0] == b[0] {
      StrLessTotal(a[1..], b[1..]);
      if a[1..] == b[1..] {
        assert a == [a[0]] + a[1..] && b == [b[0]] + b[1..];
      }
    }
  }

  /** Comparing two strings that start with parts of equal width compares those parts first. */
  lemma {:induction false} StrLessConcat(x1: string, y1: string, x2: string, y2: string)
    requires |x1| == |x2|
    ensures StrLess(x1 + y1, x2 + y2) <==> StrLess(x1, x2) || (x1 == x2 && StrLess(y1, y2))
  {
    if x1 == [] {
      assert x1 + y1 == y1 && x2 + y2 == y2;
    } else {
      assert (x1 + y1)[1..] == x1[1..] + y1;
      assert (x2 + y2)[1..] == x2[1..] + y2;
      StrLessConcat(x1[1..], y1, x2[1..], y2);
      if x1[0] == x2[0] && x1[1..] == x2[1..] {
        assert x1 == [x1[0]] + x1[1..] && x2 == [x2[0]] + x2[1..];
      }
    }
  }

  lemma Pad2Order(m: int, n: int)
    requires 0 <= m < 100 && 0 <= n < 100
    ensures StrLess(Pad2(m), Pad2(n)) <==> m < n
    ensures Pad2(m) == Pad2(n) <==> m == n
  {
    assert Pad2(m) == [Digit(m / 10)] + [Digit(m % 10)];
    assert Pad2(n) == [Digit(n / 10)] + [Digit(n % 10)];
    StrLessConcat([Digit(m / 10)], [Digit(m % 10)], [Digit(n / 10)], [Digit(n % 10)]);
    if Pad2(m) == Pad2(n) {
      assert Pad2(m)[0] == Pad2(n)[0] && Pad2(m)[1] == Pad2(n)[1];
    }
  }

  lemma Pad4Order(m: int, n: int)
    requires 0 <= m < 10000 && 0 <= n < 10000
    ensures StrLess(Pad4(m), Pad4(n)) <==> m < n
    ensures Pad4(m) == Pad4(n) <==> m == n
  {
    StrLessConcat(Pad2(m / 100), Pad2(m % 100), Pad2(n / 100), Pad2(n % 100));
    Pad2Order(m / 100, n / 100);
    Pad2Order(m % 100, n % 100);
    if Pad4(m) == Pad4(n) {
      assert Pad4(m)[..2] == Pad2(m / 100) && Pad4(n)[..2] == Pad2(n / 100);
      assert Pad4(m)[2..] == Pad2(m % 100) && Pad4(n)[2..] == Pad2(n % 100);
    }
  }

  /** A separator and a two-digit field in front of the rest: the field decides unless equal. */
  lemma {:induction false} Pad2Field(sep: string, m: int, r1: string, n: int, r2: string)
    requires 0 <= m < 100 && 0 <= n < 100
    ensures StrLess(sep + Pad2(m) + r1, sep + Pad2(n) + r2) <==> m < n || (m == n && StrLess(r1, r2))
    ensures sep + Pad2(m) + r1 == sep + Pad2(n) + r2 <==> m == n && r1 == r2
  {
    var x1, x2 := sep + Pad2(m), sep + Pad2(n);
    StrLessConcat(x1, r1, x2, r2);
    StrLessConcat(sep, Pad2(m), sep, Pad2(n));
    StrLessIrreflexive(sep);
    Pad2Order(m, n);
    if x1 + r1 == x2 + r2 {
      assert x1 == (x1 + r1)[..|x1|] && x2 == (x2 + r2)[..|x2|];
      assert r1 == (x1 + r1)[|x1|..] && r2 == (x2 + r2)[|x2|..];
    }
    if x1 == x2 {
      assert Pad2(m) == x1[|sep|..] && Pad2(n) == x2[|sep|..];
    }
  }

  /** The part of a timestamp from the month on: `-%m-%d %H:%M:%S`. */
  function MonthPart(t: Instant): (part: string) {
    "-" + Pad2(t.month) + DayPart(t)
  }

  function DayPart(t: Instant): (part: string) {
    "-" + Pad2(t.day) + HourPart(t)
  }

  function HourPart(t: Instant): (part: string) {
    " " + Pad2(t.hour) + MinutePart(t)
  }

  function MinutePart(t: Instant): (part: string) {
    ":" + Pad2(t.minute) + SecondPart(t)
  }

  function SecondPart(t: Instant): (part: string) {
    ":" + Pad2(t.second)
  }

  /** Chronological order restricted to the fields from `level` on (0 = month, ..., 4 = second). */
  predicate BeforeFrom(level: nat, a: Instant, b: Instant)
    requires level <= 4
    decreases 4 - level
  {
    var fa, fb := FieldAt(level, a), FieldAt(level, b);
    if level == 4 then fa < fb
    else fa < fb || (fa == fb && BeforeFrom(level + 1, a, b))
  }

  function FieldAt(level: nat, t: Instant): (field: int)
    requires level <= 4
  {
    [t.month, t.day, t.hour, t.minute, t.second][level]
  }

  predicate SameFrom(level: nat, a: Instant, b: Instant)
    requires level <= 4
  {
    forall k :: level <= k <= 4 ==> FieldAt(k, a) == FieldAt(k, b)
  }

  function PartFrom(level: nat, t: Instant): (part: string)
    requires level <= 4
  {
    match level
    case 0 => MonthPart(t)
    case 1 => DayPart(t)
    case 2 => HourPart(t)
    case 3 => MinutePart(t)
    case _ => SecondPart(t)
  }

  lemma {:induction false} PartOrder(level: nat, a: Instant, b: Instant)
    requires level <= 4
    ensures StrLess(PartFrom(level, a), PartFrom(level, b)) <==> BeforeFrom(level, a, b)
    ensures PartFrom(level, a) == PartFrom(level, b) <==> SameFrom(level, a, b)
    decreases 4 - level
  {
    if level == 4 {
      assert !StrLess("", "");
      Pad2Field(":", a.second, "", b.second, "");
      assert SecondPart(a) == ":" + Pad2(a.second) + "" && SecondPart(b) == ":" + Pad2(b.second) + "";
    } else {
      PartOrder(level + 1, a, b);
      var sep := ["-", "-", " ", ":"][level];
      Pad2Field(sep, FieldAt(level, a), PartFrom(level + 1, a), FieldAt(level, b), PartFrom(level + 1, b));
      assert PartFrom(level, a) == sep + Pad2(FieldAt(level, a)) + PartFrom(level + 1, a);
      assert PartFrom(level, b) == sep + Pad2(FieldAt(level, b)) + PartFrom(level + 1, b);
    }
  }

  /**
   * The `%Y-%m-%d %H:%M:%S` timestamp is fixed width and most significant field first,
   * so comparing the strings compares the instants.
   */
  lemma TimestampOrder(a: Instant, b: Instant)
    ensures StrLess(FormatTimestamp(a), FormatTimestamp(b)) <==> Before(a, b)
    ensures FormatTimestamp(a) == FormatTimestamp(b) <==> a == b
  {
    assert FormatTimestamp(a) == Pad4(a.year) + MonthPart(a);
    assert FormatTimestamp(b) == Pad4(b.year) + MonthPart(b);
    StrLessConcat(Pad4(a.year), MonthPart(a), Pad4(b.year), MonthPart(b));
    Pad4Order(a.year, b.year);
    PartOrder(0, a, b);
    if FormatTimestamp(a) == FormatTimestamp(b) {
      var fa, fb := FormatTimestamp(a), FormatTimestamp(b);
      assert Pad4(a.year) == fa[..4] && Pad4(b.year) == fb[..4];
      assert MonthPart(a) == fa[4..] && MonthPart(b) == fb[4..];
    }
    if SameFrom(0, a, b) && a.year == b.year {
      assert FieldAt(0, a) == FieldAt(0, b) && FieldAt(1, a) == FieldAt(1, b);
      assert FieldAt(2, a) == FieldAt(2, b) && FieldAt(3, a) == FieldAt(3, b);
      assert FieldAt(4, a) == FieldAt(4, b);
    }
  }
}
