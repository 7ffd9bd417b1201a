/** UTC timestamps as the store writes them, and why comparing them as text compares instants. */
module Timestamps {
  import opened Results
  import opened Text

  // ----- SQLite's binary text order

  predicate TextLess(a: string, b: string) {
    b != "" && (a == "" || a[0] < b[0] || (a[0] == b[0] && TextLess(a[1..], b[1..])))
  }

  predicate TextAtMost(a: string, b: string) {
    a == b || TextLess(a, b)
  }

  lemma {:induction false} LessIrreflexive(a: string)
    ensures !TextLess(a, a)
  {
    if a != "" {
      LessIrreflexive(a[1..]);
    }
  }

  /** Equally long prefixes decide the order unless they are equal. */
  lemma {:induction false} LessByPrefix(p: string, x: string, q: string, y: string)
    requires |p| == |q|
    ensures TextLess(p + x, q + y) <==> TextLess(p, q) || (p == q && TextLess(x, y))
  {
    if p == "" {
      assert p + x == x && q + y == y;
    } else {
      assert (p + x)[1..] == p[1..] + x && (q + y)[1..] == q[1..] + y;
      LessByPrefix(p[1..], x, q[1..], y);
      assert p == [p[0]] + p[1..] && q == [q[0]] + q[1..];
    }
  }

  /** a comes before b when it ends first or has the smaller character at the first difference. */
  lemma {:induction false} TextLessMeaning(a: string, b: string)
    ensures TextLess(a, b) <==> exists k: nat :: DiffersAt(a, b, k) && (k < |a| ==> a[k] < b[k])
  {
    if a != "" && b != "" && a[0] == b[0] {
      TextLessMeaning(a[1..], b[1..]);
      if TextLess(a, b) {
        var k: nat :| DiffersAt(a[1..], b[1..], k) && (k < |a[1..]| ==> a[1..][k] < b[1..][k]);
        assert a[..k + 1] == [a[0]] + a[1..][..k] && b[..k + 1] == [b[0]] + b[1..][..k];
        assert DiffersAt(a, b, k + 1);
      }
      forall k: nat | DiffersAt(a, b, k) && (k < |a| ==> a[k] < b[k]) ensures TextLess(a, b) {
        assert a[..k][1..] == a[1..][..k - 1] && b[..k][1..] == b[1..][..k - 1];
        assert DiffersAt(a[1..], b[1..], k - 1);
      }
    } else {
      assert b != "" && TextLess(a, b) ==> DiffersAt(a, b, 0);
      forall k: nat | DiffersAt(a, b, k) ensures k == 0 {
        SharedHead(a, b, k);
      }
    }
  }

  lemma SharedHead(a: string, b: string, k: nat)
    requires DiffersAt(a, b, k)
    ensures k == 0 || (a != "" && b != "" && a[0] == b[0])
  {
    if k > 0 {
      assert a[..k][0] == a[0] && b[..k][0] == b[0];
    }
  }

  /** The two texts agree up to k, where b goes on and a, if it goes on, goes on differently. */
  predicate DiffersAt(a: string, b: string, k: nat) {
    k <= |a| && k < |b| && a[..k] == b[..k] && (k < |a| ==> a[k] != b[k])
  }

  // ----- rendering

  function Pow10(width: nat): nat {
    if width == 0 then 1 else 10 * Pow10(width - 1)
  }

  /** n in decimal, zero-padded to width digits. */
  function Fixed(n: nat, width: nat): (s: string)
    requires n < Pow10(width)
    ensures |s| == width
  {
    if width == 0 then "" else Fixed(n / 10, width - 1) + [DigitChar(n % 10)]
  }

  lemma {:induction false} FixedOrder(a: nat, b: nat, width: nat)
    requires a < Pow10(width) && b < Pow10(width)
    ensures TextLess(Fixed(a, width), Fixed(b, width)) <==> a < b
    ensures Fixed(a, width) == Fixed(b, width) <==> a == b
  {
    if width > 0 {
      FixedOrder(a / 10, b / 10, width - 1);
      var p, q := Fixed(a / 10, width - 1), Fixed(b / 10, width - 1);
      LessByPrefix(p, [DigitChar(a % 10)], q, [DigitChar(b % 10)]);
      LastDigitOrder(a % 10, b % 10);
      assert Fixed(a, width)[..width - 1] == p && Fixed(b, width)[..width - 1] == q;
      assert Fixed(a, width)[width - 1] == DigitChar(a % 10) && Fixed(b, width)[width - 1] == DigitChar(b % 10);
    }
  }

  lemma LastDigitOrder(d: nat, e: nat)
    requires d < 10 && e < 10
    ensures TextLess([DigitChar(d)], [DigitChar(e)]) <==> d < e
    ensures DigitChar(d) == DigitChar(e) <==> d == e
  {
  }

  datatype Instant = Instant(year: nat, month: nat, day: nat, hour: nat, minute: nat, second: nat, micro: nat)

  predicate IsLeap(year: nat) {
    year % 4 == 0 && (year % 100 != 0 || year % 400 == 0)
  }

  function DaysInMonth(year: nat, month: nat): nat {
    if month == 2 then if IsLeap(year) then 29 else 28
    else if month == 4 || month == 6 || month == 9 || month == 11 then 30
    else 31
  }

  /** The instants datetime can hold. */
  predicate IsInstant(t: Instant) {
    && 1 <= t.year <= 9999 && 1 <= t.month <= 12 && 1 <= t.day <= DaysInMonth(t.year, t.month)
    && t.hour < 24 && t.minute < 60 && t.second < 60 && t.micro < 1000000
  }

  lemma Widths()
    ensures Pow10(2) == 100 && Pow10(4) == 10000 && Pow10(6) == 1000000
  {
    assert Pow10(3) == 1000 && Pow10(5) == 100000;
  }

  function Two(n: nat): string
    requires n < 100
  {
    Widths();
    Fixed(n, 2)
  }

  /** The fraction is left out when it is zero. */
  function Fraction(micro: nat): string
    requires micro < 1000000
  {
    Widths();
    if micro == 0 then "" else "." + Fixed(micro, 6)
  }

  function DateText(t: Instant): string
    requires IsInstant(t)
  {
    Widths();
    Fixed(t.year, 4) + ("-" + (Two(t.month) + ("-" + Two(t.day))))
  }

  function ClockText(t: Instant): string
    requires IsInstant(t)
  {
    Two(t.hour) + (":" + (Two(t.minute) + (":" + Two(t.second))))
  }

  /** datetime.isoformat() of a UTC instant. */
  function Rendered(t: Instant): string
    requires IsInstant(t)
  {
    DateText(t) + ("T" + (ClockText(t) + (Fraction(t.micro) + "+00:00")))
  }

  // The text, read back field by field.

  lemma {:induction false} FixedReadBack(n: nat, width: nat)
    requires n < Pow10(width) && width > 0
    ensures NatValue(Fixed(n, width)) == Some(n)
    ensures forall c :: c in Fixed(n, width) ==> IsDigit(c)
  {
    var s := Fixed(n, width);
    if width > 1 {
      FixedReadBack(n / 10, width - 1);
      assert s[..|s| - 1] == Fixed(n / 10, width - 1);
      assert s[|s| - 2] in Fixed(n / 10, width - 1);
    } else {
      assert s == "" + [DigitChar(n % 10)];
    }
  }

  /** From position i on the text is n in width digits. */
  predicate FieldAt(s: string, i: nat, width: nat, n: nat) {
    i + width <= |s| && NatValue(s[i..i + width]) == Some(n) && forall j :: i <= j < i + width ==> IsDigit(s[j])
  }

  lemma FieldInside(a: string, n: nat, width: nat, b: string)
    requires n < Pow10(width) && width > 0
    ensures FieldAt(a + Fixed(n, width) + b, |a|, width, n)
  {
    var s := a + Fixed(n, width) + b;
    FixedReadBack(n, width);
    assert s[|a|..|a| + width] == Fixed(n, width);
    forall j | |a| <= j < |a| + width ensures IsDigit(s[j]) {
      assert s[j] == Fixed(n, width)[j - |a|];
    }
  }

  /** A timestamp has its fields at fixed places, T between date and time, microseconds only if there are any,
      and the offset of UTC. */
  lemma RenderedFields(t: Instant)
    requires IsInstant(t)
    ensures var s := Rendered(t);
      && FieldAt(s, 0, 4, t.year) && FieldAt(s, 5, 2, t.month) && FieldAt(s, 8, 2, t.day)
      && FieldAt(s, 11, 2, t.hour) && FieldAt(s, 14, 2, t.minute) && FieldAt(s, 17, 2, t.second)
    ensures var s := Rendered(t);
      && s[4] == '-' && s[7] == '-' && s[10] == 'T' && s[13] == ':' && s[16] == ':'
      && if t.micro == 0 then s[19..] == "+00:00"
         else s[19] == '.' && FieldAt(s, 20, 6, t.micro) && s[26..] == "+00:00"
  {
    Widths();
    var s := Rendered(t);
    var year, month, day := Fixed(t.year, 4), Two(t.month), Two(t.day);
    var hour, minute, second := Two(t.hour), Two(t.minute), Two(t.second);
    var tail := Fraction(t.micro) + "+00:00";
    PlacesOf(year, month, day, hour, minute, second, tail);
    FieldInside("", t.year, 4, s[4..]);
    assert s == "" + year + s[4..];
    Placed(s, 5, t.month);
    Placed(s, 8, t.day);
    Placed(s, 11, t.hour);
    Placed(s, 14, t.minute);
    Placed(s, 17, t.second);
    assert s[19..] == tail;
    if t.micro != 0 {
      FieldInside("." , t.micro, 6, "+00:00");
      TailField(s, t.micro);
    }
  }

  lemma Placed(s: string, i: nat, n: nat)
    requires n < 100 && i + 2 <= |s| && s[i..i + 2] == Two(n)
    ensures FieldAt(s, i, 2, n)
  {
    Widths();
    FieldInside(s[..i], n, 2, s[i + 2..]);
    assert s == s[..i] + Fixed(n, 2) + s[i + 2..];
  }

  lemma TailField(s: string, micro: nat)
    requires 0 < micro < 1000000 && |s| >= 19 && s[19..] == Fraction(micro) + "+00:00"
    ensures |s| == 32 && s[19] == '.' && FieldAt(s, 20, 6, micro) && s[26..] == "+00:00"
  {
    Widths();
    TailParts(s, Fixed(micro, 6));
    FieldInside(s[..20], micro, 6, "+00:00");
  }

  lemma TailParts(s: string, f: string)
    requires |f| == 6 && |s| >= 19 && s[19..] == ("." + f) + "+00:00"
    ensures |s| == 32 && s[19] == '.' && s[26..] == "+00:00" && s == s[..20] + f + "+00:00"
  {
    var tail := s[19..];
    assert tail[0] == '.' && tail[1..7] == f && tail[7..] == "+00:00";
    assert s[20..26] == tail[1..7] && s[26..] == tail[7..];
  }

  lemma PlacesOf(
    year: string, month: string, day: string, hour: string, minute: string, second: string, tail: string)
    requires |year| == 4 && |month| == |day| == |hour| == |minute| == |second| == 2
    ensures var date := year + ("-" + (month + ("-" + day)));
      var clock := hour + (":" + (minute + (":" + second)));
      var s := date + ("T" + (clock + tail));
      && |s| == 19 + |tail| && s[..4] == year && s[5..7] == month && s[8..10] == day && s[11..13] == hour
      && s[14..16] == minute && s[17..19] == second && s[19..] == tail
      && s[4] == '-' && s[7] == '-' && s[10] == 'T' && s[13] == ':' && s[16] == ':'
  {
    var date := year + ("-" + (month + ("-" + day)));
    var clock := hour + (":" + (minute + (":" + second)));
    DatePlaces(year, month, day);
    ClockPlaces(hour, minute, second);
    Halves(date, clock, tail);
    var s := date + ("T" + (clock + tail));
    assert s[..4] == date[..4] && s[5..7] == date[5..7] && s[8..10] == date[8..10];
    assert s[11..13] == clock[..2] && s[14..16] == clock[3..5] && s[17..19] == clock[6..];
  }

  lemma DatePlaces(year: string, month: string, day: string)
    requires |year| == 4 && |month| == |day| == 2
    ensures var date := year + ("-" + (month + ("-" + day)));
      |date| == 10 && date[..4] == year && date[5..7] == month && date[8..10] == day && date[4] == date[7] == '-'
  {
  }

  lemma ClockPlaces(hour: string, minute: string, second: string)
    requires |hour| == |minute| == |second| == 2
    ensures var clock := hour + (":" + (minute + (":" + second)));
      && |clock| == 8 && clock[..2] == hour && clock[3..5] == minute && clock[6..] == second
      && clock[2] == clock[5] == ':'
  {
  }

  lemma Halves(date: string, clock: string, tail: string)
    requires |date| == 10 && |clock| == 8
    ensures var s := date + ("T" + (clock + tail));
      && |s| == 19 + |tail| && s[10] == 'T' && s[19..] == tail
      && (forall i :: 0 <= i < 10 ==> s[i] == date[i])
      && (forall i :: 0 <= i < 8 ==> s[11 + i] == clock[i])
  {
  }

  // ----- chronological order

  function DaysInYear(year: nat): nat {
    if IsLeap(year) then 366 else 365
  }

  function DaysBeforeYear(year: nat): nat {
    if year <= 1 then 0 else DaysBeforeYear(year - 1) + DaysInYear(year - 1)
  }

  function DaysBeforeMonth(year: nat, month: nat): nat {
    if month <= 1 then 0 else DaysBeforeMonth(year, month - 1) + DaysInMonth(year, month - 1)
  }

  /** Days since 0001-01-01. */
  function DayNumber(t: Instant): int {
    DaysBeforeYear(t.year) + DaysBeforeMonth(t.year, t.month) + t.day - 1
  }

  function SecondOfDay(t: Instant): int {
    60 * (60 * t.hour + t.minute) + t.second
  }

  /** Microseconds since 0001-01-01T00:00:00 UTC. */
  function Micros(t: Instant): int {
    1000000 * (86400 * DayNumber(t) + SecondOfDay(t)) + t.micro
  }

  predicate DateBefore(a: Instant, b: Instant) {
    a.year < b.year || (a.year == b.year && (a.month < b.month || (a.month == b.month && a.day < b.day)))
  }

  predicate ClockBefore(a: Instant, b: Instant) {
    a.hour < b.hour || (a.hour == b.hour && (a.minute < b.minute || (a.minute == b.minute && a.second < b.second)))
  }

  lemma {:induction false} YearsAdd(a: nat, b: nat)
    requires 1 <= a < b
    ensures DaysBeforeYear(a) + DaysInYear(a) <= DaysBeforeYear(b)
  {
    if a < b - 1 {
      YearsAdd(a, b - 1);
    }
  }

  lemma {:induction false} MonthsAdd(year: nat, a: nat, b: nat)
    requires 1 <= a < b
    ensures DaysBeforeMonth(year, a) + DaysInMonth(year, a) <= DaysBeforeMonth(year, b)
  {
    if a < b - 1 {
      MonthsAdd(year, a, b - 1);
    }
  }

  lemma YearLength(year: nat)
    ensures DaysBeforeMonth(year, 13) == DaysInYear(year)
  {
    assert DaysBeforeMonth(year, 2) == 31;
    assert DaysBeforeMonth(year, 4) == DaysBeforeMonth(year, 3) + 31;
    assert DaysBeforeMonth(year, 6) == DaysBeforeMonth(year, 4) + 61;
    assert DaysBeforeMonth(year, 8) == DaysBeforeMonth(year, 6) + 61;
    assert DaysBeforeMonth(year, 10) == DaysBeforeMonth(year, 8) + 61;
    assert DaysBeforeMonth(year, 12) == DaysBeforeMonth(year, 10) + 61;
  }

  // The Gregorian calendar.

  lemma FloorSteps(n: nat)
    requires n >= 1
    ensures n / 4 == (n - 1) / 4 + if n % 4 == 0 then 1 else 0
    ensures n / 100 == (n - 1) / 100 + if n % 100 == 0 then 1 else 0
    ensures n / 400 == (n - 1) / 400 + if n % 400 == 0 then 1 else 0
  {
  }

  lemma LeapYears(year: nat)
    ensures IsLeap(year) <==> year % 400 == 0 || (year % 4 == 0 && year % 100 != 0)
    ensures year % 400 == 0 ==> year % 100 == 0
    ensures year % 100 == 0 ==> year % 4 == 0
  {
    Centuries(year);
    FourthYears(year);
  }

  lemma Centuries(year: nat)
    ensures year % 400 == 0 ==> year % 100 == 0
  {
    Hundreds(4 * (year / 400));
  }

  lemma FourthYears(year: nat)
    ensures year % 100 == 0 ==> year % 4 == 0
  {
    Fours(25 * (year / 100));
  }

  lemma Hundreds(q: nat)
    ensures (100 * q) % 100 == 0
  {
  }

  lemma Fours(q: nat)
    ensures (4 * q) % 4 == 0
  {
  }

  /** Leap days: every fourth year, but of the centuries every fourth only. */
  lemma {:induction false} YearDays(year: nat)
    requires year >= 1
    ensures DaysBeforeYear(year) == 365 * (year - 1) + (year - 1) / 4 - (year - 1) / 100 + (year - 1) / 400
  {
    if year > 1 {
      YearDays(year - 1);
      FloorSteps(year - 1);
      LeapYears(year - 1);
    }
  }

  /** The months of a common year begin after so many days. */
  lemma MonthDays(year: nat)
    ensures forall m :: 1 <= m <= 12 ==>
      DaysBeforeMonth(year, m) ==
        [0, 31, 59, 90, 120, 151, 181, 212, 243, 273, 304, 334][m - 1]
        + if m > 2 && DaysInYear(year) == 366 then 1 else 0
    ensures DaysBeforeMonth(year, 13) == DaysInYear(year)
  {
    YearLength(year);
    assert DaysBeforeMonth(year, 1) == 0 && DaysBeforeMonth(year, 2) == 31;
    assert DaysBeforeMonth(year, 3) == DaysBeforeMonth(year, 2) + DaysInMonth(year, 2);
    assert DaysBeforeMonth(year, 4) == DaysBeforeMonth(year, 3) + 31;
    assert DaysBeforeMonth(year, 5) == DaysBeforeMonth(year, 4) + 30;
    assert DaysBeforeMonth(year, 7) == DaysBeforeMonth(year, 6) + 30;
    assert DaysBeforeMonth(year, 9) == DaysBeforeMonth(year, 8) + 31;
    assert DaysBeforeMonth(year, 11) == DaysBeforeMonth(year, 10) + 31;
  }

  lemma EarlierDate(a: Instant, b: Instant)
    requires IsInstant(a) && IsInstant(b) && DateBefore(a, b)
    ensures DayNumber(a) < DayNumber(b)
  {
    if a.year < b.year {
      YearsAdd(a.year, b.year);
      MonthsAdd(a.year, a.month, 13);
      YearLength(a.year);
    } else if a.month < b.month {
      MonthsAdd(a.year, a.month, b.month);
    }
  }

  lemma DateOrder(a: Instant, b: Instant)
    requires IsInstant(a) && IsInstant(b)
    ensures DayNumber(a) < DayNumber(b) <==> DateBefore(a, b)
    ensures TextLess(DateText(a), DateText(b)) <==> DateBefore(a, b)
    ensures DayNumber(a) == DayNumber(b) <==> DateText(a) == DateText(b)
  {
    if DateBefore(a, b) {
      EarlierDate(a, b);
    } else if DateBefore(b, a) {
      EarlierDate(b, a);
    }
    Widths();
    FieldOrder(a.year, b.year, 4, "-", Two(a.month) + ("-" + Two(a.day)), Two(b.month) + ("-" + Two(b.day)));
    FieldOrder(a.month, b.month, 2, "-", Two(a.day), Two(b.day));
    FixedOrder(a.day, b.day, 2);
  }

  /** One fixed-width field, a separator, and the rest. */
  lemma FieldOrder(a: nat, b: nat, width: nat, sep: string, x: string, y: string)
    requires a < Pow10(width) && b < Pow10(width)
    ensures TextLess(Fixed(a, width) + (sep + x), Fixed(b, width) + (sep + y)) <==> a < b || (a == b && TextLess(x, y))
    ensures Fixed(a, width) + (sep + x) == Fixed(b, width) + (sep + y) <==> a == b && x == y
  {
    FixedOrder(a, b, width);
    LessByPrefix(Fixed(a, width), sep + x, Fixed(b, width), sep + y);
    LessIrreflexive(sep);
    LessByPrefix(sep, x, sep, y);
    EqualByPrefix(Fixed(a, width), sep + x, Fixed(b, width), sep + y);
    EqualByPrefix(sep, x, sep, y);
  }

  lemma EqualByPrefix(p: string, x: string, q: string, y: string)
    requires |p| == |q|
    ensures p + x == q + y <==> p == q && x == y
  {
    assert (p + x)[..|p|] == p && (p + x)[|p|..] == x;
    assert (q + y)[..|q|] == q && (q + y)[|q|..] == y;
  }

  lemma ClockOrder(a: Instant, b: Instant)
    requires IsInstant(a) && IsInstant(b)
    ensures SecondOfDay(a) < SecondOfDay(b) <==> ClockBefore(a, b)
    ensures TextLess(ClockText(a), ClockText(b)) <==> ClockBefore(a, b)
    ensures SecondOfDay(a) == SecondOfDay(b) <==> ClockText(a) == ClockText(b)
  {
    Widths();
    FieldOrder(a.hour, b.hour, 2, ":", Two(a.minute) + (":" + Two(a.second)), Two(b.minute) + (":" + Two(b.second)));
    FieldOrder(a.minute, b.minute, 2, ":", Two(a.second), Two(b.second));
    FixedOrder(a.second, b.second, 2);
  }

  lemma TwoFractions(m: nat, n: nat)
    requires 0 < m < 1000000 && 0 < n < 1000000
    ensures TextLess(Fraction(m) + "+00:00", Fraction(n) + "+00:00") <==> m < n
    ensures Fraction(m) + "+00:00" == Fraction(n) + "+00:00" <==> m == n
  {
    Widths();
    var p, q := Fixed(m, 6), Fixed(n, 6);
    assert Fraction(m) + "+00:00" == "" + ("." + (p + "+00:00"));
    assert Fraction(n) + "+00:00" == "" + ("." + (q + "+00:00"));
    Nested("", "", ".", p + "+00:00", q + "+00:00");
    FixedOrder(m, n, 6);
    LessIrreflexive("+00:00");
    LessByPrefix(p, "+00:00", q, "+00:00");
    EqualByPrefix(p, "+00:00", q, "+00:00");
  }

  /** '+' sorts before '.', so a whole second precedes its fractions. */
  lemma FractionOrder(m: nat, n: nat)
    requires m < 1000000 && n < 1000000
    ensures TextLess(Fraction(m) + "+00:00", Fraction(n) + "+00:00") <==> m < n
    ensures Fraction(m) + "+00:00" == Fraction(n) + "+00:00" <==> m == n
  {
    if m > 0 && n > 0 {
      TwoFractions(m, n);
    } else {
      assert Fraction(0) + "+00:00" == "+00:00";
      LessIrreflexive("+00:00");
      assert (Fraction(m) + "+00:00")[0] == if m == 0 then '+' else '.';
      assert (Fraction(n) + "+00:00")[0] == if n == 0 then '+' else '.';
    }
  }

  /** Timestamps compare as text exactly as their instants compare in time. */
  lemma TextOrderIsTimeOrder(a: Instant, b: Instant)
    requires IsInstant(a) && IsInstant(b)
    ensures TextAtMost(Rendered(a), Rendered(b)) <==> Micros(a) <= Micros(b)
    ensures Rendered(a) == Rendered(b) <==> Micros(a) == Micros(b)
  {
    var fa, fb := Fraction(a.micro) + "+00:00", Fraction(b.micro) + "+00:00";
    DateOrder(a, b);
    DateOrder(b, a);
    ClockOrder(a, b);
    ClockOrder(b, a);
    FractionOrder(a.micro, b.micro);
    Nested(DateText(a), DateText(b), "T", ClockText(a) + fa, ClockText(b) + fb);
    LessByPrefix(ClockText(a), fa, ClockText(b), fb);
    EqualByPrefix(ClockText(a), fa, ClockText(b), fb);
    MicrosOrder(a, b);
  }

  lemma Nested(p: string, q: string, sep: string, x: string, y: string)
    requires |p| == |q|
    ensures TextLess(p + (sep + x), q + (sep + y)) <==> TextLess(p, q) || (p == q && TextLess(x, y))
    ensures p + (sep + x) == q + (sep + y) <==> p == q && x == y
  {
    LessByPrefix(p, sep + x, q, sep + y);
    LessIrreflexive(sep);
    LessByPrefix(sep, x, sep, y);
    EqualByPrefix(p, sep + x, q, sep + y);
    EqualByPrefix(sep, x, sep, y);
  }

  lemma MicrosOrder(a: Instant, b: Instant)
    requires IsInstant(a) && IsInstant(b)
    ensures Micros(a) < Micros(b) <==>
      || DayNumber(a) < DayNumber(b)
      || (DayNumber(a) == DayNumber(b) && SecondOfDay(a) < SecondOfDay(b))
      || (DayNumber(a) == DayNumber(b) && SecondOfDay(a) == SecondOfDay(b) && a.micro < b.micro)
    ensures Micros(a) == Micros(b) <==>
      DayNumber(a) == DayNumber(b) && SecondOfDay(a) == SecondOfDay(b) && a.micro == b.micro
  {
    assert 0 <= SecondOfDay(a) < 86400 && 0 <= SecondOfDay(b) < 86400;
  }

  // ----- the age threshold

  predicate EndsWith(s: string, suffix: string) {
    |s| >= |suffix| && s[|s| - |suffix|..] == suffix
  }

  /** "5 minutes", "1 minute" or a bare number. */
  function ParseMinutes(value: string): Result<int> {
    var text := Lower(Strip(value));
    var number :=
      if EndsWith(text, "minutes") then Strip(text[..|text| - 7])
      else if EndsWith(text, "minute") then Strip(text[..|text| - 6])
      else text;
    match IntValue(number)
    case None => Err(ValueError)
    case Some(n) => Ok(n)
  }

  lemma LowerConcat(a: string, b: string)
    ensures Lower(a + b) == Lower(a) + Lower(b)
  {
  }

  lemma LowerBlank(s: string)
    requires AllBlank(s, IsSpace)
    ensures Lower(s) == s
  {
  }

  lemma NatTextChars(s: string)
    requires NatValue(s).Some?
    ensures forall c :: c in s ==> IsDigit(c) || c == '_'
  {
    forall i | 0 <= i < |s| ensures IsDigit(s[i]) || s[i] == '_' {
      if !IsDigit(s[i]) && s[i] != '_' {
        ForeignCharacter(s, i);
      }
    }
  }

  /** t is a number without blanks around it. */
  predicate IsNumber(t: string, n: int) {
    && t != "" && !IsSpace(t[0]) && IsDigit(t[|t| - 1])
    && Lower(t) == t && IntValue(t) == Some(n)
  }

  /** What int() reads is a number with blanks around it. */
  lemma NumberInside(s: string, n: int) returns (p: string, t: string, q: string)
    requires IntValue(s) == Some(n)
    ensures s == p + t + q && AllBlank(p, IsSpace) && AllBlank(q, IsSpace) && IsNumber(t, n)
  {
    t := Trim(s, IsCSpace);
    p, q := TrimSplits(s, IsCSpace);
    TrimKeepsValue(s);
    NumberChars(t, n);
  }

  lemma TrimKeepsValue(s: string)
    requires IntValue(s).Some?
    ensures Trim(s, IsCSpace) != "" && IntValue(Trim(s, IsCSpace)) == IntValue(s)
  {
    var t := Trim(s, IsCSpace);
    assert NatValue("") == None;
    TrimKeeps(t, IsCSpace);
  }

  lemma NumberChars(t: string, n: int)
    requires t != "" && Trim(t, IsCSpace) == t && IntValue(t) == Some(n)
    ensures IsNumber(t, n)
  {
    var digits := if t[0] == '-' || t[0] == '+' then t[1..] else t;
    assert NatValue(digits).Some?;
    NatTextChars(digits);
    assert digits[|digits| - 1] == t[|t| - 1];
    forall i | 0 <= i < |t| ensures IsDigit(t[i]) || t[i] in {'_', '-', '+'} {
      assert i > 0 ==> t[i] in digits;
      assert t[0] in digits || t[0] == '-' || t[0] == '+';
    }
  }

  lemma LastDiffers(text: string, suffix: string)
    requires text != "" && suffix != "" && text[|text| - 1] != suffix[|suffix| - 1]
    ensures !EndsWith(text, suffix)
  {
    if |text| >= |suffix| {
      assert text[|text| - |suffix|..][|suffix| - 1] == text[|text| - 1];
    }
  }

  lemma BareNumberRead(p: string, t: string, q: string, n: int)
    requires AllBlank(p, IsSpace) && AllBlank(q, IsSpace) && IsNumber(t, n)
    ensures ParseMinutes(p + t + q) == Ok(n)
  {
    TrimPadding(p, t, q, IsSpace);
    LastDiffers(t, "minutes");
    LastDiffers(t, "minute");
  }

  lemma UnitRemoved(t: string, gap: string, word: string)
    requires AllBlank(gap, IsSpace) && (word == "minute" || word == "minutes")
    requires t != "" && !IsSpace(t[0]) && !IsSpace(t[|t| - 1])
    ensures var text := t + gap + word;
      && EndsWith(text, word)
      && (word == "minute" ==> !EndsWith(text, "minutes"))
      && Strip(text[..|text| - |word|]) == t
  {
    var text := t + gap + word;
    assert text[|text| - |word|..] == word;
    assert text[..|text| - |word|] == "" + t + gap;
    TrimPadding("", t, gap, IsSpace);
    if word == "minute" {
      LastDiffers(text, "minutes");
    }
  }

  lemma UnitNumberStripped(p: string, t: string, gap: string, word: string, q: string)
    requires AllBlank(p, IsSpace) && AllBlank(q, IsSpace)
    requires t != "" && !IsSpace(t[0])
    requires Lower(word) == "minute" || Lower(word) == "minutes"
    ensures Strip(p + (t + gap + word) + q) == t + gap + word
  {
    var core := t + gap + word;
    assert Lower(word)[|word| - 1] == LowerChar(word[|word| - 1]);
    assert core[0] == t[0] && core[|core| - 1] == word[|word| - 1];
    TrimPadding(p, core, q, IsSpace);
  }

  lemma LowerUnit(t: string, gap: string, word: string)
    requires AllBlank(gap, IsSpace) && Lower(t) == t
    ensures Lower(t + gap + word) == t + gap + Lower(word)
  {
    LowerConcat(t + gap, word);
    LowerConcat(t, gap);
    LowerBlank(gap);
  }

  lemma UnitParsed(value: string, text: string, word: string, t: string, n: int)
    requires word == "minute" || word == "minutes"
    requires Lower(Strip(value)) == text && EndsWith(text, word) && (word == "minute" ==> !EndsWith(text, "minutes"))
    requires Strip(text[..|text| - |word|]) == t && IntValue(t) == Some(n)
    ensures ParseMinutes(value) == Ok(n)
  {
  }

  lemma UnitNumberRead(p: string, t: string, gap: string, word: string, q: string, n: int)
    requires AllBlank(p, IsSpace) && AllBlank(gap, IsSpace) && AllBlank(q, IsSpace) && IsNumber(t, n)
    requires Lower(word) == "minute" || Lower(word) == "minutes"
    ensures ParseMinutes(p + (t + gap + word) + q) == Ok(n)
  {
    UnitNumberStripped(p, t, gap, word, q);
    LowerUnit(t, gap, word);
    UnitRemoved(t, gap, Lower(word));
    UnitParsed(p + (t + gap + word) + q, t + gap + Lower(word), Lower(word), t, n);
  }

  /** Any text int() reads as n, with or without the unit in any capitalisation, and with any blanks
      around and between, is read as n minutes. */
  lemma MinutesReadBack(before: string, number: string, gap: string, word: string, after: string, n: int)
    requires AllBlank(before, IsSpace) && AllBlank(gap, IsSpace) && AllBlank(after, IsSpace)
    requires IntValue(number) == Some(n) && Lower(word) in {"minute", "minutes"}
    ensures ParseMinutes(before + number + gap + word + after) == Ok(n)
    ensures ParseMinutes(before + number + after) == Ok(n)
  {
    var p, t, q := NumberInside(number, n);
    Regroup(before, p, t, q, gap, word, after);
    UnitNumberRead(before + p, t, q + gap, word, after, n);
    BareNumberRead(before + p, t, q + after, n);
  }

  lemma Regroup(before: string, p: string, t: string, q: string, gap: string, word: string, after: string)
    ensures before + (p + t + q) + gap + word + after == (before + p) + (t + (q + gap) + word) + after
    ensures before + (p + t + q) + after == (before + p) + t + (q + after)
  {
  }

  // Nothing else is read.

  lemma {:induction false} LTrimLower(s: string)
    ensures LTrim(Lower(s), IsSpace) == Lower(LTrim(s, IsSpace))
  {
    if s != "" && IsSpace(s[0]) {
      assert Lower(s)[1..] == Lower(s[1..]);
      LTrimLower(s[1..]);
    }
  }

  lemma {:induction false} RTrimLower(s: string)
    ensures RTrim(Lower(s), IsSpace) == Lower(RTrim(s, IsSpace))
  {
    if s != "" && IsSpace(s[|s| - 1]) {
      assert Lower(s)[..|s| - 1] == Lower(s[..|s| - 1]);
      RTrimLower(s[..|s| - 1]);
    }
  }

  lemma StripLower(s: string)
    ensures Strip(Lower(s)) == Lower(Strip(s))
  {
    LTrimLower(s);
    RTrimLower(LTrim(s, IsSpace));
  }

  lemma NoLetters(s: string)
    requires IntValue(s).Some?
    ensures forall i :: 0 <= i < |s| ==> !('a' <= s[i] <= 'z')
  {
    var p, q := TrimSplits(s, IsCSpace);
    var t := Trim(s, IsCSpace);
    TrimKeepsValue(s);
    var digits := if t[0] == '-' || t[0] == '+' then t[1..] else t;
    NatTextChars(digits);
    forall i | 0 <= i < |t| ensures !('a' <= t[i] <= 'z') {
      assert i > 0 ==> t[i] in digits;
      assert t[0] in digits || t[0] == '-' || t[0] == '+';
    }
  }

  /** A text that int() reads after lower() was in lower case already. */
  lemma NumberUnchanged(s: string)
    requires IntValue(Lower(s)).Some?
    ensures Lower(s) == s
  {
    NoLetters(Lower(s));
    forall i | 0 <= i < |s| ensures s[i] == Lower(s)[i] {
      assert !('a' <= Lower(s)[i] <= 'z');
    }
  }

  lemma LowerCut(v: string, n: nat)
    requires n <= |v|
    ensures Lower(v)[..n] == Lower(v[..n]) && Lower(v)[n..] == Lower(v[n..]) && v == v[..n] + v[n..]
  {
  }

  lemma UnitSplit(v: string, unit: string, n: int) returns (a: string, number: string, gap: string, word: string)
    requires EndsWith(Lower(v), unit) && IntValue(Strip(Lower(v)[..|v| - |unit|])) == Some(n)
    ensures v == a + number + gap + word && Lower(word) == unit
    ensures AllBlank(a, IsSpace) && AllBlank(gap, IsSpace) && IntValue(number) == Some(n)
  {
    var front := v[..|v| - |unit|];
    word := v[|v| - |unit|..];
    LowerCut(v, |v| - |unit|);
    StripLower(front);
    number := Strip(front);
    NumberUnchanged(number);
    a, gap := TrimSplits(front, IsSpace);
  }

  /** value is a text for n, alone or with a unit, with blanks around and between. */
  ghost predicate Minutes(value: string, n: int) {
    exists before, number, gap, word, after :: MinutesAs(value, n, before, number, gap, word, after)
  }

  predicate MinutesAs(
    value: string, n: int, before: string, number: string, gap: string, word: string, after: string)
  {
    && AllBlank(before, IsSpace) && AllBlank(gap, IsSpace) && AllBlank(after, IsSpace)
    && IntValue(number) == Some(n)
    && (word == "" || Lower(word) == "minute" || Lower(word) == "minutes")
    && (word == "" ==> gap == "")
    && value == before + number + gap + word + after
  }

  lemma UnitOnly(before: string, v: string, after: string, unit: string, n: int)
    requires unit == "minute" || unit == "minutes"
    requires AllBlank(before, IsSpace) && AllBlank(after, IsSpace)
    requires EndsWith(Lower(v), unit) && IntValue(Strip(Lower(v)[..|v| - |unit|])) == Some(n)
    ensures Minutes(before + v + after, n)
  {
    var a, number, gap, word := UnitSplit(v, unit, n);
    Prefixed(before, a, number, gap, word, after);
    assert MinutesAs(before + v + after, n, before + a, number, gap, word, after);
  }

  lemma Prefixed(before: string, a: string, number: string, gap: string, word: string, after: string)
    ensures before + (a + number + gap + word) + after == (before + a) + number + gap + word + after
  {
  }

  lemma BareOnly(before: string, v: string, after: string, n: int)
    requires AllBlank(before, IsSpace) && AllBlank(after, IsSpace) && IntValue(Lower(v)) == Some(n)
    ensures Minutes(before + v + after, n)
  {
    NumberUnchanged(v);
    assert before + v + after == before + v + "" + "" + after;
    assert MinutesAs(before + v + after, n, before, v, "", "", after);
  }

  lemma PluralOnly(value: string)
    requires ParseMinutes(value).Ok? && EndsWith(Lower(Strip(value)), "minutes")
    ensures Minutes(value, ParseMinutes(value).value)
  {
    var before, after := TrimSplits(value, IsSpace);
    UnitOnly(before, Strip(value), after, "minutes", ParseMinutes(value).value);
  }

  lemma SingularOnly(value: string)
    requires ParseMinutes(value).Ok?
    requires EndsWith(Lower(Strip(value)), "minute") && !EndsWith(Lower(Strip(value)), "minutes")
    ensures Minutes(value, ParseMinutes(value).value)
  {
    var before, after := TrimSplits(value, IsSpace);
    UnitOnly(before, Strip(value), after, "minute", ParseMinutes(value).value);
  }

  lemma MinutesOnly(value: string)
    requires ParseMinutes(value).Ok?
    ensures Minutes(value, ParseMinutes(value).value)
  {
    if EndsWith(Lower(Strip(value)), "minutes") {
      PluralOnly(value);
    } else if EndsWith(Lower(Strip(value)), "minute") {
      SingularOnly(value);
    } else {
      var before, after := TrimSplits(value, IsSpace);
      BareOnly(before, Strip(value), after, ParseMinutes(value).value);
    }
  }

  lemma MinutesRead(value: string, n: int)
    requires Minutes(value, n)
    ensures ParseMinutes(value) == Ok(n)
  {
    var before, number, gap, word, after :| MinutesAs(value, n, before, number, gap, word, after);
    if word == "" {
      assert value == before + number + after;
      assert Lower("minute") == "minute";
      MinutesReadBack(before, number, "", "minute", after, n);
    } else {
      MinutesReadBack(before, number, gap, word, after, n);
    }
  }

  /** A text is read as n minutes exactly when it is such a text; everything else is refused with ValueError. */
  lemma MinutesExactly(value: string, n: int)
    ensures ParseMinutes(value) == Ok(n) <==> Minutes(value, n)
    ensures ParseMinutes(value).Err? ==> ParseMinutes(value) == Err(ValueError)
  {
    if ParseMinutes(value) == Ok(n) {
      MinutesOnly(value);
    }
    if Minutes(value, n) {
      MinutesRead(value, n);
    }
  }
}
