/**
 The hub stores every timestamp as text and lets SQLite compare the text. This module models the
 text form and proves that comparing it byte by byte is comparing the instants.
 */
module TimeOrder {

  // ---------- Instants: UTC civil time with nanoseconds ----------

  datatype Civil = Civil(year: nat, month: nat, day: nat, hour: nat, minute: nat, second: nat, nano: nat)

  predicate IsLeap(y: nat) {
    y % 4 == 0 && (y % 100 != 0 || y % 400 == 0)
  }

  function DaysInYear(y: nat): nat {
    if IsLeap(y) then 366 else 365
  }

  function DaysInMonth(y: nat, m: nat): nat {
    if m == 2 then (if IsLeap(y) then 29 else 28)
    else if m == 4 || m == 6 || m == 9 || m == 11 then 30
    else 31
  }

  /** A UTC instant whose year has at most four digits. */
  type Instant = t: Civil |
      t.year < 10000 && 1 <= t.month <= 12 && 1 <= t.day <= DaysInMonth(t.year, t.month)
      && t.hour < 24 && t.minute < 60 && t.second < 60 && t.nano < 1_000_000_000
    witness Civil(1, 1, 1, 0, 0, 0, 0)

  function DaysBeforeYear(y: nat): nat {
    if y == 0 then 0 else DaysBeforeYear(y - 1) + DaysInYear(y - 1)
  }

  function DaysBeforeMonth(y: nat, m: nat): nat {
    if m <= 1 then 0 else DaysBeforeMonth(y, m - 1) + DaysInMonth(y, m - 1)
  }

  function DayNumber(t: Instant): nat {
    DaysBeforeYear(t.year) + DaysBeforeMonth(t.year, t.month) + t.day - 1
  }

  function SecondOfDay(t: Instant): nat {
    (t.hour * 60 + t.minute) * 60 + t.second
  }

  /** Nanoseconds since the start of year 0: the time line itself. */
  function Nanos(t: Instant): nat {
    (DayNumber(t) * 86400 + SecondOfDay(t)) * 1_000_000_000 + t.nano
  }

  predicate Before(a: Instant, b: Instant) {
    Nanos(a) < Nanos(b)
  }

  // ---------- Text ----------

  /** Byte order of two texts, as SQLite compares TEXT columns. */
  predicate TextLess(a: string, b: string) {
    if b == "" then false
    else if a == "" then true
    else if a[0] != b[0] then a[0] < b[0]
    else TextLess(a[1..], b[1..])
  }

  function Digit(d: nat): (c: char)
    requires d < 10
  {
    ('0' as int + d) as char
  }

  function Pow10(n: nat): (p: nat)
    ensures p > 0
  {
    if n == 0 then 1 else 10 * Pow10(n - 1)
  }

  /** `v` in exactly `width` decimal digits. */
  function Pad(width: nat, v: nat): (s: string)
    requires v < Pow10(width)
    ensures |s| == width
    ensures forall i :: 0 <= i < width ==> '0' <= s[i] <= '9'
  {
    if width == 0 then "" else Pad(width - 1, v / 10) + [Digit(v % 10)]
  }

  function TrimZeros(s: string): (r: string) {
    if s != "" && s[|s| - 1] == '0' then TrimZeros(s[..|s| - 1]) else s
  }

  /** Go's `.999999999`: trailing zeros of the nine digits go, and the point goes with the last of them. */
  function Fraction(nano: nat): string
    requires nano < 1_000_000_000
  {
    var digits := TrimZeros(Pad9(nano));
    if digits == "" then "" else "." + digits
  }

  function Pad9(nano: nat): string
    requires nano < 1_000_000_000
  {
    assert Pow10(9) == 1_000_000_000;
    Pad(9, nano)
  }

  function Pad2(v: nat): (s: string)
    requires v < 100
    ensures |s| == 2
  {
    assert Pow10(2) == 100;
    Pad(2, v)
  }

  function Pad4(v: nat): (s: string)
    requires v < 10000
    ensures |s| == 4
  {
    assert Pow10(4) == 10000;
    Pad(4, v)
  }

  const ZONE := "+00:00"

  function ClockText(t: Instant): (s: string)
    ensures |s| == 19
  {
    Pad4(t.year) + ("-" + (Pad2(t.month) + ("-" + (Pad2(t.day) + ("T" + (Pad2(t.hour)
    + (":" + (Pad2(t.minute) + (":" + Pad2(t.second))))))))))
  }

  /** The layout `2006-01-02T15:04:05.999999999+00:00`. */
  function FormatTime(t: Instant): string {
    ClockText(t) + (Fraction(t.nano) + ZONE)
  }

  // ---------- Text order of concatenations and of digits ----------

  lemma {:induction false} TextLessIrreflexive(a: string)
    ensures !TextLess(a, a)
  {
    if a != "" {
      TextLessIrreflexive(a[1..]);
    }
  }

  lemma {:induction false} TextLessConcat(a: string, b: string, x: string, y: string)
    requires |a| == |b|
    ensures TextLess(a + x, b + y) <==> TextLess(a, b) || (a == b && TextLess(x, y))
  {
    if a == "" {
      assert a + x == x && b + y == y;
    } else {
      assert (a + x)[1..] == a[1..] + x && (b + y)[1..] == b[1..] + y;
      TextLessConcat(a[1..], b[1..], x, y);
      assert a == [a[0]] + a[1..] && b == [b[0]] + b[1..];
    }
  }

  lemma TextLessCommonPrefix(p: string, x: string, y: string)
    ensures TextLess(p + x, p + y) <==> TextLess(x, y)
  {
    TextLessConcat(p, p, x, y);
    TextLessIrreflexive(p);
  }

  lemma {:induction false} PadOrder(width: nat, v: nat, w: nat)
    requires v < Pow10(width) && w < Pow10(width)
    ensures TextLess(Pad(width, v), Pad(width, w)) <==> v < w
    ensures Pad(width, v) == Pad(width, w) <==> v == w
  {
    if width > 0 {
      var a, b := Pad(width - 1, v / 10), Pad(width - 1, w / 10);
      var c, d := [Digit(v % 10)], [Digit(w % 10)];
      PadOrder(width - 1, v / 10, w / 10);
      TextLessConcat(a, b, c, d);
      assert TextLess(c, d) <==> v % 10 < w % 10;
      assert (a + c)[..width - 1] == a && (b + d)[..width - 1] == b;
      assert (a + c)[width - 1] == c[0] && (b + d)[width - 1] == d[0];
    }
  }

  /** Lexicographic order on a fixed-width field followed by the rest of the text. */
  lemma Field(sep: string, width: nat, v: nat, w: nat, x: string, y: string)
    requires v < Pow10(width) && w < Pow10(width)
    ensures TextLess(Pad(width, v) + (sep + x), Pad(width, w) + (sep + y))
       <==> v < w || (v == w && TextLess(x, y))
    ensures Pad(width, v) + (sep + x) == Pad(width, w) + (sep + y) <==> v == w && x == y
  {
    var a, b := Pad(width, v), Pad(width, w);
    PadOrder(width, v, w);
    TextLessConcat(a, b, sep + x, sep + y);
    TextLessCommonPrefix(sep, x, y);
    if a + (sep + x) == b + (sep + y) {
      assert a == (a + (sep + x))[..width] == b;
      assert x == (a + (sep + x))[width + |sep|..] == y;
    }
  }

  // ---------- The fraction ----------

  lemma {:induction false} TrimPrefixed(c: char, s: string)
    ensures TrimZeros([c] + s) == if TrimZeros(s) == "" then TrimZeros([c]) else [c] + TrimZeros(s)
  {
    if s != "" {
      var t := [c] + s;
      assert t[|t| - 1] == s[|s| - 1];
      assert t[..|t| - 1] == [c] + s[..|s| - 1];
      if s[|s| - 1] == '0' {
        TrimPrefixed(c, s[..|s| - 1]);
      }
    } else {
      assert [c] + s == [c];
    }
  }

  predicate Digits(s: string) {
    forall i :: 0 <= i < |s| ==> '0' <= s[i] <= '9'
  }

  lemma TrimHead(s: string)
    requires s != "" && Digits(s)
    ensures TrimZeros(s) == "" ==> s[0] == '0' && TrimZeros(s[1..]) == ""
    ensures TrimZeros(s) != "" ==> TrimZeros(s) == [s[0]] + TrimZeros(s[1..])
    ensures s[0] == '0' && TrimZeros(s[1..]) == "" ==> TrimZeros(s) == ""
  {
    TrimPrefixed(s[0], s[1..]);
    assert s == [s[0]] + s[1..];
    var c := [s[0]];
    assert c[..0] == "";
    assert TrimZeros(c) == if s[0] == '0' then "" else c;
  }

  lemma TrimmedStart(s: string)
    requires Digits(s)
    ensures TrimZeros(s) != "" ==> TrimZeros(s)[0] > '+'
  {
    if s != "" {
      TrimHead(s);
    }
  }

  function Closed(s: string): string {
    TrimZeros(s) + ZONE
  }

  /** Dropping the first digit of `s` either drops the first character of its closed form or changes nothing. */
  predicate HeadOf(c: char, whole: string, rest: string) {
    && '0' <= c <= '9'
    && ((c == '0' && whole == ZONE && rest == ZONE)
        || (whole == [c] + rest && (c == '0' ==> rest != "" && rest[0] > '+')))
    && rest != ""
    && (rest == ZONE || rest[0] > '+')
  }

  lemma ClosedHead(s: string)
    requires s != "" && Digits(s)
    ensures HeadOf(s[0], Closed(s), Closed(s[1..]))
  {
    TrimHead(s);
    TrimmedStart(s[1..]);
    if TrimZeros(s) != "" {
      assert ([s[0]] + TrimZeros(s[1..])) + ZONE == [s[0]] + (TrimZeros(s[1..]) + ZONE);
    }
  }

  lemma HeadOrder(c: char, x: string, x1: string, d: char, y: string, y1: string)
    requires HeadOf(c, x, x1) && HeadOf(d, y, y1)
    ensures TextLess(x, y) <==> c < d || (c == d && TextLess(x1, y1))
  {
    TextLessIrreflexive(ZONE);
    if x == [c] + x1 {
      assert x[0] == c && x[1..] == x1;
    }
    if y == [d] + y1 {
      assert y[0] == d && y[1..] == y1;
    }
  }

  /** Digits cut to different lengths and closed by the zone still sort like the full digits. */
  lemma {:induction false} TrimmedOrder(s: string, t: string)
    requires |s| == |t| && Digits(s) && Digits(t)
    ensures TextLess(Closed(s), Closed(t)) <==> TextLess(s, t)
  {
    if s == "" {
      TextLessIrreflexive(Closed(s));
    } else {
      TrimmedOrder(s[1..], t[1..]);
      ClosedHead(s);
      ClosedHead(t);
      HeadOrder(s[0], Closed(s), Closed(s[1..]), t[0], Closed(t), Closed(t[1..]));
    }
  }

  lemma FractionOrder(v: nat, w: nat)
    requires v < 1_000_000_000 && w < 1_000_000_000
    ensures TextLess(Fraction(v) + ZONE, Fraction(w) + ZONE) <==> v < w
  {
    assert Pow10(9) == 1_000_000_000;
    var s, t := TrimZeros(Pad9(v)), TrimZeros(Pad9(w));
    PadOrder(9, v, w);
    TrimmedOrder(Pad9(v), Pad9(w));
    WithPoint(s);
    WithPoint(t);
    TextLessCommonPrefix(".", s + ZONE, t + ZONE);
    TrimmedStart(Pad9(v));
    TrimmedStart(Pad9(w));
    if s == "" && t == "" {
      TextLessIrreflexive(ZONE);
    }
  }

  lemma WithPoint(s: string)
    ensures ("." + s) + ZONE == "." + (s + ZONE)
  {
  }

  // ---------- The calendar is monotone ----------

  lemma {:induction false} DaysBeforeYearMonotone(a: nat, b: nat)
    requires a < b
    ensures DaysBeforeYear(a) + DaysInYear(a) <= DaysBeforeYear(b)
  {
    if a + 1 < b {
      DaysBeforeYearMonotone(a, b - 1);
    }
  }

  lemma {:induction false} DaysBeforeMonthMonotone(y: nat, m: nat, n: nat)
    requires 1 <= m < n
    ensures DaysBeforeMonth(y, m) + DaysInMonth(y, m) <= DaysBeforeMonth(y, n)
  {
    if m + 1 < n {
      DaysBeforeMonthMonotone(y, m, n - 1);
    }
  }

  lemma YearHoldsItsMonths(y: nat)
    ensures DaysBeforeMonth(y, 13) == DaysInYear(y)
  {
    assert DaysBeforeMonth(y, 3) == DaysBeforeMonth(y, 1) + DaysInMonth(y, 1) + DaysInMonth(y, 2);
    assert DaysBeforeMonth(y, 5) == DaysBeforeMonth(y, 3) + 31 + 30;
    assert DaysBeforeMonth(y, 7) == DaysBeforeMonth(y, 5) + 31 + 30;
    assert DaysBeforeMonth(y, 9) == DaysBeforeMonth(y, 7) + 31 + 31;
    assert DaysBeforeMonth(y, 11) == DaysBeforeMonth(y, 9) + 30 + 31;
    assert DaysBeforeMonth(y, 13) == DaysBeforeMonth(y, 11) + 30 + 31;
  }

  predicate DateLess(a: Instant, b: Instant) {
    a.year < b.year || (a.year == b.year && (a.month < b.month || (a.month == b.month && a.day < b.day)))
  }

  lemma DateLessIsEarlier(a: Instant, b: Instant)
    requires DateLess(a, b)
    ensures DayNumber(a) < DayNumber(b)
  {
    if a.year < b.year {
      DaysBeforeYearMonotone(a.year, b.year);
      DaysBeforeMonthMonotone(a.year, a.month, 13);
      YearHoldsItsMonths(a.year);
    } else if a.month < b.month {
      DaysBeforeMonthMonotone(a.year, a.month, b.month);
    }
  }

  predicate ClockLess(a: Instant, b: Instant) {
    a.hour < b.hour || (a.hour == b.hour && (a.minute < b.minute || (a.minute == b.minute && a.second < b.second)))
  }

  predicate SameDate(a: Instant, b: Instant) {
    a.year == b.year && a.month == b.month && a.day == b.day
  }

  predicate SameClock(a: Instant, b: Instant) {
    a.hour == b.hour && a.minute == b.minute && a.second == b.second
  }

  predicate CivilLess(a: Instant, b: Instant) {
    DateLess(a, b) || (SameDate(a, b) && (ClockLess(a, b) || (SameClock(a, b) && a.nano < b.nano)))
  }

  lemma CivilLessIsEarlier(a: Instant, b: Instant)
    requires CivilLess(a, b)
    ensures Before(a, b)
  {
    if DateLess(a, b) {
      DateLessIsEarlier(a, b);
    }
  }

  lemma CivilOrderIsTimeOrder(a: Instant, b: Instant)
    ensures CivilLess(a, b) <==> Before(a, b)
  {
    if CivilLess(a, b) {
      CivilLessIsEarlier(a, b);
    } else if CivilLess(b, a) {
      CivilLessIsEarlier(b, a);
    } else {
      assert a == b;
    }
  }

  // ---------- The theorem ----------

  function Tail(t: Instant): string {
    Fraction(t.nano) + ZONE
  }

  function ClockRest(t: Instant): string {
    Pad2(t.hour) + (":" + (Pad2(t.minute) + (":" + (Pad2(t.second) + ("" + Tail(t))))))
  }

  function DateRest(t: Instant): string {
    Pad4(t.year) + ("-" + (Pad2(t.month) + ("-" + (Pad2(t.day) + ("T" + ClockRest(t))))))
  }

  lemma FormatIsDateRest(t: Instant)
    ensures FormatTime(t) == DateRest(t)
  {
  }

  lemma ClockRestOrder(a: Instant, b: Instant)
    ensures TextLess(ClockRest(a), ClockRest(b)) <==> ClockLess(a, b) || (SameClock(a, b) && a.nano < b.nano)
  {
    assert Pow10(2) == 100;
    var sa, sb := Pad2(a.second) + ("" + Tail(a)), Pad2(b.second) + ("" + Tail(b));
    Field("", 2, a.second, b.second, Tail(a), Tail(b));
    FractionOrder(a.nano, b.nano);
    var ma, mb := Pad2(a.minute) + (":" + sa), Pad2(b.minute) + (":" + sb);
    Field(":", 2, a.minute, b.minute, sa, sb);
    Field(":", 2, a.hour, b.hour, ma, mb);
  }

  /** Text order is time order, although the fraction's length varies from nothing to nine digits. */
  lemma TextOrderIsTimeOrder(a: Instant, b: Instant)
    ensures TextLess(FormatTime(a), FormatTime(b)) <==> Before(a, b)
  {
    assert Pow10(2) == 100 && Pow10(4) == 10000;
    FormatIsDateRest(a);
    FormatIsDateRest(b);
    var da, db := Pad2(a.day) + ("T" + ClockRest(a)), Pad2(b.day) + ("T" + ClockRest(b));
    Field("T", 2, a.day, b.day, ClockRest(a), ClockRest(b));
    var ma, mb := Pad2(a.month) + ("-" + da), Pad2(b.month) + ("-" + db);
    Field("-", 2, a.month, b.month, da, db);
    Field("-", 4, a.year, b.year, ma, mb);
    ClockRestOrder(a, b);
    CivilOrderIsTimeOrder(a, b);
  }

  // ---------- The text can be read back ----------

  /** The number that digits spell. */
  function Value(s: string): nat
    requires Digits(s)
  {
    if s == "" then 0 else Value(s[..|s| - 1]) * 10 + (s[|s| - 1] as int - '0' as int)
  }

  lemma {:induction false} PadValue(width: nat, v: nat)
    requires v < Pow10(width)
    ensures Value(Pad(width, v)) == v
  {
    if width > 0 {
      PadValue(width - 1, v / 10);
      assert Pad(width, v)[..width - 1] == Pad(width - 1, v / 10);
    }
  }

  /** Trimmed digits are worth the rest by as many tens as zeros went. */
  lemma {:induction false} TrimValue(s: string)
    requires Digits(s)
    ensures Digits(TrimZeros(s)) && |TrimZeros(s)| <= |s|
    ensures Value(TrimZeros(s)) * Pow10(|s| - |TrimZeros(s)|) == Value(s)
    ensures TrimZeros(s) != "" ==> TrimZeros(s)[|TrimZeros(s)| - 1] != '0'
    decreases |s|
  {
    if s != "" && s[|s| - 1] == '0' {
      var n := |s| - 1;
      TrimValue(s[..n]);
      var t, k := TrimZeros(s[..n]), n - |TrimZeros(s[..n])|;
      assert Pow10(k + 1) == 10 * Pow10(k);
      TenTimes(Value(t), Pow10(k));
    }
  }

  lemma TenTimes(a: nat, b: nat)
    ensures a * (10 * b) == (a * b) * 10
  {
  }

  /** A fraction: nothing for a full second, and else a point and at most nine digits, the last of them not zero. */
  ghost predicate IsFraction(f: string, nano: nat) {
    if nano == 0 then f == ""
    else 2 <= |f| <= 10 && f[0] == '.' && f[|f| - 1] != '0' && Digits(f[1..])
         && Value(f[1..]) * Pow10(10 - |f|) == nano
  }

  lemma {:induction false} ZeroValue(s: string)
    requires Digits(s) && TrimZeros(s) == ""
    ensures Value(s) == 0
  {
    TrimValue(s);
  }

  lemma FractionTells(nano: nat)
    requires nano < 1_000_000_000
    ensures IsFraction(Fraction(nano), nano)
  {
    assert Pow10(9) == 1_000_000_000;
    PadValue(9, nano);
    TrimValue(Pad9(nano));
    var digits := TrimZeros(Pad9(nano));
    if digits != "" {
      assert ("." + digits)[1..] == digits;
      NotZero(digits);
      PositiveProduct(Value(digits), Pow10(9 - |digits|));
    }
  }

  lemma NotZero(digits: string)
    requires Digits(digits) && digits != "" && digits[|digits| - 1] != '0'
    ensures Value(digits) > 0
  {
  }

  lemma PositiveProduct(a: nat, b: nat)
    requires a > 0 && b > 0
    ensures a * b > 0
  {
  }

  /** The digits between two places in the text. */
  ghost predicate NumberAt(s: string, from: nat, to: nat, v: nat) {
    from <= to <= |s| && Digits(s[from..to]) && Value(s[from..to]) == v
  }

  /** Each field of the instant stands in its place. */
  lemma TextTellsTime(t: Instant)
    ensures var s := FormatTime(t);
      && |s| >= 25 && s[|s| - 6..] == "+00:00"
      && s[4] == s[7] == '-' && s[10] == 'T' && s[13] == s[16] == ':'
      && NumberAt(s, 0, 4, t.year) && NumberAt(s, 5, 7, t.month) && NumberAt(s, 8, 10, t.day)
      && NumberAt(s, 11, 13, t.hour) && NumberAt(s, 14, 16, t.minute) && NumberAt(s, 17, 19, t.second)
      && IsFraction(s[19..|s| - 6], t.nano)
  {
    FractionTells(t.nano);
    var clock, tail := ClockText(t), Fraction(t.nano) + ZONE;
    var s := clock + tail;
    assert s[..19] == clock && s[19..|s| - 6] == Fraction(t.nano);
    ClockTells(t);
    forall from: nat, to: nat, v: nat | to <= 19 && NumberAt(clock, from, to, v) ensures NumberAt(s, from, to, v) {
      assert s[from..to] == clock[from..to];
    }
  }

  /** A field, a separator, and the rest, as they stand in a text from a place on. */
  lemma FieldThenRest(s: string, at: nat, field: string, sep: string, rest: string)
    requires at <= |s| && s[at..] == field + (sep + rest) && |sep| == 1
    ensures at + |field| < |s| && s[at..at + |field|] == field && s[at + |field|] == sep[0]
    ensures s[at + |field| + 1..] == rest
  {
    var tail := field + (sep + rest);
    assert tail[..|field|] == field && tail[|field|] == sep[0] && tail[|field| + 1..] == rest;
    assert s[at..][..|field|] == s[at..at + |field|] && s[at..][|field| + 1..] == s[at + |field| + 1..];
  }

  lemma ClockTells(t: Instant)
    ensures var s := ClockText(t);
      && s[4] == s[7] == '-' && s[10] == 'T' && s[13] == s[16] == ':'
      && NumberAt(s, 0, 4, t.year) && NumberAt(s, 5, 7, t.month) && NumberAt(s, 8, 10, t.day)
      && NumberAt(s, 11, 13, t.hour) && NumberAt(s, 14, 16, t.minute) && NumberAt(s, 17, 19, t.second)
  {
    var s := ClockText(t);
    ClockFields(t, s);
    PadValues(t);
  }

  lemma PadValues(t: Instant)
    ensures Value(Pad4(t.year)) == t.year && Value(Pad2(t.month)) == t.month && Value(Pad2(t.day)) == t.day
    ensures Value(Pad2(t.hour)) == t.hour && Value(Pad2(t.minute)) == t.minute && Value(Pad2(t.second)) == t.second
  {
    assert Pow10(4) == 10000 && Pow10(2) == 100;
    PadValue(4, t.year);
    PadValue(2, t.month);
    PadValue(2, t.day);
    PadValue(2, t.hour);
    PadValue(2, t.minute);
    PadValue(2, t.second);
  }

  lemma ClockFields(t: Instant, s: string)
    requires s == ClockText(t)
    ensures s[0..4] == Pad4(t.year) && s[5..7] == Pad2(t.month) && s[8..10] == Pad2(t.day)
    ensures s[11..13] == Pad2(t.hour) && s[14..16] == Pad2(t.minute) && s[17..19] == Pad2(t.second)
    ensures s[4] == s[7] == '-' && s[10] == 'T' && s[13] == s[16] == ':'
  {
    var second := Pad2(t.second);
    var minute := Pad2(t.minute) + (":" + second);
    var hour := Pad2(t.hour) + (":" + minute);
    var day := Pad2(t.day) + ("T" + hour);
    var month := Pad2(t.month) + ("-" + day);
    assert s[0..] == Pad4(t.year) + ("-" + month);
    FieldThenRest(s, 0, Pad4(t.year), "-", month);
    FieldThenRest(s, 5, Pad2(t.month), "-", day);
    FieldThenRest(s, 8, Pad2(t.day), "T", hour);
    FieldThenRest(s, 11, Pad2(t.hour), ":", minute);
    FieldThenRest(s, 14, Pad2(t.minute), ":", second);
    assert s[17..19] == s[17..];
  }

  // ---------- The calendar in closed form ----------

  /** One for a multiple of `d`. */
  function Hit(n: nat, d: nat): nat
    requires d > 0
  {
    if n % d == 0 then 1 else 0
  }

  /** How many numbers below `n` are multiples of `d`. */
  function Multiples(n: nat, d: nat): nat
    requires d > 0
  {
    if n == 0 then 0 else Multiples(n - 1, d) + Hit(n - 1, d)
  }

  lemma {:induction false} Fourths(n: nat)
    ensures Multiples(n, 4) == (n + 3) / 4
  {
    if n > 0 {
      Fourths(n - 1);
      NextFourths(n - 1, (n - 1) % 4, (n - 1) / 4);
    }
  }

  lemma NextFourths(n: nat, m: nat, q: nat)
    requires n == 4 * q + m && m < 4
    ensures (n + 3) / 4 == (if m == 0 then q else q + 1) && (n + 4) / 4 == q + 1
  {
    if m == 0 {
      assert n + 3 == 4 * q + 3;
    } else {
      assert n + 3 == 4 * (q + 1) + (m - 1);
    }
  }

  lemma {:induction false} Hundredths(n: nat)
    ensures Multiples(n, 100) == (n + 99) / 100
  {
    if n > 0 {
      Hundredths(n - 1);
      NextHundredths(n - 1, (n - 1) % 100, (n - 1) / 100);
    }
  }

  lemma NextHundredths(n: nat, m: nat, q: nat)
    requires n == 100 * q + m && m < 100
    ensures (n + 99) / 100 == (if m == 0 then q else q + 1) && (n + 100) / 100 == q + 1
  {
    if m == 0 {
      assert n + 99 == 100 * q + 99;
    } else {
      assert n + 99 == 100 * (q + 1) + (m - 1);
    }
  }

  lemma {:induction false} FourHundredths(n: nat)
    ensures Multiples(n, 400) == (n + 399) / 400
  {
    if n > 0 {
      FourHundredths(n - 1);
      NextFourHundredths(n - 1, (n - 1) % 400, (n - 1) / 400);
    }
  }

  lemma NextFourHundredths(n: nat, m: nat, q: nat)
    requires n == 400 * q + m && m < 400
    ensures (n + 399) / 400 == (if m == 0 then q else q + 1) && (n + 400) / 400 == q + 1
  {
    if m == 0 {
      assert n + 399 == 400 * q + 399;
    } else {
      assert n + 399 == 400 * (q + 1) + (m - 1);
    }
  }

  lemma Divides100(n: nat, q: nat)
    requires n == 400 * q
    ensures n % 100 == 0
  {
    assert n == 100 * (4 * q);
  }

  lemma Divides4(n: nat, q: nat)
    requires n == 100 * q
    ensures n % 4 == 0
  {
    assert n == 4 * (25 * q);
  }

  lemma YearLength(y: nat)
    ensures DaysInYear(y) == 365 + Hit(y, 4) - Hit(y, 100) + Hit(y, 400)
  {
    if y % 400 == 0 {
      Divides100(y, y / 400);
    }
    if y % 100 == 0 {
      Divides4(y, y / 100);
    }
  }

  /** The Gregorian count of days: a leap day every four years, but not at centuries that are no multiples of 400. */
  lemma {:induction false} DaysInYears(y: nat)
    ensures DaysBeforeYear(y) == 365 * y + Multiples(y, 4) - Multiples(y, 100) + Multiples(y, 400)
  {
    if y > 0 {
      DaysInYears(y - 1);
      YearLength(y - 1);
      DaysNext(y - 1);
    }
  }

  lemma DaysNext(y: nat)
    ensures DaysBeforeYear(y + 1) == DaysBeforeYear(y) + DaysInYear(y)
    ensures Multiples(y + 1, 4) == Multiples(y, 4) + Hit(y, 4)
    ensures Multiples(y + 1, 100) == Multiples(y, 100) + Hit(y, 100)
    ensures Multiples(y + 1, 400) == Multiples(y, 400) + Hit(y, 400)
  {
  }

  /** The same in closed form. */
  lemma DaysClosed(y: nat)
    ensures DaysBeforeYear(y) == 365 * y + (y + 3) / 4 - (y + 99) / 100 + (y + 399) / 400
  {
    DaysInYears(y);
    Fourths(y);
    Hundredths(y);
    FourHundredths(y);
  }

  lemma StartOfYear(y: nat)
    requires 0 < y < 10000
    ensures Nanos(Civil(y, 1, 1, 0, 0, 0, 0)) == DaysBeforeYear(y) * 86400 * 1_000_000_000
  {
  }
}
