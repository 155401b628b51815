/** Timestamps as stored: RFC 3339 text in UTC (section 5.6 of RFC 3339), with the fraction's
    trailing zeros dropped, compared byte by byte by the database. */
module TimeText {
  import opened Calendar
  import opened Arithmetic

  // ---------- Byte order ----------

  predicate Less(a: string, b: string) {
    if b == "" then false
    else if a == "" then true
    else a[0] < b[0] || (a[0] == b[0] && Less(a[1..], b[1..]))
  }

  lemma {:induction false} LessIsStrict(a: string)
    ensures !Less(a, a)
  {
    if a != "" {
      LessIsStrict(a[1..]);
    }
  }

  lemma {:induction false} LessIsTotal(a: string, b: string)
    ensures a == b || Less(a, b) || Less(b, a)
    ensures !(Less(a, b) && Less(b, a))
  {
    if a != "" && b != "" {
      LessIsTotal(a[1..], b[1..]);
      assert a == [a[0]] + a[1..] && b == [b[0]] + b[1..];
    }
  }

  lemma {:induction false} LessIsTransitive(a: string, b: string, c: string)
    requires Less(a, b) && Less(b, c)
    ensures Less(a, c)
  {
    if a != "" && a[0] == b[0] == c[0] {
      LessIsTransitive(a[1..], b[1..], c[1..]);
    }
  }

  /** Texts that start with fields of one length compare by those fields first. */
  lemma {:induction false} LessByFields(a: string, x: string, b: string, y: string)
    requires |a| == |b|
    ensures Less(a + x, b + y) <==> Less(a, b) || (a == b && Less(x, y))
  {
    if a == "" {
      assert a + x == x && b + y == y;
    } else {
      LessByFields(a[1..], x, b[1..], y);
      assert (a + x)[1..] == a[1..] + x && (b + y)[1..] == b[1..] + y;
      assert a == [a[0]] + a[1..] && b == [b[0]] + b[1..];
    }
  }

  // ---------- Fixed-width numbers ----------

  function Digit(d: int): char
    requires 0 <= d <= 9
  {
    '0' + d as char
  }

  function Pow10(w: nat): nat {
    if w == 0 then 1 else 10 * Pow10(w - 1)
  }

  function Pad(n: nat, w: nat): (s: string)
    ensures |s| == w
  {
    if w == 0 then "" else Pad(n / 10, w - 1) + [Digit(n % 10)]
  }

  /** Numbers written with one width compare as numbers. */
  lemma {:induction false} PadOrder(m: nat, n: nat, w: nat)
    requires m < Pow10(w) && n < Pow10(w)
    ensures Less(Pad(m, w), Pad(n, w)) <==> m < n
    ensures Pad(m, w) == Pad(n, w) <==> m == n
  {
    if w > 0 {
      PadOrder(m / 10, n / 10, w - 1);
      LessByFields(Pad(m / 10, w - 1), [Digit(m % 10)], Pad(n / 10, w - 1), [Digit(n % 10)]);
      assert Pad(m, w)[..w - 1] == Pad(m / 10, w - 1) && Pad(n, w)[..w - 1] == Pad(n / 10, w - 1);
      assert Pad(m, w)[w - 1] == Digit(m % 10) && Pad(n, w)[w - 1] == Digit(n % 10);
    }
  }

  /** A number field followed by more text. */
  lemma FieldOrder(m: nat, x: string, n: nat, y: string, w: nat)
    requires m < Pow10(w) && n < Pow10(w)
    ensures Less(Pad(m, w) + x, Pad(n, w) + y) <==> m < n || (m == n && Less(x, y))
  {
    LessByFields(Pad(m, w), x, Pad(n, w), y);
    PadOrder(m, n, w);
  }

  lemma SeparatorOrder(c: char, x: string, y: string)
    ensures Less([c] + x, [c] + y) <==> Less(x, y)
  {
    assert ([c] + x)[1..] == x && ([c] + y)[1..] == y;
  }

  // ---------- Fractions of a second ----------

  predicate Zeros(s: string) {
    forall i :: 0 <= i < |s| ==> s[i] == '0'
  }

  /** Drops the trailing zeros. */
  function Strip(s: string): string {
    if Zeros(s) then "" else [s[0]] + Strip(s[1..])
  }

  /** Stripping drops trailing zeros and nothing else. */
  lemma {:induction false} StripDropsTrailingZeros(s: string)
    ensures Strip(s) <= s && Zeros(s[|Strip(s)|..])
    ensures Strip(s) == "" || Strip(s)[|Strip(s)| - 1] != '0'
  {
    if !Zeros(s) {
      StripDropsTrailingZeros(s[1..]);
      assert s == [s[0]] + s[1..];
      assert s[|Strip(s)|..] == s[1..][|Strip(s[1..])|..];
      if Strip(s[1..]) == "" {
        assert Zeros(s[1..]);
      }
    }
  }

  function Fraction(ns: nat): string {
    if ns == 0 then "" else "." + Strip(Pad(ns, 9))
  }

  predicate Digits(s: string) {
    forall i :: 0 <= i < |s| ==> '0' <= s[i] <= '9'
  }

  lemma {:induction false} PadIsDigits(n: nat, w: nat)
    ensures Digits(Pad(n, w))
  {
    if w > 0 {
      PadIsDigits(n / 10, w - 1);
    }
  }

  lemma {:induction false} PadZeros(n: nat, w: nat)
    requires n < Pow10(w)
    ensures Zeros(Pad(n, w)) <==> n == 0
  {
    if w > 0 {
      PadZeros(n / 10, w - 1);
      var p := Pad(n, w);
      assert p[..w - 1] == Pad(n / 10, w - 1) && p[w - 1] == Digit(n % 10);
      assert forall i :: 0 <= i < w - 1 ==> p[i] == p[..w - 1][i];
      assert Zeros(p) <==> Zeros(p[..w - 1]) && p[w - 1] == '0';
    }
  }

  /** With the closing Z after them, stripped digits compare as the full digits do, unless one is a
      proper prefix of the other: then the shorter, which is the smaller number, compares greater. */
  lemma {:induction false} StripOrder(p: string, q: string)
    requires |p| == |q| && Digits(p) && Digits(q)
    ensures Less(Strip(p) + "Z", Strip(q) + "Z")
       <==> if Strip(p) < Strip(q) then false else if Strip(q) < Strip(p) then true else Less(p, q)
    ensures Strip(p) < Strip(q) ==> Less(p, q)
  {
    if Zeros(p) && Zeros(q) {
      assert p == q;
      LessIsStrict(p);
    } else if Zeros(p) {
      ZerosAreLeast(p, q);
    } else if Zeros(q) {
      ZerosAreLeast(q, p);
      LessIsTotal(p, q);
    } else {
      StripOrder(p[1..], q[1..]);
      var x, y := Strip(p[1..]), Strip(q[1..]);
      assert Strip(p) == [p[0]] + x && Strip(q) == [q[0]] + y;
      hide Strip, Zeros, Digits;
      PrependOrder(p[0], x, q[0], y);
      assert Less(p, q) <==> p[0] < q[0] || (p[0] == q[0] && Less(p[1..], q[1..]));
      hide Less;
    }
  }

  lemma PrependOrder(c: char, x: string, d: char, y: string)
    ensures Less([c] + x + "Z", [d] + y + "Z") <==> c < d || (c == d && Less(x + "Z", y + "Z"))
    ensures [c] + x < [d] + y <==> c == d && x < y
    ensures [d] + y < [c] + x <==> c == d && y < x
  {
    assert ([c] + x + "Z")[1..] == x + "Z" && ([d] + y + "Z")[1..] == y + "Z";
    if c == d {
      PrefixUnder(c, x, y);
      PrefixUnder(c, y, x);
    } else {
      assert ([c] + x)[0] != ([d] + y)[0];
    }
  }

  lemma {:induction false} ZerosAreLeast(p: string, q: string)
    requires |p| == |q| && Zeros(p) && !Zeros(q) && Digits(q)
    ensures Less(p, q)
  {
    if p[0] == q[0] {
      ZerosAreLeast(p[1..], q[1..]);
    }
  }

  /** Fractions compare as numbers, unless one is a proper prefix of the other. */
  lemma FractionOrder(a: nat, b: nat)
    requires a < SECOND && b < SECOND
    ensures Less(Fraction(a) + "Z", Fraction(b) + "Z")
       <==> if Fraction(a) < Fraction(b) then false else if Fraction(b) < Fraction(a) then true else a < b
    ensures Fraction(a) < Fraction(b) ==> a < b
  {
    hide Strip, Pad;
    assert Pow10(9) == SECOND by {
      assert Pow10(3) == 1000;
      assert Pow10(6) == 1000 * Pow10(3);
      assert Pow10(9) == 1000 * Pow10(6);
    }
    PadOrder(a, b, 9);
    PadIsDigits(a, 9);
    PadIsDigits(b, 9);
    var x, y := Strip(Pad(a, 9)), Strip(Pad(b, 9));
    StripOrder(Pad(a, 9), Pad(b, 9));
    if a > 0 && b > 0 {
      assert Fraction(a) + "Z" == ['.'] + (x + "Z") && Fraction(b) + "Z" == ['.'] + (y + "Z");
      SeparatorOrder('.', x + "Z", y + "Z");
      PrefixUnder('.', x, y);
      PrefixUnder('.', y, x);
    }
  }

  lemma PrefixUnder(c: char, x: string, y: string)
    ensures [c] + x < [c] + y <==> x < y
  {
    assert ([c] + x)[1..] == x && ([c] + y)[1..] == y;
  }

  // ---------- Years ----------

  /** How many digits a year is written with: at least four. */
  function Width(n: nat): (w: nat)
    ensures w >= 4 && n < Pow10(w)
  {
    if n < 10_000 then
      assert Pow10(4) == 10_000; 4
    else 1 + Width(n / 10)
  }

  function YearText(y: int): string {
    if y < 0 then ['-'] + Pad(-y, Width(-y)) else Pad(y, Width(y))
  }

  lemma PowIsPositive(d: nat)
    ensures Pow10(d) > 0
  {}

  /** A number without its last `d` digits. */
  function Leading(n: nat, d: nat): nat {
    if d == 0 then n else Leading(n / 10, d - 1)
  }

  /** Text before the dash of a date: the digits of the wider year are cut to those of the other. */
  predicate DigitsBefore(a: nat, b: nat) {
    var wa, wb := Width(a), Width(b);
    if wa == wb then a < b
    else if wa < wb then a <= Leading(b, wb - wa)
    else Leading(a, wa - wb) < b
  }

  predicate YearBefore(a: int, b: int) {
    if a < 0 && b < 0 then DigitsBefore(-a, -b)
    else if a < 0 || b < 0 then a < 0
    else DigitsBefore(a, b)
  }

  lemma {:induction false} PadCut(n: nat, w: nat, d: nat) returns (low: string)
    ensures Pad(n, w + d) == Pad(Leading(n, d), w) + low && |low| == d && Digits(low)
  {
    if d == 0 {
      low := "";
    } else {
      var l := PadCut(n / 10, w, d - 1);
      low := l + [Digit(n % 10)];
      assert Pad(n, w + d) == Pad(n / 10, w + d - 1) + [Digit(n % 10)];
    }
  }

  lemma {:induction false} LeadingFits(n: nat, w: nat, d: nat)
    requires n < Pow10(w + d)
    ensures Leading(n, d) < Pow10(w)
    decreases d
  {
    if d > 0 {
      LeadingFits(n / 10, w, d - 1);
    }
  }

  /** A digit follows a dash in the order of bytes. */
  lemma DashIsLess(low: string, x: string, y: string)
    requires low != "" && Digits(low)
    ensures Less(['-'] + x, low + y) && !Less(low + y, ['-'] + x)
  {
    assert (low + y)[0] == low[0] && (['-'] + x)[0] == '-';
  }

  lemma DigitsOrder(a: nat, x: string, b: nat, y: string)
    ensures Less(Pad(a, Width(a)) + (['-'] + x), Pad(b, Width(b)) + (['-'] + y))
       <==> DigitsBefore(a, b) || (a == b && Less(x, y))
  {
    hide Pad, Less, Leading;
    var wa, wb := Width(a), Width(b);
    if wa == wb {
      FieldOrder(a, ['-'] + x, b, ['-'] + y, wa);
      SeparatorOrder('-', x, y);
    } else if wa < wb {
      var low := PadCut(b, wa, wb - wa);
      LeadingFits(b, wa, wb - wa);
      FieldOrder(a, ['-'] + x, Leading(b, wb - wa), low + (['-'] + y), wa);
      DashIsLess(low, x, ['-'] + y);
      assert Pad(b, wb) + (['-'] + y) == Pad(Leading(b, wb - wa), wa) + (low + (['-'] + y));
    } else {
      var low := PadCut(a, wb, wa - wb);
      LeadingFits(a, wb, wa - wb);
      FieldOrder(Leading(a, wa - wb), low + (['-'] + x), b, ['-'] + y, wb);
      DashIsLess(low, y, ['-'] + x);
      assert Pad(a, wa) + (['-'] + x) == Pad(Leading(a, wa - wb), wb) + (low + (['-'] + x));
    }
  }

  /** Dates compare by the texts of their years first. */
  lemma YearOrder(a: int, x: string, b: int, y: string)
    ensures Less(YearText(a) + (['-'] + x), YearText(b) + (['-'] + y)) <==> YearBefore(a, b) || (a == b && Less(x, y))
  {
    hide Less, Pad, Width, DigitsBefore;
    var p, q := ['-'] + x, ['-'] + y;
    if a < 0 && b < 0 {
      DigitsOrder(-a, x, -b, y);
      SeparatorOrder('-', Pad(-a, Width(-a)) + p, Pad(-b, Width(-b)) + q);
      assert YearText(a) + p == ['-'] + (Pad(-a, Width(-a)) + p) && YearText(b) + q == ['-'] + (Pad(-b, Width(-b)) + q);
    } else if a < 0 {
      PadIsDigits(b, Width(b));
      DashIsLess(YearText(b), Pad(-a, Width(-a)) + p, q);
      assert YearText(a) + p == ['-'] + (Pad(-a, Width(-a)) + p);
    } else if b < 0 {
      PadIsDigits(a, Width(a));
      DashIsLess(YearText(a), Pad(-b, Width(-b)) + q, p);
      assert YearText(b) + q == ['-'] + (Pad(-b, Width(-b)) + q);
    } else {
      DigitsOrder(a, x, b, y);
    }
  }

  /** Of two different years one is written before the other. */
  lemma YearsDiffer(a: int, b: int)
    ensures !YearBefore(a, a)
    ensures a != b ==> (YearBefore(a, b) <==> !YearBefore(b, a))
  {}

  predicate FourDigits(y: int) {
    0 <= y <= 9999
  }

  /** Years of four digits are written in order. A later year is written before one of them exactly when
      its first four digits are a smaller number. */
  lemma YearBeforeMeans(a: int, b: int)
    requires FourDigits(b)
    ensures YearBefore(a, b) <==> if a > 9999 then Leading(a, Width(a) - 4) < b else a < b
    ensures YearBefore(b, a) <==> if a > 9999 then b <= Leading(a, Width(a) - 4) else b < a
  {}

  // ---------- Timestamps ----------

  function ClockText(clock: nat, rest: string): string {
    Pad(clock / 3600, 2) + ([':'] + (Pad(clock / 60 % 60, 2) + ([':'] + (Pad(clock % 60, 2) + rest))))
  }

  function DateText(c: Civil, rest: string): string
    requires ValidCivil(c)
  {
    YearText(c.month / 12) + (['-'] + (Pad(c.month % 12 + 1, 2) + (['-'] + (Pad(c.day, 2) + rest))))
  }

  /** `t.UTC().Format(time.RFC3339Nano)`. */
  function Format(t: Instant): string {
    CivilOfIsValid(LocalDay(t, 0));
    DateText(CivilOf(LocalDay(t, 0)), ['T'] + ClockText(ClockOf(t, 0), Fraction(t % SECOND) + "Z"))
  }

  function UtcYear(t: Instant): int {
    YearOf(LocalDay(t, 0))
  }

  lemma ClockOrder(a: nat, x: string, b: nat, y: string)
    requires a < DAY_SECONDS && b < DAY_SECONDS
    ensures Less(ClockText(a, x), ClockText(b, y)) <==> a < b || (a == b && Less(x, y))
  {
    hide Pad, Less;
    assert Pow10(2) == 100;
    var x1, y1 := Pad(a % 60, 2) + x, Pad(b % 60, 2) + y;
    FieldOrder(a % 60, x, b % 60, y, 2);
    SeparatorOrder(':', x1, y1);
    var x2, y2 := Pad(a / 60 % 60, 2) + ([':'] + x1), Pad(b / 60 % 60, 2) + ([':'] + y1);
    FieldOrder(a / 60 % 60, [':'] + x1, b / 60 % 60, [':'] + y1, 2);
    SeparatorOrder(':', x2, y2);
    FieldOrder(a / 3600, [':'] + x2, b / 3600, [':'] + y2, 2);
    ClockFields(a, b);
  }

  lemma ClockFields(a: nat, b: nat)
    ensures a / 3600 < b / 3600
            || (a / 3600 == b / 3600 && (a / 60 % 60 < b / 60 % 60 || (a / 60 % 60 == b / 60 % 60 && a % 60 < b % 60)))
       <==> a < b
    ensures a / 3600 == b / 3600 && a / 60 % 60 == b / 60 % 60 && a % 60 == b % 60 <==> a == b
  {
    ClockFieldsOf(a);
    ClockFieldsOf(b);
  }

  lemma ClockFieldsOf(a: nat)
    ensures a == a / 3600 * 3600 + a / 60 % 60 * 60 + a % 60
  {
    var minutes := a / 60;
    assert a == minutes * 60 + a % 60 && minutes == minutes / 60 * 60 + minutes % 60;
    DivisionIsUnique(a, 3600, minutes / 60, minutes % 60 * 60 + a % 60);
  }

  lemma DateOrder(c: Civil, x: string, d: Civil, y: string)
    requires ValidCivil(c) && ValidCivil(d)
    ensures Less(DateText(c, x), DateText(d, y))
       <==> || YearBefore(c.month / 12, d.month / 12)
            || (c.month / 12 == d.month / 12 && DayNumber(c.month, c.day) < DayNumber(d.month, d.day))
            || (c == d && Less(x, y))
  {
    hide Pad, Less, DayNumber, MonthLength, YearText, YearBefore;
    assert Pow10(2) == 100;
    MonthLengthBounds(c.month);
    MonthLengthBounds(d.month);
    var x1, y1 := Pad(c.day, 2) + x, Pad(d.day, 2) + y;
    FieldOrder(c.day, x, d.day, y, 2);
    SeparatorOrder('-', x1, y1);
    var x2, y2 := Pad(c.month % 12 + 1, 2) + (['-'] + x1), Pad(d.month % 12 + 1, 2) + (['-'] + y1);
    FieldOrder(c.month % 12 + 1, ['-'] + x1, d.month % 12 + 1, ['-'] + y1, 2);
    YearOrder(c.month / 12, x2, d.month / 12, y2);
    DatesInOrder(c, d);
    DatesInOrder(d, c);
  }

  lemma MonthLengthBounds(mi: int)
    ensures 28 <= MonthLength(mi) <= 31
  {}

  lemma DatesInOrder(c: Civil, d: Civil)
    requires ValidCivil(c) && ValidCivil(d)
    ensures c.month < d.month || (c.month == d.month && c.day < d.day) ==>
              DayNumber(c.month, c.day) < DayNumber(d.month, d.day)
  {
    if c.month < d.month {
      MonthSteps(c.month);
      MonthsIncrease(c.month + 1, d.month);
      hide MonthStart, MonthLength;
    }
  }

  lemma SecondsOf(t: Instant)
    ensures t / SECOND == LocalDay(t, 0) * DAY_SECONDS + ClockOf(t, 0)
  {
    var x := t % DAY;
    assert t == (t / DAY * DAY_SECONDS + x / SECOND) * SECOND + x % SECOND;
    Remainder(t, t / DAY * DAY_SECONDS + x / SECOND, x % SECOND);
  }

  lemma YearOfCivil(t: Instant)
    ensures CivilOf(LocalDay(t, 0)).month / 12 == UtcYear(t)
  {
    hide YearOf, DaysBeforeYear, LocalDay;
    CivilOfIsValid(LocalDay(t, 0));
  }

  lemma YearsInOrder(t: Instant, u: Instant)
    requires t <= u
    ensures UtcYear(t) <= UtcYear(u)
  {
    var d, e := LocalDay(t, 0), LocalDay(u, 0);
    assert d <= e;
    YearOfContains(d);
    YearOfContains(e);
    hide YearOf, LocalDay;
    if YearOf(d) > YearOf(e) {
      YearSteps(YearOf(e));
      YearsIncrease(YearOf(e) + 1, YearOf(d));
    }
  }

  lemma YearsIncrease(a: int, b: int)
    requires a <= b
    ensures DaysBeforeYear(a) <= DaysBeforeYear(b)
  {
    MonthsIncrease(12 * a, 12 * b);
    MonthlessYear(a);
    MonthlessYear(b);
    hide MonthStart, DaysBeforeYear;
  }

  lemma MonthlessYear(a: int)
    ensures MonthStart(12 * a) == DaysBeforeYear(a)
  {
    hide Leap, DaysBeforeYear;
  }

  /** Stored text compares by the text of the year first, then by whole seconds, and then by the fraction
      as text. */
  lemma FormatOrder(t: Instant, u: Instant)
    ensures Less(Format(t), Format(u))
       <==> || YearBefore(UtcYear(t), UtcYear(u))
            || (UtcYear(t) == UtcYear(u)
                && (t / SECOND < u / SECOND
                    || (t / SECOND == u / SECOND && Less(Fraction(t % SECOND) + "Z", Fraction(u % SECOND) + "Z"))))
  {
    hide Less, LocalDay, ClockOf, Fraction, ClockText, DateText, CivilOf, DayNumber, MonthLength, YearBefore, UtcYear;
    var x, y := Fraction(t % SECOND) + "Z", Fraction(u % SECOND) + "Z";
    var p, q := CivilOf(LocalDay(t, 0)), CivilOf(LocalDay(u, 0));
    CivilOfIsValid(LocalDay(t, 0));
    CivilOfIsValid(LocalDay(u, 0));
    YearOfCivil(t);
    YearOfCivil(u);
    SecondsOf(t);
    SecondsOf(u);
    var tc, uc := ClockText(ClockOf(t, 0), x), ClockText(ClockOf(u, 0), y);
    ClockOrder(ClockOf(t, 0), x, ClockOf(u, 0), y);
    SeparatorOrder('T', tc, uc);
    DateOrder(p, ['T'] + tc, q, ['T'] + uc);
  }

  /** When the earlier of two instants is written before the later one: in one year unless they lie in one
      second and the earlier fraction is a proper prefix of the later one; otherwise as their years are.
      If it is not, the later one is written before the earlier. */
  lemma TextOrderExact(t: Instant, u: Instant)
    requires t < u
    ensures Less(Format(t), Format(u))
       <==> if UtcYear(t) == UtcYear(u) then t / SECOND < u / SECOND || !(Fraction(t % SECOND) < Fraction(u % SECOND))
            else YearBefore(UtcYear(t), UtcYear(u))
    ensures Less(Format(u), Format(t)) <==> !Less(Format(t), Format(u))
  {
    hide Format, Less, Fraction, UtcYear, YearBefore;
    FormatOrder(t, u);
    FormatOrder(u, t);
    FractionOrder(t % SECOND, u % SECOND);
    FractionOrder(u % SECOND, t % SECOND);
    YearsDiffer(UtcYear(t), UtcYear(u));
    YearsDiffer(UtcYear(u), UtcYear(t));
    assert t == t / SECOND * SECOND + t % SECOND && u == u / SECOND * SECOND + u % SECOND;
  }

  lemma OneSecondOneYear(t: Instant, u: Instant)
    requires t / SECOND == u / SECOND
    ensures UtcYear(t) == UtcYear(u)
  {
    SecondsOf(t);
    SecondsOf(u);
    hide YearOf;
  }

  /** A timestamp on a whole second compares greater than every later one within its second. */
  lemma WholeSecondReadsLate(t: Instant, u: Instant)
    requires t < u && t % SECOND == 0 && t / SECOND == u / SECOND
    ensures Less(Format(u), Format(t))
  {
    hide Format, Less, UtcYear;
    OneSecondOneYear(t, u);
    TextOrderExact(t, u);
    assert u % SECOND > 0;
    assert Fraction(t % SECOND) < Fraction(u % SECOND);
  }
}
