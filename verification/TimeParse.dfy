/** Reading stored timestamps back: `time.Parse(time.RFC3339Nano, ...)` on texts in UTC with at most nine
    digits of fraction, which is what the store writes. */
module TimeParse {
  import opened Wrappers
  import opened Calendar
  import opened Arithmetic
  import opened TimeText

  function Number(s: string): nat
    requires Digits(s)
  {
    if s == "" then 0 else 10 * Number(s[..|s| - 1]) + (s[|s| - 1] as int - '0' as int)
  }

  /** A number of exactly `w` digits. */
  function Field(s: string, i: nat, w: nat): Option<nat> {
    if i + w <= |s| && Digits(s[i..i + w]) then Some(Number(s[i..i + w])) else None
  }

  predicate Has(s: string, i: nat, c: char) {
    i < |s| && s[i] == c
  }

  /** What follows the seconds. */
  function ParseFraction(s: string): Option<nat> {
    if s == "Z" then Some(0)
    else if |s| >= 3 && s[0] == '.' && s[|s| - 1] == 'Z' && Digits(s[1..|s| - 1]) && |s| <= 11 then
      Some(Number(s[1..|s| - 1]) * Pow10(11 - |s|))
    else None
  }

  function ParseClock(s: string): Option<(nat, nat)> {
    var hour, minute, second := Field(s, 0, 2), Field(s, 3, 2), Field(s, 6, 2);
    if hour.None? || minute.None? || second.None? || !Has(s, 2, ':') || !Has(s, 5, ':') then None
    else if hour.value >= 24 || minute.value >= 60 || second.value >= 60 then None
    else
      var fraction := ParseFraction(s[8..]);
      if fraction.None? then None
      else Some((3600 * hour.value + 60 * minute.value + second.value, fraction.value))
  }

  function Parse(s: string): Option<Instant> {
    var year, month, day := Field(s, 0, 4), Field(s, 5, 2), Field(s, 8, 2);
    if year.None? || month.None? || day.None? || !Has(s, 4, '-') || !Has(s, 7, '-') || !Has(s, 10, 'T') then None
    else if month.value < 1 || month.value > 12 then None
    else
      var mi := 12 * year.value + month.value - 1;
      var clock := ParseClock(s[11..]);
      if day.value < 1 || day.value > MonthLength(mi) || clock.None? then None
      else Some(At(DayNumber(mi, day.value), clock.value.0, 0) + clock.value.1)
  }

  // ---------- Fields are read back ----------

  lemma {:induction false} NumberOfPad(n: nat, w: nat)
    requires n < Pow10(w)
    ensures Digits(Pad(n, w)) && Number(Pad(n, w)) == n
  {
    PadIsDigits(n, w);
    if w > 0 {
      NumberOfPad(n / 10, w - 1);
      assert Pad(n, w)[..w - 1] == Pad(n / 10, w - 1);
    }
  }

  lemma FieldIsRead(before: string, n: nat, w: nat, after: string)
    requires n < Pow10(w)
    ensures Field(before + (Pad(n, w) + after), |before|, w) == Some(n)
  {
    hide Pad;
    NumberOfPad(n, w);
    var s := before + (Pad(n, w) + after);
    assert s[|before|..|before| + w] == Pad(n, w);
  }

  lemma CharIsRead(before: string, c: char, after: string)
    ensures Has(before + ([c] + after), |before|, c)
  {}

  lemma Shifted(before: string, x: string, after: string)
    ensures before + (x + after) == (before + x) + after
  {}

  lemma Dropped(before: string, after: string)
    ensures (before + after)[|before|..] == after
  {}

  // ---------- The fraction ----------

  lemma {:induction false} NumberWithZeros(s: string, n: nat)
    requires n <= |s| && Digits(s) && Zeros(s[n..])
    ensures Number(s) == Number(s[..n]) * Pow10(|s| - n)
    decreases |s|
  {
    if n == |s| {
      assert s[..n] == s;
    } else {
      var init := s[..|s| - 1];
      assert init[n..] == s[n..][..|s| - 1 - n] && init[..n] == s[..n];
      assert s[|s| - 1] == s[n..][|s| - 1 - n] == '0';
      NumberWithZeros(init, n);
      assert Number(s) == 10 * Number(init);
      hide Number, Zeros, Digits;
      TenTimes(Number(s[..n]), |s| - 1 - n);
    }
  }

  lemma TenTimes(a: nat, k: nat)
    ensures a * Pow10(k + 1) == 10 * (a * Pow10(k))
  {
    assert Pow10(k + 1) == 10 * Pow10(k);
  }

  lemma FractionIsRead(ns: nat)
    requires ns < SECOND
    ensures ParseFraction(Fraction(ns) + "Z") == Some(ns)
  {
    assert Pow10(9) == SECOND by {
      assert Pow10(3) == 1000;
      assert Pow10(6) == 1000 * Pow10(3);
      assert Pow10(9) == 1000 * Pow10(6);
    }
    if ns == 0 {
      assert Fraction(ns) + "Z" == "Z";
    } else {
      var d := Strip(Pad(ns, 9));
      assert Fraction(ns) == "." + d;
      hide Pad, Pow10, Strip, Fraction, ParseFraction;
      StrippedIsRead(ns, d);
      DigitsAreParsed(d);
    }
  }

  lemma StrippedIsRead(ns: nat, d: string)
    requires 0 < ns < Pow10(9) && d == Strip(Pad(ns, 9))
    ensures d != "" && |d| <= 9 && Digits(d) && Number(d) * Pow10(9 - |d|) == ns
  {
    hide Pad, Pow10;
    var p := Pad(ns, 9);
    NumberOfPad(ns, 9);
    PadZeros(ns, 9);
    StripDropsTrailingZeros(p);
    hide Strip;
    assert p[..|d|] == d;
    NumberWithZeros(p, |d|);
  }

  lemma DigitsAreParsed(d: string)
    requires d != "" && |d| <= 9 && Digits(d)
    ensures ParseFraction("." + d + "Z") == Some(Number(d) * Pow10(9 - |d|))
  {
    hide Number, Pow10;
    var s := "." + d + "Z";
    assert s[1..|s| - 1] == d;
  }

  // ---------- Whole timestamps ----------

  lemma ClockIsRead(clock: nat, ns: nat)
    requires clock < DAY_SECONDS && ns < SECOND
    ensures ParseClock(ClockText(clock, Fraction(ns) + "Z")) == Some((clock, ns))
  {
    hide Pad, Fraction, ParseFraction, Field, Has;
    var rest := Fraction(ns) + "Z";
    ClockFieldsOf(clock);
    FractionIsRead(ns);
    ClockFieldsAreRead(clock / 3600, clock / 60 % 60, clock % 60, rest);
  }

  lemma ClockFieldsAreRead(h: nat, m: nat, s: nat, rest: string)
    requires h < 100 && m < 100 && s < 100
    ensures var t := Pad(h, 2) + ([':'] + (Pad(m, 2) + ([':'] + (Pad(s, 2) + rest))));
            && Field(t, 0, 2) == Some(h) && Field(t, 3, 2) == Some(m) && Field(t, 6, 2) == Some(s)
            && Has(t, 2, ':') && Has(t, 5, ':') && |t| >= 8 && t[8..] == rest
  {
    assert Pow10(2) == 100;
    hide Pad, Field, Has, Pow10;
    var r4 := Pad(s, 2) + rest;
    var r3 := [':'] + r4;
    var r2 := Pad(m, 2) + r3;
    var r1 := [':'] + r2;
    var t := Pad(h, 2) + r1;
    FieldIsRead("", h, 2, r1);
    assert "" + t == t;
    CharIsRead(Pad(h, 2), ':', r2);
    var p2 := Pad(h, 2) + [':'];
    Shifted(Pad(h, 2), [':'], r2);
    FieldIsRead(p2, m, 2, r3);
    var p3 := p2 + Pad(m, 2);
    Shifted(p2, Pad(m, 2), r3);
    CharIsRead(p3, ':', r4);
    var p4 := p3 + [':'];
    Shifted(p3, [':'], r4);
    FieldIsRead(p4, s, 2, rest);
    Shifted(p4, Pad(s, 2), rest);
    Dropped(p4 + Pad(s, 2), rest);
  }

  lemma DateIsRead(c: Civil, rest: string)
    requires ValidCivil(c) && FourDigits(c.month / 12)
    ensures var s := DateText(c, ['T'] + rest);
            && Field(s, 0, 4) == Some(c.month / 12) && Field(s, 5, 2) == Some(c.month % 12 + 1)
            && Field(s, 8, 2) == Some(c.day) && |s| >= 11 && s[11..] == rest
            && Has(s, 4, '-') && Has(s, 7, '-') && Has(s, 10, 'T')
  {
    var y := c.month / 12;
    assert Width(y) == 4;
    MonthLengthBounds(c.month);
    hide Pad, Field, Has, Width, MonthLength;
    DateFieldsAreRead(y, c.month % 12 + 1, c.day, rest);
  }

  lemma DateFieldsAreRead(y: nat, m: nat, d: nat, rest: string)
    requires y < 10_000 && m < 100 && d < 100
    ensures var s := Pad(y, 4) + (['-'] + (Pad(m, 2) + (['-'] + (Pad(d, 2) + (['T'] + rest)))));
            && Field(s, 0, 4) == Some(y) && Field(s, 5, 2) == Some(m) && Field(s, 8, 2) == Some(d)
            && |s| >= 11 && s[11..] == rest
            && Has(s, 4, '-') && Has(s, 7, '-') && Has(s, 10, 'T')
  {
    assert Pow10(2) == 100;
    assert Pow10(4) == 100 * Pow10(2);
    hide Pad, Field, Has, Pow10;
    var r5 := ['T'] + rest;
    var r4 := Pad(d, 2) + r5;
    var r3 := ['-'] + r4;
    var r2 := Pad(m, 2) + r3;
    var r1 := ['-'] + r2;
    var s := Pad(y, 4) + r1;
    FieldIsRead("", y, 4, r1);
    assert "" + s == s;
    CharIsRead(Pad(y, 4), '-', r2);
    var p2 := Pad(y, 4) + ['-'];
    Shifted(Pad(y, 4), ['-'], r2);
    FieldIsRead(p2, m, 2, r3);
    var p3 := p2 + Pad(m, 2);
    Shifted(p2, Pad(m, 2), r3);
    CharIsRead(p3, '-', r4);
    var p4 := p3 + ['-'];
    Shifted(p3, ['-'], r4);
    FieldIsRead(p4, d, 2, r5);
    var p5 := p4 + Pad(d, 2);
    Shifted(p4, Pad(d, 2), r5);
    CharIsRead(p5, 'T', rest);
    Shifted(p5, ['T'], rest);
    Dropped(p5 + ['T'], rest);
  }

  /** A year of more digits leaves a digit where the dash should be; a negative one begins with a dash. */
  lemma OtherYearsAreNotRead(c: Civil, rest: string)
    requires ValidCivil(c) && !FourDigits(c.month / 12)
    ensures Parse(DateText(c, rest)).None?
  {
    var y := c.month / 12;
    var s := DateText(c, rest);
    var tail := ['-'] + (Pad(c.month % 12 + 1, 2) + (['-'] + (Pad(c.day, 2) + rest)));
    assert s == YearText(y) + tail;
    hide Pad, Number, MonthLength, ParseClock;
    if y < 0 {
      assert s[0] == '-';
      assert s[0..4][0] == '-';
      assert Field(s, 0, 4).None?;
    } else {
      assert Width(y) > 4;
      PadIsDigits(y, Width(y));
      assert s[4] == YearText(y)[4] != '-';
    }
  }

  /** What is written is read back as it was, if its year in UTC has four digits, and otherwise not at all. */
  lemma WrittenIsRead(t: Instant)
    ensures Parse(Format(t)) == if FourDigits(UtcYear(t)) then Some(t) else None
  {
    hide Less, Field, ClockText, DateText, ParseClock, CivilOf, DayNumber, MonthLength, Fraction;
    var c := CivilOf(LocalDay(t, 0));
    CivilOfIsValid(LocalDay(t, 0));
    YearOfCivil(t);
    var rest := ClockText(ClockOf(t, 0), Fraction(t % SECOND) + "Z");
    if FourDigits(UtcYear(t)) {
      DateIsRead(c, rest);
      ClockIsRead(ClockOf(t, 0), t % SECOND);
      SecondsOf(t);
      assert ValidCivil(c) && 12 * (c.month / 12) + (c.month % 12 + 1) - 1 == c.month;
      assert 1 <= c.day <= MonthLength(c.month);
      assert Parse(Format(t)) == Some(At(LocalDay(t, 0), ClockOf(t, 0), 0) + t % SECOND);
    } else {
      OtherYearsAreNotRead(c, ['T'] + rest);
    }
  }
}
