/** A reminder that the delivery pass sends twice at one moment. */
module DeliveryLimits {
  import opened Wrappers
  import opened Calendar
  import opened Arithmetic
  import opened Recurrence
  import opened TimeText
  import opened Reminders
  import opened Delivery
  import opened DueQuery

  /** Every minute, at 0.52 seconds past it, starting in the calendar's first minute. */
  const EVERY_MINUTE := Rule(1, Minute, [], UnsetMode, 0, 0, End(Never, None, 0), UnsetZone)
  const FIRST_DUE: Instant := 520_000_000
  const UNEVEN := Row("chat", FIRST_DUE, "text", Pending, FIRST_DUE, Some(EVERY_MINUTE), 0, TextMode, "")

  /** Half a second past the next minute, shortly before the reminder is due again. */
  const MOMENT: Instant := 60_500_000_000

  function ZeroText(k: nat): string {
    if k == 0 then "" else ZeroText(k - 1) + "0"
  }

  lemma {:induction false} PadShifted(n: nat, w: nat, k: nat)
    ensures Pad(n * Pow10(k), w + k) == Pad(n, w) + ZeroText(k) && Zeros(ZeroText(k))
  {
    if k == 0 {
      assert Pad(n, w) + "" == Pad(n, w);
    } else {
      PadShifted(n, w, k - 1);
      var m := n * Pow10(k - 1);
      assert n * Pow10(k) == m * 10;
      MultipleHasNoRemainder(m, 10);
      assert Pad(m * 10, w + k) == Pad(m, w + k - 1) + ['0'];
    }
  }

  lemma Fractions()
    ensures Fraction(500_000_000) == ".5" && Fraction(520_000_000) == ".52"
  {
    assert Pow10(4) == 10_000;
    assert Pow10(7) == 10_000_000 && Pow10(8) == 100_000_000;
    PadShifted(5, 1, 8);
    PadShifted(52, 2, 7);
    assert Pad(5, 1) == ['5'] && Pad(52, 2) == ['5'] + ['2'];
    hide Pad, ZeroText, Pow10;
    StripOne('5', ZeroText(8));
    StripOne('2', ZeroText(7));
    StripMore('5', ['2'] + ZeroText(7));
    assert (['5'] + ['2']) + ZeroText(7) == ['5'] + (['2'] + ZeroText(7));
  }

  lemma StripMore(c: char, rest: string)
    requires c != '0'
    ensures Strip([c] + rest) == [c] + Strip(rest)
  {
    assert ([c] + rest)[0] == c && ([c] + rest)[1..] == rest;
  }

  lemma StripOne(c: char, zeros: string)
    requires c != '0' && Zeros(zeros)
    ensures Strip([c] + zeros) == [c]
  {
    assert ([c] + zeros)[0] == c && ([c] + zeros)[1..] == zeros;
  }

  lemma InFirstYear(t: Instant)
    requires 0 <= t < DAY
    ensures FourDigits(UtcYear(t))
  {
    assert LocalDay(t, 0) == 0;
  }

  lemma NextIsAMinuteLater()
    ensures AfterDelivery(UNEVEN, MOMENT) == UNEVEN.(due := 60_520_000_000, count := 1)
  {
    assert Wrap64(1 * MINUTE) == 60_000_000_000;
    assert NextFixedInterval(FIRST_DUE, MOMENT, EVERY_MINUTE, MINUTE) == Some(60_520_000_000);
  }

  /** A pass sends the reminder, and the query lists it as due again at the very same moment. */
  lemma SentTwiceAtOneMoment()
    ensures ListedAsDue(UNEVEN, MOMENT) && AfterDelivery(UNEVEN, MOMENT).status == Pending
    ensures AfterDelivery(UNEVEN, MOMENT).due > MOMENT && ListedAsDue(AfterDelivery(UNEVEN, MOMENT), MOMENT)
  {
    hide Fraction, Format, Less, ListedAsDue, AfterDelivery, UtcYear;
    Fractions();
    NextIsAMinuteLater();
    InFirstYear(FIRST_DUE);
    InFirstYear(MOMENT);
    InFirstYear(60_520_000_000);
    FullSecondDecides(UNEVEN, MOMENT);
    ListedByTime(AfterDelivery(UNEVEN, MOMENT), MOMENT);
  }
}
