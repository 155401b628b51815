/** Which rule arguments and patches yield, field by field, and which rules validation accepts. */
module RulePatches {
  import opened Wrappers
  import opened Calendar
  import opened Recurrence
  import opened Schedule
  import opened ScheduleInstants
  import opened RecurrencePatch

  // ---------- A new rule ----------

  /** The end a new rule's arguments ask for; an end of no type is never. */
  predicate EndGiven(args: RuleArgs, end: End) {
    match args.endKind
    case UnsetEnd | Never => end.kind == Never && end.date.None? && end.count == 0
    case OnDate => end.kind == OnDate && args.endDate.Date? && end.date == Some(args.endDate.t) && end.count == 0
    case AfterCount => end.kind == AfterCount && end.date.None? && end.count == args.endCount
    case UnknownEnd => false
  }

  /** Arguments yield a rule exactly when there is a valid one with these fields, and then that one. */
  lemma NewRuleExactly(args: RuleArgs, timezone: Timezone, rule: Rule)
    ensures NewRule(args, timezone) == Ok(Some(rule))
       <==> && args.frequency == Some(rule.frequency)
            && rule.interval == (if args.interval >= 1 then args.interval else 1)
            && |rule.weekdays| == |args.weekdays|
            && (forall i :: 0 <= i < |args.weekdays| ==> args.weekdays[i] == Named(rule.weekdays[i]))
            && rule.mode == args.mode && rule.nth == args.nth
            && (if args.weekday.Some? then args.weekday.value == Named(rule.weekday) else rule.weekday == 0)
            && EndGiven(args, rule.end) && rule.timezone == timezone && rule.Valid()
    ensures NewRule(args, timezone) == Ok(None) <==> args.frequency.None?
  {
    WeekdaysMeans(args.weekdays);
    if Weekdays(args.weekdays).Ok? && |rule.weekdays| == |args.weekdays|
       && forall i :: 0 <= i < |args.weekdays| ==> args.weekdays[i] == Named(rule.weekdays[i])
    {
      assert rule.weekdays == Weekdays(args.weekdays).value;
    }
    hide Weekdays;
  }

  // ---------- A patched rule ----------

  /** The field of a rule that a patch mentions, or the rule's own. */
  function Or<T>(given: Option<T>, own: T): T {
    if given.Some? then given.value else own
  }

  /** A patched end: what is given, and otherwise its own, but that an end of never has no date and no count of
      its own. */
  predicate EndPatched(own: End, p: EndPatch, end: End) {
    var never := p.kind == Some(Never);
    && p.kind != Some(UnsetEnd) && end.kind == Or(p.kind, own.kind)
    && p.date != Some(BadDate)
    && (match p.date
        case Some(Date(t)) => end.date == Some(t)
        case Some(_) => end.date.None?
        case None => end.date == if never then None else own.date)
    && end.count == Or(p.count, if never then 0 else own.count)
  }

  /** What a patch is applied to: the present rule, or one that is still to be given a frequency. A rule without
      a zone gets the requester's. */
  predicate Patchable(existing: Option<Rule>, timezone: Timezone, own: Rule) {
    match existing
    case Some(rule) =>
      own == rule.(timezone := own.timezone)
      && own.timezone == if rule.timezone == UnsetZone then timezone else rule.timezone
    case None =>
      && own.interval == 1 && own.frequency == UnsetFrequency && own.weekdays == [] && own.mode == UnsetMode
      && own.nth == 0 && own.weekday == 0 && own.end == End(Never, None, 0) && own.timezone == timezone
  }

  /** The fields of a patched rule. A field that is mentioned must not be empty. */
  predicate FieldsPatched(own: Rule, p: Patch, rule: Rule)
    requires p.Patch?
  {
    && p.frequency != Some(UnsetFrequency) && p.mode != Some(UnsetMode) && p.weekday != Some(UnknownName)
    && rule.interval == (if Or(p.interval, own.interval) >= 1 then Or(p.interval, own.interval) else 1)
    && rule.frequency == Or(p.frequency, own.frequency)
    && (if p.weekdays.Some? then Weekdays(p.weekdays.value) == Ok(rule.weekdays) else rule.weekdays == own.weekdays)
    && rule.mode == Or(p.mode, own.mode) && rule.nth == Or(p.nth, own.nth)
    && (if p.weekday.Some? then p.weekday == Some(Named(rule.weekday)) else rule.weekday == own.weekday)
    && (if p.end.Some? then EndPatched(own.end, p.end.value, rule.end) else rule.end == own.end)
    && rule.timezone == own.timezone
  }

  lemma EndPatchedExactly(own: End, p: EndPatch, end: End)
    ensures MergedEnd(own, p) == Ok(end) <==> EndPatched(own, p, end)
  {}

  lemma FieldsExactly(own: Rule, p: Patch, end: End, rule: Rule)
    requires p.Patch?
    ensures FieldsPatched(own, p, rule)
       <==> && PatchedFields(own, p).Ok?
            && (if p.end.Some? then MergedEnd(own.end, p.end.value) == Ok(rule.end) else rule.end == own.end)
            && rule == PatchedFields(own, p).value.(end := rule.end, interval := rule.interval)
            && (var given := PatchedFields(own, p).value.interval;
                rule.interval == if given >= 1 then given else 1)
  {
    hide Weekdays, MergedEnd, EndPatched;
    if p.end.Some? {
      EndPatchedExactly(own.end, p.end.value, rule.end);
    }
  }

  /** A patch that mentions nothing leaves the rule as it is. Any other yields exactly the valid rule whose
      fields are patched, if there is one. */
  lemma MergedExactly(existing: Option<Rule>, p: Patch, timezone: Timezone, own: Rule, rule: Rule)
    requires Patchable(existing, timezone, own)
    ensures !Mentions(p) ==> Merged(existing, p, timezone) == Ok(existing)
    ensures Mentions(p) ==>
              (Merged(existing, p, timezone) == Ok(Some(rule))
               <==> FieldsPatched(own, p, rule) && rule.frequency != UnsetFrequency && rule.Valid())
    ensures Mentions(p) ==> Merged(existing, p, timezone) != Ok(None)
  {
    hide Rule.Valid, MergedEnd, PatchedFields, FieldsPatched, Weekdays;
    assert BaseRule(existing, timezone) == own;
    if Mentions(p) {
      FieldsExactly(own, p, rule.end, rule);
      if PatchedFields(own, p).Ok? {
        KeepsEnd(own, p);
      }
    }
  }

  lemma KeepsEnd(own: Rule, p: Patch)
    requires p.Patch? && PatchedFields(own, p).Ok?
    ensures PatchedFields(own, p).value.end == own.end
  {
    hide Weekdays;
  }

  // ---------- Validation ----------

  /** A month of year 1 whose first and 29th day fall on a weekday. */
  function MonthFrom(weekday: int): int
    requires 0 <= weekday <= 6
  {
    [18, 12, 16, 19, 14, 17, 23][weekday]
  }

  lemma FifthOccurs(weekday: int)
    requires 0 <= weekday <= 6
    ensures MonthLength(MonthFrom(weekday)) >= 29 && Weekday(DayNumber(MonthFrom(weekday), 1)) == weekday
  {
    var m := MonthFrom(weekday) - 12;
    FirstYear(m);
    hide MonthStart, MonthLength;
  }

  lemma FirstYear(m: int)
    requires 0 <= m < 12
    ensures MonthStart(12 + m) == DaysBeforeMonth(false, m) && (m != 1 ==> MonthLength(12 + m) >= 29)
  {
    assert (12 + m) / 12 == 1 && (12 + m) % 12 == m;
  }

  lemma NthOccurs(weekday: int, nth: int) returns (month: int, d: int)
    requires 0 <= weekday <= 6 && (nth == -1 || 1 <= nth <= 5)
    ensures 1 <= d <= MonthLength(month) && Weekday(DayNumber(month, d)) == weekday
    ensures if nth == -1 then d + 7 > MonthLength(month) else (d - 1) / 7 + 1 == nth
  {
    month := MonthFrom(weekday);
    FifthOccurs(weekday);
    assert MonthLength(month) <= 31;
    hide DayNumber, Weekday, MonthLength, MonthFrom;
    var weeks := if nth == -1 then 4 else nth - 1;
    d := 7 * weeks + 1;
    WeekdayInMonth(month, 1, d);
    WeeksLater(weekday, weeks);
  }

  lemma WeeksLater(weekday: int, weeks: int)
    requires 0 <= weekday <= 6 && 0 <= weeks <= 4
    ensures (weekday + 7 * weeks) % 7 == weekday && 7 * weeks / 7 == weeks
  {}

  /** What an end of this kind needs. */
  predicate Complete(end: End) {
    match end.kind
    case UnsetEnd | Never => true
    case OnDate => end.date.Some? && end.date != Some(ZERO_TIME)
    case AfterCount => end.count > 0
    case UnknownEnd => false
  }

  /** Validation accepts a rule exactly when its interval is positive, its frequency known, its end complete, and,
      for months and years, some month has a day for its mode. */
  lemma ValidExactly(rule: Rule, anchorDay: int)
    requires anchorDay >= 1
    ensures rule.Valid()
       <==> && rule.interval > 0 && rule.frequency in {Minute, Hour, Day, Week, Month, Year} && Complete(rule.end)
            && (rule.frequency == Month || rule.frequency == Year ==>
                  exists month, d :: 1 <= d <= MonthLength(month) && DayFits(rule, anchorDay, month, d))
  {
    assert forall month :: 28 <= MonthLength(month) <= 31;
    hide DayNumber, MonthLength;
    match rule.mode {
      case UnsetMode | DayOfMonth =>
        assert DayFits(rule, anchorDay, 0, if anchorDay <= MonthLength(0) then anchorDay else MonthLength(0));
      case LastDayOfMonth => assert DayFits(rule, anchorDay, 0, MonthLength(0));
      case NthWeekday =>
        if 0 <= rule.weekday <= 6 && (rule.nth == -1 || 1 <= rule.nth <= 5) {
          var month, d := NthOccurs(rule.weekday, rule.nth);
          assert DayFits(rule, anchorDay, month, d);
        }
      case UnknownMode =>
    }
  }
}
