/** Building a recurrence rule from decoded tool arguments, and merging a partial patch into one. */
module RecurrencePatch {
  import opened Wrappers
  import opened Calendar
  import opened Recurrence
  import opened Schedule

  datatype Error =
    | UnknownWeekday | BadEndDate | EmptyField | MissingFrequency | InvalidRule

  /** A weekday name as given: one that is known, or one that is not. */
  datatype Name = Named(day: int) | UnknownName

  type WeekdayName = n: Name | n.Named? ==> 0 <= n.day <= 6 witness UnknownName

  datatype DateArg = NoDate | Date(t: Instant) | BadDate

  /** Names resolve to their days in order, unless one is unknown. */
  function Weekdays(names: seq<WeekdayName>): Result<seq<int>, Error> {
    if names == [] then Ok([])
    else
      var init := Weekdays(names[..|names| - 1]);
      var last := names[|names| - 1];
      if init.Err? then init
      else if last.UnknownName? then Err(UnknownWeekday)
      else Ok(init.value + [last.day])
  }

  method ParseWeekdayNames(names: seq<WeekdayName>) returns (r: Result<seq<int>, Error>)
    ensures r == Weekdays(names)
  {
    var days: seq<int> := [];
    var i := 0;
    while i < |names|
      invariant 0 <= i <= |names|
      invariant Weekdays(names[..i]) == Ok(days)
    {
      assert names[..i + 1][..i] == names[..i];
      if names[i].UnknownName? {
        UnknownNameFails(names, i);
        return Err(UnknownWeekday);
      }
      days := days + [names[i].day];
      i := i + 1;
    }
    assert names[..i] == names;
    return Ok(days);
  }

  lemma {:induction false} UnknownNameFails(names: seq<WeekdayName>, i: nat)
    requires i < |names| && names[i].UnknownName? && Weekdays(names[..i]).Ok?
    ensures Weekdays(names) == Err(UnknownWeekday)
  {
    var init := names[..|names| - 1];
    if i == |names| - 1 {
      assert names[..i] == init;
    } else {
      assert init[..i] == names[..i];
      UnknownNameFails(init, i);
    }
  }

  /** The names resolve exactly when all are known, each to its own day. */
  lemma {:induction false} WeekdaysMeans(names: seq<WeekdayName>)
    ensures Weekdays(names).Ok? <==> forall i :: 0 <= i < |names| ==> names[i].Named?
    ensures Weekdays(names).Ok? ==>
              && |Weekdays(names).value| == |names|
              && forall i :: 0 <= i < |names| ==> names[i] == Named(Weekdays(names).value[i])
  {
    if names != [] {
      var init := names[..|names| - 1];
      WeekdaysMeans(init);
      assert forall i :: 0 <= i < |init| ==> init[i] == names[i];
    }
  }

  // ---------- A new rule ----------

  /** Arguments of a new rule; an empty name is absent. */
  datatype RuleArgs = RuleArgs(
    interval: int,
    frequency: Option<Frequency>,
    weekdays: seq<WeekdayName>,
    mode: MonthlyMode,
    nth: int,
    weekday: Option<WeekdayName>,
    endKind: EndType,
    endDate: DateArg,
    endCount: int)

  /** No rule at all when the frequency is missing. */
  function NewRule(args: RuleArgs, timezone: Timezone): Result<Option<Rule>, Error> {
    if args.frequency.None? then Ok(None)
    else if Weekdays(args.weekdays).Err? then Err(Weekdays(args.weekdays).error)
    else if args.weekday.Some? && args.weekday.value.UnknownName? then Err(UnknownWeekday)
    else if args.endKind == OnDate && !args.endDate.Date? then Err(BadEndDate)
    else
      var end := match args.endKind
                 case UnsetEnd => End(Never, None, 0)
                 case OnDate => End(OnDate, Some(args.endDate.t), 0)
                 case AfterCount => End(AfterCount, None, args.endCount)
                 case kind => End(kind, None, 0);
      var rule := Rule(if args.interval < 1 then 1 else args.interval, args.frequency.value,
                       Weekdays(args.weekdays).value, args.mode, args.nth,
                       if args.weekday.Some? then args.weekday.value.day else 0, end, timezone);
      if rule.Valid() then Ok(Some(rule)) else Err(InvalidRule)
  }

  method ParseRecurrenceRule(args: RuleArgs, timezone: Timezone) returns (r: Result<Option<Rule>, Error>)
    ensures r == NewRule(args, timezone)
  {
    if args.frequency.None? {
      return Ok(None);
    }
    var rule := Rule(args.interval, args.frequency.value, [], args.mode, args.nth, 0, End(UnsetEnd, None, 0), timezone);
    if rule.interval < 1 {
      rule := rule.(interval := 1);
    }
    var days := ParseWeekdayNames(args.weekdays);
    if days.Err? {
      return Err(days.error);
    }
    rule := rule.(weekdays := days.value);
    if args.weekday.Some? {
      if args.weekday.value.UnknownName? {
        return Err(UnknownWeekday);
      }
      rule := rule.(weekday := args.weekday.value.day);
    }
    rule := rule.(end := rule.end.(kind := if args.endKind == UnsetEnd then Never else args.endKind));
    if rule.end.kind == OnDate {
      if !args.endDate.Date? {
        return Err(BadEndDate);
      }
      rule := rule.(end := rule.end.(date := Some(args.endDate.t)));
    } else if rule.end.kind == AfterCount {
      rule := rule.(end := rule.end.(count := args.endCount));
    }
    if !rule.Valid() {
      return Err(InvalidRule);
    }
    return Ok(Some(rule));
  }

  // ---------- A patch ----------

  /** The fields of the end that a patch mentions. */
  datatype EndPatch = EndPatch(kind: Option<EndType>, date: Option<DateArg>, count: Option<int>)

  /** The fields of a rule that a patch mentions, and whether it mentions any others. An empty frequency
      or mode is unset; a weekday that is empty or not known is unknown. */
  datatype Patch = NullPatch | Patch(
    interval: Option<int>,
    frequency: Option<Frequency>,
    weekdays: Option<seq<WeekdayName>>,
    mode: Option<MonthlyMode>,
    nth: Option<int>,
    weekday: Option<WeekdayName>,
    end: Option<EndPatch>,
    others: bool)

  predicate Mentions(p: Patch) {
    p.Patch? && (p.others || p.interval.Some? || p.frequency.Some? || p.weekdays.Some? || p.mode.Some? || p.nth.Some?
                 || p.weekday.Some? || p.end.Some?)
  }

  function MergedEnd(end: End, p: EndPatch): Result<End, Error> {
    if p.kind == Some(UnsetEnd) then Err(EmptyField)
    else if p.date == Some(BadDate) then Err(BadEndDate)
    else
      var kind := if p.kind.Some? then p.kind.value else end.kind;
      var cleared := p.kind == Some(Never);
      var date := match p.date
                  case None => if cleared then None else end.date
                  case Some(Date(t)) => Some(t)
                  case Some(_) => None;
      var count := if p.count.Some? then p.count.value else if cleared then 0 else end.count;
      Ok(End(kind, date, count))
  }

  method MergeRecurrenceEnd(current: End, p: EndPatch) returns (r: Result<End, Error>)
    ensures r == MergedEnd(current, p)
  {
    var end := current;
    if p.kind.Some? {
      if p.kind.value == UnsetEnd {
        return Err(EmptyField);
      }
      end := end.(kind := p.kind.value);
      if end.kind == Never {
        end := end.(date := None);
        end := end.(count := 0);
      }
    }
    if p.date.Some? {
      match p.date.value {
        case NoDate => end := end.(date := None);
        case BadDate => return Err(BadEndDate);
        case Date(t) => end := end.(date := Some(t));
      }
    }
    if p.count.Some? {
      end := end.(count := p.count.value);
    }
    return Ok(end);
  }

  function BaseRule(existing: Option<Rule>, timezone: Timezone): Rule {
    var rule := if existing.Some? then existing.value
                else Rule(1, UnsetFrequency, [], UnsetMode, 0, 0, End(Never, None, 0), timezone);
    if rule.timezone == UnsetZone then rule.(timezone := timezone) else rule
  }

  /** The rule with a patch's fields, other than the end, in place of its own. */
  function PatchedFields(base: Rule, p: Patch): Result<Rule, Error>
    requires p.Patch?
  {
    var days := if p.weekdays.Some? then Weekdays(p.weekdays.value) else Ok(base.weekdays);
    if p.frequency == Some(UnsetFrequency) then Err(EmptyField)
    else if days.Err? then Err(days.error)
    else if p.mode == Some(UnsetMode) then Err(EmptyField)
    else if p.weekday == Some(UnknownName) then Err(UnknownWeekday)
    else Ok(Rule(if p.interval.Some? then p.interval.value else base.interval,
                 if p.frequency.Some? then p.frequency.value else base.frequency,
                 days.value,
                 if p.mode.Some? then p.mode.value else base.mode,
                 if p.nth.Some? then p.nth.value else base.nth,
                 if p.weekday.Some? then p.weekday.value.day else base.weekday,
                 base.end,
                 base.timezone))
  }

  /** The last checks on a merged rule. */
  function Checked(rule: Rule): Result<Option<Rule>, Error> {
    var normal := if rule.interval < 1 then rule.(interval := 1) else rule;
    if rule.frequency == UnsetFrequency then Err(MissingFrequency)
    else if normal.Valid() then Ok(Some(normal))
    else Err(InvalidRule)
  }

  /** The existing rule with a patch's fields in place of its own. */
  function Merged(existing: Option<Rule>, p: Patch, timezone: Timezone): Result<Option<Rule>, Error> {
    if !Mentions(p) then Ok(existing)
    else
      var fields := PatchedFields(BaseRule(existing, timezone), p);
      if fields.Err? then Err(fields.error)
      else
        var end := if p.end.Some? then MergedEnd(fields.value.end, p.end.value) else Ok(fields.value.end);
        if end.Err? then Err(end.error) else Checked(fields.value.(end := end.value))
  }

  method MergeFields(base: Rule, p: Patch) returns (r: Result<Rule, Error>)
    requires p.Patch?
    ensures r == PatchedFields(base, p)
  {
    hide Weekdays;
    var rule := base;
    if p.interval.Some? {
      rule := rule.(interval := p.interval.value);
    }
    if p.frequency.Some? {
      if p.frequency.value == UnsetFrequency {
        return Err(EmptyField);
      }
      rule := rule.(frequency := p.frequency.value);
    }
    if p.weekdays.Some? {
      var days := ParseWeekdayNames(p.weekdays.value);
      if days.Err? {
        return Err(days.error);
      }
      rule := rule.(weekdays := days.value);
    }
    if p.mode.Some? {
      if p.mode.value == UnsetMode {
        return Err(EmptyField);
      }
      rule := rule.(mode := p.mode.value);
    }
    if p.nth.Some? {
      rule := rule.(nth := p.nth.value);
    }
    if p.weekday.Some? {
      if p.weekday.value.UnknownName? {
        return Err(UnknownWeekday);
      }
      rule := rule.(weekday := p.weekday.value.day);
    }
    return Ok(rule);
  }

  method MergeRecurrenceRule(existing: Option<Rule>, p: Patch, timezone: Timezone)
    returns (r: Result<Option<Rule>, Error>)
    ensures r == Merged(existing, p, timezone)
  {
    hide PatchedFields, MergedEnd, Rule.Valid;
    if !Mentions(p) {
      return Ok(existing);
    }
    var rule := Rule(1, UnsetFrequency, [], UnsetMode, 0, 0, End(Never, None, 0), timezone);
    if existing.Some? {
      rule := existing.value;
    }
    if rule.timezone == UnsetZone {
      rule := rule.(timezone := timezone);
    }
    var fields := MergeFields(rule, p);
    if fields.Err? {
      return Err(fields.error);
    }
    rule := fields.value;
    if p.end.Some? {
      var end := MergeRecurrenceEnd(rule.end, p.end.value);
      if end.Err? {
        return Err(end.error);
      }
      rule := rule.(end := end.value);
    }
    if rule.frequency == UnsetFrequency {
      return Err(MissingFrequency);
    }
    if rule.interval < 1 {
      rule := rule.(interval := 1);
    }
    if !rule.Valid() {
      return Err(InvalidRule);
    }
    return Ok(Some(rule));
  }

  /** Applying a patch again changes nothing. */
  lemma MergeIsIdempotent(existing: Option<Rule>, p: Patch, timezone: Timezone)
    requires Merged(existing, p, timezone).Ok?
    ensures Merged(Merged(existing, p, timezone).value, p, timezone) == Merged(existing, p, timezone)
  {
    hide PatchedFields, MergedEnd, Rule.Valid;
    if Mentions(p) {
      var base := BaseRule(existing, timezone);
      var fields := PatchedFields(base, p).value;
      var end := if p.end.Some? then MergedEnd(fields.end, p.end.value).value else fields.end;
      var merged := Merged(existing, p, timezone).value.value;
      FieldsMergeIsIdempotent(base, p, end, merged.interval);
      assert merged == fields.(end := end, interval := merged.interval);
      assert BaseRule(Some(merged), timezone) == merged;
      if p.end.Some? {
        EndMergeIsIdempotent(fields.end, p.end.value);
      }
    }
  }

  /** Patching the fields again changes nothing but the interval, and that no more than at first. */
  lemma FieldsMergeIsIdempotent(base: Rule, p: Patch, end: End, interval: int)
    requires p.Patch? && PatchedFields(base, p).Ok?
    ensures var fields := PatchedFields(base, p).value;
            var again := PatchedFields(fields.(end := end, interval := interval), p);
            again == Ok(fields.(end := end, interval := if p.interval.Some? then p.interval.value else interval))
    ensures PatchedFields(base, p).value.end == base.end && PatchedFields(base, p).value.timezone == base.timezone
    ensures p.interval.Some? ==> PatchedFields(base, p).value.interval == p.interval.value
  {
    hide Weekdays;
  }

  lemma EndMergeIsIdempotent(end: End, p: EndPatch)
    requires MergedEnd(end, p).Ok?
    ensures MergedEnd(MergedEnd(end, p).value, p) == MergedEnd(end, p)
  {}

  /** A rule that is valid and names real weekdays only. */
  predicate Proper(rule: Rule) {
    rule.Valid() && RealWeekdays(rule.weekdays)
  }

  lemma WeekdaysAreReal(names: seq<WeekdayName>)
    requires Weekdays(names).Ok?
    ensures RealWeekdays(Weekdays(names).value)
  {
    WeekdaysMeans(names);
    var days := Weekdays(names).value;
    forall w | w in days
      ensures 0 <= w <= 6
    {
      var i :| 0 <= i < |days| && days[i] == w;
      var n: WeekdayName := names[i];
    }
  }

  /** Every rule built from arguments is proper. */
  lemma NewRuleIsProper(args: RuleArgs, timezone: Timezone)
    requires NewRule(args, timezone).Ok? && NewRule(args, timezone).value.Some?
    ensures Proper(NewRule(args, timezone).value.value)
  {
    WeekdaysAreReal(args.weekdays);
  }

  /** Every patch of no rule or of a proper one yields a proper one, if it yields one at all. */
  lemma MergedIsProper(existing: Option<Rule>, p: Patch, timezone: Timezone)
    requires existing.Some? ==> Proper(existing.value)
    requires Merged(existing, p, timezone).Ok? && Merged(existing, p, timezone).value.Some?
    ensures Proper(Merged(existing, p, timezone).value.value)
  {
    hide Rule.Valid, MergedEnd;
    if Mentions(p) && p.weekdays.Some? {
      WeekdaysAreReal(p.weekdays.value);
    }
  }
}
