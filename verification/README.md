# assistantbot-core in Dafny

A model of the stateful core of `lib/assistantbot-core` and proofs about it. `dafny verify dfyconfig.toml`
checks the whole project.

- **Recurrence** (`Calendar`, `Recurrence`, `Schedule`, `ScheduleInstants`, `Series`, `CalendarRange`):
  reminder rules and the search for the next due instant. Instants are integers, nanoseconds since the start
  of year 1, so that the zero time is 0. `Schedule` declares what is scheduled, without any search, and
  `ScheduleInstants` says it of an instant alone, by its clock, its local day and its date; the search loops
  are proved to find the least scheduled instant, and the exact conditions are given where they do not.
- **Reminders** (`RecurrencePatch`, `RulePatches`, `Reminders`, `ReminderRows`, `Delivery`, `DeliveryEnds`,
  `DueQuery`, `DeliveryLimits`, `TimeText`, `TimeParse`, `Text`): the tools that set, update and cancel
  reminders, the table they share, the query for due ones and the delivery pass, and timestamps stored as
  text (sections 5.1 and 5.6 of RFC 3339), their order and how they are read back. `RulePatches` and
  `ReminderRows` say of each tool when it succeeds and what it then leaves in each field; the results of the
  others are about whole histories.
- **Messages** (`Messages`): the rolling window of messages per chat with its vector index.
- **Message processing** (`Contexts`, `Processor`, `Protocol`, `ProtocolHistory`, `ProtocolUpdates`,
  `ProtocolRuns`, `ProtocolReleases`, `ProtocolAttempts`, `ProtocolMemory`, `ProtocolMap`, `ProtocolCauses`,
  `ProtocolProgress`, `ProtocolLimits`): runs that compute and send a reply, the background jobs they leave
  behind, and edits, deletions and duplicate starts that race with both, as a step machine. `Processor` has
  each critical section twice: as a method that runs the source's statements, and as the transition that the
  method is proved to be and the machine takes.
- **Lanes** (`Lanes`, `LaneResults`): the first-in first-out workers for memory tasks, as a step machine.
- **Tools** (`ToolLoop`, `ToolRegistry`): the tool-calling conversation against an arbitrary model and an
  arbitrary executor, and the registry of tool servers against arbitrary servers.

In each state machine an event is one critical section, one operation on a map or channel, one check of a
context, or the outcome of one call to the outside; every order of events is covered. Fields and
parameters described as history record what happened and decide nothing.

## Where the code does less than it says

The comment at `lib/assistantbot-core/reminders/recurrence.go:68-69` promises the first scheduled instant
after `after`, or that the series has ended. The model follows the code, which differs:

- A minute or hour rule goes wrong once its step, or the distance from the anchor to the answer, exceeds 64
  bits of nanoseconds (`Schedule.FixedIntervalExact`). Validation puts no upper bound on the interval, so
  that a valid rule can be one that is never due (`Schedule.OverflowingStepIsNeverDue`).
- The daily search gives up after 100000 candidates, the monthly after 1200 and the yearly after 500, and
  then reports a series that goes on as ended (`Schedule.DailyIsFirst`, `Schedule.MonthlyIsFirst`, which say
  exactly when). Their arithmetic leaves 64 bits for intervals that validation accepts
  (`CalendarRange.DailyFitsExactly`, `CalendarRange.MonthsFitExactly`), but not for any up to half a billion
  (`CalendarRange.SafeIntervalFits`).
- A weekly rule whose scheduled days lie 1098 days or more apart is reported as ended
  (`Schedule.WeeklyExact`), and can come back later (`Series.EndedWeeklyExact`). With one weekday, or none
  given, that begins at an interval of 157.
- Farther than 15250 weeks from the anchor, weekly distances saturate, and every rule with an interval above
  one goes wrong (`Schedule.WeeklyExactForever`).
- Stored timestamps drop trailing zeros, so that text order and time order differ within a second
  (`TimeText.TextOrderExact`). A due reminder can be listed late, and a reminder can be sent, found due
  again and sent a second time at one moment (`DueQuery.SentIsListedAgain`).
- Timestamps after year 9999 are written with more digits, can compare as past, and cannot be read back. One
  pending reminder of any chat that compares so makes the query for due reminders fail, so that none is
  sent (`DueQuery.FarFutureStopsDelivery`). Such a reminder can be set directly
  (`DueQuery.OneReminderStopsAll`), or arise from a delivery that moves a row there.
- A cancellation that arrives while a pass is sending is undone unless the pass has written its row already
  (`Delivery.CancelSurvivesExactly`).
- A passed deadline does not count as a cancellation and hides a later one
  (`ProtocolLimits.DeadlineHidesDuplicate`; `Protocol.SendIsCurrent` says what that can lead to).
- A run that was replaced can still cancel the reply of the run that replaced it
  (`ProtocolLimits.StaleRunSilencesReply`). While the newer run is live and its message is neither edited nor
  deleted, nothing but another reply context for the same message can (`ProtocolAttempts.SilencedExactly`).
- A run's release interrupts the memory update that the run itself left behind, which then gives up
  (`ProtocolLimits.OwnReleaseStopsMemory`, and exactly when: `ProtocolMemory.InterruptedExactly`).
- A run begun between another's release and the removal of its state from the map is not reached by edits
  and deletions (`ProtocolLimits.OrphanedRunMissesDelete`, and exactly when: `ProtocolMap.ReachedExactly`).
- A failed tool server takes away another server's tools when their names run into its id
  (`ToolRegistry.FailureRestoresExactly`), and a later one that connects can take the calls of another's tool
  (`ToolRegistry.NamesakeTakesCalls`, and exactly when: `ToolRegistry.RoutedExactly`).

## Model

| member | source | states |
|---|---|---|
| `Series.FedListsTheSchedule` | lib/assistantbot-core/reminders/recurrence.go:70-90 | Feeding each result back as the next `after`, with one more delivery counted, lists the declared schedule from the start on: strictly in order, every scheduled instant up to the last result, and nothing else |
| `Series.LatePassesSkip` | lib/assistantbot-core/memory/pipeline.go:313-325 | Passes that feed their own time, however late, list the schedule strictly in order and skip exactly what was scheduled between an instant and the pass that served it |
| `Series.NextDueIsFirst` | lib/assistantbot-core/reminders/recurrence.go:68-90 | In the range of 64-bit durations a result is scheduled, lies strictly after `after`, and no scheduled instant lies between |
| `Series.EndsExactly` | lib/assistantbot-core/reminders/recurrence.go:70-90 | A valid rule's series has ended if and only if it was delivered as often as its count allows, or the search finds nothing or only an instant on a later local day than its end date; otherwise the next instant is what the search finds |
| `Series.NextDueIsMonotone` | lib/assistantbot-core/reminders/recurrence.go:68-90 | A later `after` never yields an earlier instant, whatever the counts are |
| `Series.EndedStaysEnded` | lib/assistantbot-core/reminders/recurrence.go:70-90 | A series that has ended has ended for every later `after` and larger count (weekly intervals up to 156 over real weekdays) |
| `Series.EndedWeeklyExact` | lib/assistantbot-core/reminders/recurrence.go:143-172 | A weekly rule, with weekdays or without, ends for good if and only if its longest gap is below 1098 days; otherwise the search finds nothing on some input in range and later finds an instant |
| `Series.EndedAnchorWeekdayExact` | lib/assistantbot-core/reminders/recurrence.go:147-171 | Without weekdays, on the anchor's own day, a weekly rule ends for good if and only if the interval is at most 156 |
| `Series.ExhaustedStaysExhausted` | lib/assistantbot-core/reminders/recurrence.go:92-109 | Once the search finds nothing it finds nothing for a later `after`, for all six frequencies |
| `Series.SearchableWeekSucceeds` | lib/assistantbot-core/reminders/recurrence.go:143-172 | A weekly rule with an interval up to 156 and real weekdays always has a next instant |
| `Series.EndsOnDate` | lib/assistantbot-core/reminders/recurrence.go:81-87 | A series that ends on a date has ended if and only if the search finds nothing or every scheduled instant left falls on a later local day than that date |
| `Series.ComputeNextIsFirst` | lib/assistantbot-core/reminders/recurrence.go:92-109 | For each frequency a result of the search is the least scheduled instant strictly after `after` |
| `Schedule.FixedIntervalExact` | lib/assistantbot-core/reminders/recurrence.go:111-126 | The minute and hour search yields the least anchor plus k steps after `after` if and only if the step and the distance to that answer fit in 64 bits (for an anchor still ahead: if the wrapped step is positive) |
| `Schedule.FixedStepExact` | lib/assistantbot-core/reminders/recurrence.go:119-125 | With a step that fits, the answer is right exactly when the distance to it fits in 64 bits |
| `Schedule.OverflowingStepIsNeverDue` | lib/assistantbot-core/reminders/recurrence.go:111-115 | The valid rule every 153722868 minutes is never due, for any anchor, not even at an anchor still ahead |
| `Schedule.FixedFirstClosedForm` | lib/assistantbot-core/reminders/recurrence.go:116-121 | The least anchor plus k steps after `after` has a closed form, unique in both directions |
| `Schedule.WrappedStepFallsShort` | lib/assistantbot-core/reminders/recurrence.go:112-121 | A step that overflowed to a positive number yields an instant nearer than one true step |
| `Schedule.CorrectionNeverFires` | lib/assistantbot-core/reminders/recurrence.go:122-124 | Where the durations fit, the computed instant already lies after `after`, so the correction does nothing |
| `Schedule.DailyIsFirst` | lib/assistantbot-core/reminders/recurrence.go:128-141 | The daily search succeeds exactly when candidate 99999 lies after `after`, and then yields the first scheduled instant |
| `Schedule.DailyIncreases` | lib/assistantbot-core/reminders/recurrence.go:133-135 | Daily candidates strictly increase |
| `Schedule.WeeklyIsFirst` | lib/assistantbot-core/reminders/recurrence.go:143-172 | Within range (15250 weeks from the anchor), a weekly result is the first scheduled instant, and there is one if and only if some scheduled instant after `after` lies within the 1098 local days scanned |
| `Schedule.WeeklyExact` | lib/assistantbot-core/reminders/recurrence.go:143-172 | Within range the weekly search is right for every anchor and `after` if and only if the longest gap between the rule's scheduled days is below 1098 days; an empty weekday list stands for the anchor's day |
| `Schedule.AnchorWeekdayExact` | lib/assistantbot-core/reminders/recurrence.go:147-171 | Without weekdays the search is right for every anchor and `after` within range if and only if the interval is at most 156 |
| `Schedule.WeeklyGap` | lib/assistantbot-core/reminders/recurrence.go:156-170 | A scheduled day after `after` always lies within the longest gap, computed from the interval and the first and last weekday |
| `Schedule.WeeklySucceeds` | lib/assistantbot-core/reminders/recurrence.go:143-172 | With a longest gap below 1098 days the search succeeds and is right |
| `Schedule.WeeklyFails` | lib/assistantbot-core/reminders/recurrence.go:156-171 | With a longest gap of 1098 days or more, with weekdays or without, there is an input in range that the search fails on although the schedule goes on |
| `Schedule.WeeklySaturated` | lib/assistantbot-core/reminders/recurrence.go:165-168 | For every interval above one, with weekdays or without, there is an input, 15251 weeks from the anchor, on which the weekly search is wrong |
| `Schedule.WeeklyExactForever` | lib/assistantbot-core/reminders/recurrence.go:143-172 | Without a bound on the distance from the anchor the weekly search is right on every input if and only if the interval is one |
| `Schedule.WeekStartIsMonday` | lib/assistantbot-core/reminders/recurrence.go:287-293 | The start of a day's week is midnight of the Monday on or before it |
| `Schedule.WeeksBetweenSaturates` | lib/assistantbot-core/reminders/recurrence.go:295-301 | The distance between two weeks is exact up to 15250 weeks and reads 15250 beyond |
| `Schedule.WeeklyHitIsOnWeek` | lib/assistantbot-core/reminders/recurrence.go:158-168 | Up to 15250 weeks from the anchor the search's tests on a day are those of the declared schedule |
| `Schedule.MonthlyIsFirst` | lib/assistantbot-core/reminders/recurrence.go:174-210 | A monthly or yearly result is the first scheduled instant in all three modes; the search fails exactly when every occurrence among the first 1200 months or 500 years has passed |
| `Schedule.CandidateIsOnMonth` | lib/assistantbot-core/reminders/recurrence.go:212-246 | Candidate k of the search is the declared day of that month: the anchor's day or the last of a shorter month, with no drift; the last day; the nth or last weekday; and is absent exactly when that day does not exist |
| `Schedule.CalendarInstantOccurs` | lib/assistantbot-core/reminders/recurrence.go:228-246 | The instant computed for a month is the occurrence the mode declares, if there is one, and otherwise absent |
| `Schedule.MonthsComeInOrder` | lib/assistantbot-core/reminders/recurrence.go:181-189 | Occurrences of later months are later instants |
| `Schedule.MonthSearchIncreases` | lib/assistantbot-core/reminders/recurrence.go:181-208 | Monthly and yearly candidates strictly increase, skipping absent ones |
| `Schedule.AddMonthsAddsToIndex` | lib/assistantbot-core/reminders/recurrence.go:280-285 | Adding months adds to the month index, also across year zero |
| `Schedule.YearIsTwelveMonths` | lib/assistantbot-core/reminders/recurrence.go:220-226 | The candidate of a year is the monthly candidate twelve months per year on |
| `Schedule.FirstIsLeast` | lib/assistantbot-core/reminders/recurrence.go:181-190 | Over increasing candidates the first hit is the least one after `after`, and a failed search has passed them all up to its limit |
| `Schedule.FirstFinds` | lib/assistantbot-core/reminders/recurrence.go:181-190 | A bounded search returns a candidate after `after` that no earlier index has, or none when no index below the limit has one |
| `ScheduleInstants.FixedMeans` | lib/assistantbot-core/reminders/recurrence.go:111-126 | A minute or hour rule schedules exactly the instants from the anchor on that are a multiple of interval times 60 or 3600 seconds away |
| `ScheduleInstants.DailyMeans` | lib/assistantbot-core/reminders/recurrence.go:128-141 | A daily rule schedules an instant if and only if it is a whole second, has the anchor's clock in the rule's zone, and lies a non-negative multiple of the interval of local days from the anchor's |
| `ScheduleInstants.WeeklyMeans` | lib/assistantbot-core/reminders/recurrence.go:143-172 | A weekly rule schedules an instant if and only if it is a whole second, has the anchor's clock, falls on one of the weekdays (or the anchor's own), and its week, from Monday, is a multiple of the interval from the anchor's |
| `ScheduleInstants.MonthlyMeans` | lib/assistantbot-core/reminders/recurrence.go:174-274 | A monthly or yearly rule schedules an instant if and only if it is a whole second, has the anchor's clock, and its date lies in one of every so many months from the anchor's on, on the day the mode names: the anchor's day or the last of a shorter month, the last, the nth of its weekday counted by weeks, or one with no other after it |
| `CalendarRange.DailyFitsExactly` | lib/assistantbot-core/reminders/recurrence.go:133-135 | Every product and every second count of a daily search fits in 64 bits if and only if the second count of its last candidate does |
| `CalendarRange.MonthsFitExactly` | lib/assistantbot-core/reminders/recurrence.go:181-226 | Every product of a monthly or yearly search, and the second counts of all its months, fit in 64 bits if and only if those of its first and last month do |
| `CalendarRange.OccurrencesFit` | lib/assistantbot-core/reminders/recurrence.go:228-246 | The occurrences of months that fit do fit |
| `CalendarRange.SafeIntervalFits` | lib/assistantbot-core/reminders/recurrence.go:128-226 | With an interval up to 500000000, all three searches from an anchor in the years 1 to 9999 fit |
| `Recurrence.ComputeNextDue` | lib/assistantbot-core/reminders/recurrence.go:70-109 | The dispatch over frequencies and the end conditions compute the specified next instant (`Series.EndsExactly` and `ScheduleInstants` say which) |
| `Recurrence.NextDaily` | lib/assistantbot-core/reminders/recurrence.go:128-141 | The loop yields the first of 100000 daily candidates after `after` (`ScheduleInstants.DailyMeans` says which they are) |
| `Recurrence.NextWeekly` | lib/assistantbot-core/reminders/recurrence.go:143-172 | The loop yields the first of 1098 days that passes the weekday, time and week tests |
| `Recurrence.NextMonthly` | lib/assistantbot-core/reminders/recurrence.go:174-191 | The loop yields the first of 1200 monthly candidates that exists and lies after `after` |
| `Recurrence.NextYearly` | lib/assistantbot-core/reminders/recurrence.go:193-210 | The loop yields the first of 500 yearly candidates that exists and lies after `after` |
| `Recurrence.NthWeekdayInMonth` | lib/assistantbot-core/reminders/recurrence.go:248-274 | Both scans yield the day of a closed form in the weekday of the first or the last of the month, or the zero time |
| `Recurrence.CountWeekdayClosedForm` | lib/assistantbot-core/reminders/recurrence.go:262-272 | The number of a weekday among the first d days of a month, counted one by one, has a closed form |
| `Recurrence.NthWeekdayDayMeans` | lib/assistantbot-core/reminders/recurrence.go:259-273 | The closed form names day d if and only if d is in the month, falls on the weekday, and is the nth such day |
| `Recurrence.NthWeekdayDayMissing` | lib/assistantbot-core/reminders/recurrence.go:262-273 | The closed form names no day if and only if the month has fewer than n of the weekday |
| `Recurrence.LastWeekdayDay` | lib/assistantbot-core/reminders/recurrence.go:249-258 | With -1 it names day d if and only if d falls on the weekday and no later day of the month does |
| `Recurrence.EveryWeekdayOccurs` | lib/assistantbot-core/reminders/recurrence.go:249-258 | Every real weekday occurs in every month, so the last one exists exactly for real weekdays |
| `Recurrence.LastIsFourthOrFifth` | lib/assistantbot-core/reminders/recurrence.go:248-274 | The first four of a weekday always exist, and the last one is the greatest nth that exists |
| `Recurrence.LastDayIsMonthLength` | lib/assistantbot-core/reminders/recurrence.go:276-278 | Day 0 of the next month, read back as a date, is the Gregorian length of the month |
| `Calendar.CivilRoundTrip` | lib/assistantbot-core/reminders/recurrence.go:212-226 | A valid date survives the way through its day number |
| `Calendar.CivilOfIsValid` | lib/assistantbot-core/reminders/recurrence.go:212-226 | Every day number reads as a valid date of that very day |
| `Calendar.LocalOfAt` | lib/assistantbot-core/reminders/recurrence.go:130-135 | A local day and clock time at a fixed offset are read back unchanged from the instant they name |
| `TimeText.TextOrderExact` | lib/assistantbot-core/storage/store.go:986-998 | For all timestamps: within one year (in UTC) texts compare in the order of time, except exactly when both lie in one second and the earlier fraction is a proper prefix of the later one; then the order is reversed. Across years the order is that of the years as written |
| `TimeText.FormatOrder` | lib/assistantbot-core/storage/store.go:986-998 | Text of any two timestamps compares by the year as written, then by whole seconds, then by the fraction as text |
| `TimeText.YearOrder` | lib/assistantbot-core/storage/store.go:934-966 | Two years followed by a dash compare digit by digit: the wider one is cut to the other's width, and a negative one comes before the others |
| `TimeText.YearBeforeMeans` | lib/assistantbot-core/storage/store.go:986-998 | Against a year of four digits a year up to 9999 is written in order, and a later one is written before it if and only if its first four digits are a smaller number |
| `TimeText.StripDropsTrailingZeros` | lib/assistantbot-core/storage/store.go:979-984 | Stripping a fraction drops trailing zeros and nothing else, and leaves none |
| `TimeParse.WrittenIsRead` | lib/assistantbot-core/storage/store.go:1207-1232 | What is written of an instant is read back as that instant if and only if its year in UTC has four digits; otherwise reading fails |
| `TimeText.FractionOrder` | lib/assistantbot-core/storage/store.go:986-998 | Fractions without trailing zeros compare by value unless one is a proper prefix of the other |
| `TimeText.WholeSecondReadsLate` | lib/assistantbot-core/storage/store.go:986-998 | A timestamp on a whole second compares greater than every later one in its second |
| `RecurrencePatch.MergeIsIdempotent` | lib/assistantbot-core/memory/reminder_recurrence.go:85-192 | Applying the same patch twice gives what applying it once gives |
| `RecurrencePatch.EndMergeIsIdempotent` | lib/assistantbot-core/memory/reminder_recurrence.go:194-241 | So does applying the same patch of the end twice |
| `RecurrencePatch.NewRuleIsProper` | lib/assistantbot-core/memory/reminder_recurrence.go:27-83 | A rule built from arguments passes validation and names real weekdays |
| `RecurrencePatch.MergedIsProper` | lib/assistantbot-core/memory/reminder_recurrence.go:85-192 | A patch of no rule, or of a proper one, yields a proper rule or an error |
| `RulePatches.NewRuleExactly` | lib/assistantbot-core/memory/reminder_recurrence.go:27-83 | Arguments yield a rule if and only if the rule with these fields is valid, each field being the argument's: interval at least one, weekdays as named, nth, weekday, mode, end and zone; and none if and only if the frequency is missing |
| `RulePatches.MergedExactly` | lib/assistantbot-core/memory/reminder_recurrence.go:85-192 | A patch yields a rule if and only if it is the valid one that has each field the patch mentions from the patch and every other from the present rule (or from the defaults); a patch that mentions nothing leaves the rule |
| `RulePatches.EndPatchedExactly` | lib/assistantbot-core/memory/reminder_recurrence.go:194-241 | A patched end has what the patch gives, and otherwise its own, except that an end of type never keeps no date and no count |
| `RulePatches.ValidExactly` | lib/assistantbot-core/reminders/recurrence.go:334-376 | Validation accepts a rule if and only if its interval is positive, its frequency known, its end complete, and, for months and years, some month has a day for its mode |
| `RecurrencePatch.WeekdaysMeans` | lib/assistantbot-core/memory/reminder_recurrence.go:243-253 | A list of names parses to the days of its names in order if and only if all are known |
| `RecurrencePatch.UnknownNameFails` | lib/assistantbot-core/memory/reminder_recurrence.go:243-253 | One unknown name anywhere fails the list |
| `RecurrencePatch.ParseWeekdayNames` | lib/assistantbot-core/memory/reminder_recurrence.go:243-253 | The loop computes that list or its error |
| `RecurrencePatch.ParseRecurrenceRule` | lib/assistantbot-core/memory/reminder_recurrence.go:27-83 | The step by step construction computes the specified rule, none, or the first error |
| `RecurrencePatch.MergeRecurrenceRule` | lib/assistantbot-core/memory/reminder_recurrence.go:85-192 | The field by field update computes the specified merge, in the source's order of errors; a patch that mentions no known field still completes and validates the rule |
| `RecurrencePatch.MergeFields` | lib/assistantbot-core/memory/reminder_recurrence.go:111-172 | Each field a patch mentions replaces the rule's own, and no other does |
| `RecurrencePatch.MergeRecurrenceEnd` | lib/assistantbot-core/memory/reminder_recurrence.go:194-241 | An end of type never clears date and count before the patch's own date and count apply |
| `Text.TrimMeans` | lib/assistantbot-core/memory/tools.go:266-291 | Trimming removes all white space at both ends and nothing else |
| `Reminders.ReminderStore.Set` | lib/assistantbot-core/memory/tools.go:243-298 | A reminder is written pending with count zero, or the first error is returned and nothing changes |
| `Reminders.ReminderStore.Update` | lib/assistantbot-core/memory/reminder_update.go:37-148 | The tool's statements compute the specified update, which `ReminderRows.UpdateExactly` characterises field by field; a row that cannot be read back is an error, and an error changes nothing |
| `Reminders.ReminderStore.Edit` | lib/assistantbot-core/memory/reminder_update.go:79-100 | Text, prompt, mode and rule are replaced where given |
| `Reminders.ReminderStore.Move` | lib/assistantbot-core/memory/reminder_update.go:102-128 | The new anchor comes from the due time, else the clock time, else the weekdays (`ReminderRows.MovedMeans` says which instant it is); weekdays also replace those of a weekly rule |
| `Reminders.ReminderStore.Cancel` | lib/assistantbot-core/storage/store.go:1029-1042 | Only a pending row of the chat is cancelled; otherwise it is not found |
| `Reminders.ReminderStore.UpsertReminder` | lib/assistantbot-core/storage/store.go:934-966 | A conflict keeps the row's chat, and text mode drops the prompt |
| `Reminders.ReminderStore.AdvanceReminder` | lib/assistantbot-core/storage/store.go:1044-1053 | A next date sets due time, count and pending whatever the status was; none sets delivered alone |
| `Reminders.ReminderStore.Send` | lib/assistantbot-core/memory/pipeline.go:304-327 | A sent one-shot row is delivered; a recurring one gets its next due time and count, or is delivered when the series has ended |
| `Reminders.ReminderStore.DeliverDueReminders` | lib/assistantbot-core/memory/pipeline.go:293-330 | Exactly the rows whose text is made are sent and moved on, once each and in order, up to the first failure to send, which is reported |
| `Reminders.NextWeekdayWithClock` | lib/assistantbot-core/memory/reminder_update.go:215-232 | The loop yields the first of 370 days on one of the weekdays that is not before `from` |
| `Reminders.NextWeekdayIsFirst` | lib/assistantbot-core/memory/reminder_update.go:215-232 | With a real weekday it always succeeds, and no such day and time from `from` on is earlier |
| `ReminderRows.SetExactly` | lib/assistantbot-core/memory/tools.go:243-283 | A reminder is set if and only if its due time can be read, its rule (if any) is valid, its mode is known, and there is a text to say or a prompt to act on |
| `ReminderRows.SetMeans` | lib/assistantbot-core/memory/tools.go:262-298 | The new row has the chat, text, mode, prompt and rule given, is due at and anchored at the time given, pending, and never sent |
| `ReminderRows.UpdatedExactly` | lib/assistantbot-core/memory/reminder_update.go:66-148 | An update yields a row if and only if it is the one that has text, prompt, mode and rule as given or as before, something to say or do, an anchor as asked for, and a due time at that anchor or, if it recurs, at the next instant not before now |
| `ReminderRows.MovedMeans` | lib/assistantbot-core/memory/reminder_update.go:102-128 | The anchor asked for: the due time given; or the old anchor's local day at the clock given; or the first instant from now on, on a named weekday at the old anchor's clock; or the old anchor. The update finds it if and only if there is one |
| `ReminderRows.UpdateExactly` | lib/assistantbot-core/memory/reminder_update.go:37-148 | The tool succeeds if and only if something is given, the reminder is a readable pending one of the chat, and there is such a row; then that row is written and no other changes |
| `ReminderRows.CancelExactly` | lib/assistantbot-core/storage/store.go:1029-1042 | Cancelling succeeds if and only if the reminder is a pending one of the chat, and changes its status alone |
| `ReminderRows.UpsertMeans` | lib/assistantbot-core/storage/store.go:934-966 | What a write leaves in every field of the row, and that it leaves all other rows |
| `Delivery.RowsAreWellFormed` | lib/assistantbot-core/memory/reminder_update.go:37-148 | From the empty table every history of set, update, cancel and delivery keeps every row well-formed: a valid rule over real weekdays, text for text mode and no prompt, a prompt for action mode |
| `Delivery.UpdatedRow` | lib/assistantbot-core/memory/reminder_update.go:130-148 | After a successful update a recurring row is due at the first scheduled instant not before now (in the range of durations), and status and count are kept |
| `Delivery.SetRowIsWellFormed` | lib/assistantbot-core/memory/tools.go:262-298 | A new row is well-formed, pending, with count zero, and no other row changes |
| `Delivery.UpdateKeepsOneShot` | lib/assistantbot-core/memory/reminder_update.go:94-100 | An update never takes a row's recurrence away |
| `Delivery.SendsAreCounted` | lib/assistantbot-core/memory/pipeline.go:293-330 | Over every history a row's count is its number of sends (one less once delivered), a one-shot is sent at most once, and a series that ends after N deliveries at most N times, also when N is changed on the way |
| `Delivery.DeliveryIsCounted` | lib/assistantbot-core/memory/pipeline.go:307-327 | One delivery keeps that count |
| `Delivery.PassCounts` | lib/assistantbot-core/memory/pipeline.go:293-330 | A whole pass, failing or not, keeps that count for every row |
| `Delivery.DoneRowsStay` | lib/assistantbot-core/storage/store.go:986-1053 | A delivered or cancelled row is never changed and never sent again |
| `DeliveryEnds.SendEndsExactly` | lib/assistantbot-core/memory/pipeline.go:304-327 | A send ends its row if and only if the row does not recur, was sent as often as its rule allows, or the search ends; otherwise the row moves to what the search finds, with one more delivery counted, and nothing else changes |
| `DeliveryEnds.SentExactly` | lib/assistantbot-core/memory/pipeline.go:298-303 | A pass sends exactly the listed reminders whose text is made and sent, if no send failed before |
| `DeliveryEnds.DeliveredExactly` | lib/assistantbot-core/memory/pipeline.go:293-330 | Over every history a delivered row was last sent by a pass that found it pending as it now is; a one-shot was sent once; a series that ends after N deliveries exactly N times unless the search ended at that pass; any other series only because the search ended |
| `Delivery.DeliveryMovesDue` | lib/assistantbot-core/memory/pipeline.go:313-325 | A row that stays pending after a delivery is due at the first scheduled instant after the pass, and is not sent for exactly what was scheduled up to the pass (in the range of durations) |
| `DueQuery.ListedExactly` | lib/assistantbot-core/storage/store.go:986-998 | Which pending rows the due query takes, for every due time: across years (in UTC) those whose year is written before the current one; within a year those due by time, but for the exact cases within the current second in which one fraction is a proper prefix of the other |
| `DueQuery.ListedByTime` | lib/assistantbot-core/storage/store.go:986-998 | In years of four digits the query goes by time, but for those cases within the current second |
| `DueQuery.FullSecondDecides` | lib/assistantbot-core/storage/store.go:986-998 | A row overdue by a full second is taken; one due in a later second is taken if and only if it is due after year 9999 in a year whose first four digits are below the current year |
| `DueQuery.ReadableExactly` | lib/assistantbot-core/storage/store.go:1207-1232 | A row is read back if and only if its due time and its anchor, if there is one, lie in years of four digits in UTC |
| `DueQuery.OverdueIsInTheList` | lib/assistantbot-core/storage/store.go:986-998 | When the limit does not cut the selection short, a row overdue by a full second is selected, and the query answers with its rows if and only if every row it takes can be read back; otherwise it fails |
| `DueQuery.FarFutureStopsDelivery` | lib/assistantbot-core/storage/store.go:986-998 | A pending row due that far after year 9999 is taken at every later moment up to year 9999, and each query that selects it fails |
| `DueQuery.OneReminderStopsAll` | lib/assistantbot-core/memory/tools.go:262-298 | A reminder that is accepted for "9999-12-31T23:59:59-12:00" makes every query from year 1001 to 9999 fail, always if the other pending rows are due in those years, and otherwise unless 100 rows are written no later |
| `DueQuery.ScheduledOnWholeSecond` | lib/assistantbot-core/reminders/recurrence.go:128-246 | With an anchor on a whole second every scheduled instant is on one |
| `DueQuery.SentIsListedExactly` | lib/assistantbot-core/memory/pipeline.go:307-327 | A sent row whose anchor is on a whole second is taken again at the same moment if and only if it stays pending and is next due after year 9999 in a year that reads early (in the range of durations) |
| `DueQuery.SecondPassSendsNothing` | lib/assistantbot-core/memory/pipeline.go:293-330 | When at most 100 rows are due, all are sent, and their anchors are on whole seconds, a second pass at the same moment changes nothing: its query selects exactly the sent rows next due that far in the future, so that it answers with no rows, or fails if there is such a row (in the range of durations) |
| `DueQuery.SentIsListedAgain` | lib/assistantbot-core/storage/store.go:986-998 | Whatever its anchor is, a sent row is taken again at the same moment if and only if its next due time lies in the same second and the moment's fraction is a proper prefix of it, or it lies in another year that is written before the current one (in the range of durations) |
| `DeliveryLimits.SentTwiceAtOneMoment` | lib/assistantbot-core/memory/pipeline.go:294-327 | A reminder due every minute at 0.52 seconds that a pass at 0.5 seconds sends and finds due again |
| `Delivery.CancelSurvivesExactly` | lib/assistantbot-core/memory/pipeline.go:293-330 | With cancellations at any points between the sends and writes of a pass, a listed row ends up cancelled if and only if some cancellation of it comes after its last write, or there is none, and its series had not ended before |
| `Delivery.WritesAreThePass` | lib/assistantbot-core/memory/pipeline.go:298-328 | Without cancellations between, the writes from the rows read at the start are the whole pass |
| `Delivery.CancelDuringPassIsLost` | lib/assistantbot-core/storage/store.go:1044-1053 | A cancellation just before the pass writes its row is overwritten, for every row |
| `Messages.HoldsTheNewest` | lib/assistantbot-core/storage/store.go:336-397 | After any run of inserts with distinct timestamps a chat holds exactly the L newest of all messages ever inserted into it |
| `Messages.NewestAbsorbs` | lib/assistantbot-core/storage/store.go:388-395 | The L newest of the L newest of S and x are the L newest of S and x |
| `Messages.NewestSize` | lib/assistantbot-core/storage/store.go:388-395 | As many are kept as there are, up to the limit |
| `Messages.LeftOutMeansFull` | lib/assistantbot-core/storage/store.go:388-395 | What is evicted is older than everything kept, and the limit is reached |
| `Messages.NewestByTime` | lib/assistantbot-core/storage/store.go:388-395 | For timestamps in different seconds, in years of four digits, the order of eviction is the order of time |
| `Messages.EvictedEntries` | lib/assistantbot-core/storage/store.go:388-395 | Eviction leaves the chat its newest messages and every other chat its own |
| `Messages.MessageStore.UpsertMessage` | lib/assistantbot-core/storage/store.go:336-397 | Insert or edit, with or without a vector: one row per message, at most L per chat, every vector beside a message of its row and chat; the row has the vector given, or else the one it had, none if it is new; other rows keep theirs while they stay |
| `Messages.MessageStore.DeleteMessage` | lib/assistantbot-core/storage/store.go:430-451 | Exactly that message and its vector are gone, and the same invariants hold |
| `Messages.MessageStore.Write` | lib/assistantbot-core/storage/store.go:347-386 | A known message keeps its row, a new one gets a row above all others; the vector is replaced only when there is one |
| `Messages.MessageStore.Evict` | lib/assistantbot-core/storage/store.go:388-395 | The stale messages of one chat and their vectors are dropped together |
| `Messages.MessageStore.FindRow` | lib/assistantbot-core/storage/store.go:347-348 | The row holds that message, or no row does |
| `Messages.EvictionFits` | lib/assistantbot-core/storage/store.go:388-395 | Writing a row and evicting leaves no chat with more than L messages |
| `Protocol.SendIsCurrent` | lib/assistantbot-core/app/app.go:174-239 | In every reachable state a run that sends had, at its loop-exit snapshot, a message that was not deleted and exactly the one its reply was computed from; the one exception is that a duplicate start took the token between the loop's two snapshots of a run already past its deadline |
| `ProtocolHistory.StateFollowsLog` | lib/assistantbot-core/app/processor.go:44-135 | Over every history: a message is deleted if and only if it was deleted and not started again since; it is that of the last start, or of the last edit handled while it was not deleted; the revision counts these edits and the token the starts |
| `ProtocolHistory.EntriesAsArrived` | lib/assistantbot-core/app/processor.go:91-121 | Runs begin with the messages they arrived with, and edits and deletions are handled as they arrived |
| `ProtocolHistory.SendRepliesToLastWritten` | lib/assistantbot-core/app/app.go:174-239 | Over every history: what a run sends is the outcome of its own computation from a message that was the last one written when it took the snapshot before; and, unless it is past its deadline, still the last one written, and not deleted, when it left its loop afterwards |
| `ProtocolUpdates.MemoryIsUpToDate` | lib/assistantbot-core/app/app.go:276-320 | Over every history: a job that stores its reply has updated the memory with a message that was the last one written at its snapshot, and found it neither deleted nor edited since, after the update |
| `ProtocolRuns.LiveRunExactly` | lib/assistantbot-core/app/processor.go:44-135 | The context of an unreleased run is live if and only if the run holds its state's token, its message is not deleted, and its caller's context is live |
| `ProtocolReleases.ReleasedContextStays` | lib/assistantbot-core/app/processor.go:70-85 | Once a run has released its state while it held the token, its context, under which its background job goes on, is live if and only if it was not cancelled before and the caller's context is live: no later start, edit, deletion or release cancels it |
| `ProtocolProgress.EditLeadsToAnotherRound` | lib/assistantbot-core/app/app.go:174-216 | Whatever becomes of a computation that an edit finds live, the run goes back to the top of its loop and takes its next snapshot of the edited message |
| `ProtocolProgress.InVainGoesRound` | lib/assistantbot-core/app/app.go:188-212 | So does every run whose message was edited since its snapshot and whose computation succeeds, or fails after it was cancelled |
| `ProtocolProgress.EditLeadsToAnotherUpdate` | lib/assistantbot-core/app/app.go:276-314 | Whatever becomes of a memory update that an edit finds live, the job next updates with the edited message |
| `ProtocolProgress.StopsExactly` | lib/assistantbot-core/app/app.go:136-250 | A run stops if and only if it finds its message deleted, a call outside fails (other than a computation that an edit cancelled), its context is cancelled before it sends, or its work is done |
| `ProtocolProgress.JobEndsExactly` | lib/assistantbot-core/app/app.go:276-340 | When a job ends, and when it goes on to store a reply |
| `ProtocolProgress.UndisturbedRun` | lib/assistantbot-core/app/app.go:136-250 | A live run with which nothing interferes sends the reply it computes, if it computes one, leaves a job with that reply for the message it found, and returns |
| `ProtocolAttempts.LiveAttemptExactly` | lib/assistantbot-core/app/processor.go:146-178 | A memory or reply context ever issued is live if and only if it is the registered one and its parent is live; it was then issued at the current revision, and its message is not deleted |
| `ProtocolAttempts.SilencedExactly` | lib/assistantbot-core/app/processor.go:164-178 | A live run that holds the token, whose message is neither deleted nor edited since its snapshot, has its reply context cancelled if and only if another reply context was issued for its state after its own |
| `ProtocolAttempts.AlwaysExact` | lib/assistantbot-core/app/processor.go:44-178 | In every history the registered attempts are distinct and were cancelled by nobody but through a parent, and a waiting run's context stays registered until a later one is issued |
| `ProtocolMemory.InterruptedExactly` | lib/assistantbot-core/app/app.go:276-314 | A job with a live context, whose message is neither deleted nor edited since its snapshot, finds its memory context cancelled if and only if, after that was issued, another memory context was issued for the state, a run of it began, or one was released while it held the token |
| `ProtocolMemory.AlwaysMemoryExact` | lib/assistantbot-core/app/processor.go:44-178 | In every history, while the message is neither deleted nor edited since the job's snapshot, a working job's context is registered exactly until one of these displaces it |
| `ProtocolMap.MappedExactly` | lib/assistantbot-core/app/processor.go:44-86 | The shared map leads to a run's state if and only if no run of that state has passed its removal from the map |
| `ProtocolMap.ReachedExactly` | lib/assistantbot-core/app/processor.go:91-121 | An edit or a deletion of a run's message reaches the run's state if and only if no run of that state has passed its removal from the map |
| `ProtocolAttempts.OneLiveAttempt` | lib/assistantbot-core/app/processor.go:146-178 | At most one context of each kind is live for a message state |
| `Protocol.OneLiveRun` | lib/assistantbot-core/app/processor.go:44-89 | Among unreleased runs only the holder of the current token can have a live context |
| `Protocol.DecidesBounded` | lib/assistantbot-core/app/app.go:174-216 | A run computes its reply at most once more than its message was edited since it began |
| `Protocol.UpdatesBounded` | lib/assistantbot-core/app/app.go:276-314 | A background job updates the memory at most once more than the message was edited since it was left behind |
| `Protocol.AfterHasInv` | lib/assistantbot-core/app/app.go:136-314 | Every state that any history leads to satisfies the invariant |
| `Protocol.ApplyKeepsInv` | lib/assistantbot-core/app/app.go:136-314 | Every step of every run, job, edit and deletion keeps the invariant these rest on |
| `Protocol.BeginEvolves` | lib/assistantbot-core/app/processor.go:49-68 | A begin cancels the previous run's three handles and changes the message only with the token |
| `Protocol.UpdateEvolves` | lib/assistantbot-core/app/processor.go:98-112 | An edit changes the message only together with the revision, and cancels both attempts; `ProtocolHistory.StateFollowsLog` says what it stores |
| `Protocol.DeleteEvolves` | lib/assistantbot-core/app/processor.go:122-135 | A deletion cancels both attempts and the run |
| `Protocol.ReleaseEvolves` | lib/assistantbot-core/app/processor.go:70-85 | A release touches no state but its own, and that one only while it holds the token |
| `Protocol.AttemptEvolves` | lib/assistantbot-core/app/processor.go:146-178 | A new attempt cancels the one before it |
| `ProtocolCauses.EditCauses` | lib/assistantbot-core/app/processor.go:70-112 | A handled edit, and a release that holds the token, cancel live attempts with the cause of an update |
| `ProtocolCauses.DeletionCauses` | lib/assistantbot-core/app/processor.go:122-135 | A deletion cancels live attempts and a live run with the cause of a deletion |
| `ProtocolCauses.StartCauses` | lib/assistantbot-core/app/processor.go:49-68 | A start cancels the previous live run and attempts with the cause of an update |
| `ProtocolCauses.AttemptCauses` | lib/assistantbot-core/app/processor.go:146-178 | An attempt cancels the live one before it with the cause of an update; on a deleted message it is itself cancelled with the cause of a deletion |
| `ProtocolLimits.DeadlineHidesDuplicate` | lib/assistantbot-core/app/processor.go:184-187 | A history in which a run past its deadline sends a reply to a message that a duplicate start has replaced |
| `ProtocolLimits.StaleRunSilencesReply` | lib/assistantbot-core/app/processor.go:164-178 | The case of `ProtocolAttempts.SilencedExactly` occurs: in a history without any edit or deletion a stale run's late reply context makes the newer, live run return without a reply |
| `ProtocolLimits.OrphanedRunMissesDelete` | lib/assistantbot-core/app/processor.go:85-86 | The case of `ProtocolMap.ReachedExactly` occurs while a run is unreleased and live: it began between another run's release and its removal from the map |
| `ProtocolLimits.OwnReleaseStopsMemory` | lib/assistantbot-core/app/processor.go:70-85 | The case of `ProtocolMemory.InterruptedExactly` occurs with a single run: its own release interrupts the memory update it left behind, which gives up, without any edit, deletion or duplicate start |
| `Processor.MessageProcessor.Begin` | lib/assistantbot-core/app/processor.go:49-68 | The critical section as one transition of the registry |
| `Processor.MessageProcessor.Release` | lib/assistantbot-core/app/processor.go:70-85 | Nothing happens unless the run still holds the token |
| `Processor.MessageProcessor.Unregister` | lib/assistantbot-core/app/processor.go:86 | The key is removed only while it maps to this state |
| `Processor.MessageProcessor.LoadOrStore` | lib/assistantbot-core/app/processor.go:45-47 | A known key keeps its state, a new one gets a blank state |
| `Processor.MessageProcessor.OnUpdated` | lib/assistantbot-core/app/processor.go:98-112 | The critical section as one transition; a deleted message is left alone, and the edited message is stored (`ProtocolHistory.StateFollowsLog` over histories) |
| `Processor.MessageProcessor.OnDeleted` | lib/assistantbot-core/app/processor.go:122-135 | The critical section as one transition; the run's handle is called and kept |
| `Processor.MessageProcessor.AttemptContext` | lib/assistantbot-core/app/processor.go:146-178 | A context for an attempt is registered and the one before it cancelled; for a deleted message it is cancelled at once |
| `Processor.MessageProcessor.CallCancel` | lib/assistantbot-core/app/processor.go:54-62 | A cancel function records its cause only if nothing was recorded for the context or above it |
| `Contexts.CancelExtends` | lib/assistantbot-core/app/processor.go:184-187 | Cancellation is permanent, keeps every cause recorded before, and reaches the context it is called for |
| `Lanes.OneTaskAtATime` | lib/assistantbot-core/app/chat_memory_lock.go:84-122 | In every history a lane has at most one worker, which takes tasks in the order they were enqueued, each once, and finishes one before it takes the next; at most 64 wait |
| `Lanes.ChatsDoNotShareLanes` | lib/assistantbot-core/app/chat_memory_lock.go:64-74 | Calls of one queue get the same lane if and only if they are of the same chat, however lookups race |
| `Lanes.OneResultEach` | lib/assistantbot-core/app/chat_memory_lock.go:84-122 | A task gets exactly one result when it is finished and none before; it is the context's error if and only if the function was not run; a caller that did not leave returns it |
| `LaneResults.CallersAreTold` | lib/assistantbot-core/app/chat_memory_lock.go:84-122 | Over every history a caller that does not leave is told what the function of its own task returned, or that its context has ended; a call without a chat what its function returned |
| `LaneResults.WorkGoesOn` | lib/assistantbot-core/app/chat_memory_lock.go:98-122 | While a task of a lane waits or is in hand the lane has a worker whose next step is possible: it takes the first task, runs its function unless the context has ended, and reports what it returned |
| `LaneResults.CallersGoOn` | lib/assistantbot-core/app/chat_memory_lock.go:76-97 | A caller starts its lane's worker, hands over its task when there is room, receives its result when there is one, and can leave when its context has ended |
| `Lanes.FinishNeverBlocks` | lib/assistantbot-core/app/chat_memory_lock.go:107-121 | The worker can always report a result, also when the caller has left |
| `Lanes.CancelledIsNeverRun` | lib/assistantbot-core/app/chat_memory_lock.go:113-117 | A task whose context has ended when the worker looks at it is not run at any later time |
| `Lanes.BackgroundIsInvisible` | lib/assistantbot-core/app/chat_memory_lock.go:16-27 | In every history the shared map and the prepare lanes are what they would be without anything that happened in the background lanes |
| `Lanes.SideStepKeepsSide` | lib/assistantbot-core/app/chat_memory_lock.go:84-122 | Every step of a caller or a worker keeps the invariant of the lanes |
| `Lanes.ApplyKeepsInv` | lib/assistantbot-core/app/chat_memory_lock.go:50-122 | So do arrivals and the racing lookups |
| `ToolLoop.ChatWithTools` | lib/assistantbot-core/llm/client.go:147-216 | Against every model and executor: at most 12 requests, each the unchanged base followed by blocks, a block being the model's message with all results of its calls in order or the one nudge; the result follows from the last answer |
| `ToolLoop.CallTools` | lib/assistantbot-core/llm/client.go:198-213 | The results answer the calls one for one in order, each obtained after all before it, errors as text |
| `ToolLoop.OneNudge` | lib/assistantbot-core/llm/client.go:181-189 | There is at most one nudge, and the first block is not one |
| `ToolLoop.RequestsShowResults` | lib/assistantbot-core/llm/client.go:147-216 | At most twelve requests: the first is the base, and each further one is its predecessor followed by the model's answer and, for each of its calls in turn, a tool message with that call's id and name whose content is what the tool said, or the error text; or, after a blank answer, by the reminder |
| `ToolLoop.EveryResultIsShown` | lib/assistantbot-core/llm/client.go:198-213 | In every later request each call of an answer is answered by the tool's text for its name and arguments after the transcript before it, or by "error calling tool: " and the error |
| `ToolLoop.EveryCallIsAnswered` | lib/assistantbot-core/llm/client.go:198-213 | In every request each call is followed by its own result before anything else, as read by a separate scan of the transcript |
| `ToolLoop.OutcomeIsDetermined` | lib/assistantbot-core/llm/client.go:147-216 | These properties leave one outcome: requests, blocks and result are determined by the model and the executor |
| `ToolRegistry.OfferedToolsHaveSessions` | lib/assistantbot-core/mcpclient/registry.go:65-162 | Whatever the servers answer, after connecting every offered tool is routed and every route has an open session, so no call fails for want of one |
| `ToolRegistry.NativesAreOffered` | lib/assistantbot-core/mcpclient/registry.go:93-101 | Whatever the other servers do, the native tools on offer are those the servers define, each once and in order |
| `ToolRegistry.SessionsAreExactly` | lib/assistantbot-core/mcpclient/registry.go:103-151 | A session is open if and only if its server was reached, its filter compiles, and its listing did not fail |
| `ToolRegistry.ConnectedAgrees` | lib/assistantbot-core/mcpclient/registry.go:103-151 | Connecting one server, failing or not, keeps tools, routes and sessions in agreement |
| `ToolRegistry.AddedAgrees` | lib/assistantbot-core/mcpclient/registry.go:123-143 | A listing touches only names under its own id |
| `ToolRegistry.FailureRestoresExactly` | lib/assistantbot-core/mcpclient/registry.go:144-149 | A failed listing leaves the registry as it was if and only if no earlier tool's name begins with the failed id and the separator |
| `ToolRegistry.NeighbourLosesTool` | lib/assistantbot-core/mcpclient/registry.go:164-178 | Server `a__b` fails and takes tool `b__x` of server `a` with it |
| `ToolRegistry.ToolsAreExactly` | lib/assistantbot-core/mcpclient/registry.go:65-162 | When no id with the separator begins another, a server's tool is routed to it if and only if its connection and listing did not fail and the tool passed its filter, whatever the others do |
| `ToolRegistry.RoutedExactly` | lib/assistantbot-core/mcpclient/registry.go:65-162 | Whatever the ids are, a call of a server's tool reaches that server if and only if the server contributes the tool, and no later server registers its key or fails with an id that, with the separator, begins it |
| `ToolRegistry.LaterServer` | lib/assistantbot-core/mcpclient/registry.go:103-151 | Connecting one more server takes another's tool away if and only if it does one of these two |
| `ToolRegistry.NamesakeTakesCalls` | lib/assistantbot-core/mcpclient/registry.go:124-143 | Servers `a` and `a__b` both connect, and calls of tool `b__x` of `a` go to `a__b` |
| `ToolRegistry.AddedTools` | lib/assistantbot-core/mcpclient/registry.go:124-143 | A listing succeeds if and only if no item fails, and then contributes exactly the tools that pass the filter |
| `ToolRegistry.Registry.Connect` | lib/assistantbot-core/mcpclient/registry.go:65-162 | The loop over servers computes the specified registry, or closes it when it holds no tool |
| `ToolRegistry.Registry.ConnectOne` | lib/assistantbot-core/mcpclient/registry.go:88-152 | One server's registration, with its early exits, is one transition of the registry |
| `ToolRegistry.Registry.RemoveToolsForServer` | lib/assistantbot-core/mcpclient/registry.go:164-178 | Exactly the routes and function tools whose names begin with the id and the separator go |

## Left out

- Time zones: each zone is a fixed offset in seconds. Daylight-saving transitions and the zone database are
  not modelled; a name that cannot be loaded reads as UTC, as in the code.
- Integer width: `nextFixedInterval` has 64-bit durations, and `weeksBetween` their saturation. Elsewhere
  integers are unbounded: the 64-bit revision and token counters, and the daily, monthly and yearly
  searches, whose values fit under the conditions of `CalendarRange`; what they find beyond is not modelled.
- Floating point: `weeksBetween` divides hours as a float; between two Mondays the quotient is exact, and at
  the saturated duration it is far enough from a whole number to truncate alike, so it is an integer division
  in the model.
- Series.NextDueIsFirst: assumes the range of durations (`InRange`), because the search is wrong outside it:
  `Schedule.FixedIntervalExact` and `Schedule.WeeklyExactForever` say when.
- Series.ComputeNextIsFirst: the same range, for the same reason.
- Series.NextDueIsMonotone: the same range, because a distance that wraps yields an instant far too early.
- Series.FedListsTheSchedule: the same range at each step.
- Series.LatePassesSkip: the same range at each pass.
- Series.EndsOnDate: the same range; where the search finds nothing the series reads as ended, and the exact
  conditions for that are those of the searches.
- Schedule.WeeklyIsFirst: up to 15250 weeks from the anchor, because the search is wrong beyond:
  `Schedule.WeeklySaturated` has an input.
- Series.SearchableWeekSucceeds: up to 15250 weeks from the anchor, because beyond an interval that does not
  divide 15250 takes no week at all.
- Series.ExhaustedStaysExhausted: the range of durations and weekly intervals up to 156, because a weekly
  search outside either can find nothing and later find something.
- Series.EndedStaysEnded: weekly intervals above 156 are left to `Series.EndedWeeklyExact`, because there the
  search can find nothing and later find something.
- Delivery.SendsAreCounted: assumes that no identifier is given to two reminders, because identifiers are
  made of the chat and the clock in nanoseconds, and the model has no such clock.
- Delivery.DeliveryMovesDue: the range of durations (`InRange`), because beyond it a minute rule can be due
  again in the past.
- Delivery.UpdatedRow: the same range, for what it says of the due time.
- DueQuery.SentIsListedExactly: the same range, whole-second anchors (for others `DueQuery.SentIsListedAgain`
  gives the exact condition), and a current year of four digits.
- DueQuery.SecondPassSendsNothing: the same range, anchors and years, for each row sent.
- DueQuery.SentIsListedAgain: the same range of durations.
- DueQuery.FullSecondDecides: a current year of four digits; `DueQuery.ListedExactly` has every year.
- TimeParse.WrittenIsRead: `Parse` covers texts the store writes, all in UTC; offsets and other layouts, which
  arguments of the tools may have, are not read by the model.
- Messages.NewestByTime: years of four digits, because others are not written in order.
- Messages.HoldsTheNewest: covers runs of inserts; histories with edits and deletions keep the invariants
  of `Messages.MessageStore.UpsertMessage`, but not this characterisation.
- Protocol.SendIsCurrent: speaks of the loop-exit snapshot. Edits that land between that snapshot and the
  call of `SendText` are not seen by the code, which looks only for deletion and cancellation there.
- SQLite: a table is a map, a transaction is atomic and does not fail. Rows are evicted in the order of the
  timestamp's text with the lower row kept among equals; the database promises no order there. A new row
  is one above the highest in use. The query for due rows selects any list that `Selection` allows.
- JSON: the tools start from decoded arguments. A field that cannot be decoded, an unknown name, and a
  blank one each have a value of their own.
- Encryption, `RecentMessages`, `NearestMessages`, topics, profiles, locations and chats.
- What a model, an embedding, a tool server or the messenger returns: any outcome is allowed.
- Interleaving of other tool calls with a delivery pass: in the histories of `Delivery` a pass is one event.
  Cancellations between its writes are treated by `Delivery.CancelSurvivesExactly`; updates are not.
- `HandleMessage`, which waits for the background job before it releases: runs are those that the transport
  starts, which do not wait, and their histories include the ones that happen to.
- A reply that was sent but came back without an identifier is not stored; in the model every reply is.
- Fairness, panics, timers, model choice and retries; metrics, tracing and logging.
- In `Processor` and `Reminders` a state, a context and a row are values in a table, so that sharing by
  pointer is the sharing of an index. The pointer through which `applyWeekdays` writes a rule is a value
  returned.
- `Lanes` is a state machine over values, not a class: its callers and workers run concurrently.
- Sorting of server ids before they are connected: `ToolRegistry.Registry.Connect` takes them in any order.
- The openrouter tools of the registry are opaque entries; prompt additions and the filter by LLM task are
  not part of this model.
