# Pills tracker — a Dafny model of its scheduling and adherence-log core

Pills Tracker is a single-page React application for keeping track of medications. Medications
have one or more daily dose times ("time slots", `HH:MM`). They are grouped into morning,
afternoon and evening. Each dose is marked as taken or not taken, and the marks go into a log
collection. Users review that collection day by day on a history page. Administrators manage the
medication list. Ordinary users see only today's schedule.

This project models that core as Dafny and proves properties of it.

- **Imperative parts stay imperative.** The state the handlers change becomes classes with
  `seq` fields and `modifies` clauses:
  - `App.Tracker` (the `App` component),
  - `History.HistoryView` (the history page's selected day and person filter),
  - `Form.MedicationForm` (the medication form's fields).

  The in-place `sort` of the history page is an insertion sort on an `array`
  (`History.SortInPlace`).
- **Pure parts stay pure.** Categorising slots, expanding and grouping the schedule, resolving a
  dose's status, mapping store rows and generating default slots are functions with lemmas.
- **Store calls are parameters.** Each call to the hosted store is a `Reply` parameter (`Ok` or
  `Failed`). An insert also gets the id the store assigns, and the store is taken to echo the
  inserted row.
- **Time is a plain record.** JavaScript `Date` values are `Calendar.Timestamp` records (local
  year, month 1..12, day, hour, minute) with:
  - the `setDate(±1)` steps,
  - the overflow of `new Date(y, m, d, h, mi)` into later days,
  - ordering by `getTime()`.
- **`parseInt` and `split(':')` are modelled for decimal text.** `parseInt` reads the leading
  decimal digits. The `0x` prefix, leading white space and a sign are not modelled (see "Left
  out"). An hour or minute that does not parse yields an invalid Date:
  - the schedule then shows no status,
  - marking the dose ends in the exception `toISOString` raises (`Outcome.InvalidSlot`, nothing
    changes).

Modules, one per file: `Seqs` (Option, order-preserving filter, subsequences), `Calendar`,
`Slots` (slot text), `Types` (src/types.ts), `Schedule` (MedicationList.tsx), `History`
(MedicationHistory.tsx), `Form` (MedicationForm.tsx), `App` (App.tsx).

## Model

| member | source | states |
|---|---|---|
| Calendar.NextDay | src/components/MedicationHistory.tsx:44-48 | the following day of a valid date is valid and strictly later |
| Calendar.PrevDay | src/components/MedicationHistory.tsx:38-42 | the preceding day of a valid date is valid and strictly earlier |
| Calendar.NextDayIsSuccessor | src/components/MedicationHistory.tsx:44-48 | no valid date lies strictly between a date and its next day, across month and year ends |
| Calendar.PrevDayIsPredecessor | src/components/MedicationHistory.tsx:38-42 | no valid date lies strictly between a date and its previous day |
| Calendar.AddDays | src/components/MedicationList.tsx:44-50 | moving forward n days from a valid date gives a valid date, strictly later when n > 0 |
| Calendar.NextPrevInverse | src/components/MedicationHistory.tsx:38-48 | previous then next, and next then previous, return the original day |
| Calendar.MakeTime | src/components/MedicationList.tsx:44-50 | `new Date(y, m, d, h, mi)` is a valid timestamp whose minute of day is (60h+mi) mod 1440, (60h+mi) div 1440 days later |
| Calendar.MakeTimeWithinDay | src/components/MedicationList.tsx:44-50 | an hour below 24 and a minute below 60 stay on the same day at that time |
| Calendar.TimeBeforeByMinuteOfDay | src/components/MedicationHistory.tsx:80-82 | across days the earlier day comes first; within a day the earlier minute of the day (60h + mi) comes first |
| Calendar.TimeBeforeIsStrictTotalOrder | src/components/MedicationHistory.tsx:80-82 | the `getTime()` order is irreflexive, transitive and total |
| Slots.ParseInt | src/components/MedicationList.tsx:20 | `parseInt` yields a number exactly when the text starts with a digit |
| Slots.AfterColon | src/components/MedicationList.tsx:43 | `split(':')[1]` exists exactly when the text has a colon |
| Slots.SlotFieldsParse | src/components/MedicationList.tsx:43-50 | `parseInt(slot.split(':')[0])` is a number exactly when the slot starts with a digit; `parseInt(slot.split(':')[1])` exactly when a digit follows the first colon |
| Slots.WellFormedSlotParses | src/components/MedicationList.tsx:43-50 | an `HH:MM` slot parses to its two two-digit numbers |
| Slots.HourSlotParses | src/components/MedicationForm.tsx:50-51 | a slot generated from an hour reads back as that hour and minute 0 (a round trip) |
| Slots.HourSlot | src/components/MedicationForm.tsx:51 | below 100, the hour's tens digit, units digit, then ":00" |
| Slots.DecimalStringValue | src/components/MedicationForm.tsx:51 | `String(n)` reads back as n |
| Schedule.Categorize | src/components/MedicationList.tsx:19-24 | never `all`; an hour that does not parse gives evening |
| Schedule.CategorizeWellFormed | src/components/MedicationList.tsx:19-24 | morning iff 5 ≤ h < 12, afternoon iff 12 ≤ h < 17, evening iff h < 5 or h ≥ 17 |
| Schedule.CategorizeBoundaries | src/components/MedicationList.tsx:19-24 | 04:59 evening, 05:00 and 11:59 morning, 12:00 and 16:59 afternoon, 17:00 and 00:00 evening |
| Schedule.InstancesOf | src/components/MedicationList.tsx:28-32 | one instance per slot of the medication (their contents are stated by `Schedule.ExpandAt`) |
| Schedule.Expand | src/components/MedicationList.tsx:27-33 | one instance per slot of all medications together, none tagged `all` |
| Schedule.ExpandMembers | src/components/MedicationList.tsx:27-33 | each instance carries a medication of the list, one of its slots and that slot's period |
| Schedule.ExpandAt | src/components/MedicationList.tsx:27-33 | slot j of medication k sits after all slots of the earlier medications: medications in order, slots in order |
| Schedule.InCategory | src/components/MedicationList.tsx:36-38 | a bucket holds exactly the instances of its period, as an order-preserving subsequence |
| Schedule.CategorizedBuckets | src/components/MedicationList.tsx:35-39 | every bucket instance has that bucket's period and comes from the expansion; every instance of the expansion is in its period's bucket |
| Schedule.CategoriesPartition | src/components/MedicationList.tsx:35-39 | the three buckets together are a permutation of the instances |
| Schedule.GroupsPartitionExpansion | src/components/MedicationList.tsx:26-40 | the grouped schedule partitions the expansion, so the bucket sizes add up to the number of slots |
| Schedule.MatchesSlot | src/components/MedicationList.tsx:52-59 | the code's match: a log that matches on the exact date and time also matches under this rule |
| Schedule.MatchIgnoresMonthYearAndReporter | src/components/MedicationList.tsx:52-59 | a log's match does not depend on its month, year or reporter |
| Schedule.SlotTarget | src/components/MedicationList.tsx:43-50 | a target time exists iff hour and minute both parse, and it is a valid timestamp |
| Schedule.SlotTargetWithinDay | src/components/MedicationList.tsx:43-50 | a slot up to 23:59 targets today at that hour and minute |
| Schedule.FindMatch | src/components/MedicationList.tsx:52-60 | the index of the first matching log, or none when no log matches |
| Schedule.Status | src/components/MedicationList.tsx:42-62 | no status iff the slot gives no valid time or no log matches; otherwise the `taken` of the first matching log |
| Schedule.StatusOnDay | src/components/MedicationList.tsx:42-62 | the status under the same-calendar-day rule; none for a slot that gives no valid time |
| Schedule.StatusOnDayIgnoresOtherDays | src/components/MedicationList.tsx:52-59 | under the same-calendar-day rule, a slot's status equals its status over the logs of the slot's own day alone, wherever the other days' logs sit |
| Schedule.StatusOnDaySameDayLogs | src/components/MedicationList.tsx:52-59 | two log collections with the same logs for the slot's day, in the same order, give the same status, whatever their other logs and their interleaving |
| Schedule.StatusMatchesEarlierMonth | src/components/MedicationList.tsx:52-59 | under the code's rule, a 14 January 09:00 log marks the 09:00 slot of 14 February as taken |
| Schedule.RenderedCategories | src/components/MedicationList.tsx:174-176 | a period section is shown iff the filter is `all` or that period and its bucket is non-empty, in the order morning, afternoon, evening |
| History.LogsForDate | src/components/MedicationHistory.tsx:57-70 | keeps exactly the logs of that day, month and year (and of the selected reporter unless `all`), as a subsequence; empty when none qualify |
| History.IsToday | src/components/MedicationHistory.tsx:50-55 | holds exactly for today's day, month and year, that is for today |
| History.InsertByTime | src/components/MedicationHistory.tsx:80-82 | one insertion step adds exactly one element |
| History.InsertByTimePermutes | src/components/MedicationHistory.tsx:80-82 | one insertion step adds the new log and nothing else |
| History.InsertByTimeSorted | src/components/MedicationHistory.tsx:80-82 | one insertion step keeps an ascending sequence ascending |
| History.SortByTime | src/components/MedicationHistory.tsx:80-82 | the sorted logs are a permutation of the input, ascending by time |
| History.SortByTimeStable | src/components/MedicationHistory.tsx:80-82 | logs with equal timestamps keep their relative order (stable sort) |
| History.InsertByTimeAt | src/components/MedicationHistory.tsx:80-82 | the insertion point lies after the logs not later than the new one and before the run of later ones |
| History.InsertInPlace | src/components/MedicationHistory.tsx:80-82 | one in-place pass leaves the prefix equal to the insertion step and the rest of the array untouched |
| History.SortInPlace | src/components/MedicationHistory.tsx:80-82 | the array ends as the sorted permutation of its old contents |
| History.DisplayedLogs | src/components/MedicationHistory.tsx:79-82 | the displayed list is the selected day's logs, sorted |
| History.FilterByReporter | src/components/MedicationHistory.tsx:57-82 | filtering on one reporter keeps only their logs, listed in time order whatever the stored order |
| History.StrBeforeIrreflexive | src/components/MedicationHistory.tsx:26 | the default string order is irreflexive |
| History.StrBeforeTransitive | src/components/MedicationHistory.tsx:26 | the default string order is transitive |
| History.StrBeforeTotal | src/components/MedicationHistory.tsx:26 | the default string order is total |
| History.InsertName | src/components/MedicationHistory.tsx:25-26 | adding a name keeps the list strictly ascending and adds exactly that name |
| History.UniqueUsers | src/components/MedicationHistory.tsx:24-27 | strictly ascending, without duplicates, and as a set the reporters of the logs |
| History.StrictlySortedIsUnique | src/components/MedicationHistory.tsx:24-27 | two strictly ascending lists with the same elements are equal, so the reporter list is determined by the logs |
| History.HistoryView.constructor | src/components/MedicationHistory.tsx:16-21 | starts on today with the filter `all` |
| History.HistoryView.GoToPreviousDay | src/components/MedicationHistory.tsx:38-42 | moves the selection back one calendar day and keeps the filter |
| History.HistoryView.GoToNextDay | src/components/MedicationHistory.tsx:44-48 | moves the selection forward one calendar day and keeps the filter |
| History.HistoryView.NextDisabled | src/components/MedicationHistory.tsx:101 | the forward button is disabled exactly when the selected day is today |
| History.HistoryView.PressNext | src/components/MedicationHistory.tsx:98-104 | the forward button does nothing on today; from a day no later than today the selection never passes today |
| History.HistoryView.SelectUser | src/components/MedicationHistory.tsx:112 | sets the filter and keeps the day |
| History.NavigationStopsAtToday | src/components/MedicationHistory.tsx:38-55 | from today, back then forward is today again, and the previous day is not today |
| Form.DefaultHour | src/components/MedicationForm.tsx:50 | slot hours lie between 8 and 31 and are not wrapped at 24 |
| Form.DefaultSlots | src/components/MedicationForm.tsx:49-52 | exactly n slots, slot i the padded text of hour ⌊8 + 24i/n⌋ followed by ":00" |
| Form.DefaultSlotsParse | src/components/MedicationForm.tsx:49-52 | every generated slot is `HH:MM`-shaped, reads back as its hour and minute 0, and the first hour is 8 |
| Form.DefaultHoursIncrease | src/components/MedicationForm.tsx:50 | for up to 24 doses a day, later slots have strictly later hours (with helper `Form.DivGrows`) |
| Form.HourSlotDigits | src/components/MedicationForm.tsx:51 | the slot text of a two-digit hour is its tens digit, its units digit, then ":00" |
| Form.OfferedHours | src/components/MedicationForm.tsx:50 | one dose 08; two 08, 20; three 08, 16, 24; four 08, 14, 20, 26 |
| Form.FirstSlotAtEight | src/components/MedicationForm.tsx:49-52 | the first generated slot is "08:00" for every positive frequency |
| Form.ThreeDosesEndAtTwentyFour | src/components/MedicationForm.tsx:49-52 | three doses a day end on the text "24:00" |
| Form.FourDosesEndAtTwentySix | src/components/MedicationForm.tsx:49-52 | four doses a day end on the text "26:00" |
| Form.FrequencyOrOne | src/components/MedicationForm.tsx:14 | `frequency \|\| 1` is never 0 and keeps any other number |
| Form.MedicationForm.constructor | src/components/MedicationForm.tsx:12-16 | copies the initial medication with the `\|\|` defaults, else a blank form (frequency 1, slots ["08:00"]) |
| Form.MedicationForm.ReceiveInitialData | src/components/MedicationForm.tsx:18-26 | a given medication's fields are copied in (missing notes as ''); none leaves the fields alone |
| Form.MedicationForm.ChangeFrequency | src/components/MedicationForm.tsx:46-54 | frequency becomes n and the slots the n defaults, so the slot count equals the frequency |
| Form.MedicationForm.EditSlot | src/components/MedicationForm.tsx:113-117 | only the edited slot changes; the length and the frequency stay |
| Form.MedicationForm.Submit | src/components/MedicationForm.tsx:28-44 | emits the current fields; a form without initial data then goes blank, an editing form keeps its fields |
| Types.OrElse | src/App.tsx:157-159 | `text \|\| fallback`: the text unless it is missing or empty |
| App.ToStaticMedication | src/App.tsx:99-103 | every column is carried over, `time_slots` as `timeSlots` and `is_active` as `isActive` |
| App.InsertedMedicationIsActive | src/App.tsx:313-339 | an inserted medication enters the list with the store id, the submitted fields and `isActive` set |
| App.ToLog | src/App.tsx:152-160 | ids, timestamp and `taken` are copied; a missing or empty join name, dosage or e-mail reads "Unknown Medication", "" or "Unknown User" |
| App.DefaultScheduleLeavesOutOmega | src/App.tsx:13-38 | of the default medications only Aspirin and Vitamin D reach the schedule |
| App.DefaultMedicationsConsistent | src/App.tsx:13-38 | the defaults `DEFAULT_MEDICATIONS` have ids 1, 2, 3 in that order, as many slots as their frequency, and give a schedule of three doses |
| App.ActiveOnly | src/App.tsx:657 | the schedule receives exactly the active medications, in order |
| App.FindMedication | src/App.tsx:346 | the first medication with the id, or none when no medication has it |
| App.ToggleActive | src/App.tsx:263-267 | the flag flips for the medications with the id and nothing else changes |
| App.ToggleActiveInvolution | src/App.tsx:249-268 | toggling twice restores the list; toggling a missing id changes nothing |
| App.ApplyEdit | src/App.tsx:293-304 | the edited medication takes the submitted fields but keeps id and `isActive`; the others are untouched |
| App.SetTaken | src/App.tsx:389-393 | `taken` changes on the logs with the id and nothing else changes |
| App.NewLog | src/App.tsx:414-422 | the new log carries the store id, the medication's id, name and dosage, the slot time and `taken`; the reporter is the session e-mail or "Unknown User" when it is missing or empty |
| App.Mark | src/App.tsx:345-426 | a missing or inactive medication (exactly those) gives NotFound; every outcome but Done leaves the logs unchanged; Done happens exactly when the medication is found and active, there is a session, the slot gives a valid time and the store call succeeds |
| App.MarkUpdatesMatchedLog | src/App.tsx:366-393 | a match makes the update set `taken` on that log; count, ids, timestamps and other logs stay, and with unique ids only the matched log changes |
| App.MarkAppendsNewLog | src/App.tsx:395-424 | with no match, exactly one log is appended at the end, with the store id, the slot time, `taken` and the medication's name and dosage |
| App.MarkTwiceKeepsOneLog | src/App.tsx:366-424 | marking one slot twice leaves one new log, which carries the second value |
| App.MarkedStatusShows | src/App.tsx:366-424 | after a successful mark the slot's status is the value just marked |
| App.MarkKeepsIdsUnique | src/App.tsx:395-424 | with a fresh store id, log ids stay unique |
| App.MarkRewritesEarlierMonth | src/App.tsx:366-393 | as written, marking 09:00 on 2024-02-14 rewrites the `taken` of the 2024-01-14 09:00 log and appends no log |
| App.MarkOnDay | src/App.tsx:345-426 | the corrected mark has the same outcome as `Mark` and leaves the logs alone unless Done |
| App.MarkOnDayKeepsOtherLogs | src/App.tsx:366-424 | with unique ids the corrected mark adds at most one log and changes no log except one at the slot's exact date and time |
| App.MarkOnDayKeepsOneLogPerSlot | src/App.tsx:366-424 | the corrected mark keeps at most one log per medication and timestamp |
| App.MarkOnDayShowsStatus | src/App.tsx:366-424 | after a successful corrected mark the slot's same-day status is the value just marked |
| App.RemoveMedication | src/App.tsx:450 | keeps exactly the medications without that id, in order |
| App.RemoveLogsOf | src/App.tsx:451 | keeps exactly the logs of other medications, in order |
| App.DeletedMedicationUnlogged | src/App.tsx:428-452 | after the cascade no slot of the deleted medication has a status |
| App.RemoveLog | src/App.tsx:466 | keeps exactly the logs with other ids, in order; a missing id changes nothing |
| App.DeleteUndoesAppend | src/App.tsx:395-467 | deleting the log a mark appended restores the collection |
| App.Render | src/App.tsx:494-673 | loading shows the spinner and a signed-out user the sign-in form; a non-admin away from the schedule sees the permission notice; an admin on the medications page gets the manage screen with the form flag, and on the history page the history screen; the schedule receives exactly the active medications |
| App.Tracker.constructor | src/App.tsx:44-57 | starts with the default medications, no logs, signed out, on the schedule, loading |
| App.Tracker.SessionChecked | src/App.tsx:59-85 | with a session the user is its e-mail, authenticated, admin only when the role row says so; loading ends |
| App.Tracker.LoadMedications | src/App.tsx:87-105 | on success the list is the mapped rows in store order; on error it stays |
| App.Tracker.LoadLogs | src/App.tsx:107-162 | without a session or on either store error the logs stay; otherwise they are the mapped rows |
| App.Tracker.ToggleMedication | src/App.tsx:249-268 | a missing id or store error changes nothing; success applies the toggle |
| App.Tracker.BeginEdit | src/App.tsx:270-273 | opens the form on the medication |
| App.Tracker.BeginAdd | src/App.tsx:622-625 | opens an empty form |
| App.Tracker.CancelForm | src/App.tsx:638-641 | closes the form and drops the medication being edited |
| App.Tracker.AddMedication | src/App.tsx:275-343 | edit replaces the fields of the edited medication; insert (with a session) appends it active; any failure leaves list and form as they were |
| App.Tracker.LogMedication | src/App.tsx:345-426 | the outcome and the new log collection are those of `Mark`; nothing else changes |
| App.Tracker.DeleteMedication | src/App.tsx:428-452 | a failed delete changes nothing; otherwise the medication and its logs go, even when log cleanup fails (reported as CascadeError) |
| App.Tracker.DeleteLog | src/App.tsx:454-467 | on success exactly the logs with the id are removed; on error nothing changes |
| App.Tracker.ClearAllLogs | src/App.tsx:469-488 | with a session and a successful delete the local collection is empty; otherwise it stays |
| App.Tracker.Logout | src/App.tsx:234-247 | signed out, with no logs and no medications |
| App.Tracker.Navigate | src/App.tsx:535-568 | sets the current page and nothing else |

## Left out

- Sign-up, password sign-in and OAuth sign-in (src/App.tsx:164-232, 593-603) are authentication I/O. Only their effect on the user record is modelled, by `App.Tracker.SessionChecked`.
- The `user_roles` lookup, the server-side restriction of a non-admin's logs to their own and the store's sort orders (src/App.tsx:91, 114-142) are store behaviour. The rows a query returns are a parameter, already in the store's order.
- Async ordering and overlapping calls are not modelled. Each handler is one atomic step.
- `App.Tracker.LogMedication` reads the clock through `new Date()`, and so does the history page's "today". Both are a `Date` parameter instead.
- ISO strings, UTC and time zones are not modelled. Timestamps are local records to the minute; seconds and milliseconds are not modelled.
- Slots.ParseInt: leading white space, a sign and the hexadecimal prefix `0x` (which `parseInt` with no radix reads as base 16) are not modelled, because slot text comes from `<input type="time">` or from the generator, which never produce them.
- History.UniqueUsers: the names are ordered by `History.StrBefore`, which compares characters as Unicode scalar values. The default `sort()` compares UTF-16 code units, and the two orders differ on names that mix characters above U+FFFF with characters in U+E000..U+FFFF. UTF-16 encoding is not modelled.
- `toLocaleDateString`/`toLocaleTimeString` formatting, JSX layout, CSS, the mobile menu, language switching and translations are not modelled.
- History.SortInPlace: the engine's own sort algorithm is not modelled. An insertion sort stands in for it. `Array.prototype.sort` is stable, and a stable sort by time has only one possible result, so the array ends the same.
- The `window.confirm` prompts around deletions are not modelled.
- src/components/StaticMedicationList.tsx is not part of this model. It only renders and forwards callbacks.
- The unused `medications` state of `App` (src/App.tsx:44) is not modelled.
- The `required` attributes of the form inputs are browser validation and are not modelled.
- The `Number()` conversion of the frequency select is not modelled. `Form.MedicationForm.ChangeFrequency` takes the chosen natural number.
- Types.MedicationLog holds a `Calendar.Timestamp` where src/types.ts:13 holds a string. The only operations on it in the core are the local field reads and `getTime()`.

## Findings

The dose-status lookup and the mark handler compare only the day of the month, hour and minute of a log with today's slot time. The log collection holds every log the user may see, not just today's. So a log from the same day of an earlier month, or of an earlier year, counts as today's mark.

In the handler this also means that marking today's dose can rewrite an earlier month's log and record nothing for today.

The schedule and the handlers keep the code's rule, so that they track the source. The same-calendar-day rule is modelled and proved alongside it, for the status lookup and for the handler.

| source | as written | input that shows it | evidently intended | confidence | as-written member | corrected member |
|---|---|---|---|---|---|---|
| src/components/MedicationList.tsx:52-59 | match on medicationId, day of month, hour and minute | a log of medication "1" at 2024-01-14 09:00, taken; on 2024-02-14 the 09:00 slot shows taken | match on the same calendar day (year, month and day) and time | not executed | Schedule.StatusMatchesEarlierMonth | Schedule.StatusOnDayIgnoresOtherDays |
| src/App.tsx:366-375 | the existing log is the first log matching on medicationId, day of month, hour and minute | medication "1", a log of 2024-01-14 09:00, not taken; on 2024-02-14 marking 09:00 as taken rewrites that log and appends none | update the log of the same calendar day and time, otherwise append one | not executed | App.MarkRewritesEarlierMonth | App.MarkOnDayKeepsOtherLogs |
