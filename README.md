# Alarm clock: alarm bookkeeping

This is a Dafny model of the alarm bookkeeping in a desktop alarm clock written in Java. Pending alarms live in a sorted priority queue keyed by fire time (milliseconds since the epoch). The model covers:

- **`AlarmClock`**: the shared queue; the check that fires the head alarm when its hour and minute come round; scheduling a new alarm at an hour and minute, today or the next day according to the program's day test (which can leave a passed time on today, see Findings); and export to and import from iCalendar text (RFC 5545).
- **`Alarm`**: an immutable value holding one fire time. Its decimal rendering is read back with `Long.parseLong`.
- **`Model`**: the ticking clock state. It keeps the sampled hour, minute and second and the previous minute and second. A change of minute runs the alarm check, and a change of second notifies observers.

The queue implementation (a linked list in the program) is not part of the repository's visible sources. It is modelled by the sequence of its entries, kept in ascending order with stable insertion, plus the operations its callers use.

Java's integer semantics are written out (module `JavaArith`): the `int` and `long` ranges, `/` and `%` truncating toward zero, and the narrowing `(int)` cast that keeps the low 32 bits.

The hour of an alarm is computed as the program computes it: whole hours since the epoch, plus one, modulo 24, which is a fixed UTC+1 offset. New fire times come from the default time zone (`alarmAt` below), and the exported iCalendar text appends the UTC marker `Z` (section 3.3.5 of RFC 5545) to a locally formatted time. The model keeps all three as the program has them.

The following are parameters, because they are library calls, clocks or files outside the model:

- the date formatter (`format`, `parse`);
- the current time (`currentHour`, `currentMinute`, `now`);
- the datestamp read while each event is written (`datestampAt`);
- the epoch time of an hour and minute on a given day (`alarmAt`);
- the calendar fields `Model.update` samples;
- the tokens of a loaded file.

Modules, one per file: `JavaArith`, `Outcomes`, `Decimal`, `Alarms` (Alarm.dfy), `PriorityQueues` (PriorityQueue.dfy), `AlarmTime`, `ICalendar`, `AlarmClock`, `ClockModel` (Model.dfy).

## Model

| member | source | states |
|---|---|---|
| JavaArith.Div | src/clock/AlarmClock.java:41-42 | Java's `/` for a positive divisor: the quotient is truncated toward zero, so `b*q` lies between 0 and `a` within one divisor, for either sign of `a` |
| JavaArith.Rem | src/clock/AlarmClock.java:41-42 | Java's `%`: `a == b*Div(a,b) + r`, and `r` has the sign of the dividend and is smaller than the divisor in magnitude |
| JavaArith.ToInt | src/clock/AlarmClock.java:41-42 | the `(int)` cast of a `long`: the result is an `int` congruent to the argument modulo 2^32, and equal to it when it is already in range |
| Alarms.GetDateInMillisecondsIsConstructorArgument | src/clock/Alarm.java:11-17 | the getter returns exactly the constructor argument |
| Alarms.Alarm.ToString | src/clock/Alarm.java:19-22 | `Long.parseLong` of the rendering succeeds and returns the stored value, for every `long`; the text is non-empty and starts with `-` exactly when the value is negative |
| Alarms.ToStringExample | src/clock/AlarmTest.java:28-31 | the alarm for 1500000000 renders as `"1500000000"` |
| Decimal.DecimalStringShape | src/clock/Alarm.java:21 | `String.valueOf(long)` is non-empty, has a leading `-` exactly for negative values, and otherwise is all digits with a leading `0` only for 0 |
| Decimal.DigitsValueOfDigits | src/clock/Alarm.java:21 | the decimal digits of `n` are digits and denote `n` |
| Decimal.ParseLongDecimalString | src/clock/AlarmClock.java:40 | `Long.parseLong(String.valueOf(n)) == n` for every `long`, the round trip the check relies on to recover the head's fire time |
| PriorityQueues.InsertSortedAt | src/clock/AlarmClock.java:149 | an insertion places the new entry after every entry of equal or smaller priority and before the first strictly greater one, keeping the others in order |
| PriorityQueues.InsertSortedSorted | src/clock/AlarmClock.java:149 | an insertion keeps the queue sorted, adds exactly the new entry (multiset) and grows it by one |
| PriorityQueues.RemovedAtSorted | src/clock/AlarmClock.java:208 | removal at a valid rank keeps the queue sorted; ranks below are unchanged and ranks above shift down by one |
| PriorityQueues.SortedPriorityQueue.Add | src/clock/AlarmClock.java:149 | `add(item, priority)` scans to the first strictly greater priority; the queue becomes `InsertSorted` of the old queue and stays sorted |
| PriorityQueues.SortedPriorityQueue.Head | src/clock/AlarmClock.java:40 | `head()` is the first entry's alarm, and underflows exactly when the queue is empty |
| PriorityQueues.SortedPriorityQueue.Remove | src/clock/AlarmClock.java:49 | `remove()` drops exactly the first entry, and underflows, changing nothing, exactly when the queue is empty |
| PriorityQueues.SortedPriorityQueue.RemoveAt | src/clock/AlarmClock.java:208 | `remove(position)` drops exactly the entry at that rank, and underflows, changing nothing, exactly when the rank names no entry |
| PriorityQueues.SortedPriorityQueue.IsEmpty | src/clock/AlarmClock.java:36 | `isEmpty()` is true exactly when there are no entries |
| PriorityQueues.SortedPriorityQueue.GetPriorityArray | src/clock/AlarmClock.java:59 | `getPriorityArray()` is a fresh array of the priorities in queue order |
| AlarmTime.MillisecondsToHours | src/clock/AlarmClock.java:41-46 | the hour always lies in -22..23; for a non-negative time whose hour count fits an `int` it is `(ms div 3600000 + 1) mod 24`, the hour of day at UTC+1 |
| AlarmTime.MillisecondsToMinutes | src/clock/AlarmClock.java:42 | the minute always lies in -59..59; for a non-negative time whose minute count fits an `int` it is the number of whole minutes into the current hour |
| AlarmTime.DueIsMinuteOfDay | src/clock/AlarmClock.java:41-48 | for such a time, an alarm is due at `hour:minute` exactly when `0 <= minute < 60` and `60*hour + minute` is the alarm's minute of the day at UTC+1 |
| AlarmTime.ExampleReading | src/clock/AlarmClockTest.java:80-92 | 1526832268854 reads as hour 17, minute 4 |
| AlarmTime.AfterCheckDropsDueHead | src/clock/AlarmClock.java:36-52 | a check removes one entry, the head, exactly when the queue is non-empty and the head is due; otherwise, including on an empty queue, the queue is unchanged |
| AlarmTime.AfterCheckSorted | src/clock/AlarmClock.java:48-49 | a check keeps the queue sorted |
| ICalendar.EventTextIsTerminatedLines | src/clock/AlarmClock.java:70-75 | the text appended per alarm is six CRLF-terminated content lines: `BEGIN:VEVENT`, `UID:i`, `DTSTAMP:`, `DTSTART:`, `DTEND:` and `END:VEVENT` |
| ICalendar.CalendarTextIsJoinedLines | src/clock/AlarmClock.java:61-80 | the generated text is its content lines joined by CRLF, with no CRLF after the final `END:VCALENDAR` |
| ICalendar.CalendarLinesShape | src/clock/AlarmClock.java:61-78 | three header lines; then six lines per exported key in export order, where the k-th block has `UID:k` and the same formatted time after `DTSTART:` and `DTEND:`; then `END:VCALENDAR`; `6n+4` lines in all |
| ICalendar.EmptyCalendarText | src/clock/AlarmClock.java:61-80 | with no alarms the text is the three header lines followed by `END:VCALENDAR` |
| ICalendar.OneAlarmCalendarText | src/clock/AlarmClockTest.java:57-74 | with one alarm the text is exactly the test's expected text, with the formatted time and the datestamp left abstract |
| ICalendar.LoadedKeysSound | src/clock/AlarmClock.java:117-128 | every loaded fire time is strictly later than the load time and is the parsed value of some `DTSTART:` token |
| ICalendar.LoadedKeysAppend | src/clock/AlarmClock.java:117-136 | the scan is in file order: two stretches of tokens load the first's keys then the second's, unless the first holds an unparsable `DTSTART:` value, which ends the scan |
| AlarmClock.InsertAllSorted | src/clock/AlarmClock.java:117-128 | inserting the loaded alarms one by one keeps the queue sorted, and the new queue holds exactly the old entries plus one alarm entry per key (as multisets) |
| AlarmClock.AsWrittenSchedulesPassedAlarm | src/clock/AlarmClock.java:163 | at 10:30 the program schedules an alarm for 09:45 at 09:45 today, which has passed, where the intended test gives 09:45 tomorrow |
| AlarmClock.RollsOverAsWrittenIsStricter | src/clock/AlarmClock.java:163 | whenever the test as written moves an alarm to the next day, the corrected test does too |
| AlarmClock.RollsOverIffNotLater | src/clock/AlarmClock.java:162-165 | the corrected test moves the alarm to the next day exactly when `hour:minute` is not later than the current time |
| AlarmClock.DateInMillisecondsForAlarm | src/clock/AlarmClock.java:159-175 | the program's computation: succeeds exactly for an hour in 0..23 with a minute in 0..59, or for 24:00; moves `hour:minute` to the next day exactly when the current hour is at least `hour` and the current minute at least `minute`; so a time still ahead stays today; 24:00 is midnight at the end of today |
| AlarmClock.DateInMillisecondsForAlarmIntended | src/clock/AlarmClock.java:159-175 | the same computation with the day test the comment on line 162 describes: `hour:minute` today when that is later than now, and tomorrow otherwise |
| AlarmClock.DateInMillisecondsForAlarmAgreement | src/clock/AlarmClock.java:163 | the program and the intended test agree except when the current hour is later and the current minute earlier than the alarm's; there the program gives today and the intended test tomorrow, for a time that has passed |
| AlarmClock.AlarmClock.constructor | src/clock/AlarmClock.java:26 | the clock starts with an empty queue |
| AlarmClock.AlarmClock.CheckAlarms | src/clock/AlarmClock.java:35-53 | the queue becomes `AfterCheck` of the old queue at the current hour and minute; the alarm is reported activated exactly when the queue was non-empty and its head due |
| AlarmClock.AlarmClock.GenerateICalendar | src/clock/AlarmClock.java:58-81 | the built text is `CalendarText` of the queue's priorities in queue order |
| AlarmClock.AlarmClock.LoadICalendar | src/clock/AlarmClock.java:107-137 | the queue becomes the old queue with the `LoadedKeys` inserted in file order, and the scan reports a parse failure exactly when some `DTSTART:` value does not parse |
| AlarmClock.AlarmClock.AddAlarm | src/clock/AlarmClock.java:145-150 | a parsable hour and minute (a time of day, or 24:00) insert the alarm for the program's `DateInMillisecondsForAlarm`; otherwise it throws and the queue is unchanged |
| AlarmClock.AlarmClock.GetPriorityArray | src/clock/AlarmClock.java:191-193 | the queue's priorities in queue order, in a fresh array |
| AlarmClock.AlarmClock.IsEmpty | src/clock/AlarmClock.java:200-202 | true exactly when no alarm is pending |
| AlarmClock.AlarmClock.Remove | src/clock/AlarmClock.java:207-209 | the alarm at that rank is removed; a rank naming no alarm underflows and changes nothing |
| AlarmClock.MatchingAlarmIsRemoved | src/clock/AlarmClockTest.java:28-37 | after a check at 17:04, the single alarm for 1526832268854 is gone and `head()` underflows |
| AlarmClock.OtherMinuteKeepsAlarm | src/clock/AlarmClockTest.java:43-51 | after a check at 17:03 the same alarm is still at the head |
| ClockModel.Model.constructor | src/clock/Model.java:15-24 | all fields start at 0 and one update runs, so the first update checks alarms only when the sampled minute is not 0 and notifies only when the sampled second is not 0 |
| ClockModel.Model.Update | src/clock/Model.java:26-46 | hour, minute and second become the sampled values; the previous minute and second are kept; the alarm check runs, against the new hour and minute, exactly when the minute changed, and otherwise the queue is unchanged; observers are notified exactly when the second changed |
| ClockModel.Model.CheckAlarms | src/clock/Model.java:48-66 | the same check as the alarm clock's, against the model's own hour and minute: the queue becomes `AfterCheck` of the old queue, and a match removes only the head |

## Left out

- The queue's own implementation, a linked list, is not part of this model. Its behaviour is stated by the contracts its callers rely on: ascending order, stable insertion, and underflow on an empty queue or a bad rank.
- `SortedPriorityQueue.RemoveAt`: an empty queue and an out-of-range rank raise the same `QueueUnderflowException`. This follows the one exception type the program declares. A separate out-of-range error is not modelled.
- The Swing dialogs (`JOptionPane`) are left out. An activated alarm is reported by the `activated` result instead of a message box.
- `saveICalendar` and the file side of `loadICalendar` are left out: the file choosers, `FileWriter`, `FileNotFoundException` and the printed stack traces. The loader works on the file's tokens, and the generator returns the text that would be written.
- `AlarmClock.LoadICalendar`: the loop tests `hasNextLine()` but reads `next()`. A file ending in blank lines or trailing whitespace would throw `NoSuchElementException`, and the model does not capture this. The model scans a finite token sequence and ends at its last token.
- `AlarmClock.LoadICalendar`: `parse` stands for `SimpleDateFormat.parse` followed by `getTime()`, including its leniency about trailing text such as the `Z`. The interpretation of the date pattern is not modelled.
- `SimpleDateFormat.format`, `Calendar`, `LocalDateTime`, `ZoneId` and `new Date()` are parameters, not models of the Java time library. The `%02d` formatting and the `yyyy/MM/dd HH:mm:ss` re-parsing in `getDateInMillisecondsForAlarm` are reduced to which hours and minutes parse: a time of day, or `24:00`, which the default smart resolver reads as midnight at the end of the day. This reading of the resolver is taken from the JDK's documented behaviour.
- `getDatestamp` is a parameter read once per event; its formatting is not modelled.
- `Decimal.ParseLong` accepts ASCII digits only. `Long.parseLong` also accepts other Unicode decimal digits, which `String.valueOf` never produces.
- `JavaArith.Div`, `JavaArith.Rem`: defined for positive divisors only, which are the only divisors the clock uses.
- `AlarmTime.MillisecondsToHours`, `AlarmTime.MillisecondsToMinutes`: the contracts state the plain reading only for non-negative times whose counts fit an `int`. For other times they state only the range, though the functions compute the wrapped Java value for every `long`.
- The `Observable`/`Observer` notification is counted by `Model.notifications` rather than delivered, and `Model.alarmChecks` counts the alarm checks.
- The program's static `priorityQueue` (src/clock/AlarmClock.java:26), shared by every caller, becomes the `queue` field of one `AlarmClock` object. Sharing the queue between several objects is not modelled.
- The view (src/clock/View.java) is not part of this model; its copy of the date computation duplicates `getDateInMillisecondsForAlarm`. Neither is the program's entry point (src/clock/Clock.java).
- Threads and the timing between the clock's polling loop and user edits are not modelled.

## Findings

| source | as written | input that shows it | evidently intended | confidence | as-written member | corrected member |
|---|---|---|---|---|---|---|
| src/clock/AlarmClock.java:163 | the alarm moves to the next day when `currentHour >= hour && currentMinute >= minute`, each compared on its own | now 10:30, alarm 09:45: 10 >= 9 holds but 30 >= 45 does not, so the alarm is set for 09:45 today, which has passed | move to the next day exactly when `hour:minute` is not later than now, as the comment on line 162 says | high, not executed | AlarmClock.AsWrittenSchedulesPassedAlarm | AlarmClock.DateInMillisecondsForAlarmIntended |

`AlarmClock.DateInMillisecondsForAlarm` and `AlarmClock.AlarmClock.AddAlarm` keep the test as written (`AlarmClock.RollsOverAsWritten`), as the program runs. `AlarmClock.DateInMillisecondsForAlarmIntended` uses the corrected test `AlarmClock.RollsOver`, and `AlarmClock.RollsOverIffNotLater` proves that test means "not later than now". `AlarmClock.DateInMillisecondsForAlarmAgreement` states where the two differ. A passed alarm that stays on today sits at the head of the queue. The check compares only the head, so it also holds back every later alarm until that time comes round the next day.
