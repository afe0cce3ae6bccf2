/**
 * The alarm bookkeeping of class `AlarmClock`: the shared queue of pending
 * alarms, the check that fires the head alarm, the scheduling of a new
 * alarm, and the export to and import from iCalendar text. The queue is a
 * static field in the program; here it is the field of one `AlarmClock`
 * object. Dialogs, file choosers and file access are left to the caller:
 * the fired alarm is reported by a result, the file by its tokens and the
 * written text.
 */
module AlarmClock {
  import opened JavaArith
  import opened Outcomes
  import opened Decimal
  import opened Alarms
  import opened PriorityQueues
  import opened AlarmTime
  import opened ICalendar

  /** The unchecked exception `LocalDateTime.parse` throws for an hour or minute out of range. */
  datatype DateTimeParseException = DateTimeParseException

  /** The entry `addAlarm` and `loadICalendar` insert for a fire time. */
  function AlarmEntry(ms: long): Entry {
    Entry(Alarm(ms), ms)
  }

  /** The queue after inserting the alarms for `keys`, one after another. */
  function InsertAll(es: seq<Entry>, keys: seq<long>): seq<Entry>
    decreases |keys|
  {
    if keys == [] then es else InsertAll(InsertSorted(es, AlarmEntry(keys[0])), keys[1..])
  }

  /** The entries for `keys`, in the same order. */
  function AlarmEntries(keys: seq<long>): (es: seq<Entry>)
    ensures |es| == |keys|
    ensures forall i :: 0 <= i < |keys| ==> es[i] == AlarmEntry(keys[i])
  {
    seq(|keys|, i requires 0 <= i < |keys| => AlarmEntry(keys[i]))
  }

  /**
   * Inserting the alarms for `keys` one by one keeps the queue sorted and
   * adds exactly one entry per key to the entries already present.
   */
  lemma {:induction false} InsertAllSorted(es: seq<Entry>, keys: seq<long>)
    requires Sorted(es)
    ensures Sorted(InsertAll(es, keys))
    ensures multiset(InsertAll(es, keys)) == multiset(es) + multiset(AlarmEntries(keys))
    ensures |InsertAll(es, keys)| == |es| + |keys|
    decreases |keys|
  {
    if keys == [] {
      assert AlarmEntries(keys) == [];
    } else {
      var e := AlarmEntry(keys[0]);
      InsertSortedSorted(es, e);
      InsertAllSorted(InsertSorted(es, e), keys[1..]);
      assert AlarmEntries(keys) == [e] + AlarmEntries(keys[1..]);
    }
  }

  // Scheduling a new alarm.

  /**
   * The day test as the program writes it: the alarm goes to the next day
   * when the current hour is at least the alarm's hour and the current minute
   * at least the alarm's minute, each compared on its own.
   */
  predicate RollsOverAsWritten(currentHour: int, currentMinute: int, hour: int, minute: int) {
    currentHour >= hour && currentMinute >= minute
  }

  /**
   * The day test the comment above it describes: the alarm goes to the next
   * day when its time of day is not later than the current one.
   */
  predicate RollsOver(currentHour: int, currentMinute: int, hour: int, minute: int) {
    currentHour > hour || (currentHour == hour && currentMinute >= minute)
  }

  /** The corrected test rolls over exactly when `hour:minute` is not later than the current time. */
  lemma RollsOverIffNotLater(currentHour: int, currentMinute: int, hour: int, minute: int)
    requires 0 <= currentMinute < 60 && 0 <= minute < 60
    ensures RollsOver(currentHour, currentMinute, hour, minute)
      <==> 60 * hour + minute <= 60 * currentHour + currentMinute
  {
    if currentHour > hour {
      assert 60 * hour + 60 <= 60 * currentHour;
    } else if currentHour < hour {
      assert 60 * currentHour + 60 <= 60 * hour;
    }
  }

  lemma RollsOverAsWrittenIsStricter(currentHour: int, currentMinute: int, hour: int, minute: int)
    ensures RollsOverAsWritten(currentHour, currentMinute, hour, minute)
      ==> RollsOver(currentHour, currentMinute, hour, minute)
  {
  }

  /**
   * Whether the text `hh:mm:00` formatted from `hour` and `minute` parses
   * with the pattern `HH:mm:ss` under the default smart resolver: a time of
   * day, or `24:00`, which that resolver reads as midnight at the end of the day.
   */
  predicate ParsableTime(hour: int, minute: int) {
    (0 <= hour < 24 && 0 <= minute < 60) || (hour == 24 && minute == 0)
  }

  /**
   * The epoch time of a parsable `hour:minute` on the day `days` days after
   * today. `alarmAt(days, hour, minute)` stands for the epoch time of
   * `hour:minute:00` in the default time zone on that day; `24:00` is
   * `00:00` of the following day.
   */
  function FireTime(days: nat, hour: int, minute: int, alarmAt: (nat, int, int) -> long): long {
    if hour == 24 then alarmAt(days + 1, 0, 0) else alarmAt(days, hour, minute)
  }

  /**
   * `getDateInMillisecondsForAlarm(hour, minute)` at wall-clock time
   * `currentHour:currentMinute`, with the day test as the program writes it.
   * An alarm still ahead stays on the current day, but one whose hour has
   * passed while its minute is later than the current minute stays on the
   * current day as well. An hour or minute the formatted time cannot carry
   * throws.
   */
  function DateInMillisecondsForAlarm(
    hour: int, minute: int, currentHour: int, currentMinute: int, alarmAt: (nat, int, int) -> long
  ): (r: Result<long, DateTimeParseException>)
    requires 0 <= currentHour < 24 && 0 <= currentMinute < 60
    ensures r.Success? <==> (0 <= hour < 24 && 0 <= minute < 60) || (hour == 24 && minute == 0)
    ensures r.Success? && hour < 24 ==> r.value == alarmAt(
      if currentHour >= hour && currentMinute >= minute then 1 else 0, hour, minute)
    ensures r.Success? && 60 * hour + minute > 60 * currentHour + currentMinute ==>
      r.value == FireTime(0, hour, minute, alarmAt)
    ensures hour == 24 && minute == 0 ==> r == Success(alarmAt(1, 0, 0))
  {
    if !ParsableTime(hour, minute) then Failure(DateTimeParseException)
    else
      RollsOverAsWrittenIsStricter(currentHour, currentMinute, hour, minute);
      RollsOverIffNotLater(currentHour, currentMinute, hour, minute);
      Success(FireTime(if RollsOverAsWritten(currentHour, currentMinute, hour, minute) then 1 else 0, hour, minute, alarmAt))
  }

  /**
   * `getDateInMillisecondsForAlarm` with the day test its comment describes:
   * the next occurrence of `hour:minute`, today when that is later than now
   * and tomorrow otherwise.
   */
  function DateInMillisecondsForAlarmIntended(
    hour: int, minute: int, currentHour: int, currentMinute: int, alarmAt: (nat, int, int) -> long
  ): (r: Result<long, DateTimeParseException>)
    requires 0 <= currentHour < 24 && 0 <= currentMinute < 60
    ensures r.Success? <==> (0 <= hour < 24 && 0 <= minute < 60) || (hour == 24 && minute == 0)
    ensures r.Success? && hour < 24 ==> r.value == alarmAt(
      if 60 * hour + minute > 60 * currentHour + currentMinute then 0 else 1, hour, minute)
    ensures hour == 24 && minute == 0 ==> r == Success(alarmAt(1, 0, 0))
  {
    if !ParsableTime(hour, minute) then Failure(DateTimeParseException)
    else
      RollsOverIffNotLater(currentHour, currentMinute, hour, minute);
      Success(FireTime(if RollsOver(currentHour, currentMinute, hour, minute) then 1 else 0, hour, minute, alarmAt))
  }

  /**
   * The two agree except when the current hour is later than the alarm's
   * and the current minute earlier; there the program keeps the passed time
   * on the current day, where the intended test moves it to the next.
   */
  lemma {:induction false} DateInMillisecondsForAlarmAgreement(
    hour: int, minute: int, currentHour: int, currentMinute: int, alarmAt: (nat, int, int) -> long)
    requires 0 <= currentHour < 24 && 0 <= currentMinute < 60
    ensures !(currentHour > hour && currentMinute < minute) ==>
      DateInMillisecondsForAlarm(hour, minute, currentHour, currentMinute, alarmAt)
      == DateInMillisecondsForAlarmIntended(hour, minute, currentHour, currentMinute, alarmAt)
    ensures currentHour > hour >= 0 && currentMinute < minute < 60 ==>
      && DateInMillisecondsForAlarm(hour, minute, currentHour, currentMinute, alarmAt) == Success(alarmAt(0, hour, minute))
      && DateInMillisecondsForAlarmIntended(hour, minute, currentHour, currentMinute, alarmAt) == Success(alarmAt(1, hour, minute))
      && 60 * hour + minute < 60 * currentHour + currentMinute
  {
    if ParsableTime(hour, minute) {
      RollsOverIffNotLater(currentHour, currentMinute, hour, minute);
    }
  }

  /**
   * At 10:30 the program schedules an alarm for 09:45 at 09:45 today, which
   * has passed; the intended test schedules it for 09:45 tomorrow.
   */
  lemma AsWrittenSchedulesPassedAlarm(alarmAt: (nat, int, int) -> long)
    ensures DateInMillisecondsForAlarm(9, 45, 10, 30, alarmAt) == Success(alarmAt(0, 9, 45))
    ensures DateInMillisecondsForAlarmIntended(9, 45, 10, 30, alarmAt) == Success(alarmAt(1, 9, 45))
    ensures 60 * 9 + 45 < 60 * 10 + 30
  {
  }

  class AlarmClock {
    var queue: SortedPriorityQueue

    ghost predicate Valid()
      reads this, queue
    {
      queue.Valid()
    }

    constructor ()
      ensures Valid() && fresh(queue) && queue.entries == []
    {
      queue := new SortedPriorityQueue();
    }

    /**
     * `checkAlarms(currentHour, currentMinute)`: when the head alarm's hour
     * and minute are the current ones it is removed and reported as
     * activated; otherwise, and on an empty queue, nothing changes.
     */
    method CheckAlarms(currentHour: int, currentMinute: int) returns (activated: bool)
      requires Valid()
      modifies queue
      ensures Valid()
      ensures queue.entries == AfterCheck(old(queue.entries), currentHour, currentMinute)
      ensures activated <==> old(queue.entries) != [] && Due(old(queue.entries)[0].item, currentHour, currentMinute)
    {
      var empty := queue.IsEmpty();
      if empty {
        return false;
      }
      var head := queue.Head();
      var dateInMilliseconds := ParseLong(head.value.ToString()).value;
      var hour := MillisecondsToHours(dateInMilliseconds);
      var minute := MillisecondsToMinutes(dateInMilliseconds);
      activated := currentHour == hour && currentMinute == minute;
      if activated {
        var _ := queue.Remove();
      }
    }

    /**
     * `generateICalendar()`: the calendar text for the queue's priorities in
     * queue order; `format` is the date formatter applied to a fire time and
     * `datestampAt(i)` the datestamp read while the `i`-th event is written.
     */
    method GenerateICalendar(format: long -> string, datestampAt: nat -> string) returns (content: string)
      ensures content == CalendarText(Priorities(queue.entries), format, datestampAt)
    {
      var priorities := queue.GetPriorityArray();
      ghost var keys := priorities[..];
      content := Header();
      for i := 0 to priorities.Length
        invariant keys == priorities[..]
        invariant content == Header() + EventsText(keys[..i], format, datestampAt)
      {
        var event := EventText(i, priorities[i], format, datestampAt(i));
        EventsTextSnoc(keys, format, datestampAt, i);
        AppendAssociates(Header(), EventsText(keys[..i], format, datestampAt), event);
        content := content + event;
      }
      assert keys[..priorities.Length] == keys;
      content := content + Footer;
    }

    /**
     * The scan of `loadICalendar` over the file's tokens: each `DTSTART:`
     * value is parsed and, when strictly later than `now`, inserted as an
     * alarm. A value that does not parse ends the scan, reported by
     * `parseFailed`; what was inserted before it stays.
     */
    method LoadICalendar(tokens: seq<string>, parse: string -> Option<long>, now: long) returns (parseFailed: bool)
      requires Valid()
      modifies queue
      ensures Valid()
      ensures queue.entries == InsertAll(old(queue.entries), LoadedKeys(tokens, parse, now))
      ensures parseFailed <==> HasUnparsableStart(tokens, parse)
    {
      parseFailed := false;
      var i := 0;
      while i < |tokens|
        invariant 0 <= i <= |tokens|
        invariant Valid()
        invariant InsertAll(queue.entries, LoadedKeys(tokens[i..], parse, now))
          == InsertAll(old(queue.entries), LoadedKeys(tokens, parse, now))
        invariant !HasUnparsableStart(tokens[..i], parse)
      {
        var line := tokens[i];
        ghost var before := queue.entries;
        ghost var rest := LoadedKeys(tokens[i + 1..], parse, now);
        if IsDtStart(line) {
          var date := parse(line[8..]);
          if date.None? {
            assert LoadedKeys(tokens[i..], parse, now) == [];
            assert IsDtStart(tokens[i]) && parse(tokens[i][8..]).None?;
            parseFailed := true;
            break;
          }
          var dateInMilliseconds := date.value;
          LoadedKeysStep(tokens, parse, now, i);
          if dateInMilliseconds > now {
            queue.Add(Alarm(dateInMilliseconds), dateInMilliseconds);
            assert LoadedKeys(tokens[i..], parse, now) == [dateInMilliseconds] + rest;
            assert InsertAll(before, [dateInMilliseconds] + rest) == InsertAll(queue.entries, rest) by {
              assert ([dateInMilliseconds] + rest)[0] == dateInMilliseconds;
              assert ([dateInMilliseconds] + rest)[1..] == rest;
            }
          } else {
            assert LoadedKeys(tokens[i..], parse, now) == rest;
          }
        } else {
          LoadedKeysStep(tokens, parse, now, i);
          assert LoadedKeys(tokens[i..], parse, now) == rest;
        }
        NoUnparsableStartExtends(tokens, parse, i);
        i := i + 1;
      }
      if !parseFailed {
        assert tokens[..i] == tokens;
      }
    }

    /**
     * `addAlarm(hour, minute)`: insert the alarm for the fire time
     * `getDateInMillisecondsForAlarm` gives; an hour or minute the formatted
     * time cannot carry throws and leaves the queue as it is.
     */
    method AddAlarm(hour: int, minute: int, currentHour: int, currentMinute: int, alarmAt: (nat, int, int) -> long)
      returns (r: Outcome<DateTimeParseException>)
      requires Valid()
      requires 0 <= currentHour < 24 && 0 <= currentMinute < 60
      modifies queue
      ensures Valid()
      ensures r.Pass? <==> (0 <= hour < 24 && 0 <= minute < 60) || (hour == 24 && minute == 0)
      ensures queue.entries == if r.Pass?
        then InsertSorted(old(queue.entries), AlarmEntry(DateInMillisecondsForAlarm(hour, minute, currentHour, currentMinute, alarmAt).value))
        else old(queue.entries)
    {
      var date := DateInMillisecondsForAlarm(hour, minute, currentHour, currentMinute, alarmAt);
      if date.Failure? {
        return Fail(date.error);
      }
      var dateInMilliseconds := date.value;
      queue.Add(Alarm(dateInMilliseconds), dateInMilliseconds);
      r := Pass;
    }

    /** `getPriorityArray()`: the queue's priorities in queue order. */
    method GetPriorityArray() returns (a: array<long>)
      ensures fresh(a) && a[..] == Priorities(queue.entries)
    {
      a := queue.GetPriorityArray();
    }

    method IsEmpty() returns (empty: bool)
      ensures empty <==> queue.entries == []
    {
      empty := queue.IsEmpty();
    }

    /** `remove(position)`: the alarm at that rank goes; a rank that names no alarm underflows. */
    method Remove(position: int) returns (r: Outcome<QueueUnderflowException>)
      requires Valid()
      modifies queue
      ensures Valid()
      ensures r.Fail? <==> !(0 <= position < |old(queue.entries)|)
      ensures queue.entries == if r.Pass?
        then old(queue.entries)[..position] + old(queue.entries)[position + 1..]
        else old(queue.entries)
    {
      r := queue.RemoveAt(position);
    }
  }

  lemma AppendAssociates(a: string, b: string, c: string)
    ensures a + b + c == a + (b + c)
  {
  }

  lemma NoUnparsableStartExtends(tokens: seq<string>, parse: string -> Option<long>, i: nat)
    requires i < |tokens| && !HasUnparsableStart(tokens[..i], parse)
    requires !(IsDtStart(tokens[i]) && parse(tokens[i][8..]).None?)
    ensures !HasUnparsableStart(tokens[..i + 1], parse)
  {
  }

  /** One step of the scan: the keys from token `i` on are those of token `i` followed by the rest. */
  lemma LoadedKeysStep(tokens: seq<string>, parse: string -> Option<long>, now: long, i: nat)
    requires i < |tokens| && !(IsDtStart(tokens[i]) && parse(tokens[i][8..]).None?)
    ensures LoadedKeys(tokens[i..], parse, now)
      == (if IsDtStart(tokens[i]) && parse(tokens[i][8..]).value > now then [parse(tokens[i][8..]).value] else [])
         + LoadedKeys(tokens[i + 1..], parse, now)
  {
    assert tokens[i..][0] == tokens[i] && tokens[i..][1..] == tokens[i + 1..];
  }

  /** As in the unit test: an alarm due now is removed, so the next `head()` underflows. */
  method MatchingAlarmIsRemoved() returns (r: Result<Alarm, QueueUnderflowException>)
    ensures r == Failure(QueueUnderflowException)
  {
    var clock := new AlarmClock();
    clock.queue.Add(Alarm(1526832268854), 1526832268854);
    ExampleReading();
    var activated := clock.CheckAlarms(17, 4);
    r := clock.queue.Head();
  }

  /** As in the unit test: at another minute the alarm stays at the head. */
  method OtherMinuteKeepsAlarm() returns (r: Result<Alarm, QueueUnderflowException>)
    ensures r == Success(Alarm(1526832268854))
  {
    var clock := new AlarmClock();
    clock.queue.Add(Alarm(1526832268854), 1526832268854);
    ExampleReading();
    var activated := clock.CheckAlarms(17, 3);
    r := clock.queue.Head();
  }
}
