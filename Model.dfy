/**
 * The clock's model (class `Model`): the last sampled hour, minute and
 * second, the previous minute and second, and its own queue of alarms. Each
 * `update` samples the calendar once; the sampled fields are its parameters.
 * A change of minute runs the alarm check, and a change of second notifies
 * the observers, here counted by `notifications`; `alarmChecks` counts the
 * alarm checks `update` runs.
 */
module ClockModel {
  import opened Decimal
  import opened Alarms
  import opened PriorityQueues
  import opened AlarmTime

  class Model {
    var queue: SortedPriorityQueue
    var hour: int
    var minute: int
    var second: int
    var oldSecond: int
    var oldMinute: int
    var alarmChecks: nat
    var notifications: nat

    ghost predicate Valid()
      reads this, queue
    {
      queue.Valid()
    }

    /** All fields start at 0, then one `update` runs with the first sample. */
    constructor (sampledHour: int, sampledMinute: int, sampledSecond: int)
      ensures Valid() && fresh(queue) && queue.entries == []
      ensures hour == sampledHour && minute == sampledMinute && second == sampledSecond
      ensures oldMinute == 0 && oldSecond == 0
      ensures alarmChecks == (if sampledMinute != 0 then 1 else 0)
      ensures notifications == (if sampledSecond != 0 then 1 else 0)
    {
      queue := new SortedPriorityQueue();
      hour, minute, second := 0, 0, 0;
      oldSecond, oldMinute := 0, 0;
      alarmChecks, notifications := 0, 0;
      new;
      Update(sampledHour, sampledMinute, sampledSecond);
    }

    /**
     * `update()`: take the sampled hour, minute and second, keep the previous
     * minute and second, run the alarm check against the new hour and minute
     * when the minute changed, and notify when the second changed.
     */
    method Update(sampledHour: int, sampledMinute: int, sampledSecond: int)
      requires Valid()
      modifies this, queue
      ensures Valid() && queue == old(queue)
      ensures hour == sampledHour && minute == sampledMinute && second == sampledSecond
      ensures oldMinute == old(minute) && oldSecond == old(second)
      ensures old(minute) != sampledMinute ==>
        alarmChecks == old(alarmChecks) + 1 && queue.entries == AfterCheck(old(queue.entries), sampledHour, sampledMinute)
      ensures old(minute) == sampledMinute ==> alarmChecks == old(alarmChecks) && queue.entries == old(queue.entries)
      ensures old(second) != sampledSecond ==> notifications == old(notifications) + 1
      ensures old(second) == sampledSecond ==> notifications == old(notifications)
    {
      hour := sampledHour;

      oldMinute := minute;
      minute := sampledMinute;
      if oldMinute != minute {
        var _ := CheckAlarms();
        alarmChecks := alarmChecks + 1;
      }

      oldSecond := second;
      second := sampledSecond;
      if oldSecond != second {
        notifications := notifications + 1;
      }
    }

    /**
     * `checkAlarms()`: the same check as the alarm clock's, against this
     * model's own hour and minute.
     */
    method CheckAlarms() returns (activated: bool)
      requires Valid()
      modifies queue
      ensures Valid()
      ensures queue.entries == AfterCheck(old(queue.entries), hour, minute)
      ensures activated <==> old(queue.entries) != [] && Due(old(queue.entries)[0].item, hour, minute)
    {
      var empty := queue.IsEmpty();
      if empty {
        return false;
      }
      var head := queue.Head();
      var dateInMilliseconds := ParseLong(head.value.ToString()).value;
      var hour := MillisecondsToHours(dateInMilliseconds);
      var minute := MillisecondsToMinutes(dateInMilliseconds);
      activated := this.hour == hour && this.minute == minute;
      if activated {
        var _ := queue.Remove();
      }
    }
  }
}
