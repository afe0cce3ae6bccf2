/**
 * The wall-clock reading of an alarm's fire time and the decision to fire
 * it, shared by `AlarmClock.checkAlarms` and `Model.checkAlarms` (the two
 * are written out separately in the program, with the same arithmetic).
 * The hour is taken from the whole hours since the epoch plus one, a fixed
 * offset of UTC+1, and both readings go through Java's truncating division,
 * the narrowing `(int)` cast and Java's remainder.
 */
module AlarmTime {
  import opened JavaArith
  import opened Alarms
  import opened PriorityQueues

  const MillisPerMinute: int := 60_000
  const MillisPerHour: int := 3_600_000

  /**
   * `(int) (ms / 3600000) % 24 + 1`, with 24 read as 0. For a non-negative
   * time whose hour count fits an `int` this is the hour of the day at UTC+1.
   */
  function MillisecondsToHours(ms: long): (hour: int)
    ensures -22 <= hour <= 23
    ensures 0 <= ms && ms / MillisPerHour <= IntMax ==> hour == (ms / MillisPerHour + 1) % 24
  {
    var h := Rem(ToInt(Div(ms, MillisPerHour)), 24) + 1;
    if h == 24 then 0 else h
  }

  /**
   * `(int) (ms / 60000) % 60`. For a non-negative time whose minute count
   * fits an `int` this is the number of whole minutes into the current hour.
   */
  function MillisecondsToMinutes(ms: long): (minute: int)
    ensures -59 <= minute <= 59
    ensures 0 <= ms && ms / MillisPerMinute <= IntMax ==> minute == (ms % MillisPerHour) / MillisPerMinute
  {
    var m := Rem(ToInt(Div(ms, MillisPerMinute)), 60);
    if 0 <= ms && ms / MillisPerMinute <= IntMax then
      DivRemNonNegative(ms, MillisPerMinute);
      MinuteOfHour(ms);
      m
    else m
  }

  lemma DivModUnique(n: int, b: int, k: int, u: int)
    requires b > 0 && 0 <= u < b && n == b * k + u
    ensures n / b == k && n % b == u
  {
    var k', u' := n / b, n % b;
    assert n == b * k' + u' && 0 <= u' < b;
    var x := k - k';
    assert b * x == u' - u by {
      assert b * k - b * k' == b * (k - k');
    }
  }

  /** The minute of the hour, read from the minute count, is the minute into the hour. */
  lemma MinuteOfHour(ms: nat)
    ensures (ms / MillisPerMinute) % 60 == (ms % MillisPerHour) / MillisPerMinute
    ensures (ms / MillisPerMinute) / 60 == ms / MillisPerHour
  {
    var a, r := ms / MillisPerHour, ms % MillisPerHour;
    var t, u := r / MillisPerMinute, r % MillisPerMinute;
    assert ms == MillisPerMinute * (60 * a + t) + u;
    DivModUnique(ms, MillisPerMinute, 60 * a + t, u);
    DivModUnique(60 * a + t, 60, a, t);
  }

  /** An alarm is due when its hour and minute equal the given ones. */
  predicate Due(alarm: Alarm, hour: int, minute: int) {
    MillisecondsToHours(alarm.dateInMilliseconds) == hour
    && MillisecondsToMinutes(alarm.dateInMilliseconds) == minute
  }

  /**
   * For a non-negative fire time whose minute count fits an `int`, an alarm
   * is due at `hour:minute` exactly when that is its minute of the day at
   * UTC+1.
   */
  lemma DueIsMinuteOfDay(alarm: Alarm, hour: int, minute: int)
    requires 0 <= alarm.dateInMilliseconds && alarm.dateInMilliseconds / MillisPerMinute <= IntMax
    ensures Due(alarm, hour, minute) <==>
      0 <= minute < 60 && (alarm.dateInMilliseconds / MillisPerMinute + 60) % 1440 == 60 * hour + minute
  {
    var ms := alarm.dateInMilliseconds;
    var q := ms / MillisPerMinute;
    MinuteOfHour(ms);
    var c, m := q / 60, q % 60;
    assert q == 60 * c + m;
    assert ms / MillisPerHour == c;
    assert ms / MillisPerHour <= IntMax;
    var h := (c + 1) % 24;
    var d := (c + 1) / 24;
    assert c + 1 == 24 * d + h;
    assert q + 60 == 1440 * d + (60 * h + m);
    DivModUnique(q + 60, 1440, d, 60 * h + m);
    assert MillisecondsToHours(ms) == h && MillisecondsToMinutes(ms) == m;
    if 0 <= minute < 60 && (q + 60) % 1440 == 60 * hour + minute {
      assert 0 <= 60 * hour + minute < 1440;
      assert 0 <= hour;
      DivModUnique(60 * h + m, 60, h, m);
      DivModUnique(60 * hour + minute, 60, hour, minute);
    }
  }

  /** The test's alarm, 2018-05-20 16:04:28.854 UTC, reads as 17:04. */
  lemma ExampleReading()
    ensures MillisecondsToHours(1526832268854) == 17
    ensures MillisecondsToMinutes(1526832268854) == 4
  {
    DivRemNonNegative(1526832268854, MillisPerHour);
    DivRemNonNegative(1526832268854, MillisPerMinute);
  }

  /**
   * The queue after one alarm check at `hour:minute`: the head entry is
   * dropped when it is due, and nothing else changes.
   */
  function AfterCheck(es: seq<Entry>, hour: int, minute: int): (r: seq<Entry>)
  {
    if es == [] then es
    else if Due(es[0].item, hour, minute) then es[1..]
    else es
  }

  /**
   * A check drops exactly one entry, the head, when the queue is non-empty
   * and its head is due, and otherwise leaves the queue as it was.
   */
  lemma AfterCheckDropsDueHead(es: seq<Entry>, hour: int, minute: int)
    ensures var r := AfterCheck(es, hour, minute);
      && |r| == (if es != [] && Due(es[0].item, hour, minute) then |es| - 1 else |es|)
      && r == es[|es| - |r|..]
  {
  }

  /** A check keeps the queue sorted. */
  lemma AfterCheckSorted(es: seq<Entry>, hour: int, minute: int)
    requires Sorted(es)
    ensures Sorted(AfterCheck(es, hour, minute))
  {
    if es != [] && Due(es[0].item, hour, minute) {
      RemovedAtSorted(es, 0);
      assert es[..0] + es[1..] == es[1..];
    }
  }
}
