/**
 * An alarm: a value holding the alarm's fire time in milliseconds since the
 * epoch. The field is set once, by the constructor, and never changes, so the
 * class is a datatype here.
 */
module Alarms {
  import opened JavaArith
  import opened Outcomes
  import opened Decimal

  datatype Alarm = Alarm(dateInMilliseconds: long) {

    function GetDateInMilliseconds(): long {
      dateInMilliseconds
    }

    /**
     * `toString`: the decimal text of the fire time, which `Long.parseLong`
     * reads back as the same value.
     */
    function ToString(): (s: string)
      ensures ParseLong(s) == Success(dateInMilliseconds)
      ensures |s| > 0 && (s[0] == '-' <==> dateInMilliseconds < 0)
    {
      ParseLongDecimalString(dateInMilliseconds);
      DecimalStringShape(dateInMilliseconds);
      DecimalString(GetDateInMilliseconds())
    }
  }

  /** The getter returns exactly what the constructor was given. */
  lemma GetDateInMillisecondsIsConstructorArgument(ms: long)
    ensures Alarm(ms).GetDateInMilliseconds() == ms
  {
  }

  /** The rendering of the alarm the unit test builds. */
  lemma ToStringExample()
    ensures Alarm(1500000000).ToString() == "1500000000"
  {
    assert Digits(1) == "1";
    assert Digits(15) == "15";
    assert Digits(150) == "150";
    assert Digits(1500) == "1500";
    assert Digits(15000) == "15000";
    assert Digits(150000) == "150000";
    assert Digits(1500000) == "1500000";
    assert Digits(15000000) == "15000000";
    assert Digits(150000000) == "150000000";
    assert Digits(1500000000) == "1500000000";
  }
}
