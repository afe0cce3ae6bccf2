/**
 * The iCalendar text the alarm clock writes and the part of it that it reads
 * back. The text is one VCALENDAR object (section 3.4 of RFC 5545) holding
 * one VEVENT component (section 3.6.1) per alarm, built from CRLF-delimited
 * content lines (section 3.1). The date formatter (the pattern
 * `yyyyMMdd'T'HHmmss` applied in the default time zone) and the current
 * datestamp are not modelled: they are parameters. The program appends `Z`,
 * the UTC marker of section 3.3.5, to the locally formatted time, and so
 * does this model.
 */
module ICalendar {
  import opened JavaArith
  import opened Outcomes
  import opened Decimal

  const Crlf: string := "\r\n"
  const Footer: string := "END:VCALENDAR"
  const DtStartPrefix: string := "DTSTART:"

  function Header(): string {
    "BEGIN:VCALENDAR\r\n" + "VERSION:2.0\r\n" + "PRODID:Alarm Clock\r\n"
  }

  /** The text appended for the alarm at index `uid`, whose fire time is `key`. */
  function EventText(uid: nat, key: long, format: long -> string, datestamp: string): string {
    "BEGIN:VEVENT" + Crlf + "UID:" + DecimalString(uid) + Crlf
    + "DTSTAMP:" + datestamp + "Z" + Crlf
    + "DTSTART:" + format(key) + "Z" + Crlf
    + "DTEND:" + format(key) + "Z" + Crlf
    + "END:VEVENT" + Crlf
  }

  /**
   * The events for the exported keys, in export order; `datestampAt(i)` is
   * the datestamp read while the `i`-th event is written.
   */
  function EventsText(keys: seq<long>, format: long -> string, datestampAt: nat -> string): string {
    if keys == [] then ""
    else
      var n := |keys| - 1;
      EventsText(keys[..n], format, datestampAt) + EventText(n, keys[n], format, datestampAt(n))
  }

  lemma EventsTextSnoc(keys: seq<long>, format: long -> string, datestampAt: nat -> string, i: nat)
    requires i < |keys|
    ensures EventsText(keys[..i + 1], format, datestampAt)
      == EventsText(keys[..i], format, datestampAt) + EventText(i, keys[i], format, datestampAt(i))
  {
    assert keys[..i + 1][..i] == keys[..i];
  }

  /** What `generateICalendar` returns for the exported keys. */
  function CalendarText(keys: seq<long>, format: long -> string, datestampAt: nat -> string): string {
    Header() + EventsText(keys, format, datestampAt) + Footer
  }

  // The same text, described line by line.

  /** Each line followed by CRLF. */
  function Terminated(lines: seq<string>): string {
    if lines == [] then "" else lines[0] + Crlf + Terminated(lines[1..])
  }

  /** The lines separated by CRLF, with no CRLF after the last one. */
  function JoinCrlf(lines: seq<string>): string {
    if lines == [] then "" else Terminated(lines[..|lines| - 1]) + lines[|lines| - 1]
  }

  function EventLines(uid: nat, key: long, format: long -> string, datestamp: string): (lines: seq<string>)
    ensures |lines| == 6
  {
    [ "BEGIN:VEVENT",
      "UID:" + DecimalString(uid),
      "DTSTAMP:" + datestamp + "Z",
      "DTSTART:" + format(key) + "Z",
      "DTEND:" + format(key) + "Z",
      "END:VEVENT" ]
  }

  function AllEventLines(keys: seq<long>, format: long -> string, datestampAt: nat -> string): seq<string> {
    if keys == [] then []
    else
      var n := |keys| - 1;
      AllEventLines(keys[..n], format, datestampAt) + EventLines(n, keys[n], format, datestampAt(n))
  }

  function CalendarLines(keys: seq<long>, format: long -> string, datestampAt: nat -> string): seq<string> {
    ["BEGIN:VCALENDAR", "VERSION:2.0", "PRODID:Alarm Clock"]
    + AllEventLines(keys, format, datestampAt)
    + [Footer]
  }

  lemma {:induction false} TerminatedAppend(a: seq<string>, b: seq<string>)
    ensures Terminated(a + b) == Terminated(a) + Terminated(b)
    decreases |a|
  {
    if a == [] {
      assert a + b == b;
    } else {
      assert (a + b)[0] == a[0] && (a + b)[1..] == a[1..] + b;
      TerminatedAppend(a[1..], b);
    }
  }

  lemma TerminatedCons(line: string, rest: seq<string>)
    ensures Terminated([line] + rest) == line + Crlf + Terminated(rest)
  {
    assert ([line] + rest)[1..] == rest;
  }

  /** Regrouping the pieces of an event's text into its six CRLF-terminated lines. */
  lemma RegroupEventText(begin: string, crlf: string, uidName: string, uid: string, stampName: string, stamp: string,
                         z: string, startName: string, time: string, endName: string, finish: string)
    ensures begin + crlf + uidName + uid + crlf + stampName + stamp + z + crlf + startName + time + z + crlf
        + endName + time + z + crlf + finish + crlf
      == begin + crlf + ((uidName + uid) + crlf + ((stampName + stamp + z) + crlf + ((startName + time + z) + crlf
        + ((endName + time + z) + crlf + (finish + crlf + "")))))
  {
  }

  lemma {:induction false} EventTextIsTerminatedLines(uid: nat, key: long, format: long -> string, datestamp: string)
    ensures EventText(uid, key, format, datestamp) == Terminated(EventLines(uid, key, format, datestamp))
  {
    var l0, l1, l2 := "BEGIN:VEVENT", "UID:" + DecimalString(uid), "DTSTAMP:" + datestamp + "Z";
    var l3, l4, l5 := "DTSTART:" + format(key) + "Z", "DTEND:" + format(key) + "Z", "END:VEVENT";
    RegroupEventText(l0, Crlf, "UID:", DecimalString(uid), "DTSTAMP:", datestamp, "Z", "DTSTART:", format(key), "DTEND:", "END:VEVENT");
    var t6: seq<string> := [];
    var t5 := [l5] + t6;
    var t4 := [l4] + t5;
    var t3 := [l3] + t4;
    var t2 := [l2] + t3;
    var t1 := [l1] + t2;
    assert EventLines(uid, key, format, datestamp) == [l0] + t1;
    TerminatedCons(l5, t6);
    TerminatedCons(l4, t5);
    TerminatedCons(l3, t4);
    TerminatedCons(l2, t3);
    TerminatedCons(l1, t2);
    TerminatedCons(l0, t1);
  }

  lemma {:induction false} EventsTextIsTerminatedLines(keys: seq<long>, format: long -> string, datestampAt: nat -> string)
    ensures EventsText(keys, format, datestampAt) == Terminated(AllEventLines(keys, format, datestampAt))
    decreases |keys|
  {
    if keys != [] {
      var n := |keys| - 1;
      EventsTextIsTerminatedLines(keys[..n], format, datestampAt);
      EventTextIsTerminatedLines(n, keys[n], format, datestampAt(n));
      TerminatedAppend(AllEventLines(keys[..n], format, datestampAt), EventLines(n, keys[n], format, datestampAt(n)));
    }
  }

  /**
   * The generated text is its content lines separated by CRLF: the three
   * header lines, the event lines, and `END:VCALENDAR` with no CRLF after it.
   */
  lemma CalendarTextIsJoinedLines(keys: seq<long>, format: long -> string, datestampAt: nat -> string)
    ensures CalendarText(keys, format, datestampAt) == JoinCrlf(CalendarLines(keys, format, datestampAt))
  {
    var head := ["BEGIN:VCALENDAR", "VERSION:2.0", "PRODID:Alarm Clock"];
    var events := AllEventLines(keys, format, datestampAt);
    var lines := CalendarLines(keys, format, datestampAt);
    assert lines[..|lines| - 1] == head + events;
    assert lines[|lines| - 1] == Footer;
    TerminatedAppend(head, events);
    assert Terminated(head) == Header() by {
      assert head[1..] == ["VERSION:2.0", "PRODID:Alarm Clock"];
      assert head[1..][1..] == ["PRODID:Alarm Clock"];
      assert head[1..][1..][1..] == [];
    }
    EventsTextIsTerminatedLines(keys, format, datestampAt);
  }

  /** The `k`-th block of six event lines is the event of the `k`-th key. */
  lemma {:induction false} AllEventLinesAt(keys: seq<long>, format: long -> string, datestampAt: nat -> string, k: nat, j: nat)
    requires k < |keys| && j < 6
    ensures |AllEventLines(keys, format, datestampAt)| == 6 * |keys|
    ensures AllEventLines(keys, format, datestampAt)[6 * k + j] == EventLines(k, keys[k], format, datestampAt(k))[j]
    decreases |keys|
  {
    var n := |keys| - 1;
    if k < n {
      AllEventLinesAt(keys[..n], format, datestampAt, k, j);
    } else if n > 0 {
      AllEventLinesAt(keys[..n], format, datestampAt, 0, 0);
    }
  }

  lemma CalendarLineAt(keys: seq<long>, format: long -> string, datestampAt: nat -> string, k: nat, j: nat)
    requires k < |keys| && j < 6
    ensures |CalendarLines(keys, format, datestampAt)| == 6 * |keys| + 4
    ensures CalendarLines(keys, format, datestampAt)[3 + 6 * k + j] == EventLines(k, keys[k], format, datestampAt(k))[j]
  {
    AllEventLinesAt(keys, format, datestampAt, k, j);
  }

  /**
   * The shape of the generated calendar: three header lines, then six lines
   * per exported key in export order, with `UID:k` for the `k`-th key and the
   * same formatted time after `DTSTART:` and `DTEND:`, then `END:VCALENDAR`.
   */
  lemma CalendarLinesShape(keys: seq<long>, format: long -> string, datestampAt: nat -> string, k: nat)
    requires k < |keys|
    ensures var lines := CalendarLines(keys, format, datestampAt);
      && |lines| == 6 * |keys| + 4
      && lines[..3] == ["BEGIN:VCALENDAR", "VERSION:2.0", "PRODID:Alarm Clock"]
      && lines[|lines| - 1] == "END:VCALENDAR"
      && lines[3 + 6 * k] == "BEGIN:VEVENT"
      && lines[3 + 6 * k + 1] == "UID:" + DecimalString(k)
      && lines[3 + 6 * k + 2] == "DTSTAMP:" + datestampAt(k) + "Z"
      && lines[3 + 6 * k + 3] == "DTSTART:" + format(keys[k]) + "Z"
      && lines[3 + 6 * k + 4] == "DTEND:" + format(keys[k]) + "Z"
      && lines[3 + 6 * k + 5] == "END:VEVENT"
  {
    CalendarLineAt(keys, format, datestampAt, k, 0);
    CalendarLineAt(keys, format, datestampAt, k, 1);
    CalendarLineAt(keys, format, datestampAt, k, 2);
    CalendarLineAt(keys, format, datestampAt, k, 3);
    CalendarLineAt(keys, format, datestampAt, k, 4);
    CalendarLineAt(keys, format, datestampAt, k, 5);
  }

  /** With no alarms the calendar is the header followed by `END:VCALENDAR`. */
  lemma EmptyCalendarText(format: long -> string, datestampAt: nat -> string)
    ensures CalendarText([], format, datestampAt)
      == "BEGIN:VCALENDAR\r\n" + "VERSION:2.0\r\n" + "PRODID:Alarm Clock\r\n" + "END:VCALENDAR"
  {
    assert EventsText([], format, datestampAt) == "";
  }

  /** The unit test's expected text for a single alarm, formatter and datestamp left abstract. */
  lemma OneAlarmCalendarText(key: long, format: long -> string, datestampAt: nat -> string)
    ensures CalendarText([key], format, datestampAt)
      == "BEGIN:VCALENDAR\r\n" + "VERSION:2.0\r\n" + "PRODID:Alarm Clock\r\n"
      + "BEGIN:VEVENT\r\n" + "UID:0\r\n"
      + "DTSTAMP:" + datestampAt(0) + "Z\r\n"
      + "DTSTART:" + format(key) + "Z\r\n"
      + "DTEND:" + format(key) + "Z\r\n"
      + "END:VEVENT\r\n" + "END:VCALENDAR"
  {
    assert EventsText([key], format, datestampAt) == EventText(0, key, format, datestampAt(0)) by {
      assert [key][..0] == [];
    }
    FirstEventText(key, format, datestampAt(0));
    RegroupCalendar(Header(), "BEGIN:VEVENT\r\n", "UID:0\r\n", "DTSTAMP:", datestampAt(0), "Z\r\n",
      "DTSTART:", format(key), "DTEND:", "END:VEVENT\r\n", Footer);
  }

  /** Regrouping a calendar that holds one event. */
  lemma RegroupCalendar(header: string, begin: string, uid: string, stampName: string, stamp: string, z: string,
                        startName: string, time: string, endName: string, finish: string, footer: string)
    ensures header + (begin + uid + stampName + stamp + z + startName + time + z + endName + time + z + finish) + footer
      == header + begin + uid + stampName + stamp + z + startName + time + z + endName + time + z + finish + footer
  {
  }

  lemma FirstEventText(key: long, format: long -> string, datestamp: string)
    ensures EventText(0, key, format, datestamp)
      == "BEGIN:VEVENT\r\n" + "UID:0\r\n"
      + "DTSTAMP:" + datestamp + "Z\r\n"
      + "DTSTART:" + format(key) + "Z\r\n"
      + "DTEND:" + format(key) + "Z\r\n"
      + "END:VEVENT\r\n"
  {
    assert DecimalString(0) == "0";
    RegroupEventLines("BEGIN:VEVENT", Crlf, "UID:", "0", "DTSTAMP:", datestamp, "Z", "DTSTART:", format(key), "DTEND:", "END:VEVENT");
    assert "BEGIN:VEVENT" + Crlf == "BEGIN:VEVENT\r\n";
    assert "UID:" + "0" + Crlf == "UID:0\r\n";
    assert "Z" + Crlf == "Z\r\n";
    assert "END:VEVENT" + Crlf == "END:VEVENT\r\n";
  }

  /** Regrouping the pieces of an event's text so that each CRLF joins the piece before it. */
  lemma RegroupEventLines(begin: string, crlf: string, uidName: string, uid: string, stampName: string, stamp: string,
                          z: string, startName: string, time: string, endName: string, finish: string)
    ensures begin + crlf + uidName + uid + crlf + stampName + stamp + z + crlf + startName + time + z + crlf
        + endName + time + z + crlf + finish + crlf
      == (begin + crlf) + (uidName + uid + crlf) + stampName + stamp + (z + crlf) + startName + time + (z + crlf)
        + endName + time + (z + crlf) + (finish + crlf)
  {
  }

  // Reading a calendar back.

  predicate IsDtStart(token: string) {
    |token| >= |DtStartPrefix| && token[..|DtStartPrefix|] == DtStartPrefix
  }

  /** Some DTSTART token has a value that does not parse, which ends the scan. */
  predicate HasUnparsableStart(tokens: seq<string>, parse: string -> Option<long>) {
    exists i :: 0 <= i < |tokens| && IsDtStart(tokens[i]) && parse(tokens[i][8..]).None?
  }

  /**
   * The fire times `loadICalendar` inserts, in file order: the value after
   * each `DTSTART:` token, when it is strictly later than `now`. `parse`
   * stands for the date formatter's parse followed by `getTime`, with `None`
   * for its `ParseException`, which ends the scan.
   */
  function LoadedKeys(tokens: seq<string>, parse: string -> Option<long>, now: long): seq<long> {
    if tokens == [] then []
    else if IsDtStart(tokens[0]) then
      match parse(tokens[0][8..])
      case None => []
      case Some(ms) => (if ms > now then [ms] else []) + LoadedKeys(tokens[1..], parse, now)
    else LoadedKeys(tokens[1..], parse, now)
  }

  /** Every loaded key is strictly later than the load time and is the value of some DTSTART token. */
  lemma {:induction false} LoadedKeysSound(tokens: seq<string>, parse: string -> Option<long>, now: long, k: nat)
    requires k < |LoadedKeys(tokens, parse, now)|
    ensures LoadedKeys(tokens, parse, now)[k] > now
    ensures exists i :: (0 <= i < |tokens| && IsDtStart(tokens[i])
      && parse(tokens[i][8..]) == Some(LoadedKeys(tokens, parse, now)[k]))
  {
    var keys := LoadedKeys(tokens, parse, now);
    var rest := LoadedKeys(tokens[1..], parse, now);
    if IsDtStart(tokens[0]) && parse(tokens[0][8..]).Some? && parse(tokens[0][8..]).value > now {
      if k == 0 {
        assert IsDtStart(tokens[0]);
      } else {
        LoadedKeysSound(tokens[1..], parse, now, k - 1);
        var i :| 0 <= i < |tokens[1..]| && IsDtStart(tokens[1..][i]) && parse(tokens[1..][i][8..]) == Some(rest[k - 1]);
        assert tokens[i + 1] == tokens[1..][i];
      }
    } else {
      LoadedKeysSound(tokens[1..], parse, now, k);
      var i :| 0 <= i < |tokens[1..]| && IsDtStart(tokens[1..][i]) && parse(tokens[1..][i][8..]) == Some(rest[k]);
      assert tokens[i + 1] == tokens[1..][i];
    }
  }

  /**
   * Loading a file scans it in order: the keys of two consecutive stretches
   * of tokens are those of the first followed by those of the second, unless
   * the first holds a value that does not parse, in which case the scan stops
   * there and the second stretch adds nothing.
   */
  lemma {:induction false} LoadedKeysAppend(a: seq<string>, b: seq<string>, parse: string -> Option<long>, now: long)
    ensures LoadedKeys(a + b, parse, now) ==
      if HasUnparsableStart(a, parse) then LoadedKeys(a, parse, now)
      else LoadedKeys(a, parse, now) + LoadedKeys(b, parse, now)
    decreases |a|
  {
    if a == [] {
      assert a + b == b;
      assert !HasUnparsableStart(a, parse);
    } else {
      var t := a[0];
      assert (a + b)[0] == t && (a + b)[1..] == a[1..] + b;
      HasUnparsableStartCons(a, parse);
      if !(IsDtStart(t) && parse(t[8..]).None?) {
        LoadedKeysAppend(a[1..], b, parse, now);
      }
    }
  }

  /** A non-empty stretch has an unparsable start at its first token or in the rest. */
  lemma HasUnparsableStartCons(a: seq<string>, parse: string -> Option<long>)
    requires a != []
    ensures HasUnparsableStart(a, parse) <==>
      (IsDtStart(a[0]) && parse(a[0][8..]).None?) || HasUnparsableStart(a[1..], parse)
  {
    if HasUnparsableStart(a[1..], parse) {
      var i :| 0 <= i < |a[1..]| && IsDtStart(a[1..][i]) && parse(a[1..][i][8..]).None?;
      assert a[i + 1] == a[1..][i];
    }
    if HasUnparsableStart(a, parse) && !(IsDtStart(a[0]) && parse(a[0][8..]).None?) {
      var i :| 0 <= i < |a| && IsDtStart(a[i]) && parse(a[i][8..]).None?;
      assert i > 0 && a[1..][i - 1] == a[i];
    }
  }
}
