/**
 * SchedulerAgent.process: classify the lower-cased text (create an event,
 * then list events, then help); to create, read a clock time with the
 * `at ...` pattern, pick a title, and append the event.
 */
module Scheduler {
  import opened Options
  import opened Text
  import opened Patterns
  import opened Sequences
  import opened Records

  const EventWords: seq<string> := ["schedule", "meeting", "appointment", "book"]
  const CalendarWords: seq<string> := ["show", "calendar", "events", "schedule"]

  /** How many events a listing shows: `limit(3)`. */
  const ListedEvents := 3

  /** The time used when the text names none: 14:00. */
  const DefaultHour := 14

  /** The am/pm rule: "p..." adds 12 unless the hour is 12, "a..." turns 12 into 0. */
  function Adjust(hour: nat, meridiem: Option<Meridiem>): nat {
    if meridiem == Some(Pm) && hour != 12 then hour + 12
    else if meridiem == Some(Am) && hour == 12 then 0
    else hour
  }

  /** The (hour, minute) of the new event. Two-digit groups bound both; 99 pm gives 111. */
  function ClockTime(lower: string): (r: (nat, nat))
    ensures r.0 < 112 && r.1 < 100
  {
    match SearchTime(lower)
    case None => (DefaultHour, 0)
    case Some(m) =>
      (Adjust(m.hour, m.meridiem), m.minute.GetOr(0))
  }

  function EventTitle(lower: string): string {
    if Contains(lower, "call") then "Call"
    else if Contains(lower, "appointment") then "Appointment"
    else "Meeting"
  }

  // ---------------------------------------------------------------------
  // f"{hour:02d}:{minute:02d}"

  function DigitChar(d: nat): (c: char)
    requires d < 10
    ensures IsDigit(c) && DigitValue(c) == d
  {
    ('0' as int + d) as char
  }

  predicate AllDigits(s: string) {
    forall i :: 0 <= i < |s| ==> IsDigit(s[i])
  }

  /** `int(s)` for a string of decimal digits. */
  function ValueOf(s: string): nat
    requires AllDigits(s)
  {
    if s == [] then 0 else 10 * ValueOf(s[..|s| - 1]) + DigitValue(s[|s| - 1])
  }

  /** `str(n)`: the decimal digits of n, without leading zeros. */
  function Decimal(n: nat): (r: string)
    ensures AllDigits(r) && ValueOf(r) == n
    ensures 1 <= |r| && (n < 10 <==> |r| == 1) && (n < 100 ==> |r| <= 2)
  {
    if n < 10 then [DigitChar(n)]
    else
      var r := Decimal(n / 10) + [DigitChar(n % 10)];
      assert r[..|r| - 1] == Decimal(n / 10);
      r
  }

  /** `f"{n:02d}"`: at least two digits, padded with a leading zero. */
  function Pad2(n: nat): (r: string)
    ensures AllDigits(r) && ValueOf(r) == n
    ensures |r| >= 2 && (n < 100 <==> |r| == 2)
  {
    if n < 10 then
      var r := "0" + Decimal(n);
      assert r[..1] == "0";
      r
    else Decimal(n)
  }

  function RenderTime(hour: nat, minute: nat): string {
    Pad2(hour) + ":" + Pad2(minute)
  }

  /** For hours and minutes below 100 the rendering is "HH:MM" and reads back as the same numbers. */
  lemma RenderTimeReadsBack(hour: nat, minute: nat)
    requires hour < 100 && minute < 100
    ensures var r := RenderTime(hour, minute);
      && |r| == 5 && r[2] == ':'
      && AllDigits(r[..2]) && ValueOf(r[..2]) == hour
      && AllDigits(r[3..]) && ValueOf(r[3..]) == minute
  {
    var r := RenderTime(hour, minute);
    assert r[..2] == Pad2(hour);
    assert r[3..] == Pad2(minute);
  }

  // ---------------------------------------------------------------------
  // Classification and the step on the events collection

  datatype ScheduleIntent = NewEvent(title: string, hour: nat, minute: nat) | ListEvents | SchedulerHelp

  function Classify(lower: string): ScheduleIntent {
    if ContainsAny(lower, EventWords) then
      var clock := ClockTime(lower);
      NewEvent(EventTitle(lower), clock.0, clock.1)
    else if ContainsAny(lower, CalendarWords) then ListEvents
    else SchedulerHelp
  }

  /**
   * The precedence, keyword by keyword. "schedule" is an event keyword, so
   * it never lists: only "show", "calendar" or "events" can. The title is
   * "Call" if the text says "call", else "Appointment" if it says
   * "appointment", else "Meeting".
   */
  lemma ClassifyPrecedence(lower: string)
    ensures Classify(lower).NewEvent? <==>
      Contains(lower, "schedule") || Contains(lower, "meeting") || Contains(lower, "appointment") || Contains(lower, "book")
    ensures Classify(lower) == ListEvents <==>
      !Classify(lower).NewEvent? && (Contains(lower, "show") || Contains(lower, "calendar") || Contains(lower, "events"))
    ensures Classify(lower).NewEvent? ==>
      && (Classify(lower).hour, Classify(lower).minute) == ClockTime(lower)
      && (Classify(lower).title == "Call" <==> Contains(lower, "call"))
      && (Classify(lower).title == "Appointment" <==> !Contains(lower, "call") && Contains(lower, "appointment"))
      && (Classify(lower).title == "Meeting" <==> !Contains(lower, "call") && !Contains(lower, "appointment"))
  {
    assert EventWords[0] == "schedule" && EventWords[1] == "meeting" && EventWords[2] == "appointment";
    assert EventWords[3] == "book";
    assert CalendarWords[0] == "show" && CalendarWords[1] == "calendar" && CalendarWords[2] == "events";
    assert CalendarWords[3] == "schedule";
  }

  /**
   * When the time pattern matches nowhere in the text, whether or not it
   * says "at", the event is set at 14:00.
   */
  lemma NoTimeDefaults(lower: string)
    requires forall j: nat :: MatchAt(lower, j).None?
    ensures ClockTime(lower) == (DefaultHour, 0)
  {
  }

  /** In particular a text without "at" gets 14:00. */
  lemma NoAtDefaults(lower: string)
    requires !Contains(lower, "at")
    ensures ClockTime(lower) == (DefaultHour, 0)
  {
    forall j: nat ensures MatchAt(lower, j).None? {
      assert !OccursAt(lower, "at", j);
    }
    NoTimeDefaults(lower);
  }

  /** "at" followed by no digit is no time either: "meeting at noon" gets 14:00. */
  lemma NoonDefaults()
    ensures ClockTime("meeting at noon") == (DefaultHour, 0)
  {
    var s := "meeting at noon";
    forall j: nat ensures MatchAt(s, j).None? {
      if OccursAt(s, "at", j) {
        assert s[j] == s[j..j + 2][0] == 'a';
        assert j == 8;
        assert SkipSpaces(s, 10) == 11;
      }
    }
    NoTimeDefaults(s);
  }

  /** The conventional reading of a 12-hour time (1-12 with am/pm) or a 24-hour time (no suffix). */
  function To24(hour: nat, meridiem: Option<Meridiem>): nat {
    match meridiem
    case None => hour
    case Some(Am) => hour % 12
    case Some(Pm) => hour % 12 + 12
  }

  function MeridiemText(meridiem: Option<Meridiem>): string {
    match meridiem
    case None => ""
    case Some(Am) => " am"
    case Some(Pm) => " pm"
  }

  function MinuteText(minute: Option<nat>): string {
    match minute
    case None => ""
    case Some(m) => ":" + Pad2(m)
  }

  /** A time as people write it: "at 9", "at 12 am", "at 3:30 pm". */
  function Phrase(hour: nat, minute: Option<nat>, meridiem: Option<Meridiem>): string {
    "at " + Decimal(hour) + MinuteText(minute) + MeridiemText(meridiem)
  }

  /** Every character after the hour digits of a phrase is a colon or a space, never a digit. */
  lemma SuffixStartsWithSeparator(minute: Option<nat>, meridiem: Option<Meridiem>)
    ensures var rest := MinuteText(minute) + MeridiemText(meridiem);
      rest != [] ==> rest[0] == ':' || rest[0] == ' '
  {
  }

  /** After "at " come one or two digits and then no digit: the hour group is exactly those digits. */
  lemma HourDigits(d: string, rest: string)
    requires 1 <= |d| <= 2 && AllDigits(d)
    requires rest != [] ==> !IsDigit(rest[0])
    ensures var t := "at " + d + rest;
      && SkipSpaces(t, 2) == 3 && IsDigit(t[3])
      && HourEnd(t, 3) == 3 + |d| && HourValue(t, 3) == ValueOf(d)
  {
    var t := "at " + d + rest;
    assert t[2] == ' ' && t[3] == d[0];
    assert SkipSpaces(t, 3) == 3;
    if |d| == 2 {
      assert t[4] == d[1];
      assert d[..1] == [d[0]];
    } else if 4 < |t| {
      assert t[4] == rest[0];
    }
  }

  lemma PhraseHour(hour: nat, minute: Option<nat>, meridiem: Option<Meridiem>)
    requires hour < 100
    requires minute.Some? ==> minute.value < 100
    ensures var t := Phrase(hour, minute, meridiem);
      && SkipSpaces(t, 2) == 3 && IsDigit(t[3])
      && HourEnd(t, 3) == 3 + |Decimal(hour)| && HourValue(t, 3) == hour
  {
    var rest := MinuteText(minute) + MeridiemText(meridiem);
    assert Phrase(hour, minute, meridiem) == "at " + Decimal(hour) + rest;
    SuffixStartsWithSeparator(minute, meridiem);
    HourDigits(Decimal(hour), rest);
  }

  /** The minute text, followed by text not starting with a colon, reads back as the minute group. */
  lemma MinuteTextReads(minute: Option<nat>, tail: string)
    requires minute.Some? ==> minute.value < 100
    requires tail != [] ==> tail[0] != ':'
    ensures MinuteValue(MinuteText(minute) + tail, 0) == minute
  {
    var rest := MinuteText(minute) + tail;
    if minute.Some? {
      var m := Pad2(minute.value);
      assert rest == ":" + m + tail;
      assert rest[0] == ':' && rest[1] == m[0] && rest[2] == m[1];
      assert m[..1] == [m[0]];
    } else {
      assert rest == tail;
    }
  }

  lemma PhraseMinute(hour: nat, minute: Option<nat>, meridiem: Option<Meridiem>)
    requires hour < 100
    requires minute.Some? ==> minute.value < 100
    ensures var t := Phrase(hour, minute, meridiem);
      MinuteValue(t, 3 + |Decimal(hour)|) == minute
  {
    var pre := "at " + Decimal(hour);
    var rest := MinuteText(minute) + MeridiemText(meridiem);
    assert Phrase(hour, minute, meridiem) == pre + rest;
    MinuteShift(pre, rest, 0);
    MinuteTextReads(minute, MeridiemText(meridiem));
  }

  lemma PhraseMeridiem(hour: nat, minute: Option<nat>, meridiem: Option<Meridiem>)
    requires hour < 100
    requires minute.Some? ==> minute.value < 100
    ensures var t := Phrase(hour, minute, meridiem);
      var q := 3 + |Decimal(hour)| + |MinuteText(minute)|;
      q <= |t| && MeridiemAt(t, SkipSpaces(t, q)) == meridiem
  {
    var pre := "at " + Decimal(hour) + MinuteText(minute);
    var x := MeridiemText(meridiem);
    var t := Phrase(hour, minute, meridiem);
    assert t == pre + x;
    assert |pre| == 3 + |Decimal(hour)| + |MinuteText(minute)|;
    SkipSpacesShift(pre, x, 0);
    var k := MeridiemTextReads(meridiem);
    assert SkipSpaces(t, |pre|) == |pre| + k;
    MeridiemShift(pre, x, k);
  }

  /** The suffix " am" / " pm" skips one space and then reads as its meridiem; no suffix reads as none. */
  lemma MeridiemTextReads(meridiem: Option<Meridiem>) returns (k: nat)
    ensures k <= |MeridiemText(meridiem)|
    ensures SkipSpaces(MeridiemText(meridiem), 0) == k
    ensures MeridiemAt(MeridiemText(meridiem), k) == meridiem
  {
    var x := MeridiemText(meridiem);
    if meridiem.Some? {
      k := 1;
      assert x[0] == ' ' && !IsSpace(x[1]);
      assert SkipSpaces(x, 1) == 1;
    } else {
      k := 0;
    }
  }

  /** The regular expression captures exactly the groups of a written time. */
  lemma PhraseMatches(hour: nat, minute: Option<nat>, meridiem: Option<Meridiem>)
    requires hour < 100
    requires minute.Some? ==> minute.value < 100
    ensures MatchAt(Phrase(hour, minute, meridiem), 0) == Some(TimeMatch(hour, minute, meridiem))
  {
    var t := Phrase(hour, minute, meridiem);
    assert t[0] == 'a' && t[1] == 't';
    PhraseHour(hour, minute, meridiem);
    PhraseMinute(hour, minute, meridiem);
    PhraseMeridiem(hour, minute, meridiem);
    var p := 3 + |Decimal(hour)|;
    assert (if minute.Some? then p + 3 else p) == p + |MinuteText(minute)|;
  }

  /**
   * Extraction agrees with the conventional 12-hour to 24-hour conversion:
   * a time written after text holding no "a" gives the hour To24 gives,
   * "12 am" reads as 0, "12 pm" as 12, a missing minute as 0.
   */
  lemma ClockOfPhrase(pre: string, hour: nat, minute: Option<nat>, meridiem: Option<Meridiem>)
    requires 'a' !in pre
    requires if meridiem.Some? then 1 <= hour <= 12 else hour < 24
    requires minute.Some? ==> minute.value < 60
    ensures ClockTime(pre + Phrase(hour, minute, meridiem)) == (To24(hour, meridiem), minute.GetOr(0))
  {
    var t := Phrase(hour, minute, meridiem);
    var s := pre + t;
    PhraseMatches(hour, minute, meridiem);
    MatchAtShift(pre, t, 0);
    forall j: nat | j < |pre| ensures MatchAt(s, j).None? {
      assert s[j] == pre[j] != 'a';
    }
    SearchFindsFirst(s, |pre|);
    assert SearchTime(s) == Some(TimeMatch(hour, minute, meridiem));
    AdjustIsTo24(hour, meridiem);
  }

  lemma AdjustIsTo24(hour: nat, meridiem: Option<Meridiem>)
    requires meridiem.Some? ==> 1 <= hour <= 12
    ensures Adjust(hour, meridiem) == To24(hour, meridiem)
  {
    if hour == 12 {
      assert hour % 12 == 0;
    } else if meridiem.Some? {
      assert hour % 12 == hour;
    }
  }

  /** One classified command applied to the events collection: the new collection and the reply. */
  function Apply(events: seq<Event>, intent: ScheduleIntent, id: string, at: Stamp, tomorrow: string): (seq<Event>, Reply) {
    match intent
    case NewEvent(title, hour, minute) =>
      var e := Event(id, title, RenderTime(hour, minute), tomorrow, at.shown, at.instant);
      (events + [e], EventCreated(e, |events| + 1))
    case ListEvents =>
      if events == [] then (events, NoEvents)
      else (events, EventsListed(NewestFirst(events, ListedEvents), |events|))
    case SchedulerHelp =>
      (events, Help)
  }

  /** SchedulerAgent.process on the events collection. */
  function Step(events: seq<Event>, text: string, id: string, at: Stamp, tomorrow: string): (seq<Event>, Reply) {
    Apply(events, Classify(Lower(text)), id, at, tomorrow)
  }

  /**
   * Creating appends one event dated tomorrow, at the extracted time, with
   * the chosen title.
   */
  lemma StepCreates(events: seq<Event>, text: string, id: string, at: Stamp, tomorrow: string)
    requires Classify(Lower(text)).NewEvent?
    ensures var lower := Lower(text);
      var clock := ClockTime(lower);
      var e := Event(id, EventTitle(lower), RenderTime(clock.0, clock.1), tomorrow, at.shown, at.instant);
      Step(events, text, id, at, tomorrow) == (events + [e], EventCreated(e, |events| + 1))
  {
    var lower := Lower(text);
    var clock := ClockTime(lower);
    assert Classify(lower) == NewEvent(EventTitle(lower), clock.0, clock.1);
  }

  /** Listing and help leave the events as they were. */
  lemma ReadOnlyEffect(events: seq<Event>, intent: ScheduleIntent, id: string, at: Stamp, tomorrow: string)
    requires !intent.NewEvent?
    ensures var (after, reply) := Apply(events, intent, id, at, tomorrow);
      && after == events
      && ActionTag(reply) == (if intent == SchedulerHelp then HelpTag else if events == [] then ListEmptyTag else ListEventsTag)
  {
  }

  /** A listing shows the three newest events, newest first, with the number of events. */
  lemma ListingShowsNewest(events: seq<Event>, id: string, at: Stamp, tomorrow: string)
    requires events != []
    ensures var reply := Apply(events, ListEvents, id, at, tomorrow).1;
      && reply.EventsListed?
      && |reply.upcoming| == Min(ListedEvents, |events|)
      && (forall i :: 0 <= i < |reply.upcoming| ==> reply.upcoming[i] == events[|events| - 1 - i])
      && reply.total == |events|
  {
    var upcoming := NewestFirst(events, ListedEvents);
    assert Apply(events, ListEvents, id, at, tomorrow).1 == EventsListed(upcoming, |events|);
  }
}
