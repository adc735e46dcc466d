/**
 * The timetable entities and the values derived from a slot for display:
 * printable start and end times, the offset of the start from 08:00 and
 * the duration, all in minutes.
 */
module Timetable {
  import opened Rules
  import opened Palette

  /**
   * One scheduled occurrence of an activity. `id` is the id of the owning
   * activity; it stands for the Go `Slot.Activity` pointer.
   * `day` indexes Monday (0) to Friday (4).
   */
  datatype Slot = Slot(id: string, icon: string, location: string, day: nat, start: string, end: string)

  /** A named, coloured activity and its slots in the order they were declared. */
  datatype Activity = Activity(id: string, name: string, color: Color, slots: seq<Slot>)

  type Activities = map<string, Activity>

  /** A slot as the slot rule admits it: its fields in the rule's classes, a day bucket, checked times. */
  predicate ValidSlot(s: Slot)
  {
    && IsId(s.id) && IsIcon(s.icon) && IsLocation(s.location)
    && s.day < 5 && IsStartTime(s.start) && IsEndTime(s.end)
  }

  /** Each activity is stored under its own id and holds only valid slots that point back to it. */
  predicate WellFormed(activities: Activities)
  {
    forall k :: k in activities ==>
      && activities[k].id == k
      && forall s :: s in activities[k].slots ==> s.id == k && ValidSlot(s)
  }

  /** Day tokens of the slot rule and the bucket each stands for. */
  const BuiltInDays: map<string, nat> := map[
    "MON" := 0, "TUE" := 1, "WED" := 2, "THU" := 3, "FRI" := 4,
    "01" := 0, "02" := 1, "03" := 2, "04" := 3, "05" := 4
  ]

  /**
   * Every day token the slot rule accepts is a key of the day table and
   * names one of the five buckets, so the day lookup of a matched slot line
   * never fails. The weekday name and the two-digit code of a day agree.
   */
  lemma DayTokensKnown()
    ensures BuiltInDays.Keys == DayTokens
    ensures forall t :: t in BuiltInDays ==> BuiltInDays[t] < 5
    ensures BuiltInDays["MON"] == BuiltInDays["01"] == 0
    ensures BuiltInDays["TUE"] == BuiltInDays["02"] == 1
    ensures BuiltInDays["WED"] == BuiltInDays["03"] == 2
    ensures BuiltInDays["THU"] == BuiltInDays["04"] == 3
    ensures BuiltInDays["FRI"] == BuiltInDays["05"] == 4
  {
  }

  function DigitValue(c: char): int
    requires IsDigit(c)
  {
    c as int - '0' as int
  }

  /**
   * Decimal conversion of a two-character string, an optional sign then
   * digits; a string that is not a number converts to 0, the value that
   * `strconv.Atoi` returns with its error, which the Go code ignores.
   */
  function Atoi2(s: string): int
    requires |s| == 2
  {
    if IsDigit(s[0]) && IsDigit(s[1]) then 10 * DigitValue(s[0]) + DigitValue(s[1])
    else if s[0] == '+' && IsDigit(s[1]) then DigitValue(s[1])
    else if s[0] == '-' && IsDigit(s[1]) then -DigitValue(s[1])
    else 0
  }

  /** Minutes since midnight of an `HHMM` text (its first four characters). */
  function ClockMinutes(t: string): int
    requires |t| >= 4
  {
    Atoi2(t[0..2]) * 60 + Atoi2(t[2..4])
  }

  /** `HH:MM` from the first four characters of `t`. */
  function Printable(t: string): string
    requires |t| >= 4
  {
    t[0..2] + ":" + t[2..4]
  }

  /** The start time as `HH:MM`: the four digits with a colon after the hours. */
  function StartPrintable(s: Slot): (r: string)
    requires |s.start| >= 4
    ensures |r| == 5 && r[2] == ':' && r[..2] + r[3..] == s.start[..4]
  {
    var r := Printable(s.start);
    assert r[..2] + r[3..] == s.start[..4];
    r
  }

  /** The end time as `HH:MM`: the four digits with a colon after the hours. */
  function EndPrintable(s: Slot): (r: string)
    requires |s.end| >= 4
    ensures |r| == 5 && r[2] == ':' && r[..2] + r[3..] == s.end[..4]
  {
    var r := Printable(s.end);
    assert r[..2] + r[3..] == s.end[..4];
    r
  }

  /** Minutes from 08:00 to the start; negative for a start before 08:00. */
  function StartDelay(s: Slot): int
    requires |s.start| >= 4
  {
    ClockMinutes(s.start) - (8 * 60 + 0)
  }

  /** Minutes from the start to the end; not required to be positive. */
  function Duration(s: Slot): int
    requires |s.start| >= 4 && |s.end| >= 4
  {
    ClockMinutes(s.end) - ClockMinutes(s.start)
  }

  /** The name of the activity the slot belongs to. */
  function ActivityName(s: Slot, activities: Activities): string
    requires s.id in activities
  {
    activities[s.id].name
  }

  /** Four digits whose minutes digit is at most 5: what both time rules accept. */
  predicate IsClockText(t: string)
  {
    |t| == 4 && IsDigit(t[0]) && IsDigit(t[1]) && '0' <= t[2] <= '5' && IsDigit(t[3])
  }

  /** `a` comes strictly before `b` comparing digit by digit from the left. */
  predicate Earlier(a: string, b: string)
    requires |a| == 4 && |b| == 4
  {
    || a[0] < b[0]
    || (a[0] == b[0] && a[1] < b[1])
    || (a[0] == b[0] && a[1] == b[1] && a[2] < b[2])
    || (a[0] == b[0] && a[1] == b[1] && a[2] == b[2] && a[3] < b[3])
  }

  lemma TimeRulesAreClockTexts(t: string)
    ensures IsStartTime(t) ==> IsClockText(t)
    ensures IsEndTime(t) ==> IsClockText(t)
  {
  }

  /** On a clock text the conversion reads the hours and the minutes as decimal numbers. */
  lemma ClockDigits(t: string)
    requires IsClockText(t)
    ensures ClockMinutes(t) == 600 * DigitValue(t[0]) + 60 * DigitValue(t[1]) + 10 * DigitValue(t[2]) + DigitValue(t[3])
    ensures 0 <= DigitValue(t[2]) <= 5
  {
    assert t[0..2][0] == t[0] && t[0..2][1] == t[1];
    assert t[2..4][0] == t[2] && t[2..4][1] == t[3];
  }

  /** A start the slot rule accepts lies between 480 minutes before 08:00 and 899 minutes after. */
  lemma StartDelayRange(s: Slot)
    requires IsStartTime(s.start)
    ensures -480 <= StartDelay(s) <= 899
  {
    ClockDigits(s.start);
  }

  /** For times the slot rule accepts the duration lies between -1379 and 1439 minutes. */
  lemma DurationRange(s: Slot)
    requires IsStartTime(s.start) && IsEndTime(s.end)
    ensures -1379 <= Duration(s) <= 1439
  {
    ClockDigits(s.start);
    ClockDigits(s.end);
  }

  /**
   * For well-formed times the duration is zero exactly when start and end
   * are the same text and positive exactly when the end comes later.
   */
  lemma DurationSign(s: Slot)
    requires IsClockText(s.start) && IsClockText(s.end)
    ensures Duration(s) == 0 <==> s.start == s.end
    ensures Duration(s) > 0 <==> Earlier(s.start, s.end)
  {
    ClockDigits(s.start);
    ClockDigits(s.end);
    if s.start[0] == s.end[0] && s.start[1] == s.end[1] && s.start[2] == s.end[2] && s.start[3] == s.end[3] {
      assert s.start == s.end;
    }
  }

  /** Three worked examples: `0930` prints as `09:30`, a start at `0800` is 0 minutes late, and `0900` to `1030` lasts 90 minutes. */
  lemma WorkedExamples()
    ensures StartPrintable(Slot("A", "", "R", 0, "0930", "1030")) == "09:30"
    ensures StartDelay(Slot("A", "", "R", 0, "0800", "0900")) == 0
    ensures Duration(Slot("A", "", "R", 0, "0900", "1030")) == 90
  {
  }
}
