/**
 * The four line rules of the `ours` timetable language, written as
 * character-class predicates instead of regular expressions:
 *
 *   header    `/* ours@D.D */`
 *   activity  `ID@COLOR@NAME`
 *   slot      `ID:ICON:LOCATION:DAY:START:END`
 *   comment   `#` followed by at least one character
 *
 * Each matcher returns the captured groups. A shape lemma beside each one
 * states, independently of how the matcher finds its separators, exactly
 * which lines it accepts and what it captures.
 */
module Rules {
  import opened Text

  /** The only syntax version the parser accepts. */
  const SyntaxVersion: string := "2.0"

  predicate IsDigit(c: char) { '0' <= c <= '9' }

  predicate IsUpper(c: char) { 'A' <= c <= 'Z' }

  predicate IsAlnum(c: char) { IsDigit(c) || IsUpper(c) || 'a' <= c <= 'z' }

  predicate IsHexDigit(c: char) { IsDigit(c) || 'a' <= c <= 'f' || 'A' <= c <= 'F' }

  /** The regular-expression class `\s`: tab, newline, form feed, carriage return, space. */
  predicate IsSpace(c: char)
  {
    c == '\t' || c == '\n' || c == '\U{000C}' || c == '\r' || c == ' '
  }

  // ---------------------------------------------------------------- header

  const HeaderOpen: string := "/* ours@"
  const HeaderClose: string := " */"

  /** `\d\.\d`: the version captured by the header rule. */
  predicate IsVersion(v: string)
  {
    |v| == 3 && IsDigit(v[0]) && v[1] == '.' && IsDigit(v[2])
  }

  /** The header rule; yields the captured version. */
  function MatchHeader(line: string): Option<string>
  {
    if |line| == 14 && line[..8] == HeaderOpen && IsVersion(line[8..11]) && line[11..] == HeaderClose
    then Some(line[8..11])
    else None
  }

  /** The header rule accepts exactly `/* ours@` + version + ` */` and captures the version. */
  lemma HeaderShape(line: string, v: string)
    ensures MatchHeader(line) == Some(v) <==> IsVersion(v) && line == HeaderOpen + v + HeaderClose
  {
    if IsVersion(v) && line == HeaderOpen + v + HeaderClose {
      assert line[..8] == HeaderOpen;
      assert line[8..11] == v;
      assert line[11..] == HeaderClose;
    }
    if MatchHeader(line) == Some(v) {
      assert line == line[..8] + line[8..11] + line[11..];
    }
  }

  // -------------------------------------------------------------- activity

  /** `[A-Z0-9]+` */
  predicate IsId(s: string)
  {
    |s| > 0 && forall i :: 0 <= i < |s| ==> IsUpper(s[i]) || IsDigit(s[i])
  }

  /** `[A-Z]+`: a palette colour written in capitals. */
  predicate IsColorName(s: string)
  {
    |s| > 0 && forall i :: 0 <= i < |s| ==> IsUpper(s[i])
  }

  /** `#[a-fA-F0-9]{6}#[a-fA-F0-9]{6}`: a background and a foreground in hex. */
  predicate IsHexPair(s: string)
  {
    && |s| == 14 && s[0] == '#' && s[7] == '#'
    && (forall i :: 0 < i < 7 ==> IsHexDigit(s[i]))
    && (forall i :: 7 < i < 14 ==> IsHexDigit(s[i]))
  }

  predicate IsColorToken(s: string)
  {
    IsColorName(s) || IsHexPair(s)
  }

  /** `.+`: at least one character, none of them a newline. */
  predicate IsName(s: string)
  {
    |s| > 0 && '\n' !in s
  }

  datatype ActivityFields = ActivityFields(id: string, color: string, name: string)

  /**
   * The activity rule. Neither the id nor the colour may hold an `@`, so the
   * first two `@` of the line are the separators and the name is the rest.
   */
  function MatchActivity(line: string): Option<ActivityFields>
  {
    match IndexOf(line, '@')
    case None => None
    case Some(i) =>
      var rest := line[i + 1..];
      match IndexOf(rest, '@')
      case None => None
      case Some(j) =>
        var f := ActivityFields(line[..i], rest[..j], rest[j + 1..]);
        if ValidActivityFields(f) then Some(f) else None
  }

  predicate ValidActivityFields(f: ActivityFields)
  {
    IsId(f.id) && IsColorToken(f.color) && IsName(f.name)
  }

  function ActivityText(f: ActivityFields): string
  {
    f.id + "@" + f.color + "@" + f.name
  }

  lemma NoAtInIdOrColor(f: ActivityFields)
    requires ValidActivityFields(f)
    ensures '@' !in f.id && '@' !in f.color
  {
    assert forall k :: 0 <= k < |f.id| ==> f.id[k] != '@';
    assert forall k :: 0 <= k < |f.color| ==> f.color[k] != '@';
  }

  /** The text of valid activity fields matches the rule and yields those fields. */
  lemma MatchActivityText(f: ActivityFields)
    requires ValidActivityFields(f)
    ensures MatchActivity(ActivityText(f)) == Some(f)
  {
    var line := ActivityText(f);
    NoAtInIdOrColor(f);
    var tail := f.color + "@" + f.name;
    assert line == f.id + ['@'] + tail;
    IndexOfAfter(f.id, '@', tail);
    assert line[..|f.id|] == f.id;
    assert line[|f.id| + 1..] == tail;
    assert tail == f.color + ['@'] + f.name;
    IndexOfAfter(f.color, '@', f.name);
    assert tail[..|f.color|] == f.color;
    assert tail[|f.color| + 1..] == f.name;
  }

  /** A line the rule matches is the text of the fields it captures, and they are valid. */
  lemma MatchedActivityText(line: string)
    requires MatchActivity(line).Some?
    ensures line == ActivityText(MatchActivity(line).value)
    ensures ValidActivityFields(MatchActivity(line).value)
  {
    var i := IndexOf(line, '@').value;
    var rest := line[i + 1..];
    var j := IndexOf(rest, '@').value;
    assert rest == rest[..j] + "@" + rest[j + 1..];
    assert line == line[..i] + "@" + rest;
  }

  /** The activity rule accepts exactly `ID@COLOR@NAME` with valid parts and captures them. */
  lemma ActivityShape(line: string, f: ActivityFields)
    ensures MatchActivity(line) == Some(f) <==> line == ActivityText(f) && ValidActivityFields(f)
  {
    if line == ActivityText(f) && ValidActivityFields(f) {
      MatchActivityText(f);
    }
    if MatchActivity(line) == Some(f) {
      MatchedActivityText(line);
    }
  }

  // ------------------------------------------------------------------ slot

  /** `[-a-zA-Z0-9]*` */
  predicate IsIcon(s: string)
  {
    forall i :: 0 <= i < |s| ==> IsAlnum(s[i]) || s[i] == '-'
  }

  /** `[a-zA-Z0-9\s.-]+` */
  predicate IsLocation(s: string)
  {
    |s| > 0 && forall i :: 0 <= i < |s| ==> IsAlnum(s[i]) || IsSpace(s[i]) || s[i] == '.' || s[i] == '-'
  }

  /** `MON|TUE|WED|THU|FRI|01|02|03|04|05` */
  const DayTokens: set<string> := {"MON", "TUE", "WED", "THU", "FRI", "01", "02", "03", "04", "05"}

  /** `(?:0[089]|1[0-9]|2[0-2])[0-5][0-9]`: hours 00, 08 to 22. */
  predicate IsStartTime(t: string)
  {
    && |t| == 4
    && ((t[0] == '0' && (t[1] == '0' || t[1] == '8' || t[1] == '9'))
        || (t[0] == '1' && IsDigit(t[1]))
        || (t[0] == '2' && '0' <= t[1] <= '2'))
    && '0' <= t[2] <= '5' && IsDigit(t[3])
  }

  /** `(?:0[089]|1[0-9]|2[0-3])[0-5][0-9]`: hours 00, 08 to 23. */
  predicate IsEndTime(t: string)
  {
    && |t| == 4
    && ((t[0] == '0' && (t[1] == '0' || t[1] == '8' || t[1] == '9'))
        || (t[0] == '1' && IsDigit(t[1]))
        || (t[0] == '2' && '0' <= t[1] <= '3'))
    && '0' <= t[2] <= '5' && IsDigit(t[3])
  }

  datatype SlotFields = SlotFields(id: string, icon: string, location: string, day: string, start: string, end: string)

  predicate ValidSlotFields(f: SlotFields)
  {
    && IsId(f.id) && IsIcon(f.icon) && IsLocation(f.location)
    && f.day in DayTokens && IsStartTime(f.start) && IsEndTime(f.end)
  }

  function SlotText(f: SlotFields): string
  {
    f.id + ":" + (f.icon + ":" + (f.location + ":" + (f.day + ":" + (f.start + ":" + f.end))))
  }

  /**
   * The slot rule. No field may hold a `:`, so a matching line splits on `:`
   * into exactly its six fields.
   */
  function MatchSlot(line: string): Option<SlotFields>
  {
    var p := Split(line, ':');
    if |p| == 6 && ValidSlotFields(SlotFields(p[0], p[1], p[2], p[3], p[4], p[5]))
    then Some(SlotFields(p[0], p[1], p[2], p[3], p[4], p[5]))
    else None
  }

  lemma NoColonInSlotFields(f: SlotFields)
    requires ValidSlotFields(f)
    ensures ':' !in f.id && ':' !in f.icon && ':' !in f.location
    ensures ':' !in f.day && ':' !in f.start && ':' !in f.end
  {
    assert forall k :: 0 <= k < |f.id| ==> f.id[k] != ':';
    assert forall k :: 0 <= k < |f.icon| ==> f.icon[k] != ':';
    assert forall k :: 0 <= k < |f.location| ==> f.location[k] != ':';
    assert forall k :: 0 <= k < |f.start| ==> f.start[k] != ':';
    assert forall k :: 0 <= k < |f.end| ==> f.end[k] != ':';
  }

  lemma JoinSlotFields(f: SlotFields)
    ensures Join([f.id, f.icon, f.location, f.day, f.start, f.end], ':') == SlotText(f)
  {
    var p := [f.id, f.icon, f.location, f.day, f.start, f.end];
    assert Join(p[5..], ':') == f.end;
    JoinCons(f.start, p[5..], ':');
    assert Join(p[4..], ':') == f.start + ":" + f.end by { assert p[4..] == [f.start] + p[5..]; }
    JoinCons(f.day, p[4..], ':');
    assert p[3..] == [f.day] + p[4..];
    JoinCons(f.location, p[3..], ':');
    assert p[2..] == [f.location] + p[3..];
    JoinCons(f.icon, p[2..], ':');
    assert p[1..] == [f.icon] + p[2..];
    JoinCons(f.id, p[1..], ':');
    assert p == [f.id] + p[1..];
  }

  /** The slot rule accepts exactly `ID:ICON:LOCATION:DAY:START:END` with valid fields and captures them. */
  lemma SlotShape(line: string, f: SlotFields)
    ensures MatchSlot(line) == Some(f) <==> line == SlotText(f) && ValidSlotFields(f)
  {
    var p := [f.id, f.icon, f.location, f.day, f.start, f.end];
    JoinSlotFields(f);
    if line == SlotText(f) && ValidSlotFields(f) {
      NoColonInSlotFields(f);
      SplitJoin(p, ':');
    }
    if MatchSlot(line) == Some(f) {
      JoinSplit(line, ':');
      assert Split(line, ':') == p;
    }
  }

  // --------------------------------------------------------------- comment

  /** `^#.+$` */
  predicate IsComment(line: string)
  {
    |line| >= 2 && line[0] == '#' && '\n' !in line[1..]
  }

  // ------------------------------------------------------ rule interaction

  /** An activity line never splits on `:` into a valid first slot field. */
  lemma {:induction false} ActivityIsNotSlot(line: string)
    requires MatchActivity(line).Some?
    ensures MatchSlot(line).None?
  {
    var a := MatchActivity(line).value;
    MatchedActivityText(line);
    var n := |a.id|;
    assert line[n] == '@';
    assert forall k :: 0 <= k < n ==> line[k] == a.id[k];
    match IndexOf(line, ':')
    case None =>
      assert Split(line, ':') == [line];
    case Some(k) =>
      assert k > n;
      assert Split(line, ':')[0] == line[..k];
      assert line[..k][n] == '@';
      assert !IsId(line[..k]);
  }

  /**
   * No line matches two of the activity, slot, comment and blank rules, so
   * the order in which the parser tries them never changes the outcome.
   */
  lemma RulesExclusive(line: string)
    ensures MatchActivity(line).Some? ==> MatchSlot(line).None? && !IsComment(line) && line != ""
    ensures MatchSlot(line).Some? ==> !IsComment(line) && line != ""
  {
    if MatchActivity(line).Some? {
      var a := MatchActivity(line).value;
      MatchedActivityText(line);
      assert line[0] == a.id[0];
      ActivityIsNotSlot(line);
    }
    if MatchSlot(line).Some? {
      var s := MatchSlot(line).value;
      SlotShape(line, s);
      assert line[0] == s.id[0];
    }
  }
}
