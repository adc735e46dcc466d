/**
 * The line-oriented parser of the `ours` timetable language.
 *
 * Line 1 must be the version header. Every later line is tried against the
 * activity rule, the slot rule, the comment rule and the blank line, in that
 * order; an activity line registers a new activity, a slot line appends a
 * slot to a registered activity, comments and blank lines change nothing,
 * and anything else is an error. Parsing stops at the first error, which
 * carries its kind and the 1-based number of the offending line.
 *
 * `Parse` is the specification, a function folded over the lines;
 * `ParseInput` is the step-by-step loop, proved to compute it.
 */
module Parser {
  import opened Text
  import opened Rules
  import opened Palette
  import opened Timetable

  datatype ErrorKind =
    | UnsupportedSyntax
    | VersionMismatch(found: string)
    | DuplicateActivity(id: string)
    | UnknownColor(color: string)
    | UnknownActivity(id: string)
    | InvalidDay
    | InvalidSyntax

  /** A fatal diagnostic: what went wrong and on which line (counting from 1). */
  datatype ParseError = ParseError(kind: ErrorKind, line: nat)

  datatype Result<+T> = Ok(value: T) | Err(error: ParseError)

  /** What a line after the header is, by the first rule that matches it. */
  datatype LineKind =
    | ActivityLine(activity: ActivityFields)
    | SlotLine(slot: SlotFields)
    | CommentLine
    | BlankLine
    | Unrecognised

  /** Classifies a line by trying the activity, slot, comment and blank rules in order. */
  function Classify(content: string): (k: LineKind)
    ensures k.ActivityLine? <==> MatchActivity(content).Some?
    ensures k.ActivityLine? ==> MatchActivity(content) == Some(k.activity)
    ensures k.ActivityLine? ==> ValidActivityFields(k.activity) && content == ActivityText(k.activity)
    ensures k.SlotLine? <==> MatchSlot(content).Some?
    ensures k.SlotLine? ==> MatchSlot(content) == Some(k.slot)
    ensures k.SlotLine? ==> ValidSlotFields(k.slot) && content == SlotText(k.slot)
    ensures k.CommentLine? <==> IsComment(content)
    ensures k.BlankLine? <==> content == ""
  {
    RulesExclusive(content);
    match MatchActivity(content)
    case Some(a) =>
      MatchedActivityText(content);
      ActivityLine(a)
    case None =>
      match MatchSlot(content)
      case Some(s) =>
        SlotShape(content, s);
        SlotLine(s)
      case None =>
        if IsComment(content) then CommentLine
        else if content == "" then BlankLine
        else Unrecognised
  }

  /** The error a first line raises, if any: not a header, or a header of another version. */
  function CheckHeader(content: string): Option<ErrorKind>
  {
    match MatchHeader(content)
    case None => Some(UnsupportedSyntax)
    case Some(version) => if version != SyntaxVersion then Some(VersionMismatch(version)) else None
  }

  /** The slot a valid slot line describes. */
  function SlotOf(f: SlotFields): Slot
    requires f.day in BuiltInDays
  {
    Slot(f.id, f.icon, f.location, BuiltInDays[f.day], f.start, f.end)
  }

  /** Registers the activity of an activity line; the duplicate check comes before the colour. */
  function AddActivity(activities: Activities, f: ActivityFields, line: nat): Result<Activities>
    requires ValidActivityFields(f)
  {
    if f.id in activities then Err(ParseError(DuplicateActivity(f.id), line))
    else
      ActivityColorResolves(f.color);
      match ConvertColor(f.color)
      case None => Err(ParseError(UnknownColor(f.color), line))
      case Some(color) => Ok(activities[f.id := Activity(f.id, f.name, color, [])])
  }

  /** Appends the slot of a slot line to its activity. */
  function AddSlot(activities: Activities, f: SlotFields, line: nat): Result<Activities>
  {
    if f.id !in activities then Err(ParseError(UnknownActivity(f.id), line))
    else if f.day !in BuiltInDays then Err(ParseError(InvalidDay, line))
    else
      var activity := activities[f.id];
      Ok(activities[f.id := activity.(slots := activity.slots + [SlotOf(f)])])
  }

  /** The effect of line number `line` (2 or more) with text `content`. */
  function Step(activities: Activities, content: string, line: nat): Result<Activities>
  {
    match Classify(content)
    case ActivityLine(f) => AddActivity(activities, f, line)
    case SlotLine(f) => AddSlot(activities, f, line)
    case CommentLine => Ok(activities)
    case BlankLine => Ok(activities)
    case Unrecognised => Err(ParseError(InvalidSyntax, line))
  }

  /** The outcome of reading the first `n` lines. */
  function ParseUpTo(lines: seq<string>, n: nat): Result<Activities>
    requires n <= |lines|
  {
    if n == 0 then Ok(map[])
    else
      match ParseUpTo(lines, n - 1)
      case Err(e) => Err(e)
      case Ok(activities) =>
        if n == 1 then
          match CheckHeader(lines[0])
          case Some(kind) => Err(ParseError(kind, 1))
          case None => Ok(activities)
        else Step(activities, lines[n - 1], n)
  }

  /** The outcome of reading the whole document. */
  function Parse(lines: seq<string>): Result<Activities>
  {
    ParseUpTo(lines, |lines|)
  }

  // ------------------------------------------------------------ the loop

  /**
   * The parser as a loop over the lines: a line counter, a map of
   * activities that grows by insertion and by appending to an activity's
   * slots, and a return at the first error.
   */
  method ParseInput(lines: seq<string>) returns (r: Result<Activities>)
    ensures r == Parse(lines)
    ensures r.Ok? ==> WellFormed(r.value)
  {
    var activities: Activities := map[];
    var line: nat := 0;
    while line < |lines|
      invariant line <= |lines|
      invariant ParseUpTo(lines, line) == Ok(activities)
    {
      line := line + 1;
      var content := lines[line - 1];
      if line == 1 {
        var syntax := MatchHeader(content);
        if syntax.None? {
          r := Err(ParseError(UnsupportedSyntax, line));
          ErrorPersists(lines, line, |lines|);
          return;
        }
        if syntax.value != SyntaxVersion {
          r := Err(ParseError(VersionMismatch(syntax.value), line));
          ErrorPersists(lines, line, |lines|);
          return;
        }
        continue;
      }
      // From line 2 on, the rules are tried in order.
      var activityMatch := MatchActivity(content);
      if activityMatch.Some? {
        var f := activityMatch.value;
        if f.id in activities {
          r := Err(ParseError(DuplicateActivity(f.id), line));
          DuplicateActivityFails(lines, line, activities, f);
          return;
        }
        assert |Split(f.color, '#')| != 2 by { MatchedActivityText(content); ActivityColorResolves(f.color); }
        var color := ConvertColor(f.color);
        if color.None? {
          r := Err(ParseError(UnknownColor(f.color), line));
          MatchedActivityText(content);
          ActivityColorResolves(f.color);
          UnknownColorFails(lines, line, activities, f);
          return;
        }
        ActivityAdded(lines, line, activities, f, color.value);
        activities := activities[f.id := Activity(f.id, f.name, color.value, [])];
        continue;
      }
      var slotMatch := MatchSlot(content);
      if slotMatch.Some? {
        var f := slotMatch.value;
        if f.id !in activities {
          r := Err(ParseError(UnknownActivity(f.id), line));
          UnknownActivityFails(lines, line, activities, f);
          return;
        }
        // The slot rule admits only keys of the day table, so this lookup
        // always succeeds and the invalid-day error is never raised here.
        SlotAppended(lines, line, activities, f);
        var slot := Slot(f.id, f.icon, f.location, BuiltInDays[f.day], f.start, f.end);
        var activity := activities[f.id];
        activities := activities[f.id := activity.(slots := activity.slots + [slot])];
        continue;
      }
      if IsComment(content) || content == "" {
        IgnoredLine(lines, line, activities);
        continue;
      }
      r := Err(ParseError(InvalidSyntax, line));
      UnrecognisedLineFails(lines, line, activities);
      return;
    }
    r := Ok(activities);
    ParseFacts(lines, |lines|);
  }

  // ------------------------------------------------ whole-document lemmas

  /** Once a prefix fails, every longer prefix fails with the same error: no later line is read. */
  lemma {:induction false} ErrorPersists(lines: seq<string>, n: nat, m: nat)
    requires n <= m <= |lines|
    requires ParseUpTo(lines, n).Err?
    ensures ParseUpTo(lines, m) == ParseUpTo(lines, n)
    decreases m
  {
    if m > n {
      ErrorPersists(lines, n, m - 1);
      var e := ParseUpTo(lines, n).error;
      assert ParseUpTo(lines, m - 1) == Err(e);
    }
  }

  /** Line 1 decides alone whether the document is rejected for its header. */
  lemma HeaderDecides(lines: seq<string>)
    requires |lines| >= 1
    ensures MatchHeader(lines[0]).None? ==> Parse(lines) == Err(ParseError(UnsupportedSyntax, 1))
    ensures MatchHeader(lines[0]).Some? && MatchHeader(lines[0]).value != SyntaxVersion ==>
              Parse(lines) == Err(ParseError(VersionMismatch(MatchHeader(lines[0]).value), 1))
    ensures MatchHeader(lines[0]) == Some(SyntaxVersion) ==> ParseUpTo(lines, 1) == Ok(map[])
  {
    if CheckHeader(lines[0]).Some? {
      ErrorPersists(lines, 1, |lines|);
    }
  }

  /** A declaration of an id already registered fails at its line, whatever its colour or name. */
  lemma DuplicateActivityFails(lines: seq<string>, n: nat, activities: Activities, f: ActivityFields)
    requires 2 <= n <= |lines|
    requires ParseUpTo(lines, n - 1) == Ok(activities)
    requires MatchActivity(lines[n - 1]) == Some(f)
    requires f.id in activities
    ensures Parse(lines) == Err(ParseError(DuplicateActivity(f.id), n))
  {
    ErrorPersists(lines, n, |lines|);
  }

  /** A declaration whose colour does not resolve fails at its line. */
  lemma UnknownColorFails(lines: seq<string>, n: nat, activities: Activities, f: ActivityFields)
    requires 2 <= n <= |lines|
    requires ParseUpTo(lines, n - 1) == Ok(activities)
    requires MatchActivity(lines[n - 1]) == Some(f)
    requires f.id !in activities
    requires IsColorName(f.color) && ToLower(f.color) !in BuiltInColors
    ensures Parse(lines) == Err(ParseError(UnknownColor(f.color), n))
  {
    ActivityColorResolves(f.color);
    ErrorPersists(lines, n, |lines|);
  }

  /**
   * A successful declaration adds exactly the key `f.id`, bound to an
   * activity with the declared name and colour and no slots; every
   * existing entry is kept as it was.
   */
  lemma ActivityAdded(lines: seq<string>, n: nat, activities: Activities, f: ActivityFields, color: Color)
    requires 2 <= n <= |lines|
    requires ParseUpTo(lines, n - 1) == Ok(activities)
    requires MatchActivity(lines[n - 1]) == Some(f)
    requires f.id !in activities
    requires |Split(f.color, '#')| != 2 && ConvertColor(f.color) == Some(color)
    ensures ParseUpTo(lines, n) == Ok(activities[f.id := Activity(f.id, f.name, color, [])])
    ensures ParseUpTo(lines, n).Ok?
    ensures ParseUpTo(lines, n).value.Keys == activities.Keys + {f.id}
    ensures ParseUpTo(lines, n).value[f.id] == Activity(f.id, f.name, color, [])
    ensures forall k :: k in activities ==> ParseUpTo(lines, n).value[k] == activities[k]
  {
  }

  /** A slot line naming an unregistered activity fails at its line. */
  lemma UnknownActivityFails(lines: seq<string>, n: nat, activities: Activities, f: SlotFields)
    requires 2 <= n <= |lines|
    requires ParseUpTo(lines, n - 1) == Ok(activities)
    requires MatchSlot(lines[n - 1]) == Some(f)
    requires f.id !in activities
    ensures Parse(lines) == Err(ParseError(UnknownActivity(f.id), n))
  {
    RulesExclusive(lines[n - 1]);
    ErrorPersists(lines, n, |lines|);
  }

  /**
   * A slot line naming a registered activity appends one slot, with the
   * day of its day token, at the end of that activity's slots; the earlier
   * slots, the activity's other fields and every other activity are kept.
   */
  lemma SlotAppended(lines: seq<string>, n: nat, activities: Activities, f: SlotFields)
    requires 2 <= n <= |lines|
    requires ParseUpTo(lines, n - 1) == Ok(activities)
    requires MatchSlot(lines[n - 1]) == Some(f)
    requires f.id in activities
    ensures f.day in BuiltInDays && BuiltInDays[f.day] < 5
    ensures ParseUpTo(lines, n) == Ok(activities[f.id := activities[f.id].(slots :=
              activities[f.id].slots + [Slot(f.id, f.icon, f.location, BuiltInDays[f.day], f.start, f.end)])])
    ensures ParseUpTo(lines, n).Ok?
    ensures ParseUpTo(lines, n).value.Keys == activities.Keys
    ensures ParseUpTo(lines, n).value[f.id] ==
              activities[f.id].(slots := activities[f.id].slots + [Slot(f.id, f.icon, f.location, BuiltInDays[f.day], f.start, f.end)])
    ensures forall k :: k in activities && k != f.id ==> ParseUpTo(lines, n).value[k] == activities[k]
  {
    RulesExclusive(lines[n - 1]);
    SlotShape(lines[n - 1], f);
    DayTokensKnown();
  }

  /** Comments and blank lines leave the activities as they are. */
  lemma IgnoredLine(lines: seq<string>, n: nat, activities: Activities)
    requires 2 <= n <= |lines|
    requires ParseUpTo(lines, n - 1) == Ok(activities)
    requires IsComment(lines[n - 1]) || lines[n - 1] == ""
    ensures ParseUpTo(lines, n) == Ok(activities)
  {
  }

  /** A line from line 2 on that matches no rule fails at its line. */
  lemma UnrecognisedLineFails(lines: seq<string>, n: nat, activities: Activities)
    requires 2 <= n <= |lines|
    requires ParseUpTo(lines, n - 1) == Ok(activities)
    requires MatchActivity(lines[n - 1]).None? && MatchSlot(lines[n - 1]).None?
    requires !IsComment(lines[n - 1]) && lines[n - 1] != ""
    ensures Parse(lines) == Err(ParseError(InvalidSyntax, n))
  {
    ErrorPersists(lines, n, |lines|);
  }

  /**
   * What holds after any number of lines: a success is a well-formed set of
   * activities; a failure names a line already read, every line before it
   * was accepted, and it is never the invalid-day error.
   */
  lemma {:induction false} ParseFacts(lines: seq<string>, n: nat)
    requires n <= |lines|
    ensures ParseUpTo(lines, n).Ok? ==> WellFormed(ParseUpTo(lines, n).value)
    ensures ParseUpTo(lines, n).Err? ==>
              var e := ParseUpTo(lines, n).error;
              && 1 <= e.line <= n
              && e.kind != InvalidDay
              && ParseUpTo(lines, e.line - 1).Ok?
              && ParseUpTo(lines, e.line) == Err(e)
  {
    if n > 0 {
      ParseFacts(lines, n - 1);
      if ParseUpTo(lines, n - 1).Err? {
        assert ParseUpTo(lines, n) == ParseUpTo(lines, n - 1);
      } else if n > 1 {
        LineFacts(lines, n);
      }
    }
  }

  /** The inductive step of `ParseFacts` for a line after the header. */
  lemma LineFacts(lines: seq<string>, n: nat)
    requires 2 <= n <= |lines|
    requires ParseUpTo(lines, n - 1).Ok? && WellFormed(ParseUpTo(lines, n - 1).value)
    ensures ParseUpTo(lines, n).Ok? ==> WellFormed(ParseUpTo(lines, n).value)
    ensures ParseUpTo(lines, n).Err? ==>
              var e := ParseUpTo(lines, n).error;
              && e.line == n
              && e.kind != InvalidDay
              && ParseUpTo(lines, e.line - 1).Ok?
  {
    var previous := ParseUpTo(lines, n - 1).value;
    assert ParseUpTo(lines, n) == Step(previous, lines[n - 1], n);
    StepFacts(previous, lines[n - 1], n);
  }

  /**
   * One line after the header keeps the activities well formed, and when it
   * fails it fails at its own line and never with the invalid-day error.
   */
  lemma StepFacts(activities: Activities, content: string, line: nat)
    requires WellFormed(activities)
    ensures Step(activities, content, line).Ok? ==> WellFormed(Step(activities, content, line).value)
    ensures Step(activities, content, line).Err? ==>
              Step(activities, content, line).error.line == line && Step(activities, content, line).error.kind != InvalidDay
  {
    match Classify(content)
    case ActivityLine(f) =>
      assert Step(activities, content, line) == AddActivity(activities, f, line);
      if f.id !in activities {
        ActivityColorResolves(f.color);
        match ConvertColor(f.color)
        case Some(color) => InsertKeepsWellFormed(activities, Activity(f.id, f.name, color, []));
        case None =>
      }
    case SlotLine(f) =>
      assert Step(activities, content, line) == AddSlot(activities, f, line);
      SlotOfValid(f);
      if f.id in activities {
        AppendKeepsWellFormed(activities, f);
      }
    case _ =>
  }

  lemma SlotOfValid(f: SlotFields)
    requires ValidSlotFields(f)
    ensures f.day in BuiltInDays
    ensures ValidSlot(SlotOf(f)) && SlotOf(f).id == f.id
  {
    DayTokensKnown();
  }

  lemma InsertKeepsWellFormed(activities: Activities, a: Activity)
    requires WellFormed(activities) && a.slots == []
    ensures WellFormed(activities[a.id := a])
  {
  }

  lemma AppendKeepsWellFormed(activities: Activities, f: SlotFields)
    requires WellFormed(activities)
    requires ValidSlotFields(f) && f.id in activities
    ensures f.day in BuiltInDays
    ensures WellFormed(activities[f.id := activities[f.id].(slots := activities[f.id].slots + [SlotOf(f)])])
  {
    SlotOfValid(f);
  }

  /** The ids declared by activity lines among the first `n` lines, in order. */
  function DeclaredIds(lines: seq<string>, n: nat): seq<string>
    requires n <= |lines|
  {
    if n <= 1 then []
    else
      match Classify(lines[n - 1])
      case ActivityLine(f) => DeclaredIds(lines, n - 1) + [f.id]
      case _ => DeclaredIds(lines, n - 1)
  }

  /** The slots of slot lines for activity `id` among the first `n` lines, in order. */
  function DeclaredSlots(lines: seq<string>, n: nat, id: string): seq<Slot>
    requires n <= |lines|
  {
    if n <= 1 then []
    else
      match Classify(lines[n - 1])
      case SlotLine(f) =>
        SlotOfValid(f);
        if f.id == id then DeclaredSlots(lines, n - 1, id) + [SlotOf(f)] else DeclaredSlots(lines, n - 1, id)
      case _ => DeclaredSlots(lines, n - 1, id)
  }

  /**
   * The keys of `activities` are exactly the ids declared by activity lines
   * among the first `n` lines, one per line, and each activity's slots are
   * exactly the slot lines naming it, in document order.
   */
  ghost predicate Accounts(lines: seq<string>, n: nat, activities: Activities)
    requires n <= |lines|
  {
    && (forall k :: k in activities <==> k in DeclaredIds(lines, n))
    && |activities| == |DeclaredIds(lines, n)|
    && (forall k :: k in activities ==> activities[k].slots == DeclaredSlots(lines, n, k))
  }

  /** A successful parse accounts for every activity line and every slot line of the document. */
  lemma {:induction false} ParseAccounts(lines: seq<string>, n: nat)
    requires n <= |lines|
    requires ParseUpTo(lines, n).Ok?
    ensures Accounts(lines, n, ParseUpTo(lines, n).value)
  {
    if n == 1 {
      assert ParseUpTo(lines, 1).value == map[];
    } else if n > 1 {
      ParseAccounts(lines, n - 1);
      var before := ParseUpTo(lines, n - 1).value;
      match Classify(lines[n - 1])
      case ActivityLine(f) =>
        NoSlotsBeforeDeclaration(lines, n - 1, f.id);
        AccountsAfterActivity(lines, n, before, f);
      case SlotLine(f) =>
        AccountsAfterSlot(lines, n, before, f);
      case _ =>
    }
  }

  lemma AccountsAfterActivity(lines: seq<string>, n: nat, before: Activities, f: ActivityFields)
    requires 2 <= n <= |lines|
    requires ParseUpTo(lines, n - 1) == Ok(before) && Accounts(lines, n - 1, before)
    requires Classify(lines[n - 1]) == ActivityLine(f)
    requires f.id !in before ==> DeclaredSlots(lines, n - 1, f.id) == []
    requires ParseUpTo(lines, n).Ok?
    ensures Accounts(lines, n, ParseUpTo(lines, n).value)
  {
    var after := ParseUpTo(lines, n).value;
    assert f.id !in before;
    assert after == before[f.id := Activity(f.id, f.name, after[f.id].color, [])];
    DeclaredAfterActivity(lines, n, f);
  }

  lemma AccountsAfterSlot(lines: seq<string>, n: nat, before: Activities, f: SlotFields)
    requires 2 <= n <= |lines|
    requires ParseUpTo(lines, n - 1) == Ok(before) && Accounts(lines, n - 1, before)
    requires Classify(lines[n - 1]) == SlotLine(f)
    requires ParseUpTo(lines, n).Ok?
    ensures Accounts(lines, n, ParseUpTo(lines, n).value)
  {
    SlotOfValid(f);
    var after := ParseUpTo(lines, n).value;
    assert f.id in before;
    assert after == before[f.id := before[f.id].(slots := before[f.id].slots + [SlotOf(f)])];
    DeclaredAfterSlot(lines, n, f);
  }

  /** An activity line adds its id to the declared ids and no slot. */
  lemma DeclaredAfterActivity(lines: seq<string>, n: nat, f: ActivityFields)
    requires 2 <= n <= |lines|
    requires Classify(lines[n - 1]) == ActivityLine(f)
    ensures DeclaredIds(lines, n) == DeclaredIds(lines, n - 1) + [f.id]
    ensures forall k :: DeclaredSlots(lines, n, k) == DeclaredSlots(lines, n - 1, k)
  {
  }

  /** A slot line adds one slot to its own activity's declared slots and declares no id. */
  lemma DeclaredAfterSlot(lines: seq<string>, n: nat, f: SlotFields)
    requires 2 <= n <= |lines|
    requires Classify(lines[n - 1]) == SlotLine(f)
    ensures f.day in BuiltInDays
    ensures DeclaredIds(lines, n) == DeclaredIds(lines, n - 1)
    ensures DeclaredSlots(lines, n, f.id) == DeclaredSlots(lines, n - 1, f.id) + [SlotOf(f)]
    ensures forall k :: k != f.id ==> DeclaredSlots(lines, n, k) == DeclaredSlots(lines, n - 1, k)
  {
    SlotOfValid(f);
  }

  /** Before an id is registered, no slot of it can have been accepted. */
  lemma {:induction false} NoSlotsBeforeDeclaration(lines: seq<string>, n: nat, id: string)
    requires n <= |lines|
    requires ParseUpTo(lines, n).Ok?
    requires id !in ParseUpTo(lines, n).value
    ensures DeclaredSlots(lines, n, id) == []
  {
    if n > 1 {
      KeysGrow(lines, n - 1);
      NoSlotsBeforeDeclaration(lines, n - 1, id);
    }
  }

  /** Reading one more line successfully never removes an activity. */
  lemma KeysGrow(lines: seq<string>, n: nat)
    requires n < |lines|
    requires ParseUpTo(lines, n + 1).Ok?
    ensures ParseUpTo(lines, n).Ok?
    ensures ParseUpTo(lines, n).value.Keys <= ParseUpTo(lines, n + 1).value.Keys
  {
  }

  /**
   * Every slot of a parsed document can be displayed: its activity is the
   * one holding it, its day is one of the five buckets and its start lies
   * within 480 minutes before and 899 minutes after 08:00.
   */
  lemma ParsedSlotsDisplayable(lines: seq<string>, id: string, s: Slot)
    requires Parse(lines).Ok?
    requires id in Parse(lines).value && s in Parse(lines).value[id].slots
    ensures ValidSlot(s)
    ensures s.id in Parse(lines).value && ActivityName(s, Parse(lines).value) == Parse(lines).value[id].name
    ensures s.day < 5
    ensures -480 <= StartDelay(s) <= 899
    ensures -1379 <= Duration(s) <= 1439
  {
    ParseFacts(lines, |lines|);
    StartDelayRange(s);
    DurationRange(s);
  }
}
