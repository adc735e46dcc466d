# ours: a verified model of the timetable parser

`ours-cli` turns a small line-oriented text file into an HTML weekly
timetable. The file opens with a version header `/* ours@2.0 */`. After it
come activity lines `ID@COLOR@NAME` and slot lines
`ID:ICON:LOCATION:DAY:START:END`, mixed with `#` comments and blank lines.

This project models the core of the program:

- the four line rules, written as predicates over characters rather than
  regular expressions;
- the built-in colour palette and the resolution of a colour token;
- the built-in day table;
- the `Color`, `Activity` and `Slot` entities and the slot's time helpers;
- the parser loop, which checks the header, registers activities, appends
  slots and stops at the first error;
- the loop that sorts every rendered slot into one of five day buffers.

Modules, one per concern:

- `Text`: `strings.Split`, its inverse `Join` (a helper with no Go
  counterpart, used to state round trips), and ASCII lower-casing. An
  upper-casing helper, also without a Go counterpart, serves to spell
  palette names in capitals.
- `Rules`: the header, activity, slot and comment rules. The header,
  activity and slot rules each have a shape lemma saying exactly which
  lines they accept and what they capture. The comment rule is a single
  predicate on the line.
- `Palette`: `Color`, the nine built-in colours and `ConvertColor`.
- `Timetable`: `Slot`, `Activity`, the day table, and the printable times,
  start delay and duration of a slot.
- `Parser`: the parser in two forms. `Parse` is a function folded over the
  lines and serves as the specification. `ParseInput` is the imperative
  loop, proved to compute `Parse`. Lemmas describe the effect of every
  kind of line and what a parsed document contains.
- `Process`: the day-bucketing loop over an array of five buffers, proved
  against a function that lists each day's fragments.

A fatal diagnostic of the Go program (`log.Fatalf`) becomes an
`Err(ParseError(kind, line))` result. The line number counts from 1.

## Model

| member | source | states |
|---|---|---|
| Text.Split | src/ours-cli.go:149 | splitting on `#` yields at least one piece and no piece holds the separator |
| Text.JoinSplit | src/ours-cli.go:149 | joining the pieces of a split with the separator gives back the original string |
| Text.SplitJoin | src/ours-cli.go:149 | splitting separator-free pieces joined by the separator gives back exactly those pieces |
| Text.LowerCase | src/ours-cli.go:159 | the lower-case form spells the string ignoring letter case and holds no capital letter |
| Text.CaseInsensitive | src/ours-cli.go:158-159 | two strings lower-case to the same key exactly when they differ at most in the case of their letters, so the palette lookup ignores case and nothing else |
| Rules.MatchHeader | src/ours-cli.go:23 | the header rule as a matcher; specified by `Rules.HeaderShape` |
| Rules.MatchActivity | src/ours-cli.go:24 | the activity rule as a matcher; specified by `Rules.ActivityShape` |
| Rules.MatchSlot | src/ours-cli.go:25 | the slot rule as a matcher; specified by `Rules.SlotShape` |
| Rules.IsComment | src/ours-cli.go:26 | the comment rule: `#` then at least one character, none a newline; its exclusivity is `Rules.RulesExclusive` |
| Rules.HeaderShape | src/ours-cli.go:23 | the header rule accepts a line exactly when it is `/* ours@` + `D.D` + ` */`, and captures the version |
| Rules.MatchActivityText | src/ours-cli.go:24 | the text `ID@COLOR@NAME` of valid fields matches the activity rule and captures those fields |
| Rules.MatchedActivityText | src/ours-cli.go:24 | a line the activity rule matches is the text of the valid fields it captures |
| Rules.ActivityShape | src/ours-cli.go:24 | the activity rule accepts a line exactly when it is `ID@COLOR@NAME` with an upper-case id, a colour name or hex pair, and a non-empty name |
| Rules.SlotShape | src/ours-cli.go:25 | the slot rule accepts a line exactly when it is six `:`-separated fields of the rule's classes (day token, start hours 00 or 08-22, end hours 00 or 08-23), and captures them |
| Rules.ActivityIsNotSlot | src/ours-cli.go:24-25 | no line matches both the activity rule and the slot rule |
| Rules.RulesExclusive | src/ours-cli.go:24-26 | an activity line is neither a slot line, a comment nor blank; a slot line is neither a comment nor blank |
| Palette.ConvertColor | src/ours-cli.go:147-166 | a token holding `#` becomes a custom hex colour; any other token resolves exactly when its lower-case form is a palette key, and then to that palette entry |
| Palette.CustomColorResolves | src/ours-cli.go:149-155 | three or more `#`-free pieces joined by `#` resolve to background `#` + second piece and foreground `#` + third piece |
| Palette.ActivityColorResolves | src/ours-cli.go:147-166 | every colour token the activity rule admits can be resolved without fault; a hex pair always resolves to its two halves; resolution fails exactly for a name missing from the palette |
| Palette.PaletteKeys | src/ours-cli.go:33-43 | every entry of `BuiltInColors` is keyed by its own name, which is already lower-case |
| Palette.CapitalNamesResolve | src/ours-cli.go:24 | every palette colour written in capitals (`Text.ToUpper`, described by `Text.UpperCase`), the only spelling the activity rule admits for a name, is a valid colour token and resolves to that colour |
| Palette.PaletteSize | src/ours-cli.go:33-43 | `BuiltInColors` holds nine colours |
| Timetable.DayTokensKnown | src/ours-cli.go:46-49 | the keys of `BuiltInDays` are exactly the day tokens of the slot rule; every value is below 5; a weekday name and its two-digit code map to the same day |
| Timetable.StartPrintable | src/ours-cli.go:78-80 | the printable start has five characters, a colon in the middle, and the four start digits around it |
| Timetable.EndPrintable | src/ours-cli.go:83-85 | the printable end has five characters, a colon in the middle, and the four end digits around it |
| Timetable.ActivityName | src/ours-cli.go:88-90 | the name of the slot's activity, found by the slot's id; specified for parsed documents by `Parser.ParsedSlotsDisplayable` |
| Timetable.StartDelay | src/ours-cli.go:93-99 | minutes from 08:00 to the start; specified by `Timetable.StartDelayRange` and `Timetable.WorkedExamples` |
| Timetable.Duration | src/ours-cli.go:102-111 | minutes from start to end; specified by `Timetable.DurationRange`, `Timetable.DurationSign` and `Timetable.WorkedExamples` |
| Timetable.TimeRulesAreClockTexts | src/ours-cli.go:25 | every start and end time the slot rule admits is four digits whose minutes tens digit is at most 5 |
| Timetable.ClockDigits | src/ours-cli.go:95-98 | on such a time the integer conversion reads hours and minutes as decimals, giving 600a + 60b + 10c + d |
| Timetable.StartDelayRange | src/ours-cli.go:93-99 | for an admitted start, the delay from 08:00 lies between -480 and 899 minutes |
| Timetable.DurationRange | src/ours-cli.go:102-111 | for admitted times, the duration lies between -1379 and 1439 minutes |
| Timetable.DurationSign | src/ours-cli.go:102-111 | the duration is zero exactly when start equals end, and positive exactly when the end is later digit by digit |
| Timetable.WorkedExamples | src/ours-cli.go:78-111 | `0930` prints as `09:30`, a start at `0800` has delay 0, and `0900` to `1030` lasts 90 minutes |
| Parser.Classify | src/ours-cli.go:213-294 | a line is an activity line exactly when the activity rule matches; otherwise a slot line exactly when the slot rule matches; otherwise a comment or blank line exactly when those rules hold |
| Parser.CheckHeader | src/ours-cli.go:191-206 | the error line 1 raises, if any; specified by `Parser.HeaderDecides` |
| Parser.AddActivity | src/ours-cli.go:213-243 | the effect of an activity line; specified by `Parser.DuplicateActivityFails`, `Parser.UnknownColorFails` and `Parser.ActivityAdded` |
| Parser.AddSlot | src/ours-cli.go:245-278 | the effect of a slot line; specified by `Parser.UnknownActivityFails` and `Parser.SlotAppended` |
| Parser.Step | src/ours-cli.go:211-294 | the effect of one line after the header; specified by `Parser.StepFacts`, `Parser.IgnoredLine` and `Parser.UnrecognisedLineFails` |
| Parser.ParseUpTo | src/ours-cli.go:185-296 | the outcome after a number of lines; specified by `Parser.ErrorPersists`, `Parser.ParseFacts` and `Parser.ParseAccounts` |
| Parser.Parse | src/ours-cli.go:185-296 | the outcome of the whole document; specified by the same lemmas |
| Parser.ParseInput | src/ours-cli.go:185-296 | the loop's outcome equals the specification `Parse`, and a successful result is well formed (each activity under its own id, holding only valid slots that point back to it) |
| Parser.ErrorPersists | src/ours-cli.go:187-296 | once a prefix of the document fails, every longer prefix fails with the same error |
| Parser.HeaderDecides | src/ours-cli.go:191-206 | a missing header fails at line 1 as unsupported syntax; a header of another version fails at line 1 with that version; a 2.0 header leaves the map empty |
| Parser.DuplicateActivityFails | src/ours-cli.go:221-225 | a declaration of an id already registered fails at its line |
| Parser.UnknownColorFails | src/ours-cli.go:227-231 | a new declaration whose colour name is not in the palette fails at its line |
| Parser.ActivityAdded | src/ours-cli.go:233-239 | a successful declaration adds exactly its id, bound to the declared name and resolved colour with no slots, and keeps every other entry |
| Parser.UnknownActivityFails | src/ours-cli.go:250-256 | a slot line naming an unregistered id fails at its line |
| Parser.SlotAppended | src/ours-cli.go:257-274 | a slot line for a registered id appends one slot, with the day of its token, at the end of that activity's slots and changes nothing else |
| Parser.IgnoredLine | src/ours-cli.go:280-291 | comments and blank lines leave the activities unchanged |
| Parser.UnrecognisedLineFails | src/ours-cli.go:294 | a line matching no rule fails at its line as invalid syntax |
| Parser.ParseFacts | src/ours-cli.go:185-296 | after any prefix, a success is well formed; a failure names a line already read, every earlier line was accepted, and the invalid-day error never occurs |
| Parser.LineFacts | src/ours-cli.go:211-294 | a line after the header read from a well-formed state keeps it well formed, or fails at that very line, after an accepted prefix, and never with the invalid-day error |
| Parser.StepFacts | src/ours-cli.go:211-294 | one line after the header keeps the activities well formed, and a failure is at that line and never the invalid-day error |
| Parser.InsertKeepsWellFormed | src/ours-cli.go:234-239 | inserting a new activity under its own id with no slots keeps the map well formed |
| Parser.SlotOfValid | src/ours-cli.go:263-272 | the slot built from a matched slot line is valid, has a day below 5, and carries the line's id |
| Parser.AppendKeepsWellFormed | src/ours-cli.go:273-274 | appending such a slot to its activity keeps the map well formed |
| Parser.ParseAccounts | src/ours-cli.go:185-296 | after a successful parse, the keys are exactly the declared ids, one per activity line, and each activity's slots are exactly the slot lines naming it, in document order |
| Parser.AccountsAfterActivity | src/ours-cli.go:233-239 | an activity line keeps that accounting true |
| Parser.AccountsAfterSlot | src/ours-cli.go:264-274 | a slot line keeps that accounting true |
| Parser.DeclaredAfterActivity | src/ours-cli.go:217-243 | an activity line adds its id to the declared ids and declares no slot |
| Parser.DeclaredAfterSlot | src/ours-cli.go:249-278 | a slot line adds one slot to its own activity's declared slots, leaves the others alone, and declares no id |
| Parser.NoSlotsBeforeDeclaration | src/ours-cli.go:250-256 | no slot of an id is accepted before the id is declared |
| Parser.KeysGrow | src/ours-cli.go:233-274 | reading one more line successfully never removes an activity |
| Parser.ParsedSlotsDisplayable | src/ours-cli.go:87-111 | every slot of a parsed document is valid; its activity name is the name of the activity holding it; its day is below 5; its delay and duration lie in the ranges above |
| Process.ProcessInput | src/ours-cli.go:315-329 | for any visiting order of the map, the five buffers hold the rendered slots of each day, in visiting order and then slot order |
| Process.DayFragmentsAppend | src/ours-cli.go:327 | writing one more slot adds its fragment at the end of its own day's buffer and changes no other buffer |
| Process.TotalSlotsRemove | src/ours-cli.go:316-318 | the total number of slots of the map is the slots of any one activity plus the total of the others |
| Process.SlotsInOrderFrame | src/ours-cli.go:316-318 | only the activities the order names matter to the slots listed in that order |
| Process.VisitOrderDrop | src/ours-cli.go:316 | without its last activity, a visiting order visits the map without that activity |
| Process.SlotsInOrderCount | src/ours-cli.go:316-318 | any visiting order lists exactly as many slots as the map holds |
| Process.SlotsInOrderCovers | src/ours-cli.go:316-318 | any visiting order lists every slot of every activity of the map |
| Process.SlotsInOrderDays | src/ours-cli.go:316-318 | every slot listed comes from an activity, so its day is one of the five when theirs are |
| Process.FragmentCount | src/ours-cli.go:315-329 | across the five buffers there is exactly one fragment per listed slot |
| Process.BufferLength | src/ours-cli.go:327 | a day's buffer holds one fragment per slot on that day |
| Process.SlotLandsInItsDay | src/ours-cli.go:327 | each slot's fragment is in its own day's buffer, at the position given by the number of earlier slots on that day |
| Process.BuffersHoldEverySlot | src/ours-cli.go:315-329 | for any visiting order, the five buffers together hold one fragment per slot of the map, and every slot of every activity has its fragment in its own day's buffer |
| Process.SampleParsed | src/ours-cli.go:185-296 | a header, one green activity and one Monday slot parse to that activity holding that slot |
| Process.SampleBuckets | src/ours-cli.go:315-329 | the one slot of such a map lands in Monday's buffer alone |
| Process.EndToEnd | src/ours-cli.go:185-329 | the three-line sample document parses without error to one activity holding one slot, and that slot lands in Monday's buffer alone |

## Left out

- The command line (src/ours-cli.go:128-144) is left out: argument count, file names and the templates directory.
- Opening the input file is left out. So is the line scanner, which splits lines and drops a trailing carriage return. The model receives the lines already split, as a sequence of strings. The scanner also stops silently on a line longer than its buffer; that is not modelled.
- Rendering is left out: the mustache templates, reading the styles file, the final page and the write to the output file (src/ours-cli.go:309-312, 322-325, 331-365). Rendering one slot is a parameter `render` of `Process.ProcessInput`. A day buffer is the sequence of rendered fragments, not their concatenated bytes. A template error is not modelled.
- `Slot.Styles` (src/ours-cli.go:113-125) is left out: it formats floating-point heights and offsets. The integers it builds on, `StartDelay` and `Duration`, are modelled.
- The iteration order of the activity map in `processInput` is unspecified in Go. It is a parameter of `Process.ProcessInput`, so the order of fragments within a day is proved only relative to that order.
- Parser.ParseInput: `log.Fatalf` ends the process. Here it returns an error value carrying the same kind and line. `preventProcess` (src/ours-cli.go:183, 295, 299) is never set before the process has already exited, so it is not modelled.
- The invalid-day message (src/ours-cli.go:260) prints a stale `err` and not the day. The branch is unreachable (`Parser.ParseFacts`), so the message text is not modelled.
- Palette.ConvertColor: requires that its token does not split into exactly two pieces on `#`. The source indexes a third piece that does not exist there, which is a run-time panic. No token the activity rule admits is such a token (`Palette.ActivityColorResolves`).
- Text.ToLower lower-cases ASCII letters only. The parser only passes `[A-Z]+` tokens to it; Unicode case mapping of other input is not modelled.
- The `.` of the activity and comment rules is modelled as any character except a newline. How the regular-expression engine treats invalid UTF-8 is not modelled; strings here are sequences of characters.
- Activities are values, not pointers. Appending a slot replaces the activity in the map. A slot's pointer back to its activity becomes the activity's id, which the Go `Slot` already stores. `ActivityName` looks the name up by that id.
- Go's integer width is not modelled. `Atoi` of two characters is at most 99 in absolute value, so every value computed here stays within a few thousand; for parsed slots `Timetable.StartDelayRange` and `Timetable.DurationRange` give the exact bounds.
