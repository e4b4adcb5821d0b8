# PenguinTomato in Dafny

PenguinTomato is a macOS menu-bar Pomodoro timer. This project models its two
pieces of logic and proves properties about them:

- **The timer state machine** `TimerModel` (`timer_model.dfy`, module `Timer`).
  It has four modes (focus, short break, long break, custom), three states
  (idle, running, paused), the seconds remaining, a per-mode table of durations
  in minutes and a count of completed focus cycles. The model is a Dafny class
  whose methods update those fields in place:
  - The one-second `DispatchSourceTimer` is the boolean `ticking` (a live
    ticker exists) plus the method `Tick`, which is what its event handler
    runs each second.
  - Calls to the notification manager and the sound player are recorded, in
    order, in a ghost log of `Cancel`, `Schedule(after, message)`,
    `Deliver(message)` and `Sound` events.
  - The invariant `Valid()` holds after every public operation: the ticker
    runs exactly while the state is running, there is always at least a second
    on the clock, and the cycle count is non-negative.
- **The duration text of the main view** (`content_view.dfy`, module
  `ContentView`):
  - `parseDuration` reads either bare minutes or "minutes:seconds" and accepts
    only 1 second to 12 hours.
  - `formattedDuration(seconds:)` prints "mm:ss".
  - The editor row's summary.
  - The status chip's choice of penguin and caption.
  - The editor state updates `toggleEditor`, `applyDuration` and
    `refreshEditorTexts`, on a class holding the view's `expandedEditor`,
    `editorText` and `invalidEditors`.
  - The main property is the round trip: every accepted duration reads back
    from its own "mm:ss" text.

The Swift and Foundation primitives these rely on are in `strings.dfy` (module
`Strings`):
- `String(format: "%02d:%02d", …)` with Swift's truncating `/` and `%`;
- `trimmingCharacters(in: .whitespacesAndNewlines)`;
- `split(separator:omittingEmptySubsequences: false)`;
- `Int(String)`, with its 64-bit range.

Swift's `Optional` is `Wrappers.Option`. Concrete readings of typed texts are in
`duration_examples.dfy`.

`ContentView.swift` and the tests were written against a different revision of
the timer. That revision has `stop()`, a `.breakTime` mode,
`updateDuration(for:seconds:)`, `menuBarIconName` and automatic focus→break
chaining. The model follows `TimerModel.swift` as written, where none of these
exist and completion never changes the mode. Where the view depends on that
other revision:
- the status chip's `.breakTime` is read as "a short or a long break";
- the view's `model.updateDuration(for:seconds:)` call is recorded in the ghost
  log `updates` rather than applied to a timer;
- `toggleEditor` and `refreshEditorTexts` receive the number that
  `formattedDuration(for:)` formats as a parameter.

## Model

| member | source | states |
|---|---|---|
| Timer.ModesAreTold | Sources/PenguinTomato/TimerModel.swift:6-34 | there are exactly four modes; distinct modes have distinct display names and distinct completion messages |
| Timer.ModeIndex | Sources/PenguinTomato/TimerModel.swift:6-11 | every mode sits at a position of the list of all cases |
| Timer.TimerModel.constructor | Sources/PenguinTomato/TimerModel.swift:53-67 | a new timer is idle in focus with 1500 seconds left and no cycles; the defaults are focus 25, short break 5, long break 15 and custom 20 minutes; no ticker and an empty log; `Valid()` holds |
| Timer.TimerModel.Duration | Sources/PenguinTomato/TimerModel.swift:126-128 | the duration of a mode is at least one minute; it is the stored value when that is at least one, and one when the mode has no entry |
| Timer.TimerModel.MenuBarLabel | Sources/PenguinTomato/TimerModel.swift:69-76 | the label is the idle label exactly when the timer is not running; while running it is the penguin, a space and the remaining time |
| Timer.TimerModel.DefaultClock | Sources/PenguinTomato/TimerModel.swift:78-82 | with 1500 seconds left, which is how a new timer starts, the clock reads "25:00" |
| Timer.TimerModel.CancelTimer | Sources/PenguinTomato/TimerModel.swift:174-178 | after cancelling, no ticker is live, and nothing but the ticker flag changes |
| Timer.TimerModel.CreateTimer | Sources/PenguinTomato/TimerModel.swift:138-148 | after creating the ticker, a ticker is live |
| Timer.TimerModel.SetMode | Sources/PenguinTomato/TimerModel.swift:84-91 | choosing the current mode changes nothing; another mode becomes current and idle, with that mode's duration on the clock, the ticker stopped and one `Cancel` logged; durations and cycles are kept; `Valid()` is preserved |
| Timer.TimerModel.Start | Sources/PenguinTomato/TimerModel.swift:93-102 | a no-op while running; otherwise the timer runs with a live ticker, keeps a positive clock or reloads the mode's duration, and logs `Cancel` then `Schedule(remaining, message of the mode)`; mode, durations and cycles are kept; a valid timer stays valid |
| Timer.TimerModel.Pause | Sources/PenguinTomato/TimerModel.swift:104-109 | a no-op unless running; from running it is paused with the ticker stopped and one `Cancel` logged; clock, mode, durations and cycles are kept |
| Timer.TimerModel.Reset | Sources/PenguinTomato/TimerModel.swift:111-116 | from any state the timer is idle with no ticker and the mode's full duration on the clock; one `Cancel` is logged; mode, durations and cycles are kept |
| Timer.TimerModel.QuickStart | Sources/PenguinTomato/TimerModel.swift:118-124 | the timer runs in custom mode with a custom duration of `max(1, n)` minutes and `max(1, n) * 60` seconds on the clock; `Cancel` then `Schedule` with the custom message is logged; for `n <= 0` this happens through `start`'s reload |
| Timer.TimerModel.UpdateDuration | Sources/PenguinTomato/TimerModel.swift:130-136 | stores `max(1, minutes)` for that mode only, so every other mode's duration is unchanged; the clock follows exactly when the mode is current and not running; nothing is logged |
| Timer.TimerModel.Tick | Sources/PenguinTomato/TimerModel.swift:150-160 | a tick of a cancelled ticker does nothing; with more than one second left it takes exactly one second off and changes nothing else; otherwise the interval completes |
| Timer.TimerModel.CompleteTimer | Sources/PenguinTomato/TimerModel.swift:162-172 | the ticker stops; `Cancel`, `Sound` and `Deliver(message of the mode)` are logged in that order; the cycle count grows by one exactly for focus; the mode is kept, the clock reloads its duration and the timer is idle |
| Strings.Digits | Sources/PenguinTomato/TimerModel.swift:81 | the decimal numeral of a number is non-empty and all digits, with one digit exactly below ten and at most two below a hundred |
| Strings.DigitsValueOfDigits | Sources/PenguinTomato/TimerModel.swift:81 | the numeral of `n` reads back as `n` |
| Strings.LeadingZero | Sources/PenguinTomato/TimerModel.swift:81 | zero-padding a numeral keeps its value |
| Strings.Pad2 | Sources/PenguinTomato/TimerModel.swift:81 | `%02d` prints at least two characters, a digit or minus sign first and a digit last, and exactly two for 0 to 99 |
| Strings.Pad2Reads | Sources/PenguinTomato/TimerModel.swift:81 | what `%02d` prints reads back as the number printed, after its minus sign when negative |
| Strings.Pad2HasNoColon | Sources/PenguinTomato/TimerModel.swift:81 | `%02d` never prints a colon |
| Strings.TruncDiv | Sources/PenguinTomato/TimerModel.swift:79 | Swift's `/` truncates toward zero: for a non-negative dividend the quotient times the divisor is the largest multiple not above it, for a negative one the smallest multiple not below it |
| Strings.TruncRem | Sources/PenguinTomato/TimerModel.swift:80 | Swift's `%` completes its division, and its remainder takes the sign of the dividend |
| Strings.Clock | Sources/PenguinTomato/TimerModel.swift:78-82 | the "mm:ss" text has at least five characters, exactly five below 100 minutes, with a digit or minus sign first and a digit last |
| Strings.ClockReadsBack | Sources/PenguinTomato/TimerModel.swift:78-82 | the text of a non-negative number of seconds is two numerals of at least two digits around one colon, worth `total / 60` and `total % 60` |
| Strings.Split | Sources/PenguinTomato/ContentView.swift:413 | splitting always gives at least one piece; the pieces are given by SplitShape, JoinSplit and SplitAround |
| Strings.SplitShape | Sources/PenguinTomato/ContentView.swift:413 | splitting without omitting empty pieces gives one piece more than there are separators, and no piece holds a separator |
| Strings.JoinSplit | Sources/PenguinTomato/ContentView.swift:413 | joining the pieces with the separator gives back the text |
| Strings.SplitWithoutSeparator | Sources/PenguinTomato/ContentView.swift:413 | a text without the separator is one piece |
| Strings.SplitAround | Sources/PenguinTomato/ContentView.swift:413 | a text with exactly one separator splits into what is on each side of it |
| Strings.TrimStartCuts | Sources/PenguinTomato/ContentView.swift:408 | trimming the front keeps a suffix and drops only whitespace |
| Strings.TrimEndCuts | Sources/PenguinTomato/ContentView.swift:408 | trimming the back keeps a prefix and drops only whitespace |
| Strings.Trim | Sources/PenguinTomato/ContentView.swift:408 | a trimmed text is empty or starts and ends with a non-whitespace character |
| Strings.TrimCutsWhitespace | Sources/PenguinTomato/ContentView.swift:408 | the trimmed text is a contiguous middle of the text, and everything cut from either end is whitespace |
| Strings.TrimUnpadded | Sources/PenguinTomato/ContentView.swift:408 | a text with no whitespace at either end trims to itself |
| Strings.TrimPadded | Sources/PenguinTomato/ContentView.swift:408 | whitespace added around a text does not change its trim |
| Strings.ParseInt | Sources/PenguinTomato/ContentView.swift:415-419 | `Int(String)` accepts only a text that starts with a digit, or with a sign followed by at least one character, and continues with digits only; an all-digit text gives its decimal value, a sign followed by digits gives that value with the sign; in both cases exactly when the value fits in 64 bits |
| ContentView.ParseDuration | Sources/PenguinTomato/ContentView.swift:407-426 | every accepted duration lies between one second and twelve hours, and a text that trims to nothing is rejected |
| ContentView.ParseMinutesSeconds | Sources/PenguinTomato/ContentView.swift:412-418 | the colon form is accepted exactly when there is one colon, both fields are integers and the seconds are 0 to 59; the value is `minutes * 60 + seconds` |
| ContentView.ParseMinutes | Sources/PenguinTomato/ContentView.swift:419-423 | an accepted bare text is a whole number of minutes, and that number is the integer the text reads as; a text that is not an integer is rejected |
| ContentView.FormattedDuration | Sources/PenguinTomato/ContentView.swift:400-405 | negative durations show as "00:00", and a duration below 100 minutes takes five characters |
| ContentView.Summary | Sources/PenguinTomato/ContentView.swift:246-250 | the row's summary equals the formatted duration for non-negative seconds and differs from it for negative ones, which it does not clamp |
| ContentView.ParseFields | Sources/PenguinTomato/ContentView.swift:407-426 | two numerals around one colon read as `minutes * 60 + seconds` when the seconds are below 60 and the total is in range, and are rejected otherwise |
| ContentView.ParseNumeral | Sources/PenguinTomato/ContentView.swift:419-425 | a bare numeral reads as that many minutes when it is 1 to 720, and is rejected otherwise |
| ContentView.NoColonInDigits | Sources/PenguinTomato/ContentView.swift:412 | a numeral never holds a colon, so it takes the bare-minutes branch |
| ContentView.ParseFormattedDuration | Sources/PenguinTomato/ContentView.swift:400-426 | for every duration from 1 second to 12 hours, parsing its formatted text gives it back |
| ContentView.FormattedDurationReads | Sources/PenguinTomato/ContentView.swift:400-405 | the formatted text of a positive duration is its minutes and seconds as numerals around one colon, with no whitespace at the ends |
| ContentView.ParseClock | Sources/PenguinTomato/ContentView.swift:407-426 | any text of that shape reads back as the duration when it is in range |
| ContentView.ParseBareMinutes | Sources/PenguinTomato/ContentView.swift:419-425 | the numeral of `n` reads as `n` minutes for `n` from 1 to 720 and is rejected otherwise |
| ContentView.ParseIgnoresPadding | Sources/PenguinTomato/ContentView.swift:408 | whitespace around a text never changes how it parses |
| ContentView.ParseIntFields | Sources/PenguinTomato/ContentView.swift:412-425 | any two integer fields around one colon, signed ones included, read as `minutes * 60 + seconds` exactly when the seconds are 0 to 59 and the total is 1 second to 12 hours, and are rejected otherwise |
| ContentView.IntFieldsShape | Sources/PenguinTomato/ContentView.swift:408-413 | two integer fields joined by a colon trim to themselves, hold a colon, and split back into exactly those two fields |
| ContentView.NumeralIsInt | Sources/PenguinTomato/ContentView.swift:415-419 | a numeral within 64 bits is an integer of its own decimal value and holds no colon |
| ContentView.ParseSignedNumeral | Sources/PenguinTomato/ContentView.swift:419-425 | a sign followed by a numeral, without a colon, reads as that many minutes, negated after a minus, exactly when the signed count is 1 to 720, and is rejected otherwise |
| ContentView.ParseBareJunk | Sources/PenguinTomato/ContentView.swift:419-423 | without a colon, a text that starts with neither a sign nor a digit is rejected |
| ContentView.ParsePaddedMinutes | Sources/PenguinTomato/ContentView.swift:408-425 | bare minutes between whitespace read as those minutes |
| ContentView.ParseManyColons | Sources/PenguinTomato/ContentView.swift:413-414 | a text with two or more colons is rejected |
| ContentView.ParseEmptyField | Sources/PenguinTomato/ContentView.swift:413-417 | a colon with nothing before it or after it is rejected |
| ContentView.StatusChip | Sources/PenguinTomato/ContentView.swift:310-326 | "Focus" exactly when running in focus; "Break" exactly when running in another mode; "Paused" exactly when paused; "Break ready" exactly when idle in a break; "Idle" exactly when idle otherwise; the focus, pause and sleeping penguins go with "Focus", "Paused" and "Idle", and the break penguin exactly with the two break captions |
| ContentView.ChipAgreesWithMenuBar | Sources/PenguinTomato/ContentView.swift:310-317 | the chip names a running interval exactly when the menu bar shows a countdown instead of the idle label |
| ContentView.MenuBarCountdownReads | Sources/PenguinTomato/TimerModel.swift:69-82 | while running, the countdown in the menu bar parses back as the time left |
| ContentView.DurationEditors.constructor | Sources/PenguinTomato/ContentView.swift:11-13 | no editor is open, there are no texts and no invalid editors |
| ContentView.DurationEditors.ToggleEditor | Sources/PenguinTomato/ContentView.swift:328-338 | an open editor closes and nothing else changes; otherwise the editor opens on the formatted current duration and loses its invalid mark; only that mode's text is replaced |
| ContentView.DurationEditors.ApplyDuration | Sources/PenguinTomato/ContentView.swift:340-349 | a missing or unparsable text only marks the editor invalid; a parsed one clears the mark, sends exactly one update with the parsed seconds, and shows the formatted value; an editor left valid shows a text that reads back as the last update |
| ContentView.DurationEditors.Commit | Sources/PenguinTomato/ContentView.swift:346-348 | the accepted branch: the mark is cleared, the update is sent, and the new text reads back as the seconds sent |
| ContentView.DurationEditors.RefreshEditorTexts | Sources/PenguinTomato/ContentView.swift:390-394 | after the loop over all modes, every mode's editor holds the formatted duration of that mode |
| DurationExamples.ParseMinutesExamples | Sources/PenguinTomato/ContentView.swift:419-425 | "25" is 1500 seconds and "720" is 43200; "0" and "721" are rejected |
| DurationExamples.ParsePaddedExample | Sources/PenguinTomato/ContentView.swift:408 | " 25\n" is 1500 seconds |
| DurationExamples.ParseFieldsExamples | Sources/PenguinTomato/ContentView.swift:412-425 | "5:30" is 330 seconds and "0:01" is one second; "5:60" is rejected |
| DurationExamples.ParseEmptyExamples | Sources/PenguinTomato/ContentView.swift:409-417 | "5:", ":30" and "" are rejected |
| DurationExamples.ParseColonsExample | Sources/PenguinTomato/ContentView.swift:413-414 | "1:2:3" is rejected |
| DurationExamples.ParseNegativeZeroExample | Sources/PenguinTomato/ContentView.swift:412-418 | "-0:30" is 30 seconds, since "-0" is an integer |
| DurationExamples.ParseSignedMinutesExample | Sources/PenguinTomato/ContentView.swift:419-425 | "+5" is 300 seconds; "-5" is rejected as out of range and "x5" as not a number |

## Left out

- Real time and the `DispatchSourceTimer` are not modelled. `createTimer` and `cancelTimer` (TimerModel.swift:138-148, 174-178) are modelled as the flag `ticking`, set by `CreateTimer` and cleared by `CancelTimer`, and each firing is one call of `Tick`. The `[weak self]` capture and main-actor confinement need no model, because nothing runs concurrently.
- `NotificationManager`, `SoundPlayer`, `Bundle+Penguin.swift`, `PenguinTomatoApp.swift` and `Package.swift` are not part of this model. They are platform I/O. Their calls appear only as events in the ghost log.
- The SwiftUI views, button styles, palette colours, opacities and the `largePenguinStatus` layout are not modelled. They are presentation and floating point.
- `modeIcon(for:)` and the `binding(for:)` getter are not modelled. They load images, or only wrap `editorText` for a text field.
- Swift `Int` overflow traps are not modelled. Integers are unbounded, so `minutes * 60` at TimerModel.swift:89,96,113,121,134 and ContentView.swift:418,420 never traps.
- Trimming covers only the ASCII whitespace characters (space, tab, line feed, carriage return), not Foundation's full Unicode `whitespacesAndNewlines` set. `Int(String)` accepts only ASCII digits after an optional sign.
- The behaviour asserted only by the tests (`stop()`, `.breakTime`, seconds-based `updateDuration`, `menuBarIconName`, automatic focus→break chaining) is not timer behaviour here, because `TimerModel.swift` has none of it.
- ContentView.StatusChip: `.breakTime` does not exist in `TimerModel.swift`, so "Break ready" is shown for a short or a long break.
- ContentView.DurationEditors.ApplyDuration: the timer has no `updateDuration(for:seconds:)`, so the update is recorded in the ghost log `updates` and its effect on a timer is not modelled.
- ContentView.DurationEditors.ToggleEditor and ContentView.DurationEditors.RefreshEditorTexts receive the number that `formattedDuration(for:)` formats as a parameter, instead of reading `model.duration(for:)`, which returns minutes in `TimerModel.swift`.
- Timer.TimerModel.FormattedRemaining has no contract of its own. Its text is described by `Strings.Clock`, `Strings.ClockReadsBack` and `Timer.TimerModel.DefaultClock`.
- Timer.TimerModel.Tick: the source's `guard remaining > 0 else { completeTimer() }` followed by the decrement is written as "take off a second when positive, then complete at zero". The two have the same effect.
