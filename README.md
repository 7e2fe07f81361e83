# Dual clocks, modelled in Dafny

The program is a page with two stopwatches, used like a chess clock.
Each clock shows its accumulated time as `HH:MM:SS` and can be edited.
"Left" runs the left clock and stops the right one, and "Right" does the opposite.
"Stop All" stops both clocks, and "Reset All" sets both to zero.

The model has three parts, each with the properties proved about it.

- **Formatter and parser** (modules `JsText`, `TimeFormat`, `TimeFormatFacts`).
  - `zeroPad` pads a number to at least two digits and never truncates.
  - `formatTime` is a method that peels off hours, minutes and seconds step by step, as the code does. It is proved equal to the closed form `Formatted`.
  - `convertValueToMilliseconds` splits its text on `:`, reads each field with `parseInt` and returns `h*3600000 + m*60000 + s*1000`. The model returns `None` where JavaScript produces `NaN` because a field is missing or has no digits. Its numbers are exact, so fields large enough to overflow to `Infinity` are outside it (see "## Left out").
  - `JsText` models the built-ins these functions use: `String(n)` for integers, `padStart`, `split`, the joining template literal, and `parseInt(x, 10)` with its leading white space, optional sign and longest digit prefix.
  - Round trip: parsing the formatted text gives back the time truncated to whole seconds.
- **Timer engine** (module `TimerEngine`: the `useTimer` hook).
  - A `Snapshot` holds the accumulated `time`, the instant `lastUpdate` of the last accounting, the run state, whether an interval exists, and a ghost `nextDue`. The scheduler does not call back before `nextDue`.
  - Each handler and the effect that follows it form one atomic step. The functions `AfterStart`, `AfterStop`, `AfterUpdate`, `AfterReset` and `AfterTick` give the state after each step.
  - The class `Timer` performs the same steps field by field. Its methods are proved to match those functions.
  - `Settled` is the invariant every step keeps: an interval exists exactly while running, `lastUpdate` is set exactly while running, and the next callback is due one interval after the last accounting.
  - Time is accounted by elapsed wall-clock time, not by the number of callbacks.
- **Controller** (module `ClockController`: the buttons of `App`).
  - The class `DualClock` drives two `Timer` objects.
  - The invariant is that at most one clock runs. It holds over every sequence of clicks, edits and interval callbacks.
- Module `Scenarios` holds whole runs on a simulated clock.

The wall clock is the parameter `now` of each operation that reads it.
The interval timer is the flag `intervalActive` together with explicit `Tick` calls.

## Model

| member | source | states |
|---|---|---|
| JsText.Decimal | index.js:144 | `String(n)` of a non-negative integer is a non-empty string of decimal digits |
| JsText.DecimalValue | index.js:144 | the digits of `String(n)` read back as `n` |
| JsText.DecimalShape | index.js:144 | `String(n)` has one digit iff `n < 10`, at most two iff `n < 100`, and no leading zero when `n > 0` |
| JsText.DigitChar | index.js:144 | each digit value has a digit character that reads back as that value |
| JsText.PadStart | index.js:144 | `padStart` keeps the whole text as a suffix, fills the front up to the width and never shortens the text |
| JsText.LeadingZerosValue | index.js:144 | zeros in front of a digit string keep it all digits and keep its value |
| JsText.TrimStart | index.js:172 | `parseInt` skips the longest prefix of white space: everything dropped is white space, and what is left is empty or starts with another character |
| JsText.NumberToString | index.js:144 | `String(num)` of an integer: a minus sign before the digits of its magnitude; `ParseIntOfNumberToString` reads it back |
| JsText.ParseInt | index.js:172 | `parseInt(x, 10)`: the optional sign and digits that follow the leading white space; `ParseIntDigits`, `ParseIntNegative` and `ParseIntNaN` state its results |
| JsText.ParseSigned | index.js:172 | one optional `-` or `+`; a `-` negates the digits' value, and no digits after the sign is `NaN` |
| JsText.ParseUnsigned | index.js:172 | the value of the longest run of leading digits, `NaN` when that run is empty |
| JsText.JoinWith | index.js:193 | joining parts with a separator, as the template literal does for three fields (`JoinThree`); `SplitJoin` and `JoinSplit` tie it to `split` |
| JsText.DigitPrefix | index.js:172 | `parseInt` reads the longest prefix of decimal digits |
| JsText.DigitPrefixOfDigits | index.js:172 | an all-digit string is its own digit prefix |
| JsText.ParseIntDigits | index.js:172 | a non-empty all-digit field parses to its decimal value |
| JsText.ParseIntNegative | index.js:172 | a minus sign before the digits negates the value |
| JsText.ParseIntOfNumberToString | index.js:172 | `parseInt(String(n), 10) == n` for every integer |
| JsText.ParseIntNaN | index.js:172 | `parseInt` is `NaN` exactly when no digit follows the white space and an optional sign |
| JsText.Split | index.js:171 | `split` always yields at least one part |
| JsText.SplitPartsFree | index.js:171 | no part of a `split` contains the separator |
| JsText.SplitCount | index.js:171 | `split` yields one part more than there are separators |
| JsText.SplitNoSeparator | index.js:171 | text without the separator splits into itself |
| JsText.SplitAtSeparator | index.js:171 | text up to the first separator is the first part |
| JsText.SplitJoin | index.js:243 | joining parts free of the separator and splitting again gives back the parts |
| JsText.JoinSplit | index.js:243 | splitting and joining again gives back the text |
| TimeFormat.ZeroPad | index.js:143-145 | the padded text ends with `String(num)` and is that text, or two characters when it is shorter |
| TimeFormat.FormatTime | index.js:147-167 | the step-by-step peeling of hours, minutes and seconds yields the closed form: `zeroPad(ms / HOUR):zeroPad(ms % HOUR / MINUTE):zeroPad(ms % MINUTE / SECOND)` for `ms >= 0`, and `00:00:00` for negative `ms` |
| TimeFormat.Formatted | index.js:147-167 | the closed form of `formatTime`; `FormatTime` is proved equal to it, and the lemmas below are about it |
| TimeFormat.Display | index.js:166 | the display of three field values, each padded by `zeroPad` and joined with `:` |
| TimeFormat.Join3 | index.js:193 | the template literal that joins three fields with `:` (also index.js:166); `SplitDisplayFree` splits it back |
| TimeFormat.ConvertValueToMilliseconds | index.js:169-174 | `split(":")`, `parseInt` of the first three fields and the weighted sum; `None` for fewer than three fields or a `NaN` field; its properties are the `TimeFormatFacts` lemmas on parsing |
| TimeFormat.Milliseconds | index.js:173 | the sum is `NaN` when any of the three fields is `NaN` |
| TimeFormat.Total | index.js:173 | `hours * HOUR + minutes * MINUTE + seconds * SECOND` on field values that are numbers |
| TimeFormat.MinutesOfHourRemainder | index.js:154-159 | taking the minutes from the remainder of the hours equals taking them from the whole count |
| TimeFormatFacts.BelowOneSecond | index.js:147-167 | every `ms < 1000`, negative ones included, shows as `00:00:00` |
| TimeFormatFacts.FormatOneAndAHalfSeconds | index.js:147-167 | 1500 ms shows as `00:00:01`: sub-second remainders are truncated |
| TimeFormatFacts.FormatHundredHours | index.js:147-167 | 100 hours shows as `100:00:00`: the hours field is not truncated |
| TimeFormatFacts.FormattedOfCanonical | index.js:147-167 | hours, minutes below 60, seconds below 60 and a sub-second rest show as exactly those fields |
| TimeFormatFacts.FieldsRecombine | index.js:147-167 | the three displayed fields add back up to the time truncated to whole seconds |
| TimeFormatFacts.FieldsOfCanonical | index.js:152-164 | the peeled fields of `h:m:s` plus a sub-second rest are `h`, `m` and `s` |
| TimeFormatFacts.ZeroPadDigits | index.js:143-145 | `zeroPad(n)` is all digits, reads back as `n`, and is two characters iff `n < 100` |
| TimeFormatFacts.ZeroPadZero | index.js:143-145 | `zeroPad(0)` is `00` |
| TimeFormatFacts.ZeroPadHundred | index.js:143-145 | `zeroPad(100)` is `100` |
| TimeFormatFacts.ZeroPadNoColon | index.js:143-145 | a padded field never contains `:` |
| TimeFormatFacts.FormattedShape | index.js:147-167 | the display splits into exactly three fields, each at least two characters, which rejoin to the display |
| TimeFormatFacts.SplitDisplay | index.js:166 | the display splits into the three padded fields |
| TimeFormatFacts.ConvertThreeFields | index.js:169-174 | the value depends only on `parseInt` of the first three fields |
| TimeFormatFacts.ConvertDigitFields | index.js:169-174 | three all-digit fields `h:m:s` give `h*3600000 + m*60000 + s*1000` |
| TimeFormatFacts.ExtraFieldsIgnored | index.js:170-173 | fields after the third do not change the value |
| TimeFormatFacts.SplitWithExtra | index.js:170-171 | text with more than three fields splits into the three fields and the split of the rest |
| TimeFormatFacts.MissingFieldIsNaN | index.js:169-174 | text with fewer than two `:` is `NaN` |
| TimeFormatFacts.NonNumericHours | index.js:172-173 | `abc:00:00` is `NaN` |
| TimeFormatFacts.NinetyMinutes | index.js:147-174 | `00:90:00` is not clamped: it gives 5400000, which shows as `01:30:00` |
| TimeFormatFacts.FiveSeconds | index.js:169-174 | `00:00:05` gives 5000 |
| TimeFormatFacts.ParseDisplay | index.js:147-174 | the display of any non-negative fields parses back to their weighted sum |
| TimeFormatFacts.ParseFormatted | index.js:147-174 | parsing `formatTime(ms)` gives `ms - ms % 1000` for `ms >= 0` and 0 for negative `ms` |
| TimeFormatFacts.WholeSecondsRoundTrip | index.js:147-174 | the round trip is exact for whole seconds |
| TimeFormatFacts.CanonicalTextRoundTrip | index.js:147-174 | canonical text `h:m:s` parses to its time and that time shows as the same text |
| TimerEngine.Unset | index.js:77 | `!s.lastUpdate`: `null` and the instant 0 are both falsy |
| TimerEngine.StampValue | index.js:87 | `now - s.lastUpdate` reads `null` as 0 |
| TimerEngine.Settled | index.js:67-141 | the invariant of the resting engine: an interval exists exactly while running, `lastUpdate` is set exactly while running, and the next callback is due one interval after the last accounting; every `After...` function keeps it |
| TimerEngine.WithInterval | index.js:75-95 | after `startInterval`, an interval exists and is due a full period after `now`, and `lastUpdate` is set: stamped with `now` if it was unset, otherwise kept; time and run state are kept |
| TimerEngine.WithoutInterval | index.js:103-104 | after `clearInterval`, no interval exists; time, stamp and run state are kept |
| TimerEngine.RunningEffect | index.js:98-100 | afterwards a running engine has an interval; an engine that already had one, or is stopped, is unchanged |
| TimerEngine.StoppedEffect | index.js:102-105 | afterwards a stopped engine has no interval; an engine without one, or running, is unchanged |
| TimerEngine.Effect | index.js:97-105 | after the effect, an interval exists exactly while the engine runs; time and run state are kept; a settled engine is unchanged, so running the effect when the run state did not change is harmless |
| TimerEngine.AfterStart | index.js:75-114 | after `start`, the engine runs with an interval and the same time; `lastUpdate` is stamped with `now` only if it was unset and no interval existed; an existing interval is kept with its phase; a running settled engine is unchanged; `Settled` is kept |
| TimerEngine.AfterStop | index.js:102-118 | after `stop`, the engine is stopped with `lastUpdate` null, no interval and the same time; `Settled` is kept |
| TimerEngine.AfterUpdate | index.js:102-123 | after `update`, the time is the converted value whatever the prior state, and the engine is stopped with `lastUpdate` null and no interval; `Settled` is kept |
| TimerEngine.AfterReset | index.js:124-135 | after `reset`, the time is 0 and the run state is kept; a running engine with an interval gets a new interval due a full period after the reset and is stamped with the reset instant; otherwise `lastUpdate` is null; `Settled` is kept |
| TimerEngine.AfterTick | index.js:84-93 | a callback stamps `lastUpdate` with `now`; when due, it adds the time elapsed since `lastUpdate`, at least one interval, and keeps `Settled` |
| TimerEngine.TicksAccountElapsed | index.js:84-93 | any run of callbacks accounts exactly the wall-clock time from the last accounting to the last callback; the time grows by at least one interval per callback |
| TimerEngine.TickCountIrrelevant | index.js:84-93 | two runs of callbacks ending at the same instant leave the same state, however many callbacks each has |
| TimerEngine.StopIdempotent | index.js:115-118 | stopping twice is stopping once |
| TimerEngine.StartIdempotent | index.js:97-114 | starting twice is starting once: no second interval is created |
| TimerEngine.UpdateIsStop | index.js:115-123 | `update` is `stop` with the time replaced |
| TimerEngine.ResetRestartsPhase | index.js:124-135 | after a reset of a running engine at `now`, no callback comes before `now + 1000`, and the first one accounts from `now` |
| TimerEngine.Timer.constructor | index.js:68-73 | a new engine holds time 0, `lastUpdate` null, is stopped and has no interval |
| TimerEngine.Timer.Start | index.js:75-114 | the fields after the handler and the effect are `AfterStart` of the fields before |
| TimerEngine.Timer.Stop | index.js:102-118 | the fields after the handler and the effect are `AfterStop` of the fields before |
| TimerEngine.Timer.Update | index.js:102-123 | the fields after the handler and the effect are `AfterUpdate` of the fields before, with the converted text |
| TimerEngine.Timer.Reset | index.js:124-135 | the fields after the handler are `AfterReset` of the fields before |
| TimerEngine.Timer.Tick | index.js:84-93 | the fields after a due callback are `AfterTick` of the fields before |
| TimerEngine.Timer.RunEffect | index.js:97-105 | the effect's two checks, in order |
| TimerEngine.Timer.EnsureIntervalRunning | index.js:98-100 | a running engine without an interval gets one |
| TimerEngine.Timer.EnsureIntervalCleared | index.js:102-105 | a stopped engine with an interval loses it |
| TimerEngine.Timer.StartInterval | index.js:75-95 | an unset `lastUpdate` is stamped, and an interval is scheduled one period ahead |
| TimerEngine.Timer.ClearInterval | index.js:103-104 | the interval is gone |
| ClockController.PressLeft | index.js:45-53 | after `Left`, the left clock runs and the right one is stopped, whatever ran before; times are kept |
| ClockController.PressRight | index.js:54-62 | after `Right`, the right clock runs and the left one is stopped, whatever ran before; times are kept |
| ClockController.PressStopAll | index.js:17-24 | after "Stop All", both clocks are stopped with their times kept |
| ClockController.PressResetAll | index.js:25-32 | after "Reset All", both clocks read zero and keep their run states; at most one still runs |
| ClockController.EditLeft | index.js:34-38 | an edit of the left clock sets its time and stops it, and leaves the right clock alone |
| ClockController.EditRight | index.js:39-43 | an edit of the right clock sets its time and stops it, and leaves the left clock alone |
| ClockController.Apply | index.js:17-62 | one click, edit or callback; an edit or a callback of one clock leaves the other clock unchanged |
| ClockController.Run | index.js:17-62 | the events applied in order; `RunKeepsExclusive` and `RunConcat` are proved about it |
| ClockController.RunConcat | index.js:17-62 | running two sequences of events one after the other is running them joined |
| ClockController.ApplyKeepsExclusive | index.js:17-62 | every click, edit and due callback keeps both engines settled and at most one running |
| ClockController.RunKeepsExclusive | index.js:17-62 | every sequence of them keeps at most one clock running |
| ClockController.RightMirrorsLeft | index.js:45-62 | `Right` is `Left` with the clocks swapped, though the calls come in the other order |
| ClockController.UnchangedEditTruncates | index.js:242-243 | opening the editor splits the display into three fields; saving them unchanged sets the time to the displayed whole seconds |
| ClockController.DualClock.constructor | index.js:11-13 | the page starts with two new, distinct, stopped engines |
| ClockController.DualClock.Left | index.js:45-53 | `start` on the left engine, then `stop` on the right, gives `PressLeft` |
| ClockController.DualClock.Right | index.js:54-62 | `stop` on the left engine, then `start` on the right, gives `PressRight` |
| ClockController.DualClock.StopAll | index.js:17-24 | `stop` on both engines gives `PressStopAll` |
| ClockController.DualClock.ResetAll | index.js:25-32 | `reset` on both engines gives `PressResetAll` |
| ClockController.DualClock.SaveLeft | index.js:192-195 | the three edited fields, joined with `:`, update the left engine as `EditLeft` says |
| ClockController.DualClock.SaveRight | index.js:192-195 | the three edited fields, joined with `:`, update the right engine as `EditRight` says |
| ClockController.DualClock.TickLeft | index.js:84-93 | a due callback of the left interval touches only the left engine |
| ClockController.DualClock.TickRight | index.js:84-93 | a due callback of the right interval touches only the right engine |
| Scenarios.StartTwoTicksStop | index.js:75-118 | start, callbacks at +1000 and +2000 and a stop at +2500 leave 2000 ms on a stopped clock |
| Scenarios.UpdateWhileRunning | index.js:119-123 | setting a running clock to `00:00:05` stops it at 5000 ms |
| Scenarios.ResetWhileRunning | index.js:124-135 | a reset of a running clock at `t` stamps it with `t`, and the next callback accounts from `t` |
| Scenarios.LeftAfterRight | index.js:45-62 | `Left` after `Right` runs the left clock alone |
| Scenarios.ResetAllKeepsStates | index.js:25-32 | "Reset All" zeroes a running and a stopped clock and leaves them running and stopped |

## Left out

- The rendering is not modelled: the JSX components `Button`, `TimeSingleInput` and `TimeInputSpacer`, the `IDLE`/`EDITING` toggle of `Time`, the editor's own field state in `TimeInput`, and `render` (index.js:1-2, 9, 176-314). The model keeps only the text the editor splits and joins.
- The `disabled` and `editDisabled` flags (index.js:35, 40, 46, 55) do nothing in the model. They only grey out buttons, and the engine behaves the same whether the buttons are pressed or not.
- `Date.now`, `setInterval` and `clearInterval` are replaced by the parameter `now`, the flag `intervalActive` and explicit `Tick` calls. The ghost `nextDue` is only a lower bound on the next callback. Browser throttling and late callbacks are allowed, but their exact timing is not modelled.
- The cleanup the effect returns (index.js:107) is not modelled. It runs on unmount, which the page never does, and before each re-run of the effect, that is, on each change of the run state. There it clears only the interval that the effect's second check (index.js:102-105) clears next, so the settled state is the same.
- React's hook mechanics are not modelled: `useState` batching, `useMemo`/`useCallback` closures and effect scheduling. Each handler and its effect is one atomic step.
  - The effect runs only when the run state changes. `Start` runs it unconditionally, which changes nothing in a settled state.
  - `Stop` and `Update` run only the effect's second check, because the first cannot fire on a stopped engine.
- A callback that fires between the render of `stop` and the effect that clears its interval is not modelled. That callback would compute `now - null`.
- TimerEngine.Timer.Update: requires the text to parse. Text that converts to `NaN` is not modelled. The code stores `NaN` as the time. `formatTime` then shows `00:00:00`, because every guard at index.js:152, 157 and 162 is false for `NaN`. Callbacks keep the time `NaN` (index.js:90) until a reset or a valid update.
- ClockController.DualClock.SaveLeft: requires the joined fields to parse, for the same reason.
- ClockController.DualClock.SaveRight: requires the joined fields to parse, for the same reason.
- TimerEngine.Timer.Tick: requires the interval to be due. This encodes that the scheduler never calls back early. It is not a check in the code.
- Numbers are unbounded integers, not IEEE doubles.
  - `parseInt` of very long digit strings and very large sums lose precision in JavaScript but not here.
  - TimeFormat.ConvertValueToMilliseconds: gives a number where JavaScript gives `NaN` when one field is so long that `parseInt` yields `Infinity` and another yields `-Infinity`, because `Infinity + -Infinity` is `NaN`. Fields that overflow to `Infinity` alone give `Infinity` in JavaScript and a large exact number here.
  - `Math.floor` agrees with Dafny's division because `formatTime` divides only non-negative values.
  - `parseInt("-0")` is `-0` in JavaScript and 0 here; the sums compare equal either way.
- Strings are sequences of Unicode scalar values, not UTF-16 code units. The white-space set `parseInt` skips is written out by code point.
- Text with more than three fields: the code reads the first three fields and ignores the rest (index.js:170-173). The model does the same (see `ExtraFieldsIgnored`).
- Malformed text raises no error: the code yields `NaN`, which the model represents as `None`.
