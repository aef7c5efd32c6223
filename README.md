# Multi-timer countdown: a Dafny model

This project models the core of a countdown display. An operator creates
named timers on a control page, starts, pauses, resets and removes them.
A projection screen shows the same timers full-screen.

The model covers:

- the timer store: its list of `Timer` records, its five commands and its
  once-per-second tick;
- the control card: its signed `HH:MM:SS` formatter, its colour classes and
  the buttons it offers per status;
- the projection screen: its unsigned formatter, its colour, border, icon,
  label and badge classifiers, and its refresh from a stored snapshot;
- the creation form: the total-seconds arithmetic, the guard on the duration
  and the trimmed name, and the reset of the form.

Modules, one per source file plus shared pieces:

- `TimerTypes` holds the `Status`, `Timer` and `FormData` records.
- `TimerList` holds the store's commands and the tick as pure functions over
  `seq<Timer>`, with their lemmas.
- `TimerContext` holds `TimerProvider`, a class whose `timers` field each
  command reassigns, as the source does through `setTimers`.
- `ClockText` holds the primitives behind both formatters: JavaScript's
  `toString` for integral numbers, `padStart(2, '0')`, the split into hours,
  minutes and seconds, and `ReadClock`. `ReadClock` is an independent reader
  of `HH:MM:SS` text that the formatters are proved against.
- `TimerCard`, `Projection` and `AddTimerForm` follow the three view files.
- `Session` is a client that runs one form-to-projection scenario.
- `Wrappers` holds `Option`.

Numbers are modelled as unbounded integers. The source's values are
integral (whole seconds, `parseInt` results), and JavaScript's doubles hold
such values exactly up to 2^53, so within that range they behave as the
integers here (see "## Left out" for larger values). Division and remainder follow JavaScript: `Math.floor(a / b)` is
Dafny's `/` for a positive `b`. A remainder `a % b` takes the sign of `a`,
which `Projection.JsRem` writes out. Ids are parameters of the commands.

The store's policy, taken from the code:

- A running timer stops at zero and becomes finished.
- A tick never produces a negative count.
- `startTimer` has no guard, so it also restarts a finished timer, which
  then runs at zero. Only the card's disabled Start button keeps the
  operator from doing that (`TimerCard.CardCannotRestartFinished`).

The code has no `setDuration` command, no error results and no overrun in its
tick. Commands on an absent id are silent no-ops, as the code's
`map`/`filter` make them. Validation happens only in the form.

## Model

| member | source | states |
|---|---|---|
| TimerList.AddTimer | contexts/TimerContext.tsx:60-69 | appends exactly one record `{id, name, T, T, paused}`; earlier records unchanged and in order; length + 1 |
| TimerList.NewTimer | contexts/TimerContext.tsx:61-67 | the created record is paused with `remainingSeconds == totalSeconds` |
| TimerList.RemoveTimer | contexts/TimerContext.tsx:71-73 | the result holds exactly the records whose id differs (both directions of membership), never more records than before |
| TimerList.RemoveAppend | contexts/TimerContext.tsx:72 | removal distributes over concatenation, so relative order is kept |
| TimerList.RemoveAbsent | contexts/TimerContext.tsx:72 | removing an id no record carries leaves the list unchanged |
| TimerList.RemoveLeavesNone | contexts/TimerContext.tsx:72 | after removal no record carries the id |
| TimerList.RemoveIdempotent | contexts/TimerContext.tsx:71-73 | removing twice equals removing once |
| TimerList.RemoveUndoesAdd | contexts/TimerContext.tsx:60-73 | add under a fresh id then remove that id gives back the original list |
| TimerList.StartTimer | contexts/TimerContext.tsx:75-81 | every record with the id becomes running, whatever its status; every other field and record unchanged |
| TimerList.StartIdempotent | contexts/TimerContext.tsx:75-81 | starting twice equals starting once |
| TimerList.StartRestartsFinished | contexts/TimerContext.tsx:77-79 | a finished record becomes running, with its count unchanged (no guard) |
| TimerList.PauseTimer | contexts/TimerContext.tsx:83-89 | every record with the id becomes paused; nothing else changes |
| TimerList.PauseIdempotent | contexts/TimerContext.tsx:83-89 | pausing twice equals pausing once |
| TimerList.PauseOnPausedIsNoOp | contexts/TimerContext.tsx:83-89 | pausing records that are all paused changes nothing |
| TimerList.PauseAfterStart | contexts/TimerContext.tsx:75-89 | start then pause equals pause alone |
| TimerList.ResetTimer | contexts/TimerContext.tsx:91-98 | matching records get `remainingSeconds == totalSeconds` and paused, keep id, name and total; others unchanged |
| TimerList.ResetIdempotent | contexts/TimerContext.tsx:91-98 | resetting twice equals resetting once |
| TimerList.ResetAfterStartOrPause | contexts/TimerContext.tsx:75-98 | a reset absorbs an earlier start or pause of the same id |
| TimerList.TickTimer | contexts/TimerContext.tsx:39-48 | a running record with time left loses exactly one second and is finished iff it reaches 0, else running; any other record is unchanged; id, name, total kept |
| TimerList.Tick | contexts/TimerContext.tsx:38-50 | the tick keeps the length and applies the one-record step to each position |
| TimerList.TickMonotone | contexts/TimerContext.tsx:40-41 | a tick never raises a count, and non-negative counts stay non-negative |
| TimerList.TickLeavesIdle | contexts/TimerContext.tsx:40-48 | paused, finished and running-at-zero records are fixed points of the tick |
| TimerList.TicksKeepIdentity | contexts/TimerContext.tsx:42-46 | any number of ticks keeps length, ids, names and totals |
| TimerList.TicksCountDown | contexts/TimerContext.tsx:40-46 | a record running with R left, after n <= R ticks, has R - n left; it is finished iff n == R > 0 |
| TimerList.TicksHoldAtZero | contexts/TimerContext.tsx:40-48 | a record at zero is not moved by any number of ticks |
| TimerList.AddKeepsWellFormed | contexts/TimerContext.tsx:60-69 | adding a non-negative duration keeps `0 <= remaining <= total` and finished only at 0 |
| TimerList.CommandsKeepWellFormed | contexts/TimerContext.tsx:71-98 | remove, pause and reset keep that invariant |
| TimerList.TickKeepsWellFormed | contexts/TimerContext.tsx:38-50 | the tick keeps that invariant |
| TimerList.StartKeepsWellFormed | contexts/TimerContext.tsx:75-81 | start keeps that invariant |
| TimerList.ResetAfterTicksRestoresDuration | contexts/TimerContext.tsx:91-98 | add(T), any number of ticks, reset: the new record is `{id, name, T, T, paused}` |
| TimerList.ScenarioSpeech | contexts/TimerContext.tsx:40-46 | add(90), start, 3 ticks: 87 left and running |
| TimerList.ScenarioBreak | contexts/TimerContext.tsx:40-46 | add(5), start, 5 ticks: 0 left and finished; a further start and any ticks: 0 left and running |
| TimerContext.TimerProvider.constructor | contexts/TimerContext.tsx:18 | the store starts empty |
| TimerContext.TimerProvider.AddTimer | contexts/TimerContext.tsx:60-69 | the state becomes `AddTimer` of the old state |
| TimerContext.TimerProvider.RemoveTimer | contexts/TimerContext.tsx:71-73 | the state becomes `RemoveTimer` of the old state; no record keeps the id |
| TimerContext.TimerProvider.StartTimer | contexts/TimerContext.tsx:75-81 | the state becomes `StartTimer` of the old state |
| TimerContext.TimerProvider.PauseTimer | contexts/TimerContext.tsx:83-89 | the state becomes `PauseTimer` of the old state |
| TimerContext.TimerProvider.ResetTimer | contexts/TimerContext.tsx:91-98 | the state becomes `ResetTimer` of the old state |
| TimerContext.TimerProvider.Tick | contexts/TimerContext.tsx:37-51 | one interval firing: the state becomes `Tick` of the old state and keeps the invariant |
| ClockText.Split | components/TimerCard.tsx:24-26 | hours >= 0, minutes and seconds in 0..59, and `h*3600 + m*60 + s` equals the input |
| ClockText.SplitRecovers | components/TimerCard.tsx:24-26 | a reading with minutes and seconds in range is recovered from its seconds |
| ClockText.NatToString | components/TimerCard.tsx:27 | `toString` of a non-negative integer: digits only, no leading zero unless the number is 0, 1 digit iff < 10, at most 2 iff < 100 |
| ClockText.NatToStringValue | components/TimerCard.tsx:27 | the digits read back as the number |
| ClockText.IntToString | app/projection/page.tsx:33 | `toString` of any integer: a leading '-' iff negative, then the magnitude's digits |
| ClockText.PadStart2 | components/TimerCard.tsx:27 | `padStart(2, '0')`: length max(2, n), the input is the suffix, the prefix is zeros |
| ClockText.FieldReads | components/TimerCard.tsx:27 | a padded field is at least 2 digits, exactly 2 iff below 100, and reads back as its number |
| ClockText.ReadJoined | components/TimerCard.tsx:27 | three padded fields joined by ':' read back as the clock they show |
| TimerCard.Time | components/TimerCard.tsx:23-27 | the unsigned clock text is at least 8 characters and starts with a digit |
| TimerCard.FormatTime | components/TimerCard.tsx:21-29 | a leading '-' exactly for negative input; never shorter than `HH:MM:SS` |
| TimerCard.FormatTimeNegative | components/TimerCard.tsx:22-28 | for negative input the text is "-" followed by the text of the magnitude |
| TimerCard.TimeReadsBack | components/TimerCard.tsx:23-27 | the unsigned text reads back as the split of the input, with minutes and seconds in 0..59 that recompose to it; 8 characters iff below 360000 |
| TimerCard.FormatTimeReadsBack | components/TimerCard.tsx:21-29 | sign aside, the text reads back as the split of the magnitude and is 8 characters iff the magnitude is below 360000 |
| TimerCard.StatusColor | components/TimerCard.tsx:31-36 | overrun first: red-600 iff negative; otherwise red-500, green-500 or gray-500 iff finished, running or paused |
| TimerCard.CardFrame | components/TimerCard.tsx:39-43 | the card frame is overrun red iff negative, light red iff finished at or above zero, neutral otherwise |
| TimerCard.Buttons | components/TimerCard.tsx:55-86 | with controls: three buttons, Pause iff running, an enabled Start iff paused, a disabled Start iff finished, then Reset and Remove; none without controls |
| TimerCard.CardCannotRestartFinished | components/TimerCard.tsx:64-72 | no button the card offers a finished timer makes it run, although the store's start would |
| TimerCard.WellFormedNeverOverrun | components/TimerCard.tsx:31-36 | records that keep the store's invariant never show the overrun colour, frame or a minus sign |
| Projection.JsRem | app/projection/page.tsx:31-32 | JavaScript's `%`: the dividend minus a whole multiple of the divisor, with the dividend's sign and a magnitude below the divisor |
| Projection.FormatTime | app/projection/page.tsx:29-34 | for non-negative input it is exactly the control card's text |
| Projection.FormatTimeReadsBack | app/projection/page.tsx:29-34 | for non-negative input the text reads back with minutes and seconds in 0..59 that recompose to the input |
| Projection.FormatTimeNegativeDiffers | app/projection/page.tsx:29-34 | on -5 the projection prints `-1:-1:-5` while the card prints `-00:00:05` |
| Projection.TimerColor | app/projection/page.tsx:36-40 | one gradient per status, red, emerald/green or gray, each iff its status |
| Projection.TimerBorder | app/projection/page.tsx:42-46 | one border per status, each iff its status |
| Projection.BorderPulsesIffRunning | app/projection/page.tsx:42-46 | the border contains `animate-pulse` iff the timer is running |
| Projection.StatusIcon | app/projection/page.tsx:48-52 | ⏹️ iff finished, ▶️ iff running, ⏸️ iff paused |
| Projection.StatusLabel | app/projection/page.tsx:103-105 | TERMINADO iff finished, EM EXECUÇÃO iff running, PAUSADO iff paused |
| Projection.StatusBadge | app/projection/page.tsx:98-102 | the badge is red, green or gray iff finished, running or paused |
| Projection.IconAndLabelAgree | app/projection/page.tsx:48-52 | icons, and labels, are equal exactly when the statuses are |
| Projection.BadgeMatchesCard | app/projection/page.tsx:98-102 | the projection badge has the control card's colour iff the count is not negative |
| Projection.View.constructor | app/projection/page.tsx:7 | the projection starts with no timers |
| Projection.View.Refresh | app/projection/page.tsx:11-15 | a stored snapshot replaces the local list; no snapshot leaves it |
| AddTimerForm.TrimStart | components/AddTimerForm.tsx:20 | removes exactly the leading white space, leaving a suffix |
| AddTimerForm.TrimEnd | components/AddTimerForm.tsx:20 | removes exactly the trailing white space, leaving a prefix |
| AddTimerForm.TrimEmptyIff | components/AddTimerForm.tsx:20 | a name trims to "" iff every character is white space |
| AddTimerForm.Accepts | components/AddTimerForm.tsx:18-20 | the guard holds iff the total is positive and the name has a visible character |
| AddTimerForm.DurationRoundTrip | components/AddTimerForm.tsx:18 | with hours >= 0 and minutes, seconds in 0..59, the total splits back into the fields, and the card's text of it reads back as them |
| AddTimerForm.GuardIgnoresFieldRanges | components/AddTimerForm.tsx:18-20 | 1 h, -5 min gives 3300 s and is accepted: the guard checks only the total |
| AddTimerForm.ParsedOrZero | components/AddTimerForm.tsx:49 | an unparsable entry counts as 0, a parsed one as itself |
| AddTimerForm.Form.constructor | components/AddTimerForm.tsx:9-14 | the form starts blank |
| AddTimerForm.Form.SetName | components/AddTimerForm.tsx:35 | only the name changes |
| AddTimerForm.Form.SetHours | components/AddTimerForm.tsx:49 | only the hours change, to the parsed value or 0 |
| AddTimerForm.Form.SetMinutes | components/AddTimerForm.tsx:60 | only the minutes change, to the parsed value or 0 |
| AddTimerForm.Form.SetSeconds | components/AddTimerForm.tsx:71 | only the seconds change, to the parsed value or 0 |
| AddTimerForm.Form.Submit | components/AddTimerForm.tsx:16-24 | iff the guard holds: one timer added with the untrimmed name and the total, and the form reset to blank; otherwise store and form unchanged |
| Session.SpeechOnBothScreens | app/page.tsx:46-52 | form 1:30 "Speech", submit, start, 3 ticks, one poll: both screens hold `{Speech, 90, 87, running}` |

## Left out

- Browser storage is left out: the `localStorage` load and save and the JSON encoding (contexts/TimerContext.tsx:21-30, app/projection/page.tsx:10-22). `Projection.View.Refresh` takes the decoded snapshot, or none.
- Scheduling is left out: `setInterval`/`clearInterval`, `intervalRef` and effect cleanup. Only the body of the tick and of the poll are modelled.
- Id generation is left out: `Date.now().toString()` reads a clock and does not guarantee unique ids. The id is a parameter. Only `TimerList.RemoveUndoesAdd` assumes the new id is fresh; every other lemma holds with duplicate ids.
- The projection's wall clock and date (`toLocaleTimeString`, `toLocaleDateString`) are locale rendering and are left out.
- The progress-bar width (app/projection/page.tsx:125) is floating-point division and is left out.
- The progress-bar and glow colour classes (app/projection/page.tsx:119-123, 140-147) repeat the three-way status split and are not modelled.
- Text parsing by `parseInt` is left out. The setters take the parsed value, or none when the entry is not a number. The inputs' `min`/`max` attributes are not enforced by code.
- Everything in `lib/supabase.ts` is left out, and so is the snake_case `TimerDB` shape. No shown code uses either.
- Remote synchronisation is left out, since the shown code has none.
- React context plumbing (`useTimers`), the markup, and the layout in `app/page.tsx` are left out.
- `ClockText.NatToString` prints every integer in plain decimal. JavaScript switches to exponential notation from 10^21 on; that case is not modelled.
- Non-integral and non-finite numbers (NaN, Infinity) are outside the integer model.
- `AddTimerForm.TotalSeconds`, `TimerList.TickTimer` and `AddTimerForm.DurationRoundTrip` use exact integers. JavaScript rounds doubles above 2^53, where `+ 1` or `- 1` can be lost, so a huge total can lose its seconds and a huge count can stop counting down. That rounding is not modelled.
- The optional `created_at`/`updated_at` fields of `Timer` (types/timer.ts:9-10) are not modelled. Every command copies a record with `...timer`, so they would pass through unchanged.
