# Craft session recorder — a Dafny model

This project models the main screen of a single-page craft timer. A record button starts and stops a session. While a session is recording, a screen tap counts one action, briefly shows a click effect at the tap position, and asks for a short vibration. A one-second interval advances the elapsed time. Stopping adds a session record (id, date, duration, taps, craft label) to the front of the history. A session can be deleted from the history by id. The project also models the `formatTime` helper that renders a session's duration on its card as `HH:MM:SS`.

Three modules:

- `Filtering` (`filtering.dfy`): `Reject`, the `xs.filter(x => x.id !== id)` that the screen uses for both the history and the click effects, with lemmas on membership, multiplicity, order, the absent-id case, idempotence and concatenation.
- `TimeFormat` (`time_format.dfy`): `ToDecimal` (the decimal `toString` of a non-negative integer), `PadStart` (`padStart`) and `FormatTime`, with a read-back round trip and the length result.
- `Recorder` (`recorder.dfy`): the state (`isRecording`, `duration`, `taps`, `sessions`, `clickEffects`), the events, and `Next`, which gives the new state and the vibration requested for one event. `Run` folds `Next` over a list of events. The lemmas state what each event does and what holds over event sequences. The class `App` holds the same five fields as mutable state. Its methods `Toggle`, `Tap`, `Tick`, `Delete` and `ExpireEffect` update those fields in place, and each is proved to produce exactly the state and vibration `Next` gives. They keep the invariant that both counters are zero while idle.

The clock (`Date.now()`), the locale date (`toLocaleDateString('en-CA')`) and the tap coordinates are parameters. A requested vibration is returned as a value (`Haptic`).

Starting does not reset the counters: `toggleRecording` (src/App.js:352-356) only requests the start vibration and flips the flag. `StartRecording` states this. The invariant `CountersClearWhenIdle`, together with `SessionReflectsSinceStart`, shows that the counters are already zero whenever a start can happen, so the session recorded at the next stop counts only what happened since that start.

## Model

| member | source | states |
|---|---|---|
| Filtering.Reject | src/App.js:381 | The filtered list is never longer than the input. |
| Filtering.RejectMultiplicity | src/App.js:381 | Elements whose key is the id occur 0 times in the result. Every other element occurs exactly as often as in the input. |
| Filtering.RejectMembership | src/App.js:381 | An element is in the result if and only if it is in the input and its key differs from the id. |
| Filtering.RejectIsSubsequence | src/App.js:381 | The result is a subsequence of the input, so the survivors keep their relative order. |
| Filtering.RejectUnchangedIffAbsent | src/App.js:381 | Filtering leaves the list unchanged if and only if no element carries the id. |
| Filtering.RejectOfAbsent | src/App.js:381 | When no element carries the id, the list comes back unchanged. |
| Filtering.RejectIdempotent | src/App.js:376 | Filtering twice by the same id equals filtering once. |
| Filtering.RejectAppend | src/App.js:376 | Filtering a concatenation is the concatenation of the filtered parts, so one part cannot affect the other. |
| TimeFormat.ToDecimal | src/App.js:170-172 | `toString` on a non-negative integer gives at least one character, all decimal digits, no leading zero unless the value is 0, and digits that read back to the value. |
| TimeFormat.ToDecimalAtMostTwo | src/App.js:170-172 | A value takes at most two digits if and only if it is below 100. |
| TimeFormat.PadStart | src/App.js:170-172 | `padStart(width, fill)` gives length max(width, input length), keeps the input as a suffix (never truncates) and puts only fill characters before it. |
| TimeFormat.PadStartZerosValue | src/App.js:170-172 | Padding a digit string with '0' keeps it all digits and keeps its value. |
| TimeFormat.PaddedField | src/App.js:170-172 | A padded field is all digits with at least two characters, reads back to its value, and has exactly two characters if and only if the value is below 100. |
| TimeFormat.ClockArithmetic | src/App.js:170-172 | The minutes part and the seconds part are each below 60, and hours*3600 + minutes*60 + seconds equals the input. |
| TimeFormat.FormatTime | src/App.js:169-174 | `formatTime`: the output always has the clock shape (hours of at least two digits, ':', two digits, ':', two digits). `FormatTimeReadsBack` and `FormatTimeLength` carry the rest of its specification. |
| TimeFormat.FormatTimeReadsBack | src/App.js:169-174 | The output is a clock reading: hours of at least two digits, then ':', two digits of minutes, ':', two digits of seconds. Minutes and seconds are at most 59, and reading the fields back as h*3600 + m*60 + s gives the input. |
| TimeFormat.FormatTimeInjective | src/App.js:169-174 | Two different second counts never format to the same string. |
| TimeFormat.FormatTimeLength | src/App.js:169-174 | The output is exactly 8 characters long if and only if the count is below 360000 (100 hours). |
| Recorder.DateLabel | src/App.js:343 | `.replace(/-/g, '.')` keeps the length, turns every '-' into '.', and leaves every other character as it was. |
| Recorder.SeedSessions | src/App.js:283-286 | The seed history holds two sessions, with ids 1 and 2. |
| Recorder.Initial | src/App.js:275-289 | The `useState` initial values: not recording, both counters 0, the seed history, no effects. This state satisfies the invariant. |
| Recorder.Next | src/App.js:301-382 | All five handlers (tick, toggle, tap, effect expiry, delete) as one transition. Every event preserves the invariant that both counters are zero while idle. An event requests a vibration if and only if it is a toggle or a tap while recording. The per-event lemmas below carry the rest of its specification. |
| Recorder.Run | src/App.js:301-382 | Applying a list of events in order adds at most one session and at most one effect per event. `RunKeepsCountersClear`, `RecordingRun` and `SessionReflectsSinceStart` carry the rest of its specification. |
| Recorder.InitialState | src/App.js:275-289 | The mount state is not recording, has both counters at 0, holds two seed sessions with ids 1 and 2 and no effects, and keeps the invariant. |
| Recorder.StartRecording | src/App.js:352-356 | Starting sets `isRecording`, requests [15], and leaves the counters, the history and the effects untouched. |
| Recorder.StopRecording | src/App.js:339-351 | Stopping prepends exactly one session and keeps the previous history intact behind it. The new session has id `now`, the dotted date, the pre-stop `duration` and `taps`, and type '新工艺'. Afterwards the counters are 0 and the flag is clear. It requests [30, 50, 30]. |
| Recorder.TapWhileIdle | src/App.js:360-361 | A tap while idle changes nothing and requests no vibration. |
| Recorder.TapWhileRecording | src/App.js:364-372 | A tap while recording adds exactly 1 to `taps` and appends ClickEffect(now, x, y) at the end of the effects, leaving the earlier effects unchanged and in order. It changes nothing else and requests [5]. |
| Recorder.TickCountsOnlyWhileRecording | src/App.js:301-306 | A tick adds 1 to `duration` while recording and 0 while idle. It changes no other field and requests no vibration. |
| Recorder.DeleteSessionFilters | src/App.js:380-382 | Deleting removes every session with the id. Every other session keeps its multiplicity and relative order. An absent id leaves the history unchanged. Deleting a second time changes nothing. |
| Recorder.EffectExpiryFilters | src/App.js:375-377 | Expiry removes every effect with the id (ids may collide). Every other effect stays unchanged and in order. Expiring an id that is already gone changes nothing. |
| Recorder.RunKeepsCountersClear | src/App.js:275-382 | Any sequence of events preserves that invariant. |
| Recorder.ReachableCountersClear | src/App.js:275-382 | Every state reachable from the mount state satisfies the invariant. |
| Recorder.IdleTapsChangeNothing | src/App.js:360-361 | Any sequence of taps while idle leaves the whole state unchanged. |
| Recorder.RecordingTapsCount | src/App.js:364-372 | While recording, n taps raise `taps` by exactly n and append exactly one effect per tap, in tap order. Nothing else changes. |
| Recorder.RecordingRun | src/App.js:301-306 | Between a start and the next toggle, the recorder stays recording. `duration` grows by exactly the number of ticks and `taps` by exactly the number of taps. |
| Recorder.SessionReflectsSinceStart | src/App.js:339-356 | From any idle state that keeps the invariant, start, then events without a toggle, then stop. The session recorded carries exactly the ticks and taps since that start, it is prepended to the history, and the counters end at 0. |
| Recorder.NonHistoryEventsKeepSessions | src/App.js:337-382 | Events other than toggles and deletions leave the history unchanged. |
| Recorder.ScenarioRecordThenDelete | src/App.js:283-286 | From the seed history: start, 3 taps, 10 ticks, stop gives [C, seed 1, seed 2] with C = 10 s and 3 taps. Then deleting id 1 gives [C, seed 2]. |
| Recorder.ScenarioImmediateStop | src/App.js:337-357 | A start immediately followed by a stop records a session of 0 s and 0 taps in front of the previous history. |
| Recorder.App.constructor | src/App.js:275-289 | The component mounts in the initial state and satisfies the invariant. |
| Recorder.App.Toggle | src/App.js:337-357 | Updates the fields in place to exactly the state `Next` gives for a toggle, returns its vibration, and keeps the invariant. |
| Recorder.App.Tap | src/App.js:360-372 | Updates the fields in place to exactly the state `Next` gives for a tap, returns its vibration, and keeps the invariant. |
| Recorder.App.Tick | src/App.js:301-306 | Updates `duration` in place exactly as `Next` does for a tick, and keeps the invariant. |
| Recorder.App.Delete | src/App.js:380-382 | Replaces the history by the filtered one, exactly as `Next` does, and keeps the invariant. |
| Recorder.App.ExpireEffect | src/App.js:375-377 | Replaces the effect list by the filtered one, exactly as `Next` does, and keeps the invariant. |

## Left out

- The animated particle background (src/App.js:12-102): decorative canvas drawing with floating point, randomness and animation frames.
- The button, card and modal markup (src/App.js:105-271, 384-471): rendering only, with no state logic.
- The PWA install flow (src/App.js:292-298, 320-334): a platform API with an asynchronous user choice that no other state depends on.
- The device vibration call and its feature test (src/App.js:315-317): the model returns the requested pattern and does not model whether the device supports vibration.
- The clock and locale: `Date.now()` and `toLocaleDateString('en-CA')` are parameters. Only the replacement of '-' by '.' is modelled.
- Real time: the one-second interval and the 600 ms timeout are explicit events that can arrive in any order. A tick while idle leaves the state unchanged, because the component arms the interval only while recording. An expiry may name any id. So the model does not state that an effect disappears within 600 ms of its tap.
- Timer handles and React semantics: re-rendering, batching of state updates, stale closures and the teardown of the interval when the flag changes are not modelled.
- The live timer display `new Date(duration * 1000).toISOString().substr(11, 8)` (src/App.js:434): it depends on the date library and wraps at 24 hours.
- Event bubbling: clicks on the delete and install buttons also reach the screen-tap handler. The model treats a screen tap as its own event.
- Tap coordinates are integers in the model. The DOM gives `clientX`/`clientY` as numbers that may be fractional.
- Integers are unbounded in the model, where JavaScript numbers are doubles. This only matters for counts beyond 2^53.
