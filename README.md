# Macro recorder model

A Dafny model of a mouse and keyboard macro recorder (`main.py`). The
recorder captures input into a timestamped event log and replays the log,
once or in a loop, until ESC is pressed.

The model keeps the program's sequential logic and replaces each outside
collaborator with something it can reason about:

- **Input hooks.** The hooks become method calls. A recording session is
  driven by a stream of notifications, each arriving some clock units
  after the previous one.
- **Clock.** The wall clock becomes an abstract `nat` field that only
  moves forward (`Wait`). Timestamps are the clock minus the recording's
  start.
- **Controllers.** The mouse and keyboard controllers become the sequence
  of actions a replay returns.
- **ESC observer.** The background ESC observer of a replay becomes a
  parameter, `escAfter`: the number of entries dispatched before its ESC
  press arrives.
- **Dispatch time.** The time each dispatch and its loop iteration take
  becomes a parameter, `lag`.

Modules:

- `Maybe`: the option type.
- `KeyCodec`: how a key is stored as text and how replay reads it back
  (`"Key."` test, split, lookup in the key enumeration).
- `Events`: log entries and `HandleEvent`, the controller calls replay
  issues for one entry.
- `Capture`: specification of what a recording session writes into the log.
- `Replay`: specification of what a replay dispatches and when. It covers
  the visiting order over passes, the number dispatched before the stop,
  and the sleep rule and schedule (`Timeline`).
- `Session`: the class `MacroRecorder`. Its fields are the program's
  globals. Its methods are the callbacks, `record_events` and
  `play_events`, each proved against the specification functions above.

One might expect the ESC press that ends a recording to be logged like any
other key. The code does not log it: `on_press` clears `recording`
(main.py:41) before the check that logs the key (main.py:56), and it stops
both listeners, so the release of that ESC never arrives either. `OnPress`
and `Capture.CaptureIsBeforeEsc` state this behaviour.

## Model

| member | source | states |
|---|---|---|
| Session.MacroRecorder.constructor | main.py:4-14 | program start: empty log, every flag down, no listener running |
| Session.MacroRecorder.Wait | main.py:181 | sleeping advances the clock by exactly the requested amount and touches nothing else |
| Session.MacroRecorder.Record | main.py:20 | appends one entry stamped with the time since the recording began and keeps the log in time order |
| Session.MacroRecorder.OnMove | main.py:17-20 | while recording, the log gains exactly one move entry at its end, stamped now, and earlier entries are untouched; otherwise the log is unchanged |
| Session.MacroRecorder.OnClick | main.py:23-26 | same as OnMove, for a click entry carrying (x, y, button, pressed) |
| Session.MacroRecorder.OnScroll | main.py:29-32 | same as OnMove, for a scroll entry carrying (x, y, dx, dy) |
| Session.MacroRecorder.OnPress | main.py:35-64 | ESC while recording ends the recording and stops both listeners; ESC during a replay sets the stop flag and stops the keyboard listener; a non-ESC key changes no flag; an ESC press is never logged; any other key is logged as its stored text exactly when recording |
| Session.MacroRecorder.OnRelease | main.py:67-73 | while recording, appends one release entry with the key's stored text; otherwise the log is unchanged |
| Session.MacroRecorder.Deliver | main.py:90-92 | the hooks route a notification to its callback: ESC press ends the recording and logs nothing, any other notification is logged with its stored payload |
| Session.MacroRecorder.Attend | main.py:90-97 | one notification: the clock advances by its wait, and the final log the rest of the stream produces is unchanged |
| Session.MacroRecorder.RecordEvents | main.py:76-99 | the log is cleared, and the session ends with exactly Captured(ns, 0): one entry per notification before the first ESC press. The clock has advanced by the waits up to that press. Recording and both listeners are still on exactly when no ESC press came |
| Session.MacroRecorder.OnPressStop | main.py:159-164 | ESC sets the stop flag and ends the observer; any other key changes nothing |
| Session.MacroRecorder.Observe | main.py:159-168 | while the observer runs, its ESC press arrives once escAfter entries have been dispatched; otherwise no flag changes |
| Session.MacroRecorder.DispatchEntry | main.py:177-183 | an early entry sleeps exactly offset minus elapsed since the pass start, a due or late one not at all; the calls issued are HandleEvent of the entry |
| Session.MacroRecorder.DispatchNext | main.py:177-183 | one dispatch extends the visiting order by the next entry, the action trace by its calls, and the schedule by a slot obeying the sleep rule |
| Session.MacroRecorder.PlayPass | main.py:173-183 | one pass checks the stop flag before every entry: it dispatches entries in log order from the first until the flag is seen or the log ends, timed from the pass start |
| Session.MacroRecorder.RunPasses | main.py:172-188 | the pass loop ends at a stop request or after one pass when not looping, having dispatched exactly Replayed(log, loop, escAfter), issued DispatchAll of it, and followed a Timeline |
| Session.MacroRecorder.PlayEvents | main.py:102-192 | an empty log returns with nothing dispatched and no flag touched; otherwise the stop flag is reset and the replay dispatches exactly Replayed in order on a Timeline. On exit playback is off and the observer stopped, and the stop flag is set exactly when the stop request came. The log is not in its modifies clause |
| KeyCodec.Find | main.py:141 | the first position at or after i where the pattern occurs, or none when it occurs nowhere after i (the `in` test) |
| KeyCodec.Contains | main.py:141 | the `in` test holds exactly when the pattern occurs at some position of the text |
| KeyCodec.SecondField | main.py:143 | `split(sep)[1]`: the text that starts right after the first occurrence of the separator and runs up to the next occurrence or the end of the text, with no occurrence starting inside it |
| KeyCodec.LookupSound | main.py:143 | what `getattr` on the key enumeration finds is the member whose name was looked up |
| KeyCodec.Encode | main.py:59-64 | the text stored for a key (also at main.py:70-73) is never empty and holds "Key." exactly when the key is symbolic, so replay can tell the two kinds apart |
| KeyCodec.Decode | main.py:140-156 | a text without "Key." is handed to the controller as it is; a text with it yields either nothing or the symbolic key whose name is the second field of the split. KeyRoundTrip and UnknownNameSkipped relate it to Encode |
| KeyCodec.LookupName | main.py:143 | looking up a member's own name in the key enumeration finds that member; with LookupSound, a lookup finds a member exactly when the name looked up is that member's name |
| KeyCodec.SecondFieldOfPrefixed | main.py:143 | splitting "Key." + name on "Key." gives the name back when it holds no further "Key." |
| KeyCodec.KeyRoundTrip | main.py:139-147 | the text stored for a key (main.py:59-64) decodes to that key: a character to the same character, a symbolic key to the same enumeration member |
| KeyCodec.UnknownNameSkipped | main.py:143-145 | a stored symbolic name the enumeration lacks decodes to nothing to press |
| Events.HandleEvent | main.py:123-156 | one entry issues at most two controller calls; a mouse entry starts by positioning the cursor, and a key entry touches only the keyboard. MouseDispatch and KeyDispatch give the exact calls |
| Events.ChronologicalSnoc | main.py:17-20 | appending an entry stamped no earlier than the last keeps the log in time order |
| Events.MouseDispatch | main.py:125-138 | a mouse entry first sets the cursor to its (x, y) and moves it nowhere else; a click presses exactly when pressed holds and releases otherwise; a scroll passes (dx, dy) through |
| Events.KeyDispatch | main.py:139-156 | a key entry issues at most one press or release, of the decoded key, and none (without failing) when the name is unknown |
| Events.DispatchAllAppend | main.py:174-183 | dispatching two runs of entries back to back issues the calls of their concatenation |
| Capture.Stored | main.py:17-73 | each callback stores a payload of its input's kind: a mouse payload for a mouse input, a press entry for a key press, a release entry for a key release. KeyRoundTrip shows the stored key text decodes back to the key, and CaptureIsBeforeEsc places the payloads in the log |
| Capture.HandleStored | main.py:123-156 | replaying the entry a callback stored for an input issues exactly the controller calls that reenact that input |
| Capture.CaptureFromIsCaptured | main.py:76-97 | appending each notification's entry as it arrives ends with the log followed by what Captured lists |
| Capture.BeforeEscIsPrefix | main.py:39-47 | the notifications that reach the log form the longest prefix without an ESC press, and what follows it starts with that press |
| Capture.CaptureIsBeforeEsc | main.py:35-64 | the log holds one entry per notification before the first ESC press, in arrival order, each with its callback's payload; the ESC press and everything after it are absent |
| Capture.CaptureChronological | main.py:17-32 | a captured log is in time order and no entry is stamped before capture resumed |
| Capture.ReplayReproducesCapture | main.py:123-156 | replaying a captured log issues exactly the controller calls that reproduce the notifications before the ESC press |
| Replay.Cycle | main.py:172-188 | the visiting order over consecutive passes holds exactly as many entries as were dispatched |
| Replay.CycleAt | main.py:172-176 | position p * n + i of the visiting order is log entry i: every pass restarts at the first entry |
| Replay.CycleStep | main.py:174-176 | one more dispatch after complete passes and i entries appends log entry i to the visiting order |
| Replay.ReplayOnceIsLog | main.py:172-188 | without a stop request a single replay dispatches every entry exactly once, in log order |
| Replay.LoopPassIsLog | main.py:172-188 | every complete pass of a looping replay dispatches the whole log again from the first entry |
| Replay.StopBoundsReplay | main.py:175-188 | no entry is dispatched after the stop request; a single replay dispatches at most the log; a looping one exactly up to the request |
| Replay.TimelineSnoc | main.py:177-183 | a schedule extended by a dispatch obeying the sleep rule and following the last one is still a schedule |
| Replay.ReadyNext | main.py:174-183 | dispatching entry i and lagging readies the scheduler for entry i + 1 of the same pass |
| Replay.TimelinePositions | main.py:172-176 | the k-th dispatch is entry k mod n of pass k div n |
| Replay.TimelineOrder | main.py:174-183 | the schedule visits exactly the entries of the visiting order, in that order |
| Replay.TimelineNotEarly | main.py:177-181 | no entry is dispatched before its offset has elapsed since its pass began; a due or late entry is dispatched at once, an early one exactly at its offset |
| Replay.TimelineExact | main.py:173-181 | when dispatching takes no time, every entry of a time-ordered log is dispatched exactly its offset after its pass began: lateness does not accumulate |

## Left out

- The input library's listeners and controllers (main.py:90-97,
  116-117, 167-168, 191) are foreign OS hooks. Notifications are method
  calls, and controller calls are the returned action sequence.
  Listener `stop` and `join` are the `mouseHooked` and `keyHooked` flags.
- The observer thread and its asynchrony are left out because they are
  concurrency. The moment the ESC press arrives is the parameter
  `escAfter`, consulted before each entry and after each pass. Races
  between the observer and the replay loop are not modelled.
- `time.time()` and `time.sleep` work on floats; the model uses an
  abstract `nat` clock. It does not model a wall clock that goes
  backwards or float rounding.
- The countdown sleeps and prints before recording and replay
  (main.py:80-83, 109-112) are cosmetic and left out, as are the menu
  loop, `input` and every `print` (main.py:195-214).
- A key whose `char` is `None` is left out. That case would store a
  `None` and make replay fail on the `"Key."` test. The model's printable
  keys always carry a character.
- The key enumeration carries 27 of the input library's members, not the
  whole table. The lookup treats every other name as missing, which is
  what the source does for a name the enumeration lacks.
- Attribute lookup on the key enumeration can in the source also return
  class attributes that are not keys. The model's lookup returns only
  enumeration members.
- The time between reading the pass start (main.py:173) and the clock
  read before the first entry (main.py:177) is taken to be zero: each
  pass's first stop check happens at the instant the pass starts
  (`Follows`, `Ready`). The parameter `lag` covers only the time after a
  dispatch, including the end-of-pass checks at main.py:185-188.
- A looping replay with no ESC press never ends in the source. In the
  model the stop request always arrives, after `escAfter` dispatches, so
  an endless replay is not modelled.
- Mouse buttons are passed through as opaque values. The model does not
  describe the controllers' effect on the OS.
