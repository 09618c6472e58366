# cadence — a Dafny model of the player's control logic

cadence is a small local audio player with three front ends over one core. This project
models the sequential logic of each piece as immutable data and pure step functions, and
proves properties of it.

- **Core** (`core.dfy`): the core `Player` over an abstract audio sink. The sink is reduced
  to its queue of sources and its paused flag. Opening and decoding a file, the reported
  total duration and the amount of audio a skip got through are inputs. The model fixes
  which fallible steps run before the sink is changed and which run after. This is exact
  for `load_and_play`, `pause`, `resume`, `stop` and `seek_approx`.
- **Desktop** (`desktop.dfy`): the Tauri back end's player thread. Handling the
  `PlayerMessage` queue is a left fold of one step per message (`Run`). The thread's
  receive loop (`Serve`) is proved to compute that fold. The `play`, `advance` and `status`
  commands fall back to fixed results when no reply arrives. The player this thread drives
  exposes `current_track`, `current_position_ms` and `advance_or_rewind`, which are not
  defined in core/cadence-core/src/lib.rs, so it is an abstract `Backend` record of functions.
- **Playback** (`playback.dfy`): the `usePlayback` hook's extrapolation state machine:
  `poll`, `tick`, `onDragChange` and `onDragCommit`, with the clock as a parameter.
- **App** (`app.dfy`): the pure helpers of `App.tsx`: the `m:ss` formatter (with
  JavaScript's floor, truncating `%`, `String` and `padStart` written out), the file name
  shown for a path, the slider maximum, the pause/resume choice and the skip deltas.
- **Cli** (`cli.dfy`): the command-line REPL: Rust's `trim` and `split_whitespace` over
  Unicode whitespace, classification by first word, and the line loop as a trace of player
  calls that stops at a quit word. The trace is applied to the core player.

`results.dfy` holds the shared `Option` and `Result` types.

Three properties of the code that a reader might expect to be otherwise:

- Loading is not atomic. `load_and_play` stops the sink before its second open and decode,
  so a failure there returns an error with the old queue already gone
  (`Core.LoadFailureAfterProbeIsStop`).
- A seek that reaches its target calls `play`, so a paused player ends up playing after it
  (`Core.SeekUnpauses`). A seek that runs into the end of the stream only stops the sink and
  keeps the paused flag.
- The core `Player` keeps no position or current-track state. The wall-clock position rule
  exists only in the front end's hook (`Playback.Tick`).

One behaviour the proofs bring out: a drag keeps the anchor of the last poll before it, and
the commit keeps that anchor's `playing`. So a track paused elsewhere during a drag is
extrapolated as playing after the release until the next poll, although the hook already
reports it paused (`Playback.StaleAnchorAfterDrag`).

## Model

| member | source | states |
|---|---|---|
| Core.AsMillisU64 | core/cadence-core/src/lib.rs:33 | `as_millis() as u64` gives the whole milliseconds (rounded down) of a duration whenever they fit in 64 bits |
| Core.ProbedMillis | core/cadence-core/src/lib.rs:33 | a duration in milliseconds is reported exactly when the decoder reports a total duration |
| Core.Message | core/cadence-core/src/lib.rs:27-30 | errors from the probe name the path with the open or decode context; errors propagated without context show the library's message |
| Core.NewDefault | core/cadence-core/src/lib.rs:19-24 | a player is created only when both the output stream and the sink are; it starts with an empty, unpaused sink; the first failure decides the error |
| Core.LoadAndPlay | core/cadence-core/src/lib.rs:26-46 | a failed probe returns an error with the sink untouched; a failed second open or decode returns an error after the queue was dropped; success leaves exactly the new source queued and playing, and reports the given path and a duration iff the probe reported one |
| Core.LoadReplacesWholesale | core/cadence-core/src/lib.rs:35-40 | a successful load ends in the same state from any starting state, not paused and not empty |
| Core.LoadFailureAfterProbeIsStop | core/cadence-core/src/lib.rs:35-38 | when the second open or decode fails, the player is left as `stop` leaves it, which differs from before whenever something was queued; the error text is the library's |
| Core.LoadReportsProbedDuration | core/cadence-core/src/lib.rs:33-45 | the reported duration is the probe's, in whole milliseconds; the second decoding's duration is never used |
| Core.Pause | core/cadence-core/src/lib.rs:48 | `pause` sets the paused flag and keeps the queue |
| Core.Resume | core/cadence-core/src/lib.rs:49 | `resume` clears the paused flag and keeps the queue |
| Core.Stop | core/cadence-core/src/lib.rs:50 | `stop` empties the queue and keeps the paused flag |
| Core.IsPaused | core/cadence-core/src/lib.rs:73 | reports the sink's paused flag; how the operations move it is stated by `Core.PauseResumeFlags` and `Core.SeekUnpauses` |
| Core.Empty | core/cadence-core/src/lib.rs:74 | reports whether nothing is queued; how the operations change it is stated by `Core.StopIdempotent`, `Core.LoadReplacesWholesale` and `Cli.ApplyEndingInStop` |
| Core.PauseResumeFlags | core/cadence-core/src/lib.rs:48-49 | pause and resume are idempotent, each undoes the other's flag, and neither touches the queue |
| Core.StopIdempotent | core/cadence-core/src/lib.rs:50 | stopping twice is stopping once, and leaves the player empty |
| Core.SeekApprox | core/cadence-core/src/lib.rs:54-71 | an open or decode failure leaves the sink untouched; a skip that falls short of the target (end of stream) succeeds and leaves the state `stop` leaves; otherwise the skipped source alone is queued and playback is unpaused |
| Core.SeekUnpauses | core/cadence-core/src/lib.rs:66-70 | a paused player that seeks within the track ends up playing, with the one skipped source queued |
| Core.SeekIsLoadAtOffset | core/cadence-core/src/lib.rs:54-70 | a seek that reaches its target leaves the sink a load would leave, except that the source starts at the target |
| Desktop.ErrorText | apps/cadence-desktop/src-tauri/src/lib.rs:40 | mapping a result keeps success values and replaces errors by their message text |
| Desktop.StatusOf | apps/cadence-desktop/src-tauri/src/lib.rs:56-67 | the snapshot reports the current position, paused iff a track is current and has no last playback time, and the track's path and duration, or none of them when no track is current |
| Desktop.Step | apps/cadence-desktop/src-tauri/src/lib.rs:38-68 | each message gets a reply of its channel's kind; pause, resume and stop get none and apply the player's `pause`, `resume` and `stop`; a status request changes no state; play and advance reply with the player's result, errors as message text |
| Desktop.Run | apps/cadence-desktop/src-tauri/src/lib.rs:37-69 | handling a queue of messages in order yields one reply per message, each of the kind its message expects |
| Desktop.Serve | apps/cadence-desktop/src-tauri/src/lib.rs:37-69 | the thread's receive loop computes exactly the left fold of per-message steps |
| Desktop.RunAppend | apps/cadence-desktop/src-tauri/src/lib.rs:37-38 | handling two batches one after the other is handling their concatenation |
| Desktop.ReplyAt | apps/cadence-desktop/src-tauri/src/lib.rs:37-38 | each reply is computed from the state left by exactly the messages sent before it |
| Desktop.PlayPauseStatus | apps/cadence-desktop/src-tauri/src/lib.rs:37-67 | Play, Pause, Status sent in that order report the loaded path as paused whenever the player keeps the loaded track and records the pause |
| Desktop.Received | apps/cadence-desktop/src-tauri/src/lib.rs:77-103 | `play` and `advance` return the reply they received, or the "Player thread died" error when none arrives |
| Desktop.StatusCommand | apps/cadence-desktop/src-tauri/src/lib.rs:106-115 | `status` returns the snapshot it received, or no path, no duration, position 0 and not paused when none arrives |
| Desktop.Respond | apps/cadence-desktop/src-tauri/src/lib.rs:77-115 | pause, resume and stop return nothing; play, advance and status fall back to their fixed results when no reply arrives |
| Desktop.Invoke | apps/cadence-desktop/src-tauri/src/lib.rs:31-37 | with the thread gone (its player could not be created) no message is handled and the thread stays gone; otherwise the message is handled as one step |
| Desktop.LiveCommandCarriesPlayerResult | apps/cadence-desktop/src-tauri/src/lib.rs:39-67 | with the thread alive, play and advance return the player's own result and status returns the snapshot of the unchanged state |
| Desktop.DeadThreadFallbacks | apps/cadence-desktop/src-tauri/src/lib.rs:77-115 | with the thread gone, every command returns its fallback |
| Playback.Poll | apps/cadence-desktop/src/hooks/usePlayback.ts:27-41 | the anchor is replaced by the reported position at the poll's time only when no drag is in progress; playing iff not paused and a track is present, which then implies not shown paused; paused iff reported paused or no track; active iff a track; duration defaults to 0 |
| Playback.Extrapolate | apps/cadence-desktop/src/hooks/usePlayback.ts:55-57 | the position an anchor predicts: the anchored position plus the time since it was taken while playing, the anchored position alone otherwise (no contract of its own; `Playback.Tick` states it) |
| Playback.Tick | apps/cadence-desktop/src/hooks/usePlayback.ts:51-60 | during a drag the display is the drag value; otherwise it is the anchored position plus the time since the anchor while playing, and the anchored position alone while not; nothing else changes |
| Playback.DragChange | apps/cadence-desktop/src/hooks/usePlayback.ts:68-71 | a thumb move records the drag value and the dragging flag and changes nothing else |
| Playback.DragCommit | apps/cadence-desktop/src/hooks/usePlayback.ts:74-77 | a release clears the drag and re-anchors at the released position and time, keeping the previous playing flag |
| Playback.Init | apps/cadence-desktop/src/hooks/usePlayback.ts:13-24 | the hook starts consistent, with no drag and no track, shown paused, anchored at position 0 at time 0 not playing, displaying 0 with duration 0 |
| Playback.InitDisplaysZero | apps/cadence-desktop/src/hooks/usePlayback.ts:13-24 | the initial state has anchor 0 at time 0 not playing, no drag, shown paused and inactive, and displays 0 at every time |
| Playback.StepsPreserveValid | apps/cadence-desktop/src/hooks/usePlayback.ts:27-77 | every step keeps dragging iff a drag value is held, active iff a path is held, and inactive implies paused |
| Playback.TickNonDecreasing | apps/cadence-desktop/src/hooks/usePlayback.ts:55-57 | with a fixed playing anchor the display never decreases as time passes and advances by exactly the elapsed time |
| Playback.TickFrozenWhenNotPlaying | apps/cadence-desktop/src/hooks/usePlayback.ts:56-57 | with a not-playing anchor the display does not depend on the time |
| Playback.PollThenTick | apps/cadence-desktop/src/hooks/usePlayback.ts:30-57 | right after a poll the display is the reported position, and it then advances with the clock exactly when a track is playing |
| Playback.DragFreezesDisplay | apps/cadence-desktop/src/hooks/usePlayback.ts:30-53 | during a drag the display is the drag value and polls leave the anchor alone |
| Playback.CommitThenTick | apps/cadence-desktop/src/hooks/usePlayback.ts:74-77 | after a release the display shows the released position at once and extrapolates from it with the kept playing flag |
| Playback.DeadThreadPoll | apps/cadence-desktop/src/hooks/usePlayback.ts:27-40 | a poll answered by the back end's fallback snapshot shows no track, paused, duration 0 and a display of 0 |
| Playback.StaleAnchorAfterDrag | apps/cadence-desktop/src/hooks/usePlayback.ts:30-36 | for every hook in a drag with a playing anchor, a poll reporting the track paused followed by the release leaves it shown paused yet extrapolated as playing from the released position |
| App.ParseDecimalOfDecimal | apps/cadence-desktop/src/App.tsx:10 | the decimal numeral of a number reads back as that number |
| App.JsRem | apps/cadence-desktop/src/App.tsx:10 | JavaScript's `%` agrees with the mathematical remainder for non-negative operands and takes the dividend's sign otherwise |
| App.PadStart | apps/cadence-desktop/src/App.tsx:10 | padding yields at least the width, ends with the original text and fills the front with the fill character |
| App.Fmt | apps/cadence-desktop/src/App.tsx:8-11 | for a non-negative position the text is the whole minutes and the remaining seconds of its whole seconds; a negative position starts with a minus sign |
| App.ClockFields | apps/cadence-desktop/src/App.tsx:10 | the text is a canonical numeral, a colon and exactly two digits, which read back as the minutes and the seconds |
| App.FmtClock | apps/cadence-desktop/src/App.tsx:8-11 | for a non-negative position the seconds field is exactly two digits in 00..59 and minutes·60 + seconds is the whole seconds of the position |
| App.FmtConstantWithinSecond | apps/cadence-desktop/src/App.tsx:9 | positions within the same whole second are shown the same way |
| App.NegativeSeconds | apps/cadence-desktop/src/App.tsx:10 | negative whole seconds show minus the rounded-down minutes, and minus the remaining seconds unless the whole seconds are a multiple of 60, which shows `00` |
| App.FmtNegative | apps/cadence-desktop/src/App.tsx:8-11 | for every negative position the minutes carry a minus sign, and the seconds carry one exactly when the whole seconds are not a multiple of 60 (`-0` prints as `0`) |
| App.Split | apps/cadence-desktop/src/App.tsx:40 | `split` yields at least one piece |
| App.JoinSplit | apps/cadence-desktop/src/App.tsx:40 | joining the pieces of a split with the separator gives back the string |
| App.SplitPieceAvoidsSep | apps/cadence-desktop/src/App.tsx:40 | no piece of a split contains the separator |
| App.LastPiece | apps/cadence-desktop/src/App.tsx:40 | the last piece is a separator-free suffix, preceded by a separator unless it is the whole string |
| App.Filename | apps/cadence-desktop/src/App.tsx:40 | no name for a missing or empty path; otherwise the text after the last backslash, which contains no backslash, and the whole path when it has none |
| App.SliderMax | apps/cadence-desktop/src/App.tsx:56 | the slider maximum is the duration when non-zero and 1 otherwise, so never 0 |
| App.ToggleCommand | apps/cadence-desktop/src/App.tsx:27 | the pause button sends "resume" iff paused and "pause" iff not |
| App.CommandMessage | apps/cadence-desktop/src-tauri/src/lib.rs:84-108 | the argument-free commands "pause", "resume", "stop" and "status" each send the same-named message to the player thread; any other name sends none of them (`play` and `advance` carry arguments and are modelled by `Desktop.Respond`) |
| App.ToggleFlips | apps/cadence-desktop/src/App.tsx:27 | the button sends `Resume` to the thread exactly when the last snapshot shows paused and `Pause` otherwise, the thread applies the player's `resume` or `pause`, and if the player then records the track as paused or playing accordingly the next snapshot shows the flag flipped |
| App.AdvanceDeltaMs | apps/cadence-desktop/src/App.tsx:37 | the delta is a whole number of seconds in milliseconds, with the sign of the skip |
| App.SkipButtonDeltas | apps/cadence-desktop/src/App.tsx:69-71 | the skip buttons send -10000 and +10000 |
| Cli.Trim | tools/cadence-cli/src/main.rs:33 | the trimmed line is no longer than the line and neither starts nor ends with whitespace |
| Cli.TrimStartSpec | tools/cadence-cli/src/main.rs:33 | trimming the start removes exactly the leading whitespace |
| Cli.TrimEndSpec | tools/cadence-cli/src/main.rs:33 | trimming the end removes exactly the trailing whitespace |
| Cli.LeadingWordSpec | tools/cadence-cli/src/main.rs:34 | a word is a whitespace-free prefix ended by whitespace or the end of the text |
| Cli.Words | tools/cadence-cli/src/main.rs:34 | a line has no more words than characters |
| Cli.WordsAreWhitespaceFree | tools/cadence-cli/src/main.rs:34 | every word is non-empty and free of whitespace |
| Cli.WordsOfTrim | tools/cadence-cli/src/main.rs:33-34 | trimming before splitting on whitespace changes no word |
| Cli.Classify | tools/cadence-cli/src/main.rs:33-42 | a line is blank exactly when it is all whitespace; otherwise its command is the keyword of the first word of the line itself, trimming changing nothing |
| Cli.ClassifyFirstWordOnly | tools/cadence-cli/src/main.rs:33-42 | only the first word of a line selects the command; leading whitespace and everything after the first word are ignored |
| Cli.BlankIffWhitespace | tools/cadence-cli/src/main.rs:34-40 | a line selects no command exactly when it is empty or all whitespace |
| Cli.Keyword | tools/cadence-cli/src/main.rs:42-64 | "pause", "resume" and "stop" select their operations, "quit", "q" and "exit" quit, "help" and "h" ask for help, and matching is exact and case-sensitive |
| Cli.Calls | tools/cadence-cli/src/main.rs:43-64 | pause, resume and stop call the same-named operation once, quit calls stop once, and help, unknown words and blank lines call nothing |
| Cli.Loop | tools/cadence-cli/src/main.rs:31-65 | the loop makes at most one player call per line |
| Cli.TraceCons | tools/cadence-cli/src/main.rs:31-65 | the calls of a run of lines are the first line's calls followed by those of the rest |
| Cli.LoopMakesEachLinesCalls | tools/cadence-cli/src/main.rs:31-65 | while no line fails to read and none is a quit word, the loop ends well having made each line's calls in order: one pause, resume or stop per such line and none for blank, help or unknown lines |
| Cli.ReadFailureEndsLoop | tools/cadence-cli/src/main.rs:32 | a line that cannot be read ends the loop with that error, after the calls of the lines before it; nothing after it is looked at |
| Cli.Repl | tools/cadence-cli/src/main.rs:31-65 | the loop over the lines read makes at most one call per line |
| Cli.ReadLoop | tools/cadence-cli/src/main.rs:31-65 | the read, classify, call and break loop computes exactly the recursive trace |
| Cli.QuitEndsLoop | tools/cadence-cli/src/main.rs:55-58 | a quit ends the loop successfully with the calls of the lines before it followed by one stop, and nothing after it reaches the player |
| Cli.QuitLineEndsRepl | tools/cadence-cli/src/main.rs:31-58 | lines before a quit line each contribute their calls, the quit line adds one stop, and later lines are never read |
| Cli.ReadFailureEndsRepl | tools/cadence-cli/src/main.rs:31-32 | a line that cannot be read ends the session with that error after the calls of the lines before it, and later lines are never read |
| Cli.Apply | tools/cadence-cli/src/main.rs:43-56 | the calls applied in order to the core player: pause, resume and stop as `Core.Pause`, `Core.Resume` and `Core.Stop` (no contract of its own; `Cli.ApplyEndingInStop` and `Cli.Main` state its use) |
| Cli.ApplyEndingInStop | tools/cadence-cli/src/main.rs:55-56 | calls that end with a stop leave the core player with nothing queued |
| Cli.Main | tools/cadence-cli/src/main.rs:13-72 | a failure to create the player or to load the file ends the program with an error before any line is read and with no calls; after a successful load the calls and the exit status are the line loop's, and the player is the loaded one with those calls applied |
| Cli.QuitLeavesPlayerEmpty | tools/cadence-cli/src/main.rs:18-58 | a session the user quits ends successfully with the loaded player stopped and nothing queued |

## Left out

- The audio library (rodio): output stream and sink creation, decoding, `total_duration` and `skip_duration` are inputs to the operations. A sink is only its queue and paused flag.
- Concurrency: the mutex around the sink, the spawned thread, the channels and the `Sync` impl. Only the in-order handling of messages is kept, with a lost reply as an explicit input.
- `Player::new`, `current_track`, `current_position_ms` and `advance_or_rewind`, called by the desktop back end, are not defined in core/cadence-core/src/lib.rs. They are uninterpreted functions of an abstract state in `Desktop.Backend`; their clamping and wall-clock logic is not modelled.
- Tauri setup (`run`, plugins, handler registration) and the UI's `seek` invocation on drag commit. No back-end command handles `seek`, so its effect is not modelled.
- React rendering, `requestAnimationFrame`/`setInterval` scheduling, the file dialog, JSX and CSS. `Date.now()` is the `now` parameter.
- JavaScript number semantics: milliseconds are integers, and fractional values, NaN and floating-point rounding are not modelled.
- Command-line argument parsing (`Cli::parse()`): the path to play is a parameter of `Cli.Main`.
- Printing and flushing in the command-line player. A failed flush would end `main` with an error; this is not modelled.
- Core.Message: quotes a path as `{:?}` does but without Rust's escaping of quotes, backslashes and control characters.
- Core.TrackInfo paths are strings; `to_string_lossy` is taken as the identity, since invalid UTF-8 is not representable here.
- App.Filename: the `?? trackPath` fallback is modelled but unreachable, because `split` always yields at least one piece.
