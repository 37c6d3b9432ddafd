# logtop: the read loop, the display throttle and option resolution

logtop reads log lines from standard input. It keeps the most recent
`history_size` lines in a sliding window and shows the most frequent ones,
either as a curses screen or as machine-readable lines. This project models the
sequential logic of `src/main.c` that surrounds the frequency engine:

- **LineStrip** (`strip.dfy`): before each line goes to the engine, the read
  loop removes the trailing run of `'\n'`/`'\r'` bytes. It overwrites each
  removed byte with NUL and shortens the length. `StripInPlace` is that loop
  over an `array<char>` and a length. It is proved against the pure
  `StripTrailing`, whose contract describes the result completely.
- **Options** (`options.dfy`): `parse_args` sets the initial values, applies the
  options getopt_long returns in order, exits on `-h`, `-v`, an unknown option
  or a terminal on standard input, and replaces a history size of 0 by
  `DEFAULT_HISTORY_SIZE`. Each decoded option is a `Flag`. `ParseArgs` is that loop. It is proved against
  `Parse`, and lemmas show that every field ends up with the value of its last
  option.
- **Display** (`display.dfy`): `update_display` redraws only when it is not in
  quiet mode and `interval` seconds have passed since the last update time
  (the start-up time until the first redraw). It uses the line-by-line
  renderer (`StdoutUpdate`) when a line-by-line count is set and curses
  (`CursesUpdate`) otherwise. `DisplayEnv` is the class holding
  `last_update_time`.
  `UpdateDisplay` is the handler, proved against `Throttle`. `RedrawsAreSpaced`
  shows that redraws are at least `interval` apart, for any times at which the
  handler runs.
- **AlarmSchedule** (`alarm.dfy`): the timeline of SIGALRM ticks. The handler
  re-arms the one-second alarm only after it redraws. The module compares that
  behaviour with a corrected one (see Findings). `AlarmRedrawsAreRedrawTimes`
  shows that this timeline is `RedrawTimes` run at the seconds the alarm
  fires, so the spacing result holds for it too.

`DEFAULT_HISTORY_SIZE` appears as `Options.DefaultHistorySize`, a constant with
no stated value. The model knows only that it is positive, because main.h is not
part of this model. The clock (`time(NULL)`) is a parameter. Integers are
unbounded.

Notes on the code:

- `src/main.c` redraws from inside the SIGALRM handler, which interrupts the
  read loop.
- `-s 0` does not set a history size of 0: 0 is replaced by the default.
- A negative `-s` argument is kept unchanged.

## Model

| member | source | states |
|---|---|---|
| `LineStrip.StripTrailing` | src/main.c:80-85 | the result is a prefix of the line that is empty or does not end in CR/LF; every removed byte is CR/LF; every other byte, and any CR/LF before one, is kept; the line is returned unchanged exactly when it is empty or does not end in CR/LF |
| `LineStrip.StripTrailingUnique` | src/main.c:80-85 | a split into a prefix that does not end in CR/LF and an all-CR/LF suffix is the split the strip makes, so only the trailing run is removed |
| `LineStrip.StripTrailingIdempotent` | src/main.c:80-81 | stripping a stripped line changes nothing |
| `LineStrip.StripIgnoresTerminatorSuffix` | src/main.c:80-85 | appending any CR/LF bytes to a line does not change what the engine receives ("x", "x\n" and "x\r\n" all become the same line) |
| `LineStrip.StripInPlace` | src/main.c:80-85 | the loop leaves the stripped line in the first newLength cells and newLength never exceeds the old length; every removed position held CR/LF and now holds NUL; the cells past the old length are unchanged |
| `Options.FirstExit` | src/main.c:144-168 | returns the position of the first `-h`, `-v` or unrecognised option, with no such option before it, or returns nothing exactly when there is none |
| `Options.ParseArgs` | src/main.c:123-174 | the loop over the options gives exactly `Parse`: it exits on the first exiting option, then refuses a terminal, else it proceeds with the options applied in order and a history size of 0 defaulted |
| `Options.LastOccurrenceWins` | src/main.c:150-161 | the history size, line-by-line count and interval each hold the argument of the last `-s`, `-l`, `-i` given, because a later option overwrites an earlier one |
| `Options.UnsetFieldKept` | src/main.c:127-131 | a field no option sets keeps its starting value |
| `Options.QuietAndTime` | src/main.c:128-154 | quiet is on exactly when it was on already or `-q` was given; no option changes the last update time |
| `Options.ParseProceeds` | src/main.c:144-171 | the program goes on exactly when no option exits and standard input is not a terminal; otherwise the first exiting option decides between version, usage with success, and usage with failure |
| `Options.ParsedHistorySize` | src/main.c:156-173 | after a successful parse the history size is never 0: it is the last `-s` argument when that is non-zero, and the default when that argument is 0 or no `-s` was given |
| `Options.ParsedOtherFields` | src/main.c:127-161 | after a successful parse, quiet is on exactly when `-q` was given, the last update time is 0, and the line-by-line count and the interval hold their last option's argument, or default to 0 and 1 |
| `Options.ParseNoOptions` | src/main.c:127-173 | with no options and a pipe on standard input: default history size, not quiet, last update time 0, curses output, interval 1 |
| `Display.Throttle` | src/main.c:57-66 | redraws exactly when not quiet and `last + interval <= now`; a redraw sets the last update time to now, otherwise it is unchanged; a redraw uses exactly one renderer: line by line with the configured count when that count is non-zero, curses when it is 0 |
| `Display.RedrawsAreSpaced` | src/main.c:57-62 | for any times at which the handler runs: quiet mode never redraws, the first redraw comes at least `interval` after the starting time, and successive redraws are at least `interval` apart |
| `Display.DisplayEnv.constructor` | src/main.c:201 | takes its configuration from parse_args and sets the last update time to the start-up time |
| `Display.DisplayEnv.UpdateDisplay` | src/main.c:53-66 | the returned renderer and the new last update time are exactly the decision of `Throttle` on the old last update time; nothing else changes |
| `AlarmSchedule.AlarmRedrawsAreRedrawTimes` | src/main.c:57-67 | under either re-arming policy, the alarm-driven redraws are exactly the redraws of the handler run at the seconds the alarm fires |
| `AlarmSchedule.AlarmRedrawsAreSpaced` | src/main.c:57-67 | under either policy, the alarm-driven display never redraws in quiet mode, first redraws at least `interval` after the last update time, and keeps successive redraws at least `interval` apart |
| `AlarmSchedule.StallsAsWritten` | src/main.c:60-67 | as written, with an interval of 2 or more the first alarm does not redraw and arms no further alarm, so the display never redraws |
| `AlarmSchedule.IntervalTwoExample` | src/main.c:60-67 | with `-i 2`, in the first four seconds: no redraws as written, redraws at seconds 2 and 4 when corrected |
| `AlarmSchedule.CorrectedKeepsRefreshing` | src/main.c:57-67 | with a re-arming handler and a positive interval, redraws happen at last + interval and every `interval` after that, up to the horizon, with none missed |
| `AlarmSchedule.PoliciesAgreeAtUnitInterval` | src/main.c:57-67 | with an interval of at most 1 every alarm redraws, so the handler as written and the corrected one give the same redraws |

## Left out

- The frequency engine (`logtop_feed`, `new_logtop`, `delete_logtop`): its source is not part of this model.
- The renderers (`stdout_update`, `curses_update`, `curses_setup`, `curses_release`): their source is not part of this model. A redraw is modelled only as the `Redraw` value saying which one is called.
- `getline` on standard input and freeing its buffer: this is I/O. Only the strip loop is modelled, on a buffer and length given as inputs. Bytes are modelled as `char`.
- Which string `logtop_feed` receives: it gets a C string, so a line with an embedded NUL reaches the engine cut at that NUL. This is not modelled.
- `getopt_long`, `atoi` and `isatty`: these are library calls. Options arrive already decoded, and `isatty` becomes the `stdinIsTty` parameter. getopt_long's own error reports (unknown option, missing argument) are all `Unrecognized`.
- `usage_and_exit` and `version_and_exit`: these print and end the process. They are modelled only as the `ShowUsage`/`ShowVersion` outcome.
- `at_exit`, `on_sigint`, `setup_sighandler`, `sigaction` and `kill`: these are process and signal plumbing. So is the asynchronous preemption of the read loop by the handler.
- `alarm` and `time`: `time(NULL)` is a parameter. In `AlarmSchedule`, an alarm fires exactly one `time()` second after it is armed, and the start time is read in the same second as the first `alarm(1)`. A rare stall for `-i 1`, caused when that second changes between those two calls, is therefore not modelled.
- Integer widths: `history_size`, `interval`, `line_by_line` and `time_t` are unbounded integers. Overflow of `last_update_time + interval` is not modelled.

## Findings

| source | as written | input that shows it | evidently intended | confidence | as-written member | corrected member |
|---|---|---|---|---|---|---|
| src/main.c:60-67 | `alarm(1)` is reached only after a redraw. When the interval has not yet elapsed, the handler returns without arming another alarm. | `logtop -i 2` in curses mode. The first SIGALRM fires one second after start-up, is too early to redraw, and arms nothing, so the screen is never refreshed until exit. | The alarm is re-armed on every tick while not in quiet mode, so the screen redraws every `interval` seconds. | medium, not executed; assumes no code outside `src/main.c` arms the alarm | `AlarmSchedule.StallsAsWritten` | `AlarmSchedule.CorrectedKeepsRefreshing` |
