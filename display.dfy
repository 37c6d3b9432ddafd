/** update_display, the SIGALRM handler: it redraws at most once per
    `interval` seconds, never in quiet mode, with the line-by-line renderer
    when a line-by-line count was given and with curses otherwise. The clock
    is a parameter; the renderers themselves are not part of this model. */
module Display {
  import Options

  /** The renderer a display tick calls, if any. */
  datatype Redraw = NoUpdate | StdoutUpdate(count: int) | CursesUpdate

  /** What one tick decides: the redraw, and the last update time afterwards. */
  datatype Decision = Decision(redraw: Redraw, lastUpdateTime: int)

  /** The decision of update_display at time `now` when the last update time
      is `last` (the start-up time until the first redraw). */
  function Throttle(quiet: bool, interval: int, lineByLine: int, last: int, now: int): (d: Decision)
    // it redraws exactly when not quiet and `interval` seconds have passed since `last`
    ensures d.redraw != NoUpdate <==> !quiet && last + interval <= now
    // a redraw moves the last update time to now; no redraw leaves it alone
    ensures d.lastUpdateTime == if d.redraw == NoUpdate then last else now
    // a redraw uses exactly one renderer: line by line, with the configured count, when that count is non-zero
    ensures d.redraw != NoUpdate ==> (d.redraw == StdoutUpdate(lineByLine) <==> lineByLine != 0)
    ensures d.redraw != NoUpdate ==> (d.redraw == CursesUpdate <==> lineByLine == 0)
  {
    if quiet then Decision(NoUpdate, last)
    else if now < last + interval then Decision(NoUpdate, last)
    else Decision(if lineByLine != 0 then StdoutUpdate(lineByLine) else CursesUpdate, now)
  }

  /** The times among `ticks` at which successive calls of update_display redraw. */
  function RedrawTimes(quiet: bool, interval: int, lineByLine: int, last: int, ticks: seq<int>): seq<int>
    decreases |ticks|
  {
    if ticks == [] then []
    else
      var d := Throttle(quiet, interval, lineByLine, last, ticks[0]);
      (if d.redraw != NoUpdate then [ticks[0]] else []) + RedrawTimes(quiet, interval, lineByLine, d.lastUpdateTime, ticks[1..])
  }

  /** Whatever the times at which the handler runs, quiet mode never redraws,
      the first redraw comes at least `interval` seconds after the starting
      last update time, and any two successive redraws are at least `interval`
      seconds apart. */
  lemma {:induction false} RedrawsAreSpaced(quiet: bool, interval: int, lineByLine: int, last: int, ticks: seq<int>)
    ensures quiet ==> RedrawTimes(quiet, interval, lineByLine, last, ticks) == []
    ensures var r := RedrawTimes(quiet, interval, lineByLine, last, ticks);
      (r != [] ==> last + interval <= r[0]) &&
      (forall j :: 0 <= j < |r| - 1 ==> r[j] + interval <= r[j + 1])
    decreases |ticks|
  {
    if ticks != [] {
      var d := Throttle(quiet, interval, lineByLine, last, ticks[0]);
      RedrawsAreSpaced(quiet, interval, lineByLine, d.lastUpdateTime, ticks[1..]);
      var rest := RedrawTimes(quiet, interval, lineByLine, d.lastUpdateTime, ticks[1..]);
      if d.redraw != NoUpdate {
        assert RedrawTimes(quiet, interval, lineByLine, last, ticks) == [ticks[0]] + rest;
      }
    }
  }

  /** The part of the global environment update_display reads and writes.
      Only the last update time changes after start-up. */
  class DisplayEnv {
    const quiet: bool
    const interval: int
    const lineByLine: int
    var lastUpdateTime: int

    /** The configuration parse_args produced, with the last update time set
        to the time at start-up, as main does before reading input. */
    constructor (env: Options.Env, startTime: int)
      ensures quiet == env.quiet && interval == env.interval && lineByLine == env.lineByLine
      ensures lastUpdateTime == startTime
    {
      quiet := env.quiet;
      interval := env.interval;
      lineByLine := env.lineByLine;
      lastUpdateTime := startTime;
    }

    /** One run of the handler at time `currentTime`. */
    method UpdateDisplay(currentTime: int) returns (redraw: Redraw)
      modifies this`lastUpdateTime
      ensures Decision(redraw, lastUpdateTime) == Throttle(quiet, interval, lineByLine, old(lastUpdateTime), currentTime)
    {
      if quiet {
        return NoUpdate;
      }
      if currentTime < lastUpdateTime + interval {
        return NoUpdate;
      }
      lastUpdateTime := currentTime;
      if lineByLine != 0 {
        redraw := StdoutUpdate(lineByLine);
      } else {
        redraw := CursesUpdate;
      }
    }
  }
}
