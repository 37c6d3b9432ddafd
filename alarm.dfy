/** The alarm-driven timeline of the display. main arms a one-second alarm
    at start-up and records the start time as the last update time; every
    SIGALRM runs update_display, and the next alarm is armed only when the
    handler arms it again. Time is counted in the whole seconds time()
    returns, and an alarm armed at second t fires at second t + 1. */
module AlarmSchedule {
  import opened Display

  /** When the handler arms the next alarm. AsWritten: as update_display
      does, only after a redraw (the call at the end of the handler is not
      reached when it returns early). Corrected: whenever the display is live,
      that is, not in quiet mode. */
  datatype Policy = AsWritten | Corrected

  function Rearms(p: Policy, quiet: bool, d: Decision): bool {
    match p
    case AsWritten => d.redraw != NoUpdate
    case Corrected => !quiet
  }

  /** The redraw times from the alarm that fires at second `t` up to second
      `horizon`, the last redraw having been at `last`. */
  function AlarmRedraws(p: Policy, quiet: bool, interval: int, lineByLine: int, last: int, t: int, horizon: int): seq<int>
    decreases horizon - t
  {
    if t > horizon then []
    else
      var d := Throttle(quiet, interval, lineByLine, last, t);
      var later := if Rearms(p, quiet, d) then AlarmRedraws(p, quiet, interval, lineByLine, d.lastUpdateTime, t + 1, horizon) else [];
      if d.redraw != NoUpdate then [t] + later else later
  }

  /** The seconds at which the alarm actually fires, from the one at `t` up
      to `horizon`: each firing runs the handler, and the next one follows
      only when the handler re-armed the alarm. */
  function FiringTimes(p: Policy, quiet: bool, interval: int, lineByLine: int, last: int, t: int, horizon: int): seq<int>
    decreases horizon - t
  {
    if t > horizon then []
    else
      var d := Throttle(quiet, interval, lineByLine, last, t);
      [t] + if Rearms(p, quiet, d) then FiringTimes(p, quiet, interval, lineByLine, d.lastUpdateTime, t + 1, horizon) else []
  }

  /** The alarm-driven redraws are the redraws of the handler run at the
      seconds the alarm fires, under either re-arming policy. */
  lemma {:induction false} AlarmRedrawsAreRedrawTimes(p: Policy, quiet: bool, interval: int, lineByLine: int, last: int, t: int, horizon: int)
    ensures AlarmRedraws(p, quiet, interval, lineByLine, last, t, horizon)
         == RedrawTimes(quiet, interval, lineByLine, last, FiringTimes(p, quiet, interval, lineByLine, last, t, horizon))
    decreases horizon - t
  {
    if t <= horizon {
      var d := Throttle(quiet, interval, lineByLine, last, t);
      var ticks := FiringTimes(p, quiet, interval, lineByLine, last, t, horizon);
      var rest := if Rearms(p, quiet, d) then FiringTimes(p, quiet, interval, lineByLine, d.lastUpdateTime, t + 1, horizon) else [];
      assert ticks == [t] + rest;
      assert ticks[0] == t && ticks[1..] == rest;
      if Rearms(p, quiet, d) {
        AlarmRedrawsAreRedrawTimes(p, quiet, interval, lineByLine, d.lastUpdateTime, t + 1, horizon);
      }
    }
  }

  /** Under either policy, the alarm-driven display never redraws in quiet
      mode, first redraws at least `interval` seconds after `last`, and keeps
      successive redraws at least `interval` seconds apart. */
  lemma AlarmRedrawsAreSpaced(p: Policy, quiet: bool, interval: int, lineByLine: int, last: int, t: int, horizon: int)
    ensures quiet ==> AlarmRedraws(p, quiet, interval, lineByLine, last, t, horizon) == []
    ensures var r := AlarmRedraws(p, quiet, interval, lineByLine, last, t, horizon);
      (r != [] ==> last + interval <= r[0]) &&
      (forall j :: 0 <= j < |r| - 1 ==> r[j] + interval <= r[j + 1])
  {
    AlarmRedrawsAreRedrawTimes(p, quiet, interval, lineByLine, last, t, horizon);
    RedrawsAreSpaced(quiet, interval, lineByLine, last, FiringTimes(p, quiet, interval, lineByLine, last, t, horizon));
  }

  /** As written, an interval of two seconds or more stops the display: the
      first alarm, one second after start-up, is too early to redraw, and no
      further alarm is armed. */
  lemma StallsAsWritten(interval: int, lineByLine: int, start: int, horizon: int)
    requires interval >= 2
    ensures AlarmRedraws(AsWritten, false, interval, lineByLine, start, start + 1, horizon) == []
  {
  }

  /** The concrete case `-i 2`: as written nothing is ever redrawn, while the
      corrected handler redraws at seconds 2 and 4 of the first four. */
  lemma IntervalTwoExample()
    ensures AlarmRedraws(AsWritten, false, 2, 0, 0, 1, 4) == []
    ensures AlarmRedraws(Corrected, false, 2, 0, 0, 1, 4) == [2, 4]
  {
  }

  /** With a corrected handler and a positive interval, the display redraws
      every `interval` seconds: the redraws up to `horizon` are last +
      interval, last + 2 * interval, ..., up to the last one that is not
      beyond `horizon`. */
  lemma {:induction false} CorrectedKeepsRefreshing(interval: int, lineByLine: int, last: int, t: int, horizon: int)
    requires interval >= 1
    requires last < t <= last + interval
    requires last <= horizon
    ensures var r := AlarmRedraws(Corrected, false, interval, lineByLine, last, t, horizon);
      (r == [] <==> horizon < last + interval) &&
      (r != [] ==> r[0] == last + interval && r[|r| - 1] <= horizon < r[|r| - 1] + interval) &&
      (forall j :: 0 <= j < |r| - 1 ==> r[j + 1] == r[j] + interval)
    decreases horizon - t
  {
    if t <= horizon {
      if t < last + interval {
        CorrectedKeepsRefreshing(interval, lineByLine, last, t + 1, horizon);
      } else {
        CorrectedKeepsRefreshing(interval, lineByLine, t, t + 1, horizon);
        var rest := AlarmRedraws(Corrected, false, interval, lineByLine, t, t + 1, horizon);
        assert AlarmRedraws(Corrected, false, interval, lineByLine, last, t, horizon) == [t] + rest;
      }
    }
  }

  /** With an interval of at most one second every alarm redraws, so the
      handler as written and the corrected one behave alike. */
  lemma {:induction false} PoliciesAgreeAtUnitInterval(quiet: bool, interval: int, lineByLine: int, last: int, t: int, horizon: int)
    requires interval <= 1
    requires last < t
    ensures AlarmRedraws(AsWritten, quiet, interval, lineByLine, last, t, horizon)
         == AlarmRedraws(Corrected, quiet, interval, lineByLine, last, t, horizon)
    decreases horizon - t
  {
    if t <= horizon && !quiet {
      PoliciesAgreeAtUnitInterval(quiet, interval, lineByLine, t, t + 1, horizon);
    }
  }
}
