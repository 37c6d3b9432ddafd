/** parse_args: the global configuration is initialised, the options that
    getopt_long reports are applied one after the other, and a history size
    left at 0 is replaced by the default. getopt_long and atoi are not part of
    this model: an option arrives already decoded, its argument already an
    integer. */
module Options {

  datatype Option<T> = None | Some(value: T)

  type Positive = n: int | n > 0 witness 1

  /** DEFAULT_HISTORY_SIZE, whose value main.h fixes; only its positivity is used. */
  const DefaultHistorySize: Positive

  /** One option as getopt_long returns it. */
  datatype Flag =
    | Size(n: int)        // -s, --size=NUM
    | Quiet               // -q, --quiet
    | LineByLine(n: int)  // -l, --line-by-line=NUM
    | Interval(n: int)    // -i, --interval=NUM
    | Help                // -h, --help
    | Version             // -v, --version
    | Unrecognized        // whatever else getopt_long reports: an unknown option, a missing argument

  /** The fields of the global environment that parse_args sets. */
  datatype Env = Env(historySize: int, quiet: bool, lastUpdateTime: int, lineByLine: int, interval: int)

  /** How parse_args ends: the program goes on with a configuration, or it
      prints the version, or it prints the usage and exits with success or
      failure. */
  datatype Outcome = Proceed(env: Env) | ShowVersion | ShowUsage(success: bool)

  /** The values parse_args starts from. */
  const Initial := Env(0, false, 0, 0, 1)

  /** The integer fields an option with an argument sets. */
  datatype Field = HistorySize | LineByLineCount | UpdateInterval

  function Get(env: Env, f: Field): int {
    match f
    case HistorySize => env.historySize
    case LineByLineCount => env.lineByLine
    case UpdateInterval => env.interval
  }

  /** The field an option sets, when it is one of -s, -l, -i. */
  function Target(o: Flag): (r: Option<Field>)
    ensures r.Some? <==> o.Size? || o.LineByLine? || o.Interval?
  {
    match o
    case Size(_) => Some(HistorySize)
    case LineByLine(_) => Some(LineByLineCount)
    case Interval(_) => Some(UpdateInterval)
    case _ => None
  }

  /** Options on which the program exits instead of going on. */
  predicate IsExit(o: Flag) {
    o.Help? || o.Version? || o.Unrecognized?
  }

  /** The effect of one pass through the switch for an option that does not exit. */
  function Apply(env: Env, o: Flag): Env {
    match o
    case Size(n) => env.(historySize := n)
    case Quiet => env.(quiet := true)
    case LineByLine(n) => env.(lineByLine := n)
    case Interval(n) => env.(interval := n)
    case _ => env
  }

  /** The options applied in the order given. */
  function ApplyAll(env: Env, opts: seq<Flag>): Env
    decreases |opts|
  {
    if opts == [] then env else Apply(ApplyAll(env, opts[..|opts| - 1]), opts[|opts| - 1])
  }

  /** The position of the first option on which the program exits. */
  function FirstExit(opts: seq<Flag>): (r: Option<nat>)
    ensures r.Some? ==> r.value < |opts| && IsExit(opts[r.value])
    ensures r.Some? ==> forall j :: 0 <= j < r.value ==> !IsExit(opts[j])
    ensures r.None? <==> forall j :: 0 <= j < |opts| ==> !IsExit(opts[j])
    decreases |opts|
  {
    if opts == [] then None
    else if IsExit(opts[0]) then Some(0)
    else match FirstExit(opts[1..])
      case None => None
      case Some(i) => Some(i + 1)
  }

  function ExitOutcome(o: Flag): Outcome
    requires IsExit(o)
  {
    match o
    case Version => ShowVersion
    case Help => ShowUsage(true)
    case _ => ShowUsage(false)
  }

  function DefaultSize(env: Env): Env {
    if env.historySize == 0 then env.(historySize := DefaultHistorySize) else env
  }

  /** What parse_args leads to: the first exiting option decides, if there is
      one; otherwise a terminal on standard input is refused; otherwise the
      options, applied in order to the initial values, with the history size
      defaulted. */
  function Parse(opts: seq<Flag>, stdinIsTty: bool): Outcome {
    match FirstExit(opts)
    case Some(i) => ExitOutcome(opts[i])
    case None =>
      if stdinIsTty then ShowUsage(false) else Proceed(DefaultSize(ApplyAll(Initial, opts)))
  }

  /** parse_args as a loop over the decoded options. */
  method ParseArgs(opts: seq<Flag>, stdinIsTty: bool) returns (outcome: Outcome)
    ensures outcome == Parse(opts, stdinIsTty)
  {
    var env := Env(historySize := 0, quiet := false, lastUpdateTime := 0, lineByLine := 0, interval := 1);
    var i := 0;
    while i < |opts|
      invariant i <= |opts|
      invariant forall j :: 0 <= j < i ==> !IsExit(opts[j])
      invariant env == ApplyAll(Initial, opts[..i])
    {
      assert opts[..i + 1][..i] == opts[..i];
      match opts[i] {
        case LineByLine(n) => env := env.(lineByLine := n);
        case Quiet => env := env.(quiet := true);
        case Size(n) => env := env.(historySize := n);
        case Interval(n) => env := env.(interval := n);
        case Version => return ShowVersion;
        case Help => return ShowUsage(true);
        case Unrecognized => return ShowUsage(false);
      }
      i := i + 1;
    }
    assert opts[..i] == opts;
    if stdinIsTty {
      return ShowUsage(false);
    }
    if env.historySize == 0 {
      env := env.(historySize := DefaultHistorySize);
    }
    outcome := Proceed(env);
  }

  /** The last occurrence of -s, -l or -i decides its field: a later option
      overwrites an earlier one. */
  lemma {:induction false} LastOccurrenceWins(env: Env, opts: seq<Flag>, i: nat, f: Field)
    requires i < |opts| && Target(opts[i]) == Some(f)
    requires forall j :: i < j < |opts| ==> Target(opts[j]) != Some(f)
    ensures Get(ApplyAll(env, opts), f) == opts[i].n
    decreases |opts|
  {
    var init := opts[..|opts| - 1];
    if i < |opts| - 1 {
      LastOccurrenceWins(env, init, i, f);
    }
  }

  /** A field that no option sets keeps the value it started with. */
  lemma {:induction false} UnsetFieldKept(env: Env, opts: seq<Flag>, f: Field)
    requires forall j :: 0 <= j < |opts| ==> Target(opts[j]) != Some(f)
    ensures Get(ApplyAll(env, opts), f) == Get(env, f)
    decreases |opts|
  {
    if opts != [] {
      UnsetFieldKept(env, opts[..|opts| - 1], f);
    }
  }

  /** Quiet mode is on exactly when it was on already or -q was given; no
      option touches the last update time. */
  lemma {:induction false} QuietAndTime(env: Env, opts: seq<Flag>)
    ensures ApplyAll(env, opts).quiet <==> env.quiet || Quiet in opts
    ensures ApplyAll(env, opts).lastUpdateTime == env.lastUpdateTime
    decreases |opts|
  {
    if opts != [] {
      var init := opts[..|opts| - 1];
      QuietAndTime(env, init);
      assert opts == init + [opts[|opts| - 1]];
    }
  }

  /** The program goes on exactly when no option exits and standard input is
      not a terminal; otherwise the first exiting option, or the terminal,
      decides how it exits. */
  lemma ParseProceeds(opts: seq<Flag>, stdinIsTty: bool)
    ensures Parse(opts, stdinIsTty).Proceed? <==> !stdinIsTty && forall j :: 0 <= j < |opts| ==> !IsExit(opts[j])
    ensures forall i :: 0 <= i < |opts| && IsExit(opts[i]) && (forall j :: 0 <= j < i ==> !IsExit(opts[j])) ==>
              Parse(opts, stdinIsTty) == ExitOutcome(opts[i])
  {
  }

  /** The history size of a configuration that goes on: the argument of the
      last -s when that is non-zero, the default when it is 0 or no -s was
      given. It is never 0. */
  lemma ParsedHistorySize(opts: seq<Flag>, stdinIsTty: bool)
    requires Parse(opts, stdinIsTty).Proceed?
    ensures Parse(opts, stdinIsTty).env.historySize != 0
    ensures (forall j :: 0 <= j < |opts| ==> !opts[j].Size?) ==>
              Parse(opts, stdinIsTty).env.historySize == DefaultHistorySize
    ensures forall i :: 0 <= i < |opts| && opts[i].Size? && (forall j :: i < j < |opts| ==> !opts[j].Size?) ==>
              Parse(opts, stdinIsTty).env.historySize == if opts[i].n == 0 then DefaultHistorySize else opts[i].n
  {
    forall i | 0 <= i < |opts| && opts[i].Size? && (forall j :: i < j < |opts| ==> !opts[j].Size?)
      ensures Get(ApplyAll(Initial, opts), HistorySize) == opts[i].n
    {
      LastOccurrenceWins(Initial, opts, i, HistorySize);
    }
    if forall j :: 0 <= j < |opts| ==> !opts[j].Size? {
      UnsetFieldKept(Initial, opts, HistorySize);
    }
  }

  /** The other fields of a configuration that goes on: quiet iff -q was
      given, the last update time still 0, and the line-by-line count and the
      interval those of their last option, else 0 and 1. */
  lemma ParsedOtherFields(opts: seq<Flag>, stdinIsTty: bool)
    requires Parse(opts, stdinIsTty).Proceed?
    ensures Parse(opts, stdinIsTty).env.quiet <==> Quiet in opts
    ensures Parse(opts, stdinIsTty).env.lastUpdateTime == 0
    ensures (forall j :: 0 <= j < |opts| ==> !opts[j].LineByLine?) ==> Parse(opts, stdinIsTty).env.lineByLine == 0
    ensures (forall j :: 0 <= j < |opts| ==> !opts[j].Interval?) ==> Parse(opts, stdinIsTty).env.interval == 1
    ensures forall i :: 0 <= i < |opts| && opts[i].LineByLine? && (forall j :: i < j < |opts| ==> !opts[j].LineByLine?) ==>
              Parse(opts, stdinIsTty).env.lineByLine == opts[i].n
    ensures forall i :: 0 <= i < |opts| && opts[i].Interval? && (forall j :: i < j < |opts| ==> !opts[j].Interval?) ==>
              Parse(opts, stdinIsTty).env.interval == opts[i].n
  {
    QuietAndTime(Initial, opts);
    forall i | 0 <= i < |opts| && opts[i].LineByLine? && (forall j :: i < j < |opts| ==> !opts[j].LineByLine?)
      ensures Get(ApplyAll(Initial, opts), LineByLineCount) == opts[i].n
    {
      LastOccurrenceWins(Initial, opts, i, LineByLineCount);
    }
    forall i | 0 <= i < |opts| && opts[i].Interval? && (forall j :: i < j < |opts| ==> !opts[j].Interval?)
      ensures Get(ApplyAll(Initial, opts), UpdateInterval) == opts[i].n
    {
      LastOccurrenceWins(Initial, opts, i, UpdateInterval);
    }
    if forall j :: 0 <= j < |opts| ==> !opts[j].LineByLine? {
      UnsetFieldKept(Initial, opts, LineByLineCount);
    }
    if forall j :: 0 <= j < |opts| ==> !opts[j].Interval? {
      UnsetFieldKept(Initial, opts, UpdateInterval);
    }
  }

  /** Without options, and reading from a pipe, the program runs with the
      default history size, not quiet, curses output, one-second interval. */
  lemma ParseNoOptions()
    ensures Parse([], false) == Proceed(Env(DefaultHistorySize, false, 0, 0, 1))
  {
  }
}
