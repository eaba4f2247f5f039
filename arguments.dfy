/**
 * The custom argparse actions of simpleperf.py. Each action either raises
 * `argparse.ArgumentError` or stores its value on the namespace; the namespace
 * is a map from destination names to values.
 */
module Arguments {
  import opened Wrappers
  import opened Units

  /** A value stored on the namespace (`None` for the unset interval). */
  datatype Arg = IntArg(i: int) | StrArg(s: string) | NoneArg

  /** The `dest` of each validated option: the attribute its action sets. */
  datatype Dest = PortDest | FormatDest | IntervalDest | ParallelDest | NumDest | TimeDest

  type Namespace = map<Dest, Arg>

  /** `argparse.ArgumentError(self, ...)`, naming the option's destination. */
  datatype ArgumentError = ArgumentError(dest: Dest)

  /** `PortInRangeAction`: a port is kept iff it lies in [1024, 65535]. */
  function PortInRange(ns: Namespace, dest: Dest, port: int): (r: Result<Namespace, ArgumentError>)
    ensures r.Ok? <==> 1024 <= port <= 65535
    ensures r.Ok? ==> r.value == ns[dest := IntArg(port)]
    ensures r.Err? ==> r.error == ArgumentError(dest)
  {
    if port < 1024 || port > 65535 then Err(ArgumentError(dest)) else Ok(ns[dest := IntArg(port)])
  }

  /** `LargerThanZeroAction` (the time): only a negative value is refused, so 0 is kept. */
  function LargerThanZero(ns: Namespace, dest: Dest, time: int): (r: Result<Namespace, ArgumentError>)
    ensures r.Ok? <==> time >= 0
    ensures r.Ok? ==> r.value == ns[dest := IntArg(time)]
    ensures r.Err? ==> r.error == ArgumentError(dest)
  {
    if time < 0 then Err(ArgumentError(dest)) else Ok(ns[dest := IntArg(time)])
  }

  /** `LargerThanEqualZeroAction` (the interval): despite its name, 0 is refused. */
  function LargerThanEqualZero(ns: Namespace, dest: Dest, interval: int): (r: Result<Namespace, ArgumentError>)
    ensures r.Ok? <==> interval > 0
    ensures r.Ok? ==> r.value == ns[dest := IntArg(interval)]
    ensures r.Err? ==> r.error == ArgumentError(dest)
  {
    if interval <= 0 then Err(ArgumentError(dest)) else Ok(ns[dest := IntArg(interval)])
  }

  /** `ParallelInRangeAction`: the number of connections is kept iff it lies in [1, 5]. */
  function ParallelInRange(ns: Namespace, dest: Dest, parallel: int): (r: Result<Namespace, ArgumentError>)
    ensures r.Ok? <==> 1 <= parallel <= 5
    ensures r.Ok? ==> r.value == ns[dest := IntArg(parallel)]
    ensures r.Err? ==> r.error == ArgumentError(dest)
  {
    if parallel < 1 || parallel > 5 then Err(ArgumentError(dest)) else Ok(ns[dest := IntArg(parallel)])
  }

  /**
   * `ParseSizeAction`: only the unit is checked (the non-digit characters of
   * the stripped, lower-cased string); the original string is stored as given.
   */
  function ParseSizeAction(ns: Namespace, dest: Dest, num: string): (r: Result<Namespace, ArgumentError>)
    ensures r.Ok? <==> Lookup(Text.NonDigits(Normalize(num))).Some?
    ensures r.Ok? ==> r.value == ns[dest := StrArg(num)]
    ensures r.Err? ==> r.error == ArgumentError(dest)
  {
    var sizeStr := Normalize(num);
    var unit := Text.NonDigits(sizeStr);
    if Lookup(unit).None? then Err(ArgumentError(dest)) else Ok(ns[dest := StrArg(num)])
  }

  /** `ValidFormatAction`: the format is checked, but nothing is ever stored. */
  function ValidFormat(ns: Namespace, dest: Dest, format: string): (r: Result<Namespace, ArgumentError>)
    ensures r.Ok? <==> Lookup(Normalize(format)).Some?
    ensures r.Ok? ==> r.value == ns
    ensures r.Err? ==> r.error == ArgumentError(dest)
  {
    if Lookup(Normalize(format)).None? then Err(ArgumentError(dest)) else Ok(ns)
  }

  /** `ParseSizeAction` accepts a size exactly when `parse_size` does not reject its unit. */
  lemma ParseSizeActionAgrees(ns: Namespace, dest: Dest, num: string)
    ensures ParseSizeAction(ns, dest, num).Ok? <==> ParseSize(Some(num)) != Err(InvalidSizeUnit)
  {
    ParseSizeMeaning(num);
  }

  /** The validated options, as given on the command line (after argparse's `type=` conversion). */
  datatype CommandOption =
    | Port(port: int)        // -p / --port
    | Format(format: string) // -f / --format
    | Interval(interval: int) // -i / --interval
    | Parallel(parallel: int) // -P / --parallel
    | Num(num: string)       // -n / --num
    | Time(time: int)        // -t / --time

  /** The default of -n, which the dispatch also uses to tell whether -n was given. */
  const DefaultNum: string := "1234567890123B"

  /** The defaults argparse puts on the namespace before any action runs. */
  function Defaults(): Namespace {
    map[PortDest := IntArg(8088), FormatDest := StrArg("MB"), IntervalDest := NoneArg,
        ParallelDest := IntArg(1), NumDest := StrArg(DefaultNum), TimeDest := IntArg(25)]
  }

  /** Calls the option's action with its destination. */
  function ApplyOption(ns: Namespace, o: CommandOption): Result<Namespace, ArgumentError> {
    match o
    case Port(p) => PortInRange(ns, PortDest, p)
    case Format(f) => ValidFormat(ns, FormatDest, f)
    case Interval(i) => LargerThanEqualZero(ns, IntervalDest, i)
    case Parallel(n) => ParallelInRange(ns, ParallelDest, n)
    case Num(s) => ParseSizeAction(ns, NumDest, s)
    case Time(t) => LargerThanZero(ns, TimeDest, t)
  }

  /** Runs the actions in command-line order; the first `ArgumentError` ends parsing. */
  function ParseOptions(given: seq<CommandOption>): Result<Namespace, ArgumentError> {
    if given == [] then Ok(Defaults())
    else
      match ParseOptions(given[..|given| - 1])
      case Err(e) => Err(e)
      case Ok(ns) => ApplyOption(ns, given[|given| - 1])
  }

  /** Whether an option's own action accepts its value. */
  predicate Accepted(o: CommandOption) {
    match o
    case Port(p) => 1024 <= p <= 65535
    case Format(f) => Lookup(Normalize(f)).Some?
    case Interval(i) => i > 0
    case Parallel(n) => 1 <= n <= 5
    case Num(s) => Lookup(Text.NonDigits(Normalize(s))).Some?
    case Time(t) => t >= 0
  }

  /** The size is the default or one whose unit was checked. */
  predicate ValidNum(a: Arg) {
    a.StrArg? && (a.s == DefaultNum || Lookup(Text.NonDigits(Normalize(a.s))).Some?)
  }

  /** The interval is unset or positive. */
  predicate ValidInterval(a: Arg) {
    a == NoneArg || (a.IntArg? && a.i > 0)
  }

  /** An integer option inside [lo, hi]. */
  predicate IntBetween(a: Arg, lo: int, hi: int) {
    a.IntArg? && lo <= a.i <= hi
  }

  /** What the actions let through for each destination; the format keeps its default "MB". */
  predicate ValidEntry(d: Dest, a: Arg) {
    match d
    case PortDest => IntBetween(a, 1024, 65535)
    case FormatDest => a == StrArg("MB")
    case IntervalDest => ValidInterval(a)
    case ParallelDest => IntBetween(a, 1, 5)
    case NumDest => ValidNum(a)
    case TimeDest => a.IntArg? && a.i >= 0
  }

  /**
   * What every namespace produced by the actions satisfies: every destination
   * is set and valid. Defaults are not passed through the actions, so the size
   * is either the default or one whose unit was checked.
   */
  predicate ValidNamespace(ns: Namespace) {
    forall d :: d in ns && ValidEntry(d, ns[d])
  }

  lemma DefaultsValid()
    ensures ValidNamespace(Defaults())
  {
    var ns := Defaults();
    forall d
      ensures d in ns && ValidEntry(d, ns[d])
    {
      match d {
        case PortDest =>
        case FormatDest =>
        case IntervalDest =>
        case ParallelDest =>
        case NumDest =>
        case TimeDest =>
      }
    }
  }

  /** Storing a valid entry keeps a namespace valid. */
  lemma UpdateValid(ns: Namespace, d: Dest, a: Arg)
    requires ValidNamespace(ns) && ValidEntry(d, a)
    ensures ValidNamespace(ns[d := a])
  {
    var ns' := ns[d := a];
    forall e
      ensures e in ns' && ValidEntry(e, ns'[e])
    {
      if e != d {
        assert ns'[e] == ns[e];
      }
    }
  }

  /** An option's action succeeds exactly when it accepts the option's value. */
  lemma ApplyOptionAccepts(ns: Namespace, o: CommandOption)
    ensures ApplyOption(ns, o).Ok? <==> Accepted(o)
  {
    match o {
      case Port(p) => assert ApplyOption(ns, o) == PortInRange(ns, PortDest, p);
      case Format(f) => assert ApplyOption(ns, o) == ValidFormat(ns, FormatDest, f);
      case Interval(i) => assert ApplyOption(ns, o) == LargerThanEqualZero(ns, IntervalDest, i);
      case Parallel(n) => assert ApplyOption(ns, o) == ParallelInRange(ns, ParallelDest, n);
      case Num(n) => assert ApplyOption(ns, o) == ParseSizeAction(ns, NumDest, n);
      case Time(t) => assert ApplyOption(ns, o) == LargerThanZero(ns, TimeDest, t);
    }
  }

  /** One action keeps the namespace valid. */
  lemma ApplyOptionPreserves(ns: Namespace, o: CommandOption)
    requires ValidNamespace(ns)
    ensures ApplyOption(ns, o).Ok? ==> ValidNamespace(ApplyOption(ns, o).value)
  {
    var r := ApplyOption(ns, o);
    if r.Ok? {
      match o {
        case Port(p) => UpdateValid(ns, PortDest, IntArg(p));
        case Format(f) =>
        case Interval(i) => UpdateValid(ns, IntervalDest, IntArg(i));
        case Parallel(n) => UpdateValid(ns, ParallelDest, IntArg(n));
        case Num(n) => UpdateValid(ns, NumDest, StrArg(n));
        case Time(t) => UpdateValid(ns, TimeDest, IntArg(t));
      }
    }
  }

  /** Every option of `given` is accepted. */
  predicate AllAccepted(given: seq<CommandOption>) {
    forall i :: 0 <= i < |given| ==> Accepted(given[i])
  }

  lemma AllAcceptedSnoc(given: seq<CommandOption>)
    requires given != []
    ensures AllAccepted(given) <==> AllAccepted(given[..|given| - 1]) && Accepted(given[|given| - 1])
  {
    var init := given[..|given| - 1];
    assert forall i :: 0 <= i < |init| ==> init[i] == given[i];
  }

  lemma {:induction false} ParseOptionsValid(given: seq<CommandOption>)
    ensures ParseOptions(given).Ok? <==> AllAccepted(given)
    ensures ParseOptions(given).Ok? ==> ValidNamespace(ParseOptions(given).value)
  {
    if given == [] {
      DefaultsValid();
    } else {
      var init, last := given[..|given| - 1], given[|given| - 1];
      ParseOptionsValid(init);
      AllAcceptedSnoc(given);
      match ParseOptions(init) {
        case Err(_) =>
        case Ok(ns) =>
          ApplyOptionAccepts(ns, last);
          ApplyOptionPreserves(ns, last);
      }
    }
  }
}
