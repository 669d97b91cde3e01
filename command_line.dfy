/** The command line of `qmat_cli`: the options record, the left-to-right
    scan that fills it (`parseArguments`), and the decisions `main` takes on
    the result (usage, error exit, simplify or skip). */
module CommandLine {
  import opened Wrappers
  import opened Strings

  /** A C++ `double` as far as the parser looks at it: the only test applied
      to it is `k <= 0`, which is false for NaN. */
  datatype Double = Finite(value: real) | PosInf | NegInf | NaN

  /** The C++ comparison `d <= 0`. */
  predicate AtMostZero(d: Double)
  {
    match d
    case Finite(r) => r <= 0.0
    case NegInf => true
    case PosInf => false
    case NaN => false
  }

  /** `struct CLIOptions`, field for field. */
  datatype CLIOptions = CLIOptions(
    inputFile: string,
    outputPrefix: string,
    simplifyTarget: int,   // -1 means no simplification
    k: Double,
    showHelp: bool,
    valid: bool,
    errorMessage: string)

  /** The record as its member initialisers leave it. */
  function Defaults(): CLIOptions
  {
    CLIOptions("", "", -1, Finite(0.00001), false, true, "")
  }

  /** An early `return` on an error path: `valid` cleared, message set. */
  function Invalid(o: CLIOptions, message: string): CLIOptions
  {
    o.(valid := false, errorMessage := message)
  }

  /** `std::stoi` and `std::stod`, abstracted: None where the call throws. */
  type IntParser = string -> Option<int>
  type DoubleParser = string -> Option<Double>

  /** The options that take the following argument as their value. */
  const ValueFlags: set<string> := {"--simplify", "--k", "--output"}

  /** How one iteration of the loop ends: it moves on by `width` arguments
      (two for a flag and its value) or takes one of the early `return`s. */
  datatype StepResult = Next(opts: CLIOptions, width: nat) | Stop(opts: CLIOptions)

  /** One iteration of the `for` loop of `parseArguments`, looking at the
      arguments not yet consumed: `rest[0]` is `argv[i]`, and `|rest| < 2`
      is the test `i + 1 >= argc`. */
  function Step(rest: seq<string>, o: CLIOptions, stoi: IntParser, stod: DoubleParser): (r: StepResult)
    requires rest != []
    ensures r.Next? ==> 1 <= r.width <= |rest| && r.width <= 2
  {
    var arg := rest[0];
    if arg == "--help" || arg == "-h" then
      Stop(o.(showHelp := true))
    else if arg == "--simplify" then
      if |rest| < 2 then Stop(Invalid(o, "--simplify requires a value."))
      else
        match stoi(rest[1])
        case None => Stop(Invalid(o, "Invalid value for --simplify."))
        case Some(n) =>
          var o' := o.(simplifyTarget := n);
          if n <= 0 then Stop(Invalid(o', "--simplify value must be positive.")) else Next(o', 2)
    else if arg == "--k" then
      if |rest| < 2 then Stop(Invalid(o, "--k requires a value."))
      else
        match stod(rest[1])
        case None => Stop(Invalid(o, "Invalid value for --k."))
        case Some(d) =>
          var o' := o.(k := d);
          if AtMostZero(d) then Stop(Invalid(o', "--k value must be positive.")) else Next(o', 2)
    else if arg == "--output" then
      if |rest| < 2 then Stop(Invalid(o, "--output requires a value."))
      else Next(o.(outputPrefix := rest[1]), 2)
    else if |arg| > 0 && arg[0] == '-' then
      Stop(Invalid(o, "Unknown option: " + arg))
    else if o.inputFile == "" then
      Next(o.(inputFile := arg), 1)
    else
      Stop(Invalid(o, "Multiple input files specified."))
  }

  /** How the whole loop ends: by running off the end of the arguments, or
      by an early `return`. */
  datatype Scanned = Finished(opts: CLIOptions) | Returned(opts: CLIOptions)

  /** The `for` loop of `parseArguments` over the arguments `rest` not yet
      consumed, with the record in state `o`. */
  function Scan(rest: seq<string>, o: CLIOptions, stoi: IntParser, stod: DoubleParser): Scanned
    decreases |rest|
  {
    if rest == [] then Finished(o)
    else
      match Step(rest, o, stoi, stod)
      case Stop(r) => Returned(r)
      case Next(o', width) => Scan(rest[width..], o', stoi, stod)
  }

  /** The output prefix derived from the input name: one trailing ".off",
      found with `rfind`, is cut off. */
  function DefaultOutputPrefix(inputFile: string): string
  {
    match LastOccurrence(inputFile, ".off")
    case Some(dotPos) => if dotPos == |inputFile| - 4 then inputFile[..dotPos] else inputFile
    case None => inputFile
  }

  /** What follows the loop: an input file is required, and a missing output
      prefix is derived from it. */
  function Complete(o: CLIOptions): CLIOptions
  {
    if o.inputFile == "" then Invalid(o, "No input file specified.")
    else if o.outputPrefix == "" then o.(outputPrefix := DefaultOutputPrefix(o.inputFile))
    else o
  }

  /** `parseArguments(argc, argv)` with `argc == |argv|`; `argv[0]` is the
      program name. */
  function Parse(argv: seq<string>, stoi: IntParser, stod: DoubleParser): CLIOptions
  {
    if |argv| < 2 then Invalid(Defaults(), "No input file specified.")
    else
      match Scan(argv[1..], Defaults(), stoi, stod)
      case Returned(o) => o
      case Finished(o) => Complete(o)
  }

  /** The scan from argument `i` on: one iteration, then the rest. */
  lemma ScanAt(argv: seq<string>, i: nat, o: CLIOptions, stoi: IntParser, stod: DoubleParser)
    requires 1 <= i < |argv|
    ensures argv[i..][0] == argv[i]
    ensures |argv[i..]| < 2 <==> i + 1 >= |argv|
    ensures i + 1 < |argv| ==> argv[i..][1] == argv[i + 1]
    ensures Scan(argv[i..], o, stoi, stod) ==
              match Step(argv[i..], o, stoi, stod)
              case Stop(r) => Returned(r)
              case Next(o', width) => Scan(argv[i + width..], o', stoi, stod)
  {
    match Step(argv[i..], o, stoi, stod)
    case Stop(r) =>
    case Next(o', width) =>
      assert argv[i..][width..] == argv[i + width..];
  }

  /** `parseArguments`: one pass over the arguments, updating the record in
      place and returning early on help or on the first error. */
  method ParseArguments(argv: seq<string>, stoi: IntParser, stod: DoubleParser) returns (options: CLIOptions)
    ensures options == Parse(argv, stoi, stod)
  {
    options := Defaults();
    if |argv| < 2 {
      options := options.(valid := false, errorMessage := "No input file specified.");
      return;
    }
    var i := 1;
    while i < |argv|
      invariant 1 <= i <= |argv|
      invariant Scan(argv[i..], options, stoi, stod) == Scan(argv[1..], Defaults(), stoi, stod)
    {
      ScanAt(argv, i, options, stoi, stod);
      ghost var rest, before := argv[i..], options;
      var arg := argv[i];
      if arg == "--help" || arg == "-h" {
        options := options.(showHelp := true);
        assert Step(rest, before, stoi, stod) == Stop(options);
        return;
      } else if arg == "--simplify" {
        if i + 1 >= |argv| {
          options := options.(valid := false, errorMessage := "--simplify requires a value.");
          assert Step(rest, before, stoi, stod) == Stop(options);
          return;
        }
        i := i + 1;
        var parsed := stoi(argv[i]);
        if parsed.None? {
          options := options.(valid := false, errorMessage := "Invalid value for --simplify.");
          assert Step(rest, before, stoi, stod) == Stop(options);
          return;
        }
        options := options.(simplifyTarget := parsed.value);
        if options.simplifyTarget <= 0 {
          options := options.(valid := false, errorMessage := "--simplify value must be positive.");
          assert Step(rest, before, stoi, stod) == Stop(options);
          return;
        }
        assert Step(rest, before, stoi, stod) == Next(options, 2);
      } else if arg == "--k" {
        if i + 1 >= |argv| {
          options := options.(valid := false, errorMessage := "--k requires a value.");
          assert Step(rest, before, stoi, stod) == Stop(options);
          return;
        }
        i := i + 1;
        var parsed := stod(argv[i]);
        if parsed.None? {
          options := options.(valid := false, errorMessage := "Invalid value for --k.");
          assert Step(rest, before, stoi, stod) == Stop(options);
          return;
        }
        options := options.(k := parsed.value);
        if AtMostZero(options.k) {
          options := options.(valid := false, errorMessage := "--k value must be positive.");
          assert Step(rest, before, stoi, stod) == Stop(options);
          return;
        }
        assert Step(rest, before, stoi, stod) == Next(options, 2);
      } else if arg == "--output" {
        if i + 1 >= |argv| {
          options := options.(valid := false, errorMessage := "--output requires a value.");
          assert Step(rest, before, stoi, stod) == Stop(options);
          return;
        }
        i := i + 1;
        options := options.(outputPrefix := argv[i]);
        assert Step(rest, before, stoi, stod) == Next(options, 2);
      } else if |arg| > 0 && arg[0] == '-' {
        options := options.(valid := false, errorMessage := "Unknown option: " + arg);
        assert Step(rest, before, stoi, stod) == Stop(options);
        return;
      } else {
        if options.inputFile == "" {
          options := options.(inputFile := arg);
          assert Step(rest, before, stoi, stod) == Next(options, 1);
        } else {
          options := options.(valid := false, errorMessage := "Multiple input files specified.");
          assert Step(rest, before, stoi, stod) == Stop(options);
          return;
        }
      }
      i := i + 1;
    }

    if options.inputFile == "" {
      options := options.(valid := false, errorMessage := "No input file specified.");
      return;
    }
    if options.outputPrefix == "" {
      options := options.(outputPrefix := options.inputFile);
      var dotPos := LastOccurrence(options.outputPrefix, ".off");
      if dotPos.Some? && dotPos.value == |options.outputPrefix| - 4 {
        options := options.(outputPrefix := options.outputPrefix[..dotPos.value]);
      }
    }
  }

  /** What `main` does right after parsing; an error report is the lines it
      writes to standard error before exiting with status 1. */
  datatype Action = ShowUsage | ReportError(lines: seq<string>) | Run

  /** `main`: help wins over everything, then an invalid record is reported
      with its message, otherwise the pipeline runs. */
  function Dispatch(o: CLIOptions): (a: Action)
    ensures a == ShowUsage <==> o.showHelp
    ensures a.ReportError? <==> !o.showHelp && !o.valid
    ensures a.ReportError? ==>
              a.lines == ["Error: " + o.errorMessage, "Use --help for usage information."]
    ensures a == Run <==> !o.showHelp && o.valid
  {
    if o.showHelp then ShowUsage
    else if !o.valid then ReportError(["Error: " + o.errorMessage, "Use --help for usage information."])
    else Run
  }

  /** The simplification step of `main`. */
  datatype Plan = NotRequested | Skipped | Reduce(reductionCount: nat)

  /** `main`: simplification is requested by a positive target; it is skipped
      with a warning when the target is not below the current vertex count,
      and otherwise removes the difference. */
  function PlanSimplification(simplifyTarget: int, currentVertices: int): (p: Plan)
    ensures p == NotRequested <==> simplifyTarget <= 0
    ensures p == Skipped <==> 0 < simplifyTarget && currentVertices <= simplifyTarget
    ensures p.Reduce? <==> 0 < simplifyTarget < currentVertices
    ensures p.Reduce? ==> p.reductionCount > 0 && currentVertices - p.reductionCount == simplifyTarget
  {
    if simplifyTarget <= 0 then NotRequested
    else if simplifyTarget >= currentVertices then Skipped
    else Reduce(currentVertices - simplifyTarget)
  }
}
