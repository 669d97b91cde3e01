/** What `parseArguments` promises, proved about its specification `Parse`. */
module CommandLineLemmas {
  import opened Wrappers
  import opened Strings
  import opened CommandLine

  /** The scan over the arguments of `p` ran to their end without
      returning and left the record in state `o`: whatever is appended to
      `p` is scanned from `o`. */
  predicate CleanPrefix(p: seq<string>, o: CLIOptions, stoi: IntParser, stod: DoubleParser)
  {
    |p| >= 1 && Scan(p[1..], Defaults(), stoi, stod) == Finished(o)
  }

  /** The messages of the "requires a value" errors: the only early returns
      that a later argument could have prevented. */
  predicate MissingValueMessage(m: string)
  {
    m == "--simplify requires a value." || m == "--k requires a value." || m == "--output requires a value."
  }

  /** The record state every iteration starts from: no error, no help. */
  predicate Scanning(o: CLIOptions)
  {
    o.valid && o.errorMessage == "" && !o.showHelp
  }

  /** The accepted values of `--simplify` and `--k`. */
  predicate GoodTargetAndK(o: CLIOptions)
  {
    (o.simplifyTarget == -1 || o.simplifyTarget > 0) && !AtMostZero(o.k)
  }

  /** One iteration is not affected by arguments after those it consumes,
      unless it stopped for want of a value. */
  lemma StepExtends(p: seq<string>, q: seq<string>, o: CLIOptions, stoi: IntParser, stod: DoubleParser)
    requires p != []
    ensures Step(p, o, stoi, stod).Next? ==> Step(p + q, o, stoi, stod) == Step(p, o, stoi, stod)
    ensures Step(p, o, stoi, stod).Stop? && !MissingValueMessage(Step(p, o, stoi, stod).opts.errorMessage) ==>
              Step(p + q, o, stoi, stod) == Step(p, o, stoi, stod)
  {
    assert (p + q)[0] == p[0];
    if |p| >= 2 {
      assert (p + q)[1] == p[1];
    }
  }

  /** Appending arguments does not change a scan that ran to the end (it goes
      on from the state it reached), nor one that returned early for any
      reason other than a flag missing its value. */
  lemma {:induction false} ScanAppend(p: seq<string>, q: seq<string>, o: CLIOptions,
                                      stoi: IntParser, stod: DoubleParser)
    ensures Scan(p, o, stoi, stod).Finished? ==>
              Scan(p + q, o, stoi, stod) == Scan(q, Scan(p, o, stoi, stod).opts, stoi, stod)
    ensures Scan(p, o, stoi, stod).Returned? && !MissingValueMessage(Scan(p, o, stoi, stod).opts.errorMessage) ==>
              Scan(p + q, o, stoi, stod) == Scan(p, o, stoi, stod)
    decreases |p|
  {
    if p == [] {
      assert p + q == q;
    } else {
      StepExtends(p, q, o, stoi, stod);
      match Step(p, o, stoi, stod)
      case Stop(r) =>
      case Next(o', width) =>
        assert (p + q)[width..] == p[width..] + q;
        ScanAppend(p[width..], q, o', stoi, stod);
    }
  }

  /** Scanning after a clean prefix `p` is scanning what follows it alone. */
  lemma ContinueAfter(p: seq<string>, q: seq<string>, o: CLIOptions, stoi: IntParser, stod: DoubleParser)
    requires CleanPrefix(p, o, stoi, stod)
    ensures Scan((p + q)[1..], Defaults(), stoi, stod) == Scan(q, o, stoi, stod)
  {
    assert (p + q)[1..] == p[1..] + q;
    ScanAppend(p[1..], q, Defaults(), stoi, stod);
  }

  /** With fewer than two entries in argv there is no input file. */
  lemma NoArguments(argv: seq<string>, stoi: IntParser, stod: DoubleParser)
    requires |argv| < 2
    ensures !Parse(argv, stoi, stod).valid && !Parse(argv, stoi, stod).showHelp
    ensures Parse(argv, stoi, stod).errorMessage == "No input file specified."
  {
  }

  /** `--help` or `-h` stops the parse at once: the state reached so far is
      returned with `showHelp` set, and nothing after it is looked at. */
  lemma HelpStopsParsing(p: seq<string>, o: CLIOptions, h: string, rest: seq<string>,
                         stoi: IntParser, stod: DoubleParser)
    requires CleanPrefix(p, o, stoi, stod)
    requires h == "--help" || h == "-h"
    ensures Parse(p + [h] + rest, stoi, stod) == o.(showHelp := true)
  {
    assert p + [h] + rest == p + ([h] + rest);
    ContinueAfter(p, [h] + rest, o, stoi, stod);
  }

  /** Once the scan has returned, whether with help or with an error other
      than a missing value, later arguments change nothing: the first error
      wins, and an error before `--help` wins over it. */
  lemma FirstReturnWins(p: seq<string>, rest: seq<string>, stoi: IntParser, stod: DoubleParser)
    requires |p| >= 2
    requires Scan(p[1..], Defaults(), stoi, stod).Returned?
    requires !MissingValueMessage(Scan(p[1..], Defaults(), stoi, stod).opts.errorMessage)
    ensures Parse(p + rest, stoi, stod) == Parse(p, stoi, stod)
  {
    assert (p + rest)[1..] == p[1..] + rest;
    ScanAppend(p[1..], rest, Defaults(), stoi, stod);
  }

  /** A value-taking flag as the last argument is an error naming the flag. */
  lemma FlagWithoutValue(p: seq<string>, o: CLIOptions, flag: string, stoi: IntParser, stod: DoubleParser)
    requires CleanPrefix(p, o, stoi, stod)
    requires flag in ValueFlags
    ensures Parse(p + [flag], stoi, stod) == Invalid(o, flag + " requires a value.")
  {
    ContinueAfter(p, [flag], o, stoi, stod);
    LoneFlag(flag, o, stoi, stod);
  }

  /** A value-taking flag with nothing after it stops the scan. */
  lemma LoneFlag(flag: string, o: CLIOptions, stoi: IntParser, stod: DoubleParser)
    requires flag in ValueFlags
    ensures Scan([flag], o, stoi, stod) == Returned(Invalid(o, flag + " requires a value."))
  {
    if flag == "--simplify" {
      assert flag + " requires a value." == "--simplify requires a value.";
    } else if flag == "--k" {
      assert flag + " requires a value." == "--k requires a value.";
    } else {
      assert flag + " requires a value." == "--output requires a value.";
    }
  }

  /** `--output` takes the next argument whatever it looks like, even an
      option name, and the scan goes on after it. */
  lemma OutputTakesNextArgument(p: seq<string>, o: CLIOptions, v: string, rest: seq<string>,
                                stoi: IntParser, stod: DoubleParser)
    requires CleanPrefix(p, o, stoi, stod)
    ensures Scan((p + ["--output", v] + rest)[1..], Defaults(), stoi, stod)
            == Scan(rest, o.(outputPrefix := v), stoi, stod)
  {
    assert p + ["--output", v] + rest == p + (["--output", v] + rest);
    ContinueAfter(p, ["--output", v] + rest, o, stoi, stod);
    assert (["--output", v] + rest)[2..] == rest;
  }

  /** `--simplify` takes the next argument as its value: unparsable is one
      error, parsed but not positive is another (the target is stored
      before the test), and a positive target is kept and the scan goes on. */
  lemma SimplifyTakesNextArgument(p: seq<string>, o: CLIOptions, v: string, rest: seq<string>,
                                  stoi: IntParser, stod: DoubleParser)
    requires CleanPrefix(p, o, stoi, stod)
    ensures stoi(v).None? ==>
              Parse(p + ["--simplify", v] + rest, stoi, stod) == Invalid(o, "Invalid value for --simplify.")
    ensures stoi(v).Some? && stoi(v).value <= 0 ==>
              Parse(p + ["--simplify", v] + rest, stoi, stod)
              == Invalid(o.(simplifyTarget := stoi(v).value), "--simplify value must be positive.")
    ensures stoi(v).Some? && stoi(v).value > 0 ==>
              Scan((p + ["--simplify", v] + rest)[1..], Defaults(), stoi, stod)
              == Scan(rest, o.(simplifyTarget := stoi(v).value), stoi, stod)
  {
    assert p + ["--simplify", v] + rest == p + (["--simplify", v] + rest);
    ContinueAfter(p, ["--simplify", v] + rest, o, stoi, stod);
    assert (["--simplify", v] + rest)[2..] == rest;
  }

  /** `--k` takes the next argument as its value, with the same three
      outcomes as `--simplify`; the test is the C++ `k <= 0`. */
  lemma KTakesNextArgument(p: seq<string>, o: CLIOptions, v: string, rest: seq<string>,
                           stoi: IntParser, stod: DoubleParser)
    requires CleanPrefix(p, o, stoi, stod)
    ensures stod(v).None? ==>
              Parse(p + ["--k", v] + rest, stoi, stod) == Invalid(o, "Invalid value for --k.")
    ensures stod(v).Some? && AtMostZero(stod(v).value) ==>
              Parse(p + ["--k", v] + rest, stoi, stod) == Invalid(o.(k := stod(v).value), "--k value must be positive.")
    ensures stod(v).Some? && !AtMostZero(stod(v).value) ==>
              Scan((p + ["--k", v] + rest)[1..], Defaults(), stoi, stod)
              == Scan(rest, o.(k := stod(v).value), stoi, stod)
  {
    assert p + ["--k", v] + rest == p + (["--k", v] + rest);
    ContinueAfter(p, ["--k", v] + rest, o, stoi, stod);
    assert (["--k", v] + rest)[2..] == rest;
  }

  /** Any other argument beginning with '-' is an unknown option. */
  lemma UnknownOption(p: seq<string>, o: CLIOptions, arg: string, rest: seq<string>,
                      stoi: IntParser, stod: DoubleParser)
    requires CleanPrefix(p, o, stoi, stod)
    requires |arg| > 0 && arg[0] == '-'
    requires arg !in ValueFlags && arg != "--help" && arg != "-h"
    ensures Parse(p + [arg] + rest, stoi, stod) == Invalid(o, "Unknown option: " + arg)
  {
    assert p + [arg] + rest == p + ([arg] + rest);
    ContinueAfter(p, [arg] + rest, o, stoi, stod);
  }

  /** Once an input file is known, any further positional argument, even an
      empty one, is an error. */
  lemma SecondInputFile(p: seq<string>, o: CLIOptions, arg: string, rest: seq<string>,
                        stoi: IntParser, stod: DoubleParser)
    requires CleanPrefix(p, o, stoi, stod)
    requires o.inputFile != ""
    requires !(|arg| > 0 && arg[0] == '-')
    ensures Parse(p + [arg] + rest, stoi, stod) == Invalid(o, "Multiple input files specified.")
  {
    assert p + [arg] + rest == p + ([arg] + rest);
    ContinueAfter(p, [arg] + rest, o, stoi, stod);
  }

  /** A value-taking flag given twice: the second value wins, provided the
      first was accepted and the second converts. */
  lemma RepeatedOptionLastWins(p: seq<string>, o: CLIOptions, flag: string, a: string, b: string,
                               rest: seq<string>, stoi: IntParser, stod: DoubleParser)
    requires CleanPrefix(p, o, stoi, stod)
    requires flag in ValueFlags
    requires flag == "--simplify" ==> stoi(a).Some? && stoi(a).value > 0 && stoi(b).Some?
    requires flag == "--k" ==> stod(a).Some? && !AtMostZero(stod(a).value) && stod(b).Some?
    ensures Parse(p + [flag, a, flag, b] + rest, stoi, stod) == Parse(p + [flag, b] + rest, stoi, stod)
  {
    var tail := [flag, b] + rest;
    assert p + [flag, a, flag, b] + rest == p + ([flag, a] + tail);
    assert p + [flag, b] + rest == p + tail;
    ContinueAfter(p, [flag, a] + tail, o, stoi, stod);
    ContinueAfter(p, tail, o, stoi, stod);
    FirstValueOverwritten(o, flag, a, b, rest, stoi, stod);
  }

  /** After an accepted `flag a`, scanning `flag b ...` goes as it would
      have without `flag a`: the second value overwrites the first. */
  lemma FirstValueOverwritten(o: CLIOptions, flag: string, a: string, b: string, rest: seq<string>,
                              stoi: IntParser, stod: DoubleParser)
    requires flag in ValueFlags
    requires flag == "--simplify" ==> stoi(a).Some? && stoi(a).value > 0 && stoi(b).Some?
    requires flag == "--k" ==> stod(a).Some? && !AtMostZero(stod(a).value) && stod(b).Some?
    ensures Scan([flag, a] + ([flag, b] + rest), o, stoi, stod) == Scan([flag, b] + rest, o, stoi, stod)
  {
    var tail := [flag, b] + rest;
    assert ([flag, a] + tail)[2..] == tail;
    assert ([flag, a] + tail)[..2] == [flag, a];
    assert tail[2..] == rest;
    if flag == "--simplify" {
      var o1 := o.(simplifyTarget := stoi(a).value);
      assert Step([flag, a] + tail, o, stoi, stod) == Next(o1, 2);
      assert Step(tail, o1, stoi, stod) == Step(tail, o, stoi, stod);
      SameStepSameScan(tail, o1, o, stoi, stod);
    } else if flag == "--k" {
      var o1 := o.(k := stod(a).value);
      assert Step([flag, a] + tail, o, stoi, stod) == Next(o1, 2);
      assert Step(tail, o1, stoi, stod) == Step(tail, o, stoi, stod);
      SameStepSameScan(tail, o1, o, stoi, stod);
    } else {
      var o1 := o.(outputPrefix := a);
      assert Step([flag, a] + tail, o, stoi, stod) == Next(o1, 2);
      assert Step(tail, o1, stoi, stod) == Step(tail, o, stoi, stod);
      SameStepSameScan(tail, o1, o, stoi, stod);
    }
  }

  /** Two records on which the next iteration agrees scan alike. */
  lemma SameStepSameScan(rest: seq<string>, o1: CLIOptions, o2: CLIOptions, stoi: IntParser, stod: DoubleParser)
    requires rest != [] && Step(rest, o1, stoi, stod) == Step(rest, o2, stoi, stod)
    ensures Scan(rest, o1, stoi, stod) == Scan(rest, o2, stoi, stod)
  {
  }

  /** Last-wins needs the second value to convert: when it throws, the
      first target stays in the invalid record, which therefore differs from
      the one the second flag alone would give. */
  lemma UnparsableSecondValue(p: seq<string>, o: CLIOptions, a: string, b: string, rest: seq<string>,
                              stoi: IntParser, stod: DoubleParser)
    requires CleanPrefix(p, o, stoi, stod)
    requires stoi(a).Some? && stoi(a).value > 0 && stoi(b).None?
    ensures Parse(p + ["--simplify", a, "--simplify", b] + rest, stoi, stod)
            == Invalid(o.(simplifyTarget := stoi(a).value), "Invalid value for --simplify.")
    ensures Parse(p + ["--simplify", b] + rest, stoi, stod) == Invalid(o, "Invalid value for --simplify.")
  {
    var tail := ["--simplify", b] + rest;
    assert p + ["--simplify", a, "--simplify", b] + rest == p + (["--simplify", a] + tail);
    ContinueAfter(p, ["--simplify", a] + tail, o, stoi, stod);
    assert (["--simplify", a] + tail)[2..] == tail;
    SimplifyTakesNextArgument(p, o, b, rest, stoi, stod);
  }

  /** One iteration from a state with no error and no help: it moves on in
      such a state with accepted values and an input file that is empty or
      one of the arguments, stops with help and no error, or stops with an
      error and a message. */
  lemma StepOutcome(rest: seq<string>, o: CLIOptions, all: seq<string>, stoi: IntParser, stod: DoubleParser)
    requires rest != []
    requires Scanning(o) && GoodTargetAndK(o)
    requires o.inputFile == "" || o.inputFile in all
    requires rest[0] in all
    ensures var r := Step(rest, o, stoi, stod).opts;
      && (Step(rest, o, stoi, stod).Next? ==> Scanning(r) && GoodTargetAndK(r))
      && (Step(rest, o, stoi, stod).Stop? ==> r.showHelp || !r.valid)
      && (r.valid <==> r.errorMessage == "")
      && (r.showHelp ==> r.valid && GoodTargetAndK(r))
      && (r.inputFile == "" || r.inputFile in all)
  {
    var arg := rest[0];
    if arg == "--help" || arg == "-h" {
    } else if arg == "--simplify" {
      if |rest| >= 2 {
        match stoi(rest[1])
        case None =>
        case Some(n) =>
      }
    } else if arg == "--k" {
      if |rest| >= 2 {
        match stod(rest[1])
        case None =>
        case Some(d) =>
      }
    } else if arg == "--output" {
    } else if |arg| > 0 && arg[0] == '-' {
      assert Step(rest, o, stoi, stod) == Stop(Invalid(o, "Unknown option: " + arg));
    } else {
    }
  }

  /** `StepOutcome` over the whole scan. */
  lemma {:induction false} ScanOutcome(rest: seq<string>, o: CLIOptions, all: seq<string>,
                                       stoi: IntParser, stod: DoubleParser)
    requires Scanning(o) && GoodTargetAndK(o)
    requires o.inputFile == "" || o.inputFile in all
    requires forall x :: x in rest ==> x in all
    ensures var r := Scan(rest, o, stoi, stod).opts;
      && (Scan(rest, o, stoi, stod).Finished? ==> Scanning(r) && GoodTargetAndK(r))
      && (Scan(rest, o, stoi, stod).Returned? ==> r.showHelp || !r.valid)
      && (r.valid <==> r.errorMessage == "")
      && (r.showHelp ==> r.valid && GoodTargetAndK(r))
      && (r.inputFile == "" || r.inputFile in all)
    decreases |rest|
  {
    if rest != [] {
      StepOutcome(rest, o, all, stoi, stod);
      match Step(rest, o, stoi, stod)
      case Stop(r) =>
      case Next(o', width) =>
        assert forall x :: x in rest[width..] ==> x in rest;
        ScanOutcome(rest[width..], o', all, stoi, stod);
    }
  }

  /** What a caller of `parseArguments` may rely on: `valid` is true exactly
      when there is no message; help never comes with an error; a record
      that is valid and not help names an input file that is one of the
      arguments, has a target that is -1 or positive, a `k` that passed the
      test `k <= 0`, and an output prefix that is either the one the scan
      left or the one derived from the input file. */
  lemma ParseOutcome(argv: seq<string>, stoi: IntParser, stod: DoubleParser)
    ensures var r := Parse(argv, stoi, stod);
      && (r.valid <==> r.errorMessage == "")
      && (r.showHelp ==> r.valid)
      && (r.valid ==> GoodTargetAndK(r))
      && (r.valid && !r.showHelp ==>
            && r.inputFile != "" && r.inputFile in argv[1..]
            && (r.outputPrefix == Scan(argv[1..], Defaults(), stoi, stod).opts.outputPrefix
                || r.outputPrefix == DefaultOutputPrefix(r.inputFile)))
  {
    if |argv| >= 2 {
      ScanOutcome(argv[1..], Defaults(), argv[1..], stoi, stod);
    }
  }

  /** A scan over arguments none of which is `--output` leaves the output
      prefix as it was. */
  lemma {:induction false} ScanKeepsOutputPrefix(rest: seq<string>, o: CLIOptions,
                                                 stoi: IntParser, stod: DoubleParser)
    requires "--output" !in rest
    ensures Scan(rest, o, stoi, stod).opts.outputPrefix == o.outputPrefix
    decreases |rest|
  {
    if rest != [] {
      assert rest[0] != "--output";
      match Step(rest, o, stoi, stod)
      case Stop(r) =>
      case Next(o', width) =>
        assert forall x :: x in rest[width..] ==> x in rest;
        ScanKeepsOutputPrefix(rest[width..], o', stoi, stod);
    }
  }

  /** Without `--output` a successful parse derives the prefix from the
      input file. */
  lemma DefaultPrefixWithoutOutputFlag(argv: seq<string>, stoi: IntParser, stod: DoubleParser)
    requires |argv| >= 1 && "--output" !in argv[1..]
    requires Parse(argv, stoi, stod).valid && !Parse(argv, stoi, stod).showHelp
    ensures Parse(argv, stoi, stod).outputPrefix == DefaultOutputPrefix(Parse(argv, stoi, stod).inputFile)
  {
    ScanOutcome(argv[1..], Defaults(), argv[1..], stoi, stod);
    ScanKeepsOutputPrefix(argv[1..], Defaults(), stoi, stod);
    var o := Scan(argv[1..], Defaults(), stoi, stod).opts;
    assert Scan(argv[1..], Defaults(), stoi, stod) == Finished(o);
    assert o.outputPrefix == "" && o.inputFile != "";
  }

  /** An explicit non-empty `--output` value, not overridden later, is kept
      unchanged by a successful parse. */
  lemma ExplicitOutputKept(p: seq<string>, o: CLIOptions, v: string, rest: seq<string>,
                           stoi: IntParser, stod: DoubleParser)
    requires CleanPrefix(p, o, stoi, stod)
    requires v != "" && "--output" !in rest
    requires Parse(p + ["--output", v] + rest, stoi, stod).valid
    requires !Parse(p + ["--output", v] + rest, stoi, stod).showHelp
    ensures Parse(p + ["--output", v] + rest, stoi, stod).outputPrefix == v
  {
    OutputTakesNextArgument(p, o, v, rest, stoi, stod);
    ScanKeepsOutputPrefix(rest, o.(outputPrefix := v), stoi, stod);
  }

  /** The default prefix is the input name with one trailing, case-sensitive
      ".off" removed, and with nothing removed otherwise. */
  lemma DefaultOutputPrefixStripsOff(inputFile: string)
    ensures DefaultOutputPrefix(inputFile) ==
              if EndsWith(inputFile, ".off") then inputFile[..|inputFile| - 4] else inputFile
    ensures EndsWith(inputFile, ".off") ==> DefaultOutputPrefix(inputFile) + ".off" == inputFile
  {
    var n := |inputFile|;
    if EndsWith(inputFile, ".off") {
      assert OccursAt(inputFile, ".off", n - 4);
      assert inputFile[..n - 4] + ".off" == inputFile;
    }
  }

  /** A run goes ahead only with a complete record: an input file, and
      accepted target and `k`. Simplification is then either not requested
      (no `--simplify`) or asked for a positive target, and when it is
      carried out it removes exactly the vertices above the target. */
  lemma RunPlansFromValidOptions(argv: seq<string>, stoi: IntParser, stod: DoubleParser, currentVertices: int)
    requires Dispatch(Parse(argv, stoi, stod)) == Run
    ensures Parse(argv, stoi, stod).inputFile != ""
    ensures !AtMostZero(Parse(argv, stoi, stod).k)
    ensures (PlanSimplification(Parse(argv, stoi, stod).simplifyTarget, currentVertices) == NotRequested)
              <==> Parse(argv, stoi, stod).simplifyTarget == -1
    ensures PlanSimplification(Parse(argv, stoi, stod).simplifyTarget, currentVertices).Reduce? ==>
              currentVertices - PlanSimplification(Parse(argv, stoi, stod).simplifyTarget, currentVertices).reductionCount
              == Parse(argv, stoi, stod).simplifyTarget > 0
  {
    ParseOutcome(argv, stoi, stod);
  }

  /** The usage examples: an input alone derives the prefix; all options
      together set every field. */
  lemma UsageExamples(stoi: IntParser, stod: DoubleParser)
    requires stoi("500") == Some(500) && stoi("1000") == Some(1000)
    requires stod("0.0001") == Some(Finite(0.0001))
    ensures Parse(["qmat_cli", "model.off"], stoi, stod)
            == CLIOptions("model.off", "model", -1, Finite(0.00001), false, true, "")
    ensures Parse(["qmat_cli", "model.off", "--simplify", "1000"], stoi, stod)
            == CLIOptions("model.off", "model", 1000, Finite(0.00001), false, true, "")
    ensures Parse(["qmat_cli", "model.off", "--simplify", "500", "--k", "0.0001", "--output", "result"], stoi, stod)
            == CLIOptions("model.off", "result", 500, Finite(0.0001), false, true, "")
  {
    DefaultOutputPrefixStripsOff("model.off");
    assert EndsWith("model.off", ".off");
    assert "model.off"[..5] == "model";
    var d := Defaults();
    var argv := ["qmat_cli", "model.off", "--simplify", "500", "--k", "0.0001", "--output", "result"];
    var o1 := d.(inputFile := "model.off");
    var o2 := o1.(simplifyTarget := 500);
    var o3 := o2.(k := Finite(0.0001));
    var o4 := o3.(outputPrefix := "result");
    assert argv[1..] == ["model.off"] + argv[2..];
    assert Scan(argv[1..], d, stoi, stod) == Scan(argv[2..], o1, stoi, stod);
    assert argv[2..] == ["--simplify", "500"] + argv[4..];
    assert Scan(argv[2..], o1, stoi, stod) == Scan(argv[4..], o2, stoi, stod);
    assert argv[4..] == ["--k", "0.0001"] + argv[6..];
    assert Scan(argv[4..], o2, stoi, stod) == Scan(argv[6..], o3, stoi, stod);
    assert argv[6..] == ["--output", "result"];
    assert Scan(argv[6..], o3, stoi, stod) == Scan([], o4, stoi, stod);
    var second := ["qmat_cli", "model.off", "--simplify", "1000"];
    assert second[1..] == ["model.off"] + second[2..];
    assert Scan(second[1..], d, stoi, stod) == Scan(second[2..], o1, stoi, stod);
    assert second[2..] == ["--simplify", "1000"];
    assert Scan(second[2..], o1, stoi, stod) == Scan([], o1.(simplifyTarget := 1000), stoi, stod);
  }

  /** A value that looks like an option is still a value: `--output --help`
      sets the prefix to "--help", and `--simplify -5` fails only the
      positivity test. */
  lemma DashValuesAreValues(stoi: IntParser, stod: DoubleParser)
    requires stoi("-5") == Some(-5)
    ensures Parse(["qmat_cli", "m.off", "--output", "--help"], stoi, stod)
            == CLIOptions("m.off", "--help", -1, Finite(0.00001), false, true, "")
    ensures Parse(["qmat_cli", "m.off", "--simplify", "-5"], stoi, stod)
            == CLIOptions("m.off", "", -5, Finite(0.00001), false, false, "--simplify value must be positive.")
  {
    var d := Defaults();
    var argv := ["qmat_cli", "m.off", "--output", "--help"];
    var o1 := d.(inputFile := "m.off");
    assert argv[1..] == ["m.off"] + argv[2..];
    assert Scan(argv[1..], d, stoi, stod) == Scan(argv[2..], o1, stoi, stod);
    assert argv[2..] == ["--output", "--help"];
    assert Scan(argv[2..], o1, stoi, stod) == Scan([], o1.(outputPrefix := "--help"), stoi, stod);
  }
}
