/** The decisions of the program's `main`, as a total function from the
    argument vector to an outcome: the exit status and the kind of message
    written, with the text of standard output and standard error derived from
    that outcome.

    Two things the program takes from outside are parameters: `parse`, the
    float parser `str::parse::<f64>` (a number, or a failure with the text of
    its error), and `fixed2`, the two-decimal rendering `{:.2}` of a float. */
module Driver {
  import opened Text
  import opened Conversion
  import opened Report

  /** What `str::parse::<f64>` gives back. */
  datatype ParsedFloat = Parsed(value: real) | Unparsable(reason: string)

  /** Why the magnitude argument was refused. */
  datatype MagnitudeProblem = Negative | NonNumeric(reason: string)

  /** How a run ends. */
  datatype Outcome =
    | Panicked                              // `args[0]` on an empty argument vector
    | UsageError(program: string)           // wrong number of arguments
    | MagnitudeError(problem: MagnitudeProblem)
    | UnitError(unit: string)               // the unit as the user typed it
    | SizeRejected(error: SizeError)        // `FileSize::new` refused after all
    | Success(input: string, bytes: u64)    // the echoed input and the byte count

  /** The process exit status of each outcome; a Rust panic exits with 101.
      Only a success exits 0, and a failed magnitude check and the
      negative-size error of `FileSize::new` share status 4. */
  function ExitCode(o: Outcome): (code: int)
    ensures code in {0, 2, 4, 101}
    ensures code == 0 <==> o.Success?
    ensures code == 4 <==> o.MagnitudeError? || o == SizeRejected(NegativeSize)
  {
    match o
    case Panicked => 101
    case UsageError(_) => 2
    case MagnitudeError(_) => 4
    case UnitError(_) => 2
    case SizeRejected(e) => if Contains(ErrorMessage(e), NEGATIVE_SIZE) then 4 else 2
    case Success(_, _) => 0
  }

  /** The magnitude check of `main`: a number, and not below zero. */
  predicate AcceptedMagnitude(p: ParsedFloat) {
    p.Parsed? && p.value >= 0.0
  }

  /** `main`: count the arguments (the program name included), then check the
      magnitude, then the lower-cased unit, and only then build and normalise
      the size. The contract says no run ends in the error branch of the last
      step. */
  function Run(args: seq<string>, parse: string -> ParsedFloat): (o: Outcome)
    ensures !o.SizeRejected?
  {
    if |args| != 3 then
      if |args| == 0 then Panicked else UsageError(args[0])
    else
      var input := args[1] + " " + args[2];
      match parse(args[1])
      case Unparsable(reason) => MagnitudeError(NonNumeric(reason))
      case Parsed(m) =>
        if !(m >= 0.0) then MagnitudeError(Negative)
        else
          var unit := ToLower(args[2]);
          if unit !in Units then UnitError(args[2])
          else Convert(input, m, unit)
  }

  /** The last step of `main`: build the size with `FileSize::new` and
      normalise it, or report the error it gives, exiting 4 when the error
      text is the negative-size one and 2 otherwise. Given what the earlier
      checks guarantee, it always succeeds. */
  function Convert(input: string, m: real, unit: string): (o: Outcome)
    ensures m >= 0.0 && unit in Units ==> o == Success(input, SaturatingCast(m * Scale(unit)))
    ensures m < 0.0 ==> o == SizeRejected(NegativeSize) && ExitCode(o) == 4
    ensures m >= 0.0 && unit !in Units ==> o == SizeRejected(InvalidUnit) && ExitCode(o) == 2
  {
    match New(m, unit)
    case Ok(size) =>
      NewThenNormalize(m, unit);
      Success(input, NormalizeToBytes(size))
    case Err(e) => SizeRejected(e)
  }

  /** The one line a failed run writes to standard error. It holds no line
      break unless the text it quotes does, and a negative magnitude is
      reported with the same words as `FileSize::new`'s negative-size error. */
  function Diagnostic(o: Outcome): (line: string)
    requires !o.Success? && !o.Panicked?
    ensures WithoutBreaks(o) ==> '\n' !in line
    ensures o.MagnitudeError? && o.problem.Negative? ==> line == ErrorMessage(NegativeSize)
  {
    match o
    case UsageError(program) =>
      UsageLineWithoutBreak(program);
      "Usage: " + program + USAGE_TAIL
    case MagnitudeError(Negative) => ErrorMessage(NegativeSize)
    case MagnitudeError(NonNumeric(reason)) =>
      NonNumericLineWithoutBreak(reason);
      "Invalid file size: " + reason + NON_NUMERIC_TAIL
    case UnitError(unit) =>
      UnitLineWithoutBreak(unit);
      "Invalid unit: '" + unit + "'. " + SUPPORTED_UNITS
    case SizeRejected(e) => ErrorMessage(e)
  }

  const USAGE_TAIL: string := " <file_size>" + " <unit (bytes/kb/mb/gb)>"
  const NON_NUMERIC_TAIL: string := "." + " Size cannot be a non-numeric value."

  lemma UsageLineWithoutBreak(program: string)
    ensures '\n' !in program ==> '\n' !in "Usage: " + program + USAGE_TAIL
  {
    NoBreakInConcat(" <file_size>", " <unit (bytes/kb/mb/gb)>");
    if '\n' !in program {
      FramedWithoutBreak("Usage: ", program, USAGE_TAIL);
    }
  }

  lemma NonNumericLineWithoutBreak(reason: string)
    ensures '\n' !in reason ==> '\n' !in "Invalid file size: " + reason + NON_NUMERIC_TAIL
  {
    NoBreakInConcat(".", " Size cannot be a non-numeric value.");
    if '\n' !in reason {
      FramedWithoutBreak("Invalid file size: ", reason, NON_NUMERIC_TAIL);
    }
  }

  lemma UnitLineWithoutBreak(unit: string)
    ensures '\n' !in unit ==> '\n' !in "Invalid unit: '" + unit + "'. " + SUPPORTED_UNITS
  {
    if '\n' !in unit {
      SupportedUnitsWithoutBreak();
      FramedWithoutBreak("Invalid unit: '", unit, "'. ");
      NoBreakInConcat("Invalid unit: '" + unit + "'. ", SUPPORTED_UNITS);
    }
  }

  lemma FramedWithoutBreak(before: string, text: string, after: string)
    requires '\n' !in before && '\n' !in text && '\n' !in after
    ensures '\n' !in before + text + after
  {
    NoBreakInConcat(before, text);
    NoBreakInConcat(before + text, after);
  }

  /** Everything written to standard error (`eprintln!`): nothing on
      success, otherwise the diagnostic and a line terminator. A panic's own
      report is not modelled. */
  function Stderr(o: Outcome): (text: string)
    requires !o.Panicked?
    ensures text == "" <==> o.Success?
    ensures !o.Success? ==> text[..|text| - 1] == Diagnostic(o) && text[|text| - 1] == '\n'
  {
    if o.Success? then "" else Diagnostic(o) + "\n"
  }

  /** Everything written to standard output: the echoed input, then the
      sizes with `println!("{}", sizes)`, which adds a newline after the
      four lines `Display` ends with. A failure writes nothing here. */
  function Stdout(o: Outcome, fixed2: real -> string): (text: string)
    ensures text == "" <==> !o.Success?
  {
    if o.Success? then
      "file size (" + o.input + "):" + "\n" + Display(FromBytes(o.bytes, fixed2)) + "\n"
    else ""
  }

  // ---------------------------------------------------------------------------
  // Properties of a run
  // ---------------------------------------------------------------------------

  /** The exit status, decided by the first check that fails, in the order
      argument count, magnitude, unit. So a bad magnitude exits 4 whatever
      the unit, and a bad unit exits 2 only after the magnitude passed. */
  lemma ExitCodes(args: seq<string>, parse: string -> ParsedFloat)
    ensures var code := ExitCode(Run(args, parse));
      && (|args| == 0 ==> code == 101)
      && (|args| != 0 && |args| != 3 ==> code == 2)
      && (|args| == 3 && !AcceptedMagnitude(parse(args[1])) ==> code == 4)
      && (|args| == 3 && AcceptedMagnitude(parse(args[1])) && ToLower(args[2]) !in Units ==> code == 2)
      && (|args| == 3 && AcceptedMagnitude(parse(args[1])) && ToLower(args[2]) in Units ==> code == 0)
  {
  }

  /** Which failure a run reports: the first check that fails names it, and
      the unit text is reported as the user typed it. */
  lemma FailureKinds(args: seq<string>, parse: string -> ParsedFloat)
    ensures |args| != 0 && |args| != 3 ==> Run(args, parse) == UsageError(args[0])
    ensures |args| == 3 && parse(args[1]).Unparsable? ==>
              Run(args, parse) == MagnitudeError(NonNumeric(parse(args[1]).reason))
    ensures |args| == 3 && parse(args[1]).Parsed? && parse(args[1]).value < 0.0 ==>
              Run(args, parse) == MagnitudeError(Negative)
    ensures |args| == 3 && AcceptedMagnitude(parse(args[1])) && ToLower(args[2]) !in Units ==>
              Run(args, parse) == UnitError(args[2])
  {
  }

  /** A run succeeds exactly when all three checks pass. */
  lemma SuccessfulRun(args: seq<string>, parse: string -> ParsedFloat)
    ensures Run(args, parse).Success? <==>
      |args| == 3 && AcceptedMagnitude(parse(args[1])) && ToLower(args[2]) in Units
  {
  }

  /** When all three checks pass, the run reports the magnitude times the
      unit's multiplier, truncated to whole bytes. */
  lemma SuccessCount(args: seq<string>, parse: string -> ParsedFloat)
    requires |args| == 3 && AcceptedMagnitude(parse(args[1])) && ToLower(args[2]) in Units
    ensures Run(args, parse)
         == Success(args[1] + " " + args[2], SaturatingCast(parse(args[1]).value * Scale(ToLower(args[2]))))
  {
    RunConverts(args, parse);
  }

  /** Once all three checks pass, `main` hands the echoed input, the
      magnitude and the lower-cased unit to its last step. */
  lemma RunConverts(args: seq<string>, parse: string -> ParsedFloat)
    requires |args| == 3 && AcceptedMagnitude(parse(args[1])) && ToLower(args[2]) in Units
    ensures Run(args, parse) == Convert(args[1] + " " + args[2], parse(args[1]).value, ToLower(args[2]))
  {
    var m := parse(args[1]).value;
    assert parse(args[1]) == Parsed(m) && m >= 0.0;
  }

  /** Letter case in the unit does not matter: two argument vectors that
      differ only there end with the same status and, on success, the same
      byte count. */
  lemma UnitCaseIgnored(args: seq<string>, args': seq<string>, parse: string -> ParsedFloat)
    requires |args| == 3 && |args'| == 3 && args[1] == args'[1]
    requires EqualIgnoringCase(args[2], args'[2])
    ensures ExitCode(Run(args, parse)) == ExitCode(Run(args', parse))
    ensures Run(args, parse).Success? <==> Run(args', parse).Success?
    ensures Run(args, parse).Success? ==> Run(args, parse).bytes == Run(args', parse).bytes
  {
    LowerIgnoresCase(args[2], args'[2]);
  }

  /** `5 KB`, `5 Kb` and `5 kb` are all 5000 bytes. */
  lemma FiveKilobytesInAnyCase(program: string, parse: string -> ParsedFloat)
    requires parse("5") == Parsed(5.0)
    ensures Run([program, "5", "KB"], parse) == Success("5 KB", 5000)
    ensures Run([program, "5", "Kb"], parse) == Success("5 Kb", 5000)
    ensures Run([program, "5", "kb"], parse) == Success("5 kb", 5000)
  {
    assert ToLower("KB") == "kb" && ToLower("Kb") == "kb" && ToLower("kb") == "kb";
  }

  /** No text an outcome carries holds a line break. */
  predicate WithoutBreaks(o: Outcome) {
    match o
    case Panicked => true
    case UsageError(program) => '\n' !in program
    case MagnitudeError(Negative) => true
    case MagnitudeError(NonNumeric(reason)) => '\n' !in reason
    case UnitError(unit) => '\n' !in unit
    case SizeRejected(_) => true
    case Success(input, _) => '\n' !in input
  }

  /** Arguments and parser errors without line breaks give an outcome
      without line breaks. */
  lemma RunWithoutBreaks(args: seq<string>, parse: string -> ParsedFloat)
    requires forall i :: 0 <= i < |args| ==> '\n' !in args[i]
    requires forall s :: parse(s).Unparsable? ==> '\n' !in parse(s).reason
    ensures WithoutBreaks(Run(args, parse))
  {
    if |args| == 3 {
      NoBreakInConcat(args[1], " ");
      NoBreakInConcat(args[1] + " ", args[2]);
    }
  }

  /** A failure is reported on exactly one line of standard error. */
  lemma {:induction false} DiagnosticIsOneLine(o: Outcome)
    requires !o.Success? && !o.Panicked? && WithoutBreaks(o)
    ensures SplitLines(Stderr(o)) == [Diagnostic(o)]
  {
    SplitLinesCons(Diagnostic(o), "");
    assert Diagnostic(o) + "\n" + "" == Stderr(o);
  }

  /** A failed run writes nothing to standard output and exactly one line to
      standard error, provided the arguments and the parser's error text hold
      no line break. */
  lemma FailureWritesOneLine(args: seq<string>, parse: string -> ParsedFloat, fixed2: real -> string)
    requires forall i :: 0 <= i < |args| ==> '\n' !in args[i]
    requires forall s :: parse(s).Unparsable? ==> '\n' !in parse(s).reason
    requires !Run(args, parse).Success? && !Run(args, parse).Panicked?
    ensures Stdout(Run(args, parse), fixed2) == ""
    ensures SplitLines(Stderr(Run(args, parse))) == [Diagnostic(Run(args, parse))]
  {
    RunWithoutBreaks(args, parse);
    DiagnosticIsOneLine(Run(args, parse));
  }

  /** Standard output of a success: the echoed input line, the four size
      lines in order and a final empty line. */
  lemma {:induction false} SuccessOutputLines(input: string, n: u64, fixed2: real -> string)
    requires '\n' !in input
    requires forall x :: '\n' !in fixed2(x)
    ensures SplitLines(Stdout(Success(input, n), fixed2))
         == ["file size (" + input + "):"] + DisplayLines(FromBytes(n, fixed2)) + [""]
  {
    var header := "file size (" + input + "):";
    var sizes := FromBytes(n, fixed2);
    NoBreakInConcat("file size (", input);
    NoBreakInConcat("file size (" + input, "):");
    NoBreakInConcat(fixed2(n as real / KB), " kb");
    NoBreakInConcat(fixed2(n as real / MB), " mb");
    NoBreakInConcat(fixed2(n as real / GB), " gb");
    var lines := [header] + DisplayLines(sizes) + [""];
    forall i | 0 <= i < |lines|
      ensures '\n' !in lines[i]
    {
      if 1 <= i <= 4 {
        assert lines[i] == DisplayLines(sizes)[i - 1];
      }
    }
    TerminatedAppend([header], DisplayLines(sizes));
    TerminatedAppend([header] + DisplayLines(sizes), [""]);
    assert Terminated([header]) == header + "\n";
    assert Terminated([""]) == "\n";
    SplitTerminated(lines);
  }

  /** A successful run echoes its two arguments, separated by a space. */
  lemma SuccessEchoesInput(args: seq<string>, parse: string -> ParsedFloat)
    requires Run(args, parse).Success?
    ensures |args| == 3 && Run(args, parse).input == args[1] + " " + args[2]
  {
  }

  /** A successful run writes the echoed arguments, the four size lines and
      a final empty line to standard output, and nothing to standard error. */
  lemma SuccessLayout(args: seq<string>, parse: string -> ParsedFloat, fixed2: real -> string)
    requires Run(args, parse).Success?
    requires |args| == 3 && '\n' !in args[1] && '\n' !in args[2]
    requires forall x :: '\n' !in fixed2(x)
    ensures var o, input := Run(args, parse), args[1] + " " + args[2];
      SplitLines(Stdout(o, fixed2))
        == ["file size (" + input + "):"] + DisplayLines(FromBytes(o.bytes, fixed2)) + [""]
    ensures Stderr(Run(args, parse)) == ""
  {
    var o := Run(args, parse);
    SuccessEchoesInput(args, parse);
    assert o == Success(args[1] + " " + args[2], o.bytes);
    NoBreakInConcat(args[1], " ");
    NoBreakInConcat(args[1] + " ", args[2]);
    SuccessOutputLines(o.input, o.bytes, fixed2);
  }
}
