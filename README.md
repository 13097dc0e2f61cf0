# rust-filesize-formatter, modelled in Dafny

The program is a command-line converter. It takes a magnitude and a unit name
(`bytes`, `kb`, `mb` or `gb`, in any letter case). It checks both, converts the
size to a whole number of bytes using SI (1000-based) multipliers, and prints
that count in all four units. Each kind of failure exits with its own status.

The model follows the one source file, `src/main.rs`, in four modules:

- `Text` (`text.dfy`) holds the string facts the program relies on:
  - `to_lowercase` as far as unit names are concerned;
  - the decimal rendering of an unsigned integer;
  - the line structure of text written with `writeln!`/`println!`.
- `Conversion` (`conversion.dfy`) holds the `FileSize` enum and its two
  operations:
  - the smart constructor `FileSize::new`, with its two errors;
  - `normalize_to_bytes`, with the float-to-`u64` cast written out as a
    saturating, truncating cast.
- `Report` (`report.dfy`) holds the `Sizes` record:
  - `Sizes::from_bytes`;
  - the four-line `Display` layout.
- `Driver` (`driver.dfy`) models `main` as a total function `Run` from the
  argument vector to an `Outcome`. The exit status and the text of both output
  streams are derived from that outcome.

Magnitudes are exact reals. The float parser `str::parse::<f64>` and the
two-decimal rendering `{:.2}` come from outside the program, so they are
parameters (`parse` and `fixed2`).

Four points of the program's behaviour are easy to misread:

- Unit `bytes` with a fractional magnitude: the code truncates it
  (`size as u64`, line 59). So a byte count read back in bytes equals the
  magnitude only when the magnitude is whole (`Conversion.BytesTruncate`).
  The scaled units are the ones that come back to within a thousandth.
- Empty argument vector: `args[0]` at line 83 panics, and the process exits
  with status 101 rather than the usage status 2. Every other wrong argument
  count, including a program name with no arguments after it, is the usage
  error.
- Order of the checks: `main` checks the magnitude before the unit. So a
  negative magnitude with an unknown unit exits 4, not 2
  (`Driver.ExitCodes`).
- The error branch after `FileSize::new` (lines 123-132) can never be taken
  from `main`. The model keeps it as the outcome `SizeRejected` and proves that
  no run ends there.

## Model

| member | source | states |
|---|---|---|
| Conversion.SaturatingCast | src/main.rs:71-73 | `x as u64` for a float: 0 for x ≤ 0, the integer part for 0 ≤ x < 2^64, and `u64::MAX` from 2^64 on |
| Conversion.New | src/main.rs:53-65 | A negative size is always the negative-size error, whatever the unit. Otherwise the result is `Ok` exactly when the unit is one of the four lower-case names, and the invalid-unit error when it is not. An accepted size keeps the unit it was given. The scaled units keep the magnitude; `bytes` keeps the magnitude's saturated integer part |
| Conversion.NormalizeToBytes | src/main.rs:68-75 | In every unit, the byte count is the exact quantity the size stands for (magnitude × 1, 1000, 10^6 or 10^9), cast to `u64` |
| Conversion.NormalizeBytesUnchanged | src/main.rs:70 | `Bytes(n)` normalises to `n` unchanged |
| Conversion.NormalizeTruncates | src/main.rs:71-73 | A quantity in the `u64` range is truncated toward zero, never rounded |
| Conversion.NormalizeNegativeIsZero | src/main.rs:71-73 | A scaled size with a negative magnitude normalises to 0, never below |
| Conversion.SameQuantitySameBytes | src/main.rs:5-7 | Two sizes standing for the same quantity, in any units, normalise to the same byte count |
| Conversion.ThousandfoldUnits | src/main.rs:5-7 | `Kilobytes(1000 m)`, `Megabytes(m)` and `Gigabytes(m/1000)` give the same byte count; 1000 kb = 1 mb = 1,000,000 bytes |
| Conversion.NewThenNormalize | src/main.rs:58-75 | Any non-negative magnitude in a supported unit is accepted and normalises to the truncated product of the magnitude and the unit's multiplier |
| Conversion.BytesTruncate | src/main.rs:59 | `new(m, "bytes")` normalises to ⌊m⌋. The count equals m exactly when m is whole |
| Conversion.ZeroIsZeroBytes | src/main.rs:53-75 | A zero magnitude is 0 bytes in every unit |
| Conversion.BackInOwnUnit | src/main.rs:71-73 | For a scaled size, dividing its byte count by the unit's multiplier k gives a value in (m − 1/k, m] |
| Conversion.ReadBackWithinAThousandth | src/main.rs:71-73 | A kb, mb or gb magnitude converted to bytes and divided back is at most the magnitude and less than a thousandth below it |
| Conversion.ErrorMessage | src/main.rs:55-63 | Neither of `new`'s error texts holds a line break, and only the negative-size error's text contains the negative-size text that `main` looks for (the invalid-unit text does not contain it anywhere) |
| Text.ToLower | src/main.rs:103 | Lower-casing keeps the length and maps each character on its own: ASCII capitals to small letters, U+212A KELVIN SIGN to `k` |
| Text.LowerIgnoresCase | src/main.rs:103-104 | Two strings that differ only in ASCII letter case lower-case to the same string |
| Text.Decimal | src/main.rs:22 | `{}` of an integer is a non-empty string of digits with no leading zero |
| Text.DecimalRoundTrip | src/main.rs:22 | Reading the digits back gives the rendered number |
| Text.DecimalInjective | src/main.rs:22 | Different counts never render the same |
| Text.SplitTerminated | src/main.rs:34-37 | Lines written one `writeln!` each, none holding a break, are read back as exactly those lines |
| Report.FromBytes | src/main.rs:20-27 | The `bytes` field is the decimal rendering of the count (no leading zero) followed by ` bytes`; it reads back as exactly the byte count and holds no line break |
| Report.BytesFieldReadsBack | src/main.rs:22 | `{} bytes` of a count reads back as that count and holds no line break |
| Report.ScaledQuotients | src/main.rs:23-25 | The kb, mb and gb fields of `from_bytes` are the formatter applied to the numbers q with q × 1000, q × 10^6 and q × 10^9 equal to the byte count, each followed by its unit; each such number is 1000 times the next |
| Report.OneGigabyte | src/main.rs:25 | 1,000,000,000 bytes hands the gigabyte formatter exactly 1 |
| Report.ZeroSizes | src/main.rs:20-27 | Zero bytes is `0 bytes`, with a zero quotient in every scaled unit |
| Report.DisplayLines | src/main.rs:34-37 | `Display` writes four lines, and each line is free of line breaks whenever its own field is |
| Report.Display | src/main.rs:33-39 | As long as no field holds a line break, the written text reads back as exactly the four display lines |
| Report.DisplayLayout | src/main.rs:33-39 | When no field holds a line break, `Display` reads back as exactly four lines: bytes, kilobytes, megabytes, gigabytes, each three spaces, its label and its field |
| Driver.Run | src/main.rs:78-134 | No run reaches the error branch after `FileSize::new` |
| Driver.Convert | src/main.rs:115-132 | `new` then `normalize_to_bytes` succeeds with the truncated product for a non-negative size in a known unit. It exits 4 on the negative-size error and 2 on the invalid-unit error |
| Driver.ExitCodes | src/main.rs:82-112 | The exit status is decided by the first check that fails, in the order argument count (2, or 101 when there are no arguments at all), magnitude (4), lower-cased unit (2). Otherwise the status is 0 |
| Driver.FailureKinds | src/main.rs:82-112 | Each failed check gives its own outcome: usage with the program name, non-numeric with the parser's error text, negative, or unknown unit as the user typed it |
| Driver.SuccessfulRun | src/main.rs:82-121 | A run succeeds exactly when the count, magnitude and unit checks all pass |
| Driver.SuccessCount | src/main.rs:115-118 | A successful run reports the magnitude times the lower-cased unit's multiplier, truncated to whole bytes |
| Driver.RunConverts | src/main.rs:87-115 | Once the checks pass, `main` passes the echoed input, the magnitude and the lower-cased unit to `new` |
| Driver.UnitCaseIgnored | src/main.rs:103-104 | Argument vectors that differ only in the letter case of the unit give the same status, the same success and the same byte count |
| Driver.FiveKilobytesInAnyCase | src/main.rs:103-104 | `5 KB`, `5 Kb` and `5 kb` all succeed with 5000 bytes |
| Driver.RunWithoutBreaks | src/main.rs:83-108 | Arguments and parser errors without line breaks give outcomes without line breaks |
| Driver.ExitCode | src/main.rs:84-130 | The statuses are 0, 2, 4 and 101. Only a success exits 0. Status 4 goes to a failed magnitude check and, through the `contains` test on the error text, to `new`'s negative-size error, and to nothing else |
| Driver.Diagnostic | src/main.rs:83-124 | No diagnostic holds a line break unless the text it quotes does. A negative magnitude is reported with the same words as `new`'s negative-size error |
| Driver.Stderr | src/main.rs:83-124 | Standard error is empty exactly on success, and otherwise it is the diagnostic and a line terminator |
| Driver.Stdout | src/main.rs:119-120 | Standard output is empty exactly when the run fails |
| Driver.DiagnosticIsOneLine | src/main.rs:83-124 | When the text a failure quotes (program name, parser error or unit) holds no line break, the failure writes exactly one line to standard error |
| Driver.FailureWritesOneLine | src/main.rs:82-112 | When no argument and no parser error text holds a line break, a failed run writes nothing to standard output and exactly one diagnostic line to standard error |
| Driver.SuccessOutputLines | src/main.rs:119-120 | When the echoed input and every output of the two-decimal formatter hold no line break, standard output of a success is the echo line, the four size lines in order, and a final empty line |
| Driver.SuccessEchoesInput | src/main.rs:87 | A successful run echoes its two arguments joined by one space |
| Driver.SuccessLayout | src/main.rs:115-121 | When the two arguments and every output of the two-decimal formatter hold no line break, a successful run's standard output is the echo line, the four size lines and an empty line, and its standard error is empty |
| Conversion.NegativeTextNotInUnitText | src/main.rs:127 | The negative-size text occurs nowhere inside the invalid-unit text, so the `contains` test tells the two errors apart |

## Left out

- Float parsing (`str::parse::<f64>`, line 90) is the parameter `parse`.
  Infinities and NaN are not modelled; a NaN would fail `size_input >= 0.0` and
  take the negative-magnitude branch.
- Float rounding: `size * KB` and the quotients `n as f64 / KB` are exact real
  arithmetic here. Products that an `f64` cannot hold exactly may truncate to a
  different byte count in the program.
- `{:.2}` (lines 23-25) is the parameter `fixed2`. The model fixes the quotient
  it is given, not the rendered digits.
- The panic on an empty argument vector is the outcome `Panicked` with Rust's
  panic status 101; the panic's own message is not modelled.
- `env::args` (line 79) is the parameter `args`. Its panic on an argument
  that is not valid Unicode is not modelled.
- `eprintln!`, `println!` and `std::process::exit` are replaced by the
  outcome value and the `Stdout`/`Stderr` strings derived from it.
- Text.ToLower: only ASCII capitals and U+212A KELVIN SIGN are lower-cased.
  Other characters keep their case. Lower-casing them could never turn a string
  into one of the four unit names, but lower-cased text other than a unit name
  is not the program's exact text.
- A failed write to either stream is not modelled: `println!` (lines 119-120)
  and `eprintln!` panic when the write fails, for example on a closed pipe,
  and the process then exits 101. The `fmt::Result` that `Display` passes on
  with `?` is the error of such a write.
- An argument or parser error holding a line break makes the program write
  more than one line; the one-line and layout results above are stated only
  for texts without line breaks.
