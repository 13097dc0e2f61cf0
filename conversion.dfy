/** The `FileSize` enum of the converter: the smart constructor that validates a
    magnitude and a unit name, and the normalisation of a size to a whole
    number of bytes with SI (1000-based) multipliers.

    Magnitudes, which the program holds as `f64`, are exact reals here, so the
    products `size * KB` carry no rounding error. The `as u64` casts are modelled
    as Rust defines them for float-to-integer conversion: truncation toward
    zero, saturating at 0 and at `u64::MAX`. */
module Conversion {
  import Text

  /** Bytes per kilobyte, megabyte and gigabyte. */
  const KB: real := 1000.0
  const MB: real := 1000000.0
  const GB: real := 1000000000.0

  const U64_MAX: int := 0xFFFF_FFFF_FFFF_FFFF
  /** 2^64: the first value past the range of `u64`. */
  const U64_LIMIT: real := 18446744073709551616.0

  newtype u64 = x: int | 0 <= x <= 0xFFFF_FFFF_FFFF_FFFF

  /** `x as u64` for a float `x`: the fraction is dropped (toward zero),
      negative values give 0 and values past the range give `u64::MAX`. */
  function SaturatingCast(x: real): (n: u64)
    ensures x <= 0.0 ==> n == 0
    ensures 0.0 <= x < U64_LIMIT ==> n as real <= x < n as real + 1.0
    ensures U64_LIMIT <= x ==> n as int == U64_MAX
  {
    if x <= 0.0 then 0
    else if x >= U64_LIMIT then U64_MAX as u64
    else x.Floor as u64
  }

  /** A size in one of the four units. A byte count is already whole; the
      other units keep their fractional magnitude. */
  datatype FileSize =
    | Bytes(count: u64)
    | Kilobytes(kb: real)
    | Megabytes(mb: real)
    | Gigabytes(gb: real)

  /** The two ways `FileSize::new` can refuse its input. */
  datatype SizeError = NegativeSize | InvalidUnit

  datatype Result<T> = Ok(value: T) | Err(error: SizeError)

  /** The list of supported units that both unit error texts end with. */
  const SUPPORTED_UNITS: string := "Supported units: " + "'bytes', 'kb', 'mb', or 'gb'."

  /** The text `FileSize::new` returns with each error: one line each, and
      only the negative-size error contains the negative-size text, which is
      what `main` looks for to pick the exit status. */
  function ErrorMessage(e: SizeError): (text: string)
    ensures '\n' !in text
    ensures Text.Contains(text, NEGATIVE_SIZE) <==> e == NegativeSize
  {
    NegativeMessageWithoutBreak();
    InvalidUnitMessageWithoutBreak();
    Text.ContainsItself(NEGATIVE_SIZE);
    NegativeTextNotInUnitText();
    match e
    case NegativeSize => NEGATIVE_SIZE
    case InvalidUnit => INVALID_UNIT
  }

  // Long string literals are written in pieces: the verifier sees quickly
  // that a short literal holds no line break, a long one it does not.

  const NEGATIVE_SIZE: string := "Invalid file size." + " Size cannot be a negative number."
  const INVALID_UNIT: string := "Error: Invalid unit. " + SUPPORTED_UNITS

  lemma SupportedUnitsWithoutBreak()
    ensures '\n' !in SUPPORTED_UNITS
  {
    Text.NoBreakInConcat("Supported units: ", "'bytes', 'kb', 'mb', or 'gb'.");
  }

  lemma NegativeMessageWithoutBreak()
    ensures '\n' !in NEGATIVE_SIZE && NEGATIVE_SIZE[0] == 'I'
  {
    Text.NoBreakInConcat("Invalid file size.", " Size cannot be a negative number.");
  }

  /** The invalid-unit text has no 'f', the negative-size text has one. */
  lemma NegativeTextNotInUnitText()
    ensures !Text.Contains(INVALID_UNIT, NEGATIVE_SIZE)
  {
    Text.AbsentFromConcat('f', "Supported units: ", "'bytes', 'kb', 'mb', or 'gb'.");
    Text.AbsentFromConcat('f', "Error: Invalid unit. ", SUPPORTED_UNITS);
    assert NEGATIVE_SIZE[8] == 'f';
    Text.MissingCharNotContained(INVALID_UNIT, NEGATIVE_SIZE, 8);
  }

  lemma InvalidUnitMessageWithoutBreak()
    ensures '\n' !in INVALID_UNIT && INVALID_UNIT[0] == 'E'
  {
    SupportedUnitsWithoutBreak();
    Text.NoBreakInConcat("Error: Invalid unit. ", SUPPORTED_UNITS);
  }

  /** The unit names `FileSize::new` accepts, exactly as written (lower case). */
  const Units: set<string> := {"bytes", "kb", "mb", "gb"}

  /** Bytes per unit of the named unit. */
  function Scale(unit: string): (k: real)
    requires unit in Units
    ensures k >= 1.0
  {
    match unit
    case "bytes" => 1.0
    case "kb" => KB
    case "mb" => MB
    case "gb" => GB
  }

  /** The unit name a size was built from. */
  function UnitName(f: FileSize): (unit: string)
    ensures unit in Units
  {
    match f
    case Bytes(_) => "bytes"
    case Kilobytes(_) => "kb"
    case Megabytes(_) => "mb"
    case Gigabytes(_) => "gb"
  }

  /** Bytes per unit of the unit a size is given in. */
  function Multiplier(f: FileSize): (k: real)
    ensures k >= 1.0
  {
    Scale(UnitName(f))
  }

  /** The exact number of bytes a size stands for, fraction included. */
  function Quantity(f: FileSize): real {
    Magnitude(f) * Multiplier(f)
  }

  /** The number a size carries, in its own unit. */
  function Magnitude(f: FileSize): real {
    match f
    case Bytes(n) => n as real
    case Kilobytes(m) => m
    case Megabytes(m) => m
    case Gigabytes(m) => m
  }

  /** `FileSize::new`: refuse a negative magnitude whatever the unit, then
      accept exactly the four lower-case unit names. A byte count drops its
      fraction at once. */
  function New(size: real, unit: string): (r: Result<FileSize>)
    ensures size < 0.0 ==> r == Err(NegativeSize)
    ensures size >= 0.0 ==> (r.Ok? <==> unit in Units)
    ensures size >= 0.0 && unit !in Units ==> r == Err(InvalidUnit)
    ensures r.Ok? ==> UnitName(r.value) == unit
    ensures r.Ok? && unit != "bytes" ==> Magnitude(r.value) == size
    ensures r.Ok? && unit == "bytes" ==> r.value.count == SaturatingCast(size)
  {
    if size < 0.0 then Err(NegativeSize)
    else
      match unit
      case "bytes" => Ok(Bytes(SaturatingCast(size)))
      case "kb" => Ok(Kilobytes(size))
      case "mb" => Ok(Megabytes(size))
      case "gb" => Ok(Gigabytes(size))
      case _ => Err(InvalidUnit)
  }

  /** `FileSize::normalize_to_bytes`: the size as a whole number of bytes,
      which in every unit is the exact quantity the size stands for, cast to
      `u64` (truncated toward zero and saturated at both ends). */
  function NormalizeToBytes(f: FileSize): (n: u64)
    ensures n == SaturatingCast(Quantity(f))
  {
    assert f.Bytes? ==> (f.count as real).Floor == f.count as int;
    match f
    case Bytes(n) => n
    case Kilobytes(m) => SaturatingCast(m * KB)
    case Megabytes(m) => SaturatingCast(m * MB)
    case Gigabytes(m) => SaturatingCast(m * GB)
  }

  // ---------------------------------------------------------------------------
  // Properties of validation and normalisation
  // ---------------------------------------------------------------------------

  /** A byte count is kept as it is. */
  lemma NormalizeBytesUnchanged(n: u64)
    ensures NormalizeToBytes(Bytes(n)) == n
  {
  }

  /** Whenever the quantity is a non-negative number in the range of `u64`,
      the byte count is that quantity with its fraction dropped. */
  lemma NormalizeTruncates(f: FileSize)
    requires 0.0 <= Quantity(f) < U64_LIMIT
    ensures NormalizeToBytes(f) as int == Quantity(f).Floor
  {
  }

  /** A scaled size with a negative magnitude (which `New` never builds)
      still normalises to 0, never to a negative count. */
  lemma NormalizeNegativeIsZero(f: FileSize)
    requires !f.Bytes? && Magnitude(f) < 0.0
    ensures NormalizeToBytes(f) == 0
  {
  }

  /** Two sizes that stand for the same quantity, in whatever units, give
      the same byte count. */
  lemma SameQuantitySameBytes(f: FileSize, g: FileSize)
    requires Quantity(f) == Quantity(g)
    ensures NormalizeToBytes(f) == NormalizeToBytes(g)
  {
  }

  /** `Kilobytes(1000 m)`, `Megabytes(m)` and `Gigabytes(m / 1000)` are one
      size; in particular 1000 kb and 1 mb are both 1,000,000 bytes. */
  lemma ThousandfoldUnits(m: real)
    ensures NormalizeToBytes(Kilobytes(1000.0 * m)) == NormalizeToBytes(Megabytes(m))
    ensures NormalizeToBytes(Gigabytes(m / 1000.0)) == NormalizeToBytes(Megabytes(m))
    ensures NormalizeToBytes(Kilobytes(1000.0)) == NormalizeToBytes(Megabytes(1.0)) == 1000000
  {
    SameQuantitySameBytes(Kilobytes(1000.0 * m), Megabytes(m));
    SameQuantitySameBytes(Gigabytes(m / 1000.0), Megabytes(m));
  }

  /** Validating and then normalising a magnitude in a supported unit gives
      the truncated product of the magnitude and the unit's multiplier, for
      every unit alike, the byte unit included. */
  lemma NewThenNormalize(m: real, unit: string)
    requires m >= 0.0 && unit in Units
    ensures New(m, unit).Ok?
    ensures NormalizeToBytes(New(m, unit).value) == SaturatingCast(m * Scale(unit))
  {
    if unit == "bytes" {
      assert New(m, unit) == Ok(Bytes(SaturatingCast(m)));
    }
  }

  /** `New(m, "bytes")` counts the whole bytes of `m`, its integer part, so
      the byte count is `m` itself exactly when `m` is whole. */
  lemma BytesTruncate(m: real)
    requires 0.0 <= m < U64_LIMIT
    ensures New(m, "bytes").Ok?
    ensures NormalizeToBytes(New(m, "bytes").value) as int == m.Floor
    ensures NormalizeToBytes(New(m, "bytes").value) as real == m <==> m == m.Floor as real
  {
  }

  /** A zero magnitude is zero bytes in every unit. */
  lemma ZeroIsZeroBytes(unit: string)
    requires unit in Units
    ensures New(0.0, unit).Ok? && NormalizeToBytes(New(0.0, unit).value) == 0
  {
  }

  /** Expressing the byte count of a scaled size back in its own unit gives
      the magnitude to within one byte: `m - 1/k < n/k <= m`. */
  lemma BackInOwnUnit(f: FileSize)
    requires !f.Bytes? && 0.0 <= Magnitude(f) && Quantity(f) < U64_LIMIT
    ensures var n, m, k := NormalizeToBytes(f) as real, Magnitude(f), Multiplier(f);
            m - 1.0 / k < n / k <= m
  {
    QuotientBounds(Magnitude(f), Multiplier(f), NormalizeToBytes(f) as real);
  }

  /** Normalising a magnitude given in kilobytes, megabytes or gigabytes
      and dividing the byte count back by the unit's multiplier recovers the
      magnitude to within a thousandth, never above it. */
  lemma ReadBackWithinAThousandth(m: real, unit: string)
    requires unit in Units && unit != "bytes"
    requires 0.0 <= m && m * Scale(unit) < U64_LIMIT
    ensures New(m, unit).Ok?
    ensures var n := NormalizeToBytes(New(m, unit).value) as real;
            m - 0.001 < n / Scale(unit) <= m
  {
    var k := Scale(unit);
    assert k >= KB;
    NewThenNormalize(m, unit);
    var n := NormalizeToBytes(New(m, unit).value) as real;
    QuotientBounds(m, k, n);
    assert (1.0 / k) * k == 1.0;
    assert 1.0 / k <= 0.001;
  }

  /** From `n <= m k < n + 1` with `k >= 1`: `m - 1/k < n/k <= m`. */
  lemma QuotientBounds(m: real, k: real, n: real)
    requires k >= 1.0 && n <= m * k < n + 1.0
    ensures m - 1.0 / k < n / k <= m
  {
    var q, d := n / k, 1.0 / k;
    assert q * k == n && d * k == 1.0;
    assert (m - q) * k == m * k - n >= 0.0;
    assert (q + d - m) * k == n + 1.0 - m * k > 0.0;
  }
}
