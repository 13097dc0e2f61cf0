/** The `Sizes` record and its `Display`: one byte count written out in all
    four units, one labelled, indented line per unit.

    The kilobyte, megabyte and gigabyte fields render a float quotient with
    two decimals (`{:.2}`). That rendering is the parameter `fixed2`; what the
    model fixes is the exact quotient handed to it and everything around it. */
module Report {
  import opened Text
  import opened Conversion

  /** The four display strings of one size. */
  datatype Sizes = Sizes(bytes: string, kilobytes: string, megabytes: string, gigabytes: string)

  /** `Sizes::from_bytes`. The `bytes` field is exact: it reads back as the
      byte count and holds no line break. */
  function FromBytes(n: u64, fixed2: real -> string): (s: Sizes)
    ensures s.bytes == Decimal(n as nat) + " bytes"
    ensures ParseBytesField(s.bytes) == Some(n as nat)
    ensures '\n' !in s.bytes
  {
    BytesFieldReadsBack(n as nat);
    Sizes(
      Decimal(n as nat) + " bytes",
      fixed2(n as real / KB) + " kb",
      fixed2(n as real / MB) + " mb",
      fixed2(n as real / GB) + " gb")
  }

  /** The four lines `Display for Sizes` writes, in order, without their
      line terminators. A line holds a break only if its field does. */
  function DisplayLines(s: Sizes): (lines: seq<string>)
    ensures |lines| == 4
    ensures '\n' !in s.bytes ==> '\n' !in lines[0]
    ensures '\n' !in s.kilobytes ==> '\n' !in lines[1]
    ensures '\n' !in s.megabytes ==> '\n' !in lines[2]
    ensures '\n' !in s.gigabytes ==> '\n' !in lines[3]
  {
    LabelledWithoutBreak("   bytes: ", s.bytes);
    LabelledWithoutBreak("   kilobytes: ", s.kilobytes);
    LabelledWithoutBreak("   megabytes: ", s.megabytes);
    LabelledWithoutBreak("   gigabytes: ", s.gigabytes);
    [ "   bytes: " + s.bytes,
      "   kilobytes: " + s.kilobytes,
      "   megabytes: " + s.megabytes,
      "   gigabytes: " + s.gigabytes ]
  }

  /** A label without a line break, followed by a field without one. */
  lemma LabelledWithoutBreak(prefix: string, field: string)
    requires '\n' !in prefix
    ensures '\n' !in field ==> '\n' !in prefix + field
  {
    if '\n' !in field {
      NoBreakInConcat(prefix, field);
    }
  }

  /** The text `Display for Sizes` writes: one `writeln!` per line. As long
      as no field holds a line break, a reader splits it back into exactly
      those lines. */
  function Display(s: Sizes): (text: string)
    ensures '\n' !in s.bytes && '\n' !in s.kilobytes && '\n' !in s.megabytes && '\n' !in s.gigabytes
            ==> SplitLines(text) == DisplayLines(s)
  {
    SplitTerminatedWhenClean(DisplayLines(s));
    Terminated(DisplayLines(s))
  }

  /** How a reader recovers the byte count from the `bytes` field: the
      digits in front of the word " bytes". */
  function ParseBytesField(field: string): Option<nat> {
    var w := " bytes";
    if |field| > |w| && field[|field| - |w|..] == w && AllDigits(field[..|field| - |w|])
    then Some(DigitsValue(field[..|field| - |w|]))
    else None
  }

  /** A count written as `{} bytes` reads back as that count, and the text
      holds no line break. */
  lemma BytesFieldReadsBack(n: nat)
    ensures ParseBytesField(Decimal(n) + " bytes") == Some(n)
    ensures '\n' !in Decimal(n) + " bytes"
  {
    var digits := Decimal(n);
    var field := digits + " bytes";
    assert field[..|field| - 6] == digits;
    assert field[|field| - 6..] == " bytes";
    DecimalRoundTrip(n);
    forall i | 0 <= i < |field|
      ensures field[i] != '\n'
    {
      if i < |digits| {
        assert IsDigit(digits[i]);
      }
    }
  }

  /** Each scaled field hands the formatter the exact number of kilobytes,
      megabytes or gigabytes the byte count makes: whatever `qk`, `qm`, `qg`
      give back the byte count when multiplied by 1000, 1,000,000 and
      1,000,000,000 are what is formatted, and each is 1000 times the next. */
  lemma ScaledQuotients(n: u64, fixed2: real -> string, qk: real, qm: real, qg: real)
    requires qk * KB == n as real && qm * MB == n as real && qg * GB == n as real
    ensures FromBytes(n, fixed2).kilobytes == fixed2(qk) + " kb"
    ensures FromBytes(n, fixed2).megabytes == fixed2(qm) + " mb"
    ensures FromBytes(n, fixed2).gigabytes == fixed2(qg) + " gb"
    ensures qk == 1000.0 * qm && qm == 1000.0 * qg
  {
    assert qk == n as real / KB && qm == n as real / MB && qg == n as real / GB;
  }

  /** A billion bytes is handed to the gigabyte formatter as exactly one. */
  lemma OneGigabyte(fixed2: real -> string)
    ensures FromBytes(1000000000, fixed2).gigabytes == fixed2(1.0) + " gb"
  {
  }

  /** Zero bytes is `0 bytes`, with a zero quotient in every scaled unit. */
  lemma ZeroSizes(fixed2: real -> string)
    ensures FromBytes(0, fixed2)
         == Sizes("0 bytes", fixed2(0.0) + " kb", fixed2(0.0) + " mb", fixed2(0.0) + " gb")
  {
    var s := FromBytes(0, fixed2);
    assert Decimal(0) == "0";
    assert s.bytes == "0" + " bytes";
  }

  /** `Display` is read back as exactly four lines, bytes, kilobytes,
      megabytes and gigabytes in that order, each three spaces, its label and
      its field, as long as no field holds a line break. */
  lemma DisplayLayout(s: Sizes)
    requires '\n' !in s.bytes && '\n' !in s.kilobytes
    requires '\n' !in s.megabytes && '\n' !in s.gigabytes
    ensures |SplitLines(Display(s))| == 4
    ensures SplitLines(Display(s))[0] == "   bytes: " + s.bytes
    ensures SplitLines(Display(s))[1] == "   kilobytes: " + s.kilobytes
    ensures SplitLines(Display(s))[2] == "   megabytes: " + s.megabytes
    ensures SplitLines(Display(s))[3] == "   gigabytes: " + s.gigabytes
  {
  }
}
