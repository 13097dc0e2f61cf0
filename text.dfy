/** Character and string helpers the converter relies on: Rust's `to_lowercase`
    as far as it matters for unit names, the decimal rendering of an integer
    (`format!("{}", n)`), and the line structure of text written with
    `writeln!`/`println!`. */
module Text {

  datatype Option<T> = None | Some(value: T)

  // ---------------------------------------------------------------------------
  // Letter case
  // ---------------------------------------------------------------------------

  /** Lower-case mapping of one character. ASCII capitals map to their small
      letters; U+212A KELVIN SIGN lower-cases to the ASCII letter 'k' in Unicode,
      so it is mapped too. Every other character is left unchanged: no other
      character lower-cases to an ASCII letter on its own. */
  function LowerChar(c: char): char {
    if 'A' <= c <= 'Z' then (c as int + 32) as char
    else if c == '\U{212A}' then 'k'
    else c
  }

  /** `str::to_lowercase`, character by character. */
  function ToLower(s: string): (r: string)
    ensures |r| == |s|
    ensures forall i :: 0 <= i < |s| ==> r[i] == LowerChar(s[i])
  {
    if s == [] then [] else [LowerChar(s[0])] + ToLower(s[1..])
  }

  /** `a` and `b` are the same character up to ASCII letter case. */
  predicate CaseVariant(a: char, b: char) {
    || a == b
    || ('a' <= a <= 'z' && b as int == a as int - 32)
    || ('a' <= b <= 'z' && a as int == b as int - 32)
  }

  /** `u` and `v` differ at most in the ASCII letter case of their characters. */
  predicate EqualIgnoringCase(u: string, v: string) {
    |u| == |v| && forall i :: 0 <= i < |u| ==> CaseVariant(u[i], v[i])
  }

  /** Lower-casing erases every difference in letter case. */
  lemma LowerIgnoresCase(u: string, v: string)
    requires EqualIgnoringCase(u, v)
    ensures ToLower(u) == ToLower(v)
  {
    forall i | 0 <= i < |u|
      ensures ToLower(u)[i] == ToLower(v)[i]
    {
      LowerCharIgnoresCase(u[i], v[i]);
    }
  }

  lemma LowerCharIgnoresCase(a: char, b: char)
    requires CaseVariant(a, b)
    ensures LowerChar(a) == LowerChar(b)
  {
  }

  // ---------------------------------------------------------------------------
  // Decimal rendering of non-negative integers
  // ---------------------------------------------------------------------------

  predicate IsDigit(c: char) {
    '0' <= c <= '9'
  }

  predicate AllDigits(s: string) {
    forall i :: 0 <= i < |s| ==> IsDigit(s[i])
  }

  function DigitChar(d: nat): (c: char)
    requires d < 10
    ensures IsDigit(c) && c as int - '0' as int == d
  {
    ('0' as int + d) as char
  }

  /** `format!("{}", n)` for an unsigned integer: its decimal digits, most
      significant first, with no sign and no leading zero. */
  function Decimal(n: nat): (s: string)
    ensures |s| >= 1 && AllDigits(s)
    ensures s[0] == '0' ==> n == 0 && |s| == 1
    decreases n
  {
    if n < 10 then [DigitChar(n)] else Decimal(n / 10) + [DigitChar(n % 10)]
  }

  /** The number a string of decimal digits denotes. */
  function DigitsValue(s: string): nat
    requires AllDigits(s)
    decreases |s|
  {
    if s == [] then 0
    else 10 * DigitsValue(s[..|s| - 1]) + (s[|s| - 1] as int - '0' as int)
  }

  /** Reading back the rendered digits gives the number that was rendered. */
  lemma {:induction false} DecimalRoundTrip(n: nat)
    ensures DigitsValue(Decimal(n)) == n
    decreases n
  {
    if n >= 10 {
      var s := Decimal(n);
      assert s[..|s| - 1] == Decimal(n / 10);
      DecimalRoundTrip(n / 10);
    }
  }

  /** Two different numbers never render the same. */
  lemma DecimalInjective(a: nat, b: nat)
    requires Decimal(a) == Decimal(b)
    ensures a == b
  {
    DecimalRoundTrip(a);
    DecimalRoundTrip(b);
  }

  // ---------------------------------------------------------------------------
  // Lines
  // ---------------------------------------------------------------------------

  /** Text written by one `writeln!` per element: each line followed by '\n'. */
  function Terminated(lines: seq<string>): string
    decreases |lines|
  {
    if lines == [] then "" else lines[0] + "\n" + Terminated(lines[1..])
  }

  /** Index of the first '\n' in `s`, or `|s|` when there is none. */
  function LineEnd(s: string): (k: nat)
    ensures k <= |s|
    ensures forall i :: 0 <= i < k ==> s[i] != '\n'
    ensures k < |s| ==> s[k] == '\n'
    decreases |s|
  {
    if s == [] || s[0] == '\n' then 0 else 1 + LineEnd(s[1..])
  }

  /** The lines a reader sees in `s`: split after each '\n', with a last
      unterminated piece as a line of its own. */
  function SplitLines(s: string): seq<string>
    decreases |s|
  {
    if s == [] then []
    else
      var k := LineEnd(s);
      [s[..k]] + (if k < |s| then SplitLines(s[k + 1..]) else [])
  }

  /** A line without '\n', followed by '\n', is read back as one line. */
  lemma SplitLinesCons(line: string, rest: string)
    requires '\n' !in line
    ensures SplitLines(line + "\n" + rest) == [line] + SplitLines(rest)
  {
    var s := line + "\n" + rest;
    var k := LineEnd(s);
    assert s[|line|] == '\n';
    assert forall i :: 0 <= i < |line| ==> s[i] == line[i] && line[i] in line;
    assert k == |line|;
    assert s[..k] == line;
    assert s[k + 1..] == rest;
  }

  /** Splitting undoes `Terminated` as long as no element holds a '\n'. */
  lemma {:induction false} SplitTerminated(lines: seq<string>)
    requires forall i :: 0 <= i < |lines| ==> '\n' !in lines[i]
    ensures SplitLines(Terminated(lines)) == lines
    decreases |lines|
  {
    if lines != [] {
      SplitLinesCons(lines[0], Terminated(lines[1..]));
      SplitTerminated(lines[1..]);
    }
  }

  /** `SplitTerminated` for any group of lines: it applies when none holds
      a '\n'. */
  lemma SplitTerminatedWhenClean(lines: seq<string>)
    ensures (forall i :: 0 <= i < |lines| ==> '\n' !in lines[i]) ==> SplitLines(Terminated(lines)) == lines
  {
    if forall i :: 0 <= i < |lines| ==> '\n' !in lines[i] {
      SplitTerminated(lines);
    }
  }

  /** Writing two groups of lines one after the other. */
  lemma {:induction false} TerminatedAppend(a: seq<string>, b: seq<string>)
    ensures Terminated(a + b) == Terminated(a) + Terminated(b)
    decreases |a|
  {
    if a == [] {
      assert a + b == b;
    } else {
      assert (a + b)[0] == a[0];
      assert (a + b)[1..] == a[1..] + b;
      TerminatedAppend(a[1..], b);
    }
  }

  /** Joining two pieces without line breaks makes no line break. */
  lemma NoBreakInConcat(a: string, b: string)
    requires '\n' !in a && '\n' !in b
    ensures '\n' !in a + b
  {
    AbsentFromConcat('\n', a, b);
  }

  /** A character in neither piece is not in their concatenation. */
  lemma AbsentFromConcat(c: char, a: string, b: string)
    requires c !in a && c !in b
    ensures c !in a + b
  {
    forall i | 0 <= i < |a + b|
      ensures (a + b)[i] != c
    {
      if i < |a| {
        assert a[i] in a;
      } else {
        assert b[i - |a|] in b;
      }
    }
  }

  // ---------------------------------------------------------------------------
  // Substrings
  // ---------------------------------------------------------------------------

  /** `part` occurs in `text` starting at index `i`. */
  predicate OccursAt(text: string, part: string, i: int) {
    0 <= i <= |text| - |part| && text[i..i + |part|] == part
  }

  /** `part` occurs somewhere in `text` (`str::contains`). */
  predicate Contains(text: string, part: string) {
    exists i | 0 <= i <= |text| - |part| :: OccursAt(text, part, i)
  }

  lemma ContainsItself(s: string)
    ensures Contains(s, s)
  {
    assert s[0..|s|] == s;
    assert OccursAt(s, s, 0);
  }

  /** A text does not contain a string holding a character the text lacks. */
  lemma MissingCharNotContained(text: string, part: string, k: nat)
    requires k < |part| && part[k] !in text
    ensures !Contains(text, part)
  {
    forall i | 0 <= i <= |text| - |part|
      ensures !OccursAt(text, part, i)
    {
      assert text[i + k] in text;
      assert text[i..i + |part|][k] == text[i + k];
    }
  }
}
