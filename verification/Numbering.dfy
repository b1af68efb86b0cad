/** Consecutive numbers as text: "<year>-<sequence>", the sequence padded to four digits, and the
    names of the files that carry them inside a ZIP. */
module Numbering {

  datatype Option<+T> = None | Some(value: T)

  const SEQUENCE_WIDTH: nat := 4

  function DigitChar(d: nat): char
    requires d < 10
  {
    '0' + d as char
  }

  function DigitValue(c: char): nat {
    if '0' <= c <= '9' then c as nat - '0' as nat else 0
  }

  // Decimal notation of a natural number, without leading zeros.
  function Digits(n: nat): (text: string)
    ensures text != []
    ensures forall i :: 0 <= i < |text| ==> '0' <= text[i] <= '9'
  {
    if n < 10 then [DigitChar(n)] else Digits(n / 10) + [DigitChar(n % 10)]
  }

  function PadStart(text: string, width: nat): string
    decreases width - |text|
  {
    if |text| >= width then text else PadStart(['0'] + text, width)
  }

  // What a string of digits stands for; leading zeros do not matter.
  function ValueOf(text: string): nat {
    if text == [] then 0 else 10 * ValueOf(text[..|text| - 1]) + DigitValue(text[|text| - 1])
  }

  // The text up to the first '-', and the text after it.
  function SplitAtDash(text: string): (string, string) {
    if text == [] then ([], [])
    else if text[0] == '-' then ([], text[1..])
    else
      var (before, after) := SplitAtDash(text[1..]);
      ([text[0]] + before, after)
  }

  function ParseNumber(number: string): (nat, nat) {
    var (year, sequence) := SplitAtDash(number);
    (ValueOf(year), ValueOf(sequence))
  }

  function NumberText(year: nat, sequence: nat): string {
    Digits(year) + "-" + PadStart(Digits(sequence), SEQUENCE_WIDTH)
  }

  // None where the source throws.
  function FormatResolutionNumber(year: int, sequence: int): Option<string> {
    if year <= 0 || sequence <= 0 then None else Some(NumberText(year, sequence))
  }

  function FileName(prefix: string, number: string): string {
    prefix + number + ".pdf"
  }

  lemma {:induction false} ValueOfDigits(n: nat)
    ensures ValueOf(Digits(n)) == n
  {
    if n >= 10 {
      ValueOfDigits(n / 10);
      assert Digits(n)[..|Digits(n)| - 1] == Digits(n / 10);
    }
  }

  lemma {:induction false} ValueIgnoresLeadingZero(text: string)
    ensures ValueOf(['0'] + text) == ValueOf(text)
  {
    if text != [] {
      var last := |text| - 1;
      ValueIgnoresLeadingZero(text[..last]);
      assert (['0'] + text)[..last + 1] == ['0'] + text[..last];
    }
  }

  lemma {:induction false} ValueIgnoresPadding(text: string, width: nat)
    ensures ValueOf(PadStart(text, width)) == ValueOf(text)
    decreases width - |text|
  {
    if |text| < width {
      ValueIgnoresPadding(['0'] + text, width);
      ValueIgnoresLeadingZero(text);
    }
  }

  lemma {:induction false} SplitFindsDash(before: string, after: string)
    requires forall i :: 0 <= i < |before| ==> before[i] != '-'
    ensures SplitAtDash(before + "-" + after) == (before, after)
  {
    var text := before + "-" + after;
    if before == [] {
      assert text[1..] == after;
    } else {
      assert text[0] == before[0];
      assert text[1..] == before[1..] + "-" + after;
      SplitFindsDash(before[1..], after);
      assert [text[0]] + before[1..] == before;
    }
  }

  // A number can be read back, so it never stands for two (year, sequence) pairs.
  lemma {:induction false} NumberRoundTrip(year: int, sequence: int)
    ensures FormatResolutionNumber(year, sequence).Some? <==> year > 0 && sequence > 0
    ensures FormatResolutionNumber(year, sequence).Some? ==>
              ParseNumber(FormatResolutionNumber(year, sequence).value) == (year, sequence)
  {
    if year > 0 && sequence > 0 {
      SplitFindsDash(Digits(year), PadStart(Digits(sequence), SEQUENCE_WIDTH));
      ValueOfDigits(year);
      ValueIgnoresPadding(Digits(sequence), SEQUENCE_WIDTH);
      ValueOfDigits(sequence);
    }
  }

  predicate AllDigits(text: string) {
    forall i :: 0 <= i < |text| ==> '0' <= text[i] <= '9'
  }

  // A number as it is printed: the year without leading zeros, a dash, and the sequence in four digits, or in
  // more if it needs them, and then without leading zeros.
  ghost predicate Printed(text: string, year: nat, sequence: nat) {
    exists y, n :: && text == y + "-" + n && AllDigits(y) && AllDigits(n)
                   && y != "" && y[0] != '0' && ValueOf(y) == year && ValueOf(n) == sequence
                   && |n| >= 4 && (|n| > 4 ==> n[0] != '0')
  }

  lemma NumberIsPrinted(year: nat, sequence: nat)
    requires year > 0 && sequence > 0
    ensures Printed(NumberText(year, sequence), year, sequence)
  {
    var y, n := Digits(year), PadStart(Digits(sequence), SEQUENCE_WIDTH);
    NoLeadingZero(year);
    NoLeadingZero(sequence);
    PaddedDigits(Digits(sequence), SEQUENCE_WIDTH);
    ValueOfDigits(year);
    ValueIgnoresPadding(Digits(sequence), SEQUENCE_WIDTH);
    ValueOfDigits(sequence);
    assert NumberText(year, sequence) == y + "-" + n;
  }

  lemma {:induction false} NoLeadingZero(n: nat)
    requires n > 0
    ensures Digits(n)[0] != '0'
  {
    if n >= 10 {
      NoLeadingZero(n / 10);
    }
  }

  lemma {:induction false} PaddedDigits(text: string, width: nat)
    requires AllDigits(text)
    ensures AllDigits(PadStart(text, width)) && |PadStart(text, width)| == (if |text| > width then |text| else width)
    ensures |text| >= width ==> PadStart(text, width) == text
    decreases width - |text|
  {
    if |text| < width {
      PaddedDigits(['0'] + text, width);
    }
  }

  // Two documents of one ZIP share a file name only if they share a number.
  lemma {:induction false} FileNamesDiffer(prefix: string, year1: nat, sequence1: nat, year2: nat, sequence2: nat)
    requires year1 > 0 && sequence1 > 0 && year2 > 0 && sequence2 > 0
    ensures FileName(prefix, NumberText(year1, sequence1)) == FileName(prefix, NumberText(year2, sequence2)) ==>
              year1 == year2 && sequence1 == sequence2
  {
    var n1, n2 := NumberText(year1, sequence1), NumberText(year2, sequence2);
    NumberRoundTrip(year1, sequence1);
    NumberRoundTrip(year2, sequence2);
    if FileName(prefix, n1) == FileName(prefix, n2) {
      assert n1 == FileName(prefix, n1)[|prefix|..|FileName(prefix, n1)| - 4];
      assert n2 == FileName(prefix, n2)[|prefix|..|FileName(prefix, n2)| - 4];
    }
  }
}
