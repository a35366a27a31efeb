/** Day 1: each line's calibration value is the two-digit number made of its
    first and last digit; the answer is their sum.
    Models rust/solutions/day-01/src/lib.rs. */
module Trebuchet {
  import opened Wrappers
  import opened Text

  predicate HasDigit(line: string) {
    exists i :: 0 <= i < |line| && IsDigit(line[i])
  }

  /** `line.chars().find(..)`: the position of the leftmost digit. */
  function FirstDigit(line: string): (r: Option<nat>)
    ensures r.None? <==> !HasDigit(line)
    ensures r.Some? ==> r.value < |line| && IsDigit(line[r.value])
    ensures r.Some? ==> forall i :: 0 <= i < r.value ==> !IsDigit(line[i])
  {
    if |line| == 0 then None
    else if IsDigit(line[0]) then Some(0)
    else match FirstDigit(line[1..])
      case None => None
      case Some(i) => Some(i + 1)
  }

  /** `line.chars().rfind(..)`: the position of the rightmost digit. */
  function LastDigit(line: string): (r: Option<nat>)
    ensures r.None? <==> !HasDigit(line)
    ensures r.Some? ==> r.value < |line| && IsDigit(line[r.value])
    ensures r.Some? ==> forall i :: r.value < i < |line| ==> !IsDigit(line[i])
  {
    if |line| == 0 then None
    else if IsDigit(line[|line| - 1]) then Some(|line| - 1)
    else
      var init := line[..|line| - 1];
      assert forall i :: 0 <= i < |init| ==> init[i] == line[i];
      LastDigit(init)
  }

  /** The first and last digit, written side by side and parsed. A line with
      no digit makes the program abort, so it is excluded here. */
  function Calibration(line: string): (v: nat)
    requires HasDigit(line)
    ensures v == 10 * DigitValue(line[FirstDigit(line).value]) + DigitValue(line[LastDigit(line).value])
    ensures v < 100
  {
    var first, last := line[FirstDigit(line).value], line[LastDigit(line).value];
    ParseTwoDigits(first, last);
    ParseNat([first, last]).value
  }

  /** A line holding a single digit `d` is worth 11 times `d`. */
  lemma SingleDigit(line: string, i: nat)
    requires i < |line| && IsDigit(line[i])
    requires forall j :: 0 <= j < |line| && j != i ==> !IsDigit(line[j])
    ensures Calibration(line) == 11 * DigitValue(line[i])
  {
  }

  /** The first digit never comes after the last one. */
  lemma FirstNotAfterLast(line: string)
    requires HasDigit(line)
    ensures FirstDigit(line).value <= LastDigit(line).value
  {
  }

  function SumCalibrations(lines: seq<string>): nat
    requires forall k :: 0 <= k < |lines| ==> HasDigit(lines[k])
  {
    if |lines| == 0 then 0 else SumCalibrations(lines[..|lines| - 1]) + Calibration(lines[|lines| - 1])
  }

  /** Every line of the input must hold a digit. */
  predicate Readable(input: string) {
    forall k :: 0 <= k < |Lines(input)| ==> HasDigit(Lines(input)[k])
  }

  /** `process_part1`: the calibration values of all lines added up. */
  function Part1(input: string): (r: nat)
    requires Readable(input)
    ensures r <= 99 * |Lines(input)|
  {
    SumBound(Lines(input));
    SumCalibrations(Lines(input))
  }

  /** The sum over a list of lines is the sum over any split of it into two. */
  lemma {:induction false} SumAppend(a: seq<string>, b: seq<string>)
    requires forall k :: 0 <= k < |a| ==> HasDigit(a[k])
    requires forall k :: 0 <= k < |b| ==> HasDigit(b[k])
    ensures forall k :: 0 <= k < |a + b| ==> HasDigit((a + b)[k])
    ensures SumCalibrations(a + b) == SumCalibrations(a) + SumCalibrations(b)
    decreases |b|
  {
    assert forall k :: 0 <= k < |a + b| ==> HasDigit((a + b)[k]) by {
      forall k | 0 <= k < |a + b|
        ensures HasDigit((a + b)[k])
      {
        if k < |a| {
          assert (a + b)[k] == a[k];
        } else {
          assert (a + b)[k] == b[k - |a|];
        }
      }
    }
    if |b| > 0 {
      var front := b[..|b| - 1];
      assert (a + b)[..|a + b| - 1] == a + front;
      SumAppend(a, front);
    } else {
      assert a + b == a;
    }
  }

  /** Each value is at most 99, so the sum is at most 99 per line. */
  lemma {:induction false} SumBound(lines: seq<string>)
    requires forall k :: 0 <= k < |lines| ==> HasDigit(lines[k])
    ensures SumCalibrations(lines) <= 99 * |lines|
  {
    if |lines| > 0 {
      SumBound(lines[..|lines| - 1]);
    }
  }

  /** The leftmost digit found by `FirstDigit` is any digit with none before it. */
  lemma FirstDigitIs(line: string, i: nat)
    requires i < |line| && IsDigit(line[i]) && forall j :: 0 <= j < i ==> !IsDigit(line[j])
    ensures FirstDigit(line) == Some(i)
  {
  }

  /** The rightmost digit found by `LastDigit` is any digit with none after it. */
  lemma LastDigitIs(line: string, i: nat)
    requires i < |line| && IsDigit(line[i]) && forall j :: i < j < |line| ==> !IsDigit(line[j])
    ensures LastDigit(line) == Some(i)
  {
  }

  lemma ExampleLine1(line: string)
    requires line == "1abc2"
    ensures HasDigit(line) && Calibration(line) == 12
  {
    FirstDigitIs(line, 0);
    LastDigitIs(line, 4);
  }

  lemma ExampleLine2(line: string)
    requires line == "pqr3stu8vwx"
    ensures HasDigit(line) && Calibration(line) == 38
  {
    FirstDigitIs(line, 3);
    LastDigitIs(line, 7);
  }

  lemma ExampleLine3(line: string)
    requires line == "a1b2c3d4e5f"
    ensures HasDigit(line) && Calibration(line) == 15
  {
    FirstDigitIs(line, 1);
    LastDigitIs(line, 9);
  }

  lemma ExampleLine4(line: string)
    requires line == "treb7uchet"
    ensures HasDigit(line) && Calibration(line) == 77
  {
    SingleDigit(line, 4);
  }

  /** Four lines worth 12, 38, 15 and 77. */
  lemma ExampleLines(a: string, b: string, c: string, d: string)
    requires a == "1abc2" && b == "pqr3stu8vwx" && c == "a1b2c3d4e5f" && d == "treb7uchet"
    ensures forall k :: 0 <= k < 4 ==> HasDigit([a, b, c, d][k])
    ensures SumCalibrations([a, b, c, d]) == 142
  {
    ExampleLine1(a);
    ExampleLine2(b);
    ExampleLine3(c);
    ExampleLine4(d);
    SumOfFour(a, b, c, d);
  }

  lemma SumOfFour(a: string, b: string, c: string, d: string)
    requires HasDigit(a) && HasDigit(b) && HasDigit(c) && HasDigit(d)
    ensures forall k :: 0 <= k < 4 ==> HasDigit([a, b, c, d][k])
    ensures SumCalibrations([a, b, c, d]) == Calibration(a) + Calibration(b) + Calibration(c) + Calibration(d)
  {
    var lines := [a, b, c, d];
    assert lines[..3] == [a, b, c] && lines[..3][..2] == [a, b] && lines[..3][..2][..1] == [a];
    assert [a][..0] == [];
    assert SumCalibrations([a]) == Calibration(a);
    assert SumCalibrations([a, b]) == Calibration(a) + Calibration(b);
    assert SumCalibrations([a, b, c]) == Calibration(a) + Calibration(b) + Calibration(c);
  }

  lemma ExampleInput(a: string, b: string, c: string, d: string)
    requires a == "1abc2" && b == "pqr3stu8vwx" && c == "a1b2c3d4e5f" && d == "treb7uchet"
    ensures Lines(a + "\n" + b + "\n" + c + "\n" + d + "\n") == [a, b, c, d]
  {
    JoinFour(a, b, c, d, "\n");
    LinesTerminated([a, b, c, d]);
  }

  /** The example's four lines are worth 12, 38, 15 and 77: 142 in all. */
  lemma ExamplePart1(a: string, b: string, c: string, d: string)
    requires a == "1abc2" && b == "pqr3stu8vwx" && c == "a1b2c3d4e5f" && d == "treb7uchet"
    ensures Readable(a + "\n" + b + "\n" + c + "\n" + d + "\n")
    ensures Part1(a + "\n" + b + "\n" + c + "\n" + d + "\n") == 142
  {
    ExampleInput(a, b, c, d);
    ExampleLines(a, b, c, d);
  }
}
