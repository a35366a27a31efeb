/** Worked inputs for day 3: the end-of-line shift on `*.12`, a line ended
    by `\r\n`, and the three-line example whose answer is 8. */
module GearsExamples {
  import opened Wrappers
  import opened Text
  import opened Gears

  /** A digit run from `i` to `e` comes first among the runs from `i`. */
  lemma RunThenRest(line: string, i: nat, e: nat)
    requires i < e <= |line| && (e == |line| || !IsDigit(line[e]))
    requires forall p :: i <= p < e ==> IsDigit(line[p])
    ensures RunsFrom(line, i) == [Run(i, e)] + RunsFrom(line, e)
  {
    RunEndAt(line, i, e);
  }

  lemma {:induction false} NoRuns(line: string, i: nat)
    requires i <= |line| && forall p :: i <= p < |line| ==> !IsDigit(line[p])
    ensures RunsFrom(line, i) == []
    decreases |line| - i
  {
    if i < |line| {
      NoRuns(line, i + 1);
    }
  }

  /** A line without digits adds nothing, whatever its neighbours. */
  lemma NoDigitsNoSum(prev: string, cur: string, next: string, scanner: Scanner)
    requires forall p :: 0 <= p < |cur| ==> !IsDigit(cur[p])
    ensures PartSum(prev, cur, next, Numbers(scanner, cur)) == 0
  {
    NoRuns(cur, 0);
  }

  /** One real line between two padding lines is one window. */
  lemma OneWindow(pad: string, line: string, scanner: Scanner)
    ensures WindowSum([pad, line, pad], scanner) == PartSum(pad, line, pad, Numbers(scanner, line))
  {
    var rows := [pad, line, pad];
    assert rows[..2] == [pad, line];
  }

  /** Three real lines between two padding lines are three windows. */
  lemma ThreeWindows(pad: string, a: string, b: string, c: string, scanner: Scanner)
    ensures WindowSum([pad, a, b, c, pad], scanner) ==
      PartSum(pad, a, b, Numbers(scanner, a)) + PartSum(a, b, c, Numbers(scanner, b)) + PartSum(b, c, pad, Numbers(scanner, c))
  {
    var rows := [pad, a, b, c, pad];
    assert rows[..4] == [pad, a, b, c] && rows[..4][..3] == [pad, a, b] && rows[..4][..3][..2] == [pad, a];
    assert WindowSum([pad, a, b], scanner) == PartSum(pad, a, b, Numbers(scanner, a));
    assert WindowSum([pad, a, b, c], scanner) == WindowSum([pad, a, b], scanner) + PartSum(a, b, c, Numbers(scanner, b));
  }

  function Value(prev: string, cur: string, next: string, n: PossibleNumber): nat
    requires ParseNat(n.text).Some?
  {
    if IsPart(prev, cur, next, n) then ParseNat(n.text).value else 0
  }

  lemma PartSumOne(prev: string, cur: string, next: string, x: PossibleNumber)
    requires ParseNat(x.text).Some?
    ensures PartSum(prev, cur, next, [x]) == Value(prev, cur, next, x)
  {
    assert [x][1..] == [];
  }

  lemma PartSumThree(prev: string, cur: string, next: string, x: PossibleNumber, y: PossibleNumber, z: PossibleNumber)
    requires ParseNat(x.text).Some? && ParseNat(y.text).Some? && ParseNat(z.text).Some?
    ensures PartSum(prev, cur, next, [x, y, z]) == Value(prev, cur, next, x) + Value(prev, cur, next, y) + Value(prev, cur, next, z)
  {
    var ns := [x, y, z];
    assert ns[1..] == [y, z] && ns[1..][1..] == [z];
    PartSumOne(prev, cur, next, z);
    assert PartSum(prev, cur, next, [y, z]) == Value(prev, cur, next, y) + PartSum(prev, cur, next, [z]);
  }

  /** `*.12`: the run `12` reaches the last column. */
  lemma ShiftedNumbers(line: string)
    requires line == "*.12"
    ensures Numbers(AsWritten, line) == [PossibleNumber(1, 2, "12")]
    ensures Numbers(Corrected, line) == [PossibleNumber(2, 3, "12")]
  {
    RunThenRest(line, 2, 4);
    assert RunsFrom(line, 1) == RunsFrom(line, 2);
    assert Runs(line) == [Run(2, 4)];
    ScannedRuns(line);
    assert line[2..4] == "12";
  }

  /** What `process_part1` and its corrected form compute on a text whose
      lines are `lines`, none of them all digits. */
  lemma Part1OfLines(input: string, lines: seq<string>)
    requires Lines(input) == lines && |lines| > 0
    requires forall k :: 0 <= k < |lines| ==> !Full(lines[k])
    ensures Part1(input) == Some(WindowSum([Dots(|lines[0]|)] + lines + [Dots(|lines[0]|)], AsWritten))
    ensures Part1Fixed(input) == Some(WindowSum([Dots(|lines[0]|)] + lines + [Dots(|lines[0]|)], Corrected))
  {
  }

  /** As written, `*.12` counts 12: the star two columns to the left of the
      number falls inside the shifted window. The corrected scanner counts
      nothing, since no symbol touches `12`. */
  lemma EndOfLineShift(line: string)
    requires line == "*.12"
    ensures Part1(line) == Some(12)
    ensures Part1Fixed(line) == Some(0)
  {
    LinesSingle(line);
    var pad := Dots(4);
    assert !IsDigit(line[0]);
    Part1OfLines(line, [line]);
    assert [pad] + [line] + [pad] == [pad, line, pad];
    OneWindow(pad, line, AsWritten);
    OneWindow(pad, line, Corrected);
    ShiftedNumbers(line);
    ParseTwoDigits('1', '2');
    assert IsSymbol(line[0]);
    PartSumOne(pad, line, pad, PossibleNumber(1, 2, "12"));
    PartSumOne(pad, line, pad, PossibleNumber(2, 3, "12"));
    DotsTouchNothing(4, 1, 4);
    assert !Touches(line, 1, 4) by {
      assert forall c :: 1 <= c < 4 ==> !IsSymbol(line[c]);
    }
  }

  /** `..5` ended by `\r\n` reads as the one line `..5`: the carriage return
      is not taken for a symbol, and nothing counts. */
  lemma CarriageReturn(line: string)
    requires line == "..5"
    ensures Lines(line + "\r\n") == [line]
    ensures Part1(line + "\r\n") == Some(0)
    ensures Part1Fixed(line + "\r\n") == Some(0)
  {
    assert WithCR([line]) == [line + "\r"];
    assert Join([line + "\r"], "\n") + "\n" == line + "\r\n";
    LinesCRLF([line]);
    assert !IsDigit(line[0]);
    Part1OfLines(line + "\r\n", [line]);
    var pad := Dots(3);
    assert [pad] + [line] + [pad] == [pad, line, pad];
    OneWindow(pad, line, AsWritten);
    OneWindow(pad, line, Corrected);
    assert forall c :: 0 <= c < |line| ==> !IsSymbol(line[c]);
    NoSymbolNoSum(pad, line, pad, Numbers(AsWritten, line));
    NoSymbolNoSum(pad, line, pad, Numbers(Corrected, line));
  }

  /** `.24..4.4`: runs `24`, `4` and `4`, the last at the last column. */
  lemma MiddleRuns(b: string)
    requires b == ".24..4.4"
    ensures Runs(b) == [Run(1, 3), Run(5, 6), Run(7, 8)]
  {
    RunThenRest(b, 7, 8);
    RunThenRest(b, 5, 6);
    RunThenRest(b, 1, 3);
  }

  lemma MiddleNumbers(b: string)
    requires b == ".24..4.4"
    ensures Numbers(AsWritten, b) == [PossibleNumber(1, 2, b[1..3]), PossibleNumber(5, 5, b[5..6]), PossibleNumber(6, 6, b[7..8])]
    ensures Numbers(Corrected, b) == [PossibleNumber(1, 2, b[1..3]), PossibleNumber(5, 5, b[5..6]), PossibleNumber(7, 7, b[7..8])]
  {
    MiddleRuns(b);
    ScannedRuns(b);
  }

  /** The middle line's numbers: `24` touches nothing, both `4`s touch the
      star below. */
  lemma MiddleSum(a: string, b: string, c: string, scanner: Scanner)
    requires a == "........" && b == ".24..4.4" && c == "......*."
    ensures PartSum(a, b, c, Numbers(scanner, b)) == 8
  {
    MiddleNumbers(b);
    var end := if scanner == AsWritten then 6 else 7;
    var x, y, z := PossibleNumber(1, 2, b[1..3]), PossibleNumber(5, 5, b[5..6]), PossibleNumber(end, end, b[7..8]);
    assert b[1..3] == ['2', '4'] && b[5..6] == ['4'] && b[7..8] == ['4'];
    ParseTwoDigits('2', '4');
    ParseOneDigit('4');
    PartSumThree(a, b, c, x, y, z);
    assert IsSymbol(c[6]);
    assert forall p :: 0 <= p < |a| ==> !IsSymbol(a[p]);
    assert forall p :: 0 <= p < |b| ==> !IsSymbol(b[p]);
    assert forall p :: 0 <= p < |c| && p != 6 ==> !IsSymbol(c[p]);
  }

  /** The outer lines of the example hold no digit. */
  lemma OuterLines(a: string, c: string)
    requires a == "........" && c == "......*."
    ensures forall p :: 0 <= p < |a| ==> !IsDigit(a[p])
    ensures forall p :: 0 <= p < |c| ==> !IsDigit(c[p])
  {
  }

  lemma ExampleWindows(pad: string, a: string, b: string, c: string, scanner: Scanner)
    requires a == "........" && b == ".24..4.4" && c == "......*." && pad == Dots(8)
    ensures WindowSum([pad, a, b, c, pad], scanner) == 8
  {
    OuterLines(a, c);
    ThreeWindows(pad, a, b, c, scanner);
    NoDigitsNoSum(pad, a, b, scanner);
    NoDigitsNoSum(b, c, pad, scanner);
    MiddleSum(a, b, c, scanner);
  }

  /** The example reads as three lines, none of them all digits. */
  lemma ExampleLines(a: string, b: string, c: string)
    requires a == "........" && b == ".24..4.4" && c == "......*."
    ensures Lines(a + "\n" + b + "\n" + c) == [a, b, c]
    ensures forall k :: 0 <= k < 3 ==> !Full([a, b, c][k])
  {
    JoinThree(a, b, c, "\n");
    LinesSeparated([a, b, c]);
    assert !IsDigit(a[0]) && !IsDigit(b[0]) && !IsDigit(c[0]);
  }

  /** The three-line example: 8 as written and corrected alike. */
  lemma ExamplePart1(a: string, b: string, c: string)
    requires a == "........" && b == ".24..4.4" && c == "......*."
    ensures Part1(a + "\n" + b + "\n" + c) == Some(8)
    ensures Part1Fixed(a + "\n" + b + "\n" + c) == Some(8)
  {
    ExampleLines(a, b, c);
    Part1OfLines(a + "\n" + b + "\n" + c, [a, b, c]);
    var pad := Dots(|a|);
    assert [pad] + [a, b, c] + [pad] == [pad, a, b, c, pad];
    ExampleWindows(pad, a, b, c, AsWritten);
    ExampleWindows(pad, a, b, c, Corrected);
  }
}
