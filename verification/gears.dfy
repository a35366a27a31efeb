/** Day 3: numbers in an engine schematic that touch a symbol, horizontally,
    vertically or diagonally, are part numbers; the answer is their sum.
    Models rust/solutions/day-03/src/lib.rs. */
module Gears {
  import opened Wrappers
  import opened Text

  /** `is_symbol`: anything but a digit or a dot. */
  predicate IsSymbol(c: char) {
    !(IsDigit(c) || c == '.')
  }

  /** A run of digits in a line, from `start` up to but not including `stop`. */
  datatype Run = Run(start: nat, stop: nat)

  /** The end of the digit run that begins at `i`: the first non-digit at or
      after `i`, or the end of the line. */
  function RunEnd(line: string, i: nat): (e: nat)
    requires i <= |line|
    ensures i <= e <= |line|
    ensures forall p :: i <= p < e ==> IsDigit(line[p])
    ensures e == |line| || !IsDigit(line[e])
    decreases |line| - i
  {
    if i == |line| || !IsDigit(line[i]) then i else RunEnd(line, i + 1)
  }

  /** A run of digits from `i` that stops at `e` ends at `e`. */
  lemma {:induction false} RunEndAt(line: string, i: nat, e: nat)
    requires i <= e <= |line| && (e == |line| || !IsDigit(line[e]))
    requires forall p :: i <= p < e ==> IsDigit(line[p])
    ensures RunEnd(line, i) == e
    decreases e - i
  {
    if i < e {
      RunEndAt(line, i + 1, e);
    }
  }

  /** The maximal digit runs at or after `i`, left to right. */
  function RunsFrom(line: string, i: nat): (runs: seq<Run>)
    requires i <= |line|
    ensures forall k :: 0 <= k < |runs| ==> i <= runs[k].start < runs[k].stop <= |line|
    decreases |line| - i
  {
    if i == |line| then []
    else if !IsDigit(line[i]) then RunsFrom(line, i + 1)
    else [Run(i, RunEnd(line, i))] + RunsFrom(line, RunEnd(line, i))
  }

  function Runs(line: string): seq<Run> {
    RunsFrom(line, 0)
  }

  /** Every run starts on a digit, holds digits only and cannot be extended
      to the right. */
  lemma {:induction false} RunsAreDigits(line: string, i: nat)
    requires i <= |line|
    ensures forall k, p :: 0 <= k < |RunsFrom(line, i)| && RunsFrom(line, i)[k].start <= p < RunsFrom(line, i)[k].stop ==> IsDigit(line[p])
    ensures forall k :: 0 <= k < |RunsFrom(line, i)| ==> RunsFrom(line, i)[k].stop == |line| || !IsDigit(line[RunsFrom(line, i)[k].stop])
    decreases |line| - i
  {
    if i < |line| {
      if !IsDigit(line[i]) {
        RunsAreDigits(line, i + 1);
      } else {
        var e := RunEnd(line, i);
        RunsAreDigits(line, e);
        var runs, rest := RunsFrom(line, i), RunsFrom(line, e);
        assert runs == [Run(i, e)] + rest;
        assert forall k :: 0 < k < |runs| ==> runs[k] == rest[k - 1];
      }
    }
  }

  /** Runs are separated: each cannot be extended to the left, and each ends
      before the next one starts. */
  lemma {:induction false} RunsSeparated(line: string, i: nat)
    requires i <= |line|
    ensures forall k :: 0 <= k < |RunsFrom(line, i)| ==> RunsFrom(line, i)[k].start == i || !IsDigit(line[RunsFrom(line, i)[k].start - 1])
    ensures forall k :: 0 <= k < |RunsFrom(line, i)| - 1 ==> RunsFrom(line, i)[k].stop < RunsFrom(line, i)[k + 1].start
    decreases |line| - i
  {
    if i < |line| {
      if !IsDigit(line[i]) {
        RunsSeparated(line, i + 1);
      } else {
        var e := RunEnd(line, i);
        RunsSeparated(line, e);
        RunsAreDigits(line, e);
        var runs, rest := RunsFrom(line, i), RunsFrom(line, e);
        assert runs == [Run(i, e)] + rest;
        forall k | 0 < k < |runs|
          ensures runs[k] == rest[k - 1] && runs[k].start > e
        {
          assert IsDigit(line[rest[k - 1].start]);
        }
      }
    }
  }

  /** Every digit at or after `i` lies in one of the runs. */
  lemma {:induction false} RunsCover(line: string, i: nat, p: nat)
    requires i <= p < |line| && IsDigit(line[p])
    ensures exists k :: 0 <= k < |RunsFrom(line, i)| && RunsFrom(line, i)[k].start <= p < RunsFrom(line, i)[k].stop
    decreases |line| - i
  {
    var runs := RunsFrom(line, i);
    if !IsDigit(line[i]) {
      RunsCover(line, i + 1, p);
    } else {
      var e := RunEnd(line, i);
      if p < e {
        assert runs[0] == Run(i, e);
      } else {
        RunsCover(line, e, p);
        var rest := RunsFrom(line, e);
        var k :| 0 <= k < |rest| && rest[k].start <= p < rest[k].stop;
        assert runs[k + 1] == rest[k];
      }
    }
  }

  /** What the scanner records for a number: where it starts and ends and its
      digits. */
  datatype PossibleNumber = PossibleNumber(start: int, end: int, text: string)

  /** A run closed by a non-digit is recorded where it sits. A run that
      reaches the last column is recorded one column to the left. */
  function Recorded(line: string, r: Run): PossibleNumber
    requires r.start <= r.stop <= |line|
  {
    if r.stop == |line| then PossibleNumber(r.start - 1, r.stop - 2, line[r.start..r.stop])
    else PossibleNumber(r.start, r.stop - 1, line[r.start..r.stop])
  }

  predicate InLine(line: string, runs: seq<Run>) {
    forall k :: 0 <= k < |runs| ==> runs[k].start <= runs[k].stop <= |line|
  }

  function Records(line: string, runs: seq<Run>): seq<PossibleNumber>
    requires InLine(line, runs)
  {
    if |runs| == 0 then [] else [Recorded(line, runs[0])] + Records(line, runs[1..])
  }

  function RecordsFrom(line: string, i: nat): seq<PossibleNumber>
    requires i <= |line|
  {
    Records(line, RunsFrom(line, i))
  }

  /** A run beginning at `j` is recorded first. */
  lemma RecordsAtRun(line: string, j: nat)
    requires j < |line| && IsDigit(line[j])
    ensures RecordsFrom(line, j) == [Recorded(line, Run(j, RunEnd(line, j)))] + RecordsFrom(line, RunEnd(line, j))
  {
    var e := RunEnd(line, j);
    var runs := RunsFrom(line, j);
    assert runs[1..] == RunsFrom(line, e);
  }

  /** A run that reaches the last column is the last one recorded, shifted
      one column to the left. */
  lemma LastRun(line: string, start: nat)
    requires !Full(line) && start < |line| && forall p :: start <= p < |line| ==> IsDigit(line[p])
    ensures start > 0
    ensures RecordsFrom(line, start) == [PossibleNumber(start - 1, |line| - 2, line[start..|line|])]
  {
    RunEndAt(line, start, |line|);
    RecordsAtRun(line, start);
  }

  /** A run closed by a non-digit at `i` is recorded where it sits. */
  lemma ClosedRun(line: string, start: nat, i: nat)
    requires start < i < |line| && !IsDigit(line[i]) && forall p :: start <= p < i ==> IsDigit(line[p])
    ensures RecordsFrom(line, start) == [PossibleNumber(start, i - 1, line[start..i])] + RecordsFrom(line, i + 1)
  {
    RunEndAt(line, start, i);
    RecordsAtRun(line, start);
  }

  /** A non-digit records nothing. */
  lemma RecordsPastGap(line: string, i: nat)
    requires i < |line| && !IsDigit(line[i])
    ensures RecordsFrom(line, i) == RecordsFrom(line, i + 1)
  {
  }

  /** `get_possible_numbers_for_line` as a function of the line. */
  function Scanned(line: string): seq<PossibleNumber> {
    RecordsFrom(line, 0)
  }

  /** A line made of digits only: the scanner's index arithmetic underflows. */
  predicate Full(line: string) {
    |line| > 0 && AllDigits(line)
  }

  /** The scanner's state before column `i`: `acc` holds the digits since
      `start`, and what is recorded so far, followed by what the rest of the
      line records from `start` on, is everything the line records. */
  predicate ScanState(line: string, i: nat, start: nat, acc: string, numbers: seq<PossibleNumber>) {
    start + |acc| == i <= |line| && acc == line[start..i] &&
    (forall p :: start <= p < i ==> IsDigit(line[p])) &&
    (i < |line| ==> numbers + RecordsFrom(line, start) == Scanned(line)) &&
    (i == |line| ==> numbers == Scanned(line))
  }

  /** A digit before the last column joins `acc`. */
  lemma StepDigit(line: string, i: nat, start: nat, acc: string, numbers: seq<PossibleNumber>)
    requires i < |line| - 1 && IsDigit(line[i]) && ScanState(line, i, start, acc, numbers)
    ensures ScanState(line, i + 1, start, acc + [line[i]], numbers)
  {
    assert line[start..i + 1] == acc + [line[i]];
  }

  /** A digit in the last column joins `acc`, which is then recorded. */
  lemma StepLastDigit(line: string, i: nat, start: nat, acc: string, numbers: seq<PossibleNumber>)
    requires !Full(line) && i == |line| - 1 && IsDigit(line[i]) && ScanState(line, i, start, acc, numbers)
    ensures var grown := acc + [line[i]];
      ScanState(line, i + 1, start, grown, numbers + [PossibleNumber(i - |grown|, i - 1, grown)])
  {
    assert line[start..i + 1] == acc + [line[i]];
    LastRun(line, start);
  }

  /** A non-digit after digits records them and empties `acc`. */
  lemma StepClose(line: string, i: nat, start: nat, acc: string, numbers: seq<PossibleNumber>)
    requires i < |line| && !IsDigit(line[i]) && |acc| > 0 && ScanState(line, i, start, acc, numbers)
    ensures ScanState(line, i + 1, i + 1, "", numbers + [PossibleNumber(i - |acc|, i - 1, acc)])
  {
    ClosedRun(line, start, i);
    assert numbers + RecordsFrom(line, start) == numbers + [PossibleNumber(i - |acc|, i - 1, acc)] + RecordsFrom(line, i + 1);
    if i + 1 == |line| {
      assert RecordsFrom(line, i + 1) == [];
    }
  }

  /** A non-digit with `acc` empty changes nothing. */
  lemma StepGap(line: string, i: nat, start: nat, numbers: seq<PossibleNumber>)
    requires i < |line| && !IsDigit(line[i]) && ScanState(line, i, start, "", numbers)
    ensures ScanState(line, i + 1, i + 1, "", numbers)
  {
    RecordsPastGap(line, i);
    if i + 1 == |line| {
      assert RecordsFrom(line, i + 1) == [];
    }
  }

  /** `get_possible_numbers_for_line`: the fold over the characters that
      collects digits in `acc` and records it at the first non-digit after it
      or at the last column. */
  method PossibleNumbers(line: string) returns (numbers: seq<PossibleNumber>)
    requires !Full(line)
    ensures numbers == Scanned(line)
  {
    var acc := "";
    numbers := [];
    ghost var start := 0;
    for i := 0 to |line|
      invariant ScanState(line, i, start, acc, numbers)
    {
      if IsDigit(line[i]) {
        if i == |line| - 1 {
          StepLastDigit(line, i, start, acc, numbers);
          acc := acc + [line[i]];
          numbers := numbers + [PossibleNumber(i - |acc|, i - 1, acc)];
        } else {
          StepDigit(line, i, start, acc, numbers);
          acc := acc + [line[i]];
        }
      } else if |acc| > 0 {
        StepClose(line, i, start, acc, numbers);
        numbers := numbers + [PossibleNumber(i - |acc|, i - 1, acc)];
        acc := "";
        start := i + 1;
      } else {
        StepGap(line, i, start, numbers);
        start := i + 1;
      }
    }
  }

  /** The records of a list of runs, one per run, in order. */
  lemma {:induction false} RecordsIndex(line: string, runs: seq<Run>)
    requires InLine(line, runs)
    ensures |Records(line, runs)| == |runs|
    ensures forall k :: 0 <= k < |runs| ==> Records(line, runs)[k] == Recorded(line, runs[k])
  {
    if |runs| > 0 {
      RecordsIndex(line, runs[1..]);
      assert forall k :: 0 < k < |runs| ==> runs[1..][k - 1] == runs[k];
    }
  }

  /** The scanner records one number per maximal digit run, in order. */
  lemma ScannedRuns(line: string)
    ensures |Scanned(line)| == |Runs(line)|
    ensures forall k :: 0 <= k < |Runs(line)| ==> Scanned(line)[k] == Recorded(line, Runs(line)[k])
  {
    RecordsIndex(line, Runs(line));
  }

  /** Every recorded text is a non-empty string of digits, so it parses. */
  lemma ScannedTexts(line: string)
    ensures forall k :: 0 <= k < |Scanned(line)| ==> |Scanned(line)[k].text| > 0 && AllDigits(Scanned(line)[k].text)
    ensures forall k :: 0 <= k < |Scanned(line)| ==> ParseNat(Scanned(line)[k].text) == Some(Decimal(Scanned(line)[k].text))
  {
    ScannedRuns(line);
    RunsAreDigits(line, 0);
    forall k | 0 <= k < |Scanned(line)|
      ensures AllDigits(Scanned(line)[k].text)
    {
      var r := Runs(line)[k];
      assert forall p :: 0 <= p < r.stop - r.start ==> line[r.start..r.stop][p] == line[r.start + p];
    }
  }

  /** On a line that is not all digits, the recorded numbers have
      non-negative starts, span as many columns as they have digits, and come
      left to right without overlapping. */
  lemma ScannedPositions(line: string)
    requires !Full(line)
    ensures forall k :: 0 <= k < |Scanned(line)| ==> 0 <= Scanned(line)[k].start
    ensures forall k :: 0 <= k < |Scanned(line)| ==> Scanned(line)[k].end - Scanned(line)[k].start + 1 == |Scanned(line)[k].text|
    ensures forall k :: 0 <= k < |Scanned(line)| - 1 ==> Scanned(line)[k].end < Scanned(line)[k + 1].start
  {
    ScannedRuns(line);
    RunsAreDigits(line, 0);
    RunsSeparated(line, 0);
    var runs := Runs(line);
    forall k | 0 <= k < |runs| && runs[k].stop == |line|
      ensures runs[k].start > 0
    {
      WholeLineRun(line, runs[k]);
    }
  }

  /** A digit run that reaches the last column of a line that is not all
      digits does not start at column 0. */
  lemma WholeLineRun(line: string, r: Run)
    requires !Full(line) && r.start < r.stop == |line|
    requires forall p :: r.start <= p < r.stop ==> IsDigit(line[p])
    ensures r.start > 0
  {
  }

  /** The position the scanner should have recorded: the run's own first and
      last column. */
  function Fixed(line: string, r: Run): (n: PossibleNumber)
    requires r.start <= r.stop <= |line|
    ensures n.end - n.start + 1 == |n.text|
  {
    PossibleNumber(r.start, r.stop - 1, line[r.start..r.stop])
  }

  /** The scanner with the last-column case recorded like every other run. */
  function ScannedFixed(line: string): (numbers: seq<PossibleNumber>)
    ensures |numbers| == |Runs(line)|
  {
    var runs := Runs(line);
    seq(|runs|, k requires 0 <= k < |runs| => Fixed(line, runs[k]))
  }

  /** The two scanners agree on every run closed by a non-digit; a run that
      reaches the last column is recorded one column to the left of where the
      corrected scanner puts it. */
  lemma ScannedAgrees(line: string, k: nat)
    requires k < |Runs(line)|
    ensures k < |Scanned(line)|
    ensures Runs(line)[k].stop < |line| ==> Scanned(line)[k] == ScannedFixed(line)[k]
    ensures Runs(line)[k].stop == |line| ==>
      Scanned(line)[k] == ScannedFixed(line)[k].(start := ScannedFixed(line)[k].start - 1, end := ScannedFixed(line)[k].end - 1)
  {
    ScannedRuns(line);
  }

  /** `"."` repeated `n` times: the padding above the first and below the
      last line. */
  function Dots(n: nat): (s: string)
    ensures |s| == n && forall i :: 0 <= i < n ==> s[i] == '.'
  {
    seq(n, _ => '.')
  }

  /** Some symbol of `row` sits at a column from `lo` to `hi`. */
  predicate Touches(row: string, lo: int, hi: int) {
    exists c :: 0 <= c < |row| && lo <= c <= hi && IsSymbol(row[c])
  }

  /** `1.max(start) - 1`: the column before `start`, but never below zero. */
  function Lo(start: int): int {
    if start < 1 then 0 else start - 1
  }

  /** The test of `process_part1`: a symbol in the previous, current or next
      line, from the column before the number to the column after it. */
  predicate IsPart(prev: string, cur: string, next: string, n: PossibleNumber) {
    Touches(prev, Lo(n.start), n.end + 1) || Touches(cur, Lo(n.start), n.end + 1) || Touches(next, Lo(n.start), n.end + 1)
  }

  /** A padding line holds no symbol. */
  lemma DotsTouchNothing(n: nat, lo: int, hi: int)
    ensures !Touches(Dots(n), lo, hi)
  {
  }

  /** Some symbol of `row` is next to the run `r`, diagonals included. */
  predicate Near(row: string, r: Run) {
    exists c :: 0 <= c < |row| && r.start <= c + 1 && c <= r.stop && IsSymbol(row[c])
  }

  /** A run is adjacent to a symbol in the line above, its own line or the
      line below. */
  predicate Adjacent(prev: string, cur: string, next: string, r: Run) {
    Near(prev, r) || Near(cur, r) || Near(next, r)
  }

  lemma TouchesNear(row: string, r: Run)
    ensures Touches(row, Lo(r.start), r.stop) <==> Near(row, r)
  {
    if Touches(row, Lo(r.start), r.stop) {
      var c :| 0 <= c < |row| && Lo(r.start) <= c <= r.stop && IsSymbol(row[c]);
      assert r.start <= c + 1;
    }
  }

  /** With the corrected scanner, a number counts exactly when its run is
      adjacent to a symbol. */
  lemma FixedIsAdjacent(prev: string, cur: string, next: string, k: nat)
    requires k < |Runs(cur)|
    ensures IsPart(prev, cur, next, ScannedFixed(cur)[k]) <==> Adjacent(prev, cur, next, Runs(cur)[k])
  {
    var r := Runs(cur)[k];
    assert ScannedFixed(cur)[k] == Fixed(cur, r);
    TouchesNear(prev, r);
    TouchesNear(cur, r);
    TouchesNear(next, r);
  }

  /** As written, a number closed by a non-digit counts exactly when its run
      is adjacent to a symbol. */
  lemma ClosedIsAdjacent(prev: string, cur: string, next: string, k: nat)
    requires k < |Runs(cur)| && Runs(cur)[k].stop < |cur|
    ensures k < |Scanned(cur)|
    ensures IsPart(prev, cur, next, Scanned(cur)[k]) <==> Adjacent(prev, cur, next, Runs(cur)[k])
  {
    ScannedAgrees(cur, k);
    FixedIsAdjacent(prev, cur, next, k);
  }

  /** Texts that parse as numbers. */
  predicate Parsable(numbers: seq<PossibleNumber>) {
    forall k :: 0 <= k < |numbers| ==> ParseNat(numbers[k].text).Some?
  }

  /** The sum of the numbers that count, between the lines `prev` and `next`. */
  function PartSum(prev: string, cur: string, next: string, numbers: seq<PossibleNumber>): nat
    requires Parsable(numbers)
  {
    if |numbers| == 0 then 0
    else
      (if IsPart(prev, cur, next, numbers[0]) then ParseNat(numbers[0].text).value else 0)
      + PartSum(prev, cur, next, numbers[1..])
  }

  /** Numbers with no symbol in any of the three lines add nothing. */
  lemma {:induction false} NoSymbolNoSum(prev: string, cur: string, next: string, numbers: seq<PossibleNumber>)
    requires Parsable(numbers)
    requires forall c :: 0 <= c < |prev| ==> !IsSymbol(prev[c])
    requires forall c :: 0 <= c < |cur| ==> !IsSymbol(cur[c])
    requires forall c :: 0 <= c < |next| ==> !IsSymbol(next[c])
    ensures PartSum(prev, cur, next, numbers) == 0
  {
    if |numbers| > 0 {
      NoSymbolNoSum(prev, cur, next, numbers[1..]);
    }
  }

  /** The scanner as written, or corrected. */
  datatype Scanner = AsWritten | Corrected

  function Numbers(scanner: Scanner, line: string): (numbers: seq<PossibleNumber>)
    ensures Parsable(numbers)
    ensures |numbers| == |Runs(line)|
  {
    ScannedRuns(line);
    ScannedTexts(line);
    if scanner == AsWritten then Scanned(line)
    else
      assert forall k :: 0 <= k < |Runs(line)| ==> ScannedFixed(line)[k].text == Scanned(line)[k].text;
      ScannedFixed(line)
  }

  /** The sum over every window of three consecutive rows of the middle
      row's numbers that count. */
  function WindowSum(rows: seq<string>, scanner: Scanner): nat {
    if |rows| < 3 then 0
    else
      var prev, cur, next := rows[|rows| - 3], rows[|rows| - 2], rows[|rows| - 1];
      WindowSum(rows[..|rows| - 1], scanner) + PartSum(prev, cur, next, Numbers(scanner, cur))
  }

  /** `process_part1`: with a padding line above and below, the sum of the
      part numbers of every line. An empty input has no first line, and a
      line made of digits only underflows the scanner's arithmetic. */
  function Part1(input: string): (r: Option<nat>)
    ensures r.None? <==> |input| == 0 || exists k :: 0 <= k < |Lines(input)| && Full(Lines(input)[k])
  {
    var lines := Lines(input);
    if |lines| == 0 then None
    else if exists k :: 0 <= k < |lines| && Full(lines[k]) then None
    else
      var pad := Dots(|lines[0]|);
      Some(WindowSum([pad] + lines + [pad], AsWritten))
  }

  /** `process_part1` with the corrected scanner. */
  function Part1Fixed(input: string): (r: Option<nat>)
    ensures r.None? <==> |input| == 0
  {
    var lines := Lines(input);
    if |lines| == 0 then None
    else
      var pad := Dots(|lines[0]|);
      Some(WindowSum([pad] + lines + [pad], Corrected))
  }

  /** A line ending in a non-digit has no run at the last column. */
  predicate Closed(line: string) {
    |line| == 0 || !IsDigit(line[|line| - 1])
  }

  /** On a closed line both scanners record the same numbers. */
  lemma ClosedLineAgrees(line: string)
    requires Closed(line)
    ensures Numbers(AsWritten, line) == Numbers(Corrected, line)
  {
    RunsAreDigits(line, 0);
    ScannedRuns(line);
    forall k | 0 <= k < |Runs(line)|
      ensures Scanned(line)[k] == ScannedFixed(line)[k]
    {
      ScannedAgrees(line, k);
    }
  }

  lemma {:induction false} WindowSumsAgree(rows: seq<string>)
    requires forall k :: 0 <= k < |rows| ==> Closed(rows[k])
    ensures WindowSum(rows, AsWritten) == WindowSum(rows, Corrected)
  {
    if |rows| >= 3 {
      WindowSumsAgree(rows[..|rows| - 1]);
      ClosedLineAgrees(rows[|rows| - 2]);
    }
  }

  /** When no line ends in a digit the program computes the intended sum. */
  lemma Part1AgreesWhenClosed(input: string)
    requires forall k :: 0 <= k < |Lines(input)| ==> Closed(Lines(input)[k])
    ensures Part1(input) == Part1Fixed(input)
  {
    var lines := Lines(input);
    if |lines| > 0 {
      var pad := Dots(|lines[0]|);
      var rows := [pad] + lines + [pad];
      forall k | 0 <= k < |rows|
        ensures Closed(rows[k])
      {
        if 0 < k < |rows| - 1 {
          assert rows[k] == lines[k - 1];
        }
      }
      WindowSumsAgree(rows);
      forall k | 0 <= k < |lines|
        ensures !Full(lines[k])
      {
      }
    }
  }
}
