/** Day 9: a history is extrapolated by building its pyramid of successive
    differences. Models rust/solutions/day-09/src/lib.rs. */
module Mirage {
  import opened Seqs

  /** The differences of neighbouring values. */
  function Diff(s: seq<int>): (d: seq<int>)
    ensures |d| == if |s| == 0 then 0 else |s| - 1
    ensures forall i {:trigger d[i]} :: 0 <= i < |d| ==> d[i] == s[i + 1] - s[i]
  {
    if |s| == 0 then [] else seq(|s| - 1, i requires 0 <= i < |s| - 1 => s[i + 1] - s[i])
  }

  /** Every value is zero (vacuously so for an empty row). */
  predicate AllZero(s: seq<int>) {
    forall i :: 0 <= i < |s| ==> s[i] == 0
  }

  /** The pyramid of `get_history_pyramid`: the input, then each difference row
      in turn, stopping before the first all-zero difference row. */
  function Pyramid(s: seq<int>): (rows: seq<seq<int>>)
    ensures |rows| >= 1 && rows[0] == s
    decreases |s|
  {
    var d := Diff(s);
    if AllZero(d) then [s] else [s] + Pyramid(d)
  }

  /** The shape of the pyramid: each row is the difference row of the one
      above, one shorter; the rows pushed below the input are non-empty and not
      all zero; the bottom row's differences are all zero, so it is constant. */
  lemma PyramidShape(s: seq<int>)
    ensures var rows := Pyramid(s);
      (forall k :: 0 <= k < |rows| - 1 ==> rows[k + 1] == Diff(rows[k]) && |rows[k + 1]| == |rows[k]| - 1) &&
      (forall k :: 1 <= k < |rows| ==> |rows[k]| > 0 && !AllZero(rows[k])) &&
      AllZero(Diff(rows[|rows| - 1]))
  {
    PyramidSteps(s);
    PyramidRows(s);
    PyramidBottomRow(s);
  }

  lemma {:induction false} PyramidSteps(s: seq<int>)
    ensures var rows := Pyramid(s);
      forall k :: 0 <= k < |rows| - 1 ==> rows[k + 1] == Diff(rows[k]) && |rows[k + 1]| == |rows[k]| - 1
    decreases |s|
  {
    var d := Diff(s);
    if !AllZero(d) {
      PyramidSteps(d);
      PyramidTail(s);
    }
  }

  lemma {:induction false} PyramidRows(s: seq<int>)
    ensures var rows := Pyramid(s);
      forall k :: 1 <= k < |rows| ==> |rows[k]| > 0 && !AllZero(rows[k])
    decreases |s|
  {
    var d := Diff(s);
    if !AllZero(d) {
      PyramidRows(d);
      PyramidTail(s);
    }
  }

  lemma PyramidBottomRow(s: seq<int>)
    ensures var rows := Pyramid(s);
      AllZero(Diff(rows[|rows| - 1]))
  {
    PyramidEndsAtBottom(s);
    BottomSettles(s);
  }

  /** The row reached by taking differences until they are all zero. */
  ghost function Bottom(s: seq<int>): seq<int>
    decreases |s|
  {
    var d := Diff(s);
    if AllZero(d) then s else Bottom(d)
  }

  lemma {:induction false} BottomSettles(s: seq<int>)
    ensures AllZero(Diff(Bottom(s)))
    decreases |s|
  {
    var d := Diff(s);
    if !AllZero(d) {
      BottomSettles(d);
    }
  }

  lemma {:induction false} PyramidEndsAtBottom(s: seq<int>)
    ensures Pyramid(s)[|Pyramid(s)| - 1] == Bottom(s)
    decreases |s|
  {
    var d := Diff(s);
    if !AllZero(d) {
      PyramidTail(s);
      LastOfTail(Pyramid(s), Pyramid(d));
      PyramidEndsAtBottom(d);
    }
  }

  /** Below a row whose differences are not all zero comes the pyramid of
      those differences. */
  lemma PyramidTail(s: seq<int>)
    requires !AllZero(Diff(s))
    ensures Pyramid(s)[1..] == Pyramid(Diff(s))
  {
    assert Pyramid(s) == [s] + Pyramid(Diff(s));
  }

  /** The inner `for` loop of `get_history_pyramid`: the difference row. */
  method DiffRow(source: seq<int>) returns (nextRow: seq<int>)
    ensures nextRow == Diff(source)
  {
    nextRow := [];
    var i := 1;
    while i < |source|
      invariant 1 <= i
      invariant i <= if |source| == 0 then 1 else |source|
      invariant |nextRow| == i - 1
      invariant forall j {:trigger nextRow[j]} :: 0 <= j < |nextRow| ==> nextRow[j] == source[j + 1] - source[j]
    {
      nextRow := nextRow + [source[i] - source[i - 1]];
      i := i + 1;
    }
  }

  /** `get_history_pyramid`: a `loop` that pushes difference rows until the
      next one would be all zero. */
  method HistoryPyramid(input: seq<int>) returns (differences: seq<seq<int>>)
    ensures differences == Pyramid(input)
  {
    differences := [input];
    ghost var above: seq<seq<int>> := [];
    while true
      invariant |differences| >= 1
      invariant differences == above + [differences[|differences| - 1]]
      invariant above + Pyramid(differences[|differences| - 1]) == Pyramid(input)
      decreases |differences[|differences| - 1]|
    {
      var source := differences[|differences| - 1];
      var nextRow := DiffRow(source);
      if forall v | v in nextRow :: v == 0 {
        PyramidStops(source);
        break;
      }
      PushRow(above, source);
      above := above + [source];
      differences := differences + [nextRow];
    }
  }

  /** The pyramid of a row whose differences are all zero is that row alone. */
  lemma PyramidStops(source: seq<int>)
    requires forall v | v in Diff(source) :: v == 0
    ensures Pyramid(source) == [source]
  {
    var d := Diff(source);
    forall i | 0 <= i < |d|
      ensures d[i] == 0
    {
      assert d[i] in d;
    }
  }

  /** Pushing one difference row keeps the rest of the pyramid to build. */
  lemma PushRow(above: seq<seq<int>>, source: seq<int>)
    requires !(forall v | v in Diff(source) :: v == 0)
    ensures |Diff(source)| < |source|
    ensures above + Pyramid(source) == (above + [source]) + Pyramid(Diff(source))
  {
    var d := Diff(source);
    assert !AllZero(d);
    var rest := Pyramid(d);
    assert Pyramid(source) == [source] + rest;
    Associative(above, source, rest);
  }

  lemma Associative<T>(s: seq<T>, x: T, t: seq<T>)
    ensures s + ([x] + t) == (s + [x]) + t
  {
  }

  /** The extrapolated next value, defined on the history itself: the last
      value plus the next value of the differences, unless these are all zero. */
  function Next(s: seq<int>): int
    requires |s| > 0
    decreases |s|
  {
    var d := Diff(s);
    if AllZero(d) then s[|s| - 1] else s[|s| - 1] + Next(d)
  }

  /** The extrapolated previous value: the first value minus the previous
      value of the differences, unless these are all zero. */
  function Prev(s: seq<int>): int
    requires |s| > 0
    decreases |s|
  {
    var d := Diff(s);
    if AllZero(d) then s[0] else s[0] - Prev(d)
  }

  /** Appending to a non-empty row appends one difference. */
  lemma DiffSnoc(s: seq<int>, x: int)
    requires |s| > 0
    ensures Diff(s + [x]) == Diff(s) + [x - s[|s| - 1]]
  {
    var t := s + [x];
    var d, expected := Diff(t), Diff(s) + [x - s[|s| - 1]];
    assert forall i :: 0 <= i < |d| ==> d[i] == expected[i];
  }

  /** Prepending to a non-empty row prepends one difference. */
  lemma DiffCons(x: int, s: seq<int>)
    requires |s| > 0
    ensures Diff([x] + s) == [s[0] - x] + Diff(s)
  {
    var t := [x] + s;
    var d, expected := Diff(t), [s[0] - x] + Diff(s);
    forall i | 0 <= i < |d|
      ensures d[i] == expected[i]
    {
      if i > 0 {
        assert t[i] == s[i - 1] && t[i + 1] == s[i];
      }
    }
  }

  /** Every row extended by its own extrapolated next value. */
  predicate ExtendedAtEnd(rows: seq<seq<int>>, extended: seq<seq<int>>) {
    |extended| == |rows| &&
    forall k :: 0 <= k < |rows| ==> |rows[k]| > 0 && extended[k] == rows[k] + [Next(rows[k])]
  }

  /** Every row extended by its own extrapolated previous value. */
  predicate ExtendedAtStart(rows: seq<seq<int>>, extended: seq<seq<int>>) {
    |extended| == |rows| &&
    forall k :: 0 <= k < |rows| ==> |rows[k]| > 0 && extended[k] == [Prev(rows[k])] + rows[k]
  }

  /** Appending the extrapolated value appends to every row of the pyramid its
      own extrapolated value, and adds no row: the bottom row stays constant. */
  lemma {:induction false} NextExtendsPyramid(s: seq<int>)
    requires |s| > 0
    ensures ExtendedAtEnd(Pyramid(s), Pyramid(s + [Next(s)]))
    decreases |s|
  {
    var d := Diff(s);
    var t := s + [Next(s)];
    DiffSnoc(s, Next(s));
    if AllZero(d) {
      assert AllZero(Diff(t));
    } else {
      var dn := Next(d);
      assert Diff(t) == d + [dn];
      NotAllZeroExtend(d, dn);
      NextExtendsPyramid(d);
      ConsAtEnd(s, t, Pyramid(d), Pyramid(d + [dn]));
    }
  }

  /** Prepending the extrapolated previous value prepends to every row of the
      pyramid its own extrapolated previous value, and adds no row. */
  lemma {:induction false} PrevExtendsPyramid(s: seq<int>)
    requires |s| > 0
    ensures ExtendedAtStart(Pyramid(s), Pyramid([Prev(s)] + s))
    decreases |s|
  {
    var d := Diff(s);
    var t := [Prev(s)] + s;
    DiffCons(Prev(s), s);
    if AllZero(d) {
      assert AllZero(Diff(t));
    } else {
      var dp := Prev(d);
      assert Diff(t) == [dp] + d;
      NotAllZeroExtend(d, dp);
      PrevExtendsPyramid(d);
      ConsAtStart(s, t, Pyramid(d), Pyramid([dp] + d));
    }
  }

  /** A row not all zero stays so with a value added at either end. */
  lemma NotAllZeroExtend(d: seq<int>, x: int)
    requires !AllZero(d)
    ensures !AllZero(d + [x]) && !AllZero([x] + d)
  {
    var i :| 0 <= i < |d| && d[i] != 0;
    assert (d + [x])[i] == d[i];
    assert ([x] + d)[i + 1] == d[i];
  }

  /** One row extended at its end on top of rows so extended. */
  lemma ConsAtEnd(s: seq<int>, t: seq<int>, rows: seq<seq<int>>, extended: seq<seq<int>>)
    requires |s| > 0 && t == s + [Next(s)] && ExtendedAtEnd(rows, extended)
    ensures ExtendedAtEnd([s] + rows, [t] + extended)
  {
    var r, e := [s] + rows, [t] + extended;
    forall k | 0 <= k < |r|
      ensures |r[k]| > 0 && e[k] == r[k] + [Next(r[k])]
    {
      if k > 0 {
        assert r[k] == rows[k - 1];
        assert e[k] == extended[k - 1];
      }
    }
  }

  /** One row extended at its start on top of rows so extended. */
  lemma ConsAtStart(s: seq<int>, t: seq<int>, rows: seq<seq<int>>, extended: seq<seq<int>>)
    requires |s| > 0 && t == [Prev(s)] + s && ExtendedAtStart(rows, extended)
    ensures ExtendedAtStart([s] + rows, [t] + extended)
  {
    var r, e := [s] + rows, [t] + extended;
    forall k | 0 <= k < |r|
      ensures |r[k]| > 0 && e[k] == [Prev(r[k])] + r[k]
    {
      if k > 0 {
        assert r[k] == rows[k - 1];
        assert e[k] == extended[k - 1];
      }
    }
  }

  /** Every row has a last (and first) element. */
  predicate NonEmptyRows(rows: seq<seq<int>>) {
    forall k :: 0 <= k < |rows| ==> |rows[k]| > 0
  }

  /** `get_next_value`: the sum of the last values of all rows. An empty row
      would make the Rust `unwrap` panic. */
  function NextValue(rows: seq<seq<int>>): int
    requires NonEmptyRows(rows)
  {
    if |rows| == 0 then 0 else rows[0][|rows[0]| - 1] + NextValue(rows[1..])
  }

  /** The pyramid of a non-empty history has no empty row. */
  lemma PyramidRowsNonEmpty(s: seq<int>)
    requires |s| > 0
    ensures NonEmptyRows(Pyramid(s))
  {
    PyramidShape(s);
  }

  /** Summing the last values of the pyramid computes the extrapolated value. */
  lemma {:induction false} NextValueIsNext(s: seq<int>)
    requires |s| > 0
    ensures NonEmptyRows(Pyramid(s)) && NextValue(Pyramid(s)) == Next(s)
    decreases |s|
  {
    PyramidRowsNonEmpty(s);
    var d := Diff(s);
    if !AllZero(d) {
      NextValueIsNext(d);
      PyramidTail(s);
    }
  }

  /** The first value of every row. */
  function Firsts(rows: seq<seq<int>>): (fs: seq<int>)
    requires NonEmptyRows(rows)
    ensures |fs| == |rows|
    ensures forall k :: 0 <= k < |rows| ==> fs[k] == rows[k][0]
  {
    if |rows| == 0 then [] else [rows[0][0]] + Firsts(rows[1..])
  }

  /** `reduce(|acc, next| next - acc)` continued from `acc` over `rest`. */
  function ReduceSub(acc: int, rest: seq<int>): int
    decreases |rest|
  {
    if |rest| == 0 then acc else ReduceSub(rest[0] - acc, rest[1..])
  }

  /** `get_prev_value`: the first values, reversed and reduced with
      `next - acc`. No row may be empty, and there must be a row. */
  function PrevValue(rows: seq<seq<int>>): int
    requires |rows| > 0 && NonEmptyRows(rows)
  {
    var r := Reverse(Firsts(rows));
    ReduceSub(r[0], r[1..])
  }

  /** f0 - (f1 - (f2 - ... - fk)), the alternating form of the reduction. */
  function Alternating(fs: seq<int>): int
    requires |fs| > 0
  {
    if |fs| == 1 then fs[0] else fs[0] - Alternating(fs[1..])
  }

  lemma {:induction false} ReduceSubSnoc(acc: int, rest: seq<int>, x: int)
    decreases |rest|
    ensures ReduceSub(acc, rest + [x]) == x - ReduceSub(acc, rest)
  {
    if |rest| > 0 {
      assert (rest + [x])[1..] == rest[1..] + [x];
      ReduceSubSnoc(rest[0] - acc, rest[1..], x);
    }
  }

  /** The reversed reduction is the alternating difference of the first values. */
  lemma {:induction false} ReduceIsAlternating(fs: seq<int>)
    requires |fs| > 0
    ensures var r := Reverse(fs); ReduceSub(r[0], r[1..]) == Alternating(fs)
  {
    if |fs| > 1 {
      var r := Reverse(fs);
      var r' := Reverse(fs[1..]);
      ReduceIsAlternating(fs[1..]);
      assert r == r' + [fs[0]];
      assert r[1..] == r'[1..] + [fs[0]];
      ReduceSubSnoc(r'[0], r'[1..], fs[0]);
    }
  }

  /** The reduction over the pyramid computes the extrapolated previous value. */
  lemma {:induction false} PrevValueIsPrev(s: seq<int>)
    requires |s| > 0
    ensures NonEmptyRows(Pyramid(s)) && PrevValue(Pyramid(s)) == Prev(s)
    decreases |s|
  {
    PyramidRowsNonEmpty(s);
    ReduceIsAlternating(Firsts(Pyramid(s)));
    AlternatingIsPrev(s);
  }

  lemma {:induction false} AlternatingIsPrev(s: seq<int>)
    requires |s| > 0
    ensures NonEmptyRows(Pyramid(s)) && Alternating(Firsts(Pyramid(s))) == Prev(s)
    decreases |s|
  {
    PyramidRowsNonEmpty(s);
    var d := Diff(s);
    if !AllZero(d) {
      AlternatingIsPrev(d);
      PyramidTail(s);
      assert Firsts(Pyramid(s))[1..] == Firsts(Pyramid(d));
    }
  }

  /** The independently defined next values of the histories, added up. */
  function SumNext(histories: seq<seq<int>>): int
    requires forall h :: h in histories ==> |h| > 0
  {
    if |histories| == 0 then 0 else Next(histories[0]) + SumNext(histories[1..])
  }

  /** The independently defined previous values of the histories, added up. */
  function SumPrev(histories: seq<seq<int>>): int
    requires forall h :: h in histories ==> |h| > 0
  {
    if |histories| == 0 then 0 else Prev(histories[0]) + SumPrev(histories[1..])
  }

  /** Part 1: the extrapolated next values of all histories added up; an empty
      history would panic. */
  function Part1(histories: seq<seq<int>>): (r: int)
    requires forall h :: h in histories ==> |h| > 0
    ensures r == SumNext(histories)
  {
    if |histories| == 0 then 0
    else
      NextValueIsNext(histories[0]);
      NextValue(Pyramid(histories[0])) + Part1(histories[1..])
  }

  /** Part 2: the extrapolated previous values of all histories added up. */
  function Part2(histories: seq<seq<int>>): (r: int)
    requires forall h :: h in histories ==> |h| > 0
    ensures r == SumPrev(histories)
  {
    if |histories| == 0 then 0
    else
      PrevValueIsPrev(histories[0]);
      PrevValue(Pyramid(histories[0])) + Part2(histories[1..])
  }

  /** The three example histories. */
  const Example: seq<seq<int>> := [[0, 3, 6, 9, 12, 15], [1, 3, 6, 10, 15, 21], [10, 13, 16, 21, 30, 45]]

  lemma PyramidStep(s: seq<int>, d: seq<int>, i: nat, below: seq<seq<int>>)
    requires d == Diff(s) && i < |d| && d[i] != 0 && Pyramid(d) == below
    ensures Pyramid(s) == [s] + below
  {
  }

  lemma PyramidBottom(s: seq<int>, d: seq<int>)
    requires d == Diff(s) && AllZero(d)
    ensures Pyramid(s) == [s]
  {
  }

  lemma ExamplePyramid1()
    ensures Pyramid([0, 3, 6, 9, 12, 15]) == [[0, 3, 6, 9, 12, 15], [3, 3, 3, 3, 3]]
  {
    PyramidBottom([3, 3, 3, 3, 3], [0, 0, 0, 0]);
    PyramidStep([0, 3, 6, 9, 12, 15], [3, 3, 3, 3, 3], 0, [[3, 3, 3, 3, 3]]);
  }

  lemma ExamplePyramid2()
    ensures Pyramid([1, 3, 6, 10, 15, 21]) == [[1, 3, 6, 10, 15, 21], [2, 3, 4, 5, 6], [1, 1, 1, 1]]
  {
    PyramidBottom([1, 1, 1, 1], [0, 0, 0]);
    PyramidStep([2, 3, 4, 5, 6], [1, 1, 1, 1], 0, [[1, 1, 1, 1]]);
    PyramidStep([1, 3, 6, 10, 15, 21], [2, 3, 4, 5, 6], 0, [[2, 3, 4, 5, 6], [1, 1, 1, 1]]);
  }

  lemma ExamplePyramid3()
    ensures Pyramid([10, 13, 16, 21, 30, 45]) == [[10, 13, 16, 21, 30, 45], [3, 3, 5, 9, 15], [0, 2, 4, 6], [2, 2, 2]]
  {
    ExamplePyramid3Below();
    PyramidStep([10, 13, 16, 21, 30, 45], [3, 3, 5, 9, 15], 0, [[3, 3, 5, 9, 15], [0, 2, 4, 6], [2, 2, 2]]);
  }

  lemma ExamplePyramid3Below()
    ensures Pyramid([3, 3, 5, 9, 15]) == [[3, 3, 5, 9, 15], [0, 2, 4, 6], [2, 2, 2]]
  {
    PyramidBottom([2, 2, 2], [0, 0]);
    PyramidStep([0, 2, 4, 6], [2, 2, 2], 0, [[2, 2, 2]]);
    PyramidStep([3, 3, 5, 9, 15], [0, 2, 4, 6], 1, [[0, 2, 4, 6], [2, 2, 2]]);
  }

  lemma Part1Cons(h: seq<int>, rest: seq<seq<int>>)
    requires |h| > 0 && forall r :: r in rest ==> |r| > 0
    ensures NonEmptyRows(Pyramid(h))
    ensures Part1([h] + rest) == NextValue(Pyramid(h)) + Part1(rest)
  {
    PyramidRowsNonEmpty(h);
    assert ([h] + rest)[1..] == rest;
  }

  lemma Part2Cons(h: seq<int>, rest: seq<seq<int>>)
    requires |h| > 0 && forall r :: r in rest ==> |r| > 0
    ensures NonEmptyRows(Pyramid(h))
    ensures Part2([h] + rest) == PrevValue(Pyramid(h)) + Part2(rest)
  {
    PyramidRowsNonEmpty(h);
    assert ([h] + rest)[1..] == rest;
  }

  lemma ExtrapolateStep(s: seq<int>, d: seq<int>, i: nat, next: int, prev: int)
    requires |s| > 0 && d == Diff(s) && i < |d| && d[i] != 0 && Next(d) == next && Prev(d) == prev
    ensures Next(s) == s[|s| - 1] + next && Prev(s) == s[0] - prev
  {
  }

  lemma ExtrapolateBottom(s: seq<int>, d: seq<int>)
    requires |s| > 0 && d == Diff(s) && AllZero(d)
    ensures Next(s) == s[|s| - 1] && Prev(s) == s[0]
  {
  }

  /** The values the pyramid yields, given the extrapolations. */
  lemma PyramidValues(h: seq<int>, next: int, prev: int)
    requires |h| > 0 && Next(h) == next && Prev(h) == prev
    ensures NonEmptyRows(Pyramid(h))
    ensures NextValue(Pyramid(h)) == next && PrevValue(Pyramid(h)) == prev
  {
    NextValueIsNext(h);
    PrevValueIsPrev(h);
  }

  lemma ExampleExtrapolate1(h: seq<int>)
    requires h == [0, 3, 6, 9, 12, 15]
    ensures Next(h) == 18 && Prev(h) == -3
  {
    ExtrapolateBottom([3, 3, 3, 3, 3], [0, 0, 0, 0]);
    ExtrapolateStep([0, 3, 6, 9, 12, 15], [3, 3, 3, 3, 3], 0, 3, 3);
  }

  lemma ExampleExtrapolate2(h: seq<int>)
    requires h == [1, 3, 6, 10, 15, 21]
    ensures Next(h) == 28 && Prev(h) == 0
  {
    ExtrapolateBottom([1, 1, 1, 1], [0, 0, 0]);
    ExtrapolateStep([2, 3, 4, 5, 6], [1, 1, 1, 1], 0, 1, 1);
    ExtrapolateStep([1, 3, 6, 10, 15, 21], [2, 3, 4, 5, 6], 0, 7, 1);
  }

  lemma ExampleExtrapolate3(h: seq<int>)
    requires h == [10, 13, 16, 21, 30, 45]
    ensures Next(h) == 68 && Prev(h) == 5
  {
    ExtrapolateBottom([2, 2, 2], [0, 0]);
    ExtrapolateStep([0, 2, 4, 6], [2, 2, 2], 0, 2, 2);
    ExtrapolateStep([3, 3, 5, 9, 15], [0, 2, 4, 6], 1, 8, -2);
    ExtrapolateStep([10, 13, 16, 21, 30, 45], [3, 3, 5, 9, 15], 0, 23, 5);
  }

  /** The example extrapolates to 18 + 28 + 68 = 114 forwards and to
      -3 + 0 + 5 = 2 backwards. */
  lemma ExampleParts(h1: seq<int>, h2: seq<int>, h3: seq<int>)
    requires h1 == [0, 3, 6, 9, 12, 15] && h2 == [1, 3, 6, 10, 15, 21] && h3 == [10, 13, 16, 21, 30, 45]
    ensures Part1([h1, h2, h3]) == 114
    ensures Part2([h1, h2, h3]) == 2
  {
    ExampleExtrapolate1(h1);
    ExampleExtrapolate2(h2);
    ExampleExtrapolate3(h3);
    SumsOfThree(h1, h2, h3, 18, 28, 68, -3, 0, 5);
  }

  /** The answers over three histories add up the values of their pyramids. */
  lemma PyramidsOfThree(h1: seq<int>, h2: seq<int>, h3: seq<int>)
    requires |h1| > 0 && |h2| > 0 && |h3| > 0
    ensures NonEmptyRows(Pyramid(h1)) && NonEmptyRows(Pyramid(h2)) && NonEmptyRows(Pyramid(h3))
    ensures Part1([h1, h2, h3]) == NextValue(Pyramid(h1)) + NextValue(Pyramid(h2)) + NextValue(Pyramid(h3))
    ensures Part2([h1, h2, h3]) == PrevValue(Pyramid(h1)) + PrevValue(Pyramid(h2)) + PrevValue(Pyramid(h3))
  {
    var last: seq<seq<int>> := [h3];
    var tail := [h2] + last;
    assert [h3] + [] == last;
    assert [h1] + tail == [h1, h2, h3];
    Part1Cons(h3, []);
    Part1Cons(h2, last);
    Part1Cons(h1, tail);
    Part2Cons(h3, []);
    Part2Cons(h2, last);
    Part2Cons(h1, tail);
  }

  /** The answers over three histories are the sums of their extrapolations. */
  lemma SumsOfThree(h1: seq<int>, h2: seq<int>, h3: seq<int>, n1: int, n2: int, n3: int, p1: int, p2: int, p3: int)
    requires |h1| > 0 && |h2| > 0 && |h3| > 0
    requires Next(h1) == n1 && Next(h2) == n2 && Next(h3) == n3
    requires Prev(h1) == p1 && Prev(h2) == p2 && Prev(h3) == p3
    ensures Part1([h1, h2, h3]) == n1 + n2 + n3
    ensures Part2([h1, h2, h3]) == p1 + p2 + p3
  {
    PyramidsOfThree(h1, h2, h3);
    PyramidValues(h1, n1, p1);
    PyramidValues(h2, n2, p2);
    PyramidValues(h3, n3, p3);
  }

  lemma ExampleAnswers()
    ensures Part1(Example) == 114 && Part2(Example) == 2
  {
    ExampleParts(Example[0], Example[1], Example[2]);
    assert Example == [Example[0], Example[1], Example[2]];
  }
}
