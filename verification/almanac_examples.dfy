/** The worked example of rust/solutions/day-05/src/lib.rs: seeds 79, 14, 55, 13
    through the seven blocks give 35 point by point and 46 as ranges. */
module AlmanacExamples {
  import opened Almanac
  import opened Wrappers
  import AlmanacTable

  /** The seven blocks of the example almanac, seed-to-soil first. */
  const Blocks: seq<Block> := [
    [RangeSpec(50, 98, 2), RangeSpec(52, 50, 48)],
    [RangeSpec(0, 15, 37), RangeSpec(37, 52, 2), RangeSpec(39, 0, 15)],
    [RangeSpec(49, 53, 8), RangeSpec(0, 11, 42), RangeSpec(42, 0, 7), RangeSpec(57, 7, 4)],
    [RangeSpec(88, 18, 7), RangeSpec(18, 25, 70)],
    [RangeSpec(45, 77, 23), RangeSpec(81, 45, 19), RangeSpec(68, 64, 13)],
    [RangeSpec(0, 69, 1), RangeSpec(1, 0, 69)],
    [RangeSpec(60, 56, 37), RangeSpec(56, 93, 4)]
  ]

  lemma ExampleSeed79()
    ensures Locate(Blocks, 79) == 82
  {
    var xs := [79, 81, 81, 81, 74, 78, 78, 82];
    assert MapValue(Blocks[0], xs[0]) == xs[1];
    assert MapValue(Blocks[1], xs[1]) == xs[2];
    assert MapValue(Blocks[2], xs[2]) == xs[3];
    assert MapValue(Blocks[3], xs[3]) == xs[4];
    assert MapValue(Blocks[4], xs[4]) == xs[5];
    assert MapValue(Blocks[5], xs[5]) == xs[6];
    assert MapValue(Blocks[6], xs[6]) == xs[7];
    LocateSteps(Blocks, xs);
  }

  lemma ExampleSeed14()
    ensures Locate(Blocks, 14) == 43
  {
    var xs := [14, 14, 53, 49, 42, 42, 43, 43];
    assert MapValue(Blocks[0], xs[0]) == xs[1];
    assert MapValue(Blocks[1], xs[1]) == xs[2];
    assert MapValue(Blocks[2], xs[2]) == xs[3];
    assert MapValue(Blocks[3], xs[3]) == xs[4];
    assert MapValue(Blocks[4], xs[4]) == xs[5];
    assert MapValue(Blocks[5], xs[5]) == xs[6];
    assert MapValue(Blocks[6], xs[6]) == xs[7];
    LocateSteps(Blocks, xs);
  }

  lemma ExampleSeed55()
    ensures Locate(Blocks, 55) == 86
  {
    var xs := [55, 57, 57, 53, 46, 82, 82, 86];
    assert MapValue(Blocks[0], xs[0]) == xs[1];
    assert MapValue(Blocks[1], xs[1]) == xs[2];
    assert MapValue(Blocks[2], xs[2]) == xs[3];
    assert MapValue(Blocks[3], xs[3]) == xs[4];
    assert MapValue(Blocks[4], xs[4]) == xs[5];
    assert MapValue(Blocks[5], xs[5]) == xs[6];
    assert MapValue(Blocks[6], xs[6]) == xs[7];
    LocateSteps(Blocks, xs);
  }

  lemma ExampleSeed13()
    ensures Locate(Blocks, 13) == 35
  {
    var xs := [13, 13, 52, 41, 34, 34, 35, 35];
    assert MapValue(Blocks[0], xs[0]) == xs[1];
    assert MapValue(Blocks[1], xs[1]) == xs[2];
    assert MapValue(Blocks[2], xs[2]) == xs[3];
    assert MapValue(Blocks[3], xs[3]) == xs[4];
    assert MapValue(Blocks[4], xs[4]) == xs[5];
    assert MapValue(Blocks[5], xs[5]) == xs[6];
    assert MapValue(Blocks[6], xs[6]) == xs[7];
    LocateSteps(Blocks, xs);
  }

  lemma ExamplePart1()
    ensures Part1([79, 14, 55, 13], Blocks) == 35
  {
    var seeds := [79, 14, 55, 13];
    forall i | 0 <= i < |seeds|
      ensures Locate(Blocks, seeds[i]) >= 35
    {
      if i == 0 { ExampleSeed79(); }
      else if i == 1 { ExampleSeed14(); }
      else if i == 2 { ExampleSeed55(); }
      else { ExampleSeed13(); }
    }
    ExampleSeed13();
    assert Locate(Blocks, seeds[3]) == 35;
  }

  /** Splitting a short list splits each of its intervals on its own. */
  lemma SplitTwo(a: Interval, b: Interval, spec: RangeSpec)
    ensures SplitAll([a, b], spec)
      == (SplitAll([a], spec).0 + SplitAll([b], spec).0, SplitAll([a], spec).1 + SplitAll([b], spec).1)
  {
    SplitAppend([a], [b], spec);
    assert [a] + [b] == [a, b];
  }

  lemma SplitThree(a: Interval, b: Interval, c: Interval, spec: RangeSpec)
    ensures SplitAll([a, b, c], spec)
      == (SplitAll([a], spec).0 + SplitAll([b], spec).0 + SplitAll([c], spec).0,
          SplitAll([a], spec).1 + SplitAll([b], spec).1 + SplitAll([c], spec).1)
  {
    SplitTwo(a, b, spec);
    SplitAppend([a, b], [c], spec);
    assert [a, b] + [c] == [a, b, c];
  }

  lemma SplitFour(a: Interval, b: Interval, c: Interval, d: Interval, spec: RangeSpec)
    ensures SplitAll([a, b, c, d], spec)
      == (SplitAll([a], spec).0 + SplitAll([b], spec).0 + SplitAll([c], spec).0 + SplitAll([d], spec).0,
          SplitAll([a], spec).1 + SplitAll([b], spec).1 + SplitAll([c], spec).1 + SplitAll([d], spec).1)
  {
    SplitThree(a, b, c, spec);
    SplitAppend([a, b, c], [d], spec);
    assert [a, b, c] + [d] == [a, b, c, d];
  }

  lemma ExampleSplit00()
    ensures SplitAll([(79, 92), (55, 67)], RangeSpec(50, 98, 2)).0 == [(79, 92), (55, 67)]
    ensures SplitAll([(79, 92), (55, 67)], RangeSpec(50, 98, 2)).1 == []
  {
    SplitTwo((79, 92), (55, 67), RangeSpec(50, 98, 2));
    SplitClear((79, 92), RangeSpec(50, 98, 2));
    SplitClear((55, 67), RangeSpec(50, 98, 2));
  }

  lemma ExampleSplit01()
    ensures SplitAll([(79, 92), (55, 67)], RangeSpec(52, 50, 48)).0 == []
    ensures SplitAll([(79, 92), (55, 67)], RangeSpec(52, 50, 48)).1 == [(81, 94), (57, 69)]
  {
    SplitTwo((79, 92), (55, 67), RangeSpec(52, 50, 48));
    SplitInside((79, 92), RangeSpec(52, 50, 48));
    SplitInside((55, 67), RangeSpec(52, 50, 48));
  }

  lemma ExampleBlock0()
    ensures ApplyRanges([(79, 92), (55, 67)], Blocks[0]) == [(81, 94), (57, 69)]
  {
    ExampleSplit00();
    ApplyCons([(79, 92), (55, 67)], RangeSpec(50, 98, 2), [RangeSpec(52, 50, 48)]);
    ExampleSplit01();
    ApplyCons([(79, 92), (55, 67)], RangeSpec(52, 50, 48), []);
  }

  lemma ExampleSplit10()
    ensures SplitAll([(81, 94), (57, 69)], RangeSpec(0, 15, 37)).0 == [(81, 94), (57, 69)]
    ensures SplitAll([(81, 94), (57, 69)], RangeSpec(0, 15, 37)).1 == []
  {
    SplitTwo((81, 94), (57, 69), RangeSpec(0, 15, 37));
    SplitClear((81, 94), RangeSpec(0, 15, 37));
    SplitClear((57, 69), RangeSpec(0, 15, 37));
  }

  lemma ExampleSplit11()
    ensures SplitAll([(81, 94), (57, 69)], RangeSpec(37, 52, 2)).0 == [(81, 94), (57, 69)]
    ensures SplitAll([(81, 94), (57, 69)], RangeSpec(37, 52, 2)).1 == []
  {
    SplitTwo((81, 94), (57, 69), RangeSpec(37, 52, 2));
    SplitClear((81, 94), RangeSpec(37, 52, 2));
    SplitClear((57, 69), RangeSpec(37, 52, 2));
  }

  lemma ExampleSplit12()
    ensures SplitAll([(81, 94), (57, 69)], RangeSpec(39, 0, 15)).0 == [(81, 94), (57, 69)]
    ensures SplitAll([(81, 94), (57, 69)], RangeSpec(39, 0, 15)).1 == []
  {
    SplitTwo((81, 94), (57, 69), RangeSpec(39, 0, 15));
    SplitClear((81, 94), RangeSpec(39, 0, 15));
    SplitClear((57, 69), RangeSpec(39, 0, 15));
  }

  lemma ExampleBlock1()
    ensures ApplyRanges([(81, 94), (57, 69)], Blocks[1]) == [(81, 94), (57, 69)]
  {
    ExampleSplit10();
    ApplyCons([(81, 94), (57, 69)], RangeSpec(0, 15, 37), [RangeSpec(37, 52, 2), RangeSpec(39, 0, 15)]);
    ExampleSplit11();
    ApplyCons([(81, 94), (57, 69)], RangeSpec(37, 52, 2), [RangeSpec(39, 0, 15)]);
    ExampleSplit12();
    ApplyCons([(81, 94), (57, 69)], RangeSpec(39, 0, 15), []);
  }

  lemma ExampleSplit20()
    ensures SplitAll([(81, 94), (57, 69)], RangeSpec(49, 53, 8)).0 == [(81, 94), (61, 69)]
    ensures SplitAll([(81, 94), (57, 69)], RangeSpec(49, 53, 8)).1 == [(53, 56)]
  {
    SplitTwo((81, 94), (57, 69), RangeSpec(49, 53, 8));
    SplitClear((81, 94), RangeSpec(49, 53, 8));
    SplitOne((57, 69), RangeSpec(49, 53, 8));
  }

  lemma ExampleSplit21()
    ensures SplitAll([(81, 94), (61, 69)], RangeSpec(0, 11, 42)).0 == [(81, 94), (61, 69)]
    ensures SplitAll([(81, 94), (61, 69)], RangeSpec(0, 11, 42)).1 == []
  {
    SplitTwo((81, 94), (61, 69), RangeSpec(0, 11, 42));
    SplitClear((81, 94), RangeSpec(0, 11, 42));
    SplitClear((61, 69), RangeSpec(0, 11, 42));
  }

  lemma ExampleSplit22()
    ensures SplitAll([(81, 94), (61, 69)], RangeSpec(42, 0, 7)).0 == [(81, 94), (61, 69)]
    ensures SplitAll([(81, 94), (61, 69)], RangeSpec(42, 0, 7)).1 == []
  {
    SplitTwo((81, 94), (61, 69), RangeSpec(42, 0, 7));
    SplitClear((81, 94), RangeSpec(42, 0, 7));
    SplitClear((61, 69), RangeSpec(42, 0, 7));
  }

  lemma ExampleSplit23()
    ensures SplitAll([(81, 94), (61, 69)], RangeSpec(57, 7, 4)).0 == [(81, 94), (61, 69)]
    ensures SplitAll([(81, 94), (61, 69)], RangeSpec(57, 7, 4)).1 == []
  {
    SplitTwo((81, 94), (61, 69), RangeSpec(57, 7, 4));
    SplitClear((81, 94), RangeSpec(57, 7, 4));
    SplitClear((61, 69), RangeSpec(57, 7, 4));
  }

  lemma ExampleBlock2()
    ensures ApplyRanges([(81, 94), (57, 69)], Blocks[2]) == [(53, 56), (81, 94), (61, 69)]
  {
    ExampleSplit20();
    ApplyCons([(81, 94), (57, 69)], RangeSpec(49, 53, 8), [RangeSpec(0, 11, 42), RangeSpec(42, 0, 7), RangeSpec(57, 7, 4)]);
    ExampleSplit21();
    ApplyCons([(81, 94), (61, 69)], RangeSpec(0, 11, 42), [RangeSpec(42, 0, 7), RangeSpec(57, 7, 4)]);
    ExampleSplit22();
    ApplyCons([(81, 94), (61, 69)], RangeSpec(42, 0, 7), [RangeSpec(57, 7, 4)]);
    ExampleSplit23();
    ApplyCons([(81, 94), (61, 69)], RangeSpec(57, 7, 4), []);
  }

  lemma ExampleSplit30()
    ensures SplitAll([(53, 56), (81, 94), (61, 69)], RangeSpec(88, 18, 7)).0 == [(53, 56), (81, 94), (61, 69)]
    ensures SplitAll([(53, 56), (81, 94), (61, 69)], RangeSpec(88, 18, 7)).1 == []
  {
    SplitThree((53, 56), (81, 94), (61, 69), RangeSpec(88, 18, 7));
    SplitClear((53, 56), RangeSpec(88, 18, 7));
    SplitClear((81, 94), RangeSpec(88, 18, 7));
    SplitClear((61, 69), RangeSpec(88, 18, 7));
  }

  lemma ExampleSplit31()
    ensures SplitAll([(53, 56), (81, 94), (61, 69)], RangeSpec(18, 25, 70)).0 == []
    ensures SplitAll([(53, 56), (81, 94), (61, 69)], RangeSpec(18, 25, 70)).1 == [(46, 49), (74, 87), (54, 62)]
  {
    SplitThree((53, 56), (81, 94), (61, 69), RangeSpec(18, 25, 70));
    SplitInside((53, 56), RangeSpec(18, 25, 70));
    SplitInside((81, 94), RangeSpec(18, 25, 70));
    SplitInside((61, 69), RangeSpec(18, 25, 70));
  }

  lemma ExampleBlock3()
    ensures ApplyRanges([(53, 56), (81, 94), (61, 69)], Blocks[3]) == [(46, 49), (74, 87), (54, 62)]
  {
    ExampleSplit30();
    ApplyCons([(53, 56), (81, 94), (61, 69)], RangeSpec(88, 18, 7), [RangeSpec(18, 25, 70)]);
    ExampleSplit31();
    ApplyCons([(53, 56), (81, 94), (61, 69)], RangeSpec(18, 25, 70), []);
  }

  lemma ExampleSplit40()
    ensures SplitAll([(46, 49), (74, 87), (54, 62)], RangeSpec(45, 77, 23)).0 == [(46, 49), (74, 76), (54, 62)]
    ensures SplitAll([(46, 49), (74, 87), (54, 62)], RangeSpec(45, 77, 23)).1 == [(45, 55)]
  {
    SplitThree((46, 49), (74, 87), (54, 62), RangeSpec(45, 77, 23));
    SplitClear((46, 49), RangeSpec(45, 77, 23));
    SplitOne((74, 87), RangeSpec(45, 77, 23));
    SplitClear((54, 62), RangeSpec(45, 77, 23));
  }

  lemma ExampleSplit41()
    ensures SplitAll([(46, 49), (74, 76), (54, 62)], RangeSpec(81, 45, 19)).0 == [(74, 76)]
    ensures SplitAll([(46, 49), (74, 76), (54, 62)], RangeSpec(81, 45, 19)).1 == [(82, 85), (90, 98)]
  {
    SplitThree((46, 49), (74, 76), (54, 62), RangeSpec(81, 45, 19));
    SplitInside((46, 49), RangeSpec(81, 45, 19));
    SplitClear((74, 76), RangeSpec(81, 45, 19));
    SplitInside((54, 62), RangeSpec(81, 45, 19));
  }

  lemma ExampleSplit42()
    ensures SplitAll([(74, 76)], RangeSpec(68, 64, 13)).0 == []
    ensures SplitAll([(74, 76)], RangeSpec(68, 64, 13)).1 == [(78, 80)]
  {
    SplitInside((74, 76), RangeSpec(68, 64, 13));
  }

  lemma ExampleBlock4()
    ensures ApplyRanges([(46, 49), (74, 87), (54, 62)], Blocks[4]) == [(45, 55), (82, 85), (90, 98), (78, 80)]
  {
    ExampleSplit40();
    ApplyCons([(46, 49), (74, 87), (54, 62)], RangeSpec(45, 77, 23), [RangeSpec(81, 45, 19), RangeSpec(68, 64, 13)]);
    ExampleSplit41();
    ApplyCons([(46, 49), (74, 76), (54, 62)], RangeSpec(81, 45, 19), [RangeSpec(68, 64, 13)]);
    ExampleSplit42();
    ApplyCons([(74, 76)], RangeSpec(68, 64, 13), []);
  }

  lemma ExampleSplit50()
    ensures SplitAll([(45, 55), (82, 85), (90, 98), (78, 80)], RangeSpec(0, 69, 1)).0 == [(45, 55), (82, 85), (90, 98), (78, 80)]
    ensures SplitAll([(45, 55), (82, 85), (90, 98), (78, 80)], RangeSpec(0, 69, 1)).1 == []
  {
    SplitFour((45, 55), (82, 85), (90, 98), (78, 80), RangeSpec(0, 69, 1));
    SplitClear((45, 55), RangeSpec(0, 69, 1));
    SplitClear((82, 85), RangeSpec(0, 69, 1));
    SplitClear((90, 98), RangeSpec(0, 69, 1));
    SplitClear((78, 80), RangeSpec(0, 69, 1));
  }

  lemma ExampleSplit51()
    ensures SplitAll([(45, 55), (82, 85), (90, 98), (78, 80)], RangeSpec(1, 0, 69)).0 == [(82, 85), (90, 98), (78, 80)]
    ensures SplitAll([(45, 55), (82, 85), (90, 98), (78, 80)], RangeSpec(1, 0, 69)).1 == [(46, 56)]
  {
    SplitFour((45, 55), (82, 85), (90, 98), (78, 80), RangeSpec(1, 0, 69));
    SplitInside((45, 55), RangeSpec(1, 0, 69));
    SplitClear((82, 85), RangeSpec(1, 0, 69));
    SplitClear((90, 98), RangeSpec(1, 0, 69));
    SplitClear((78, 80), RangeSpec(1, 0, 69));
  }

  lemma ExampleBlock5()
    ensures ApplyRanges([(45, 55), (82, 85), (90, 98), (78, 80)], Blocks[5]) == [(46, 56), (82, 85), (90, 98), (78, 80)]
  {
    ExampleSplit50();
    ApplyCons([(45, 55), (82, 85), (90, 98), (78, 80)], RangeSpec(0, 69, 1), [RangeSpec(1, 0, 69)]);
    ExampleSplit51();
    ApplyCons([(45, 55), (82, 85), (90, 98), (78, 80)], RangeSpec(1, 0, 69), []);
  }

  lemma ExampleSplit60()
    ensures SplitAll([(46, 56), (82, 85), (90, 98), (78, 80)], RangeSpec(60, 56, 37)).0 == [(46, 55), (93, 98)]
    ensures SplitAll([(46, 56), (82, 85), (90, 98), (78, 80)], RangeSpec(60, 56, 37)).1 == [(60, 60), (86, 89), (94, 96), (82, 84)]
  {
    SplitFour((46, 56), (82, 85), (90, 98), (78, 80), RangeSpec(60, 56, 37));
    SplitOne((46, 56), RangeSpec(60, 56, 37));
    SplitInside((82, 85), RangeSpec(60, 56, 37));
    SplitOne((90, 98), RangeSpec(60, 56, 37));
    SplitInside((78, 80), RangeSpec(60, 56, 37));
  }

  lemma ExampleSplit61()
    ensures SplitAll([(46, 55), (93, 98)], RangeSpec(56, 93, 4)).0 == [(46, 55), (97, 98)]
    ensures SplitAll([(46, 55), (93, 98)], RangeSpec(56, 93, 4)).1 == [(56, 59)]
  {
    SplitTwo((46, 55), (93, 98), RangeSpec(56, 93, 4));
    SplitClear((46, 55), RangeSpec(56, 93, 4));
    SplitOne((93, 98), RangeSpec(56, 93, 4));
  }

  lemma ExampleBlock6()
    ensures ApplyRanges([(46, 56), (82, 85), (90, 98), (78, 80)], Blocks[6]) == [(60, 60), (86, 89), (94, 96), (82, 84), (56, 59), (46, 55), (97, 98)]
  {
    ExampleSplit60();
    ApplyCons([(46, 56), (82, 85), (90, 98), (78, 80)], RangeSpec(60, 56, 37), [RangeSpec(56, 93, 4)]);
    ExampleSplit61();
    ApplyCons([(46, 55), (93, 98)], RangeSpec(56, 93, 4), []);
  }

  lemma ExampleFold()
    ensures FoldRanges([(79, 92), (55, 67)], Blocks)
      == [(60, 60), (86, 89), (94, 96), (82, 84), (56, 59), (46, 55), (97, 98)]
  {
    ExampleFoldFirst();
    ExampleFoldSecond();
    FoldAppend([(79, 92), (55, 67)], Blocks[..3], Blocks[3..]);
    assert Blocks[..3] + Blocks[3..] == Blocks;
  }

  /** Seed to soil, soil to fertilizer, fertilizer to water. */
  lemma ExampleFoldFirst()
    ensures FoldRanges([(79, 92), (55, 67)], Blocks[..3]) == [(53, 56), (81, 94), (61, 69)]
  {
    ExampleBlock0();
    ExampleBlock1();
    ExampleBlock2();
    FoldSteps(Blocks[..3], [
      [(79, 92), (55, 67)],
      [(81, 94), (57, 69)],
      [(81, 94), (57, 69)],
      [(53, 56), (81, 94), (61, 69)]
    ]);
  }

  /** Water to light, light to temperature, temperature to humidity, humidity
      to location. */
  lemma ExampleFoldSecond()
    ensures FoldRanges([(53, 56), (81, 94), (61, 69)], Blocks[3..])
      == [(60, 60), (86, 89), (94, 96), (82, 84), (56, 59), (46, 55), (97, 98)]
  {
    ExampleBlock3();
    ExampleBlock4();
    ExampleBlock5();
    ExampleBlock6();
    FoldSteps(Blocks[3..], [
      [(53, 56), (81, 94), (61, 69)],
      [(46, 49), (74, 87), (54, 62)],
      [(45, 55), (82, 85), (90, 98), (78, 80)],
      [(46, 56), (82, 85), (90, 98), (78, 80)],
      [(60, 60), (86, 89), (94, 96), (82, 84), (56, 59), (46, 55), (97, 98)]
    ]);
  }

  lemma ExampleMin()
    ensures Min(LeftEnds([(60, 60), (86, 89), (94, 96), (82, 84), (56, 59), (46, 55), (97, 98)])) == 46
  {
    assert LeftEnds([(60, 60), (86, 89), (94, 96), (82, 84), (56, 59), (46, 55), (97, 98)]) == [60, 86, 94, 82, 56, 46, 97];
    MinOfEnds([60, 86, 94, 82, 56, 46, 97]);
  }

  lemma MinOfEnds(ends: seq<int>)
    requires ends == [60, 86, 94, 82, 56, 46, 97]
    ensures Min(ends) == 46
  {
    assert ends[5] == 46;
  }

  lemma ExamplePart2()
    ensures Part2([(79, 14), (55, 13)], Blocks) == Some(46)
  {
    assert SeedRanges([(79, 14), (55, 13)]) == [(79, 92), (55, 67)];
    ExampleFold();
    ExampleMin();
  }

  /** The example blocks have pairwise disjoint source ranges, so the table
      draft of temp2.rs gives the same 35. */
  lemma ExampleTablePart1()
    ensures AlmanacTable.Part1([79, 14, 55, 13], Blocks) == 35
  {
    forall i | 0 <= i < |Blocks|
      ensures AlmanacTable.PairwiseDisjoint(Blocks[i])
    {
    }
    AlmanacTable.Part1Agrees([79, 14, 55, 13], Blocks);
    ExamplePart1();
  }
}
