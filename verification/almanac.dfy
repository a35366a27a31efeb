/** Day 5: seeds pushed through a chain of range maps, point by point (part 1)
    and as whole intervals (part 2). Models rust/solutions/day-05/src/lib.rs. */
module Almanac {
  import opened Wrappers

  /** One line of a map block: the source range [sourceStart, sourceStart + length)
      is moved to start at destStart. */
  datatype RangeSpec = RangeSpec(destStart: int, sourceStart: int, length: int)

  /** A map block, in the order of its lines. */
  type Block = seq<RangeSpec>

  predicate InSource(spec: RangeSpec, x: int) {
    spec.sourceStart <= x < spec.sourceStart + spec.length
  }

  function Offset(spec: RangeSpec): int {
    spec.destStart - spec.sourceStart
  }

  /** The index of the first spec whose source range holds `x`, or |specs| if none does. */
  function FirstMatch(specs: Block, x: int): (k: nat)
    ensures k <= |specs|
    ensures k < |specs| ==> InSource(specs[k], x)
    ensures forall j :: 0 <= j < k ==> !InSource(specs[j], x)
  {
    if |specs| == 0 then 0
    else if InSource(specs[0], x) then 0
    else 1 + FirstMatch(specs[1..], x)
  }

  /** The point mapping of one block: the first spec whose source range holds
      `current` shifts it; a value no spec holds is unchanged. */
  function MapValue(specs: Block, current: int): (r: int)
    ensures var k := FirstMatch(specs, current);
      r == if k < |specs| then current + Offset(specs[k]) else current
  {
    if |specs| == 0 then current
    else if InSource(specs[0], current) then specs[0].destStart + current - specs[0].sourceStart
    else MapValue(specs[1..], current)
  }

  /** The search loop of `process_part1` for one block, with its early return. */
  method Lookup(specs: Block, current: int) returns (r: int)
    ensures r == MapValue(specs, current)
  {
    for i := 0 to |specs|
      invariant forall j :: 0 <= j < i ==> !InSource(specs[j], current)
    {
      var spec := specs[i];
      if current >= spec.sourceStart && current < spec.sourceStart + spec.length {
        assert FirstMatch(specs, current) == i;
        return spec.destStart + current - spec.sourceStart;
      }
    }
    assert FirstMatch(specs, current) == |specs|;
    return current;
  }

  /** A value pushed through every block in order (the fold of `process_part1`). */
  function Locate(blocks: seq<Block>, current: int): int
  {
    if |blocks| == 0 then current else Locate(blocks[1..], MapValue(blocks[0], current))
  }

  /** The least element of a non-empty sequence. */
  function Min(s: seq<int>): (m: int)
    requires |s| > 0
    ensures m in s && forall i :: 0 <= i < |s| ==> m <= s[i]
  {
    if |s| == 1 then s[0]
    else var rest := Min(s[1..]); if s[0] <= rest then s[0] else rest
  }

  /** `locations.min().unwrap()` over the seeds' locations: the location of
      some seed, and no seed's location is smaller. */
  function LeastLocation(seeds: seq<int>, locate: int -> int): (r: int)
    requires |seeds| > 0
    ensures exists i :: 0 <= i < |seeds| && r == locate(seeds[i])
    ensures forall i :: 0 <= i < |seeds| ==> r <= locate(seeds[i])
  {
    var locations := seq(|seeds|, i requires 0 <= i < |seeds| => locate(seeds[i]));
    var m := Min(locations);
    assert forall i :: 0 <= i < |seeds| ==> locations[i] == locate(seeds[i]);
    assert exists i :: 0 <= i < |seeds| && m == locations[i];
    m
  }

  /** Part 1: the least location of any seed. The seed list is never empty: the
      parser reads at least one seed. */
  function Part1(seeds: seq<int>, blocks: seq<Block>): (r: int)
    requires |seeds| > 0
    ensures exists i :: 0 <= i < |seeds| && r == Locate(blocks, seeds[i])
    ensures forall i :: 0 <= i < |seeds| ==> r <= Locate(blocks, seeds[i])
  {
    LeastLocation(seeds, seed => Locate(blocks, seed))
  }

  /** An inclusive interval (first, last); it is empty when first > last. */
  type Interval = (int, int)

  /** The integers covered by a list of intervals. */
  predicate Covered(rs: seq<Interval>, x: int) {
    exists i :: 0 <= i < |rs| && rs[i].0 <= x <= rs[i].1
  }

  /** The number of integers in an interval, 0 for an empty one. */
  function Width(r: Interval): nat {
    if r.0 <= r.1 then r.1 - r.0 + 1 else 0
  }

  /** The summed widths of a list of intervals (integers covered twice count twice). */
  function Size(rs: seq<Interval>): nat {
    if |rs| == 0 then 0 else Width(rs[0]) + Size(rs[1..])
  }

  /** `seed_ranges`: each (start, count) pair becomes the inclusive interval
      (start, start + count - 1). */
  function SeedRanges(pairs: seq<(int, int)>): (rs: seq<Interval>)
    ensures |rs| == |pairs|
    ensures forall i :: 0 <= i < |pairs| ==> rs[i] == (pairs[i].0, pairs[i].0 + pairs[i].1 - 1)
  {
    if |pairs| == 0 then [] else [(pairs[0].0, pairs[0].0 + pairs[0].1 - 1)] + SeedRanges(pairs[1..])
  }

  /** The intervals of `seed_ranges` cover exactly the integers start, ...,
      start + count - 1 of some pair, and count the same number of them. */
  lemma {:induction false} SeedRangesCover(pairs: seq<(int, int)>, x: int)
    ensures Covered(SeedRanges(pairs), x) <==> exists i :: 0 <= i < |pairs| && pairs[i].0 <= x < pairs[i].0 + pairs[i].1
  {
    var rs := SeedRanges(pairs);
    if Covered(rs, x) {
      var i :| 0 <= i < |rs| && rs[i].0 <= x <= rs[i].1;
      assert pairs[i].0 <= x < pairs[i].0 + pairs[i].1;
    }
    if exists i :: 0 <= i < |pairs| && pairs[i].0 <= x < pairs[i].0 + pairs[i].1 {
      var i :| 0 <= i < |pairs| && pairs[i].0 <= x < pairs[i].0 + pairs[i].1;
      assert rs[i].0 <= x <= rs[i].1;
    }
  }

  /** The inclusive source interval of a spec. */
  function SourceRange(spec: RangeSpec): Interval {
    (spec.sourceStart, spec.sourceStart + spec.length - 1)
  }

  function Max(a: int, b: int): int { if a >= b then a else b }
  function MinOf(a: int, b: int): int { if a <= b then a else b }

  /** The part of `r` left of the spec's source interval. */
  function LeftPiece(r: Interval, spec: RangeSpec): Interval {
    (r.0, MinOf(r.1, SourceRange(spec).0 - 1))
  }

  /** The part of `r` inside the spec's source interval, already shifted. */
  function OverlapPiece(r: Interval, spec: RangeSpec): Interval {
    (Max(r.0, SourceRange(spec).0) + Offset(spec), MinOf(r.1, SourceRange(spec).1) + Offset(spec))
  }

  /** The part of `r` right of the spec's source interval. */
  function RightPiece(r: Interval, spec: RangeSpec): Interval {
    (Max(r.0, SourceRange(spec).1 + 1), r.1)
  }

  /** The list with the empty intervals left out. */
  function NonEmpty(rs: seq<Interval>): seq<Interval> {
    if |rs| == 0 then [] else (if rs[0].0 <= rs[0].1 then [rs[0]] else []) + NonEmpty(rs[1..])
  }

  /** One pass of the inner loop of `apply_maps_to_ranges` over `seeds` for one
      spec: the left and right pieces that carry on, and the shifted overlaps. */
  function SplitAll(seeds: seq<Interval>, spec: RangeSpec): (seq<Interval>, seq<Interval>)
  {
    if |seeds| == 0 then ([], [])
    else
      var before := SplitAll(seeds[..|seeds| - 1], spec);
      var r := seeds[|seeds| - 1];
      (before.0 + NonEmpty([LeftPiece(r, spec), RightPiece(r, spec)]),
       before.1 + NonEmpty([OverlapPiece(r, spec)]))
  }

  /** `apply_maps_to_ranges` as a function: the overlaps moved by each spec in
      turn, then whatever no spec matched. */
  function ApplyRanges(seeds: seq<Interval>, specs: Block): seq<Interval>
    decreases |specs|
  {
    if |specs| == 0 then seeds
    else
      var split := SplitAll(seeds, specs[0]);
      split.1 + ApplyRanges(split.0, specs[1..])
  }

  /** `apply_maps_to_ranges`: for each spec in turn, every interval still in
      play is cut into the piece left of the spec's source interval, the
      overlap (shifted and set aside) and the piece right of it; the pieces no
      spec matched are appended, unshifted, at the end. */
  method ApplyMapsToRanges(ranges: seq<Interval>, mapSpecs: Block) returns (out: seq<Interval>)
    ensures out == ApplyRanges(ranges, mapSpecs)
  {
    var seeds := ranges;
    var result: seq<Interval> := [];
    for k := 0 to |mapSpecs|
      invariant result + ApplyRanges(seeds, mapSpecs[k..]) == ApplyRanges(ranges, mapSpecs)
    {
      var remaining, moved := SplitRanges(seeds, mapSpecs[k]);
      ApplyStep(seeds, mapSpecs, k);
      assert result + moved + ApplyRanges(remaining, mapSpecs[k + 1..]) == result + ApplyRanges(seeds, mapSpecs[k..]);
      result := result + moved;
      seeds := remaining;
    }
    out := result + seeds;
  }

  /** The inner loop of `apply_maps_to_ranges` for one spec: the left and right
      pieces carry on in `remaining`, the shifted overlaps go to `moved`. */
  method SplitRanges(seeds: seq<Interval>, spec: RangeSpec) returns (remaining: seq<Interval>, moved: seq<Interval>)
    ensures (remaining, moved) == SplitAll(seeds, spec)
  {
    var sourceRange := (spec.sourceStart, spec.sourceStart + spec.length - 1);
    var destOffset := spec.destStart - spec.sourceStart;
    remaining, moved := [], [];
    for t := 0 to |seeds|
      invariant remaining == SplitAll(seeds[..t], spec).0
      invariant moved == SplitAll(seeds[..t], spec).1
    {
      var range := seeds[t];
      var left := (range.0, MinOf(range.1, sourceRange.0 - 1));
      var overlap := (Max(range.0, sourceRange.0) + destOffset, MinOf(range.1, sourceRange.1) + destOffset);
      var right := (Max(range.0, sourceRange.1 + 1), range.1);
      assert left == LeftPiece(range, spec) && right == RightPiece(range, spec);
      assert overlap == OverlapPiece(range, spec);
      SplitStep(seeds, t, spec);
      if left.0 <= left.1 {
        remaining := remaining + [left];
      }
      if right.0 <= right.1 {
        remaining := remaining + [right];
      }
      if overlap.0 <= overlap.1 {
        moved := moved + [overlap];
      }
    }
    assert seeds[..|seeds|] == seeds;
  }

  /** One more spec through the outer loop. */
  lemma ApplyStep(seeds: seq<Interval>, specs: Block, k: nat)
    requires k < |specs|
    ensures ApplyRanges(seeds, specs[k..])
      == SplitAll(seeds, specs[k]).1 + ApplyRanges(SplitAll(seeds, specs[k]).0, specs[k + 1..])
  {
    assert specs[k..][1..] == specs[k + 1..];
  }

  /** One more interval through the inner loop. */
  lemma SplitStep(seeds: seq<Interval>, t: nat, spec: RangeSpec)
    requires t < |seeds|
    ensures var r := seeds[t];
      var left := LeftPiece(r, spec);
      var right := RightPiece(r, spec);
      var overlap := OverlapPiece(r, spec);
      SplitAll(seeds[..t + 1], spec)
        == (SplitAll(seeds[..t], spec).0 + (if left.0 <= left.1 then [left] else []) + (if right.0 <= right.1 then [right] else []),
            SplitAll(seeds[..t], spec).1 + (if overlap.0 <= overlap.1 then [overlap] else []))
  {
    var r := seeds[t];
    var prefix := seeds[..t + 1];
    assert prefix[..|prefix| - 1] == seeds[..t] && prefix[|prefix| - 1] == r;
    var before := SplitAll(seeds[..t], spec);
    PiecesNonEmpty(r, spec);
    var left := LeftPiece(r, spec);
    var right := RightPiece(r, spec);
    var keptLeft: seq<Interval> := if left.0 <= left.1 then [left] else [];
    var keptRight: seq<Interval> := if right.0 <= right.1 then [right] else [];
    assert before.0 + (keptLeft + keptRight) == before.0 + keptLeft + keptRight;
  }

  /** The pieces of one interval with the empty ones left out. */
  lemma PiecesNonEmpty(r: Interval, spec: RangeSpec)
    ensures var left := LeftPiece(r, spec);
      var right := RightPiece(r, spec);
      NonEmpty([left, right]) == (if left.0 <= left.1 then [left] else []) + (if right.0 <= right.1 then [right] else [])
    ensures var overlap := OverlapPiece(r, spec);
      NonEmpty([overlap]) == if overlap.0 <= overlap.1 then [overlap] else []
  {
    NonEmptyShort(LeftPiece(r, spec), RightPiece(r, spec));
    NonEmptyShort(RightPiece(r, spec), r);
    NonEmptyShort(OverlapPiece(r, spec), r);
  }

  lemma NonEmptyShort(a: Interval, b: Interval)
    ensures NonEmpty([a]) == if a.0 <= a.1 then [a] else []
    ensures NonEmpty([a, b]) == NonEmpty([a]) + NonEmpty([b])
  {
    var one: seq<Interval> := [a];
    var two: seq<Interval> := [a, b];
    assert one[1..] == [];
    assert two[1..] == [b];
    var other: seq<Interval> := [b];
    assert other[1..] == [];
  }

  lemma {:induction false} CoveredAppend(a: seq<Interval>, b: seq<Interval>, x: int)
    ensures Covered(a + b, x) <==> Covered(a, x) || Covered(b, x)
  {
    if Covered(a + b, x) {
      var i :| 0 <= i < |a + b| && (a + b)[i].0 <= x <= (a + b)[i].1;
      if i >= |a| { assert b[i - |a|] == (a + b)[i]; }
    }
    if Covered(b, x) {
      var i :| 0 <= i < |b| && b[i].0 <= x <= b[i].1;
      assert (a + b)[i + |a|] == b[i];
    }
    if Covered(a, x) {
      var i :| 0 <= i < |a| && a[i].0 <= x <= a[i].1;
      assert (a + b)[i] == a[i];
    }
  }

  /** Dropping empty intervals loses no integer. */
  lemma {:induction false} NonEmptyCover(rs: seq<Interval>, x: int)
    ensures Covered(NonEmpty(rs), x) <==> Covered(rs, x)
  {
    if |rs| > 0 {
      var head := if rs[0].0 <= rs[0].1 then [rs[0]] else [];
      NonEmptyCover(rs[1..], x);
      CoveredAppend(head, NonEmpty(rs[1..]), x);
      CoveredAppend([rs[0]], rs[1..], x);
      assert rs == [rs[0]] + rs[1..];
    }
  }

  /** The left and right pieces hold exactly the integers of `r` outside the
      spec's source range, and the overlap holds the shifted integers of `r`
      inside it, whatever the sign of the spec's length. */
  lemma PieceCover(r: Interval, spec: RangeSpec, x: int)
    ensures Covered([LeftPiece(r, spec), RightPiece(r, spec)], x) <==> r.0 <= x <= r.1 && !InSource(spec, x)
    ensures OverlapPiece(r, spec).0 <= x + Offset(spec) <= OverlapPiece(r, spec).1 <==> r.0 <= x <= r.1 && InSource(spec, x)
  {
    var pieces := [LeftPiece(r, spec), RightPiece(r, spec)];
    if Covered(pieces, x) {
      var i :| 0 <= i < |pieces| && pieces[i].0 <= x <= pieces[i].1;
    }
    if r.0 <= x <= r.1 && !InSource(spec, x) {
      if x < spec.sourceStart {
        assert pieces[0].0 <= x <= pieces[0].1;
      } else {
        assert pieces[1].0 <= x <= pieces[1].1;
      }
    }
  }

  /** After one spec, the pieces that carry on are the input's integers outside
      its source range, and the pieces set aside are the input's integers inside
      it, shifted. */
  lemma {:induction false} SplitAllCover(seeds: seq<Interval>, spec: RangeSpec, x: int)
    ensures Covered(SplitAll(seeds, spec).0, x) <==> Covered(seeds, x) && !InSource(spec, x)
    ensures Covered(SplitAll(seeds, spec).1, x + Offset(spec)) <==> Covered(seeds, x) && InSource(spec, x)
  {
    if |seeds| > 0 {
      var init := seeds[..|seeds| - 1];
      var r := seeds[|seeds| - 1];
      var (remaining, moved) := SplitAll(init, spec);
      SplitAllCover(init, spec, x);
      assert seeds == init + [r];
      CoveredAppend(init, [r], x);
      PieceCover(r, spec, x);
      NonEmptyCover([LeftPiece(r, spec), RightPiece(r, spec)], x);
      NonEmptyCover([OverlapPiece(r, spec)], x + Offset(spec));
      CoveredAppend(remaining, NonEmpty([LeftPiece(r, spec), RightPiece(r, spec)]), x);
      CoveredAppend(moved, NonEmpty([OverlapPiece(r, spec)]), x + Offset(spec));
    }
  }

  /** `y` is the image under a block of an integer covered by `rs`. */
  ghost predicate InImage(rs: seq<Interval>, specs: Block, y: int) {
    exists x :: Covered(rs, x) && MapValue(specs, x) == y
  }

  /** The interval version of a block computes the set image of the point
      version: an integer is covered by the output exactly when it is the
      point mapping of an integer covered by the input. */
  lemma {:induction false} ApplyCover(rs: seq<Interval>, specs: Block, y: int)
    ensures Covered(ApplyRanges(rs, specs), y) <==> InImage(rs, specs, y)
    decreases |specs|
  {
    if |specs| == 0 {
      if Covered(rs, y) {
        assert MapValue(specs, y) == y;
      }
    } else {
      var spec := specs[0];
      var (remaining, moved) := SplitAll(rs, spec);
      var rest := ApplyRanges(remaining, specs[1..]);
      CoveredAppend(moved, rest, y);
      ApplyCover(remaining, specs[1..], y);
      if Covered(moved, y) {
        var x := y - Offset(spec);
        SplitAllCover(rs, spec, x);
        assert MapValue(specs, x) == y;
      }
      if Covered(rest, y) {
        var x :| Covered(remaining, x) && MapValue(specs[1..], x) == y;
        SplitAllCover(rs, spec, x);
        assert MapValue(specs, x) == y;
      }
      if InImage(rs, specs, y) {
        var x :| Covered(rs, x) && MapValue(specs, x) == y;
        SplitAllCover(rs, spec, x);
        if !InSource(spec, x) {
          assert InImage(remaining, specs[1..], y);
        }
      }
    }
  }

  lemma {:induction false} SizeAppend(a: seq<Interval>, b: seq<Interval>)
    ensures Size(a + b) == Size(a) + Size(b)
  {
    if |a| == 0 {
      assert a + b == b;
    } else {
      assert (a + b)[1..] == a[1..] + b;
      SizeAppend(a[1..], b);
    }
  }

  lemma {:induction false} NonEmptySize(rs: seq<Interval>)
    ensures Size(NonEmpty(rs)) == Size(rs)
  {
    if |rs| > 0 {
      var head: seq<Interval> := if rs[0].0 <= rs[0].1 then [rs[0]] else [];
      NonEmptySize(rs[1..]);
      SizeAppend(head, NonEmpty(rs[1..]));
      assert head == [] || head[1..] == [];
    }
  }

  /** With a non-negative length, left piece, overlap and right piece split `r`
      without loss or overlap. */
  lemma PieceSize(r: Interval, spec: RangeSpec)
    requires spec.length >= 0
    ensures Width(LeftPiece(r, spec)) + Width(OverlapPiece(r, spec)) + Width(RightPiece(r, spec)) == Width(r)
  {
  }

  lemma {:induction false} SplitAllSize(seeds: seq<Interval>, spec: RangeSpec)
    requires spec.length >= 0
    ensures Size(SplitAll(seeds, spec).0) + Size(SplitAll(seeds, spec).1) == Size(seeds)
  {
    if |seeds| > 0 {
      var init := seeds[..|seeds| - 1];
      var r := seeds[|seeds| - 1];
      var before := SplitAll(init, spec);
      var sides := NonEmpty([LeftPiece(r, spec), RightPiece(r, spec)]);
      var middle := NonEmpty([OverlapPiece(r, spec)]);
      SplitAllSize(init, spec);
      assert seeds == init + [r];
      SizeAppend(init, [r]);
      SizeAppend(before.0, sides);
      SizeAppend(before.1, middle);
      NonEmptySize([LeftPiece(r, spec), RightPiece(r, spec)]);
      NonEmptySize([OverlapPiece(r, spec)]);
      PieceSize(r, spec);
      var pair: seq<Interval> := [LeftPiece(r, spec), RightPiece(r, spec)];
      assert pair[1..][1..] == [];
    }
  }

  /** When no spec has a negative length, the output counts as many integers as
      the input: no integer is lost or duplicated. */
  lemma {:induction false} ApplySize(rs: seq<Interval>, specs: Block)
    requires forall i :: 0 <= i < |specs| ==> specs[i].length >= 0
    ensures Size(ApplyRanges(rs, specs)) == Size(rs)
    decreases |specs|
  {
    if |specs| > 0 {
      var split := SplitAll(rs, specs[0]);
      SplitAllSize(rs, specs[0]);
      ApplySize(split.0, specs[1..]);
      SizeAppend(split.1, ApplyRanges(split.0, specs[1..]));
    }
  }

  /** A negative length makes the left and right pieces overlap: the ten
      integers 0..9 come out counted twelve times. */
  lemma NegativeLengthOvercounts()
    ensures Size([(0, 9)]) == 10
    ensures ApplyRanges([(0, 9)], [RangeSpec(100, 5, -2)]) == [(0, 4), (3, 9)]
    ensures Size(ApplyRanges([(0, 9)], [RangeSpec(100, 5, -2)])) == 12
  {
    var spec := RangeSpec(100, 5, -2);
    NonEmptyShort(LeftPiece((0, 9), spec), RightPiece((0, 9), spec));
    NonEmptyShort(OverlapPiece((0, 9), spec), (0, 9));
    var one: seq<Interval> := [(0, 9)];
    assert one[..0] == [];
    var out: seq<Interval> := [(0, 4), (3, 9)];
    assert out[1..][1..] == [];
  }

  /** Every interval in the list is non-empty. */
  predicate Proper(rs: seq<Interval>) {
    forall i :: 0 <= i < |rs| ==> rs[i].0 <= rs[i].1
  }

  lemma {:induction false} NonEmptyProper(rs: seq<Interval>)
    ensures Proper(NonEmpty(rs))
  {
    if |rs| > 0 {
      NonEmptyProper(rs[1..]);
    }
  }

  lemma {:induction false} SplitAllProper(seeds: seq<Interval>, spec: RangeSpec)
    ensures Proper(SplitAll(seeds, spec).0) && Proper(SplitAll(seeds, spec).1)
  {
    if |seeds| > 0 {
      var r := seeds[|seeds| - 1];
      SplitAllProper(seeds[..|seeds| - 1], spec);
      NonEmptyProper([LeftPiece(r, spec), RightPiece(r, spec)]);
      NonEmptyProper([OverlapPiece(r, spec)]);
    }
  }

  /** Once at least one spec has been applied, no empty interval is left. */
  lemma {:induction false} ApplyProper(rs: seq<Interval>, specs: Block)
    requires |specs| > 0
    ensures Proper(ApplyRanges(rs, specs))
    decreases |specs|
  {
    var split := SplitAll(rs, specs[0]);
    SplitAllProper(rs, specs[0]);
    if |specs| > 1 {
      ApplyProper(split.0, specs[1..]);
    }
  }

  /** The intervals pushed through every block in order (the fold of
      `process_part2`). */
  function FoldRanges(rs: seq<Interval>, blocks: seq<Block>): seq<Interval>
    decreases |blocks|
  {
    if |blocks| == 0 then rs else FoldRanges(ApplyRanges(rs, blocks[0]), blocks[1..])
  }

  /** `y` is the location of some integer covered by `rs`. */
  ghost predicate Reaches(rs: seq<Interval>, blocks: seq<Block>, y: int) {
    exists x :: Covered(rs, x) && Locate(blocks, x) == y
  }

  /** Pushing intervals through all blocks computes the image of the covered
      set under the point-by-point fold of part 1. */
  lemma {:induction false} FoldCover(rs: seq<Interval>, blocks: seq<Block>, y: int)
    ensures Covered(FoldRanges(rs, blocks), y) <==> Reaches(rs, blocks, y)
    decreases |blocks|
  {
    if |blocks| == 0 {
      if Covered(rs, y) {
        assert Locate(blocks, y) == y;
      }
    } else {
      var next := ApplyRanges(rs, blocks[0]);
      FoldCover(next, blocks[1..], y);
      if Reaches(next, blocks[1..], y) {
        var z :| Covered(next, z) && Locate(blocks[1..], z) == y;
        ApplyCover(rs, blocks[0], z);
        var x :| Covered(rs, x) && MapValue(blocks[0], x) == z;
        assert Locate(blocks, x) == y;
      }
      if Reaches(rs, blocks, y) {
        var x :| Covered(rs, x) && Locate(blocks, x) == y;
        var z := MapValue(blocks[0], x);
        ApplyCover(rs, blocks[0], z);
        assert Covered(next, z) && Locate(blocks[1..], z) == y;
      }
    }
  }

  lemma {:induction false} FoldProper(rs: seq<Interval>, blocks: seq<Block>)
    requires |blocks| > 0
    requires forall i :: 0 <= i < |blocks| ==> |blocks[i]| > 0
    ensures Proper(FoldRanges(rs, blocks))
    decreases |blocks|
  {
    ApplyProper(rs, blocks[0]);
    if |blocks| > 1 {
      FoldProper(ApplyRanges(rs, blocks[0]), blocks[1..]);
    }
  }

  /** Part 2: the least left end of the final intervals; None where the Rust
      `unwrap` on an empty list panics. */
  function Part2(pairs: seq<(int, int)>, blocks: seq<Block>): (r: Option<int>)
    ensures var final := FoldRanges(SeedRanges(pairs), blocks);
      r.None? <==> |final| == 0
  {
    var final := FoldRanges(SeedRanges(pairs), blocks);
    if |final| == 0 then None else Some(Min(LeftEnds(final)))
  }

  /** The left end of every interval, in order. */
  function LeftEnds(rs: seq<Interval>): (ends: seq<int>)
    ensures |ends| == |rs|
    ensures forall i :: 0 <= i < |rs| ==> ends[i] == rs[i].0
  {
    if |rs| == 0 then [] else [rs[0].0] + LeftEnds(rs[1..])
  }

  /** `x` is one of the seeds described by the (start, count) pairs. */
  ghost predicate InSeeds(pairs: seq<(int, int)>, x: int) {
    exists i :: 0 <= i < |pairs| && pairs[i].0 <= x < pairs[i].0 + pairs[i].1
  }

  /** Part 2 is the least location of any seed in the seed ranges, and fails
      exactly when the ranges hold no seed. The parser guarantees at least one
      block and at least one spec per block. */
  lemma Part2Least(pairs: seq<(int, int)>, blocks: seq<Block>)
    requires |blocks| > 0
    requires forall i :: 0 <= i < |blocks| ==> |blocks[i]| > 0
    ensures Part2(pairs, blocks).None? <==> forall x :: !InSeeds(pairs, x)
    ensures Part2(pairs, blocks).Some? ==>
      (exists x :: InSeeds(pairs, x) && Locate(blocks, x) == Part2(pairs, blocks).value) &&
      (forall x :: InSeeds(pairs, x) ==> Part2(pairs, blocks).value <= Locate(blocks, x))
  {
    var seeds := SeedRanges(pairs);
    var final := FoldRanges(seeds, blocks);
    FoldProper(seeds, blocks);
    forall x | InSeeds(pairs, x)
      ensures exists j :: 0 <= j < |final| && final[j].0 <= Locate(blocks, x)
    {
      SeedRangesCover(pairs, x);
      FoldCover(seeds, blocks, Locate(blocks, x));
    }
    if |final| > 0 {
      var m := Part2(pairs, blocks).value;
      var firsts := LeftEnds(final);
      assert m == Min(firsts);
      var i :| 0 <= i < |final| && firsts[i] == m;
      assert Covered(final, m);
      FoldCover(seeds, blocks, m);
      var x :| Covered(seeds, x) && Locate(blocks, x) == m;
      SeedRangesCover(pairs, x);
      assert InSeeds(pairs, x);
      forall x' | InSeeds(pairs, x')
        ensures m <= Locate(blocks, x')
      {
        var j :| 0 <= j < |final| && final[j].0 <= Locate(blocks, x');
        assert firsts[j] == final[j].0;
      }
    }
  }

  /** A location computed one block at a time. */
  lemma {:induction false} LocateSteps(blocks: seq<Block>, xs: seq<int>)
    requires |xs| == |blocks| + 1
    requires forall i :: 0 <= i < |blocks| ==> MapValue(blocks[i], xs[i]) == xs[i + 1]
    ensures Locate(blocks, xs[0]) == xs[|blocks|]
  {
    if |blocks| > 0 {
      LocateSteps(blocks[1..], xs[1..]);
    }
  }

  /** `SplitAll` on a list that grows by one interval at the end. */
  lemma SplitSnoc(init: seq<Interval>, r: Interval, spec: RangeSpec, remaining: seq<Interval>, moved: seq<Interval>)
    requires SplitAll(init, spec) == (remaining, moved)
    ensures var left := LeftPiece(r, spec);
      var right := RightPiece(r, spec);
      var overlap := OverlapPiece(r, spec);
      SplitAll(init + [r], spec)
        == (remaining + (if left.0 <= left.1 then [left] else []) + (if right.0 <= right.1 then [right] else []),
            moved + (if overlap.0 <= overlap.1 then [overlap] else []))
  {
    var seeds := init + [r];
    assert seeds[..|init|] == init && seeds[|init|] == r;
    SplitStep(seeds, |init|, spec);
    assert seeds[..|init| + 1] == seeds;
  }

  /** `SplitAll` on a single interval: its left and right pieces carry on and
      its overlap moves, each only when it is not empty. */
  lemma SplitOne(r: Interval, spec: RangeSpec)
    ensures var left := LeftPiece(r, spec);
      var right := RightPiece(r, spec);
      var overlap := OverlapPiece(r, spec);
      SplitAll([r], spec)
        == ((if left.0 <= left.1 then [left] else []) + (if right.0 <= right.1 then [right] else []),
            if overlap.0 <= overlap.1 then [overlap] else [])
  {
    SplitSingle(r, spec);
    PiecesNonEmpty(r, spec);
  }

  /** `SplitAll` on a single interval, by its definition. */
  lemma SplitSingle(r: Interval, spec: RangeSpec)
    ensures SplitAll([r], spec)
      == (NonEmpty([LeftPiece(r, spec), RightPiece(r, spec)]), NonEmpty([OverlapPiece(r, spec)]))
  {
    var one := [r];
    assert one[..|one| - 1] == [] && one[|one| - 1] == r;
    var kept := NonEmpty([LeftPiece(r, spec), RightPiece(r, spec)]);
    var moved := NonEmpty([OverlapPiece(r, spec)]);
    assert [] + kept == kept && [] + moved == moved;
  }

  /** An interval clear of the spec's source range carries on unchanged. */
  lemma SplitClear(r: Interval, spec: RangeSpec)
    requires r.0 <= r.1 && spec.length >= 0
    requires r.1 < spec.sourceStart || spec.sourceStart + spec.length <= r.0
    ensures SplitAll([r], spec) == ([r], [])
  {
    SplitOne(r, spec);
    if r.1 < spec.sourceStart {
      assert [r] + [] == [r];
    } else {
      assert [] + [r] == [r];
    }
  }

  /** An interval inside the spec's source range moves whole by the offset. */
  lemma SplitInside(r: Interval, spec: RangeSpec)
    requires r.0 <= r.1 && spec.sourceStart <= r.0 && r.1 < spec.sourceStart + spec.length
    ensures SplitAll([r], spec) == ([], [(r.0 + Offset(spec), r.1 + Offset(spec))])
  {
    SplitOne(r, spec);
    var none: seq<Interval> := [];
    assert none + none == none;
    assert OverlapPiece(r, spec) == (r.0 + Offset(spec), r.1 + Offset(spec));
  }

  /** The inner loop treats each interval on its own: splitting a concatenation
      splits each part and concatenates the results. */
  lemma {:induction false} SplitAppend(init: seq<Interval>, rest: seq<Interval>, spec: RangeSpec)
    ensures SplitAll(init + rest, spec)
      == (SplitAll(init, spec).0 + SplitAll(rest, spec).0, SplitAll(init, spec).1 + SplitAll(rest, spec).1)
    decreases |rest|
  {
    var head := SplitAll(init, spec);
    if |rest| == 0 {
      assert init + rest == init;
      assert head.0 + [] == head.0 && head.1 + [] == head.1;
    } else {
      var front := rest[..|rest| - 1];
      var r := rest[|rest| - 1];
      assert rest == front + [r];
      assert init + rest == (init + front) + [r];
      SplitAppend(init, front, spec);
      SplitLast(init + front, r, spec);
      SplitLast(front, r, spec);
      var body := SplitAll(front, spec);
      var last := SplitAll([r], spec);
      assert head.0 + body.0 + last.0 == head.0 + (body.0 + last.0);
      assert head.1 + body.1 + last.1 == head.1 + (body.1 + last.1);
    }
  }

  /** Splitting a list with one more interval at the end. */
  lemma SplitLast(init: seq<Interval>, r: Interval, spec: RangeSpec)
    ensures SplitAll(init + [r], spec)
      == (SplitAll(init, spec).0 + SplitAll([r], spec).0, SplitAll(init, spec).1 + SplitAll([r], spec).1)
  {
    var seeds := init + [r];
    assert seeds[..|seeds| - 1] == init && seeds[|seeds| - 1] == r;
    SplitSingle(r, spec);
  }

  /** `ApplyRanges` unfolded by one spec. */
  lemma ApplyCons(seeds: seq<Interval>, spec: RangeSpec, rest: Block)
    ensures ApplyRanges(seeds, [spec] + rest)
      == SplitAll(seeds, spec).1 + ApplyRanges(SplitAll(seeds, spec).0, rest)
  {
    assert ([spec] + rest)[1..] == rest;
  }

  /** Folding through two runs of blocks is folding through the first run and
      then through the second. */
  lemma {:induction false} FoldAppend(rs: seq<Interval>, first: seq<Block>, second: seq<Block>)
    ensures FoldRanges(rs, first + second) == FoldRanges(FoldRanges(rs, first), second)
    decreases |first|
  {
    if |first| == 0 {
      assert first + second == second;
    } else {
      FoldAppend(ApplyRanges(rs, first[0]), first[1..], second);
      assert (first + second)[0] == first[0];
      assert (first + second)[1..] == first[1..] + second;
    }
  }

  /** A fold computed one block at a time. */
  lemma {:induction false} FoldSteps(blocks: seq<Block>, stages: seq<seq<Interval>>)
    requires |stages| == |blocks| + 1
    requires forall i :: 0 <= i < |blocks| ==> ApplyRanges(stages[i], blocks[i]) == stages[i + 1]
    ensures FoldRanges(stages[0], blocks) == stages[|blocks|]
  {
    if |blocks| > 0 {
      FoldSteps(blocks[1..], stages[1..]);
    }
  }
}
