/** An early draft of day 5 (rust/solutions/day-05/src/temp2.rs) that expands
    each block into an explicit table from source value to destination value. */
module AlmanacTable {
  import Almanac

  /** The entries one spec inserts: every source value in its range, mapped to
      the value shifted by the spec's offset. */
  function Inserts(spec: Almanac.RangeSpec): (m: map<int, int>)
    ensures forall x :: x in m <==> Almanac.InSource(spec, x)
    ensures forall x :: x in m ==> m[x] == x + Almanac.Offset(spec)
  {
    Run(spec.sourceStart, spec.sourceStart + spec.length, spec.destStart - spec.sourceStart)
  }

  /** The entries for the source values lo, ..., hi - 1 with offset `diff`. */
  function Run(lo: int, hi: int, diff: int): (m: map<int, int>)
    ensures forall x :: x in m <==> lo <= x < hi
    ensures forall x :: x in m ==> m[x] == Entry(x, diff)
  {
    map x | lo <= x < hi :: Entry(x, diff)
  }

  /** Inserting the next source value extends the run by one. */
  lemma RunExtend(before: map<int, int>, lo: int, hi: int, diff: int)
    requires lo <= hi
    ensures (before + Run(lo, hi, diff))[hi := Entry(hi, diff)] == before + Run(lo, hi + 1, diff)
  {
  }

  /** The value stored for source value `x` of a spec whose offset is `diff`. */
  function Entry(x: int, diff: int): int {
    x + diff
  }

  /** The table `map` builds: specs are inserted in order, so a later spec
      overwrites the entries of an earlier one. */
  function Table(specs: seq<Almanac.RangeSpec>): map<int, int>
  {
    if |specs| == 0 then map[] else Table(specs[..|specs| - 1]) + Inserts(specs[|specs| - 1])
  }

  /** `map` of temp2.rs: nested loops insert every source value of every spec. */
  method BuildMap(rangeSpecs: seq<Almanac.RangeSpec>) returns (m: map<int, int>)
    ensures m == Table(rangeSpecs)
  {
    m := map[];
    for k := 0 to |rangeSpecs|
      invariant m == Table(rangeSpecs[..k])
    {
      var spec := rangeSpecs[k];
      var diff := spec.destStart - spec.sourceStart;
      var source := spec.sourceStart;
      ghost var before := m;
      while source < spec.sourceStart + spec.length
        invariant spec.sourceStart <= source
        invariant spec.length > 0 ==> source <= spec.sourceStart + spec.length
        invariant spec.length <= 0 ==> source == spec.sourceStart
        invariant m == before + Run(spec.sourceStart, source, diff)
        decreases spec.sourceStart + spec.length - source
      {
        RunExtend(before, spec.sourceStart, source, diff);
        m := m[source := source + diff];
        source := source + 1;
      }
      assert rangeSpecs[..k + 1][..k] == rangeSpecs[..k];
      if spec.length <= 0 {
        assert Run(spec.sourceStart, source, diff) == map[];
        assert Inserts(spec) == map[];
      }
      assert Run(spec.sourceStart, source, diff) == Inserts(spec);
    }
    assert rangeSpecs[..|rangeSpecs|] == rangeSpecs;
  }

  /** The index of the last spec whose source range holds `x`, or |specs| if none does. */
  function LastMatch(specs: seq<Almanac.RangeSpec>, x: int): (k: nat)
    ensures k <= |specs|
    ensures k < |specs| ==> Almanac.InSource(specs[k], x) && forall j :: k < j < |specs| ==> !Almanac.InSource(specs[j], x)
    ensures k == |specs| ==> forall j :: 0 <= j < |specs| ==> !Almanac.InSource(specs[j], x)
  {
    if |specs| == 0 then 0
    else if Almanac.InSource(specs[|specs| - 1], x) then |specs| - 1
    else
      var k := LastMatch(specs[..|specs| - 1], x);
      if k == |specs| - 1 then |specs| else k
  }

  /** The table holds exactly the values some spec covers, each mapped by the
      last spec that covers it. */
  lemma {:induction false} TableLastWins(specs: seq<Almanac.RangeSpec>, x: int)
    ensures x in Table(specs) <==> LastMatch(specs, x) < |specs|
    ensures x in Table(specs) ==> Table(specs)[x] == x + Almanac.Offset(specs[LastMatch(specs, x)])
  {
    if |specs| > 0 {
      var init := specs[..|specs| - 1];
      TableLastWins(init, x);
      assert forall j :: 0 <= j < |init| ==> init[j] == specs[j];
    }
  }

  /** A spec with length zero or less adds nothing to the table. */
  lemma EmptySpecInsertsNothing(specs: seq<Almanac.RangeSpec>, spec: Almanac.RangeSpec)
    requires spec.length <= 0
    ensures Table(specs + [spec]) == Table(specs)
  {
    assert (specs + [spec])[..|specs|] == specs;
    assert Inserts(spec) == map[];
  }

  /** The lookup of `process_part1`: a value with no entry is kept. */
  function Lookup(table: map<int, int>, current: int): (r: int)
    ensures current !in table ==> r == current
    ensures current in table ==> r == table[current]
  {
    if current in table then table[current] else current
  }

  /** The source ranges of two specs share no integer. */
  predicate Disjoint(a: Almanac.RangeSpec, b: Almanac.RangeSpec) {
    Almanac.MinOf(a.sourceStart + a.length, b.sourceStart + b.length) <= Almanac.Max(a.sourceStart, b.sourceStart)
  }

  /** No two specs of the block overlap. */
  predicate PairwiseDisjoint(specs: seq<Almanac.RangeSpec>) {
    forall i, j :: 0 <= i < j < |specs| ==> Disjoint(specs[i], specs[j])
  }

  /** When a block's source ranges are pairwise disjoint, the table lookup
      agrees with the first-match point mapping of the final solution. */
  lemma LookupAgrees(specs: seq<Almanac.RangeSpec>, x: int)
    requires PairwiseDisjoint(specs)
    ensures Lookup(Table(specs), x) == Almanac.MapValue(specs, x)
  {
    TableLastWins(specs, x);
    var first := Almanac.FirstMatch(specs, x);
    var last := LastMatch(specs, x);
    if last < |specs| {
      assert first <= last;
      if first < last {
        assert false;
      }
    } else {
      assert first == |specs|;
    }
  }

  /** Where two specs overlap, the table keeps the later one while the point
      mapping keeps the first: 0 goes to 20 here but to 10 in lib.rs. */
  lemma OverlapLastWins()
    ensures Lookup(Table([Almanac.RangeSpec(10, 0, 2), Almanac.RangeSpec(20, 0, 2)]), 0) == 20
    ensures Almanac.MapValue([Almanac.RangeSpec(10, 0, 2), Almanac.RangeSpec(20, 0, 2)], 0) == 10
  {
    var specs := [Almanac.RangeSpec(10, 0, 2), Almanac.RangeSpec(20, 0, 2)];
    TableLastWins(specs, 0);
  }

  /** A value folded through the tables, first table first. */
  function Locate(tables: seq<map<int, int>>, current: int): int
  {
    if |tables| == 0 then current else Locate(tables[1..], Lookup(tables[0], current))
  }

  /** Part 1 of the draft: the least location of any seed, folding through
      the table the parser builds for each block. The parser reads at least
      one seed. */
  function Part1(seeds: seq<int>, blocks: seq<Almanac.Block>): (r: int)
    requires |seeds| > 0
    ensures exists i :: 0 <= i < |seeds| && r == Locate(Tables(blocks), seeds[i])
    ensures forall i :: 0 <= i < |seeds| ==> r <= Locate(Tables(blocks), seeds[i])
  {
    var tables := Tables(blocks);
    Almanac.LeastLocation(seeds, seed => Locate(tables, seed))
  }

  /** The tables built from the blocks. */
  function Tables(blocks: seq<Almanac.Block>): (tables: seq<map<int, int>>)
    ensures |tables| == |blocks|
    ensures forall i :: 0 <= i < |blocks| ==> tables[i] == Table(blocks[i])
  {
    if |blocks| == 0 then [] else [Table(blocks[0])] + Tables(blocks[1..])
  }

  /** With pairwise disjoint blocks the draft computes the final solution's
      part 1. */
  lemma Part1Agrees(seeds: seq<int>, blocks: seq<Almanac.Block>)
    requires |seeds| > 0
    requires forall i :: 0 <= i < |blocks| ==> PairwiseDisjoint(blocks[i])
    ensures Part1(seeds, blocks) == Almanac.Part1(seeds, blocks)
  {
    forall i | 0 <= i < |seeds|
      ensures Locate(Tables(blocks), seeds[i]) == Almanac.Locate(blocks, seeds[i])
    {
      LocateAgrees(blocks, seeds[i]);
    }
  }

  lemma {:induction false} LocateAgrees(blocks: seq<Almanac.Block>, current: int)
    requires forall i :: 0 <= i < |blocks| ==> PairwiseDisjoint(blocks[i])
    ensures Locate(Tables(blocks), current) == Almanac.Locate(blocks, current)
  {
    if |blocks| > 0 {
      LookupAgrees(blocks[0], current);
      assert Tables(blocks)[1..] == Tables(blocks[1..]);
      LocateAgrees(blocks[1..], Almanac.MapValue(blocks[0], current));
    }
  }
}
