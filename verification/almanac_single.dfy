/** An early draft of day 5 (rust/solutions/day-05/src/temp.rs) in which every
    map block carries exactly one range spec. */
module AlmanacSingle {
  import Almanac

  /** One block's step: a value inside the spec's source range is shifted by
      the spec's offset, any other value is kept. */
  function Step(spec: Almanac.RangeSpec, current: int): (r: int)
    ensures spec.length <= 0 ==> r == current
    ensures r != current ==> Almanac.InSource(spec, current)
  {
    if current >= spec.sourceStart && current < spec.sourceStart + spec.length
    then spec.destStart + current - spec.sourceStart
    else current
  }

  /** The single-spec step is the first-match point mapping of a one-element
      block. */
  lemma StepIsPointMap(spec: Almanac.RangeSpec, current: int)
    ensures Step(spec, current) == Almanac.MapValue([spec], current)
  {
    assert [spec][1..] == [];
  }

  /** A value folded through the blocks, first block first. */
  function Locate(specs: seq<Almanac.RangeSpec>, current: int): int
  {
    if |specs| == 0 then current else Locate(specs[1..], Step(specs[0], current))
  }

  /** Each spec as a block of its own. */
  function Singletons(specs: seq<Almanac.RangeSpec>): (blocks: seq<Almanac.Block>)
    ensures |blocks| == |specs|
    ensures forall i :: 0 <= i < |specs| ==> blocks[i] == [specs[i]]
  {
    if |specs| == 0 then [] else [[specs[0]]] + Singletons(specs[1..])
  }

  /** Folding single-spec blocks is the general fold over one-element blocks. */
  lemma {:induction false} LocateAgrees(specs: seq<Almanac.RangeSpec>, current: int)
    ensures Locate(specs, current) == Almanac.Locate(Singletons(specs), current)
  {
    if |specs| > 0 {
      StepIsPointMap(specs[0], current);
      LocateAgrees(specs[1..], Step(specs[0], current));
      assert Singletons(specs)[1..] == Singletons(specs[1..]);
    }
  }

  /** Part 1 of the draft: the least location of any seed. The parser reads at
      least one seed. */
  function Part1(seeds: seq<int>, specs: seq<Almanac.RangeSpec>): (r: int)
    requires |seeds| > 0
    ensures exists i :: 0 <= i < |seeds| && r == Locate(specs, seeds[i])
    ensures forall i :: 0 <= i < |seeds| ==> r <= Locate(specs, seeds[i])
  {
    Almanac.LeastLocation(seeds, seed => Locate(specs, seed))
  }

  /** The draft's answer is the answer of the final solution on one-spec
      blocks. */
  lemma Part1Agrees(seeds: seq<int>, specs: seq<Almanac.RangeSpec>)
    requires |seeds| > 0
    ensures Part1(seeds, specs) == Almanac.Part1(seeds, Singletons(specs))
  {
    forall i | 0 <= i < |seeds|
      ensures Locate(specs, seeds[i]) == Almanac.Locate(Singletons(specs), seeds[i])
    {
      LocateAgrees(specs, seeds[i]);
    }
  }
}
