/** Day 8: a walk over a network of nodes, steered by a cyclic list of left and
    right instructions, from `AAA` until it reaches `ZZZ`.
    Models rust/solutions/day-08/src/lib.rs. */
module Wasteland {
  import opened Wrappers

  /** Each node tag maps to its left and right destination tags. */
  type Network = map<string, (string, string)>

  /** What the walk ends in: the number of steps taken when `ZZZ` is reached,
      an aborted run (an instruction other than L or R, or a tag missing from
      the network), or the step bound being used up. */
  datatype Outcome = Steps(n: nat) | Panicked | OutOfFuel

  /** The destination an instruction picks: `L` the first, `R` the second,
      nothing for any other character. */
  function Choose(node: (string, string), dir: char): (r: Option<string>)
    ensures r.None? <==> dir != 'L' && dir != 'R'
    ensures r.Some? ==> r.value == node.0 || r.value == node.1
  {
    if dir == 'L' then Some(node.0) else if dir == 'R' then Some(node.1) else None
  }

  /** The position in the instruction list used by step `k + 1`: the list is
      consumed cyclically, starting over after its last instruction. */
  function Pos(dirs: seq<char>, k: nat): (p: nat)
    requires |dirs| > 0
    ensures p < |dirs|
  {
    if k == 0 then 0
    else
      var p := Pos(dirs, k - 1);
      if p + 1 == |dirs| then 0 else p + 1
  }

  /** The instruction used by step `k + 1`. */
  function Instr(dirs: seq<char>, k: nat): char
    requires |dirs| > 0
  {
    dirs[Pos(dirs, k)]
  }

  /** The tag reached after `k` steps of an unstopped walk from `AAA`, or None
      once an instruction or a lookup has failed. */
  ghost function At(dirs: seq<char>, net: Network, k: nat): Option<string>
    requires |dirs| > 0
  {
    if k == 0 then Some("AAA")
    else
      match At(dirs, net, k - 1)
      case None => None
      case Some(t) => if t in net then Choose(net[t], Instr(dirs, k - 1)) else None
  }

  /** The walk first reaches `ZZZ` with step `n`. */
  ghost predicate FirstReach(dirs: seq<char>, net: Network, n: nat)
    requires |dirs| > 0
  {
    n >= 1 && At(dirs, net, n) == Some("ZZZ") &&
    forall j :: 1 <= j < n ==> At(dirs, net, j) != Some("ZZZ")
  }

  /** The loop from node `node`, `i` steps taken, at most `fuel` more. */
  function Run(dirs: seq<char>, net: Network, node: (string, string), i: nat, fuel: nat): Outcome
    requires |dirs| > 0
    decreases fuel
  {
    if fuel == 0 then OutOfFuel
    else
      match Choose(node, Instr(dirs, i))
      case None => Panicked
      case Some(next) =>
        if next == "ZZZ" then Steps(i + 1)
        else if next !in net then Panicked
        else Run(dirs, net, net[next], i + 1, fuel - 1)
  }

  /** `process_part1` with at most `fuel` steps: a missing `AAA` aborts before
      the loop, and an empty instruction list never enters it. */
  function Walk(dirs: seq<char>, net: Network, fuel: nat): Outcome {
    if "AAA" !in net then Panicked
    else if |dirs| == 0 then Steps(0)
    else Run(dirs, net, net["AAA"], 0, fuel)
  }

  /** The walk `process_part1` runs, bounded by `maxSteps` steps. */
  method Part1(directions: seq<char>, network: Network, maxSteps: nat) returns (r: Outcome)
    ensures r == Walk(directions, network, maxSteps)
  {
    if "AAA" !in network {
      return Panicked;
    }
    var current := network["AAA"];
    var steps: nat := 0;
    if |directions| == 0 {
      return Steps(0);
    }
    var pos := 0;
    while steps < maxSteps
      invariant steps <= maxSteps
      invariant pos == Pos(directions, steps)
      invariant Run(directions, network, current, steps, maxSteps - steps) == Walk(directions, network, maxSteps)
      decreases maxSteps - steps
    {
      var dir := directions[pos];
      assert dir == Instr(directions, steps);
      steps := steps + 1;
      pos := if pos + 1 == |directions| then 0 else pos + 1;
      var nextTag: string;
      if dir == 'L' {
        nextTag := current.0;
      } else if dir == 'R' {
        nextTag := current.1;
      } else {
        return Panicked;
      }
      if nextTag == "ZZZ" {
        return Steps(steps);
      }
      if nextTag !in network {
        return Panicked;
      }
      current := network[nextTag];
    }
    return OutOfFuel;
  }

  /** A failed walk stays failed. */
  lemma {:induction false} AtStaysNone(dirs: seq<char>, net: Network, k: nat, m: nat)
    requires |dirs| > 0 && k <= m && At(dirs, net, k).None?
    ensures At(dirs, net, m).None?
    decreases m - k
  {
    if k < m {
      AtStaysNone(dirs, net, k, m - 1);
    }
  }

  /** After step `i`, the walk first reaches `ZZZ` with step `n`. */
  ghost predicate FirstReachAfter(dirs: seq<char>, net: Network, i: nat, n: nat)
    requires |dirs| > 0
  {
    i < n && At(dirs, net, n) == Some("ZZZ") &&
    forall j :: i < j < n ==> At(dirs, net, j) != Some("ZZZ")
  }

  /** When step `i + 1` reaches `ZZZ`, that is the first reach after `i`. */
  lemma ReachNow(dirs: seq<char>, net: Network, i: nat, n: nat)
    requires |dirs| > 0 && At(dirs, net, i + 1) == Some("ZZZ")
    ensures FirstReachAfter(dirs, net, i, n) <==> n == i + 1
  {
    if n > i + 1 {
      assert !FirstReachAfter(dirs, net, i, n) by {
        assert i < i + 1 < n;
      }
    }
  }

  /** When step `i + 1` reaches another tag, the first reach after `i` is the
      first reach after `i + 1`. */
  lemma StepPast(dirs: seq<char>, net: Network, i: nat, n: nat)
    requires |dirs| > 0 && At(dirs, net, i + 1).Some? && At(dirs, net, i + 1) != Some("ZZZ")
    ensures FirstReachAfter(dirs, net, i, n) <==> FirstReachAfter(dirs, net, i + 1, n)
  {
    if FirstReachAfter(dirs, net, i + 1, n) {
      assert forall j :: i < j < n ==> At(dirs, net, j) != Some("ZZZ") by {
        forall j | i < j < n
          ensures At(dirs, net, j) != Some("ZZZ")
        {
          if j > i + 1 {
            assert i + 1 < j < n;
          }
        }
      }
    }
  }

  /** When the walk has failed by step `k`, nothing is reached after `i`
      from step `k` on. */
  lemma NoReachAfterFailure(dirs: seq<char>, net: Network, i: nat, k: nat, n: nat)
    requires |dirs| > 0 && i < k && At(dirs, net, k).None?
    requires forall j :: i < j < k ==> At(dirs, net, j) != Some("ZZZ")
    ensures !FirstReachAfter(dirs, net, i, n)
  {
    if k <= n {
      AtStaysNone(dirs, net, k, n);
    }
  }

  /** The loop from the node reached after `i` steps stops with `Steps(n)`
      exactly when `ZZZ` is first reached after `i` with step `n`, within the
      remaining fuel. */
  lemma {:induction false} RunReaches(dirs: seq<char>, net: Network, t: string, i: nat, fuel: nat, n: nat)
    requires |dirs| > 0 && At(dirs, net, i) == Some(t) && t in net
    ensures Run(dirs, net, net[t], i, fuel) == Steps(n) <==> FirstReachAfter(dirs, net, i, n) && n <= i + fuel
    decreases fuel
  {
    if fuel > 0 {
      var next := At(dirs, net, i + 1);
      assert next == Choose(net[t], Instr(dirs, i));
      match next
      case None =>
        assert Run(dirs, net, net[t], i, fuel) == Panicked;
        NoReachAfterFailure(dirs, net, i, i + 1, n);
      case Some(tag) =>
        if tag == "ZZZ" {
          assert Run(dirs, net, net[t], i, fuel) == Steps(i + 1);
          ReachNow(dirs, net, i, n);
        } else if tag !in net {
          assert Run(dirs, net, net[t], i, fuel) == Panicked;
          assert At(dirs, net, i + 2).None?;
          NoReachAfterFailure(dirs, net, i, i + 2, n);
        } else {
          assert Run(dirs, net, net[t], i, fuel) == Run(dirs, net, net[tag], i + 1, fuel - 1);
          RunReaches(dirs, net, tag, i + 1, fuel - 1, n);
          StepPast(dirs, net, i, n);
        }
    }
  }

  /** The walk returns `Steps(n)` exactly when `ZZZ` is first reached with step
      `n` and `n` is within the step bound. */
  lemma WalkReaches(dirs: seq<char>, net: Network, fuel: nat, n: nat)
    requires |dirs| > 0
    ensures Walk(dirs, net, fuel) == Steps(n) <==> FirstReach(dirs, net, n) && n <= fuel
  {
    if "AAA" in net {
      assert Walk(dirs, net, fuel) == Run(dirs, net, net["AAA"], 0, fuel);
      RunReaches(dirs, net, "AAA", 0, fuel, n);
      if Walk(dirs, net, fuel) == Steps(n) {
        assert n >= 1;
        assert At(dirs, net, n) == Some("ZZZ");
        assert FirstReach(dirs, net, n);
      }
      if FirstReach(dirs, net, n) && n <= fuel {
        assert Walk(dirs, net, fuel) == Steps(n);
      }
    } else {
      assert At(dirs, net, 1).None?;
      if n >= 1 {
        AtStaysNone(dirs, net, 1, n);
      }
    }
  }

  /** With at least one instruction, a completed walk has taken at least one
      step: the step that reaches `ZZZ` is counted. */
  lemma WalkAtLeastOne(dirs: seq<char>, net: Network, fuel: nat)
    requires |dirs| > 0 && Walk(dirs, net, fuel).Steps?
    ensures Walk(dirs, net, fuel).n >= 1
  {
    WalkReaches(dirs, net, fuel, Walk(dirs, net, fuel).n);
  }

  /** A larger step bound does not change a completed walk. */
  lemma WalkFuelMonotone(dirs: seq<char>, net: Network, fuel: nat, more: nat)
    requires |dirs| > 0 && fuel <= more && Walk(dirs, net, fuel).Steps?
    ensures Walk(dirs, net, more) == Walk(dirs, net, fuel)
  {
    var n := Walk(dirs, net, fuel).n;
    WalkReaches(dirs, net, fuel, n);
    WalkReaches(dirs, net, more, n);
  }

  /** The example network: AAA goes to BBB either way, BBB goes back to AAA or
      on to ZZZ. */
  const ExampleNetwork: Network := map["AAA" := ("BBB", "BBB"), "BBB" := ("AAA", "ZZZ"), "ZZZ" := ("ZZZ", "ZZZ")]

  /** Following `LLR` takes six steps: three rounds of the instructions. */
  lemma ExampleWalk()
    ensures Walk("LLR", ExampleNetwork, 6) == Steps(6)
  {
  }
}
