/** The worked example of rust/solutions/day-02/src/lib.rs: five games, of
    which 1, 2 and 5 are possible with 12 red, 13 green and 14 blue cubes. */
module CubeGameExamples {
  import opened Wrappers
  import opened Text
  import opened CubeGame

  lemma FlattenTwo(a: seq<Draw>, b: seq<Draw>)
    ensures Flatten([a, b]) == a + b
  {
    assert [a, b][1..] == [b] && [b][1..] == [];
    assert Flatten([b]) == b + [] == b;
  }

  lemma FlattenThree(a: seq<Draw>, b: seq<Draw>, c: seq<Draw>)
    ensures Flatten([a, b, c]) == a + b + c
  {
    assert [a, b, c][1..] == [b, c];
    FlattenTwo(b, c);
  }

  predicate InBag(colour: string) {
    colour == "red" || colour == "green" || colour == "blue"
  }

  lemma BagColoursPlain(sets: seq<seq<Draw>>)
    requires forall s, i :: 0 <= s < |sets| && 0 <= i < |sets[s]| ==> InBag(sets[s][i].colour)
    ensures forall s, i :: 0 <= s < |sets| && 0 <= i < |sets[s]| ==> Plain(sets[s][i].colour)
  {
  }

  lemma ExampleGame1(g: Game)
    requires g == Game(1, [[Draw(3, "blue"), Draw(4, "red")], [Draw(1, "red"), Draw(2, "green"), Draw(6, "blue")], [Draw(2, "green")]])
    ensures WellFormed(g) && KnownColours(g) && Possible(g)
  {
    BagColoursPlain(g.sets);
    FlattenThree(g.sets[0], g.sets[1], g.sets[2]);
  }

  lemma ExampleGame2(g: Game)
    requires g == Game(2, [[Draw(1, "blue"), Draw(2, "green")], [Draw(3, "green"), Draw(4, "blue"), Draw(1, "red")], [Draw(1, "green"), Draw(1, "blue")]])
    ensures WellFormed(g) && KnownColours(g) && Possible(g)
  {
    BagColoursPlain(g.sets);
    FlattenThree(g.sets[0], g.sets[1], g.sets[2]);
  }

  /** Twenty red cubes are more than the bag holds. */
  lemma ExampleGame3(g: Game)
    requires g == Game(3, [[Draw(8, "green"), Draw(6, "blue"), Draw(20, "red")], [Draw(5, "blue"), Draw(4, "red"), Draw(13, "green")], [Draw(5, "green"), Draw(1, "red")]])
    ensures WellFormed(g) && KnownColours(g) && !Possible(g)
  {
    BagColoursPlain(g.sets);
    FlattenThree(g.sets[0], g.sets[1], g.sets[2]);
    assert Flatten(g.sets)[2] == Draw(20, "red");
  }

  /** Fifteen blue cubes are more than the bag holds. */
  lemma ExampleGame4(g: Game)
    requires g == Game(4, [[Draw(1, "green"), Draw(3, "red"), Draw(6, "blue")], [Draw(3, "green"), Draw(6, "red")], [Draw(3, "green"), Draw(15, "blue"), Draw(14, "red")]])
    ensures WellFormed(g) && KnownColours(g) && !Possible(g)
  {
    BagColoursPlain(g.sets);
    FlattenThree(g.sets[0], g.sets[1], g.sets[2]);
    assert Flatten(g.sets)[6] == Draw(15, "blue");
  }

  lemma ExampleGame5(g: Game)
    requires g == Game(5, [[Draw(6, "red"), Draw(1, "blue"), Draw(3, "green")], [Draw(2, "blue"), Draw(1, "red"), Draw(2, "green")]])
    ensures WellFormed(g) && KnownColours(g) && Possible(g)
  {
    BagColoursPlain(g.sets);
    FlattenTwo(g.sets[0], g.sets[1]);
  }

  /** The example input: games 1, 2 and 5 are possible, so part 1 is 8. */
  lemma ExamplePart1(g1: Game, g2: Game, g3: Game, g4: Game, g5: Game)
    requires g1 == Game(1, [[Draw(3, "blue"), Draw(4, "red")], [Draw(1, "red"), Draw(2, "green"), Draw(6, "blue")], [Draw(2, "green")]])
    requires g2 == Game(2, [[Draw(1, "blue"), Draw(2, "green")], [Draw(3, "green"), Draw(4, "blue"), Draw(1, "red")], [Draw(1, "green"), Draw(1, "blue")]])
    requires g3 == Game(3, [[Draw(8, "green"), Draw(6, "blue"), Draw(20, "red")], [Draw(5, "blue"), Draw(4, "red"), Draw(13, "green")], [Draw(5, "green"), Draw(1, "red")]])
    requires g4 == Game(4, [[Draw(1, "green"), Draw(3, "red"), Draw(6, "blue")], [Draw(3, "green"), Draw(6, "red")], [Draw(3, "green"), Draw(15, "blue"), Draw(14, "red")]])
    requires g5 == Game(5, [[Draw(6, "red"), Draw(1, "blue"), Draw(3, "green")], [Draw(2, "blue"), Draw(1, "red"), Draw(2, "green")]])
    ensures Playable([g1, g2, g3, g4, g5])
    ensures Part1(Join(RenderAll([g1, g2, g3, g4, g5]), "\n") + "\n") == Some(8)
  {
    ExampleGame1(g1);
    ExampleGame2(g2);
    ExampleGame3(g3);
    ExampleGame4(g4);
    ExampleGame5(g5);
    CreditsOfFive(g1, g2, g3, g4, g5);
    SumOfFive(1, 2, 0, 0, 5);
    PartOneOfGames([g1, g2, g3, g4, g5]);
  }

  lemma CreditsOfFive(a: Game, b: Game, c: Game, d: Game, e: Game)
    requires WellFormed(a) && WellFormed(b) && WellFormed(c) && WellFormed(d) && WellFormed(e)
    requires KnownColours(a) && KnownColours(b) && KnownColours(c) && KnownColours(d) && KnownColours(e)
    ensures Playable([a, b, c, d, e])
    ensures Credits([a, b, c, d, e]) == [Credit(a), Credit(b), Credit(c), Credit(d), Credit(e)]
  {
  }

  lemma SumOfFive(a: nat, b: nat, c: nat, d: nat, e: nat)
    ensures Sum([a, b, c, d, e]) == a + b + c + d + e
  {
    var xs := [a, b, c, d, e];
    assert xs[..4] == [a, b, c, d] && [a, b, c, d][..3] == [a, b, c] && [a, b, c][..2] == [a, b];
    assert [a, b][..1] == [a] && [a][..0] == [];
    assert Sum([a]) == a;
    assert Sum([a, b]) == a + b;
    assert Sum([a, b, c]) == a + b + c;
    assert Sum([a, b, c, d]) == a + b + c + d;
  }
}
