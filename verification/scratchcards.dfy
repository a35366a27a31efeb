/** Day 4: scratchcards scored by their matching numbers (part 1), and copies
    won by matches cascading down the pile (part 2).
    Models rust/solutions/day-04/src/lib.rs. */
module Scratchcards {
  /** One card: the winning numbers left of the bar and the numbers held right of it. */
  datatype Card = Card(left: seq<nat>, right: seq<nat>)

  /** The positions among the first `n` of `right` holding a number that also
      occurs in `left`. */
  ghost function MatchingPositions(card: Card, n: nat): set<nat> {
    set i: nat | i < n && i < |card.right| && card.right[i] in card.left
  }

  /** How many of the first `n` held numbers are winning numbers. */
  function MatchesIn(card: Card, n: nat): (count: nat)
    requires n <= |card.right|
    ensures count <= n
  {
    if n == 0 then 0 else MatchesIn(card, n - 1) + (if card.right[n - 1] in card.left then 1 else 0)
  }

  /** The number of entries of `right` found in `left`; a repeated entry counts
      every time it occurs. */
  function MatchCount(card: Card): (count: nat)
    ensures count <= |card.right|
  {
    MatchesIn(card, |card.right|)
  }

  lemma {:induction false} MatchesInPositions(card: Card, n: nat)
    requires n <= |card.right|
    ensures MatchesIn(card, n) == |MatchingPositions(card, n)|
  {
    if n > 0 {
      MatchesInPositions(card, n - 1);
      if card.right[n - 1] in card.left {
        assert MatchingPositions(card, n) == MatchingPositions(card, n - 1) + {n - 1};
      } else {
        assert MatchingPositions(card, n) == MatchingPositions(card, n - 1);
      }
    } else {
      assert MatchingPositions(card, n) == {};
    }
  }

  /** The match count is the number of positions of `right` whose number is a
      winning number. */
  lemma MatchCountPositions(card: Card)
    ensures MatchCount(card) == |MatchingPositions(card, |card.right|)|
  {
    MatchesInPositions(card, |card.right|);
  }

  /** Counting a prefix does not look past it. */
  lemma {:induction false} MatchesInPrefix(left: seq<nat>, right: seq<nat>, more: seq<nat>, n: nat)
    requires n <= |right|
    ensures MatchesIn(Card(left, right + more), n) == MatchesIn(Card(left, right), n)
  {
    if n > 0 {
      MatchesInPrefix(left, right, more, n - 1);
    }
  }

  /** One more held number adds one to the count exactly when it is a winning number. */
  lemma MatchSnoc(left: seq<nat>, right: seq<nat>, x: nat)
    ensures MatchCount(Card(left, right + [x])) == MatchCount(Card(left, right)) + if x in left then 1 else 0
  {
    MatchesInPrefix(left, right, [x], |right|);
  }

  function Pow2(n: nat): (p: nat)
    ensures p >= 1
  {
    if n == 0 then 1 else 2 * Pow2(n - 1)
  }

  /** A card's score: nothing without a match, 2^(count - 1) otherwise. */
  function Score(card: Card): (s: nat)
    ensures s == 0 <==> MatchCount(card) == 0
    ensures MatchCount(card) > 0 ==> s == Pow2(MatchCount(card) - 1)
  {
    var count := MatchCount(card);
    if count == 0 then 0 else Pow2(count - 1)
  }

  /** The first match is worth 1 and every further match doubles the score. */
  lemma ScoreDoubles(card: Card, x: nat)
    ensures x !in card.left ==> Score(Card(card.left, card.right + [x])) == Score(card)
    ensures x in card.left ==>
      Score(Card(card.left, card.right + [x])) == if Score(card) == 0 then 1 else 2 * Score(card)
  {
    MatchSnoc(card.left, card.right, x);
  }

  /** The scores of the first `n` cards added up. */
  function SumScores(cards: seq<Card>, n: nat): nat
    requires n <= |cards|
  {
    if n == 0 then 0 else SumScores(cards, n - 1) + Score(cards[n - 1])
  }

  /** Part 1: the scores of all cards added up. It is zero exactly when no
      card has a match. */
  function Part1(cards: seq<Card>): (total: nat)
    ensures total == 0 <==> forall i :: 0 <= i < |cards| ==> MatchCount(cards[i]) == 0
  {
    SumZero(cards, |cards|);
    SumScores(cards, |cards|)
  }

  lemma {:induction false} SumZero(cards: seq<Card>, n: nat)
    requires n <= |cards|
    ensures SumScores(cards, n) == 0 <==> forall i :: 0 <= i < n ==> MatchCount(cards[i]) == 0
  {
    if n > 0 {
      SumZero(cards, n - 1);
    }
  }

  /** Whether card `j` wins a copy of card `k`: `k` is one of the next
      MatchCount(cards[j]) cards after `j`. */
  predicate Wins(cards: seq<Card>, j: nat, k: nat)
    requires j < |cards|
  {
    j < k <= j + MatchCount(cards[j])
  }

  /** The number of instances of card `k` at the end: the original plus one
      copy for every instance of an earlier card that wins it. */
  function Copies(cards: seq<Card>, k: nat): (c: nat)
    requires k < |cards|
    ensures c >= 1
    decreases k, 1, 0
  {
    1 + Contrib(cards, k, k)
  }

  /** The copies of card `k` won by the instances of cards 0, ..., i - 1. */
  function Contrib(cards: seq<Card>, k: nat, i: nat): nat
    requires k < |cards| && i <= k
    decreases k, 0, i
  {
    if i == 0 then 0
    else Contrib(cards, k, i - 1) + (if Wins(cards, i - 1, k) then Copies(cards, i - 1) else 0)
  }

  function SumCopies(cards: seq<Card>, n: nat): nat
    requires n <= |cards|
  {
    if n == 0 then 0 else SumCopies(cards, n - 1) + Copies(cards, n - 1)
  }

  /** Every card holds at least its original, so the pile never shrinks. */
  lemma {:induction false} SumCopiesAtLeast(cards: seq<Card>, n: nat)
    requires n <= |cards|
    ensures SumCopies(cards, n) >= n
  {
    if n > 0 {
      SumCopiesAtLeast(cards, n - 1);
    }
  }

  /** Part 2: `acc` starts with one instance of each card; card i in turn adds
      its acc[i] instances to each of the next `wins` cards that exist. */
  method Part2(cards: seq<Card>) returns (total: nat)
    ensures total == SumCopies(cards, |cards|)
    ensures total >= |cards|
  {
    var acc := new nat[|cards|](_ => 1);
    for i := 0 to |cards|
      invariant forall k :: 0 <= k < acc.Length ==> acc[k] == 1 + Contrib(cards, k, if i <= k then i else k)
    {
      var currentCount := acc[i];
      assert currentCount == Copies(cards, i);
      var wins := MatchCount(cards[i]);
      for winOffset := 1 to wins + 1
        invariant forall k :: 0 <= k < acc.Length && i < k < i + winOffset ==> acc[k] == 1 + Contrib(cards, k, i + 1)
        invariant forall k :: 0 <= k < acc.Length && !(i < k < i + winOffset) ==> acc[k] == 1 + Contrib(cards, k, if i <= k then i else k)
      {
        var wonIndex := i + winOffset;
        if wonIndex < acc.Length {
          acc[wonIndex] := acc[wonIndex] + currentCount;
        }
      }
    }
    total := 0;
    for k := 0 to acc.Length
      invariant total == SumCopies(cards, k)
    {
      assert acc[k] == Copies(cards, k);
      total := total + acc[k];
    }
    SumCopiesAtLeast(cards, |cards|);
  }

  /** The six example cards. */
  const Example := [
    Card([41, 48, 83, 86, 17], [83, 86, 6, 31, 17, 9, 48, 53]),
    Card([13, 32, 20, 16, 61], [61, 30, 68, 82, 17, 32, 24, 19]),
    Card([1, 21, 53, 59, 44], [69, 82, 63, 72, 16, 21, 14, 1]),
    Card([41, 92, 73, 84, 69], [59, 84, 76, 51, 58, 5, 54, 83]),
    Card([87, 83, 26, 28, 32], [88, 30, 70, 12, 93, 22, 82, 36]),
    Card([31, 18, 13, 56, 72], [74, 77, 10, 23, 35, 67, 36, 11])
  ]

  lemma ExampleCard1()
    ensures MatchCount(Example[0]) == 4
  {
    assert MatchesIn(Card([41, 48, 83, 86, 17], [83, 86, 6, 31, 17, 9, 48, 53]), 8) == 4;
  }

  lemma ExampleCard2()
    ensures MatchCount(Example[1]) == 2
  {
    assert MatchesIn(Card([13, 32, 20, 16, 61], [61, 30, 68, 82, 17, 32, 24, 19]), 8) == 2;
  }

  lemma ExampleCard3()
    ensures MatchCount(Example[2]) == 2
  {
    assert MatchesIn(Card([1, 21, 53, 59, 44], [69, 82, 63, 72, 16, 21, 14, 1]), 8) == 2;
  }

  lemma ExampleCard4()
    ensures MatchCount(Example[3]) == 1
  {
    assert MatchesIn(Card([41, 92, 73, 84, 69], [59, 84, 76, 51, 58, 5, 54, 83]), 8) == 1;
  }

  lemma ExampleCard5()
    ensures MatchCount(Example[4]) == 0
  {
    assert MatchesIn(Card([87, 83, 26, 28, 32], [88, 30, 70, 12, 93, 22, 82, 36]), 8) == 0;
  }

  lemma ExampleCard6()
    ensures MatchCount(Example[5]) == 0
  {
    assert MatchesIn(Card([31, 18, 13, 56, 72], [74, 77, 10, 23, 35, 67, 36, 11]), 8) == 0;
  }

  lemma ExampleMatches()
    ensures MatchCount(Example[0]) == 4 && MatchCount(Example[1]) == 2 && MatchCount(Example[2]) == 2
    ensures MatchCount(Example[3]) == 1 && MatchCount(Example[4]) == 0 && MatchCount(Example[5]) == 0
  {
    ExampleCard1();
    ExampleCard2();
    ExampleCard3();
    ExampleCard4();
    ExampleCard5();
    ExampleCard6();
  }

  /** The example scores 8 + 2 + 2 + 1 = 13. */
  lemma ExamplePart1()
    ensures Part1(Example) == 13
  {
    ExampleMatches();
    assert SumScores(Example, 6) == 8 + 2 + 2 + 1;
  }

  /** The example ends with 1, 2, 4, 8, 14 and 1 instances: 30 cards. */
  lemma ExamplePart2()
    ensures SumCopies(Example, |Example|) == 30
  {
    ExampleMatches();
    assert Copies(Example, 0) == 1;
    assert Copies(Example, 1) == 2;
    assert Copies(Example, 2) == 4;
    assert Copies(Example, 3) == 8;
    assert Copies(Example, 4) == 14;
    assert Copies(Example, 5) == 1;
  }
}
