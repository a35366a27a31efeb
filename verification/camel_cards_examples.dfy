/** The worked example of day 7: five hands whose total winnings are 6440
    under the plain rules and 5905 with jokers. Models the tests of
    rust/solutions/day-07/src/lib.rs. */
module CamelCardsExamples {
  import opened Wrappers
  import opened Seqs
  import Text
  import opened CamelCards

  /** `keys` lists the distinct cards of `hand` once each, and their sizes
      `g` come out largest first. */
  predicate Keyed(hand: string, keys: string, g: seq<nat>) {
    NoRepeats(keys) && (forall c :: c in keys <==> c in hand) && Sizes(hand, keys) == g && SortedDesc(g)
  }

  lemma TypeFrom(hand: string, keys: string, g: seq<nat>, t: HandType)
    requires Keyed(hand, keys, g) && Classify(g) == t
    ensures TypeOf(hand) == t
  {
    GroupsFrom(hand, keys);
  }

  lemma JokerTypeFrom(hand: string, rest: string, keys: string, g: seq<nat>, jokers: nat, t: HandType)
    requires WithoutJokers(hand) == rest && Keyed(rest, keys, g) && Occurrences(hand, 'J') == jokers
    requires Classify(AddJokers(g, jokers)) == t
    ensures JokerTypeOf(hand) == t
  {
    GroupsFrom(rest, keys);
  }

  lemma KeyedA(h: string, keys: string)
    requires h == "32T3K" && keys == "3TK2"
    ensures Keyed(h, keys, [2, 1, 1, 1])
  {
    assert multiset(h)['3'] == 2 && multiset(h)['2'] == 1 && multiset(h)['T'] == 1 && multiset(h)['K'] == 1;
  }

  lemma KeyedB(h: string, keys: string)
    requires h == "T55J5" && keys == "5TJ"
    ensures Keyed(h, keys, [3, 1, 1])
  {
    assert multiset(h)['5'] == 3 && multiset(h)['T'] == 1 && multiset(h)['J'] == 1;
  }

  lemma KeyedC(h: string, keys: string)
    requires h == "KK677" && keys == "K76"
    ensures Keyed(h, keys, [2, 2, 1])
  {
    assert multiset(h)['K'] == 2 && multiset(h)['7'] == 2 && multiset(h)['6'] == 1;
  }

  lemma KeyedD(h: string, keys: string)
    requires h == "KTJJT" && keys == "TJK"
    ensures Keyed(h, keys, [2, 2, 1])
  {
    assert multiset(h)['T'] == 2 && multiset(h)['J'] == 2 && multiset(h)['K'] == 1;
  }

  lemma KeyedE(h: string, keys: string)
    requires h == "QQQJA" && keys == "QJA"
    ensures Keyed(h, keys, [3, 1, 1])
  {
    assert multiset(h)['Q'] == 3 && multiset(h)['J'] == 1 && multiset(h)['A'] == 1;
  }

  lemma TypeA(h: string)
    requires |h| == 5 && h[0] == '3' && h[1] == '2' && h[2] == 'T' && h[3] == '3' && h[4] == 'K'
    ensures TypeOf(h) == Pair
  {
    KeyedA(h, "3TK2");
    TypeFrom(h, "3TK2", [2, 1, 1, 1], Pair);
  }

  lemma TypeB(h: string)
    requires |h| == 5 && h[0] == 'T' && h[1] == '5' && h[2] == '5' && h[3] == 'J' && h[4] == '5'
    ensures TypeOf(h) == Three
  {
    KeyedB(h, "5TJ");
    TypeFrom(h, "5TJ", [3, 1, 1], Three);
  }

  lemma TypeC(h: string)
    requires |h| == 5 && h[0] == 'K' && h[1] == 'K' && h[2] == '6' && h[3] == '7' && h[4] == '7'
    ensures TypeOf(h) == TwoPair
  {
    KeyedC(h, "K76");
    TypeFrom(h, "K76", [2, 2, 1], TwoPair);
  }

  lemma TypeD(h: string)
    requires |h| == 5 && h[0] == 'K' && h[1] == 'T' && h[2] == 'J' && h[3] == 'J' && h[4] == 'T'
    ensures TypeOf(h) == TwoPair
  {
    KeyedD(h, "TJK");
    TypeFrom(h, "TJK", [2, 2, 1], TwoPair);
  }

  lemma TypeE(h: string)
    requires |h| == 5 && h[0] == 'Q' && h[1] == 'Q' && h[2] == 'Q' && h[3] == 'J' && h[4] == 'A'
    ensures TypeOf(h) == Three
  {
    KeyedE(h, "QJA");
    TypeFrom(h, "QJA", [3, 1, 1], Three);
  }

  /** The plain types: one pair, three of a kind, two pair, two pair, three
      of a kind. */
  lemma PlainTypes(a: string, b: string, c: string, d: string, e: string)
    requires a == "32T3K" && b == "T55J5" && c == "KK677" && d == "KTJJT" && e == "QQQJA"
    ensures TypeOf(a) == Pair && TypeOf(b) == Three && TypeOf(c) == TwoPair
    ensures TypeOf(d) == TwoPair && TypeOf(e) == Three
  {
    TypeA(a);
    TypeB(b);
    TypeC(c);
    TypeD(d);
    TypeE(e);
  }

  lemma KeyedRestB(rest: string, keys: string)
    requires rest == "T555" && keys == "5T"
    ensures Keyed(rest, keys, [3, 1])
  {
    assert multiset(rest)['5'] == 3 && multiset(rest)['T'] == 1;
  }

  lemma KeyedRestD(rest: string, keys: string)
    requires rest == "KTT" && keys == "TK"
    ensures Keyed(rest, keys, [2, 1])
  {
    assert multiset(rest)['T'] == 2 && multiset(rest)['K'] == 1;
  }

  lemma KeyedRestE(rest: string, keys: string)
    requires rest == "QQQA" && keys == "QA"
    ensures Keyed(rest, keys, [3, 1])
  {
    assert multiset(rest)['Q'] == 3 && multiset(rest)['A'] == 1;
  }

  /** A five-card hand whose only joker is its fourth card keeps the other
      four cards in order. */
  lemma JokerFourth(h: string)
    requires |h| == 5 && h[3] == 'J' && h[0] != 'J' && h[1] != 'J' && h[2] != 'J' && h[4] != 'J'
    ensures WithoutJokers(h) == [h[0], h[1], h[2], h[4]] && Occurrences(h, 'J') == 1
  {
    assert WithoutJokers(h[4..]) == [h[4]] && Occurrences(h[4..], 'J') == 0 by {
      assert h[4..][1..] == [];
    }
    assert WithoutJokers(h[3..]) == [h[4]] && Occurrences(h[3..], 'J') == 1 by {
      assert h[3..][1..] == h[4..];
    }
    assert WithoutJokers(h[2..]) == [h[2], h[4]] && Occurrences(h[2..], 'J') == 1 by {
      assert h[2..][1..] == h[3..];
    }
    assert WithoutJokers(h[1..]) == [h[1], h[2], h[4]] && Occurrences(h[1..], 'J') == 1 by {
      assert h[1..][1..] == h[2..];
    }
  }

  lemma JokersD(h: string)
    requires |h| == 5 && h[0] == 'K' && h[1] == 'T' && h[2] == 'J' && h[3] == 'J' && h[4] == 'T'
    ensures WithoutJokers(h) == "KTT" && Occurrences(h, 'J') == 2
  {
    assert h == ['K'] + "TJJT";
    assert WithoutJokers(h) == ['K'] + WithoutJokers("TJJT");
  }

  lemma JokerTypeB(h: string)
    requires |h| == 5 && h[0] == 'T' && h[1] == '5' && h[2] == '5' && h[3] == 'J' && h[4] == '5'
    ensures JokerTypeOf(h) == Four
  {
    JokerFourth(h);
    KeyedRestB("T555", "5T");
    JokerTypeFrom(h, "T555", "5T", [3, 1], 1, Four);
  }

  lemma JokerTypeD(h: string)
    requires |h| == 5 && h[0] == 'K' && h[1] == 'T' && h[2] == 'J' && h[3] == 'J' && h[4] == 'T'
    ensures JokerTypeOf(h) == Four
  {
    JokersD(h);
    KeyedRestD("KTT", "TK");
    JokerTypeFrom(h, "KTT", "TK", [2, 1], 2, Four);
  }

  lemma JokerTypeE(h: string)
    requires |h| == 5 && h[0] == 'Q' && h[1] == 'Q' && h[2] == 'Q' && h[3] == 'J' && h[4] == 'A'
    ensures JokerTypeOf(h) == Four
  {
    JokerFourth(h);
    KeyedRestE("QQQA", "QA");
    JokerTypeFrom(h, "QQQA", "QA", [3, 1], 1, Four);
  }

  lemma PlainWithoutJokers(h: string, t: HandType)
    requires 'J' !in h && |h| > 0 && TypeOf(h) == t
    ensures JokerTypeOf(h) == t
  {
    NoJokers(h);
  }

  lemma JokerTypeA(h: string)
    requires |h| == 5 && h[0] == '3' && h[1] == '2' && h[2] == 'T' && h[3] == '3' && h[4] == 'K'
    ensures JokerTypeOf(h) == Pair
  {
    assert 'J' !in h;
    TypeA(h);
    PlainWithoutJokers(h, Pair);
  }

  lemma JokerTypeC(h: string)
    requires |h| == 5 && h[0] == 'K' && h[1] == 'K' && h[2] == '6' && h[3] == '7' && h[4] == '7'
    ensures JokerTypeOf(h) == TwoPair
  {
    assert 'J' !in h;
    TypeC(h);
    PlainWithoutJokers(h, TwoPair);
  }

  /** With jokers the three hands holding one become four of a kind. */
  lemma JokerTypes(a: string, b: string, c: string, d: string, e: string)
    requires a == "32T3K" && b == "T55J5" && c == "KK677" && d == "KTJJT" && e == "QQQJA"
    ensures JokerTypeOf(a) == Pair && JokerTypeOf(b) == Four && JokerTypeOf(c) == TwoPair
    ensures JokerTypeOf(d) == Four && JokerTypeOf(e) == Four
  {
    JokerTypeA(a);
    JokerTypeB(b);
    JokerTypeC(c);
    JokerTypeD(d);
    JokerTypeE(e);
  }

  /** A hand of a stronger type beats the other hand. */
  lemma ByType(p: Play, q: Play, typeOf: string -> HandType, order: string)
    requires Rank(typeOf(p.hand)) < Rank(typeOf(q.hand))
    ensures Beats(p, q, typeOf, order)
  {
  }

  /** Of two hands of one type, the one with the stronger first differing
      card wins. */
  lemma ByCard(p: Play, q: Play, typeOf: string -> HandType, order: string, k: nat, i: nat, j: nat)
    requires typeOf(p.hand) == typeOf(q.hand) && FirstDiff(p.hand, q.hand) == Some(k)
    requires Text.IndexOf(order, p.hand[k]) == Some(i) && Text.IndexOf(order, q.hand[k]) == Some(j) && i < j
    ensures Beats(p, q, typeOf, order)
  {
  }

  /** A list in which each play beats the next is descending. */
  lemma {:induction false} Chain(s: seq<Play>, typeOf: string -> HandType, order: string)
    requires forall i :: 0 <= i < |s| - 1 ==> Beats(s[i], s[i + 1], typeOf, order)
    ensures Ascending(s, typeOf, order)
  {
    if |s| > 1 {
      Chain(s[1..], typeOf, order);
      forall j | 1 < j < |s|
        ensures Beats(s[0], s[j], typeOf, order)
      {
        assert Beats(s[1], s[j], typeOf, order) by {
          assert s[1] == s[1..][0] && s[j] == s[1..][j - 1];
        }
        CompareTransitive(s[0].hand, s[1].hand, s[j].hand, typeOf, order);
      }
    }
  }

  /** Five plays listed weakest first are weighed 1 to 5. */
  lemma WinningsOfFive(p1: Play, p2: Play, p3: Play, p4: Play, p5: Play)
    ensures Winnings(Reverse([p5, p4, p3, p2, p1])) == p1.bid + 2 * p2.bid + 3 * p3.bid + 4 * p4.bid + 5 * p5.bid
  {
    var r := Reverse([p5, p4, p3, p2, p1]);
    assert r == [p1, p2, p3, p4, p5];
    assert [p1, p2, p3, p4, p5][..4] == [p1, p2, p3, p4];
    assert [p1, p2, p3, p4][..3] == [p1, p2, p3];
    assert [p1, p2, p3][..2] == [p1, p2];
    assert [p1, p2][..1] == [p1];
    assert [p1][..0] == [];
    assert Winnings([p1]) == p1.bid;
    assert Winnings([p1, p2]) == p1.bid + 2 * p2.bid;
    assert Winnings([p1, p2, p3]) == p1.bid + 2 * p2.bid + 3 * p3.bid;
    assert Winnings([p1, p2, p3, p4]) == p1.bid + 2 * p2.bid + 3 * p3.bid + 4 * p4.bid;
  }

  lemma PositionK(order: string)
    requires order == CardOrder || order == JokerOrder
    ensures Text.IndexOf(order, 'K') == Some(1)
  {
    assert order[0] != 'K' && order[1] == 'K';
  }

  lemma PositionQ(order: string)
    requires order == CardOrder || order == JokerOrder
    ensures Text.IndexOf(order, 'Q') == Some(2)
  {
    assert order[0] != 'Q' && order[1] != 'Q' && order[2] == 'Q';
  }

  lemma PositionT(order: string)
    requires order == CardOrder || order == JokerOrder
    ensures Text.IndexOf(order, 'T') == if order == CardOrder then Some(4) else Some(3)
  {
    assert order[0] != 'T' && order[1] != 'T' && order[2] != 'T';
  }

  /** What the ranking of the example rests on, read off its hands. */
  lemma HandFacts(a: Play, b: Play, c: Play, d: Play, e: Play)
    requires a == Play("32T3K", 765) && b == Play("T55J5", 684) && c == Play("KK677", 28)
    requires d == Play("KTJJT", 220) && e == Play("QQQJA", 483)
    ensures |a.hand| == |b.hand| == |c.hand| == |d.hand| == |e.hand| == 5
    ensures FirstDiff(e.hand, b.hand) == Some(0) && FirstDiff(c.hand, d.hand) == Some(1) && FirstDiff(d.hand, e.hand) == Some(0)
    ensures e.hand[0] == 'Q' && b.hand[0] == 'T' && c.hand[1] == 'K' && d.hand[1] == 'T' && d.hand[0] == 'K'
  {
    assert e.hand[0] != b.hand[0] && d.hand[0] != e.hand[0];
    assert c.hand[0] == d.hand[0] && c.hand[1..][0] != d.hand[1..][0];
  }

  /** Under the plain rules the example ranks, strongest first, QQQJA,
      T55J5, KK677, KTJJT, 32T3K. */
  lemma PlainRanking(a: Play, b: Play, c: Play, d: Play, e: Play, typeOf: string -> HandType, order: string)
    requires typeOf(a.hand) == Pair && typeOf(b.hand) == Three && typeOf(c.hand) == TwoPair
    requires typeOf(d.hand) == TwoPair && typeOf(e.hand) == Three
    requires |b.hand| == |c.hand| == |d.hand| == |e.hand| == 5
    requires FirstDiff(e.hand, b.hand) == Some(0) && FirstDiff(c.hand, d.hand) == Some(1)
    requires e.hand[0] == 'Q' && b.hand[0] == 'T' && c.hand[1] == 'K' && d.hand[1] == 'T'
    requires Text.IndexOf(order, 'K') == Some(1) && Text.IndexOf(order, 'Q') == Some(2)
    requires Text.IndexOf(order, 'T') == Some(4)
    ensures Ascending([e, b, c, d, a], typeOf, order)
  {
    ByCard(e, b, typeOf, order, 0, 2, 4);
    ByType(b, c, typeOf, order);
    ByCard(c, d, typeOf, order, 1, 1, 4);
    ByType(d, a, typeOf, order);
    Chain([e, b, c, d, a], typeOf, order);
  }

  /** With jokers the example ranks, strongest first, KTJJT, QQQJA, T55J5,
      KK677, 32T3K. */
  lemma JokerRanking(a: Play, b: Play, c: Play, d: Play, e: Play, typeOf: string -> HandType, order: string)
    requires typeOf(a.hand) == Pair && typeOf(b.hand) == Four && typeOf(c.hand) == TwoPair
    requires typeOf(d.hand) == Four && typeOf(e.hand) == Four
    requires |b.hand| == |d.hand| == |e.hand| == 5
    requires FirstDiff(e.hand, b.hand) == Some(0) && FirstDiff(d.hand, e.hand) == Some(0)
    requires e.hand[0] == 'Q' && b.hand[0] == 'T' && d.hand[0] == 'K'
    requires Text.IndexOf(order, 'K') == Some(1) && Text.IndexOf(order, 'Q') == Some(2)
    requires Text.IndexOf(order, 'T') == Some(3)
    ensures Ascending([d, e, b, c, a], typeOf, order)
  {
    ByCard(d, e, typeOf, order, 0, 1, 2);
    ByCard(e, b, typeOf, order, 0, 2, 3);
    ByType(b, c, typeOf, order);
    ByType(c, a, typeOf, order);
    Chain([d, e, b, c, a], typeOf, order);
  }

  /** The five plays of the example. */
  const Example := [Play("32T3K", 765), Play("T55J5", 684), Play("KK677", 28), Play("KTJJT", 220), Play("QQQJA", 483)]

  /** Five plays whose descending arrangement is p5, ..., p1 win the bid of
      p1 once, the bid of p2 twice, and so on. */
  lemma TotalOfFive(a: Play, b: Play, c: Play, d: Play, e: Play, p1: Play, p2: Play, p3: Play, p4: Play, p5: Play,
                    typeOf: string -> HandType, order: string)
    requires Ascending([p5, p4, p3, p2, p1], typeOf, order)
    requires multiset([a, b, c, d, e]) == multiset([p5, p4, p3, p2, p1])
    ensures Comparable([a, b, c, d, e], typeOf, order)
    ensures TotalWinnings([a, b, c, d, e], typeOf, order) == p1.bid + 2 * p2.bid + 3 * p3.bid + 4 * p4.bid + 5 * p5.bid
  {
    Arrangement([a, b, c, d, e], [p5, p4, p3, p2, p1], typeOf, order);
    WinningsOfFive(p1, p2, p3, p4, p5);
  }

  lemma PlainSorted(a: Play, b: Play, c: Play, d: Play, e: Play)
    requires a == Play("32T3K", 765) && b == Play("T55J5", 684) && c == Play("KK677", 28)
    requires d == Play("KTJJT", 220) && e == Play("QQQJA", 483)
    ensures Ascending([e, b, c, d, a], TypeOf, CardOrder)
  {
    HandFacts(a, b, c, d, e);
    PlainTypes(a.hand, b.hand, c.hand, d.hand, e.hand);
    PositionK(CardOrder);
    PositionQ(CardOrder);
    PositionT(CardOrder);
    PlainRanking(a, b, c, d, e, TypeOf, CardOrder);
  }

  lemma PlainTotal(a: Play, b: Play, c: Play, d: Play, e: Play, typeOf: string -> HandType, order: string)
    requires Ascending([e, b, c, d, a], typeOf, order)
    requires a.bid == 765 && b.bid == 684 && c.bid == 28 && d.bid == 220 && e.bid == 483
    ensures Comparable([a, b, c, d, e], typeOf, order)
    ensures TotalWinnings([a, b, c, d, e], typeOf, order) == 6440
  {
    assert multiset([a, b, c, d, e]) == multiset([e, b, c, d, a]);
    TotalOfFive(a, b, c, d, e, a, d, c, b, e, typeOf, order);
  }

  lemma JokerSorted(a: Play, b: Play, c: Play, d: Play, e: Play)
    requires a == Play("32T3K", 765) && b == Play("T55J5", 684) && c == Play("KK677", 28)
    requires d == Play("KTJJT", 220) && e == Play("QQQJA", 483)
    ensures Ascending([d, e, b, c, a], JokerTypeOf, JokerOrder)
  {
    HandFacts(a, b, c, d, e);
    JokerTypes(a.hand, b.hand, c.hand, d.hand, e.hand);
    PositionK(JokerOrder);
    PositionQ(JokerOrder);
    PositionT(JokerOrder);
    JokerRanking(a, b, c, d, e, JokerTypeOf, JokerOrder);
  }

  lemma JokerTotal(a: Play, b: Play, c: Play, d: Play, e: Play, typeOf: string -> HandType, order: string)
    requires Ascending([d, e, b, c, a], typeOf, order)
    requires a.bid == 765 && b.bid == 684 && c.bid == 28 && d.bid == 220 && e.bid == 483
    ensures Comparable([a, b, c, d, e], typeOf, order)
    ensures TotalWinnings([a, b, c, d, e], typeOf, order) == 5905
  {
    assert multiset([a, b, c, d, e]) == multiset([d, e, b, c, a]);
    TotalOfFive(a, b, c, d, e, a, c, b, e, d, typeOf, order);
  }

  /** Part 1 of the example: 765 * 1 + 220 * 2 + 28 * 3 + 684 * 4 + 483 * 5. */
  lemma PlainExample(plays: seq<Play>)
    requires plays == Example
    ensures Comparable(plays, TypeOf, CardOrder) && Part1(plays) == 6440
  {
    PlainSorted(plays[0], plays[1], plays[2], plays[3], plays[4]);
    PlainTotal(plays[0], plays[1], plays[2], plays[3], plays[4], TypeOf, CardOrder);
    assert plays == [plays[0], plays[1], plays[2], plays[3], plays[4]];
  }

  /** Part 2 of the example: 765 * 1 + 28 * 2 + 684 * 3 + 483 * 4 + 220 * 5. */
  lemma JokerExample(plays: seq<Play>)
    requires plays == Example
    ensures Comparable(plays, JokerTypeOf, JokerOrder) && Part2(plays) == 5905
  {
    JokerSorted(plays[0], plays[1], plays[2], plays[3], plays[4]);
    JokerTotal(plays[0], plays[1], plays[2], plays[3], plays[4], JokerTypeOf, JokerOrder);
    assert plays == [plays[0], plays[1], plays[2], plays[3], plays[4]];
  }

  lemma ExamplePart1()
    ensures Comparable(Example, TypeOf, CardOrder) && Part1(Example) == 6440
  {
    PlainExample(Example);
  }

  lemma ExamplePart2()
    ensures Comparable(Example, JokerTypeOf, JokerOrder) && Part2(Example) == 5905
  {
    JokerExample(Example);
  }
}
