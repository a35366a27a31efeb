/** Day 7: Camel Cards. A hand's type comes from the sizes of its groups of
    equal cards; hands are ordered by type, then card by card; the total
    winnings weight each bid by the hand's rank.
    Models rust/solutions/day-07/src/lib.rs. */
module CamelCards {
  import opened Wrappers
  import Text
  import opened Seqs

  /** Hand types in declaration order; the derived order makes `Five` the
      least value and the strongest hand. */
  datatype HandType = Five | Four | House | Three | TwoPair | Pair | High

  /** The position of a type in the derived order. */
  function Rank(t: HandType): (r: nat)
    ensures r <= 6
    ensures t == Five <==> r == 0
    ensures t == High <==> r == 6
  {
    match t
    case Five => 0
    case Four => 1
    case House => 2
    case Three => 3
    case TwoPair => 4
    case Pair => 5
    case High => 6
  }

  /** Distinct types have distinct positions, so the derived order is total. */
  lemma RankInjective(s: HandType, t: HandType)
    ensures Rank(s) == Rank(t) <==> s == t
  {
  }

  /** How often `c` occurs in `hand`. */
  function Occurrences(hand: string, c: char): (n: nat)
    ensures n == multiset(hand)[c]
  {
    if |hand| == 0 then 0
    else
      assert hand == [hand[0]] + hand[1..];
      (if hand[0] == c then 1 else 0) + Occurrences(hand[1..], c)
  }

  /** No character occurs twice. */
  predicate NoRepeats(s: string) {
    forall i, j :: 0 <= i < j < |s| ==> s[i] != s[j]
  }

  /** The distinct cards of a hand: the keys of the group map. */
  function Distinct(hand: string): (d: string)
    ensures forall c :: c in d <==> c in hand
    ensures NoRepeats(d)
  {
    if |hand| == 0 then []
    else
      var rest := Distinct(hand[1..]);
      if hand[0] in rest then rest else [hand[0]] + rest
  }

  /** The group sizes, one per key, in key order. */
  function Sizes(hand: string, keys: string): (sizes: seq<nat>)
    ensures |sizes| == |keys|
    ensures forall i :: 0 <= i < |keys| ==> sizes[i] == multiset(hand)[keys[i]]
  {
    if |keys| == 0 then [] else [Occurrences(hand, keys[0])] + Sizes(hand, keys[1..])
  }

  predicate SortedDesc(s: seq<nat>) {
    forall i, j :: 0 <= i < j < |s| ==> s[i] >= s[j]
  }

  /** Insert into a descending sequence. */
  function Insert(x: nat, s: seq<nat>): (r: seq<nat>)
    requires SortedDesc(s)
    ensures SortedDesc(r) && multiset(r) == multiset(s) + multiset{x}
    ensures |r| == |s| + 1 && (r[0] == x || (|s| > 0 && r[0] == s[0]))
  {
    if |s| == 0 || x >= s[0] then [x] + s
    else
      assert s == [s[0]] + s[1..];
      var r' := Insert(x, s[1..]);
      assert s[0] >= r'[0];
      assert forall j :: 0 < j < |r'| ==> r'[0] >= r'[j];
      [s[0]] + r'
  }

  /** `sorted().rev()`: the values in descending order. */
  function SortDesc(s: seq<nat>): (r: seq<nat>)
    ensures SortedDesc(r) && multiset(r) == multiset(s)
  {
    if |s| == 0 then []
    else
      assert s == [s[0]] + s[1..];
      Insert(s[0], SortDesc(s[1..]))
  }

  /** A descending sequence is determined by its multiset of values: whatever
      order the group map yields its sizes in, sorting gives the same vector. */
  lemma {:induction false} SortedDescUnique(a: seq<nat>, b: seq<nat>)
    requires SortedDesc(a) && SortedDesc(b) && multiset(a) == multiset(b)
    ensures a == b
  {
    if |a| == 0 {
      assert |multiset(b)| == 0;
    } else {
      SortedDescHeads(a, b);
      SortedDescUnique(a[1..], b[1..]);
      SameHeadAndTail(a, b);
    }
  }

  /** Two descending sequences with the same values start with the same value
      and go on with the same values. */
  lemma SortedDescHeads(a: seq<nat>, b: seq<nat>)
    requires SortedDesc(a) && SortedDesc(b) && multiset(a) == multiset(b) && |a| > 0
    ensures |b| > 0 && a[0] == b[0]
    ensures SortedDesc(a[1..]) && SortedDesc(b[1..]) && multiset(a[1..]) == multiset(b[1..])
  {
    HeadIsLargest(b, a[0]);
    HeadIsLargest(a, b[0]);
    TailMultiset(a);
    TailMultiset(b);
  }

  /** Every value of a descending sequence is at most its first. */
  lemma HeadIsLargest(s: seq<nat>, x: nat)
    requires SortedDesc(s) && x in multiset(s)
    ensures |s| > 0 && x <= s[0]
  {
    var j :| 0 <= j < |s| && s[j] == x;
  }

  /** The group sizes of a hand, largest first. */
  function Groups(hand: string): seq<nat> {
    SortDesc(Sizes(hand, Distinct(hand)))
  }

  /** The match on the group sizes: the seven patterns of the table. */
  function Classify(groups: seq<nat>): HandType {
    if groups == [5] then Five
    else if groups == [4, 1] then Four
    else if groups == [3, 2] then House
    else if groups == [3, 1, 1] then Three
    else if groups == [2, 2, 1] then TwoPair
    else if groups == [2, 1, 1, 1] then Pair
    else High
  }

  /** `hand_type_from_cards`. */
  function TypeOf(hand: string): HandType {
    Classify(Groups(hand))
  }

  /** A sequence without repeats holds each of its elements once. */
  lemma {:induction false} NoRepeatsMultiset(d: string, c: char)
    requires NoRepeats(d)
    ensures multiset(d)[c] == if c in d then 1 else 0
  {
    if |d| > 0 {
      assert d == [d[0]] + d[1..];
      NoRepeatsMultiset(d[1..], c);
    }
  }

  /** Two key lists without repeats over the same cards are permutations of
      each other. */
  lemma SameKeys(d1: string, d2: string)
    requires NoRepeats(d1) && NoRepeats(d2)
    requires forall c :: c in d1 <==> c in d2
    ensures multiset(d1) == multiset(d2)
  {
    forall c
      ensures multiset(d1)[c] == multiset(d2)[c]
    {
      NoRepeatsMultiset(d1, c);
      NoRepeatsMultiset(d2, c);
    }
  }

  lemma {:induction false} SizesAppend(hand: string, k1: string, k2: string)
    ensures Sizes(hand, k1 + k2) == Sizes(hand, k1) + Sizes(hand, k2)
  {
  }

  /** The sizes of a key list are the size at one key plus the sizes of the
      other keys. */
  lemma SizesRemove(hand: string, keys: string, j: nat)
    requires j < |keys|
    ensures multiset(Sizes(hand, keys)) ==
      multiset{multiset(hand)[keys[j]]} + multiset(Sizes(hand, keys[..j] + keys[j + 1..]))
  {
    var c := keys[j];
    assert keys == keys[..j] + ([c] + keys[j + 1..]);
    SizesAppend(hand, keys[..j], [c] + keys[j + 1..]);
    SizesAppend(hand, [c], keys[j + 1..]);
    SizesAppend(hand, keys[..j], keys[j + 1..]);
  }

  /** Listing the keys in another order permutes the sizes. */
  lemma {:induction false} SizesPermute(hand: string, k1: string, k2: string)
    requires multiset(k1) == multiset(k2)
    ensures multiset(Sizes(hand, k1)) == multiset(Sizes(hand, k2))
    decreases |k1|
  {
    if |k1| == 0 {
      assert |multiset(k2)| == 0;
    } else {
      var j := HeadPosition(k1, k2);
      SizesPermute(hand, k1[1..], k2[..j] + k2[j + 1..]);
      SizesRemove(hand, k2, j);
      assert Sizes(hand, k1) == [multiset(hand)[k1[0]]] + Sizes(hand, k1[1..]);
    }
  }

  /** The group sizes depend only on which cards the hand holds, not on their
      order. */
  lemma GroupsPermutation(a: string, b: string)
    requires multiset(a) == multiset(b)
    ensures Groups(a) == Groups(b)
  {
    var da, db := Distinct(a), Distinct(b);
    assert forall c :: c in a <==> c in multiset(a);
    assert forall c :: c in b <==> c in multiset(b);
    SameKeys(da, db);
    SizesPermute(a, da, db);
    assert Sizes(a, db) == Sizes(b, db);
    SortedDescUnique(Groups(a), Groups(b));
  }

  /** Listing the distinct cards in any order whose sizes come out largest
      first gives the group vector. */
  lemma GroupsFrom(hand: string, keys: string)
    requires NoRepeats(keys) && forall c :: c in keys <==> c in hand
    requires SortedDesc(Sizes(hand, keys))
    ensures Groups(hand) == Sizes(hand, keys)
  {
    var d := Distinct(hand);
    SameKeys(d, keys);
    SizesPermute(hand, d, keys);
    SortedDescUnique(Groups(hand), Sizes(hand, keys));
  }

  /** Permuting a hand's cards never changes its type. */
  lemma TypePermutation(a: string, b: string)
    requires multiset(a) == multiset(b)
    ensures TypeOf(a) == TypeOf(b)
  {
    GroupsPermutation(a, b);
  }

  function Sum(s: seq<nat>): nat {
    if |s| == 0 then 0 else s[0] + Sum(s[1..])
  }

  lemma {:induction false} SumInsert(x: nat, s: seq<nat>)
    requires SortedDesc(s)
    ensures Sum(Insert(x, s)) == x + Sum(s)
  {
    if |s| > 0 && x < s[0] {
      SumInsert(x, s[1..]);
    }
  }

  lemma {:induction false} SumSortDesc(s: seq<nat>)
    ensures Sum(SortDesc(s)) == Sum(s)
  {
    if |s| > 0 {
      SumSortDesc(s[1..]);
      SumInsert(s[0], SortDesc(s[1..]));
    }
  }

  lemma {:induction false} SumSizesCons(h: char, t: string, keys: string)
    requires NoRepeats(keys)
    ensures Sum(Sizes([h] + t, keys)) == (if h in keys then 1 else 0) + Sum(Sizes(t, keys))
  {
    if |keys| > 0 {
      assert ([h] + t)[1..] == t;
      SumSizesCons(h, t, keys[1..]);
      assert multiset([h] + t)[keys[0]] == (if h == keys[0] then 1 else 0) + multiset(t)[keys[0]];
    }
  }

  /** With every card of the hand among the keys, the sizes add up to the
      number of cards. */
  lemma {:induction false} SumSizes(hand: string, keys: string)
    requires NoRepeats(keys) && forall c :: c in hand ==> c in keys
    ensures Sum(Sizes(hand, keys)) == |hand|
  {
    if |hand| == 0 {
      SizesZero(keys);
    } else {
      assert hand == [hand[0]] + hand[1..];
      SumSizesCons(hand[0], hand[1..], keys);
      SumSizes(hand[1..], keys);
    }
  }

  lemma {:induction false} SizesZero(keys: string)
    ensures Sum(Sizes([], keys)) == 0
  {
    if |keys| > 0 {
      SizesZero(keys[1..]);
    }
  }

  /** The groups partition the hand: one positive size per distinct card,
      largest first, adding up to the number of cards. */
  lemma GroupsPartition(hand: string)
    ensures var g := Groups(hand);
      SortedDesc(g) && |g| == |Distinct(hand)| && Sum(g) == |hand| &&
      forall i :: 0 <= i < |g| ==> g[i] >= 1
  {
    var d := Distinct(hand);
    var sizes := Sizes(hand, d);
    var g := Groups(hand);
    SumSizes(hand, d);
    SumSortDesc(sizes);
    assert |g| == |multiset(g)| == |multiset(sizes)| == |sizes|;
    GroupsPositive(hand);
  }

  /** Every group holds at least one card. */
  lemma GroupsPositive(hand: string)
    ensures forall i :: 0 <= i < |Groups(hand)| ==> Groups(hand)[i] >= 1
  {
    var d := Distinct(hand);
    var sizes := Sizes(hand, d);
    var g := Groups(hand);
    forall i | 0 <= i < |g|
      ensures g[i] >= 1
    {
      assert g[i] in multiset(sizes);
      var j :| 0 <= j < |sizes| && sizes[j] == g[i];
      assert d[j] in hand;
    }
  }

  /** Sorted positive group sizes of five cards. */
  predicate FiveSplit(g: seq<nat>) {
    SortedDesc(g) && Sum(g) == 5 && forall i :: 0 <= i < |g| ==> g[i] >= 1
  }

  /** The only ways to split five cards into groups. */
  lemma PartitionsOfFive(g: seq<nat>)
    requires FiveSplit(g)
    ensures g == [5] || g == [4, 1] || g == [3, 2] || g == [3, 1, 1] ||
            g == [2, 2, 1] || g == [2, 1, 1, 1] || g == [1, 1, 1, 1, 1]
  {
    SumAtLeastLength(g);
    if |g| == 1 {
      SplitInto1(g);
    } else if |g| == 2 {
      SplitInto2(g);
    } else if |g| == 3 {
      SplitInto3(g);
    } else if |g| == 4 {
      SplitInto4(g);
    } else {
      SplitInto5(g);
    }
  }

  lemma SplitInto1(g: seq<nat>)
    requires FiveSplit(g) && |g| == 1
    ensures g == [5]
  {
    var a, b, c, d, e := Written(g);
    assert g == [a];
  }

  lemma SplitInto2(g: seq<nat>)
    requires FiveSplit(g) && |g| == 2
    ensures g == [4, 1] || g == [3, 2]
  {
    var a, b, c, d, e := Written(g);
    if a == 4 {
      assert g == [4, 1];
    } else {
      assert g == [3, 2];
    }
  }

  lemma SplitInto3(g: seq<nat>)
    requires FiveSplit(g) && |g| == 3
    ensures g == [3, 1, 1] || g == [2, 2, 1]
  {
    var a, b, c, d, e := Written(g);
    if a == 3 {
      assert g == [3, 1, 1];
    } else {
      assert g == [2, 2, 1];
    }
  }

  lemma SplitInto4(g: seq<nat>)
    requires FiveSplit(g) && |g| == 4
    ensures g == [2, 1, 1, 1]
  {
    var a, b, c, d, e := Written(g);
    assert g == [a, b, c, d];
  }

  lemma SplitInto5(g: seq<nat>)
    requires FiveSplit(g) && |g| == 5
    ensures g == [1, 1, 1, 1, 1]
  {
    var a, b, c, d, e := Written(g);
    assert g == [a, b, c, d, e];
  }

  /** The values of a sequence of at most five, and their sum. */
  lemma Written(g: seq<nat>) returns (a: nat, b: nat, c: nat, d: nat, e: nat)
    requires 1 <= |g| <= 5
    ensures a == g[0] && (|g| > 1 ==> b == g[1]) && (|g| > 2 ==> c == g[2])
    ensures (|g| > 3 ==> d == g[3]) && (|g| > 4 ==> e == g[4])
    ensures (|g| <= 1 ==> b == 0) && (|g| <= 2 ==> c == 0) && (|g| <= 3 ==> d == 0) && (|g| <= 4 ==> e == 0)
    ensures Sum(g) == a + b + c + d + e
  {
    assert g[0..] == g;
    SumFrom(g, 0);
    a, b, c, d, e := g[0], 0, 0, 0, 0;
    if |g| > 1 {
      SumFrom(g, 1);
      b := g[1];
    }
    if |g| > 2 {
      SumFrom(g, 2);
      c := g[2];
    }
    if |g| > 3 {
      SumFrom(g, 3);
      d := g[3];
    }
    if |g| > 4 {
      SumFrom(g, 4);
      e := g[4];
    }
  }

  lemma SumFrom(g: seq<nat>, k: nat)
    requires k < |g|
    ensures Sum(g[k..]) == g[k] + Sum(g[k + 1..])
  {
    assert g[k..][1..] == g[k + 1..];
  }

  lemma {:induction false} SumAtLeastLength(g: seq<nat>)
    requires forall i :: 0 <= i < |g| ==> g[i] >= 1
    ensures Sum(g) >= |g|
  {
    if |g| > 0 {
      SumAtLeastLength(g[1..]);
    }
  }

  /** For a five-card hand the type is fixed by the largest group `m` and
      the number of distinct cards `n`. */
  lemma FiveCardTypes(hand: string)
    requires |hand| == 5
    ensures var g := Groups(hand);
      var m, n := g[0], |Distinct(hand)|;
      (TypeOf(hand) == Five <==> m == 5) &&
      (TypeOf(hand) == Four <==> m == 4) &&
      (TypeOf(hand) == House <==> m == 3 && n == 2) &&
      (TypeOf(hand) == Three <==> m == 3 && n == 3) &&
      (TypeOf(hand) == TwoPair <==> m == 2 && n == 3) &&
      (TypeOf(hand) == Pair <==> m == 2 && n == 4) &&
      (TypeOf(hand) == High <==> m == 1)
  {
    GroupsPartition(hand);
    PartitionsOfFive(Groups(hand));
  }

  /** The hand with every `J` removed. */
  function WithoutJokers(hand: string): (r: string)
    ensures forall c {:trigger multiset(r)[c]} :: multiset(r)[c] == if c == 'J' then 0 else multiset(hand)[c]
  {
    if |hand| == 0 then []
    else
      assert hand == [hand[0]] + hand[1..];
      (if hand[0] == 'J' then [] else [hand[0]]) + WithoutJokers(hand[1..])
  }

  /** The joker group sizes: the sizes of the other cards, largest first, with
      the jokers added to the largest; a hand of jokers only is one group of 5. */
  function JokerGroups(hand: string): seq<nat> {
    AddJokers(Groups(WithoutJokers(hand)), Occurrences(hand, 'J'))
  }

  /** The jokers join the largest group; with no other group they form one of 5. */
  function AddJokers(groups: seq<nat>, jokers: nat): (r: seq<nat>)
    ensures |groups| == 0 ==> r == [5]
    ensures |groups| > 0 ==> |r| == |groups| && r[0] == groups[0] + jokers && r[1..] == groups[1..]
  {
    if |groups| == 0 then [5] else groups[0 := groups[0] + jokers]
  }

  /** The type with jokers, as `hand_type_from_cards_with_jokers` classifies. */
  function JokerTypeOf(hand: string): HandType {
    Classify(JokerGroups(hand))
  }

  /** `hand_type_from_cards_with_jokers`: the group vector is built, then
      changed in place before the match. */
  method JokerHandType(hand: string) returns (t: HandType)
    ensures t == JokerTypeOf(hand)
  {
    var jokerCount := Occurrences(hand, 'J');
    var groups := Groups(WithoutJokers(hand));
    groups := PushJokers(groups, jokerCount);
    t := Classify(groups);
  }

  /** The edge case and the in-place update of the group vector. */
  method PushJokers(groups: seq<nat>, jokerCount: nat) returns (updated: seq<nat>)
    ensures updated == AddJokers(groups, jokerCount)
  {
    updated := groups;
    if |updated| == 0 {
      updated := updated + [5];
    } else {
      updated := updated[0 := updated[0] + jokerCount];
    }
  }

  /** The two edge cases of the joker rule. */
  lemma JokerCases(hand: string)
    ensures 'J' !in hand && |hand| > 0 ==> JokerTypeOf(hand) == TypeOf(hand)
    ensures (forall i :: 0 <= i < |hand| ==> hand[i] == 'J') ==> JokerTypeOf(hand) == Five
  {
    if forall i :: 0 <= i < |hand| ==> hand[i] == 'J' {
      JokersOnly(hand);
    }
    if 'J' !in hand && |hand| > 0 {
      NoJokers(hand);
    }
  }

  /** Without a joker the joker rule gives the plain type. */
  lemma NoJokers(hand: string)
    requires 'J' !in hand && |hand| > 0
    ensures JokerTypeOf(hand) == TypeOf(hand)
  {
    var g := Groups(hand);
    WithoutNoJokers(hand);
    assert Groups(WithoutJokers(hand)) == g;
    GroupsPartition(hand);
    assert hand[0] in Distinct(hand);
    assert |g| > 0;
    assert Occurrences(hand, 'J') == 0;
    assert AddJokers(g, 0) == g;
  }

  lemma {:induction false} WithoutNoJokers(hand: string)
    requires 'J' !in hand
    ensures WithoutJokers(hand) == hand
  {
    if |hand| > 0 {
      assert 'J' !in hand[1..];
      WithoutNoJokers(hand[1..]);
    }
  }

  /** A hand of jokers only is five of a kind, whatever its length. */
  lemma JokersOnly(hand: string)
    requires forall i :: 0 <= i < |hand| ==> hand[i] == 'J'
    ensures JokerTypeOf(hand) == Five
  {
    var rest := WithoutJokers(hand);
    forall c
      ensures multiset(rest)[c] == 0
    {
      if c != 'J' {
        assert c !in hand;
      }
    }
    assert multiset(rest) == multiset{};
    assert rest == [];
  }

  /** Permuting a hand's cards never changes its joker type either. */
  lemma JokerTypePermutation(a: string, b: string)
    requires multiset(a) == multiset(b)
    ensures JokerTypeOf(a) == JokerTypeOf(b)
  {
    forall c
      ensures multiset(WithoutJokers(a))[c] == multiset(WithoutJokers(b))[c]
    {
    }
    assert multiset(WithoutJokers(a)) == multiset(WithoutJokers(b));
    GroupsPermutation(WithoutJokers(a), WithoutJokers(b));
  }

  /** `std::cmp::Ordering`. */
  datatype Ordering = Less | Equal | Greater

  /** `Ord::cmp` on numbers. */
  function CmpNat(x: nat, y: nat): (o: Ordering)
    ensures o == Less <==> x < y
    ensures o == Equal <==> x == y
    ensures o == Greater <==> x > y
  {
    if x < y then Less else if x == y then Equal else Greater
  }

  /** `Ordering::reverse`. */
  function Flip(o: Ordering): (f: Ordering)
    ensures f == Less <==> o == Greater
    ensures f == Equal <==> o == Equal
    ensures f == Greater <==> o == Less
  {
    match o
    case Less => Greater
    case Equal => Equal
    case Greater => Less
  }

  /** `a.chars().zip(b.chars()).position(|(x, y)| x != y)`: the first index,
      within the shorter of the two, where they differ. */
  function FirstDiff(a: string, b: string): (k: Option<nat>)
    ensures k.Some? ==> k.value < |a| && k.value < |b| && a[k.value] != b[k.value]
    ensures k.Some? ==> forall i :: 0 <= i < k.value ==> a[i] == b[i]
    ensures k.None? ==> forall i :: 0 <= i < |a| && i < |b| ==> a[i] == b[i]
  {
    if |a| == 0 || |b| == 0 then None
    else if a[0] != b[0] then Some(0)
    else match FirstDiff(a[1..], b[1..])
      case None => None
      case Some(k) => Some(k + 1)
  }

  /** `compare_cards`: a stronger hand is `Less`. Hands of different types
      compare by type; hands of the same type compare by their first
      differing card, the earlier card in `order` being the stronger. `None`
      stands for the panics: two hands of the same type with no differing
      card, or a differing card missing from `order`. */
  function Compare(a: string, b: string, typeOf: string -> HandType, order: string): (r: Option<Ordering>)
    ensures typeOf(a) != typeOf(b) ==> r == Some(CmpNat(Rank(typeOf(a)), Rank(typeOf(b))))
    ensures typeOf(a) == typeOf(b) ==>
      (r.Some? <==> FirstDiff(a, b).Some? && a[FirstDiff(a, b).value] in order && b[FirstDiff(a, b).value] in order)
    ensures typeOf(a) == typeOf(b) && r.Some? ==>
      r == Some(CmpNat(Text.IndexOf(order, a[FirstDiff(a, b).value]).value, Text.IndexOf(order, b[FirstDiff(a, b).value]).value))
    ensures r != Some(Equal)
  {
    var aType, bType := typeOf(a), typeOf(b);
    if aType == bType then
      match FirstDiff(a, b)
      case None => None
      case Some(k) =>
        match (Text.IndexOf(order, a[k]), Text.IndexOf(order, b[k]))
        case (Some(i), Some(j)) => Some(CmpNat(i, j))
        case _ => None
    else
      RankInjective(aType, bType);
      Some(CmpNat(Rank(aType), Rank(bType)))
  }

  /** The first difference does not depend on the order of the two hands. */
  lemma FirstDiffSymmetric(a: string, b: string)
    ensures FirstDiff(b, a) == FirstDiff(a, b)
  {
  }

  /** A hand never compares with itself: `compare_cards(a, a, ..)` panics. */
  lemma CompareSelf(a: string, typeOf: string -> HandType, order: string)
    ensures Compare(a, a, typeOf, order) == None
  {
  }

  /** Swapping the hands reverses the outcome, and the panics are symmetric. */
  lemma CompareFlip(a: string, b: string, typeOf: string -> HandType, order: string)
    ensures Compare(b, a, typeOf, order) ==
      match Compare(a, b, typeOf, order)
      case None => None
      case Some(o) => Some(Flip(o))
  {
    FirstDiffSymmetric(a, b);
  }

  /** The comparison is transitive: it orders the hands it can compare. */
  lemma CompareTransitive(a: string, b: string, c: string, typeOf: string -> HandType, order: string)
    requires Compare(a, b, typeOf, order) == Some(Less)
    requires Compare(b, c, typeOf, order) == Some(Less)
    ensures Compare(a, c, typeOf, order) == Some(Less)
  {
    if typeOf(a) == typeOf(b) == typeOf(c) {
      var i, j := FirstDiff(a, b).value, FirstDiff(b, c).value;
      var x, y, z := Text.IndexOf(order, a[i]).value, Text.IndexOf(order, b[i]).value, Text.IndexOf(order, b[j]).value;
      assert x < y;
      assert z < Text.IndexOf(order, c[j]).value;
      if i < j {
        assert forall n :: 0 <= n <= i ==> b[n] == c[n];
        assert FirstDiff(a, c) == Some(i);
      } else if j < i {
        assert forall n :: 0 <= n <= j ==> a[n] == b[n];
        assert FirstDiff(a, c) == Some(j);
      } else {
        assert FirstDiff(a, c) == Some(i);
      }
    }
  }

  /** One input line: a hand and its bid. */
  datatype Play = Play(hand: string, bid: nat)

  /** The hand of `p` beats the hand of `q`. */
  predicate Beats(p: Play, q: Play, typeOf: string -> HandType, order: string) {
    Compare(p.hand, q.hand, typeOf, order) == Some(Less)
  }

  /** Strongest first: every play beats every later one. */
  predicate Ascending(s: seq<Play>, typeOf: string -> HandType, order: string) {
    forall i, j :: 0 <= i < j < |s| ==> Beats(s[i], s[j], typeOf, order)
  }

  /** No two plays at different positions make the comparison panic. */
  predicate Comparable(plays: seq<Play>, typeOf: string -> HandType, order: string) {
    forall i, j :: 0 <= i < |plays| && 0 <= j < |plays| && i != j ==>
      Compare(plays[i].hand, plays[j].hand, typeOf, order).Some?
  }

  /** `p` placed in front of the first play it beats. */
  function InsertPlay(p: Play, s: seq<Play>, typeOf: string -> HandType, order: string): (r: seq<Play>)
    ensures multiset(r) == multiset(s) + multiset{p}
  {
    if |s| == 0 then [p]
    else if Beats(p, s[0], typeOf, order) then [p] + s
    else
      assert s == [s[0]] + s[1..];
      [s[0]] + InsertPlay(p, s[1..], typeOf, order)
  }

  /** The plays sorted by `compare_cards`, strongest first. */
  function SortPlays(plays: seq<Play>, typeOf: string -> HandType, order: string): (r: seq<Play>)
    ensures multiset(r) == multiset(plays)
  {
    if |plays| == 0 then []
    else
      assert plays == [plays[0]] + plays[1..];
      InsertPlay(plays[0], SortPlays(plays[1..], typeOf, order), typeOf, order)
  }

  lemma {:induction false} InsertAscending(p: Play, s: seq<Play>, typeOf: string -> HandType, order: string)
    requires Ascending(s, typeOf, order)
    requires forall q :: q in s ==> Compare(p.hand, q.hand, typeOf, order).Some?
    ensures Ascending(InsertPlay(p, s, typeOf, order), typeOf, order)
  {
    if |s| > 0 {
      if Beats(p, s[0], typeOf, order) {
        forall j | 0 < j < |s|
          ensures Beats(p, s[j], typeOf, order)
        {
          CompareTransitive(p.hand, s[0].hand, s[j].hand, typeOf, order);
        }
      } else {
        CompareFlip(p.hand, s[0].hand, typeOf, order);
        InsertAscending(p, s[1..], typeOf, order);
        var r := InsertPlay(p, s[1..], typeOf, order);
        forall x | x in r
          ensures Beats(s[0], x, typeOf, order)
        {
          assert x in multiset(r);
          if x != p {
            assert x in s[1..];
          }
        }
      }
    }
  }

  /** Sorting a comparable list puts it in strictly descending strength. */
  lemma {:induction false} SortAscending(plays: seq<Play>, typeOf: string -> HandType, order: string)
    requires Comparable(plays, typeOf, order)
    ensures Ascending(SortPlays(plays, typeOf, order), typeOf, order)
  {
    if |plays| > 0 {
      var rest := plays[1..];
      assert Comparable(rest, typeOf, order) by {
        forall i, j | 0 <= i < |rest| && 0 <= j < |rest| && i != j
          ensures Compare(rest[i].hand, rest[j].hand, typeOf, order).Some?
        {
          assert rest[i] == plays[i + 1] && rest[j] == plays[j + 1];
        }
      }
      SortAscending(rest, typeOf, order);
      var sorted := SortPlays(rest, typeOf, order);
      forall q | q in sorted
        ensures Compare(plays[0].hand, q.hand, typeOf, order).Some?
      {
        assert q in multiset(sorted);
        var k :| 0 <= k < |rest| && rest[k] == q;
        assert plays[k + 1] == q;
      }
      InsertAscending(plays[0], sorted, typeOf, order);
    }
  }

  /** Two plays never beat each other. */
  lemma NotMutual(p: Play, q: Play, typeOf: string -> HandType, order: string)
    ensures !(Beats(p, q, typeOf, order) && Beats(q, p, typeOf, order))
  {
    CompareFlip(p.hand, q.hand, typeOf, order);
  }

  /** Two strictly descending arrangements of the same plays are the same
      list, so any correct sort yields the order `SortPlays` gives. */
  lemma {:induction false} AscendingUnique(a: seq<Play>, b: seq<Play>, typeOf: string -> HandType, order: string)
    requires Ascending(a, typeOf, order) && Ascending(b, typeOf, order)
    requires multiset(a) == multiset(b)
    ensures a == b
  {
    if |a| == 0 {
      assert |multiset(b)| == 0;
    } else {
      AscendingHeads(a, b, typeOf, order);
      AscendingUnique(a[1..], b[1..], typeOf, order);
      SameHeadAndTail(a, b);
    }
  }

  /** Two descending arrangements of the same plays start with the same play
      and go on with the same plays. */
  lemma AscendingHeads(a: seq<Play>, b: seq<Play>, typeOf: string -> HandType, order: string)
    requires Ascending(a, typeOf, order) && Ascending(b, typeOf, order)
    requires multiset(a) == multiset(b) && |a| > 0
    ensures |b| > 0 && a[0] == b[0]
    ensures Ascending(a[1..], typeOf, order) && Ascending(b[1..], typeOf, order)
    ensures multiset(a[1..]) == multiset(b[1..])
  {
    if a[0] != b[0] {
      assert a[0] in multiset(b) && b[0] in multiset(a);
      var k :| 0 <= k < |b| && b[k] == a[0];
      var m :| 0 <= m < |a| && a[m] == b[0];
      NotMutual(a[0], b[0], typeOf, order);
      assert false;
    }
    TailMultiset(a);
    TailMultiset(b);
  }

  /** A value at two positions of a list occurs twice in it. */
  lemma TwiceCounted<T>(s: seq<T>, i: nat, j: nat)
    requires i < j < |s| && s[i] == s[j]
    ensures multiset(s)[s[i]] >= 2
  {
    assert s == s[..i] + [s[i]] + s[i + 1..j] + [s[j]] + s[j + 1..];
  }

  /** A descending list holds no play twice. */
  lemma {:induction false} AscendingOnce(s: seq<Play>, x: Play, typeOf: string -> HandType, order: string)
    requires Ascending(s, typeOf, order)
    ensures multiset(s)[x] <= 1
  {
    if |s| > 0 {
      assert s == [s[0]] + s[1..];
      AscendingOnce(s[1..], x, typeOf, order);
      if s[0] == x {
        CompareSelf(x.hand, typeOf, order);
        assert x !in s[1..];
      }
    }
  }

  /** A list of plays can be put in descending order exactly when it is
      comparable, and the descending order is then the one `SortPlays` gives:
      the total does not depend on how the sort proceeds. */
  lemma Arrangement(plays: seq<Play>, sorted: seq<Play>, typeOf: string -> HandType, order: string)
    requires Ascending(sorted, typeOf, order) && multiset(plays) == multiset(sorted)
    ensures Comparable(plays, typeOf, order)
    ensures SortPlays(plays, typeOf, order) == sorted
  {
    forall i, j | 0 <= i < |plays| && 0 <= j < |plays| && i != j
      ensures Compare(plays[i].hand, plays[j].hand, typeOf, order).Some?
    {
      assert plays[i] in multiset(sorted) && plays[j] in multiset(sorted);
      var a :| 0 <= a < |sorted| && sorted[a] == plays[i];
      var b :| 0 <= b < |sorted| && sorted[b] == plays[j];
      if a == b {
        if i < j {
          TwiceCounted(plays, i, j);
        } else {
          TwiceCounted(plays, j, i);
        }
        AscendingOnce(sorted, sorted[a], typeOf, order);
        assert false;
      } else if b < a {
        CompareFlip(plays[j].hand, plays[i].hand, typeOf, order);
      }
    }
    SortAscending(plays, typeOf, order);
    AscendingUnique(SortPlays(plays, typeOf, order), sorted, typeOf, order);
  }

  /** `.rev().enumerate().map(|(i, play)| (i + 1) * bid).sum()`: the plays
      listed weakest first, each bid weighted by its position plus one. */
  function Winnings(ranked: seq<Play>): nat {
    if |ranked| == 0 then 0
    else Winnings(ranked[..|ranked| - 1]) + |ranked| * ranked[|ranked| - 1].bid
  }

  /** `process_part1` and `process_part2` after parsing: sort by the given
      comparison, reverse and weigh. */
  function TotalWinnings(plays: seq<Play>, typeOf: string -> HandType, order: string): nat
    requires Comparable(plays, typeOf, order)
  {
    Winnings(Reverse(SortPlays(plays, typeOf, order)))
  }

  /** The card order of part 1. */
  const CardOrder := "AKQJT98765432"

  /** The card order of part 2, the joker last. */
  const JokerOrder := "AKQT98765432J"

  /** `process_part1`: every bid weighed by one plus the number of hands it
      beats. */
  function Part1(plays: seq<Play>): (r: nat)
    requires Comparable(plays, TypeOf, CardOrder)
    ensures r == Payout(plays, TypeOf, CardOrder)
  {
    WinningsArePayout(plays, TypeOf, CardOrder);
    TotalWinnings(plays, TypeOf, CardOrder)
  }

  /** `process_part2`: the same payout with jokers wild and ranked last. */
  function Part2(plays: seq<Play>): (r: nat)
    requires Comparable(plays, JokerTypeOf, JokerOrder)
    ensures r == Payout(plays, JokerTypeOf, JokerOrder)
  {
    WinningsArePayout(plays, JokerTypeOf, JokerOrder);
    TotalWinnings(plays, JokerTypeOf, JokerOrder)
  }

  /** `f` added up over a list. */
  function SumOf<T>(s: seq<T>, f: T -> nat): nat {
    if |s| == 0 then 0 else f(s[0]) + SumOf(s[1..], f)
  }

  /** A sum over a list takes one term out at any position. */
  lemma {:induction false} SumOfRemove<T>(s: seq<T>, j: nat, f: T -> nat)
    requires j < |s|
    ensures SumOf(s, f) == f(s[j]) + SumOf(s[..j] + s[j + 1..], f)
  {
    if j > 0 {
      SumOfRemove(s[1..], j - 1, f);
      assert s[1..][..j - 1] + s[1..][j..] == (s[..j] + s[j + 1..])[1..];
    } else {
      assert s[..j] + s[j + 1..] == s[1..];
    }
  }

  /** A sum over a list does not depend on the order of the list. */
  lemma {:induction false} SumOfPermutation<T>(a: seq<T>, b: seq<T>, f: T -> nat)
    requires multiset(a) == multiset(b)
    ensures SumOf(a, f) == SumOf(b, f)
    decreases |a|
  {
    if |a| == 0 {
      assert |multiset(b)| == 0;
    } else {
      var j := HeadPosition(a, b);
      SumOfPermutation(a[1..], b[..j] + b[j + 1..], f);
      SumOfRemove(b, j, f);
    }
  }

  /** The number of plays in `s` that `p` beats. */
  function BeatenIn(p: Play, s: seq<Play>, typeOf: string -> HandType, order: string): nat {
    SumOf(s, q => if Beats(p, q, typeOf, order) then 1 else 0)
  }

  /** The puzzle's own account of the winnings: every bid times one plus the
      number of hands its hand beats. */
  function Payout(plays: seq<Play>, typeOf: string -> HandType, order: string): nat {
    SumOf(plays, Weight(plays, typeOf, order))
  }

  /** A play's bid times one plus the number of plays it beats. */
  function Weight(plays: seq<Play>, typeOf: string -> HandType, order: string): Play -> nat {
    (p: Play) => p.bid * (1 + BeatenIn(p, plays, typeOf, order))
  }

  /** In a descending list the play at `i` beats exactly the plays after it. */
  lemma {:induction false} BeatenSuffix(s: seq<Play>, i: nat, k: nat, typeOf: string -> HandType, order: string)
    requires Ascending(s, typeOf, order) && i < |s| && k <= |s|
    ensures BeatenIn(s[i], s[k..], typeOf, order) == if k <= i then |s| - i - 1 else |s| - k
    decreases |s| - k
  {
    if k < |s| {
      BeatenSuffix(s, i, k + 1, typeOf, order);
      assert s[k..][1..] == s[k + 1..];
      if k < i {
        NotMutual(s[k], s[i], typeOf, order);
      } else if k == i {
        CompareSelf(s[i].hand, typeOf, order);
      }
    }
  }

  lemma BeatenAscending(s: seq<Play>, i: nat, typeOf: string -> HandType, order: string)
    requires Ascending(s, typeOf, order) && i < |s|
    ensures BeatenIn(s[i], s, typeOf, order) == |s| - i - 1
  {
    BeatenSuffix(s, i, 0, typeOf, order);
    assert s[0..] == s;
  }

  /** Weighing the reversed list by position is summing each bid times its
      distance from the end. */
  lemma {:induction false} WinningsReverse(s: seq<Play>, f: Play -> nat)
    requires forall i :: 0 <= i < |s| ==> f(s[i]) == s[i].bid * (|s| - i)
    ensures Winnings(Reverse(s)) == SumOf(s, f)
  {
    if |s| > 0 {
      var r := Reverse(s);
      assert r[..|r| - 1] == Reverse(s[1..]);
      WinningsReverse(s[1..], f);
    }
  }

  /** The play at position `i` of a descending arrangement of `plays`
      beats the plays after it and no other. */
  lemma BeatenSorted(plays: seq<Play>, sorted: seq<Play>, i: nat, typeOf: string -> HandType, order: string)
    requires Ascending(sorted, typeOf, order) && multiset(plays) == multiset(sorted) && i < |sorted|
    ensures BeatenIn(sorted[i], plays, typeOf, order) == |sorted| - i - 1
  {
    SumOfPermutation(plays, sorted, q => if Beats(sorted[i], q, typeOf, order) then 1 else 0);
    BeatenAscending(sorted, i, typeOf, order);
  }

  /** In a descending arrangement, the play at `i` is weighed by its distance
      from the end. */
  lemma SortedWeights(plays: seq<Play>, sorted: seq<Play>, typeOf: string -> HandType, order: string)
    requires Ascending(sorted, typeOf, order) && multiset(plays) == multiset(sorted)
    ensures forall i :: 0 <= i < |sorted| ==> Weight(plays, typeOf, order)(sorted[i]) == sorted[i].bid * (|sorted| - i)
  {
    forall i | 0 <= i < |sorted|
      ensures Weight(plays, typeOf, order)(sorted[i]) == sorted[i].bid * (|sorted| - i)
    {
      BeatenSorted(plays, sorted, i, typeOf, order);
    }
  }

  /** Weighing any descending arrangement of the plays gives the payout. */
  lemma ArrangementPayout(plays: seq<Play>, sorted: seq<Play>, typeOf: string -> HandType, order: string)
    requires Ascending(sorted, typeOf, order) && multiset(plays) == multiset(sorted)
    ensures Winnings(Reverse(sorted)) == Payout(plays, typeOf, order)
  {
    var f := Weight(plays, typeOf, order);
    SortedWeights(plays, sorted, typeOf, order);
    WinningsReverse(sorted, f);
    SumOfPermutation(plays, sorted, f);
  }

  /** The total winnings are the puzzle's payout: each bid times the rank of
      its hand, the rank being one plus the number of hands it beats. The
      result is the same whatever order the plays come in. */
  lemma WinningsArePayout(plays: seq<Play>, typeOf: string -> HandType, order: string)
    requires Comparable(plays, typeOf, order)
    ensures TotalWinnings(plays, typeOf, order) == Payout(plays, typeOf, order)
  {
    SortAscending(plays, typeOf, order);
    ArrangementPayout(plays, SortPlays(plays, typeOf, order), typeOf, order);
  }
}
