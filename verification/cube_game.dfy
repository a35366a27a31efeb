/** Day 2: games of cubes drawn from a bag. Part 1 adds up the ids of the
    games possible with 12 red, 13 green and 14 blue cubes; part 2 adds up,
    per game, the product of the largest count seen of each colour.
    Models rust/solutions/day-02/src/lib.rs, working on the text of each line
    as the source does. */
module CubeGame {
  import opened Wrappers
  import opened Text

  /** What checking (part of) a game comes to: every draw within its limit,
      some draw over it, or the program aborting on a malformed draw or an
      unknown colour. */
  datatype Verdict = Fits | Exceeds | Aborts

  /** The number of cubes of each colour in the bag. */
  function Limit(colour: string): Option<nat> {
    if colour == "red" then Some(12)
    else if colour == "green" then Some(13)
    else if colour == "blue" then Some(14)
    else None
  }

  /** One draw, `<count> <colour>`, checked against its colour's limit. */
  function CheckDraw(draw: string): Verdict {
    match SplitOnce(draw, " ")
    case None => Aborts
    case Some((count, colour)) =>
      match ParseNat(count)
      case None => Aborts
      case Some(n) =>
        match Limit(colour)
        case None => Aborts
        case Some(limit) => if n <= limit then Fits else Exceeds
  }

  /** `Iterator::all` with a check that may abort: the items are checked in
      order and the first one that does not fit decides. */
  function AllFit<T>(items: seq<T>, check: T -> Verdict): (v: Verdict)
    ensures v == Fits <==> forall i :: 0 <= i < |items| ==> check(items[i]) == Fits
    ensures v != Fits ==> exists i :: 0 <= i < |items| && check(items[i]) == v && (forall j :: 0 <= j < i ==> check(items[j]) == Fits)
  {
    if |items| == 0 then Fits
    else if check(items[0]) == Fits then
      var v := AllFit(items[1..], check);
      assert v != Fits ==> exists i :: 0 <= i < |items| - 1 && items[1..][i] == items[i + 1] && check(items[1..][i]) == v;
      v
    else check(items[0])
  }

  /** One set of a game: draws separated by `, `. */
  function CheckSet(drawn: string): Verdict {
    AllFit(Split(drawn, ", "), CheckDraw)
  }

  /** All sets of a game: sets separated by `; `. */
  function CheckSets(sets: string): Verdict {
    AllFit(Split(sets, "; "), CheckSet)
  }

  /** What one line adds to part 1: its id if the game is possible, nothing
      if not; `None` when the program aborts on the line. */
  function GameId(line: string): Option<nat> {
    match SplitOnce(line, ": ")
    case None => None
    case Some((tag, sets)) =>
      match CheckSets(sets)
      case Aborts => None
      case Exceeds => Some(0)
      case Fits => ParseNat(Replace(tag, "Game ", ""))
  }

  /** A sum over lines, `None` once any line aborts. */
  function SumOver(lines: seq<string>, value: string -> Option<nat>): (r: Option<nat>)
    ensures r.Some? <==> forall k :: 0 <= k < |lines| ==> value(lines[k]).Some?
  {
    if |lines| == 0 then Some(0)
    else match (SumOver(lines[..|lines| - 1], value), value(lines[|lines| - 1]))
      case (Some(total), Some(v)) => Some(total + v)
      case _ => None
  }

  /** `process_part1`. */
  function Part1(input: string): (r: Option<nat>)
    ensures r.Some? <==> forall k :: 0 <= k < |Lines(input)| ==> GameId(Lines(input)[k]).Some?
  {
    SumOver(Lines(input), GameId)
  }

  /** A draw as part 2 reads it: a count and any colour name. */
  datatype Draw = Draw(count: nat, colour: string)

  function ParseDraw(draw: string): Option<Draw> {
    match SplitOnce(draw, " ")
    case None => None
    case Some((count, colour)) =>
      match ParseNat(count)
      case None => None
      case Some(n) => Some(Draw(n, colour))
  }

  /** The draws of all sets, in order: `flat_map` over the sets. */
  function DrawTexts(sets: seq<string>): seq<string> {
    if |sets| == 0 then [] else Split(sets[0], ", ") + DrawTexts(sets[1..])
  }

  function ParseDraws(texts: seq<string>): (r: Option<seq<Draw>>)
    ensures r.Some? ==> |r.value| == |texts|
  {
    if |texts| == 0 then Some([])
    else match (ParseDraw(texts[0]), ParseDraws(texts[1..]))
      case (Some(d), Some(ds)) => Some([d] + ds)
      case _ => None
  }

  /** The largest count among the draws of `colour`, 0 when there is none. */
  function MaxCount(draws: seq<Draw>, colour: string): nat {
    if |draws| == 0 then 0
    else
      var d := draws[|draws| - 1];
      if d.colour == colour then Larger(d.count, MaxCount(draws[..|draws| - 1], colour))
      else MaxCount(draws[..|draws| - 1], colour)
  }

  function Larger(a: nat, b: nat): nat {
    if a > b then a else b
  }

  /** Whether some draw has the colour. */
  predicate Seen(draws: seq<Draw>, colour: string) {
    exists i :: 0 <= i < |draws| && draws[i].colour == colour
  }

  /** `into_grouping_map_by(colour).max_by(count)`: one entry per colour, in
      order of first appearance, holding the largest count of that colour. */
  function Maxima(draws: seq<Draw>): seq<Draw> {
    if |draws| == 0 then []
    else Record(Maxima(draws[..|draws| - 1]), draws[|draws| - 1])
  }

  /** Folds one draw into the grouping map. */
  function Record(groups: seq<Draw>, d: Draw): seq<Draw> {
    if |groups| == 0 then [d]
    else if groups[0].colour == d.colour then [Draw(Larger(d.count, groups[0].count), d.colour)] + groups[1..]
    else [groups[0]] + Record(groups[1..], d)
  }

  /** The count stored for a colour, 0 when it has none. */
  function CountOf(groups: seq<Draw>, colour: string): nat {
    if |groups| == 0 then 0
    else if groups[0].colour == colour then groups[0].count
    else CountOf(groups[1..], colour)
  }

  predicate Has(groups: seq<Draw>, colour: string) {
    exists i :: 0 <= i < |groups| && groups[i].colour == colour
  }

  /** No colour stored twice. */
  predicate Distinct(groups: seq<Draw>) {
    forall i, j :: 0 <= i < j < |groups| ==> groups[i].colour != groups[j].colour
  }

  /** Recording a draw raises its colour's count to the draw's count when
      larger, adds the colour if it is new, and leaves the other colours as
      they were. */
  lemma {:induction false} RecordSpec(groups: seq<Draw>, d: Draw)
    requires Distinct(groups)
    ensures Distinct(Record(groups, d))
    ensures forall c :: Has(Record(groups, d), c) <==> Has(groups, c) || c == d.colour
    ensures forall c :: CountOf(Record(groups, d), c) == (if c == d.colour then Larger(d.count, CountOf(groups, c)) else CountOf(groups, c))
  {
    var r := Record(groups, d);
    if |groups| == 0 {
      forall c
        ensures Has(r, c) <==> c == d.colour
      {
        assert r[0] == d;
      }
    } else if groups[0].colour == d.colour {
      assert forall k :: 0 < k < |r| ==> r[k] == groups[k];
      assert forall c :: Has(r, c) <==> Has(groups, c) by {
        forall c | Has(r, c) ensures Has(groups, c) {
          var i :| 0 <= i < |r| && r[i].colour == c;
          assert groups[i].colour == c;
        }
        forall c | Has(groups, c) ensures Has(r, c) {
          var i :| 0 <= i < |groups| && groups[i].colour == c;
          assert r[i].colour == c;
        }
      }
      forall c | c != d.colour
        ensures CountOf(r, c) == CountOf(groups, c)
      {
        assert r[1..] == groups[1..];
      }
    } else {
      var rest := Record(groups[1..], d);
      assert Distinct(groups[1..]);
      RecordSpec(groups[1..], d);
      assert r == [groups[0]] + rest;
      assert r[1..] == rest;
      forall c ensures Has(r, c) <==> Has(groups, c) || c == d.colour {
        HasCons(groups, c);
        HasCons(r, c);
      }
      assert Has(groups[1..], groups[0].colour) == false;
      assert !Has(rest, groups[0].colour);
      forall i, j | 0 <= i < j < |r|
        ensures r[i].colour != r[j].colour
      {
        if i == 0 {
          assert r[j] == rest[j - 1];
        } else {
          assert r[i] == rest[i - 1] && r[j] == rest[j - 1];
        }
      }
    }
  }

  lemma HasCons(groups: seq<Draw>, c: string)
    requires |groups| > 0
    ensures Has(groups, c) <==> groups[0].colour == c || Has(groups[1..], c)
  {
    if Has(groups, c) && groups[0].colour != c {
      var i :| 0 <= i < |groups| && groups[i].colour == c;
      assert groups[1..][i - 1].colour == c;
    }
    if Has(groups[1..], c) {
      var i :| 0 <= i < |groups[1..]| && groups[1..][i].colour == c;
      assert groups[i + 1].colour == c;
    }
  }

  /** The grouping map holds each colour seen, once, with the largest count
      seen of it, and no other colour. */
  lemma {:induction false} MaximaSpec(draws: seq<Draw>)
    ensures Distinct(Maxima(draws))
    ensures forall c :: Has(Maxima(draws), c) <==> Seen(draws, c)
    ensures forall c :: CountOf(Maxima(draws), c) == MaxCount(draws, c)
  {
    if |draws| > 0 {
      var init, d := draws[..|draws| - 1], draws[|draws| - 1];
      MaximaSpec(init);
      RecordSpec(Maxima(init), d);
      forall c ensures Seen(draws, c) <==> Seen(init, c) || c == d.colour {
        if Seen(draws, c) && c != d.colour {
          var i :| 0 <= i < |draws| && draws[i].colour == c;
          assert init[i].colour == c;
        }
        if Seen(init, c) {
          var i :| 0 <= i < |init| && init[i].colour == c;
          assert draws[i].colour == c;
        }
      }
    }
  }

  function Product(groups: seq<Draw>): nat {
    if |groups| == 0 then 1 else groups[0].count * Product(groups[1..])
  }

  /** What one line adds to part 2: the product of the per-colour maxima;
      `None` when the program aborts on the line. */
  function Power(line: string): Option<nat> {
    match SplitOnce(line, ": ")
    case None => None
    case Some((_, sets)) =>
      match ParseDraws(DrawTexts(Split(sets, "; ")))
      case None => None
      case Some(draws) => Some(Product(Maxima(draws)))
  }

  /** `process_part2`. */
  function Part2(input: string): (r: Option<nat>)
    ensures r.Some? <==> forall k :: 0 <= k < |Lines(input)| ==> Power(Lines(input)[k]).Some?
  {
    SumOver(Lines(input), Power)
  }

  // The lines as the puzzle writes them.

  /** A game as data: its id and its sets of draws. */
  datatype Game = Game(id: nat, sets: seq<seq<Draw>>)

  function RenderDraw(d: Draw): string {
    ShowNat(d.count) + " " + d.colour
  }

  function Texts(drawn: seq<Draw>): seq<string> {
    seq(|drawn|, i requires 0 <= i < |drawn| => RenderDraw(drawn[i]))
  }

  function RenderSet(drawn: seq<Draw>): string {
    Join(Texts(drawn), ", ")
  }

  function RenderSets(sets: seq<seq<Draw>>): seq<string> {
    seq(|sets|, i requires 0 <= i < |sets| => RenderSet(sets[i]))
  }

  /** `Game <id>: <draw>, <draw>; <draw>; ...`. */
  function Render(g: Game): string {
    "Game " + ShowNat(g.id) + ": " + Join(RenderSets(g.sets), "; ")
  }

  /** All draws of a game, set after set. */
  function Flatten(sets: seq<seq<Draw>>): seq<Draw> {
    if |sets| == 0 then [] else sets[0] + Flatten(sets[1..])
  }

  predicate Plain(colour: string) {
    ',' !in colour && ';' !in colour && '\n' !in colour && '\r' !in colour
  }

  /** A game the puzzle can write: at least one set, every set non-empty,
      and colour names free of the separators `,`, `;`, the line feed and the
      carriage return. */
  predicate WellFormed(g: Game) {
    |g.sets| > 0 &&
    (forall s :: 0 <= s < |g.sets| ==> |g.sets[s]| > 0 && forall i :: 0 <= i < |g.sets[s]| ==> Plain(g.sets[s][i].colour))
  }

  /** The check of one draw, on data. */
  function DrawVerdict(d: Draw): Verdict {
    match Limit(d.colour)
    case None => Aborts
    case Some(limit) => if d.count <= limit then Fits else Exceeds
  }

  function SetVerdict(drawn: seq<Draw>): Verdict {
    AllFit(drawn, DrawVerdict)
  }

  predicate KnownColours(g: Game) {
    forall i :: 0 <= i < |Flatten(g.sets)| ==> Limit(Flatten(g.sets)[i].colour).Some?
  }

  /** Possible with the bag's contents: no draw shows more cubes of a colour
      than the bag holds. */
  predicate Possible(g: Game)
    requires KnownColours(g)
  {
    forall i :: 0 <= i < |Flatten(g.sets)| ==> Flatten(g.sets)[i].count <= Limit(Flatten(g.sets)[i].colour).value
  }

  lemma ShowNatDigits(n: nat)
    ensures forall c :: c in ShowNat(n) ==> IsDigit(c)
  {
  }

  /** A written draw splits at its first space into its count and colour. */
  lemma DrawRoundTrip(d: Draw)
    ensures SplitOnce(RenderDraw(d), " ") == Some((ShowNat(d.count), d.colour))
    ensures CheckDraw(RenderDraw(d)) == DrawVerdict(d)
    ensures ParseDraw(RenderDraw(d)) == Some(d)
  {
    var digits := ShowNat(d.count);
    ShowNatDigits(d.count);
    FindAfter(digits, " ", d.colour);
    var s := RenderDraw(d);
    assert s[..|digits|] == digits && s[|digits| + 1..] == d.colour;
    ParseShow(d.count);
  }

  /** A character in neither the pieces nor the pattern is not in the join. */
  lemma {:induction false} JoinAvoids(parts: seq<string>, pat: string, c: char)
    requires c !in pat && forall k :: 0 <= k < |parts| ==> c !in parts[k]
    ensures c !in Join(parts, pat)
  {
    if |parts| > 1 {
      JoinAvoids(parts[1..], pat, c);
    }
  }

  lemma TextsPlain(drawn: seq<Draw>)
    requires forall i :: 0 <= i < |drawn| ==> Plain(drawn[i].colour)
    ensures forall k :: 0 <= k < |drawn| ==> Plain(Texts(drawn)[k])
  {
    forall k | 0 <= k < |drawn|
      ensures Plain(Texts(drawn)[k])
    {
      ShowNatDigits(drawn[k].count);
    }
  }

  /** Checking items pairwise alike gives alike verdicts. */
  lemma {:induction false} AllFitAlike<A, B>(xs: seq<A>, ys: seq<B>, f: A -> Verdict, g: B -> Verdict)
    requires |xs| == |ys| && forall i :: 0 <= i < |xs| ==> f(xs[i]) == g(ys[i])
    ensures AllFit(xs, f) == AllFit(ys, g)
  {
    if |xs| > 0 {
      AllFitAlike(xs[1..], ys[1..], f, g);
    }
  }

  /** Checking two lists one after the other is checking the first and, if
      it fits, the second. */
  lemma {:induction false} AllFitAppend<T>(xs: seq<T>, ys: seq<T>, f: T -> Verdict)
    ensures AllFit(xs + ys, f) == if AllFit(xs, f) == Fits then AllFit(ys, f) else AllFit(xs, f)
  {
    if |xs| == 0 {
      assert xs + ys == ys;
    } else {
      assert (xs + ys)[1..] == xs[1..] + ys;
      AllFitAppend(xs[1..], ys, f);
    }
  }

  /** The nested `all` over sets and draws is one `all` over every draw in
      order: the first draw that does not fit decides, wherever it sits. */
  lemma {:induction false} AllFitFlatten(sets: seq<seq<Draw>>)
    ensures AllFit(sets, SetVerdict) == AllFit(Flatten(sets), DrawVerdict)
  {
    if |sets| > 0 {
      AllFitFlatten(sets[1..]);
      AllFitAppend(sets[0], Flatten(sets[1..]), DrawVerdict);
    }
  }

  /** A written set splits back into its written draws. */
  lemma SetRoundTrip(drawn: seq<Draw>)
    requires |drawn| > 0 && forall i :: 0 <= i < |drawn| ==> Plain(drawn[i].colour)
    ensures Split(RenderSet(drawn), ", ") == Texts(drawn)
    ensures ';' !in RenderSet(drawn) && '\n' !in RenderSet(drawn) && '\r' !in RenderSet(drawn)
    ensures CheckSet(RenderSet(drawn)) == SetVerdict(drawn)
  {
    TextsPlain(drawn);
    SplitJoin(Texts(drawn), ", ");
    JoinAvoids(Texts(drawn), ", ", ';');
    JoinAvoids(Texts(drawn), ", ", '\n');
    JoinAvoids(Texts(drawn), ", ", '\r');
    forall i | 0 <= i < |drawn|
      ensures CheckDraw(Texts(drawn)[i]) == DrawVerdict(drawn[i])
    {
      DrawRoundTrip(drawn[i]);
    }
    AllFitAlike(Texts(drawn), drawn, CheckDraw, DrawVerdict);
  }

  /** The written sets split back apart, and their draws, read in order, are
      the game's draws written out. */
  lemma SetsRoundTrip(g: Game)
    requires WellFormed(g)
    ensures Split(Join(RenderSets(g.sets), "; "), "; ") == RenderSets(g.sets)
    ensures CheckSets(Join(RenderSets(g.sets), "; ")) == AllFit(g.sets, SetVerdict)
    ensures DrawTexts(RenderSets(g.sets)) == Texts(Flatten(g.sets))
  {
    var parts := RenderSets(g.sets);
    forall s | 0 <= s < |g.sets|
      ensures ';' !in parts[s] && CheckSet(parts[s]) == SetVerdict(g.sets[s])
    {
      SetRoundTrip(g.sets[s]);
    }
    SplitJoin(parts, "; ");
    AllFitAlike(parts, g.sets, CheckSet, SetVerdict);
    DrawTextsOf(g.sets);
  }

  lemma {:induction false} DrawTextsOf(sets: seq<seq<Draw>>)
    requires forall s :: 0 <= s < |sets| ==> |sets[s]| > 0 && forall i :: 0 <= i < |sets[s]| ==> Plain(sets[s][i].colour)
    ensures DrawTexts(RenderSets(sets)) == Texts(Flatten(sets))
  {
    if |sets| > 0 {
      SetRoundTrip(sets[0]);
      assert RenderSets(sets)[1..] == RenderSets(sets[1..]);
      DrawTextsOf(sets[1..]);
      TextsAppend(sets[0], Flatten(sets[1..]));
    }
  }

  lemma TextsAppend(xs: seq<Draw>, ys: seq<Draw>)
    ensures Texts(xs + ys) == Texts(xs) + Texts(ys)
  {
    var l, r := Texts(xs + ys), Texts(xs) + Texts(ys);
    forall i | 0 <= i < |l|
      ensures l[i] == r[i]
    {
      if i >= |xs| {
        assert (xs + ys)[i] == ys[i - |xs|];
      }
    }
  }

  /** A written line splits at `: ` into its label and its sets. */
  lemma HeadRoundTrip(g: Game)
    ensures SplitOnce(Render(g), ": ") == Some(("Game " + ShowNat(g.id), Join(RenderSets(g.sets), "; ")))
  {
    var tag, body := "Game " + ShowNat(g.id), Join(RenderSets(g.sets), "; ");
    ShowNatDigits(g.id);
    assert ':' !in tag;
    FindAfter(tag, ": ", body);
    var s := Render(g);
    assert s == tag + ": " + body;
    assert s[..|tag|] == tag && s[|tag| + 2..] == body;
  }

  /** Part 1 on a written game: the first draw, over all sets in order,
      that does not fit decides. An unknown colour there aborts, a count
      over the limit drops the game, and a game whose draws all fit adds its
      id. */
  lemma GameIdOfRender(g: Game)
    requires WellFormed(g)
    ensures GameId(Render(g)) == match AllFit(Flatten(g.sets), DrawVerdict)
      case Aborts => None
      case Exceeds => Some(0)
      case Fits => Some(g.id)
  {
    HeadRoundTrip(g);
    SetsRoundTrip(g);
    AllFitFlatten(g.sets);
    ShowNatDigits(g.id);
    ReplacePrefix("Game ", ShowNat(g.id));
    ParseShow(g.id);
  }

  /** With the three known colours only, a game adds its id exactly when it
      is possible, and nothing otherwise. */
  lemma PossibleGameId(g: Game)
    requires WellFormed(g) && KnownColours(g)
    ensures GameId(Render(g)) == Some(if Possible(g) then g.id else 0)
  {
    GameIdOfRender(g);
  }

  lemma {:induction false} ParseTexts(drawn: seq<Draw>)
    ensures ParseDraws(Texts(drawn)) == Some(drawn)
  {
    if |drawn| > 0 {
      DrawRoundTrip(drawn[0]);
      assert Texts(drawn)[1..] == Texts(drawn[1..]);
      ParseTexts(drawn[1..]);
      assert drawn == [drawn[0]] + drawn[1..];
    }
  }

  /** Part 2 on a written game: the product of the largest count of each
      colour over all its draws. */
  lemma PowerOfRender(g: Game)
    requires WellFormed(g)
    ensures Power(Render(g)) == Some(Product(Maxima(Flatten(g.sets))))
  {
    HeadRoundTrip(g);
    SetsRoundTrip(g);
    ParseTexts(Flatten(g.sets));
  }

  /** A written game is a single line. */
  lemma RenderOneLine(g: Game)
    requires WellFormed(g)
    ensures '\n' !in Render(g) && '\r' !in Render(g)
  {
    forall s | 0 <= s < |g.sets|
      ensures '\n' !in RenderSets(g.sets)[s] && '\r' !in RenderSets(g.sets)[s]
    {
      SetRoundTrip(g.sets[s]);
    }
    JoinAvoids(RenderSets(g.sets), "; ", '\n');
    JoinAvoids(RenderSets(g.sets), "; ", '\r');
    ShowNatDigits(g.id);
  }

  /** What a possible game adds to part 1: its id, and nothing otherwise. */
  function Credit(g: Game): nat
    requires KnownColours(g)
  {
    if Possible(g) then g.id else 0
  }

  predicate Playable(games: seq<Game>) {
    forall k :: 0 <= k < |games| ==> WellFormed(games[k]) && KnownColours(games[k])
  }

  function Credits(games: seq<Game>): seq<nat>
    requires Playable(games)
  {
    seq(|games|, k requires 0 <= k < |games| && Playable(games) => Credit(games[k]))
  }

  function Sum(xs: seq<nat>): nat {
    if |xs| == 0 then 0 else Sum(xs[..|xs| - 1]) + xs[|xs| - 1]
  }

  /** The games written one per line. */
  function RenderAll(games: seq<Game>): seq<string> {
    seq(|games|, k requires 0 <= k < |games| => Render(games[k]))
  }

  /** Lines whose values are known add up to the sum of those values. */
  lemma {:induction false} SumOverValues(lines: seq<string>, values: seq<nat>, value: string -> Option<nat>)
    requires |lines| == |values| && forall k :: 0 <= k < |lines| ==> value(lines[k]) == Some(values[k])
    ensures SumOver(lines, value) == Some(Sum(values))
  {
    if |lines| > 0 {
      var n := |lines| - 1;
      SumOverValues(lines[..n], values[..n], value);
    }
  }

  /** Games written one per line, each ended by a line feed or by a carriage
      return and a line feed, are read back as written. */
  lemma RenderAllLines(games: seq<Game>)
    requires |games| > 0 && Writable(games)
    ensures Lines(Join(RenderAll(games), "\n") + "\n") == RenderAll(games)
    ensures Lines(Join(WithCR(RenderAll(games)), "\n") + "\n") == RenderAll(games)
  {
    forall k | 0 <= k < |games|
      ensures '\n' !in RenderAll(games)[k] && !EndsInCR(RenderAll(games)[k])
    {
      RenderOneLine(games[k]);
    }
    LinesTerminated(RenderAll(games));
    LinesCRLF(RenderAll(games));
  }

  predicate Writable(games: seq<Game>) {
    forall k :: 0 <= k < |games| ==> WellFormed(games[k])
  }

  /** Part 1 of a list of games written one per line, with the three known
      colours only, is the sum of the ids of the possible games, with `\n`
      or `\r\n` line endings alike. */
  lemma PartOneOfGames(games: seq<Game>)
    requires |games| > 0 && Playable(games)
    ensures Part1(Join(RenderAll(games), "\n") + "\n") == Some(Sum(Credits(games)))
    ensures Part1(Join(WithCR(RenderAll(games)), "\n") + "\n") == Some(Sum(Credits(games)))
  {
    RenderAllLines(games);
    forall k | 0 <= k < |games|
      ensures GameId(RenderAll(games)[k]) == Some(Credits(games)[k])
    {
      PossibleGameId(games[k]);
    }
    SumOverValues(RenderAll(games), Credits(games), GameId);
  }

  /** The power of a game: the product of the largest count of each colour. */
  function GamePower(g: Game): nat {
    Product(Maxima(Flatten(g.sets)))
  }

  function Powers(games: seq<Game>): seq<nat> {
    seq(|games|, k requires 0 <= k < |games| => GamePower(games[k]))
  }

  /** Part 2 of a list of games written one per line is the sum of their
      powers, whatever the colours, with `\n` or `\r\n` line endings alike. */
  lemma PartTwoOfGames(games: seq<Game>)
    requires |games| > 0 && Writable(games)
    ensures Part2(Join(RenderAll(games), "\n") + "\n") == Some(Sum(Powers(games)))
    ensures Part2(Join(WithCR(RenderAll(games)), "\n") + "\n") == Some(Sum(Powers(games)))
  {
    RenderAllLines(games);
    forall k | 0 <= k < |games|
      ensures Power(RenderAll(games)[k]) == Some(Powers(games)[k])
    {
      PowerOfRender(games[k]);
    }
    SumOverValues(RenderAll(games), Powers(games), Power);
  }
}
