/** Day 10, part 1: walk a pipe loop from the `S` tile and report half its length.
    Models rust/solutions/day-10/src/lib.rs. */
module PipeMaze {
  import Wrappers
  import Text

  /** Travel direction, plus the two terminal markers the walker uses. */
  datatype Direction = Up | Down | Left | Right | None | Start

  type Pos = (nat, nat)

  /** The parsed grid: (row, column) to character. */
  type Grid = map<Pos, char>

  predicate IsMove(d: Direction) {
    d == Up || d == Down || d == Left || d == Right
  }

  /** The coordinate one step away in direction `d`; `Wrappers.None` where
      `usize` subtraction would underflow (row 0 going up, column 0 going left). */
  function Neighbour(p: Pos, d: Direction): (r: Wrappers.Option<Pos>)
    requires IsMove(d)
    ensures d == Up ==> (r.None? <==> p.0 == 0) && (r.Some? ==> r.value == (p.0 - 1, p.1))
    ensures d == Left ==> (r.None? <==> p.1 == 0) && (r.Some? ==> r.value == (p.0, p.1 - 1))
    ensures d == Down ==> r == Wrappers.Some((p.0 + 1, p.1))
    ensures d == Right ==> r == Wrappers.Some((p.0, p.1 + 1))
  {
    match d
    case Up => if p.0 == 0 then Wrappers.None else Wrappers.Some((p.0 - 1, p.1))
    case Down => Wrappers.Some((p.0 + 1, p.1))
    case Left => if p.1 == 0 then Wrappers.None else Wrappers.Some((p.0, p.1 - 1))
    case Right => Wrappers.Some((p.0, p.1 + 1))
  }

  /** A coordinate absent from the grid reads as ground. */
  function CharAt(g: Grid, p: Pos): char {
    if p in g then g[p] else '.'
  }

  /** The reverse of a travel direction. */
  function Opposite(d: Direction): Direction {
    match d
    case Up => Down
    case Down => Up
    case Left => Right
    case Right => Left
    case None => None
    case Start => Start
  }

  /** The two sides a bend tile connects (geometric reading of the glyph). */
  function Sides(c: char): set<Direction> {
    if c == 'J' then {Up, Left}
    else if c == 'L' then {Up, Right}
    else if c == 'F' then {Down, Right}
    else if c == '7' then {Down, Left}
    else {}
  }

  predicate IsBend(c: char) {
    c == 'J' || c == 'L' || c == 'F' || c == '7'
  }

  /** The transition table: the direction of travel after entering a tile `c`
      while travelling in direction `d`. */
  function Turn(c: char, d: Direction): (r: Direction)
    requires IsMove(d)
    // a bend is entered only through one of its two sides, and is left through the other
    ensures IsBend(c) ==> (r != None <==> Opposite(d) in Sides(c))
    ensures IsBend(c) && r != None ==> r in Sides(c) && r != Opposite(d)
    // straight pipes pass every direction on, whatever their orientation
    ensures c == '-' || c == '|' ==> r == d
    ensures c == 'S' <==> r == Start
    ensures !IsBend(c) && c != '-' && c != '|' && c != 'S' ==> r == None
  {
    match c
    case 'J' => (match d case Right => Up case Down => Left case _ => None)
    case 'L' => (match d case Left => Up case Down => Right case _ => None)
    case 'F' => (match d case Left => Down case Up => Right case _ => None)
    case '7' => (match d case Right => Down case Up => Left case _ => None)
    case '-' => d
    case '|' => d
    case 'S' => Start
    case _ => None
  }

  /** Result of a walk: it re-entered `S` after `length` moves in all, it broke
      off (`None` from the table or an underflowing move), or the fuel ran out. */
  datatype Walk = Closed(length: nat) | Broken | Unfinished

  /** `path_length`: from `pos`, travelling in `dir`, with `count` moves made so
      far. `fuel` bounds the number of further moves. */
  function PathLength(pos: Pos, g: Grid, dir: Direction, count: nat, fuel: nat): Walk
    decreases fuel
  {
    if dir == Start then Closed(count)
    else if dir == None then Broken
    else if fuel == 0 then Unfinished
    else match Neighbour(pos, dir)
      case None => Broken
      case Some(next) => PathLength(next, g, Turn(CharAt(g, next), dir), count + 1, fuel - 1)
  }

  /** The state of the walker after `k` moves from (`pos`, `dir`), while it is
      still moving; `Wrappers.None` once a move underflowed or the walk stopped. */
  function Trail(g: Grid, pos: Pos, dir: Direction, k: nat): Wrappers.Option<(Pos, Direction)>
  {
    if k == 0 then Wrappers.Some((pos, dir))
    else match Trail(g, pos, dir, k - 1)
      case None => Wrappers.None
      case Some(s) =>
        if !IsMove(s.1) then Wrappers.None
        else match Neighbour(s.0, s.1)
          case None => Wrappers.None
          case Some(next) => Wrappers.Some((next, Turn(CharAt(g, next), s.1)))
  }

  /** The walker is still moving after `k` moves. */
  predicate MovingAt(g: Grid, pos: Pos, dir: Direction, k: nat) {
    Trail(g, pos, dir, k).Some? && IsMove(Trail(g, pos, dir, k).value.1)
  }

  /** The walker has stopped after `k` moves with marker `m`. */
  predicate StoppedAt(g: Grid, pos: Pos, dir: Direction, k: nat, m: Direction) {
    Trail(g, pos, dir, k).Some? && Trail(g, pos, dir, k).value.1 == m
  }

  lemma {:induction false} TrailShift(g: Grid, pos: Pos, dir: Direction, next: Pos, k: nat)
    requires IsMove(dir) && Neighbour(pos, dir) == Wrappers.Some(next)
    ensures Trail(g, pos, dir, k + 1) == Trail(g, next, Turn(CharAt(g, next), dir), k)
  {
    if k > 0 {
      TrailShift(g, pos, dir, next, k - 1);
    }
  }

  /** The walk closes after exactly `n` moves in all (`count` of them made
      before the call) precisely when the walker is still moving after each of
      the first `n - count` moves and enters `S` with the last of them. */
  lemma {:induction false} ClosedIffEntersStart(pos: Pos, g: Grid, dir: Direction, count: nat, fuel: nat, n: nat)
    ensures PathLength(pos, g, dir, count, fuel) == Closed(n) <==>
      (count <= n <= count + fuel
       && StoppedAt(g, pos, dir, n - count, Start)
       && forall k :: 0 <= k < n - count ==> MovingAt(g, pos, dir, k))
    decreases fuel
  {
    if dir == Start || dir == None {
      if n > count {
        assert !MovingAt(g, pos, dir, 0);
      }
    } else if fuel == 0 {
      if n > count {
        assert !(n <= count + fuel);
      }
    } else {
      match Neighbour(pos, dir)
      case None =>
        if n > count {
          assert !MovingAt(g, pos, dir, 0) || Trail(g, pos, dir, 1).None?;
          if n - count > 1 {
            assert !MovingAt(g, pos, dir, 1);
          } else {
            assert Trail(g, pos, dir, n - count).None?;
          }
        }
      case Some(next) =>
        var d' := Turn(CharAt(g, next), dir);
        ClosedIffEntersStart(next, g, d', count + 1, fuel - 1, n);
        if n > count {
          MovingShift(g, pos, dir, next, n - count);
        }
    }
  }

  /** After the first move the walk goes on as the walk from the next tile:
      moving for `m` steps and stopping at `S` after them shift by one. */
  lemma MovingShift(g: Grid, pos: Pos, dir: Direction, next: Pos, m: nat)
    requires IsMove(dir) && Neighbour(pos, dir) == Wrappers.Some(next) && m >= 1
    ensures var d' := Turn(CharAt(g, next), dir);
      StoppedAt(g, pos, dir, m, Start) == StoppedAt(g, next, d', m - 1, Start)
    ensures var d' := Turn(CharAt(g, next), dir);
      (forall k :: 0 <= k < m ==> MovingAt(g, pos, dir, k)) <==>
      (forall k :: 0 <= k < m - 1 ==> MovingAt(g, next, d', k))
  {
    var d' := Turn(CharAt(g, next), dir);
    TrailShift(g, pos, dir, next, m - 1);
    forall k | 1 <= k <= m
      ensures Trail(g, pos, dir, k) == Trail(g, next, d', k - 1)
    {
      TrailShift(g, pos, dir, next, k - 1);
    }
    assert MovingAt(g, pos, dir, 0);
    if forall k :: 0 <= k < m - 1 ==> MovingAt(g, next, d', k) {
      forall k | 0 <= k < m
        ensures MovingAt(g, pos, dir, k)
      {
        if k > 0 {
          assert MovingAt(g, next, d', k - 1);
        }
      }
    }
    if forall k :: 0 <= k < m ==> MovingAt(g, pos, dir, k) {
      forall k | 0 <= k < m - 1
        ensures MovingAt(g, next, d', k)
      {
        assert MovingAt(g, pos, dir, k + 1);
      }
    }
  }

  /** A walk that runs out of fuel was still moving after each of its moves. */
  lemma {:induction false} UnfinishedKeepsMoving(pos: Pos, g: Grid, dir: Direction, count: nat, fuel: nat)
    requires PathLength(pos, g, dir, count, fuel) == Unfinished
    ensures forall k :: 0 <= k <= fuel ==> MovingAt(g, pos, dir, k)
    decreases fuel
  {
    if fuel > 0 {
      var next := Neighbour(pos, dir).value;
      var d' := Turn(CharAt(g, next), dir);
      UnfinishedKeepsMoving(next, g, d', count + 1, fuel - 1);
      forall k | 1 <= k <= fuel
        ensures MovingAt(g, pos, dir, k)
      {
        TrailShift(g, pos, dir, next, k - 1);
        assert MovingAt(g, next, d', k - 1);
      }
    }
  }

  /** One move is reversible: the state before a moving state is determined by it. */
  lemma TrailBackwards(g: Grid, pos: Pos, dir: Direction, i: nat, j: nat)
    requires 1 <= i && 1 <= j
    requires MovingAt(g, pos, dir, i) && Trail(g, pos, dir, i) == Trail(g, pos, dir, j)
    ensures Trail(g, pos, dir, i - 1) == Trail(g, pos, dir, j - 1)
  {
    var a := Trail(g, pos, dir, i - 1).value;
    var b := Trail(g, pos, dir, j - 1).value;
    var n := Trail(g, pos, dir, i).value.0;
    assert Neighbour(a.0, a.1) == Wrappers.Some(n) && Neighbour(b.0, b.1) == Wrappers.Some(n);
    assert Turn(CharAt(g, n), a.1) == Turn(CharAt(g, n), b.1);
  }

  /** Every position the walker stands on while moving, after its first move, is in the grid. */
  lemma MovingInGrid(g: Grid, pos: Pos, dir: Direction, k: nat)
    requires 1 <= k && MovingAt(g, pos, dir, k)
    ensures Trail(g, pos, dir, k).value.0 in g
  {
    var s := Trail(g, pos, dir, k - 1).value;
    var n := Trail(g, pos, dir, k).value.0;
    assert Trail(g, pos, dir, k).value.1 == Turn(CharAt(g, n), s.1);
  }

  /** Started on `S`, the walker never revisits a state while it keeps moving. */
  lemma {:induction false} TrailDistinct(g: Grid, pos: Pos, dir: Direction, i: nat, j: nat)
    requires CharAt(g, pos) == 'S'
    requires i < j && forall k :: 0 <= k <= j ==> MovingAt(g, pos, dir, k)
    ensures Trail(g, pos, dir, i) != Trail(g, pos, dir, j)
    decreases i
  {
    if Trail(g, pos, dir, i) == Trail(g, pos, dir, j) {
      if i == 0 {
        assert false;
      } else {
        TrailBackwards(g, pos, dir, i, j);
        TrailDistinct(g, pos, dir, i - 1, j - 1);
        assert false;
      }
    }
  }

  /** All walker states over the positions of `keys`. */
  function Universe(keys: set<Pos>): set<(Pos, Direction)> {
    set q, e | q in keys && e in {Up, Down, Left, Right} :: (q, e)
  }

  lemma {:induction false} UniverseSize(keys: set<Pos>)
    ensures |Universe(keys)| <= 4 * |keys|
    decreases |keys|
  {
    if keys != {} {
      var q :| q in keys;
      var rest := keys - {q};
      UniverseSize(rest);
      var here := {(q, Up), (q, Down), (q, Left), (q, Right)};
      assert Universe(keys) == Universe(rest) + here;
      assert |here| <= 4;
    }
  }

  /** A sequence without repetitions drawn from `xs` is no longer than `xs` is large. */
  lemma {:induction false} DistinctBound<T>(s: seq<T>, xs: set<T>)
    requires forall i, j :: 0 <= i < j < |s| ==> s[i] != s[j]
    requires forall i :: 0 <= i < |s| ==> s[i] in xs
    ensures |s| <= |xs|
  {
    if |s| > 0 {
      DistinctBound(s[1..], xs - {s[0]});
    }
  }

  /** The walker's fuel bound: four states per grid cell, plus the final move. */
  function Fuel(g: Grid): nat {
    4 * |g| + 1
  }

  /** A walk started on `S` always ends, by re-entering `S` or by breaking off,
      within `Fuel(g)` moves: the recursion of `path_length` terminates. */
  lemma WalkEnds(pos: Pos, g: Grid, dir: Direction, count: nat, fuel: nat)
    requires pos in g && g[pos] == 'S'
    requires fuel >= 4 * |g|
    ensures PathLength(pos, g, dir, count, fuel) != Unfinished
  {
    if PathLength(pos, g, dir, count, fuel) == Unfinished {
      UnfinishedKeepsMoving(pos, g, dir, count, fuel);
      var states := seq(fuel + 1, k requires 0 <= k => if Trail(g, pos, dir, k).Some? then Trail(g, pos, dir, k).value else (pos, Start));
      forall i, j | 0 <= i < j < |states|
        ensures states[i] != states[j]
      {
        TrailDistinct(g, pos, dir, i, j);
        assert MovingAt(g, pos, dir, i) && MovingAt(g, pos, dir, j);
      }
      forall i | 0 <= i < |states|
        ensures states[i] in Universe(g.Keys)
      {
        if i > 0 {
          MovingInGrid(g, pos, dir, i);
        }
      }
      DistinctBound(states, Universe(g.Keys));
      UniverseSize(g.Keys);
      assert false;
    }
  }

  /** More fuel never changes a walk that has already ended. */
  lemma {:induction false} FuelMonotone(pos: Pos, g: Grid, dir: Direction, count: nat, fuel: nat, more: nat)
    requires PathLength(pos, g, dir, count, fuel) != Unfinished && fuel <= more
    ensures PathLength(pos, g, dir, count, more) == PathLength(pos, g, dir, count, fuel)
    decreases fuel
  {
    if IsMove(dir) && Neighbour(pos, dir).Some? {
      var next := Neighbour(pos, dir).value;
      FuelMonotone(next, g, Turn(CharAt(g, next), dir), count + 1, fuel - 1, more - 1);
    }
  }

  /** The grid built from the input lines: (line index, character index) to character. */
  function GridOf(lines: seq<string>): (g: Grid)
    ensures forall p: Pos :: p in g <==> p.0 < |lines| && p.1 < |lines[p.0]|
    ensures forall p: Pos :: p in g ==> g[p] == lines[p.0][p.1]
  {
    map i: nat, j: nat | i < |lines| && j < |lines[i]| :: (i, j) := lines[i][j]
  }

  /** `(i, j)` comes before `p` in row-major order and is a cell of `lines`. */
  predicate Before(lines: seq<string>, i: nat, j: nat, p: Pos) {
    (i < p.0 && i < |lines| && j < |lines[i]|) || (i == p.0 && j < p.1)
  }

  /** The first `S` in row-major order, searching from line `row` on. */
  function FirstStartFrom(lines: seq<string>, row: nat): (r: Wrappers.Option<Pos>)
    requires row <= |lines|
    ensures r.Some? ==> (row <= r.value.0 < |lines| && r.value.1 < |lines[r.value.0]|
      && lines[r.value.0][r.value.1] == 'S'
      && forall i: nat, j: nat :: row <= i && Before(lines, i, j, r.value) ==> lines[i][j] != 'S')
    ensures r.None? ==> forall i: nat, j: nat :: row <= i < |lines| && j < |lines[i]| ==> lines[i][j] != 'S'
    decreases |lines| - row
  {
    if row == |lines| then Wrappers.None
    else match Text.IndexOf(lines[row], 'S')
      case Some(j) =>
        assert forall j' :: 0 <= j' < j ==> lines[row][j'] == lines[row][..j][j'];
        Wrappers.Some((row, j))
      case None => FirstStartFrom(lines, row + 1)
  }

  /** The position `process_part1` starts from: the first `S` in row-major order. */
  function FirstStart(lines: seq<string>): (r: Wrappers.Option<Pos>)
    ensures r.Some? ==> (r.value in GridOf(lines) && GridOf(lines)[r.value] == 'S'
      && forall i: nat, j: nat :: Before(lines, i, j, r.value) ==> lines[i][j] != 'S')
    ensures r.None? <==> forall p :: p in GridOf(lines) ==> GridOf(lines)[p] != 'S'
  {
    var r := FirstStartFrom(lines, 0);
    if r.None? then
      assert forall p :: p in GridOf(lines) ==> lines[p.0][p.1] != 'S';
      r
    else r
  }

  /** The initial directions `process_part1` tries, in order. */
  const Candidates: seq<Direction> := [Up, Down, Left, Right]

  /** The walk from `start` in candidate direction `k`, with enough fuel to end. */
  function Attempt(g: Grid, start: Pos, k: nat): Walk
    requires k < 4
  {
    PathLength(start, g, Candidates[k], 0, Fuel(g))
  }

  /** Candidate `k` is the first whose walk closes. */
  predicate ClosesFirst(g: Grid, start: Pos, k: nat)
    requires k < 4
  {
    Attempt(g, start, k).Closed? && forall j :: 0 <= j < k ==> !Attempt(g, start, j).Closed?
  }

  /** The loop of `process_part1`: half the length of the first closing walk
      from `start`, or 0 when no candidate closes. */
  method Farthest(g: Grid, start: Pos) returns (steps: nat)
    requires start in g && g[start] == 'S'
    ensures forall k :: 0 <= k < 4 ==> Attempt(g, start, k) != Unfinished
    ensures (forall k :: 0 <= k < 4 ==> !Attempt(g, start, k).Closed?) ==> steps == 0
    ensures forall k :: 0 <= k < 4 && ClosesFirst(g, start, k) ==> steps == Attempt(g, start, k).length / 2
  {
    forall k | 0 <= k < 4
      ensures Attempt(g, start, k) != Unfinished
    {
      WalkEnds(start, g, Candidates[k], 0, Fuel(g));
    }
    steps := 0;
    for i := 0 to 4
      invariant forall k :: 0 <= k < i ==> !Attempt(g, start, k).Closed?
    {
      var walk := PathLength(start, g, Candidates[i], 0, Fuel(g));
      assert walk == Attempt(g, start, i);
      if walk.Closed? {
        steps := walk.length / 2;
        assert forall k :: 0 <= k < 4 && ClosesFirst(g, start, k) ==> k == i;
        return;
      }
    }
  }

  /** `process_part1`: the grid is read from the lines of the input, and the
      walk starts from the first `S`; an input without `S` panics. */
  method Part1(input: string) returns (steps: nat)
    requires FirstStart(Text.Lines(input)).Some?
    ensures var g, start := GridOf(Text.Lines(input)), FirstStart(Text.Lines(input)).value;
      (forall k :: 0 <= k < 4 ==> !Attempt(g, start, k).Closed?) ==> steps == 0
    ensures var g, start := GridOf(Text.Lines(input)), FirstStart(Text.Lines(input)).value;
      forall k :: 0 <= k < 4 && ClosesFirst(g, start, k) ==> steps == Attempt(g, start, k).length / 2
  {
    var lines := Text.Lines(input);
    steps := Farthest(GridOf(lines), FirstStart(lines).value);
  }

  /** The example grid of the unit test. */
  const Example: seq<string> := ["7-F7-", ".FJ|7", "SJLL7", "|F--J", "LJ.LJ"]

  lemma ExampleStart()
    ensures FirstStart(Example) == Wrappers.Some((2, 0))
  {
    assert Text.IndexOf(Example[0], 'S').None?;
    assert Text.IndexOf(Example[1], 'S').None?;
    assert Text.IndexOf(Example[2], 'S') == Wrappers.Some(0);
  }

  lemma OneMove(p: Pos, g: Grid, d: Direction, c: nat, f: nat, nx: Pos, ch: char)
    requires IsMove(d) && f > 0 && Neighbour(p, d) == Wrappers.Some(nx) && CharAt(g, nx) == ch
    ensures PathLength(p, g, d, c, f) == PathLength(nx, g, Turn(ch, d), c + 1, f - 1)
  {
  }

  /** The loop of the example, on any grid holding its tiles. */
  lemma ExampleLoop(g: Grid, f: nat)
    requires f >= 16
    requires CharAt(g, (3, 0)) == '|'
    requires CharAt(g, (4, 0)) == 'L'
    requires CharAt(g, (4, 1)) == 'J'
    requires CharAt(g, (3, 1)) == 'F'
    requires CharAt(g, (3, 2)) == '-'
    requires CharAt(g, (3, 3)) == '-'
    requires CharAt(g, (3, 4)) == 'J'
    requires CharAt(g, (2, 4)) == '7'
    requires CharAt(g, (2, 3)) == 'L'
    requires CharAt(g, (1, 3)) == '|'
    requires CharAt(g, (0, 3)) == '7'
    requires CharAt(g, (0, 2)) == 'F'
    requires CharAt(g, (1, 2)) == 'J'
    requires CharAt(g, (1, 1)) == 'F'
    requires CharAt(g, (2, 1)) == 'J'
    requires CharAt(g, (2, 0)) == 'S'
    ensures PathLength((2, 0), g, Down, 0, f) == Closed(16)
  {
    OneMove((2, 0), g, Down, 0, f - 0, (3, 0), '|');
    OneMove((3, 0), g, Down, 1, f - 1, (4, 0), 'L');
    OneMove((4, 0), g, Right, 2, f - 2, (4, 1), 'J');
    OneMove((4, 1), g, Up, 3, f - 3, (3, 1), 'F');
    OneMove((3, 1), g, Right, 4, f - 4, (3, 2), '-');
    OneMove((3, 2), g, Right, 5, f - 5, (3, 3), '-');
    OneMove((3, 3), g, Right, 6, f - 6, (3, 4), 'J');
    OneMove((3, 4), g, Up, 7, f - 7, (2, 4), '7');
    OneMove((2, 4), g, Left, 8, f - 8, (2, 3), 'L');
    OneMove((2, 3), g, Up, 9, f - 9, (1, 3), '|');
    OneMove((1, 3), g, Up, 10, f - 10, (0, 3), '7');
    OneMove((0, 3), g, Left, 11, f - 11, (0, 2), 'F');
    OneMove((0, 2), g, Down, 12, f - 12, (1, 2), 'J');
    OneMove((1, 2), g, Left, 13, f - 13, (1, 1), 'F');
    OneMove((1, 1), g, Down, 14, f - 14, (2, 1), 'J');
    OneMove((2, 1), g, Left, 15, f - 15, (2, 0), 'S');
  }

  lemma ExampleTiles()
    ensures var g := GridOf(Example);
      CharAt(g, (3, 0)) == '|'
      && CharAt(g, (4, 0)) == 'L'
      && CharAt(g, (4, 1)) == 'J'
      && CharAt(g, (3, 1)) == 'F'
      && CharAt(g, (3, 2)) == '-'
      && CharAt(g, (3, 3)) == '-'
      && CharAt(g, (3, 4)) == 'J'
      && CharAt(g, (2, 4)) == '7'
      && CharAt(g, (2, 3)) == 'L'
      && CharAt(g, (1, 3)) == '|'
      && CharAt(g, (0, 3)) == '7'
      && CharAt(g, (0, 2)) == 'F'
      && CharAt(g, (1, 2)) == 'J'
      && CharAt(g, (1, 1)) == 'F'
      && CharAt(g, (2, 1)) == 'J'
      && CharAt(g, (2, 0)) == 'S'
      && CharAt(g, (1, 0)) == '.'
  {
    var g := GridOf(Example);
    assert CharAt(g, (3, 0)) == '|';
    assert CharAt(g, (4, 0)) == 'L';
    assert CharAt(g, (4, 1)) == 'J';
    assert CharAt(g, (3, 1)) == 'F';
    assert CharAt(g, (3, 2)) == '-';
    assert CharAt(g, (3, 3)) == '-';
    assert CharAt(g, (3, 4)) == 'J';
    assert CharAt(g, (2, 4)) == '7';
    assert CharAt(g, (2, 3)) == 'L';
    assert CharAt(g, (1, 3)) == '|';
    assert CharAt(g, (0, 3)) == '7';
    assert CharAt(g, (0, 2)) == 'F';
    assert CharAt(g, (1, 2)) == 'J';
    assert CharAt(g, (1, 1)) == 'F';
    assert CharAt(g, (2, 1)) == 'J';
    assert CharAt(g, (2, 0)) == 'S';
  }

  lemma ExampleUp()
    ensures Attempt(GridOf(Example), (2, 0), 0) == Broken
  {
    var g := GridOf(Example);
    assert CharAt(g, (1, 0)) == '.';
    OneMove((2, 0), g, Up, 0, Fuel(g), (1, 0), '.');
  }

  lemma {:induction false} ExampleDown()
    ensures Attempt(GridOf(Example), (2, 0), 1) == Closed(16)
  {
    ExampleTiles();
    var g := GridOf(Example);
    var f := Fuel(g);
    ExampleLoop(g, 16);
    if f >= 16 {
      FuelMonotone((2, 0), g, Down, 0, 16, f);
    } else {
      assert (2, 0) in g && g[(2, 0)] == 'S';
      WalkEnds((2, 0), g, Down, 0, f);
      FuelMonotone((2, 0), g, Down, 0, f, 16);
    }
  }

  /** From the `S` of the example, at (2, 0), going up breaks off at once and
      going down closes after 16 moves. */
  lemma ExampleWalk()
    ensures ClosesFirst(GridOf(Example), (2, 0), 1) && Attempt(GridOf(Example), (2, 0), 1).length / 2 == 8
  {
    ExampleUp();
    ExampleDown();
  }

  /** Part 1 on the example: the walk starts at (2, 0), the first `S`, and the
      first closing candidate, down, gives 8. */
  lemma ExamplePart1()
    ensures FirstStart(Example) == Wrappers.Some((2, 0))
    ensures ClosesFirst(GridOf(Example), (2, 0), 1) && Attempt(GridOf(Example), (2, 0), 1).length / 2 == 8
  {
    ExampleStart();
    ExampleWalk();
  }

  /** The two sides a tile connects, straight pipes included. */
  function Connects(c: char): set<Direction> {
    if c == '-' then {Left, Right}
    else if c == '|' then {Up, Down}
    else Sides(c)
  }

  /** The transition table with the orientation check the straight pipes lack:
      `-` passes only horizontal travel and `|` only vertical travel. */
  function TurnChecked(c: char, d: Direction): (r: Direction)
    requires IsMove(d)
    ensures c != 'S' ==> (r != None <==> Opposite(d) in Connects(c))
    ensures c != 'S' && r != None ==> r in Connects(c) && r != Opposite(d)
    ensures c == 'S' <==> r == Start
  {
    if c == '-' then (if d == Left || d == Right then d else None)
    else if c == '|' then (if d == Up || d == Down then d else None)
    else Turn(c, d)
  }

  /** The two tables differ exactly on straight pipes entered across their orientation. */
  lemma TurnCheckedAgrees(c: char, d: Direction)
    requires IsMove(d)
    ensures Turn(c, d) != TurnChecked(c, d) <==> (c == '-' || c == '|') && Opposite(d) !in Connects(c)
  {
  }

  /** `path_length` with the checked table. */
  function PathLengthChecked(pos: Pos, g: Grid, dir: Direction, count: nat, fuel: nat): Walk
    decreases fuel
  {
    if dir == Start then Closed(count)
    else if dir == None then Broken
    else if fuel == 0 then Unfinished
    else match Neighbour(pos, dir)
      case None => Broken
      case Some(next) => PathLengthChecked(next, g, TurnChecked(CharAt(g, next), dir), count + 1, fuel - 1)
  }

  /** The answer of `process_part1` with the checked table: half the length of
      the first candidate walk from `start` that closes, trying candidates
      from `k` on, or 0 when none closes. */
  function FarthestChecked(g: Grid, start: Pos, k: nat): (steps: nat)
    requires k <= 4
    ensures (forall j :: k <= j < 4 ==> !PathLengthChecked(start, g, Candidates[j], 0, Fuel(g)).Closed?) ==> steps == 0
    decreases 4 - k
  {
    if k == 4 then 0
    else match PathLengthChecked(start, g, Candidates[k], 0, Fuel(g))
      case Closed(n) => n / 2
      case _ => FarthestChecked(g, start, k + 1)
  }

  lemma OneMoveChecked(p: Pos, g: Grid, d: Direction, c: nat, f: nat, nx: Pos, ch: char)
    requires IsMove(d) && f > 0 && Neighbour(p, d) == Wrappers.Some(nx) && CharAt(g, nx) == ch
    ensures PathLengthChecked(p, g, d, c, f) == PathLengthChecked(nx, g, TurnChecked(ch, d), c + 1, f - 1)
  {
  }

  /** A grid whose walk downwards from `S` crosses a horizontal pipe vertically. */
  const Crossing: seq<string> := ["S-7", "-.|", "L-J"]

  lemma CrossingLoop(g: Grid, f: nat)
    requires f >= 8
    requires CharAt(g, (1, 0)) == '-'
    requires CharAt(g, (2, 0)) == 'L'
    requires CharAt(g, (2, 1)) == '-'
    requires CharAt(g, (2, 2)) == 'J'
    requires CharAt(g, (1, 2)) == '|'
    requires CharAt(g, (0, 2)) == '7'
    requires CharAt(g, (0, 1)) == '-'
    requires CharAt(g, (0, 0)) == 'S'
    ensures PathLength((0, 0), g, Down, 0, f) == Closed(8)
  {
    OneMove((0, 0), g, Down, 0, f - 0, (1, 0), '-');
    OneMove((1, 0), g, Down, 1, f - 1, (2, 0), 'L');
    OneMove((2, 0), g, Right, 2, f - 2, (2, 1), '-');
    OneMove((2, 1), g, Right, 3, f - 3, (2, 2), 'J');
    OneMove((2, 2), g, Up, 4, f - 4, (1, 2), '|');
    OneMove((1, 2), g, Up, 5, f - 5, (0, 2), '7');
    OneMove((0, 2), g, Left, 6, f - 6, (0, 1), '-');
    OneMove((0, 1), g, Left, 7, f - 7, (0, 0), 'S');
  }

  lemma CrossingTiles()
    ensures var g := GridOf(Crossing);
      CharAt(g, (1, 0)) == '-'
      && CharAt(g, (2, 0)) == 'L'
      && CharAt(g, (2, 1)) == '-'
      && CharAt(g, (2, 2)) == 'J'
      && CharAt(g, (1, 2)) == '|'
      && CharAt(g, (0, 2)) == '7'
      && CharAt(g, (0, 1)) == '-'
      && CharAt(g, (0, 0)) == 'S'
  {
    var g := GridOf(Crossing);
    assert CharAt(g, (1, 0)) == '-';
    assert CharAt(g, (2, 0)) == 'L';
    assert CharAt(g, (2, 1)) == '-';
    assert CharAt(g, (2, 2)) == 'J';
    assert CharAt(g, (1, 2)) == '|';
    assert CharAt(g, (0, 2)) == '7';
    assert CharAt(g, (0, 1)) == '-';
    assert CharAt(g, (0, 0)) == 'S';
  }

  lemma CrossingUp()
    ensures Attempt(GridOf(Crossing), (0, 0), 0) == Broken
  {
    var g := GridOf(Crossing);
    assert Neighbour((0, 0), Up).None?;
  }

  lemma {:induction false} CrossingDown()
    ensures Attempt(GridOf(Crossing), (0, 0), 1) == Closed(8)
  {
    CrossingTiles();
    var g := GridOf(Crossing);
    var f := Fuel(g);
    CrossingLoop(g, 8);
    if f >= 8 {
      FuelMonotone((0, 0), g, Down, 0, 8, f);
    } else {
      assert (0, 0) in g && g[(0, 0)] == 'S';
      WalkEnds((0, 0), g, Down, 0, f);
      FuelMonotone((0, 0), g, Down, 0, f, 8);
    }
  }

  /** As written, the walk on `Crossing` closes through the `-` below `S`, so
      part 1 reports 4; with `TurnChecked` that first move already breaks off
      (`CrossingChecked` follows the other candidates). */
  lemma CrossingMisread()
    ensures FirstStart(Crossing) == Wrappers.Some((0, 0))
    ensures Attempt(GridOf(Crossing), (0, 0), 0) == Broken
    ensures ClosesFirst(GridOf(Crossing), (0, 0), 1) && Attempt(GridOf(Crossing), (0, 0), 1).length / 2 == 4
    ensures TurnChecked(CharAt(GridOf(Crossing), (1, 0)), Down) == None
  {
    assert Text.IndexOf(Crossing[0], 'S') == Wrappers.Some(0);
    CrossingUp();
    CrossingDown();
    CrossingTiles();
  }

  /** With the checked table, on any grid holding the tiles of `Crossing`,
      every candidate walk from (0, 0) breaks off: up and left leave the grid,
      down enters the `-` below `S` vertically, and right runs round the outer
      ring and comes back to that `-` from below. */
  lemma CrossingWalksBreak(g: Grid, f: nat)
    requires f >= 7
    requires CharAt(g, (1, 0)) == '-'
    requires CharAt(g, (2, 0)) == 'L'
    requires CharAt(g, (2, 1)) == '-'
    requires CharAt(g, (2, 2)) == 'J'
    requires CharAt(g, (1, 2)) == '|'
    requires CharAt(g, (0, 2)) == '7'
    requires CharAt(g, (0, 1)) == '-'
    ensures forall k :: 0 <= k < 4 ==> PathLengthChecked((0, 0), g, Candidates[k], 0, f) == Broken
  {
    assert PathLengthChecked((0, 0), g, Up, 0, f) == Broken;
    assert PathLengthChecked((0, 0), g, Left, 0, f) == Broken;
    OneMoveChecked((0, 0), g, Down, 0, f, (1, 0), '-');
    OneMoveChecked((0, 0), g, Right, 0, f - 0, (0, 1), '-');
    OneMoveChecked((0, 1), g, Right, 1, f - 1, (0, 2), '7');
    OneMoveChecked((0, 2), g, Down, 2, f - 2, (1, 2), '|');
    OneMoveChecked((1, 2), g, Down, 3, f - 3, (2, 2), 'J');
    OneMoveChecked((2, 2), g, Left, 4, f - 4, (2, 1), '-');
    OneMoveChecked((2, 1), g, Left, 5, f - 5, (2, 0), 'L');
    OneMoveChecked((2, 0), g, Up, 6, f - 6, (1, 0), '-');
  }

  /** A grid whose first line has two characters has at least two cells. */
  lemma TwoCells(lines: seq<string>)
    requires |lines| > 0 && |lines[0]| >= 2
    ensures |GridOf(lines)| >= 2
  {
    var g := GridOf(lines);
    assert (0, 0) in g && (0, 1) in g;
    SubsetSize({(0, 0), (0, 1)}, g.Keys);
  }

  lemma SubsetSize<T>(a: set<T>, b: set<T>)
    requires a <= b
    ensures |a| <= |b|
  {
    assert b == a + (b - a);
  }

  /** With the checked table no candidate walk from the `S` of `Crossing`
      closes, so no loop through `S` is found and the answer is 0. */
  lemma CrossingChecked()
    ensures forall k :: 0 <= k < 4 ==> PathLengthChecked((0, 0), GridOf(Crossing), Candidates[k], 0, Fuel(GridOf(Crossing))) == Broken
    ensures FarthestChecked(GridOf(Crossing), (0, 0), 0) == 0
  {
    CrossingTiles();
    TwoCells(Crossing);
    CrossingWalksBreak(GridOf(Crossing), Fuel(GridOf(Crossing)));
  }
}
