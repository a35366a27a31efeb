/** String operations of the Rust standard library that the hand-written
    scanners rely on (`str::find`, `split_once`, `split`, `replace`, `lines`,
    `parse::<u32>`), as functions on `seq<char>`. */
module Text {
  import opened Wrappers

  /** `s.find(c)`: the index of the first occurrence of `c`. */
  function IndexOf(s: string, c: char): (r: Option<nat>)
    ensures r.None? <==> c !in s
    ensures r.Some? ==> r.value < |s| && s[r.value] == c && c !in s[..r.value]
  {
    if |s| == 0 then None
    else if s[0] == c then Some(0)
    else match IndexOf(s[1..], c)
      case None => None
      case Some(i) => assert s[1..][..i] == s[1..i + 1]; Some(i + 1)
  }

  /** `char::is_ascii_digit`, which is also what `to_digit(10).is_some()` tests. */
  predicate IsDigit(c: char) {
    '0' <= c <= '9'
  }

  function DigitValue(c: char): (d: nat)
    requires IsDigit(c)
    ensures d < 10
  {
    (c as int) - ('0' as int)
  }

  function DigitChar(d: nat): (c: char)
    requires d < 10
    ensures IsDigit(c) && DigitValue(c) == d
  {
    ('0' as int + d) as char
  }

  predicate AllDigits(s: string) {
    forall i :: 0 <= i < |s| ==> IsDigit(s[i])
  }

  /** The number a string of decimal digits denotes, most significant first. */
  function Decimal(s: string): nat
    requires AllDigits(s)
  {
    if |s| == 0 then 0 else 10 * Decimal(s[..|s| - 1]) + DigitValue(s[|s| - 1])
  }

  /** `s.parse::<u32>()`: an optional `+` followed by at least one digit and
      nothing else. */
  function ParseNat(s: string): (r: Option<nat>)
    ensures r.Some? <==> (|s| > 0 && AllDigits(s)) || (|s| > 1 && s[0] == '+' && AllDigits(s[1..]))
    ensures r.Some? && AllDigits(s) ==> r.value == Decimal(s)
    ensures r.Some? && !AllDigits(s) ==> s[0] == '+' && r.value == Decimal(s[1..])
  {
    if |s| > 0 && AllDigits(s) then Some(Decimal(s))
    else if |s| > 1 && s[0] == '+' && AllDigits(s[1..]) then Some(Decimal(s[1..]))
    else None
  }

  /** The decimal digits of `n`, without leading zeros. */
  function ShowNat(n: nat): (s: string)
    ensures |s| > 0 && AllDigits(s) && Decimal(s) == n
    ensures |s| > 1 ==> s[0] != '0'
  {
    if n < 10 then [DigitChar(n)]
    else
      var s := ShowNat(n / 10) + [DigitChar(n % 10)];
      assert s[..|s| - 1] == ShowNat(n / 10);
      s
  }

  /** Printing a number and parsing it back gives the number. */
  lemma ParseShow(n: nat)
    ensures ParseNat(ShowNat(n)) == Some(n)
  {
  }

  /** A single digit parses as its value. */
  lemma ParseOneDigit(a: char)
    requires IsDigit(a)
    ensures ParseNat([a]) == Some(DigitValue(a))
  {
    assert [a][..0] == [];
    assert Decimal([a]) == DigitValue(a);
  }

  /** Two digits parse as the tens and the units. */
  lemma ParseTwoDigits(a: char, b: char)
    requires IsDigit(a) && IsDigit(b)
    ensures ParseNat([a, b]) == Some(10 * DigitValue(a) + DigitValue(b))
  {
    assert [a, b][..1] == [a] && [a][..0] == [];
    assert Decimal([a]) == DigitValue(a);
  }

  /** `pat` sits in `s` at index `i`. */
  predicate OccursAt(s: string, pat: string, i: nat) {
    i + |pat| <= |s| && s[i..i + |pat|] == pat
  }

  /** The first occurrence of `pat` in `s` at index `i` or later. */
  function FindFrom(s: string, pat: string, i: nat): (r: Option<nat>)
    ensures r.None? ==> forall j: nat :: i <= j ==> !OccursAt(s, pat, j)
    ensures r.Some? ==> i <= r.value && OccursAt(s, pat, r.value)
    ensures r.Some? ==> forall j: nat :: i <= j < r.value ==> !OccursAt(s, pat, j)
    decreases |s| - i
  {
    if i + |pat| > |s| then None
    else if s[i..i + |pat|] == pat then Some(i)
    else FindFrom(s, pat, i + 1)
  }

  /** `s.find(pat)` for a string pattern. */
  function Find(s: string, pat: string): Option<nat> {
    FindFrom(s, pat, 0)
  }

  /** `s.split_once(pat)`: the text before and after the first occurrence. */
  function SplitOnce(s: string, pat: string): (r: Option<(string, string)>)
    ensures r.None? <==> forall j: nat :: !OccursAt(s, pat, j)
    ensures r.Some? ==> r.value.0 + pat + r.value.1 == s
    ensures r.Some? ==> forall j: nat :: j < |r.value.0| ==> !OccursAt(s, pat, j)
  {
    match Find(s, pat)
    case None => None
    case Some(i) =>
      assert s == s[..i] + pat + s[i + |pat|..];
      Some((s[..i], s[i + |pat|..]))
  }

  /** `s.split(pat)` for a non-empty pattern: the pieces between successive
      non-overlapping occurrences, searched left to right. */
  function Split(s: string, pat: string): (parts: seq<string>)
    requires |pat| > 0
    ensures |parts| > 0
    ensures forall k: nat, j: nat :: k < |parts| ==> !OccursAt(parts[k], pat, j)
    decreases |s|
  {
    match Find(s, pat)
    case None => [s]
    case Some(i) =>
      BeforeFirst(s, pat, i);
      [s[..i]] + Split(s[i + |pat|..], pat)
  }

  /** The text before the first occurrence of a pattern holds none. */
  lemma BeforeFirst(s: string, pat: string, i: nat)
    requires |pat| > 0 && i <= |s| && forall j: nat :: j < i ==> !OccursAt(s, pat, j)
    ensures forall j: nat :: !OccursAt(s[..i], pat, j)
  {
    forall j: nat
      ensures !OccursAt(s[..i], pat, j)
    {
      if j + |pat| <= i {
        assert s[..i][j..j + |pat|] == s[j..j + |pat|];
        assert !OccursAt(s, pat, j);
      }
    }
  }

  /** `parts.join(pat)`. */
  function Join(parts: seq<string>, pat: string): string {
    if |parts| == 0 then []
    else if |parts| == 1 then parts[0]
    else parts[0] + pat + Join(parts[1..], pat)
  }

  /** Joining the pieces of a split with the same pattern gives back the text. */
  lemma {:induction false} JoinSplit(s: string, pat: string)
    requires |pat| > 0
    ensures Join(Split(s, pat), pat) == s
    decreases |s|
  {
    match Find(s, pat)
    case None =>
    case Some(i) =>
      var rest := s[i + |pat|..];
      JoinSplit(rest, pat);
      assert Split(s, pat) == [s[..i]] + Split(rest, pat);
      assert s == s[..i] + pat + rest;
  }

  /** A pattern whose first character is missing from `p` is first found
      right after `p`. */
  lemma FindAfter(p: string, pat: string, t: string)
    requires |pat| > 0 && pat[0] !in p
    ensures Find(p + pat + t, pat) == Some(|p|)
  {
    var s := p + pat + t;
    assert s[|p|..|p| + |pat|] == pat;
    assert OccursAt(s, pat, |p|);
    forall j: nat | j < |p|
      ensures !OccursAt(s, pat, j)
    {
      assert s[j] == p[j];
    }
  }

  /** A pattern whose first character is missing from `p` does not occur in `p`. */
  lemma FindNone(p: string, pat: string)
    requires |pat| > 0 && pat[0] !in p
    ensures Find(p, pat) == None
  {
  }

  /** Text before the first occurrence of the pattern is the first piece. */
  lemma SplitAfter(p: string, pat: string, t: string)
    requires |pat| > 0 && pat[0] !in p
    ensures Split(p + pat + t, pat) == [p] + Split(t, pat)
  {
    var s := p + pat + t;
    FindAfter(p, pat, t);
    assert s[..|p|] == p && s[|p| + |pat|..] == t;
  }

  /** Splitting joined pieces gives the pieces back, when no piece holds the
      pattern's first character. */
  lemma {:induction false} SplitJoin(parts: seq<string>, pat: string)
    requires |parts| > 0 && |pat| > 0
    requires forall k :: 0 <= k < |parts| ==> pat[0] !in parts[k]
    ensures Split(Join(parts, pat), pat) == parts
  {
    if |parts| == 1 {
      FindNone(parts[0], pat);
    } else {
      SplitAfter(parts[0], pat, Join(parts[1..], pat));
      SplitJoin(parts[1..], pat);
      assert parts == [parts[0]] + parts[1..];
    }
  }

  /** `s.replace(from, to)`: every non-overlapping occurrence, left to right,
      replaced. */
  function Replace(s: string, from: string, to: string): (r: string)
    requires |from| > 0
    ensures (forall j: nat :: !OccursAt(s, from, j)) ==> r == s
    ensures to == from ==> r == s
  {
    JoinSplit(s, from);
    Join(Split(s, from), to)
  }

  /** Removing a leading pattern from a text that has no other occurrence of
      its first character leaves the rest. */
  lemma ReplacePrefix(pat: string, t: string)
    requires |pat| > 0 && pat[0] !in t
    ensures Replace(pat + t, pat, "") == t
  {
    var parts := ["", t];
    assert Join(parts, pat) == pat + t;
    SplitJoin(parts, pat);
    assert Join(parts, "") == t;
  }

  /** A line ending in a carriage return. */
  predicate EndsInCR(line: string) {
    |line| > 0 && line[|line| - 1] == '\r'
  }

  /** A piece ended by a line feed, as `lines()` gives it back: without the
      one carriage return that may sit before the line feed. */
  function StripCR(line: string): string {
    if EndsInCR(line) then line[..|line| - 1] else line
  }

  function StripCRs(lines: seq<string>): seq<string> {
    seq(|lines|, k requires 0 <= k < |lines| => StripCR(lines[k]))
  }

  /** Each line with a carriage return added at its end. */
  function WithCR(lines: seq<string>): seq<string> {
    seq(|lines|, k requires 0 <= k < |lines| => lines[k] + "\r")
  }

  /** `s.lines()`: the pieces between line feeds, with no piece after a final
      line feed. A piece that a line feed ends loses one carriage return at
      its end, so `\r\n` ends a line as `\n` does; a carriage return at the
      very end of the text stays. */
  function Lines(s: string): (r: seq<string>)
    ensures |r| > 0 <==> |s| > 0
    ensures forall k :: 0 <= k < |r| ==> '\n' !in r[k]
  {
    if |s| == 0 then []
    else if s[|s| - 1] == '\n' then
      var pieces := Split(s[..|s| - 1], "\n");
      NoLineFeed(pieces);
      StripCRs(pieces)
    else
      var pieces := Split(s, "\n");
      NoLineFeed(pieces);
      StripCRs(pieces[..|pieces| - 1]) + [pieces[|pieces| - 1]]
  }

  /** Pieces holding no line feed keep none after a carriage return is
      stripped. */
  lemma NoLineFeed(pieces: seq<string>)
    requires forall k: nat, j: nat :: k < |pieces| ==> !OccursAt(pieces[k], "\n", j)
    ensures forall k :: 0 <= k < |pieces| ==> '\n' !in pieces[k] && '\n' !in StripCR(pieces[k])
  {
    forall k, j | 0 <= k < |pieces| && 0 <= j < |pieces[k]|
      ensures pieces[k][j] != '\n'
    {
      assert pieces[k][j] == pieces[k][j..j + 1][0];
      assert !OccursAt(pieces[k], "\n", j);
    }
  }

  /** Lines each ended by a line feed are read back without one carriage
      return at their end, and so exactly as written when none ends in one. */
  lemma LinesTerminated(lines: seq<string>)
    requires |lines| > 0 && forall k :: 0 <= k < |lines| ==> '\n' !in lines[k]
    ensures Lines(Join(lines, "\n") + "\n") == StripCRs(lines)
    ensures (forall k :: 0 <= k < |lines| ==> !EndsInCR(lines[k])) ==> Lines(Join(lines, "\n") + "\n") == lines
  {
    var s := Join(lines, "\n") + "\n";
    assert s[..|s| - 1] == Join(lines, "\n");
    SplitJoin(lines, "\n");
  }

  /** Lines each ended by a carriage return and a line feed are read back as
      written. */
  lemma LinesCRLF(lines: seq<string>)
    requires |lines| > 0 && forall k :: 0 <= k < |lines| ==> '\n' !in lines[k]
    ensures Lines(Join(WithCR(lines), "\n") + "\n") == lines
  {
    var crlf := WithCR(lines);
    forall k | 0 <= k < |crlf|
      ensures '\n' !in crlf[k] && StripCR(crlf[k]) == lines[k]
    {
      assert crlf[k][..|crlf[k]| - 1] == lines[k];
    }
    LinesTerminated(crlf);
  }

  /** Lines separated by line feeds, the last one non-empty and not
      terminated, are read back with one carriage return stripped from the
      end of every line but the last, and so exactly as written when none
      of those ends in one. */
  lemma LinesSeparated(lines: seq<string>)
    requires |lines| > 0 && forall k :: 0 <= k < |lines| ==> '\n' !in lines[k]
    requires |lines[|lines| - 1]| > 0
    ensures Lines(Join(lines, "\n")) == StripCRs(lines[..|lines| - 1]) + [lines[|lines| - 1]]
    ensures (forall k :: 0 <= k < |lines| - 1 ==> !EndsInCR(lines[k])) ==> Lines(Join(lines, "\n")) == lines
  {
    var s := Join(lines, "\n");
    var last := lines[|lines| - 1];
    JoinEndsWithLast(lines, "\n");
    assert s[|s| - 1] != '\n' by {
      assert last[|last| - 1] in last;
    }
    SplitJoin(lines, "\n");
    StripCRsKeep(lines[..|lines| - 1]);
    assert lines[..|lines| - 1] + [last] == lines;
  }

  /** Stripping changes nothing when no line ends in a carriage return. */
  lemma StripCRsKeep(lines: seq<string>)
    ensures (forall k :: 0 <= k < |lines| ==> !EndsInCR(lines[k])) ==> StripCRs(lines) == lines
  {
  }

  lemma {:induction false} JoinEndsWithLast(parts: seq<string>, pat: string)
    requires |parts| > 0 && |parts[|parts| - 1]| > 0
    ensures var s := Join(parts, pat); |s| > 0 && s[|s| - 1] == parts[|parts| - 1][|parts[|parts| - 1]| - 1]
  {
    if |parts| > 1 {
      JoinEndsWithLast(parts[1..], pat);
    }
  }

  /** A text without line feeds is a single line, a carriage return at its
      end included. */
  lemma LinesSingle(s: string)
    requires |s| > 0 && '\n' !in s
    ensures Lines(s) == [s]
  {
    FindNone(s, "\n");
  }

  lemma JoinThree(a: string, b: string, c: string, pat: string)
    ensures Join([a, b, c], pat) == a + pat + b + pat + c
  {
    var parts := [a, b, c];
    assert parts[1..] == [b, c] && parts[1..][1..] == [c];
    assert Join([b, c], pat) == b + pat + c;
    assert a + pat + (b + pat + c) == a + pat + b + pat + c;
  }

  lemma JoinFour(a: string, b: string, c: string, d: string, pat: string)
    ensures Join([a, b, c, d], pat) == a + pat + b + pat + c + pat + d
  {
    var parts := [a, b, c, d];
    assert parts[1..] == [b, c, d] && parts[1..][1..] == [c, d] && parts[1..][1..][1..] == [d];
    assert Join([c, d], pat) == c + pat + d;
    assert Join([b, c, d], pat) == b + pat + (c + pat + d);
    assert a + pat + (b + pat + (c + pat + d)) == a + pat + b + pat + c + pat + d;
  }

  lemma JoinFive(a: string, b: string, c: string, d: string, e: string, pat: string)
    ensures Join([a, b, c, d, e], pat) == a + pat + b + pat + c + pat + d + pat + e
  {
    var parts := [a, b, c, d, e];
    assert parts[1..] == [b, c, d, e];
    JoinFour(b, c, d, e, pat);
    assert a + pat + (b + pat + c + pat + d + pat + e) == a + pat + b + pat + c + pat + d + pat + e;
  }
}
