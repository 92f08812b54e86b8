/** Turning user input into LIKE patterns that mean exactly that input. */
module LikePattern {

  const ESCAPE: char := '\\'
  const MANY: char := '%'
  const ONE: char := '_'

  predicate Special(c: char) { c == MANY || c == ONE || c == ESCAPE }

  /** A pattern whose every escape character escapes something. */
  predicate WellFormed(p: string) {
    if p == "" then true
    else if p[0] == ESCAPE then |p| > 1 && WellFormed(p[2..])
    else WellFormed(p[1..])
  }

  /** The LIKE predicate (section 8.5 of ISO/IEC 9075-2) with backslash as the escape character. */
  ghost predicate Like(p: string, s: string)
    decreases |p|
  {
    if p == "" then s == ""
    else if p[0] == MANY then exists k | 0 <= k <= |s| :: Like(p[1..], s[k..])
    else if p[0] == ESCAPE then |p| > 1 && s != "" && s[0] == p[1] && Like(p[2..], s[1..])
    else if p[0] == ONE then s != "" && Like(p[1..], s[1..])
    else s != "" && s[0] == p[0] && Like(p[1..], s[1..])
  }

  function EscapeChar(c: char): string {
    if Special(c) then [ESCAPE, c] else [c]
  }

  function Escaped(s: string): string {
    if s == "" then "" else EscapeChar(s[0]) + Escaped(s[1..])
  }

  method EscapeLikePattern(s: string) returns (out: string)
    ensures out == Escaped(s)
  {
    out := "";
    for i := 0 to |s|
      invariant out + Escaped(s[i..]) == Escaped(s)
    {
      OneCharacter(out, s, i);
      ghost var before := out;
      if s[i] == MANY || s[i] == ONE || s[i] == ESCAPE {
        out := out + [ESCAPE];
      }
      out := out + [s[i]];
      assert out == before + EscapeChar(s[i]);
    }
  }

  lemma OneCharacter(out: string, s: string, i: nat)
    requires i < |s|
    ensures out + Escaped(s[i..]) == out + EscapeChar(s[i]) + Escaped(s[i + 1..])
  {
    assert s[i..][1..] == s[i + 1..];
  }

  function TrigramPattern(query: string): string {
    [MANY] + Escaped(query) + [MANY]
  }

  /***** What the patterns match *****/

  lemma PrefixHead(q: string, s: string)
    requires q != ""
    ensures q <= s <==> s != "" && s[0] == q[0] && q[1..] <= s[1..]
  {
    if s != "" && s[0] == q[0] && q[1..] <= s[1..] {
      assert s == [s[0]] + s[1..] && q == [q[0]] + q[1..];
    }
  }

  /** An escaped text in front of a pattern consumes exactly itself. */
  lemma {:induction false} EscapedFront(q: string, p: string, s: string)
    ensures Like(Escaped(q) + p, s) <==> q <= s && Like(p, s[|q|..])
    decreases |q|
  {
    if q == "" {
      assert Escaped(q) + p == p;
    } else {
      var tail := Escaped(q[1..]) + p;
      assert Escaped(q) + p == EscapeChar(q[0]) + tail;
      assert (EscapeChar(q[0]) + tail)[|EscapeChar(q[0])|..] == tail;
      PrefixHead(q, s);
      if s != "" {
        EscapedFront(q[1..], p, s[1..]);
        if q <= s {
          assert s[1..][|q| - 1..] == s[|q|..];
        }
      }
    }
  }

  lemma AnythingMatchesMany(s: string)
    ensures Like([MANY], s)
  {
    assert [MANY][1..] == "";
    assert s[|s|..] == "";
    assert Like("", s[|s|..]);
  }

  lemma {:induction false} EscapedWellFormed(q: string, p: string)
    requires WellFormed(p)
    ensures WellFormed(Escaped(q) + p)
  {
    if q == "" {
      assert Escaped(q) + p == p;
    } else {
      var tail := Escaped(q[1..]) + p;
      EscapedWellFormed(q[1..], p);
      assert Escaped(q) + p == EscapeChar(q[0]) + tail;
      assert (EscapeChar(q[0]) + tail)[|EscapeChar(q[0])|..] == tail;
    }
  }

  ghost predicate Contains(s: string, q: string) {
    exists k | 0 <= k <= |s| :: q <= s[k..]
  }

  /** MAIN: the escaped input matches exactly the input. */
  lemma MatchesExactly(q: string, s: string)
    ensures Like(Escaped(q), s) <==> s == q
  {
    EscapedFront(q, "", s);
    assert Escaped(q) + "" == Escaped(q);
  }

  /** MAIN: with a wildcard appended it matches exactly the strings that start with the input. */
  lemma MatchesPrefix(q: string, s: string)
    ensures Like(Escaped(q) + [MANY], s) <==> q <= s
  {
    EscapedFront(q, [MANY], s);
    if q <= s {
      AnythingMatchesMany(s[|q|..]);
    }
  }

  /** MAIN: the trigram pattern is well formed and matches exactly the strings that contain the input. */
  lemma MatchesSubstring(q: string, s: string)
    ensures WellFormed(TrigramPattern(q))
    ensures Like(TrigramPattern(q), s) <==> Contains(s, q)
  {
    assert TrigramPattern(q)[1..] == Escaped(q) + [MANY];
    assert WellFormed([MANY]);
    EscapedWellFormed(q, [MANY]);
    forall k | 0 <= k <= |s|
      ensures Like(TrigramPattern(q)[1..], s[k..]) <==> q <= s[k..]
    {
      MatchesPrefix(q, s[k..]);
    }
  }

  /***** The user filter's three replacements *****/

  /** Replaces every occurrence of one character by a string. */
  function Replace(s: string, c: char, with: string): string {
    if s == "" then "" else (if s[0] == c then with else [s[0]]) + Replace(s[1..], c, with)
  }

  lemma {:induction false} ReplaceAppend(a: string, b: string, c: char, with: string)
    ensures Replace(a + b, c, with) == Replace(a, c, with) + Replace(b, c, with)
  {
    if a == "" {
      assert a + b == b;
    } else {
      var head := if a[0] == c then with else [a[0]];
      var restA, restB := Replace(a[1..], c, with), Replace(b, c, with);
      calc {
        Replace(a + b, c, with);
      ==  { assert (a + b)[1..] == a[1..] + b; }
        head + Replace(a[1..] + b, c, with);
      ==  { ReplaceAppend(a[1..], b, c, with); }
        head + (restA + restB);
      ==
        (head + restA) + restB;
      ==
        Replace(a, c, with) + restB;
      }
    }
  }

  function Chained(s: string): string {
    Replace(Replace(Replace(s, ESCAPE, [ESCAPE, ESCAPE]), MANY, [ESCAPE, MANY]), ONE, [ESCAPE, ONE])
  }

  lemma ReplaceOne(x: char, c: char, with: string)
    ensures Replace([x], c, with) == if x == c then with else [x]
  {
    assert [x][1..] == "";
  }

  lemma ReplaceTwo(x: char, y: char, c: char, with: string)
    ensures Replace([x, y], c, with) == (if x == c then with else [x]) + (if y == c then with else [y])
  {
    assert [x, y] == [x] + [y];
    ReplaceAppend([x], [y], c, with);
    ReplaceOne(x, c, with);
    ReplaceOne(y, c, with);
  }

  lemma ChainedChar(c: char)
    ensures Chained([c]) == EscapeChar(c)
  {
    ReplaceOne(c, ESCAPE, [ESCAPE, ESCAPE]);
    ReplaceOne(c, MANY, [ESCAPE, MANY]);
    ReplaceOne(c, ONE, [ESCAPE, ONE]);
    ReplaceTwo(ESCAPE, ESCAPE, MANY, [ESCAPE, MANY]);
    ReplaceTwo(ESCAPE, ESCAPE, ONE, [ESCAPE, ONE]);
    ReplaceTwo(ESCAPE, MANY, ONE, [ESCAPE, ONE]);
  }

  /** MAIN: replacing backslash, then percent, then underscore builds the same pattern as the one-pass loop. */
  lemma {:induction false} ChainedIsEscaped(s: string)
    ensures Chained(s) == Escaped(s)
  {
    if s != "" {
      ChainedIsEscaped(s[1..]);
      ChainedChar(s[0]);
      assert s == [s[0]] + s[1..];
      ReplaceAppend([s[0]], s[1..], ESCAPE, [ESCAPE, ESCAPE]);
      var a1, b1 := Replace([s[0]], ESCAPE, [ESCAPE, ESCAPE]), Replace(s[1..], ESCAPE, [ESCAPE, ESCAPE]);
      ReplaceAppend(a1, b1, MANY, [ESCAPE, MANY]);
      ReplaceAppend(Replace(a1, MANY, [ESCAPE, MANY]), Replace(b1, MANY, [ESCAPE, MANY]), ONE, [ESCAPE, ONE]);
    }
  }

  /***** Case-insensitive matching *****/

  function Folded(fold: char -> char, s: string): string {
    seq(|s|, i requires 0 <= i < |s| => fold(s[i]))
  }

  /** ILIKE compares the folded pattern with the folded text. */
  ghost predicate ILike(fold: char -> char, p: string, s: string) {
    Like(Folded(fold, p), Folded(fold, s))
  }

  /** Case folding leaves the pattern characters alone and produces none. */
  ghost predicate FoldsLetters(fold: char -> char) {
    forall c :: (Special(c) ==> fold(c) == c) && (Special(fold(c)) ==> Special(c))
  }

  lemma FoldedParts(fold: char -> char, a: string, b: string)
    ensures Folded(fold, a + b) == Folded(fold, a) + Folded(fold, b)
  {}

  lemma {:induction false} FoldedEscaped(fold: char -> char, q: string)
    requires FoldsLetters(fold)
    ensures Folded(fold, Escaped(q)) == Escaped(Folded(fold, q))
  {
    if q != "" {
      FoldedEscaped(fold, q[1..]);
      assert Folded(fold, q)[1..] == Folded(fold, q[1..]);
      FoldedParts(fold, EscapeChar(q[0]), Escaped(q[1..]));
      assert Folded(fold, EscapeChar(q[0])) == EscapeChar(fold(q[0]));
    }
  }

  lemma FoldedMany(fold: char -> char)
    requires FoldsLetters(fold)
    ensures Folded(fold, [MANY]) == [MANY]
  {
    assert Special(MANY);
  }

  /** MAIN: case-insensitively, the trigram pattern finds exactly the texts that contain the input up to case. */
  lemma CaseInsensitiveSubstring(fold: char -> char, q: string, s: string)
    requires FoldsLetters(fold)
    ensures ILike(fold, TrigramPattern(q), s) <==> Contains(Folded(fold, s), Folded(fold, q))
  {
    FoldedEscaped(fold, q);
    FoldedMany(fold);
    FoldedParts(fold, [MANY], Escaped(q));
    FoldedParts(fold, [MANY] + Escaped(q), [MANY]);
    MatchesSubstring(Folded(fold, q), Folded(fold, s));
  }

  /** MAIN: and the suggestion pattern exactly the texts that start with it up to case. */
  lemma CaseInsensitivePrefix(fold: char -> char, q: string, s: string)
    requires FoldsLetters(fold)
    ensures ILike(fold, Escaped(q) + [MANY], s) <==> Folded(fold, q) <= Folded(fold, s)
  {
    FoldedEscaped(fold, q);
    FoldedMany(fold);
    FoldedParts(fold, Escaped(q), [MANY]);
    MatchesPrefix(Folded(fold, q), Folded(fold, s));
  }
}
