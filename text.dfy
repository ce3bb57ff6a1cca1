/** String operations the routes rely on: JavaScript's `String.prototype.trim`,
    the substring test behind SQL `LIKE '%term%'`, string order for SQL
    `ORDER BY name ASC`, and the comma join/split of `GROUP_CONCAT` and
    `String.prototype.split(',')`. */
module Text {

  /** ECMAScript WhiteSpace and LineTerminator code points, the set `trim` removes. */
  predicate IsSpace(c: char) {
    || c == '\t' || c == '\n' || c == '\U{000B}' || c == '\U{000C}' || c == '\r' || c == ' '
    || c == '\U{00A0}' || c == '\U{1680}' || ('\U{2000}' <= c <= '\U{200A}')
    || c == '\U{2028}' || c == '\U{2029}' || c == '\U{202F}' || c == '\U{205F}'
    || c == '\U{3000}' || c == '\U{FEFF}'
  }

  /** The number of white-space characters `s` starts with. */
  function LeadingSpaces(s: string): (n: nat)
    ensures n <= |s|
    ensures forall i :: 0 <= i < n ==> IsSpace(s[i])
    ensures n < |s| ==> !IsSpace(s[n])
  {
    if s != [] && IsSpace(s[0]) then
      var n := 1 + LeadingSpaces(s[1..]);
      assert forall i :: 1 <= i < n ==> s[i] == s[1..][i - 1];
      n
    else 0
  }

  /** The number of white-space characters `s` ends with. */
  function TrailingSpaces(s: string): (n: nat)
    ensures n <= |s|
    ensures forall i :: |s| - n <= i < |s| ==> IsSpace(s[i])
    ensures n < |s| ==> !IsSpace(s[|s| - n - 1])
  {
    if s != [] && IsSpace(s[|s| - 1]) then
      var n := 1 + TrailingSpaces(s[..|s| - 1]);
      assert forall i :: |s| - n <= i < |s| - 1 ==> s[i] == s[..|s| - 1][i];
      n
    else 0
  }

  /** `s` without its leading white space. */
  function TrimStart(s: string): string {
    s[LeadingSpaces(s)..]
  }

  /** `s` without its trailing white space. */
  function TrimEnd(s: string): string {
    s[..|s| - TrailingSpaces(s)]
  }

  function Trim(s: string): string {
    TrimEnd(TrimStart(s))
  }

  /** `Trim(s)` is the infix of `s` left when the white space at both ends is cut:
      it starts at the first non-space and ends at the last one. */
  lemma TrimIsInfix(s: string)
    ensures var lead, r := LeadingSpaces(s), Trim(s);
      && lead + |r| <= |s|
      && (forall i :: 0 <= i < |r| ==> r[i] == s[lead + i])
      && (forall i :: 0 <= i < lead ==> IsSpace(s[i]))
      && (forall i :: lead + |r| <= i < |s| ==> IsSpace(s[i]))
      && (r != [] ==> !IsSpace(r[0]) && !IsSpace(r[|r| - 1]))
  {
    TrimKeepsMiddle(s);
    TrimCutsSpace(s);
    TrimEndsInNonSpace(s);
  }

  /** The characters `Trim` keeps are those of `s` from the first non-space on. */
  lemma TrimKeepsMiddle(s: string)
    ensures var lead, r := LeadingSpaces(s), Trim(s);
      && lead + |r| <= |s|
      && (forall i :: 0 <= i < |r| ==> r[i] == s[lead + i])
  {
    var u := s[LeadingSpaces(s)..];
    assert Trim(s) == u[..|u| - TrailingSpaces(u)];
  }

  /** Everything after the trimmed text in `s` is white space. */
  lemma TrimCutsSpace(s: string)
    ensures var lead, r := LeadingSpaces(s), Trim(s);
      && lead + |r| <= |s|
      && (forall i :: lead + |r| <= i < |s| ==> IsSpace(s[i]))
  {
    var lead := LeadingSpaces(s);
    var u := s[lead..];
    var r := Trim(s);
    assert r == u[..|u| - TrailingSpaces(u)];
    forall i | lead + |r| <= i < |s| ensures IsSpace(s[i]) {
      assert s[i] == u[i - lead];
    }
  }

  /** A non-empty trimmed text neither starts nor ends with white space. */
  lemma TrimEndsInNonSpace(s: string)
    ensures var r := Trim(s); r != [] ==> !IsSpace(r[0]) && !IsSpace(r[|r| - 1])
  {
    var u := s[LeadingSpaces(s)..];
    assert Trim(s) == u[..|u| - TrailingSpaces(u)];
  }

  /** Trimming twice is trimming once. */
  lemma TrimIdempotent(s: string)
    ensures Trim(Trim(s)) == Trim(s)
  {
    var r := Trim(s);
    TrimIsInfix(s);
    assert LeadingSpaces(r) == 0;
    assert TrailingSpaces(r) == 0;
  }

  // ---------------------------------------------------------------------------
  // String length as JavaScript counts it

  /** A code point outside the Basic Multilingual Plane is a surrogate pair. */
  predicate IsAstral(c: char) {
    c >= '\U{10000}'
  }

  /** `s.length` in JavaScript: the number of UTF-16 code units. */
  function Utf16Length(s: string): (n: nat)
    ensures |s| <= n <= 2 * |s|
    ensures n == |s| <==> forall i :: 0 <= i < |s| ==> !IsAstral(s[i])
  {
    if s == [] then 0
    else
      var rest := Utf16Length(s[1..]);
      assert forall i :: 1 <= i < |s| ==> s[i] == s[1..][i - 1];
      (if IsAstral(s[0]) then 2 else 1) + rest
  }

  /** One astral character already has length two. */
  lemma AstralCharHasLengthTwo(c: char)
    requires IsAstral(c)
    ensures Utf16Length([c]) == 2
  {
    assert [c][1..] == [];
  }

  // ---------------------------------------------------------------------------
  // Substring matching

  ghost predicate OccursAt(s: string, p: string, k: int) {
    0 <= k && k + |p| <= |s| && s[k..k + |p|] == p
  }

  /** `p` occurs somewhere in `s` (`s LIKE '%p%'` with no wildcard inside `p`). */
  predicate Contains(s: string, p: string)
    ensures Contains(s, p) <==> exists k :: OccursAt(s, p, k)
  {
    if |p| > |s| then
      assert forall k :: !OccursAt(s, p, k);
      false
    else if s[..|p|] == p then
      assert OccursAt(s, p, 0);
      true
    else
      var found := Contains(s[1..], p);
      assert found ==> exists k :: OccursAt(s, p, k) by {
        if found {
          var k :| OccursAt(s[1..], p, k);
          assert s[k + 1..k + 1 + |p|] == s[1..][k..k + |p|];
          assert OccursAt(s, p, k + 1);
        }
      }
      assert (exists k :: OccursAt(s, p, k)) ==> found by {
        if exists k :: OccursAt(s, p, k) {
          var k :| OccursAt(s, p, k);
          assert k != 0;
          assert s[1..][k - 1..k - 1 + |p|] == s[k..k + |p|];
          assert OccursAt(s[1..], p, k - 1);
        }
      }
      found
  }

  // ---------------------------------------------------------------------------
  // Code-point order, as SQL `ORDER BY ... ASC` on a binary collation

  predicate StringLess(a: string, b: string) {
    if a == [] then b != []
    else if b == [] then false
    else a[0] < b[0] || (a[0] == b[0] && StringLess(a[1..], b[1..]))
  }

  lemma {:induction false} StringLessIrreflexive(a: string)
    ensures !StringLess(a, a)
  {
    if a != [] { StringLessIrreflexive(a[1..]); }
  }

  lemma {:induction false} StringLessTransitive(a: string, b: string, c: string)
    requires StringLess(a, b) && StringLess(b, c)
    ensures StringLess(a, c)
  {
    if a != [] && b != [] && c != [] && a[0] == b[0] == c[0] {
      StringLessTransitive(a[1..], b[1..], c[1..]);
    }
  }

  /** Any two different strings are ordered one way or the other. */
  lemma {:induction false} StringLessTotal(a: string, b: string)
    requires a != b
    ensures StringLess(a, b) || StringLess(b, a)
  {
    if a != [] && b != [] && a[0] == b[0] {
      assert a == [a[0]] + a[1..] && b == [b[0]] + b[1..];
      StringLessTotal(a[1..], b[1..]);
    }
  }

  /** Not being below is transitive too, so ties under `StringLess` are equality. */
  lemma NotStringLessTransitive(a: string, b: string, c: string)
    requires !StringLess(a, b) && !StringLess(b, c)
    ensures !StringLess(a, c)
  {
    if a != b { StringLessTotal(a, b); }
    if b != c { StringLessTotal(b, c); }
    if a == b || b == c {
    } else {
      StringLessTransitive(c, b, a);
      if StringLess(a, c) {
        StringLessTransitive(a, c, a);
        StringLessIrreflexive(a);
      }
    }
  }

  // ---------------------------------------------------------------------------
  // GROUP_CONCAT and split

  /** The pieces of `xs` separated by `sep` (`GROUP_CONCAT` with its default ','). */
  function Join(xs: seq<string>, sep: char): string {
    if xs == [] then ""
    else if |xs| == 1 then xs[0]
    else xs[0] + [sep] + Join(xs[1..], sep)
  }

  /** `s.split(sep)` for a one-character separator. */
  function Split(s: string, sep: char): (r: seq<string>)
    ensures |r| >= 1
    ensures forall i :: 0 <= i < |r| ==> sep !in r[i]
  {
    if s == [] then [""]
    else if s[0] == sep then [""] + Split(s[1..], sep)
    else
      var rest := Split(s[1..], sep);
      [[s[0]] + rest[0]] + rest[1..]
  }

  lemma {:induction false} SplitNoSeparator(a: string, sep: char)
    requires sep !in a
    ensures Split(a, sep) == [a]
  {
    if a != [] {
      SplitNoSeparator(a[1..], sep);
      assert [a[0]] + a[1..] == a;
    }
  }

  lemma {:induction false} SplitAfterPiece(a: string, b: string, sep: char)
    requires sep !in a
    ensures Split(a + [sep] + b, sep) == [a] + Split(b, sep)
  {
    if a == [] {
      assert a + [sep] + b == [sep] + b;
      assert ([sep] + b)[1..] == b;
    } else {
      SplitAfterPiece(a[1..], b, sep);
      assert (a + [sep] + b)[1..] == a[1..] + [sep] + b;
      assert [a[0]] + a[1..] == a;
    }
  }

  /** Splitting what was joined gives the pieces back, when no piece holds the
      separator. */
  lemma {:induction false} SplitJoin(xs: seq<string>, sep: char)
    requires xs != []
    requires forall i :: 0 <= i < |xs| ==> sep !in xs[i]
    ensures Split(Join(xs, sep), sep) == xs
  {
    if |xs| == 1 {
      SplitNoSeparator(xs[0], sep);
    } else {
      SplitJoin(xs[1..], sep);
      SplitAfterPiece(xs[0], Join(xs[1..], sep), sep);
      assert [xs[0]] + xs[1..] == xs;
    }
  }

  /** Joining the pieces of a split gives the string back. */
  lemma {:induction false} JoinSplit(s: string, sep: char)
    ensures Join(Split(s, sep), sep) == s
  {
    if s != [] {
      JoinSplit(s[1..], sep);
      var rest := Split(s[1..], sep);
      if s[0] == sep {
        assert ([""] + rest)[1..] == rest;
      } else {
        var r := [[s[0]] + rest[0]] + rest[1..];
        if |rest| == 1 {
          assert Join(r, sep) == [s[0]] + rest[0];
        } else {
          assert r[1..] == rest[1..];
          assert Join(rest, sep) == rest[0] + [sep] + Join(rest[1..], sep);
        }
        assert s == [s[0]] + s[1..];
      }
    }
  }

  /** A name holding a comma comes back as two pieces. */
  lemma CommaInNameSplits()
    ensures Split(Join(["C,C++"], ','), ',') == ["C", "C++"]
  {
    assert Join(["C,C++"], ',') == "C,C++";
    assert "C,C++" == "C" + [','] + "C++";
    SplitAfterPiece("C", "C++", ',');
    SplitNoSeparator("C++", ',');
  }
}
