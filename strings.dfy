/**
 * String helpers the reconciliation relies on: `getLongestString`, the
 * lower-casing and trimming used to normalise amenity names, and the order
 * `sortByLengthAndLexicographically` sorts by (longer first, then
 * lexicographic; `localeCompare` is replaced by code-point order, which is
 * what it amounts to on the lower-cased names every caller passes).
 */
module Strings {

  /** `String.prototype.toLowerCase` on one character (ASCII letters only). */
  function LowerChar(c: char): char {
    if 'A' <= c <= 'Z' then (c as int + 32) as char else c
  }

  function Lower(s: string): string {
    seq(|s|, i requires 0 <= i < |s| => LowerChar(s[i]))
  }

  /** `names.map((n) => n.toLowerCase())`. */
  function LowerAll(names: seq<string>): (r: seq<string>)
    ensures |r| == |names|
    ensures forall i :: 0 <= i < |names| ==> r[i] == Lower(names[i])
  {
    seq(|names|, i requires 0 <= i < |names| => Lower(names[i]))
  }

  lemma LowerIdempotent(s: string)
    ensures Lower(Lower(s)) == Lower(s)
  {
  }

  /** ECMAScript WhiteSpace and LineTerminator code points, which `trim` removes. */
  predicate IsWhitespace(c: char) {
    || c == '\t' || c == '\n' || c == '\U{B}' || c == '\U{C}' || c == '\r'
    || c == ' ' || c == '\U{A0}' || c == '\U{1680}'
    || ('\U{2000}' <= c <= '\U{200A}')
    || c == '\U{2028}' || c == '\U{2029}' || c == '\U{202F}' || c == '\U{205F}'
    || c == '\U{3000}' || c == '\U{FEFF}'
  }

  function TrimStart(s: string): string
    decreases |s|
  {
    if |s| > 0 && IsWhitespace(s[0]) then TrimStart(s[1..]) else s
  }

  function TrimEnd(s: string): string
    decreases |s|
  {
    if |s| > 0 && IsWhitespace(s[|s| - 1]) then TrimEnd(s[..|s| - 1]) else s
  }

  function Trim(s: string): string {
    TrimEnd(TrimStart(s))
  }

  /**
   * `s.toLowerCase().trim()`: the normal form amenity names are compared in,
   * computed trim-first (`NormIsTrimOfLower` shows the two orders agree).
   */
  function Norm(s: string): string {
    Lower(Trim(s))
  }

  lemma {:induction false} TrimStartLower(s: string)
    ensures TrimStart(Lower(s)) == Lower(TrimStart(s))
    decreases |s|
  {
    if |s| > 0 {
      assert Lower(s)[0] == LowerChar(s[0]);
      assert Lower(s)[1..] == Lower(s[1..]);
      TrimStartLower(s[1..]);
    }
  }

  lemma {:induction false} TrimEndLower(s: string)
    ensures TrimEnd(Lower(s)) == Lower(TrimEnd(s))
    decreases |s|
  {
    if |s| > 0 {
      var n := |s| - 1;
      assert Lower(s)[n] == LowerChar(s[n]);
      assert Lower(s)[..n] == Lower(s[..n]);
      TrimEndLower(s[..n]);
    }
  }

  /** Lower-casing and trimming commute: no letter is whitespace. */
  lemma NormIsTrimOfLower(s: string)
    ensures Norm(s) == Trim(Lower(s))
  {
    TrimStartLower(s);
    TrimEndLower(TrimStart(s));
  }

  /** What `TrimStart` leaves does not start with whitespace. */
  lemma {:induction false} TrimStartStops(s: string)
    ensures TrimStart(s) == [] || !IsWhitespace(TrimStart(s)[0])
    decreases |s|
  {
    if |s| > 0 && IsWhitespace(s[0]) {
      TrimStartStops(s[1..]);
    }
  }

  /** What `TrimEnd` leaves is a prefix of its input that does not end with whitespace. */
  lemma {:induction false} TrimEndStops(s: string)
    ensures |TrimEnd(s)| <= |s| && TrimEnd(s) == s[..|TrimEnd(s)|]
    ensures TrimEnd(s) == [] || !IsWhitespace(TrimEnd(s)[|TrimEnd(s)| - 1])
    decreases |s|
  {
    if |s| > 0 && IsWhitespace(s[|s| - 1]) {
      var n := |s| - 1;
      TrimEndStops(s[..n]);
      assert s[..n][..|TrimEnd(s[..n])|] == s[..|TrimEnd(s[..n])|];
    }
  }

  /** Trimming twice is trimming once. */
  lemma TrimIdempotent(s: string)
    ensures Trim(Trim(s)) == Trim(s)
  {
    var t := TrimStart(s);
    var u := TrimEnd(t);
    TrimStartStops(s);
    TrimEndStops(t);
    if u != [] {
      assert u[0] == t[0];
    }
  }

  /**
   * A name whose lower-cased form is a normal form has that normal form:
   * `t.toLowerCase() === s.toLowerCase().trim()` makes `t` and `s` equal
   * once both are lower-cased and trimmed.
   */
  lemma LowerMatchesNorm(t: string, s: string)
    requires Lower(t) == Norm(s)
    ensures Norm(t) == Norm(s)
  {
    NormIsTrimOfLower(t);
    NormIsTrimOfLower(s);
    TrimIdempotent(Lower(s));
  }

  /**
   * `getLongestString(a, b)`: the longer of the two strings; on equal
   * lengths the first one.
   */
  function LongestString(a: string, b: string): (r: string)
    ensures r == a || r == b
    ensures |r| >= |a| && |r| >= |b|
    ensures |a| == |b| ==> r == a
  {
    if |b| > |a| then b else a
  }

  /** Merging the same value in again changes nothing. */
  lemma LongestStringAbsorbs(a: string, b: string)
    ensures LongestString(LongestString(a, b), b) == LongestString(a, b)
    ensures LongestString(b, b) == b
  {
  }

  /** Lexicographic "less than or equal" on code points. */
  predicate LexLe(a: string, b: string)
    decreases |a|
  {
    |a| == 0 || (|b| > 0 && (a[0] < b[0] || (a[0] == b[0] && LexLe(a[1..], b[1..]))))
  }

  /** The comparator of `sortByLengthAndLexicographically`: may `a` come before `b`? */
  predicate LengthLexLe(a: string, b: string) {
    |a| > |b| || (|a| == |b| && LexLe(a, b))
  }

  lemma {:induction false} LexLeTotal(a: string, b: string)
    ensures LexLe(a, b) || LexLe(b, a)
    decreases |a|
  {
    if |a| > 0 && |b| > 0 && a[0] == b[0] {
      LexLeTotal(a[1..], b[1..]);
    }
  }

  lemma {:induction false} LexLeTransitive(a: string, b: string, c: string)
    requires LexLe(a, b) && LexLe(b, c)
    ensures LexLe(a, c)
    decreases |a|
  {
    if |a| > 0 && a[0] == b[0] && b[0] == c[0] {
      LexLeTransitive(a[1..], b[1..], c[1..]);
    }
  }

  lemma {:induction false} LexLeAntisymmetric(a: string, b: string)
    requires LexLe(a, b) && LexLe(b, a)
    ensures a == b
    decreases |a|
  {
    if |a| > 0 {
      LexLeAntisymmetric(a[1..], b[1..]);
      assert a == [a[0]] + a[1..] && b == [b[0]] + b[1..];
    }
  }

  lemma {:induction false} LexLeReflexive(a: string)
    ensures LexLe(a, a)
    decreases |a|
  {
    if |a| > 0 {
      LexLeReflexive(a[1..]);
    }
  }

  lemma LengthLexLeReflexive(a: string)
    ensures LengthLexLe(a, a)
  {
    LexLeReflexive(a);
  }

  /** The comparator is total, transitive and antisymmetric: a total order. */
  lemma LengthLexLeTotal(a: string, b: string)
    ensures LengthLexLe(a, b) || LengthLexLe(b, a)
  {
    LexLeTotal(a, b);
  }

  lemma LengthLexLeTransitive(a: string, b: string, c: string)
    requires LengthLexLe(a, b) && LengthLexLe(b, c)
    ensures LengthLexLe(a, c)
  {
    if |a| == |b| == |c| {
      LexLeTransitive(a, b, c);
    }
  }

  lemma LengthLexLeAntisymmetric(a: string, b: string)
    requires LengthLexLe(a, b) && LengthLexLe(b, a)
    ensures a == b
  {
    LexLeAntisymmetric(a, b);
  }

  /** Ordered by the comparator: longer strings first, equal lengths ascending. */
  predicate SortedByLengthLex(s: seq<string>) {
    forall i, j :: 0 <= i < j < |s| ==> LengthLexLe(s[i], s[j])
  }
}
