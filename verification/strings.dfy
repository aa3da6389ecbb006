/** The ECMAScript string operations the read loop and the widget dialog use:
    `split` on a one-character separator, `join` (its inverse), `trim`,
    `startsWith`/`endsWith` with a one-character argument, and `toUpperCase`. */
module Strings {
  import opened Arrays

  /** The delimiter that ends a line on the serial stream. */
  const Newline: char := '\n'

  /** The ECMAScript WhiteSpace and LineTerminator code points, the set `trim` strips:
      tab, line tabulation, form feed, space, no-break space, byte order mark,
      the Unicode space separators (U+1680, U+2000 to U+200A, U+202F, U+205F,
      U+3000), line feed, carriage return, and the line and paragraph separators. */
  const Whitespace: set<char> := {
    '\t', '\U{000B}', '\U{000C}', ' ', '\U{00A0}', '\U{FEFF}',
    '\U{1680}', '\U{2000}', '\U{2001}', '\U{2002}', '\U{2003}', '\U{2004}',
    '\U{2005}', '\U{2006}', '\U{2007}', '\U{2008}', '\U{2009}', '\U{200A}',
    '\U{202F}', '\U{205F}', '\U{3000}',
    '\n', '\r', '\U{2028}', '\U{2029}'
  }

  predicate IsWhitespace(c: char)
  {
    c in Whitespace
  }

  predicate AllWhitespace(s: string)
  {
    forall i :: 0 <= i < |s| ==> IsWhitespace(s[i])
  }

  /** No whitespace at either end: what `trim` returns. */
  predicate IsTrimmed(s: string)
  {
    s == [] || (!IsWhitespace(s[0]) && !IsWhitespace(s[|s| - 1]))
  }

  /** The number of occurrences of `d` in `s`. */
  function Count(s: string, d: char): nat
  {
    if |s| == 0 then 0 else (if s[0] == d then 1 else 0) + Count(s[1..], d)
  }

  /** `s.split(d)`: the pieces of `s` between occurrences of `d`. There is one
      piece more than there are separators, and the pieces may be empty. */
  function Split(s: string, d: char): (parts: seq<string>)
    ensures |parts| == Count(s, d) + 1
    ensures forall i :: 0 <= i < |parts| ==> d !in parts[i]
    decreases |s|
  {
    if |s| == 0 then [""]
    else
      var rest := Split(s[1..], d);
      if s[0] == d then [""] + rest
      else [[s[0]] + rest[0]] + rest[1..]
  }

  /** `parts.join(d)`. */
  function Join(parts: seq<string>, d: char): string
    decreases |parts|
  {
    if |parts| == 0 then ""
    else if |parts| == 1 then parts[0]
    else parts[0] + [d] + Join(parts[1..], d)
  }

  /** Text without the separator splits into itself alone. */
  lemma {:induction false} SplitWithoutSeparator(s: string, d: char)
    requires d !in s
    ensures Split(s, d) == [s]
    decreases |s|
  {
    if |s| > 0 {
      assert d !in s[1..];
      SplitWithoutSeparator(s[1..], d);
      assert [s[0]] + s[1..] == s;
    }
  }

  /** Joining the pieces of a split with the same separator gives back the string. */
  lemma {:induction false} JoinSplit(s: string, d: char)
    ensures Join(Split(s, d), d) == s
    decreases |s|
  {
    if |s| > 0 {
      var rest := Split(s[1..], d);
      JoinSplit(s[1..], d);
      var parts := Split(s, d);
      if s[0] == d {
        assert parts[1..] == rest;
        assert s == [d] + s[1..];
      } else if |rest| == 1 {
        assert s == [s[0]] + s[1..];
      } else {
        assert parts[1..] == rest[1..];
        assert Join(rest, d) == rest[0] + [d] + Join(rest[1..], d);
        assert s == [s[0]] + s[1..];
      }
    }
  }

  /** A separator-free prefix followed by the separator splits off as one piece. */
  lemma {:induction false} SplitAtFirst(p: string, t: string, d: char)
    requires d !in p
    ensures Split(p, d) == [p]
    ensures Split(p + [d] + t, d) == [p] + Split(t, d)
    decreases |p|
  {
    if |p| == 0 {
      assert p + [d] + t == [d] + t;
      assert ([d] + t)[1..] == t;
    } else {
      SplitAtFirst(p[1..], t, d);
      assert (p + [d] + t)[1..] == p[1..] + [d] + t;
      assert [p[0]] + p[1..] == p;
    }
  }

  /** Splitting a join of separator-free pieces gives back the pieces. */
  lemma {:induction false} SplitJoin(parts: seq<string>, d: char)
    requires |parts| > 0
    requires forall i :: 0 <= i < |parts| ==> d !in parts[i]
    ensures Split(Join(parts, d), d) == parts
    decreases |parts|
  {
    if |parts| == 1 {
      SplitAtFirst(parts[0], "", d);
    } else {
      SplitJoin(parts[1..], d);
      SplitAtFirst(parts[0], Join(parts[1..], d), d);
      assert [parts[0]] + parts[1..] == parts;
    }
  }

  /** Joining two non-empty piece lists puts one separator between them. */
  lemma {:induction false} JoinAppend(x: seq<string>, y: seq<string>, d: char)
    requires |x| > 0 && |y| > 0
    ensures Join(x + y, d) == Join(x, d) + [d] + Join(y, d)
    decreases |x|
  {
    assert (x + y)[1..] == x[1..] + y;
    if |x| > 1 {
      JoinAppend(x[1..], y, d);
    }
  }

  /** Splitting a concatenation: every complete piece of `a` stays as it is, and
      the unfinished last piece of `a` is continued by `b`. */
  lemma SplitAppend(a: string, b: string, d: char)
    ensures Split(a + b, d) == DropLast(Split(a, d)) + Split(Last(Split(a, d)) + b, d)
  {
    var p := Split(a, d);
    var init, l := DropLast(p), Last(p);
    var q := Split(l + b, d);
    assert p == init + [l];
    JoinSplit(l + b, d);
    JoinPieces(a, b, d, init, l, q);
    PiecesFree(init, q, d);
    SplitJoin(init + q, d);
  }

  lemma JoinPieces(a: string, b: string, d: char, init: seq<string>, l: string, q: seq<string>)
    requires init + [l] == Split(a, d)
    requires |q| > 0 && Join(q, d) == l + b
    ensures Join(init + q, d) == a + b
  {
    if |init| > 0 {
      JoinLastPiece(a, d, init, l);
      JoinAppend(init, q, d);
      var j := Join(init, d);
      assert j + [d] + (l + b) == (j + [d] + l) + b;
    } else {
      JoinSplit(a, d);
      assert init + q == q;
    }
  }

  lemma JoinLastPiece(a: string, d: char, init: seq<string>, l: string)
    requires init + [l] == Split(a, d)
    requires |init| > 0
    ensures a == Join(init, d) + [d] + l
  {
    JoinSplit(a, d);
    JoinAppend(init, [l], d);
  }

  lemma PiecesFree(x: seq<string>, y: seq<string>, d: char)
    requires forall i :: 0 <= i < |x| ==> d !in x[i]
    requires forall i :: 0 <= i < |y| ==> d !in y[i]
    ensures forall i :: 0 <= i < |x + y| ==> d !in (x + y)[i]
  {
  }

  /** `t` ends `s`, and is preceded in `s` by `d` unless it is all of `s`. */
  predicate IsTailAfter(s: string, t: string, d: char)
  {
    && |t| <= |s| && t == s[|s| - |t|..]
    && (|t| < |s| ==> s[|s| - |t| - 1] == d)
  }

  /** The last piece of a split is the text after the last separator,
      or the whole string when there is none. */
  lemma LastPieceIsTail(s: string, d: char)
    ensures IsTailAfter(s, Last(Split(s, d)), d)
  {
    var p := Split(s, d);
    var init, l := DropLast(p), Last(p);
    assert p == init + [l];
    if |init| > 0 {
      JoinLastPiece(s, d, init, l);
    } else {
      JoinSplit(s, d);
    }
  }

  /** The first index at or after `i` that does not hold whitespace. */
  function SkipStart(s: string, i: nat): (j: nat)
    requires i <= |s|
    ensures i <= j <= |s|
    ensures forall k :: i <= k < j ==> IsWhitespace(s[k])
    ensures j < |s| ==> !IsWhitespace(s[j])
    decreases |s| - i
  {
    if i < |s| && IsWhitespace(s[i]) then SkipStart(s, i + 1) else i
  }

  /** The end of `s[lo..j]` once its trailing whitespace is removed. */
  function SkipEnd(s: string, lo: nat, j: nat): (e: nat)
    requires lo <= j <= |s|
    ensures lo <= e <= j
    ensures forall k :: e <= k < j ==> IsWhitespace(s[k])
    ensures e > lo ==> !IsWhitespace(s[e - 1])
    decreases j
  {
    if j > lo && IsWhitespace(s[j - 1]) then SkipEnd(s, lo, j - 1) else j
  }

  /** `s.trim()`: the infix of `s` left after stripping whitespace from both ends.
      It is empty exactly when `s` is whitespace only. */
  function Trim(s: string): (r: string)
    ensures IsTrimmed(r)
    ensures r == [] <==> AllWhitespace(s)
    ensures exists i :: 0 <= i <= |s| - |r| && r == s[i..i + |r|]
                        && AllWhitespace(s[..i]) && AllWhitespace(s[i + |r|..])
  {
    var i := SkipStart(s, 0);
    var j := SkipEnd(s, i, |s|);
    assert AllWhitespace(s[..i]) && AllWhitespace(s[j..]);
    s[i..j]
  }

  /** Trimming a trimmed string changes nothing; in particular `trim` is idempotent. */
  lemma TrimOfTrimmed(s: string)
    requires IsTrimmed(s)
    ensures Trim(s) == s
  {
  }

  predicate IsLowerAscii(c: char)
  {
    'a' <= c <= 'z'
  }

  function UpperChar(c: char): char
  {
    if IsLowerAscii(c) then (c as int - 32) as char else c
  }

  /** `s.toUpperCase()` over ASCII: each lower-case letter becomes its capital,
      every other character is kept, and the length does not change. */
  function ToUpper(s: string): (r: string)
    ensures |r| == |s|
    ensures forall i :: 0 <= i < |r| ==> !IsLowerAscii(r[i])
    ensures forall i :: 0 <= i < |s| && !IsLowerAscii(s[i]) ==> r[i] == s[i]
    ensures forall i :: 0 <= i < |s| && IsLowerAscii(s[i]) ==> r[i] as int + 32 == s[i] as int
  {
    seq(|s|, i requires 0 <= i < |s| => UpperChar(s[i]))
  }

  /** Upper-casing twice is upper-casing once. */
  lemma ToUpperIdempotent(s: string)
    ensures ToUpper(ToUpper(s)) == ToUpper(s)
  {
  }

  /** `s.startsWith(c)` for a one-character string `c`. */
  predicate StartsWith(s: string, c: char)
  {
    |s| > 0 && s[0] == c
  }

  /** `s.endsWith(c)` for a one-character string `c`. */
  predicate EndsWith(s: string, c: char)
  {
    |s| > 0 && s[|s| - 1] == c
  }
}
