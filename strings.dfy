/**
  Text primitives of JavaScript's `String` as the application uses them, restricted to ASCII:
  case mapping, `trim`, `indexOf`/`includes`, `startsWith`, `split` on one character and
  `join`. Regex classes `\w` and `\s` are the ASCII word and white-space characters.
*/
module Strings {

  /** `[A-Za-z0-9_]`: the characters regex `\w` (and so `\b`) treats as word characters. */
  predicate IsWordChar(c: char) {
    ('a' <= c <= 'z') || ('A' <= c <= 'Z') || ('0' <= c <= '9') || c == '_'
  }

  /** The ASCII characters that `trim` removes and regex `\s` matches: tab, line feed,
      vertical tab, form feed, carriage return and space. */
  predicate IsSpace(c: char) {
    c == ' ' || 9 <= c as int <= 13
  }

  function LowerChar(c: char): char {
    if 'A' <= c <= 'Z' then (c as int + 32) as char else c
  }

  function UpperChar(c: char): char {
    if 'a' <= c <= 'z' then (c as int - 32) as char else c
  }

  /** `toLowerCase()` on ASCII text. */
  function Lower(s: string): string {
    seq(|s|, i requires 0 <= i < |s| => LowerChar(s[i]))
  }

  /** `toUpperCase()` on ASCII text. */
  function Upper(s: string): string {
    seq(|s|, i requires 0 <= i < |s| => UpperChar(s[i]))
  }

  lemma LowerKeepsWordChars(c: char)
    ensures IsWordChar(LowerChar(c)) == IsWordChar(c)
  {
  }

  lemma LowerAppend(a: string, b: string)
    ensures Lower(a + b) == Lower(a) + Lower(b)
  {
  }

  lemma LowerSlice(s: string, i: int, j: int)
    requires 0 <= i <= j <= |s|
    ensures Lower(s[i..j]) == Lower(s)[i..j]
  {
  }

  lemma LowerIdempotent(s: string)
    ensures Lower(Lower(s)) == Lower(s)
  {
  }

  /** Lower-casing forgets an earlier upper-casing. */
  lemma LowerOfUpper(s: string)
    ensures Lower(Upper(s)) == Lower(s)
  {
  }

  // ---------------------------------------------------------------------------------------
  // Occurrences: `indexOf` and `includes`

  /** `sub` occurs in `s` starting at position `i`. */
  predicate OccursAt(s: string, sub: string, i: int) {
    0 <= i && i + |sub| <= |s| && s[i..i + |sub|] == sub
  }

  /** `s.indexOf(sub, k)`: the first position at or after `k` where `sub` occurs, or -1. */
  function IndexFrom(s: string, sub: string, k: nat): (r: int)
    ensures r == -1 || (k <= r && OccursAt(s, sub, r))
    ensures r == -1 ==> forall j :: k <= j ==> !OccursAt(s, sub, j)
    ensures r >= 0 ==> forall j :: k <= j < r ==> !OccursAt(s, sub, j)
    decreases |s| + 1 - k
  {
    if k + |sub| > |s| then -1
    else if OccursAt(s, sub, k) then k
    else IndexFrom(s, sub, k + 1)
  }

  /** `s.indexOf(sub)`. */
  function IndexOf(s: string, sub: string): int {
    IndexFrom(s, sub, 0)
  }

  /** `s.includes(sub)`. */
  predicate Contains(s: string, sub: string) {
    IndexOf(s, sub) >= 0
  }

  lemma ContainsIff(s: string, sub: string)
    ensures Contains(s, sub) <==> exists i :: OccursAt(s, sub, i)
  {
  }

  lemma ContainsAt(s: string, sub: string, i: int)
    requires OccursAt(s, sub, i)
    ensures Contains(s, sub)
  {
  }

  lemma ContainsEmpty(s: string)
    ensures Contains(s, "")
  {
    assert OccursAt(s, "", 0);
  }

  /** Text appended after `a` cannot remove an occurrence from it. */
  lemma ContainsAppend(a: string, b: string, sub: string)
    requires Contains(a, sub)
    ensures Contains(a + b, sub)
  {
    var i := IndexOf(a, sub);
    assert (a + b)[i..i + |sub|] == a[i..i + |sub|];
    ContainsAt(a + b, sub, i);
  }

  /** A word holding a character the text lacks does not occur in it. */
  lemma MissingCharNotContained(s: string, sub: string, k: nat)
    requires k < |sub| && sub[k] !in s
    ensures !Contains(s, sub)
  {
  }

  /** `s.startsWith(prefix)`. */
  predicate StartsWith(s: string, prefix: string) {
    |prefix| <= |s| && s[..|prefix|] == prefix
  }

  /** A text does not start with a prefix that differs from it at some position. */
  lemma NotStartsWith(s: string, prefix: string, k: nat)
    requires k < |prefix| && k < |s| && s[k] != prefix[k]
    ensures !StartsWith(s, prefix)
  {
  }

  // ---------------------------------------------------------------------------------------
  // `trim`

  /** `s.trimStart()`: the text without its leading white space. */
  function TrimStart(s: string): (r: string)
    ensures |r| <= |s|
    decreases |s|
  {
    if s != [] && IsSpace(s[0]) then TrimStart(s[1..]) else s
  }

  /** `s.trimEnd()`: the text without its trailing white space. */
  function TrimEnd(s: string): (r: string)
    ensures |r| <= |s|
    decreases |s|
  {
    if s != [] && IsSpace(s[|s| - 1]) then TrimEnd(s[..|s| - 1]) else s
  }

  /** `s.trim()`: the text without its leading and trailing white space. */
  function Trim(s: string): string {
    TrimEnd(TrimStart(s))
  }

  /** `trimStart()` drops a blank prefix and stops at the first character that is not white
      space. */
  lemma {:induction false} TrimStartSpec(s: string)
    ensures var r := TrimStart(s);
      r == s[|s| - |r|..] && (forall k | 0 <= k < |s| - |r| :: IsSpace(s[k]))
      && (r != [] ==> !IsSpace(r[0]))
    decreases |s|
  {
    if s != [] && IsSpace(s[0]) {
      TrimStartSpec(s[1..]);
    }
  }

  /** `trimEnd()` drops a blank suffix and stops at the last character that is not white
      space. */
  lemma {:induction false} TrimEndSpec(s: string)
    ensures var r := TrimEnd(s);
      r == s[..|r|] && (forall k | |r| <= k < |s| :: IsSpace(s[k]))
      && (r != [] ==> !IsSpace(r[|r| - 1]))
    decreases |s|
  {
    if s != [] && IsSpace(s[|s| - 1]) {
      TrimEndSpec(s[..|s| - 1]);
    }
  }

  /** Every character is white space (so `!s.trim()` holds). */
  predicate AllSpace(s: string) {
    forall i | 0 <= i < |s| :: IsSpace(s[i])
  }

  /** `trim()` removes exactly the white space at both ends: the result is a piece of the text
      that neither starts nor ends with white space, and everything around it is white space. */
  lemma TrimSpec(s: string)
    ensures exists a, b | 0 <= a <= b <= |s| ::
      (Trim(s) == s[a..b]
      && (forall k | 0 <= k < a :: IsSpace(s[k])) && (forall k | b <= k < |s| :: IsSpace(s[k])))
    ensures Trim(s) != [] ==> !IsSpace(Trim(s)[0]) && !IsSpace(Trim(s)[|Trim(s)| - 1])
  {
    TrimIsSlice(s);
    TrimEnds(s);
  }

  /** The trimmed text is the piece of the text between a blank prefix and a blank suffix. */
  lemma TrimIsSlice(s: string)
    ensures exists a, b | 0 <= a <= b <= |s| ::
      (Trim(s) == s[a..b]
      && (forall k | 0 <= k < a :: IsSpace(s[k])) && (forall k | b <= k < |s| :: IsSpace(s[k])))
  {
    var t := TrimStart(s);
    var r := TrimEnd(t);
    TrimStartSpec(s);
    TrimEndSpec(t);
    var a := |s| - |t|;
    var b := a + |r|;
    assert r == s[a..b] by {
      assert t == s[a..] && r == t[..|r|];
    }
    assert forall k | b <= k < |s| :: IsSpace(s[k]) by {
      forall k | b <= k < |s| ensures IsSpace(s[k]) {
        assert s[k] == t[k - a];
      }
    }
  }

  /** The trimmed text neither starts nor ends with white space. */
  lemma TrimEnds(s: string)
    ensures Trim(s) != [] ==> !IsSpace(Trim(s)[0]) && !IsSpace(Trim(s)[|Trim(s)| - 1])
  {
    var t := TrimStart(s);
    TrimStartSpec(s);
    TrimEndSpec(t);
    if Trim(s) != [] {
      assert Trim(s)[0] == t[0];
    }
  }

  /** `trim()` yields the empty string exactly for blank text. */
  lemma TrimEmptyIff(s: string)
    ensures Trim(s) == [] <==> AllSpace(s)
  {
    var t := TrimStart(s);
    TrimStartSpec(s);
    TrimEndSpec(t);
  }

  // ---------------------------------------------------------------------------------------
  // `split` on one character and `join`

  /** `s.split(sep)` for a one-character separator: the maximal separator-free pieces, empty
      pieces included (k separators give k + 1 pieces). */
  function Split(s: string, sep: char): (parts: seq<string>)
    ensures |parts| >= 1
    decreases |s|
  {
    if s == [] then [[]]
    else
      var rest := Split(s[1..], sep);
      if s[0] == sep then [[]] + rest else [[s[0]] + rest[0]] + rest[1..]
  }

  /** `parts.join(sep)`. */
  function Join(parts: seq<string>, sep: char): string
    decreases |parts|
  {
    if |parts| == 0 then []
    else if |parts| == 1 then parts[0]
    else parts[0] + [sep] + Join(parts[1..], sep)
  }

  /** `parts.join('')`. */
  function Concat(parts: seq<string>): string
    decreases |parts|
  {
    if |parts| == 0 then [] else parts[0] + Concat(parts[1..])
  }

  /** Number of occurrences of `c` in `s`. */
  function CountChar(s: string, c: char): nat
    decreases |s|
  {
    if s == [] then 0 else (if s[0] == c then 1 else 0) + CountChar(s[1..], c)
  }

  lemma {:induction false} CountCharZero(s: string, c: char)
    ensures CountChar(s, c) == 0 <==> c !in s
    decreases |s|
  {
    if s != [] {
      CountCharZero(s[1..], c);
      assert s == [s[0]] + s[1..];
    }
  }

  /** Joining the pieces with the separator gives the text back. */
  lemma {:induction false} JoinSplit(s: string, sep: char)
    ensures Join(Split(s, sep), sep) == s
    decreases |s|
  {
    if s != [] {
      var rest := Split(s[1..], sep);
      JoinSplit(s[1..], sep);
      if s[0] == sep {
        assert Split(s, sep) == [[]] + rest;
        assert Join([[]] + rest, sep) == [] + [sep] + Join(rest, sep);
      } else {
        var parts := [[s[0]] + rest[0]] + rest[1..];
        assert Split(s, sep) == parts;
        if |rest| == 1 {
          assert Join(parts, sep) == [s[0]] + rest[0];
        } else {
          assert parts[1..] == rest[1..];
          assert Join(rest, sep) == rest[0] + [sep] + Join(rest[1..], sep);
          assert Join(parts, sep) == [s[0]] + rest[0] + [sep] + Join(rest[1..], sep);
        }
      }
    }
  }

  /** No piece contains the separator. */
  lemma {:induction false} SplitPiecesFree(s: string, sep: char)
    ensures forall p | p in Split(s, sep) :: sep !in p
    decreases |s|
  {
    if s != [] {
      SplitPiecesFree(s[1..], sep);
      var rest := Split(s[1..], sep);
      if s[0] != sep {
        assert rest[0] in rest;
        forall p | p in Split(s, sep) ensures sep !in p {
          if p != [s[0]] + rest[0] { assert p in rest[1..]; }
        }
      }
    }
  }

  /** k separators give k + 1 pieces. */
  lemma {:induction false} SplitLength(s: string, sep: char)
    ensures |Split(s, sep)| == CountChar(s, sep) + 1
    decreases |s|
  {
    if s != [] {
      SplitLength(s[1..], sep);
    }
  }

  /** A separator-free text is a single piece. */
  lemma {:induction false} SplitNoSep(s: string, sep: char)
    requires sep !in s
    ensures Split(s, sep) == [s]
    decreases |s|
  {
    if s != [] {
      assert s[0] != sep;
      assert sep !in s[1..];
      SplitNoSep(s[1..], sep);
      assert [s[0]] + s[1..] == s;
    }
  }

  /** A separator between two texts ends the last piece of the first. */
  lemma {:induction false} SplitAppendSep(x: string, sep: char, y: string)
    ensures Split(x + [sep] + y, sep) == Split(x, sep) + Split(y, sep)
    decreases |x|
  {
    if x == [] {
      assert x + [sep] + y == [sep] + y;
      assert ([sep] + y)[1..] == y;
    } else {
      assert (x + [sep] + y)[1..] == x[1..] + [sep] + y;
      SplitAppendSep(x[1..], sep, y);
    }
  }

  /** `s.split(sep).pop()`: the last piece. */
  function LastSegment(s: string, sep: char): string {
    var parts := Split(s, sep);
    parts[|parts| - 1]
  }

  /** The last piece is the text after the last separator, or the whole text when it has no
      separator. */
  lemma {:induction false} LastSegmentSpec(s: string, sep: char)
    ensures var t := LastSegment(s, sep);
      && sep !in t && |t| <= |s| && s[|s| - |t|..] == t
      && (sep in s ==> s[|s| - |t| - 1] == sep)
      && (sep !in s ==> t == s)
    decreases |s|
  {
    var t := LastSegment(s, sep);
    SplitPiecesFree(s, sep);
    if sep !in s {
      SplitNoSep(s, sep);
    } else {
      var rest := Split(s[1..], sep);
      var t' := LastSegment(s[1..], sep);
      LastSegmentSpec(s[1..], sep);
      if s[0] == sep {
        assert Split(s, sep) == [[]] + rest;
        assert t == t';
        if sep in s[1..] {
          assert s[|s| - |t| - 1] == s[1..][|s| - 1 - |t'| - 1];
        } else {
          assert t' == s[1..];
        }
        assert s[|s| - |t|..] == s[1..][|s| - 1 - |t'|..];
      } else {
        assert sep in s[1..];
        SplitLength(s[1..], sep);
        CountCharZero(s[1..], sep);
        assert |rest| > 1;
        assert Split(s, sep) == [[s[0]] + rest[0]] + rest[1..];
        assert t == t';
        assert s[|s| - |t| - 1] == s[1..][|s| - 1 - |t'| - 1];
        assert s[|s| - |t|..] == s[1..][|s| - 1 - |t'|..];
      }
    }
  }

  /** The last piece of `a + sep + b` is `b` when `b` has no separator. */
  lemma LastSegmentOfJoin(a: string, sep: char, b: string)
    requires sep !in b
    ensures LastSegment(a + [sep] + b, sep) == b
  {
    var s := a + [sep] + b;
    var t := LastSegment(s, sep);
    LastSegmentSpec(s, sep);
    assert s[|a|] == sep;
    assert s[|s| - |b|..] == b;
  }

  /** Joining splits off the last piece: `join` read from the back. */
  lemma {:induction false} JoinSnoc(parts: seq<string>, sep: char)
    requires |parts| >= 2
    ensures Join(parts, sep) == Join(parts[..|parts| - 1], sep) + [sep] + parts[|parts| - 1]
    decreases |parts|
  {
    if |parts| > 2 {
      JoinSnoc(parts[1..], sep);
      assert parts[1..][..|parts| - 2] == parts[..|parts| - 1][1..];
    }
  }

  lemma ConcatPair(a: string, b: string)
    ensures Concat([a, b]) == a + b
  {
    assert [a, b][1..] == [b] && [b][1..] == [];
    assert Concat([b]) == b;
  }

  lemma {:induction false} ConcatAppend(a: seq<string>, b: seq<string>)
    ensures Concat(a + b) == Concat(a) + Concat(b)
    decreases |a|
  {
    if a != [] {
      assert (a + b)[1..] == a[1..] + b;
      ConcatAppend(a[1..], b);
    } else {
      assert a + b == b;
    }
  }
}
