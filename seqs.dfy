/**
  List operations of JavaScript's `Array` as the application uses them: `filter`, spread of a
  `Set` (distinct elements in first-appearance order) and counting.
*/
module Seqs {

  /** `s.filter(p)`. */
  function Filter<T(==)>(s: seq<T>, p: T -> bool): (r: seq<T>)
    ensures |r| <= |s|
    ensures forall i | 0 <= i < |r| :: r[i] in s && p(r[i])
    ensures forall i | 0 <= i < |s| && p(s[i]) :: s[i] in r
    decreases |s|
  {
    if s == [] then [] else (if p(s[0]) then [s[0]] else []) + Filter(s[1..], p)
  }

  /** `a` is `b` with some elements dropped and the rest kept in order. */
  predicate IsSubseq<T(==)>(a: seq<T>, b: seq<T>)
    decreases |b|
  {
    if b == [] then a == []
    else IsSubseq(a, b[1..]) || (a != [] && a[0] == b[0] && IsSubseq(a[1..], b[1..]))
  }

  lemma {:induction false} SubseqRefl<T>(s: seq<T>)
    ensures IsSubseq(s, s)
    decreases |s|
  {
    if s != [] {
      SubseqRefl(s[1..]);
    }
  }

  /** Filtering keeps the survivors in their original order. */
  lemma {:induction false} FilterIsSubseq<T>(s: seq<T>, p: T -> bool)
    ensures IsSubseq(Filter(s, p), s)
    decreases |s|
  {
    if s != [] {
      FilterIsSubseq(s[1..], p);
      var r := Filter(s, p);
      if p(s[0]) {
        assert r[0] == s[0] && r[1..] == Filter(s[1..], p);
      } else {
        assert r == Filter(s[1..], p);
      }
    }
  }

  /** Filtering distributes over concatenation, so survivors keep their relative order. */
  lemma {:induction false} FilterAppend<T>(a: seq<T>, b: seq<T>, p: T -> bool)
    ensures Filter(a + b, p) == Filter(a, p) + Filter(b, p)
    decreases |a|
  {
    if a != [] {
      assert (a + b)[1..] == a[1..] + b;
      FilterAppend(a[1..], b, p);
    } else {
      assert a + b == b;
    }
  }

  /** Filtering twice is filtering once by both tests. */
  lemma {:induction false} FilterFilter<T>(s: seq<T>, p: T -> bool, q: T -> bool, both: T -> bool)
    requires forall x :: both(x) == (p(x) && q(x))
    ensures Filter(Filter(s, p), q) == Filter(s, both)
    decreases |s|
  {
    if s != [] {
      FilterFilter(s[1..], p, q, both);
      if p(s[0]) {
        var fp := Filter(s, p);
        assert fp[0] == s[0] && fp[1..] == Filter(s[1..], p);
        assert Filter(fp, q) == (if q(s[0]) then [s[0]] else []) + Filter(fp[1..], q);
        assert both(s[0]) == q(s[0]);
      } else {
        assert both(s[0]) == false;
        assert Filter(s, p) == Filter(s[1..], p);
        assert Filter(s, both) == Filter(s[1..], both);
      }
    }
  }

  /** Filtering by a predicate everything meets changes nothing. */
  lemma {:induction false} FilterAll<T>(s: seq<T>, p: T -> bool)
    requires forall i | 0 <= i < |s| :: p(s[i])
    ensures Filter(s, p) == s
    decreases |s|
  {
    if s != [] {
      FilterAll(s[1..], p);
    }
  }

  /** Filtering by a predicate nothing meets leaves nothing. */
  lemma {:induction false} FilterNone<T>(s: seq<T>, p: T -> bool)
    requires forall i | 0 <= i < |s| :: !p(s[i])
    ensures Filter(s, p) == []
    decreases |s|
  {
    if s != [] {
      FilterNone(s[1..], p);
    }
  }

  /** Filters that agree on the elements give the same result. */
  lemma {:induction false} FilterExt<T>(s: seq<T>, p: T -> bool, q: T -> bool)
    requires forall i | 0 <= i < |s| :: p(s[i]) == q(s[i])
    ensures Filter(s, p) == Filter(s, q)
    decreases |s|
  {
    if s != [] {
      FilterExt(s[1..], p, q);
    }
  }

  /** The elements in the opposite order. */
  function Reverse<T>(s: seq<T>): (r: seq<T>)
    ensures |r| == |s|
  {
    seq(|s|, i requires 0 <= i < |s| => s[|s| - 1 - i])
  }

  lemma ReverseAppend<T>(a: seq<T>, b: seq<T>)
    ensures Reverse(a + b) == Reverse(b) + Reverse(a)
  {
  }

  /** Filtering commutes with reversal: the survivors of the reversed list are the reversed
      survivors. */
  lemma {:induction false} FilterReverse<T>(s: seq<T>, p: T -> bool)
    ensures Filter(Reverse(s), p) == Reverse(Filter(s, p))
    decreases |s|
  {
    if s != [] {
      var x, rest := s[0], s[1..];
      assert s == [x] + rest;
      var fx := Filter([x], p);
      assert Reverse(fx) == fx by {
        assert fx == [] || fx == [x];
      }
      calc {
        Filter(Reverse(s), p);
        == { ReverseAppend([x], rest); assert Reverse([x]) == [x]; }
        Filter(Reverse(rest) + [x], p);
        == { FilterAppend(Reverse(rest), [x], p); }
        Filter(Reverse(rest), p) + fx;
        == { FilterReverse(rest, p); }
        Reverse(Filter(rest, p)) + Reverse(fx);
        == { ReverseAppend(fx, Filter(rest, p)); }
        Reverse(fx + Filter(rest, p));
        == { FilterAppend([x], rest, p); }
        Reverse(Filter(s, p));
      }
    }
  }

  /** The pieces `f` gives for the elements, element after element (`flatMap`). */
  function FlatMap<T, U>(s: seq<T>, f: T -> seq<U>): seq<U>
    decreases |s|
  {
    if s == [] then [] else FlatMap(s[..|s| - 1], f) + f(s[|s| - 1])
  }

  /** The pieces of a split list are those of its first part followed by those of its
      second. */
  lemma {:induction false} FlatMapAppend<T, U>(a: seq<T>, b: seq<T>, f: T -> seq<U>)
    ensures FlatMap(a + b, f) == FlatMap(a, f) + FlatMap(b, f)
    decreases |b|
  {
    if b == [] {
      assert a + b == a;
    } else {
      var init := b[..|b| - 1];
      assert (a + b)[..|a + b| - 1] == a + init && (a + b)[|a + b| - 1] == b[|b| - 1];
      FlatMapAppend(a, init, f);
    }
  }

  /** `s.slice(0, n)` / `take: n`: the first `n` elements, or all when there are fewer. */
  function Take<T>(s: seq<T>, n: nat): (r: seq<T>)
    ensures |r| == if n < |s| then n else |s|
    ensures r == s[..|r|]
  {
    if n < |s| then s[..n] else s
  }

  /** How many elements meet `p`. */
  function Count<T(==)>(s: seq<T>, p: T -> bool): nat {
    |Filter(s, p)|
  }

  /** Position of the first occurrence of `x`. */
  function FirstIndex<T(==)>(s: seq<T>, x: T): (i: nat)
    requires x in s
    ensures i < |s| && s[i] == x && x !in s[..i]
    decreases |s|
  {
    if s[0] == x then 0 else 1 + FirstIndex(s[1..], x)
  }

  /** `[...new Set(s)]`: each element once, in the order of its first appearance. */
  function Distinct<T(==)>(s: seq<T>): (r: seq<T>)
    ensures forall i | 0 <= i < |r| :: r[i] in s
    ensures forall i | 0 <= i < |s| :: s[i] in r
    ensures forall i, j | 0 <= i < j < |r| :: r[i] != r[j]
    decreases |s|
  {
    if s == [] then []
    else
      var d := Distinct(s[..|s| - 1]);
      if s[|s| - 1] in d then d else d + [s[|s| - 1]]
  }

  /** Earlier elements of `Distinct(s)` appear earlier in `s`. */
  lemma {:induction false} DistinctFirstAppearance<T>(s: seq<T>, i: nat, j: nat)
    requires i < j < |Distinct(s)|
    ensures FirstIndex(s, Distinct(s)[i]) < FirstIndex(s, Distinct(s)[j])
    decreases |s|
  {
    var init := s[..|s| - 1];
    var d := Distinct(init);
    var r := Distinct(s);
    assert r[i] in s && r[j] in s;
    FirstIndexPrefix(s, init, r[i]);
    if j < |d| {
      assert r[i] == d[i] && r[j] == d[j];
      DistinctFirstAppearance(init, i, j);
      FirstIndexPrefix(s, init, r[j]);
    } else {
      // r[j] is the last element of s, appearing in s only there
      assert r[j] == s[|s| - 1] && r[j] !in init;
      assert r[i] == d[i] && r[i] in init;
      assert forall k | 0 <= k < |s| - 1 :: s[k] == init[k];
    }
  }

  /** The first occurrence of an element of a prefix lies in that prefix. */
  lemma {:induction false} FirstIndexPrefix<T>(s: seq<T>, pre: seq<T>, x: T)
    requires |pre| <= |s| && pre == s[..|pre|] && x in pre
    ensures x in s && FirstIndex(s, x) == FirstIndex(pre, x)
    decreases |pre|
  {
    assert pre[0] == s[0];
    if s[0] != x {
      assert pre == [pre[0]] + pre[1..];
      assert pre[1..] == s[1..][..|pre| - 1];
      FirstIndexPrefix(s[1..], pre[1..], x);
    }
  }
}
