/** Order-preserving filtering of sequences, the model of `Array.prototype.filter` and list comprehensions. */
module Seqs {

  /** `xs.filter(p)`: the elements satisfying `p`, in their original order. */
  function Filter<T>(xs: seq<T>, p: T -> bool): (r: seq<T>)
    ensures |r| <= |xs|
    ensures forall x :: x in r ==> x in xs && p(x)
  {
    if xs == [] then [] else (if p(xs[0]) then [xs[0]] else []) + Filter(xs[1..], p)
  }

  /** `sub` is obtained from `xs` by deleting elements, without reordering the rest. */
  predicate IsSubsequence<T(==)>(sub: seq<T>, xs: seq<T>)
    decreases |xs|
  {
    if sub == [] then true
    else if xs == [] then false
    else if sub[0] == xs[0] then IsSubsequence(sub[1..], xs[1..])
    else IsSubsequence(sub, xs[1..])
  }

  lemma {:induction false} FilterMembership<T>(xs: seq<T>, p: T -> bool, x: T)
    ensures x in Filter(xs, p) <==> x in xs && p(x)
  {
    if xs != [] {
      FilterMembership(xs[1..], p, x);
      assert xs == [xs[0]] + xs[1..];
    }
  }

  lemma {:induction false} FilterIsSubsequence<T>(xs: seq<T>, p: T -> bool)
    ensures IsSubsequence(Filter(xs, p), xs)
  {
    if xs != [] {
      FilterIsSubsequence(xs[1..], p);
      var r := Filter(xs, p);
      if p(xs[0]) {
        assert r[0] == xs[0] && r[1..] == Filter(xs[1..], p);
      } else {
        assert r == Filter(xs[1..], p);
        SubsequenceOfTail(r, xs);
      }
    }
  }

  lemma {:induction false} SubsequenceOfTail<T>(sub: seq<T>, xs: seq<T>)
    requires xs != []
    requires IsSubsequence(sub, xs[1..])
    ensures IsSubsequence(sub, xs)
    decreases |xs|, 0
  {
    if sub != [] && sub[0] == xs[0] {
      var t := xs[1..];
      if t != [] {
        if sub[0] == t[0] {
          SubsequenceOfTail(sub[1..], t);
        } else {
          SubsequenceOfTail(sub, t);
          assert IsSubsequence(sub[1..], t) by { DropHead(sub, t); }
        }
      }
    }
  }

  lemma {:induction false} DropHead<T>(sub: seq<T>, xs: seq<T>)
    requires sub != []
    requires IsSubsequence(sub, xs)
    ensures IsSubsequence(sub[1..], xs)
    decreases |xs|, 1
  {
    if xs != [] {
      if sub[0] == xs[0] {
        SubsequenceOfTail(sub[1..], xs);
      } else {
        DropHead(sub, xs[1..]);
        SubsequenceOfTail(sub[1..], xs);
      }
    }
  }

  /** Filtering twice with the same predicate changes nothing the second time. */
  lemma {:induction false} FilterIdempotent<T>(xs: seq<T>, p: T -> bool)
    ensures Filter(Filter(xs, p), p) == Filter(xs, p)
  {
    if xs != [] {
      FilterIdempotent(xs[1..], p);
      var r := Filter(xs, p);
      if p(xs[0]) {
        assert r == [xs[0]] + Filter(xs[1..], p);
        assert r[0] == xs[0] && r[1..] == Filter(xs[1..], p);
        assert Filter(r, p) == [r[0]] + Filter(r[1..], p);
      } else {
        assert r == Filter(xs[1..], p);
      }
    }
  }

  /** A predicate that holds of every element keeps the whole sequence. */
  lemma {:induction false} FilterAll<T>(xs: seq<T>, p: T -> bool)
    requires forall i :: 0 <= i < |xs| ==> p(xs[i])
    ensures Filter(xs, p) == xs
  {
    if xs != [] {
      FilterAll(xs[1..], p);
      assert xs == [xs[0]] + xs[1..];
    }
  }

  /** Filtering by `p` and then by `q` is filtering by their conjunction. */
  lemma {:induction false} FilterFilter<T>(xs: seq<T>, p: T -> bool, q: T -> bool)
    ensures Filter(Filter(xs, p), q) == Filter(xs, x => p(x) && q(x))
  {
    var pq := x => p(x) && q(x);
    if xs != [] {
      FilterFilter(xs[1..], p, q);
      var r := Filter(xs, p);
      assert Filter(xs, pq) == (if pq(xs[0]) then [xs[0]] else []) + Filter(xs[1..], pq);
      if p(xs[0]) {
        assert r == [xs[0]] + Filter(xs[1..], p);
        assert r[0] == xs[0] && r[1..] == Filter(xs[1..], p);
        assert Filter(r, q) == (if q(r[0]) then [r[0]] else []) + Filter(r[1..], q);
      } else {
        assert r == Filter(xs[1..], p);
      }
    }
  }

  lemma {:induction false} SubsequenceTransitive<T>(a: seq<T>, b: seq<T>, c: seq<T>)
    requires IsSubsequence(a, b) && IsSubsequence(b, c)
    ensures IsSubsequence(a, c)
    decreases |c|
  {
    if a != [] && c != [] {
      if b[0] == c[0] {
        if a[0] == b[0] {
          SubsequenceTransitive(a[1..], b[1..], c[1..]);
        } else {
          SubsequenceTransitive(a, b[1..], c[1..]);
          SubsequenceOfTail(a, c);
        }
      } else {
        SubsequenceTransitive(a, b, c[1..]);
        SubsequenceOfTail(a, c);
      }
    }
  }

  /** Every sequence is a subsequence of itself. */
  lemma {:induction false} SelfSubsequence<T>(xs: seq<T>)
    ensures IsSubsequence(xs, xs)
  {
    if xs != [] { SelfSubsequence(xs[1..]); }
  }

  /** A subsequence's elements are elements of the whole. */
  lemma {:induction false} SubsequenceMembers<T>(sub: seq<T>, xs: seq<T>)
    requires IsSubsequence(sub, xs)
    ensures forall x :: x in sub ==> x in xs
    decreases |xs|
  {
    if sub != [] && xs != [] {
      if sub[0] == xs[0] {
        SubsequenceMembers(sub[1..], xs[1..]);
        assert sub == [sub[0]] + sub[1..];
      } else {
        SubsequenceMembers(sub, xs[1..]);
      }
    }
  }

  /** Appending to both sides keeps a subsequence when the appended parts are related. */
  lemma {:induction false} SubsequenceAppend<T>(a: seq<T>, b: seq<T>, c: seq<T>, d: seq<T>)
    requires IsSubsequence(a, b) && IsSubsequence(c, d)
    ensures IsSubsequence(a + c, b + d)
    decreases |b|
  {
    if a == [] {
      assert a + c == c;
      SubsequenceOfPrefix(c, d, b);
    } else {
      assert b != [];
      assert (b + d)[0] == b[0] && (b + d)[1..] == b[1..] + d;
      if b[0] == a[0] {
        assert (a + c)[0] == a[0] && (a + c)[1..] == a[1..] + c;
        SubsequenceAppend(a[1..], b[1..], c, d);
      } else {
        SubsequenceAppend(a, b[1..], c, d);
      }
    }
  }

  lemma {:induction false} SubsequenceOfPrefix<T>(c: seq<T>, d: seq<T>, b: seq<T>)
    requires IsSubsequence(c, d)
    ensures IsSubsequence(c, b + d)
    decreases |b|
  {
    if b == [] {
      assert b + d == d;
    } else {
      assert (b + d)[1..] == b[1..] + d;
      SubsequenceOfPrefix(c, d, b[1..]);
      SubsequenceOfTail(c, b + d);
    }
  }

  /** `lt` holds between every element of `s` and each later one. */
  ghost predicate Pairwise<T>(s: seq<T>, lt: (T, T) -> bool) {
    forall i, j :: 0 <= i < j < |s| ==> lt(s[i], s[j])
  }

  /** Filtering keeps any relation that holds between every element and each later one. */
  lemma {:induction false} FilterPairwise<T>(xs: seq<T>, p: T -> bool, lt: (T, T) -> bool)
    requires Pairwise(xs, lt)
    ensures Pairwise(Filter(xs, p), lt)
  {
    if xs != [] {
      var tail := xs[1..];
      assert Pairwise(tail, lt) by {
        assert forall i :: 0 <= i < |tail| ==> tail[i] == xs[i + 1];
      }
      FilterPairwise(tail, p, lt);
      var rest := Filter(tail, p);
      var r := Filter(xs, p);
      if p(xs[0]) {
        assert r == [xs[0]] + rest;
        forall i, j | 0 <= i < j < |r| ensures lt(r[i], r[j]) {
          assert r[j] == rest[j - 1];
          if i == 0 {
            FilterMembership(tail, p, r[j]);
            var k :| 0 <= k < |tail| && tail[k] == r[j];
            assert xs[k + 1] == r[j] && xs[0] == r[0];
          } else {
            assert r[i] == rest[i - 1];
          }
        }
      } else {
        assert r == rest;
      }
    }
  }

  /**
   * Concatenation regroups; stated once so that a loop over a growing prefix can use it without
   * proving sequence extensionality in its own, larger context.
   */
  lemma AppendAssoc<T>(a: seq<T>, b: seq<T>, c: seq<T>)
    ensures a + (b + c) == (a + b) + c
  {
  }

  /** `reversed(s)`. */
  function Reverse<T>(s: seq<T>): (r: seq<T>)
    ensures |r| == |s| && forall i :: 0 <= i < |s| ==> r[i] == s[|s| - 1 - i]
  {
    if s == [] then [] else Reverse(s[1..]) + [s[0]]
  }

  lemma ReverseMembers<T>(s: seq<T>)
    ensures forall x :: x in Reverse(s) <==> x in s
  {
    var r := Reverse(s);
    forall x ensures x in r <==> x in s {
      if x in r { var i :| 0 <= i < |r| && r[i] == x; assert s[|s| - 1 - i] == x; }
      if x in s { var i :| 0 <= i < |s| && s[i] == x; assert r[|s| - 1 - i] == x; }
    }
  }
}
