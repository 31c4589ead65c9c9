/** Sequence helpers shared by the list views and the services: the `filter`
    of JavaScript arrays and Java streams, subsequences, duplicate freedom,
    `List.remove(Object)` and the first-appearance de-duplication of a `Set`. */
module Seqs {

  /** `items.filter(p)`: the items satisfying `p`, in their original order. */
  function Filter<T>(s: seq<T>, p: T -> bool): (r: seq<T>)
    ensures |r| <= |s|
    ensures forall i :: 0 <= i < |r| ==> r[i] in s && p(r[i])
    ensures forall i :: 0 <= i < |s| && p(s[i]) ==> s[i] in r
  {
    if s == [] then [] else (if p(s[0]) then [s[0]] else []) + Filter(s[1..], p)
  }

  /** `a` is obtained from `b` by deleting elements: same order, nothing added. */
  predicate IsSubsequence<T(==)>(a: seq<T>, b: seq<T>)
    decreases |b|
  {
    a == [] || (b != [] && ((a[0] == b[0] && IsSubsequence(a[1..], b[1..])) || IsSubsequence(a, b[1..])))
  }

  predicate NoDuplicates<T(==)>(s: seq<T>) {
    forall i, j :: 0 <= i < j < |s| ==> s[i] != s[j]
  }

  lemma {:induction false} FilterIsSubsequence<T>(s: seq<T>, p: T -> bool)
    ensures IsSubsequence(Filter(s, p), s)
  {
    if s != [] {
      FilterIsSubsequence(s[1..], p);
      if p(s[0]) {
        assert Filter(s, p) == [s[0]] + Filter(s[1..], p);
        assert Filter(s, p)[1..] == Filter(s[1..], p);
      } else {
        assert Filter(s, p) == Filter(s[1..], p);
      }
    }
  }

  lemma {:induction false} FilterAppend<T>(a: seq<T>, b: seq<T>, p: T -> bool)
    ensures Filter(a + b, p) == Filter(a, p) + Filter(b, p)
  {
    if a == [] {
      assert a + b == b;
    } else {
      assert (a + b)[1..] == a[1..] + b;
      FilterAppend(a[1..], b, p);
    }
  }

  /** A predicate that holds everywhere filters nothing away. */
  lemma {:induction false} FilterKeepsAll<T>(s: seq<T>, p: T -> bool)
    requires forall i :: 0 <= i < |s| ==> p(s[i])
    ensures Filter(s, p) == s
  {
    if s != [] {
      FilterKeepsAll(s[1..], p);
    }
  }

  lemma HeadTail<T>(x: T, rest: seq<T>, s: seq<T>)
    requires |s| >= 1 && x == s[0] && rest == s[1..]
    ensures [x] + rest == s
  {
  }

  /** A predicate that holds nowhere filters everything away. */
  lemma {:induction false} FilterKeepsNone<T>(s: seq<T>, p: T -> bool)
    requires forall i :: 0 <= i < |s| ==> !p(s[i])
    ensures Filter(s, p) == []
  {
    if s != [] {
      FilterKeepsNone(s[1..], p);
    }
  }

  /** Two predicates that agree on the elements give the same filter. */
  lemma {:induction false} FilterSame<T>(s: seq<T>, p: T -> bool, q: T -> bool)
    requires forall i :: 0 <= i < |s| ==> p(s[i]) == q(s[i])
    ensures Filter(s, p) == Filter(s, q)
  {
    if s != [] {
      FilterSame(s[1..], p, q);
    }
  }

  /** Two successive passes are one pass with the conjunction. */
  lemma {:induction false} FilterThen<T>(s: seq<T>, p: T -> bool, q: T -> bool, pq: T -> bool)
    requires forall i :: 0 <= i < |s| ==> pq(s[i]) == (p(s[i]) && q(s[i]))
    ensures Filter(Filter(s, p), q) == Filter(s, pq)
  {
    if s != [] {
      FilterThen(s[1..], p, q, pq);
      assert pq(s[0]) == (p(s[0]) && q(s[0]));
      assert Filter(s, pq) == (if pq(s[0]) then [s[0]] else []) + Filter(s[1..], pq);
      if !p(s[0]) {
        assert Filter(s, p) == Filter(s[1..], p);
      } else {
        assert Filter(s, p) == [s[0]] + Filter(s[1..], p);
        assert Filter(Filter(s, p), q) == (if q(s[0]) then [s[0]] else []) + Filter(Filter(s[1..], p), q) by {
          assert Filter(s, p)[1..] == Filter(s[1..], p);
        }
      }
    }
  }

  /** Weakening the predicate never shrinks the result (monotonicity). */
  lemma {:induction false} FilterMonotone<T>(s: seq<T>, p: T -> bool, q: T -> bool)
    requires forall i :: 0 <= i < |s| ==> p(s[i]) ==> q(s[i])
    ensures IsSubsequence(Filter(s, p), Filter(s, q))
  {
    if s != [] {
      FilterMonotone(s[1..], p, q);
      var fp, fq := Filter(s[1..], p), Filter(s[1..], q);
      if p(s[0]) {
        assert Filter(s, p) == [s[0]] + fp && Filter(s, q) == [s[0]] + fq;
        assert ([s[0]] + fp)[1..] == fp && ([s[0]] + fq)[1..] == fq;
      } else if q(s[0]) {
        assert Filter(s, q) == [s[0]] + fq;
        assert Filter(s, p) == fp;
        SubsequenceOfTail(fp, fq, s[0]);
      } else {
        assert Filter(s, p) == fp && Filter(s, q) == fq;
      }
    }
  }

  lemma {:induction false} SubsequenceReflexive<T>(a: seq<T>)
    ensures IsSubsequence(a, a)
  {
    if a != [] {
      SubsequenceReflexive(a[1..]);
    }
  }

  lemma {:induction false} SubsequenceTransitive<T>(a: seq<T>, b: seq<T>, c: seq<T>)
    requires IsSubsequence(a, b) && IsSubsequence(b, c)
    ensures IsSubsequence(a, c)
    decreases |c|
  {
    if a != [] {
      if b[0] == c[0] && IsSubsequence(b[1..], c[1..]) {
        if a[0] == b[0] && IsSubsequence(a[1..], b[1..]) {
          SubsequenceTransitive(a[1..], b[1..], c[1..]);
        } else {
          SubsequenceTransitive(a, b[1..], c[1..]);
        }
      } else {
        SubsequenceTransitive(a, b, c[1..]);
      }
    }
  }

  lemma {:induction false} SubsequenceOfTail<T>(a: seq<T>, b: seq<T>, x: T)
    requires IsSubsequence(a, b)
    ensures IsSubsequence(a, [x] + b)
  {
    assert ([x] + b)[1..] == b;
  }

  /** Predicates that no element satisfies together split a sequence into
      two parts whose lengths add up to at most the whole, and to exactly the
      whole when every element satisfies one of them. */
  lemma {:induction false} FilterDisjointLength<T>(s: seq<T>, p: T -> bool, q: T -> bool)
    requires forall i :: 0 <= i < |s| ==> !(p(s[i]) && q(s[i]))
    ensures |Filter(s, p)| + |Filter(s, q)| <= |s|
    ensures (forall i :: 0 <= i < |s| ==> p(s[i]) || q(s[i])) ==> |Filter(s, p)| + |Filter(s, q)| == |s|
  {
    if s != [] {
      FilterDisjointLength(s[1..], p, q);
    }
  }

  /** Filtering visits the sequence front to back: `items.filter(p)` as a loop. */
  method Keep<T>(s: seq<T>, p: T -> bool) returns (r: seq<T>)
    ensures r == Filter(s, p)
  {
    r := [];
    var i := 0;
    while i < |s|
      invariant 0 <= i <= |s|
      invariant r == Filter(s[..i], p)
    {
      FilterAppend(s[..i], [s[i]], p);
      assert s[..i + 1] == s[..i] + [s[i]];
      if p(s[i]) {
        r := r + [s[i]];
      }
      i := i + 1;
    }
    assert s[..i] == s;
  }

  /** Java's `List.remove(Object)`: deletes the first occurrence only. */
  function RemoveFirst<T(==)>(s: seq<T>, x: T): (r: seq<T>)
    ensures x in s ==> |r| == |s| - 1
    ensures x !in s ==> r == s
    ensures forall y :: y in r ==> y in s
  {
    if s == [] then []
    else if s[0] == x then s[1..]
    else [s[0]] + RemoveFirst(s[1..], x)
  }

  /** Appending an absent element and removing it restores the sequence. */
  lemma {:induction false} RemoveFirstAfterAppend<T>(s: seq<T>, x: T)
    requires x !in s
    ensures RemoveFirst(s + [x], x) == s
  {
    if s != [] {
      assert (s + [x])[1..] == s[1..] + [x];
      RemoveFirstAfterAppend(s[1..], x);
    }
  }

  /** In a duplicate-free sequence, removing the first occurrence removes the element. */
  lemma {:induction false} RemoveFirstNoDuplicates<T>(s: seq<T>, x: T)
    requires NoDuplicates(s)
    ensures NoDuplicates(RemoveFirst(s, x))
    ensures forall y :: y in RemoveFirst(s, x) <==> y in s && y != x
  {
    if s != [] && s[0] != x {
      assert NoDuplicates(s[1..]) by {
        forall i, j | 0 <= i < j < |s| - 1 ensures s[1..][i] != s[1..][j] {
          assert s[i + 1] != s[j + 1];
        }
      }
      RemoveFirstNoDuplicates(s[1..], x);
      var r := RemoveFirst(s[1..], x);
      assert s[0] !in s[1..] by {
        forall k | 0 <= k < |s[1..]| ensures s[1..][k] != s[0] {
          assert s[k + 1] != s[0];
        }
      }
      forall i, j | 0 <= i < j < |[s[0]] + r| ensures ([s[0]] + r)[i] != ([s[0]] + r)[j] {
        if i > 0 {
          assert ([s[0]] + r)[i] == r[i - 1] && ([s[0]] + r)[j] == r[j - 1];
        } else {
          assert ([s[0]] + r)[j] in r;
        }
      }
    } else if s != [] {
      assert x !in s[1..] by {
        forall k | 0 <= k < |s[1..]| ensures s[1..][k] != x {
          assert s[k + 1] != s[0];
        }
      }
      forall i, j | 0 <= i < j < |s[1..]| ensures s[1..][i] != s[1..][j] {
        assert s[i + 1] != s[j + 1];
      }
    }
  }

  lemma NoDuplicatesTail<T>(s: seq<T>)
    requires NoDuplicates(s) && s != []
    ensures NoDuplicates(s[1..]) && s[0] !in s[1..]
  {
    forall k | 0 <= k < |s[1..]| ensures s[1..][k] != s[0] {
      assert s[k + 1] != s[0];
    }
    forall i, j | 0 <= i < j < |s[1..]| ensures s[1..][i] != s[1..][j] {
      assert s[i + 1] != s[j + 1];
    }
  }

  /** Appending an absent element keeps a sequence duplicate-free. */
  lemma AppendNoDuplicates<T>(s: seq<T>, x: T)
    requires NoDuplicates(s) && x !in s
    ensures NoDuplicates(s + [x])
  {
    forall i, j | 0 <= i < j < |s + [x]| ensures (s + [x])[i] != (s + [x])[j] {
      if j == |s| {
        assert (s + [x])[i] == s[i];
      } else {
        assert (s + [x])[i] == s[i] && (s + [x])[j] == s[j];
      }
    }
  }

  /** Position of the first occurrence of `x`. */
  function FirstIndex<T(==)>(s: seq<T>, x: T): (i: nat)
    requires x in s
    ensures i < |s| && s[i] == x
  {
    if s[0] == x then 0 else 1 + FirstIndex(s[1..], x)
  }

  /** No earlier position holds `x`. */
  lemma {:induction false} FirstIndexIsFirst<T>(s: seq<T>, x: T)
    requires x in s
    ensures x !in s[..FirstIndex(s, x)]
  {
    if s[0] != x {
      FirstIndexIsFirst(s[1..], x);
      assert s[..FirstIndex(s, x)] == [s[0]] + s[1..][..FirstIndex(s[1..], x)];
    }
  }

  /** `[...new Set(s)]` when the set already holds `seen`: each element that
      is not yet in the set is kept, at its first appearance. */
  function DistinctFrom<T(==,!new)>(s: seq<T>, seen: set<T>): (r: seq<T>)
    ensures forall x :: x in r <==> x in s && x !in seen
    ensures NoDuplicates(r)
  {
    if s == [] then []
    else if s[0] in seen then DistinctFrom(s[1..], seen)
    else
      var rest := DistinctFrom(s[1..], seen + {s[0]});
      assert NoDuplicates([s[0]] + rest) by {
        forall i, j | 0 <= i < j < |[s[0]] + rest| ensures ([s[0]] + rest)[i] != ([s[0]] + rest)[j] {
          if i > 0 {
            assert ([s[0]] + rest)[i] == rest[i - 1] && ([s[0]] + rest)[j] == rest[j - 1];
          } else {
            assert ([s[0]] + rest)[j] in rest;
          }
        }
      }
      [s[0]] + rest
  }

  /** `[...new Set(s)]`: the distinct elements in first-appearance order. */
  function Distinct<T(==,!new)>(s: seq<T>): (r: seq<T>)
  {
    DistinctFrom(s, {})
  }

  lemma {:induction false} DistinctFromIsSubsequence<T(!new)>(s: seq<T>, seen: set<T>)
    ensures IsSubsequence(DistinctFrom(s, seen), s)
  {
    if s != [] {
      if s[0] in seen {
        DistinctFromIsSubsequence(s[1..], seen);
        SubsequenceOfTail(DistinctFrom(s[1..], seen), s[1..], s[0]);
        assert [s[0]] + s[1..] == s;
      } else {
        DistinctFromIsSubsequence(s[1..], seen + {s[0]});
        var rest := DistinctFrom(s[1..], seen + {s[0]});
        assert ([s[0]] + rest)[1..] == rest;
      }
    }
  }

  /** Two elements other than the head keep the order of their first
      occurrences in the tail. */
  lemma FirstIndexShift<T>(s: seq<T>, a: T, b: T)
    requires s != [] && a in s[1..] && b in s[1..] && a != s[0] && b != s[0]
    requires FirstIndex(s[1..], a) < FirstIndex(s[1..], b)
    ensures FirstIndex(s, a) < FirstIndex(s, b)
  {
  }

  /** The head comes first. */
  lemma FirstIndexHead<T>(s: seq<T>, b: T)
    requires s != [] && b in s[1..] && b != s[0]
    ensures FirstIndex(s, s[0]) < FirstIndex(s, b)
  {
  }

  /** The elements kept appear in the order of their first occurrences. */
  lemma {:induction false} DistinctFromFirstAppearance<T(!new)>(s: seq<T>, seen: set<T>, i: nat, j: nat)
    requires i < j < |DistinctFrom(s, seen)|
    ensures FirstIndex(s, DistinctFrom(s, seen)[i]) < FirstIndex(s, DistinctFrom(s, seen)[j])
    decreases |s|, 1
  {
    if s[0] in seen {
      SkippedHeadOrder(s, seen, i, j);
    } else if i > 0 {
      KeptHeadOrder(s, seen, i, j);
    } else {
      var r := DistinctFrom(s, seen);
      assert r == [s[0]] + DistinctFrom(s[1..], seen + {s[0]});
      assert r[j] in s[1..] && r[j] != s[0];
      FirstIndexHead(s, r[j]);
    }
  }

  /** The step of the induction when the head was already seen. */
  lemma {:induction false} SkippedHeadOrder<T(!new)>(s: seq<T>, seen: set<T>, i: nat, j: nat)
    requires i < j < |DistinctFrom(s, seen)| && s[0] in seen
    ensures FirstIndex(s, DistinctFrom(s, seen)[i]) < FirstIndex(s, DistinctFrom(s, seen)[j])
    decreases |s|, 0
  {
    var r := DistinctFrom(s, seen);
    var r' := DistinctFrom(s[1..], seen);
    assert r == r';
    assert r[i] in r' && r[j] in r';
    DistinctFromFirstAppearance(s[1..], seen, i, j);
    FirstIndexShift(s, r[i], r[j]);
  }

  /** When the head is kept, the rest of the result is the result on the
      tail with the head seen. */
  lemma KeptHeadAt<T(!new)>(s: seq<T>, seen: set<T>, k: nat)
    requires s != [] && s[0] !in seen && 0 < k < |DistinctFrom(s, seen)|
    ensures DistinctFrom(s, seen)[k] == DistinctFrom(s[1..], seen + {s[0]})[k - 1]
    ensures DistinctFrom(s, seen)[k] in s[1..] && DistinctFrom(s, seen)[k] != s[0]
    ensures |DistinctFrom(s, seen)| == 1 + |DistinctFrom(s[1..], seen + {s[0]})|
  {
    var r' := DistinctFrom(s[1..], seen + {s[0]});
    assert DistinctFrom(s, seen) == [s[0]] + r';
    assert r'[k - 1] in r';
  }

  /** The step of the induction when the head is kept and neither element
      compared is the head. */
  lemma {:induction false} KeptHeadOrder<T(!new)>(s: seq<T>, seen: set<T>, i: nat, j: nat)
    requires 0 < i < j < |DistinctFrom(s, seen)| && s[0] !in seen
    ensures FirstIndex(s, DistinctFrom(s, seen)[i]) < FirstIndex(s, DistinctFrom(s, seen)[j])
    decreases |s|, 0
  {
    var tail, seen' := s[1..], seen + {s[0]};
    KeptHeadAt(s, seen, i);
    KeptHeadAt(s, seen, j);
    var a, b := DistinctFrom(tail, seen')[i - 1], DistinctFrom(tail, seen')[j - 1];
    DistinctFromFirstAppearance(tail, seen', i - 1, j - 1);
    assert a in DistinctFrom(tail, seen') && b in DistinctFrom(tail, seen');
    FirstIndexShift(s, a, b);
  }
}
