/** Sequence operations behind `Array.prototype.filter`, `flatMap` and
    `[...new Set(xs)]`, with the facts the directory relies on. */
module Seqs {

  /** How many times `x` occurs in `s`. */
  function Count<T(==)>(s: seq<T>, x: T): nat {
    multiset(s)[x]
  }

  /** `s.filter(p)`: the elements satisfying `p`, in their original order. */
  function Filter<T>(s: seq<T>, p: T -> bool): (r: seq<T>)
    ensures |r| <= |s|
    ensures forall i :: 0 <= i < |r| ==> r[i] in s && p(r[i])
    ensures forall i :: 0 <= i < |s| && p(s[i]) ==> s[i] in r
    ensures forall i {:trigger Count(r, s[i])} :: 0 <= i < |s| ==>
      Count(r, s[i]) == if p(s[i]) then Count(s, s[i]) else 0
    decreases |s|
  {
    if |s| == 0 then []
    else
      var rest := Filter(s[1..], p);
      var r := if p(s[0]) then [s[0]] + rest else rest;
      assert forall i :: 0 <= i < |s| ==>
        Count(r, s[i]) == if p(s[i]) then Count(s, s[i]) else 0
      by {
        forall i | 0 <= i < |s|
          ensures Count(r, s[i]) == if p(s[i]) then Count(s, s[i]) else 0
        {
          FilterCountStep(s, p, rest, r, s[i]);
        }
      }
      r
  }

  /** Filtering a sequence with a known head. */
  lemma FilterCons<T>(a: T, t: seq<T>, p: T -> bool)
    ensures Filter([a] + t, p) == (if p(a) then [a] else []) + Filter(t, p)
  {
    assert ([a] + t)[1..] == t;
  }

  /** A block `own` that the filter puts before the tail's survivors stays
      put when a head it excludes, or a head that survives while `own` is
      empty, is added to both sides. */
  lemma FilterPastHead<T>(y: T, rest: seq<T>, longer: seq<T>, own: seq<T>, p: T -> bool)
    requires Filter(longer, p) == own + Filter(rest, p)
    requires !p(y) || own == []
    ensures Filter([y] + longer, p) == own + Filter([y] + rest, p)
  {
    FilterCons(y, longer, p);
    FilterCons(y, rest, p);
    if p(y) {
      assert own + Filter(rest, p) == Filter(rest, p);
    }
  }

  /** One step of `Filter`'s count: how often `x` is kept from `s`, given
      how often each element is kept from its tail. */
  lemma FilterCountStep<T>(s: seq<T>, p: T -> bool, rest: seq<T>, r: seq<T>, x: T)
    requires |s| > 0
    requires forall i :: 0 <= i < |rest| ==> rest[i] in s[1..]
    requires forall i :: 0 <= i < |s| - 1 ==>
      Count(rest, s[1..][i]) == if p(s[1..][i]) then Count(s[1..], s[1..][i]) else 0
    requires r == if p(s[0]) then [s[0]] + rest else rest
    requires x in s
    ensures Count(r, x) == if p(x) then Count(s, x) else 0
  {
    assert s == [s[0]] + s[1..];
    if x in s[1..] {
      var m :| 0 <= m < |s[1..]| && s[1..][m] == x;
    } else {
      assert x !in rest;
    }
  }

  /** `a` can be obtained from `b` by deleting elements. */
  ghost predicate IsSubsequence<T>(a: seq<T>, b: seq<T>)
    decreases |b|
  {
    if |a| == 0 then true
    else if |b| == 0 then false
    else if a[0] == b[0] then IsSubsequence(a[1..], b[1..])
    else IsSubsequence(a, b[1..])
  }

  /** Filtering only deletes elements: it never reorders or duplicates them. */
  lemma {:induction false} FilterIsSubsequence<T>(s: seq<T>, p: T -> bool)
    ensures IsSubsequence(Filter(s, p), s)
    decreases |s|
  {
    if |s| > 0 {
      FilterIsSubsequence(s[1..], p);
      var r := Filter(s, p);
      if p(s[0]) {
        assert r[1..] == Filter(s[1..], p);
      } else if |r| > 0 {
        SubsequenceOfTail(r, s);
      }
    }
  }

  /** A subsequence of the tail is a subsequence of the whole. */
  lemma {:induction false} SubsequenceOfTail<T>(a: seq<T>, b: seq<T>)
    requires |b| > 0 && IsSubsequence(a, b[1..])
    ensures IsSubsequence(a, b)
    decreases |b|, 0
  {
    if |a| > 0 && a[0] == b[0] {
      SubsequenceDropHead(a, b[1..]);
    }
  }

  /** Dropping the head of a subsequence keeps it a subsequence. */
  lemma {:induction false} SubsequenceDropHead<T>(a: seq<T>, b: seq<T>)
    requires |a| > 0 && IsSubsequence(a, b)
    ensures IsSubsequence(a[1..], b)
    decreases |b|, 1
  {
    if a[0] == b[0] {
      SubsequenceOfTail(a[1..], b);
    } else {
      SubsequenceDropHead(a, b[1..]);
      SubsequenceOfTail(a[1..], b);
    }
  }

  /** A predicate that holds of every element keeps the whole sequence. */
  lemma {:induction false} FilterKeepsAll<T>(s: seq<T>, p: T -> bool)
    requires forall i :: 0 <= i < |s| ==> p(s[i])
    ensures Filter(s, p) == s
    decreases |s|
  {
    if |s| > 0 {
      FilterKeepsAll(s[1..], p);
      assert s == [s[0]] + s[1..];
    }
  }

  /** A predicate that holds of no element keeps nothing. */
  lemma FilterKeepsNone<T>(s: seq<T>, p: T -> bool)
    requires forall i :: 0 <= i < |s| ==> !p(s[i])
    ensures Filter(s, p) == []
  {
  }

  /** No element occurs twice. */
  ghost predicate NoDuplicates<T>(s: seq<T>) {
    forall i, j :: 0 <= i < j < |s| ==> s[i] != s[j]
  }

  /** The position of the first `x` in `s`. */
  function FirstIndex<T(==)>(s: seq<T>, x: T): (k: nat)
    requires x in s
    ensures k < |s| && s[k] == x
    ensures forall i :: 0 <= i < k ==> s[i] != x
    decreases |s|
  {
    if s[0] == x then 0 else 1 + FirstIndex(s[1..], x)
  }

  /** The first occurrence of every element of `s` that is not in `seen`,
      in order: the iteration order of a JavaScript `Set` built from `s`. */
  function DistinctFrom<T(==)>(s: seq<T>, seen: set<T>): (r: seq<T>)
    ensures NoDuplicates(r)
    ensures forall i :: 0 <= i < |r| ==> r[i] in s && r[i] !in seen
    ensures forall i :: 0 <= i < |s| && s[i] !in seen ==> s[i] in r
    ensures forall i, j :: 0 <= i < j < |r| ==> FirstIndex(s, r[i]) < FirstIndex(s, r[j])
    decreases |s|
  {
    if |s| == 0 then []
    else if s[0] in seen then DistinctFrom(s[1..], seen)
    else [s[0]] + DistinctFrom(s[1..], seen + {s[0]})
  }

  /** `[...new Set(s)]`. */
  function Distinct<T(==)>(s: seq<T>): seq<T> {
    DistinctFrom(s, {})
  }

  /** De-duplication keeps first occurrences in their original order. */
  lemma {:induction false} DistinctFromIsSubsequence<T>(s: seq<T>, seen: set<T>)
    ensures IsSubsequence(DistinctFrom(s, seen), s)
    decreases |s|
  {
    if |s| > 0 {
      var r := DistinctFrom(s, seen);
      if s[0] in seen {
        DistinctFromIsSubsequence(s[1..], seen);
        if |r| > 0 {
          SubsequenceOfTail(r, s);
        }
      } else {
        DistinctFromIsSubsequence(s[1..], seen + {s[0]});
        assert r[1..] == DistinctFrom(s[1..], seen + {s[0]});
      }
    }
  }

  /** A sequence without duplicates is its own de-duplication. */
  lemma {:induction false} DistinctFromOfDistinct<T>(s: seq<T>, seen: set<T>)
    requires NoDuplicates(s)
    requires forall i :: 0 <= i < |s| ==> s[i] !in seen
    ensures DistinctFrom(s, seen) == s
    decreases |s|
  {
    if |s| > 0 {
      assert forall i :: 0 < i < |s| ==> s[i] != s[0];
      DistinctFromOfDistinct(s[1..], seen + {s[0]});
      assert s == [s[0]] + s[1..];
    }
  }

  /** `[...new Set(s)]` is idempotent. */
  lemma DistinctIsIdempotent<T>(s: seq<T>)
    ensures Distinct(Distinct(s)) == Distinct(s)
  {
    DistinctFromOfDistinct(Distinct(s), {});
  }

  /** `xss.flat()`: the concatenation of the inner sequences, in order. */
  function Flatten<T>(xss: seq<seq<T>>): (r: seq<T>)
    ensures forall i, j :: 0 <= i < |xss| && 0 <= j < |xss[i]| ==> xss[i][j] in r
    ensures forall k :: 0 <= k < |r| ==> exists i :: 0 <= i < |xss| && r[k] in xss[i]
    decreases |xss|
  {
    if |xss| == 0 then []
    else xss[0] + Flatten(xss[1..])
  }
}
