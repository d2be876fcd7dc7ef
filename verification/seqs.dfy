/** Sequence helpers shared by the catalog, the collection store and the
    page components: JavaScript's `Array.prototype.filter`, the subsequence
    order it preserves, and duplicate-freedom. */
module Seqs {

  /** The elements of `s` that satisfy `p`, in their original order. */
  function Filter<T(!new)>(s: seq<T>, p: T -> bool): (r: seq<T>)
    ensures |r| <= |s|
    ensures forall x :: x in r <==> x in s && p(x)
    decreases |s|
  {
    if |s| == 0 then [] else (if p(s[0]) then [s[0]] else []) + Filter(s[1..], p)
  }

  /** The number of elements of `s` that satisfy `p` (`s.filter(p).length`). */
  function Count<T(!new)>(s: seq<T>, p: T -> bool): (n: nat)
    ensures n <= |s|
  {
    |Filter(s, p)|
  }

  /** `a` can be obtained from `b` by deleting elements: same elements, same order. */
  ghost predicate SubseqOf<T>(a: seq<T>, b: seq<T>)
    decreases |b|
  {
    if |a| == 0 then true
    else if |b| == 0 then false
    else (a[0] == b[0] && SubseqOf(a[1..], b[1..])) || SubseqOf(a, b[1..])
  }

  /** No value occurs twice in `s`. */
  ghost predicate Distinct<T>(s: seq<T>) {
    forall i, j :: 0 <= i < j < |s| ==> s[i] != s[j]
  }

  /** The positions of `s` whose element satisfies `p`. */
  ghost function Indices<T>(s: seq<T>, p: T -> bool): set<int> {
    set i | 0 <= i < |s| && p(s[i])
  }

  /** The distinct values of `s` that satisfy `p`. */
  ghost function Passing<T>(s: seq<T>, p: T -> bool): set<T> {
    set x | x in s && p(x)
  }

  /** The predicate fails (`x => !p(x)`). */
  function Not<T>(p: T -> bool): T -> bool {
    (x: T) => !p(x)
  }

  /** Both predicates hold (`x => p(x) && q(x)`). */
  function Both<T>(p: T -> bool, q: T -> bool): T -> bool {
    (x: T) => p(x) && q(x)
  }

  /** The set of values occurring in `s`. */
  function Elements<T(!new)>(s: seq<T>): (e: set<T>)
    ensures forall x :: x in e <==> x in s
  {
    set x | x in s
  }

  /** Filtering keeps every copy of a passing value and no copy of a failing
      one: the multiplicities of the result are those of `s`, or zero. */
  lemma {:induction false} FilterMultiset<T(!new)>(s: seq<T>, p: T -> bool)
    ensures forall x :: multiset(Filter(s, p))[x] == if p(x) then multiset(s)[x] else 0
    decreases |s|
  {
    if |s| > 0 {
      FilterMultiset(s[1..], p);
      assert s == [s[0]] + s[1..];
      assert multiset(s) == multiset{s[0]} + multiset(s[1..]);
      assert multiset(Filter(s, p)) == (if p(s[0]) then multiset{s[0]} else multiset{}) + multiset(Filter(s[1..], p));
    }
  }

  /** What a filter keeps and what it drops together make up `s`, copies
      included. */
  lemma {:induction false} FilterPartition<T(!new)>(s: seq<T>, p: T -> bool)
    ensures multiset(Filter(s, p)) + multiset(Filter(s, Not(p))) == multiset(s)
    decreases |s|
  {
    if |s| > 0 {
      var x, tail := s[0], s[1..];
      FilterPartition(tail, p);
      assert s == [x] + tail;
      FilterCons(x, tail, p);
      FilterCons(x, tail, Not(p));
      var kept, dropped := Filter(tail, p), Filter(tail, Not(p));
      if p(x) {
        assert multiset(Filter(s, p)) == multiset{x} + multiset(kept);
        assert multiset(Filter(s, Not(p))) == multiset(dropped);
      } else {
        assert multiset(Filter(s, p)) == multiset(kept);
        assert multiset(Filter(s, Not(p))) == multiset{x} + multiset(dropped);
      }
      assert multiset(s) == multiset{x} + multiset(tail);
    }
  }

  /** Filtering a sequence with a head: the head, if kept, then the filtered tail. */
  lemma FilterCons<T(!new)>(x: T, s: seq<T>, p: T -> bool)
    ensures Filter([x] + s, p) == (if p(x) then [x] else []) + Filter(s, p)
  {
    assert ([x] + s)[1..] == s;
  }

  lemma {:induction false} FilterIsSubseq<T(!new)>(s: seq<T>, p: T -> bool)
    ensures SubseqOf(Filter(s, p), s)
    decreases |s|
  {
    if |s| > 0 {
      FilterIsSubseq(s[1..], p);
      var rest := Filter(s[1..], p);
      if p(s[0]) {
        assert Filter(s, p) == [s[0]] + rest;
        assert ([s[0]] + rest)[1..] == rest;
      } else {
        assert Filter(s, p) == rest;
        if |rest| > 0 {
          assert SubseqOf(rest, s[1..]);
        }
      }
    }
  }

  /** Filtering distributes over concatenation. */
  lemma {:induction false} FilterConcat<T(!new)>(a: seq<T>, b: seq<T>, p: T -> bool)
    ensures Filter(a + b, p) == Filter(a, p) + Filter(b, p)
    decreases |a|
  {
    if |a| > 0 {
      FilterConcat(a[1..], b, p);
      assert (a + b)[1..] == a[1..] + b;
    } else {
      assert a + b == b;
    }
  }

  /** Two sequences whose elements pass their filters at the same positions
      have equal counts. */
  lemma {:induction false} CountPointwise<S(!new), T(!new)>(s: seq<S>, t: seq<T>, p: S -> bool, q: T -> bool)
    requires |s| == |t|
    requires forall i :: 0 <= i < |s| ==> (p(s[i]) <==> q(t[i]))
    ensures Count(s, p) == Count(t, q)
    decreases |s|
  {
    if |s| > 0 {
      CountPointwise(s[1..], t[1..], p, q);
    }
  }

  /** Filtering by a predicate every element already satisfies changes nothing. */
  lemma {:induction false} FilterKeepsAll<T(!new)>(s: seq<T>, p: T -> bool)
    requires forall i :: 0 <= i < |s| ==> p(s[i])
    ensures Filter(s, p) == s
    decreases |s|
  {
    if |s| > 0 {
      FilterKeepsAll(s[1..], p);
      assert [s[0]] + s[1..] == s;
    }
  }

  /** Filtering by a predicate no element satisfies leaves nothing. */
  lemma {:induction false} FilterKeepsNone<T(!new)>(s: seq<T>, p: T -> bool)
    requires forall i :: 0 <= i < |s| ==> !p(s[i])
    ensures Filter(s, p) == []
    decreases |s|
  {
    if |s| > 0 {
      FilterKeepsNone(s[1..], p);
    }
  }

  /** Filtering by a weaker predicate first and then by a stronger one is the
      same as filtering by the stronger one alone. */
  lemma {:induction false} FilterNarrow<T(!new)>(s: seq<T>, p: T -> bool, q: T -> bool)
    requires forall x :: q(x) ==> p(x)
    ensures Filter(Filter(s, p), q) == Filter(s, q)
    decreases |s|
  {
    if |s| > 0 {
      FilterNarrow(s[1..], p, q);
      var rest := Filter(s[1..], p);
      if p(s[0]) {
        assert Filter(s, p) == [s[0]] + rest;
        assert ([s[0]] + rest)[1..] == rest;
        assert Filter([s[0]] + rest, q) == (if q(s[0]) then [s[0]] else []) + Filter(rest, q);
      } else {
        assert Filter(s, p) == rest;
        assert !q(s[0]);
      }
    }
  }

  /** Filtering by a stronger predicate keeps a subsequence of what a weaker one keeps. */
  lemma FilterMonotone<T(!new)>(s: seq<T>, p: T -> bool, q: T -> bool)
    requires forall x :: q(x) ==> p(x)
    ensures SubseqOf(Filter(s, q), Filter(s, p))
  {
    FilterNarrow(s, p, q);
    FilterIsSubseq(Filter(s, p), q);
  }

  /** Filtering with two predicates that agree on every element of `s` gives the same result. */
  lemma {:induction false} FilterCongruent<T(!new)>(s: seq<T>, p: T -> bool, q: T -> bool)
    requires forall i :: 0 <= i < |s| ==> (p(s[i]) <==> q(s[i]))
    ensures Filter(s, p) == Filter(s, q)
    decreases |s|
  {
    if |s| > 0 {
      FilterCongruent(s[1..], p, q);
    }
  }

  /** A stronger predicate never counts more elements. */
  lemma CountMonotone<T(!new)>(s: seq<T>, p: T -> bool, q: T -> bool)
    requires forall x :: p(x) ==> q(x)
    ensures Count(s, p) <= Count(s, q)
  {
    FilterNarrow(s, q, p);
  }

  /** Filtering first can only lower a count. */
  lemma {:induction false} CountAfterFilter<T(!new)>(s: seq<T>, p: T -> bool, q: T -> bool)
    ensures Count(Filter(s, p), q) <= Count(s, q)
    decreases |s|
  {
    if |s| > 0 {
      CountAfterFilter(s[1..], p, q);
      var rest := Filter(s[1..], p);
      if p(s[0]) {
        assert Filter(s, p) == [s[0]] + rest;
        assert ([s[0]] + rest)[1..] == rest;
        assert Filter([s[0]] + rest, q) == (if q(s[0]) then [s[0]] else []) + Filter(rest, q);
      } else {
        assert Filter(s, p) == rest;
      }
    }
  }

  /** A duplicate-free sequence has as many distinct elements as it has positions. */
  lemma {:induction false} DistinctCard<T(!new)>(s: seq<T>)
    requires Distinct(s)
    ensures |Elements(s)| == |s|
    decreases |s|
  {
    if |s| > 0 {
      DistinctCard(s[1..]);
      assert Elements(s) == {s[0]} + Elements(s[1..]);
      assert s[0] !in Elements(s[1..]);
    }
  }

  /** A sequence never has more distinct elements than positions. */
  lemma {:induction false} ElementsCard<T(!new)>(s: seq<T>)
    ensures |Elements(s)| <= |s|
    decreases |s|
  {
    if |s| > 0 {
      ElementsCard(s[1..]);
      assert Elements(s) == {s[0]} + Elements(s[1..]);
    }
  }

  /** A subset is never larger than its superset. */
  lemma SubsetCard<T>(a: set<T>, b: set<T>)
    requires a <= b
    ensures |a| <= |b|
  {
    assert b == a + (b - a);
    assert a * (b - a) == {};
  }

  /** A subset as large as its superset is the superset. */
  lemma SubsetSameCard<T>(a: set<T>, b: set<T>)
    requires a <= b
    requires |a| == |b|
    ensures a == b
  {
    if x :| x in b && x !in a {
      SubsetCard(a, b - {x});
      assert false;
    }
  }

  /** Appending one element adds its position when it passes. */
  lemma IndicesSnoc<T>(t: seq<T>, x: T, p: T -> bool)
    ensures Indices(t + [x], p) == Indices(t, p) + (if p(x) then {|t|} else {})
  {
    var s := t + [x];
    forall i | 0 <= i < |t| ensures s[i] == t[i] { }
    assert s[|t|] == x;
  }

  /** `ix` is the set of positions of `s` whose element passes. */
  lemma IndicesAre<T>(s: seq<T>, p: T -> bool, ix: set<int>)
    requires forall i :: i in ix ==> 0 <= i < |s|
    requires forall i :: 0 <= i < |s| ==> (i in ix <==> p(s[i]))
    ensures Indices(s, p) == ix
  {
  }

  /** A count is the number of positions whose element passes. */
  lemma {:induction false} CountIndices<T(!new)>(s: seq<T>, p: T -> bool)
    ensures Count(s, p) == |Indices(s, p)|
    decreases |s|
  {
    if |s| == 0 {
      assert Indices(s, p) == {};
    } else {
      var t, x := s[..|s| - 1], s[|s| - 1];
      CountIndices(t, p);
      assert s == t + [x];
      FilterConcat(t, [x], p);
      assert Filter([x], p) == if p(x) then [x] else [];
      IndicesSnoc(t, x, p);
      assert |t| !in Indices(t, p);
    }
  }

  /** The tail of a duplicate-free sequence is duplicate-free and lacks the head. */
  lemma DistinctTail<T>(s: seq<T>)
    requires |s| > 0 && Distinct(s)
    ensures Distinct(s[1..])
    ensures s[0] !in s[1..]
  {
    var tail := s[1..];
    forall i, j | 0 <= i < j < |tail| ensures tail[i] != tail[j] {
      assert tail[i] == s[i + 1] && tail[j] == s[j + 1];
    }
    forall j | 0 <= j < |tail| ensures tail[j] != s[0] {
      assert tail[j] == s[j + 1];
    }
  }

  /** The passing values of a sequence whose head is not repeated: the head,
      if it passes, and those of the tail. */
  lemma PassingCons<T>(s: seq<T>, p: T -> bool)
    requires |s| > 0 && s[0] !in s[1..]
    ensures |Passing(s, p)| == (if p(s[0]) then 1 else 0) + |Passing(s[1..], p)|
  {
    assert s == [s[0]] + s[1..];
    assert Passing(s, p) == (if p(s[0]) then {s[0]} else {}) + Passing(s[1..], p);
  }

  /** In a duplicate-free sequence a count is the number of distinct values that pass. */
  lemma {:induction false} CountDistinct<T(!new)>(s: seq<T>, p: T -> bool)
    requires Distinct(s)
    ensures Count(s, p) == |Passing(s, p)|
    decreases |s|
  {
    if |s| == 0 {
      assert Passing(s, p) == {};
    } else {
      DistinctTail(s);
      CountDistinct(s[1..], p);
      PassingCons(s, p);
    }
  }

  /** Filtering twice is filtering once by both predicates. */
  lemma {:induction false} FilterBoth<T(!new)>(s: seq<T>, p: T -> bool, q: T -> bool)
    ensures Filter(Filter(s, p), q) == Filter(s, Both(p, q))
    decreases |s|
  {
    if |s| > 0 {
      FilterBoth(s[1..], p, q);
      var rest := Filter(s[1..], p);
      if p(s[0]) {
        assert Filter(s, p) == [s[0]] + rest;
        FilterCons(s[0], rest, q);
      } else {
        assert Filter(s, p) == rest;
      }
    }
  }
}
