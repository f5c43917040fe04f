/**
 * Subsets of a list, enumerated the way `itertools.combinations` produces them:
 * `Combinations(xs, r)` lists the r-element selections in lexicographic order
 * of positions, and `Powerset` chains the sizes 0, 1, ..., |xs|.
 */
module Subsets {
  import opened Folds

  function Pow2(n: nat): nat
  {
    if n == 0 then 1 else 2 * Pow2(n - 1)
  }

  /** Pascal's triangle. */
  function Binomial(n: nat, r: nat): nat
  {
    if r == 0 then 1 else if n == 0 then 0 else Binomial(n - 1, r - 1) + Binomial(n - 1, r)
  }

  /** Binomial(n, 0) + ... + Binomial(n, k - 1). */
  function BinomialSum(n: nat, k: nat): nat
  {
    if k == 0 then 0 else BinomialSum(n, k - 1) + Binomial(n, k - 1)
  }

  /** Each set of the list with x added. */
  function Adjoin<T>(x: T, cs: seq<set<T>>): (r: seq<set<T>>)
    ensures |r| == |cs|
  {
    seq(|cs|, i requires 0 <= i < |cs| => {x} + cs[i])
  }

  /**
   * `itertools.combinations(xs, r)`, each selection turned into a set: first
   * the selections that take xs[0], then those that skip it.
   */
  function Combinations<T>(xs: seq<T>, r: nat): seq<set<T>>
    decreases |xs|
  {
    if r == 0 then [{}]
    else if xs == [] then []
    else Adjoin(xs[0], Combinations(xs[1..], r - 1)) + Combinations(xs[1..], r)
  }

  /** The combinations of sizes r, r + 1, ..., |xs|, one size after another. */
  function CombinationsFrom<T>(xs: seq<T>, r: nat): seq<set<T>>
    decreases |xs| + 1 - r
  {
    if r > |xs| then [] else Combinations(xs, r) + CombinationsFrom(xs, r + 1)
  }

  /** powerset: every subset of the list's elements, smallest first. */
  function Powerset<T>(xs: seq<T>): seq<set<T>>
  {
    CombinationsFrom(xs, 0)
  }

  /** There are Binomial(|xs|, r) selections of r elements. */
  lemma {:induction false} CombinationsCount<T>(xs: seq<T>, r: nat)
    ensures |Combinations(xs, r)| == Binomial(|xs|, r)
    decreases |xs|
  {
    if r != 0 && xs != [] {
      CombinationsCount(xs[1..], r - 1);
      CombinationsCount(xs[1..], r);
    }
  }

  /** The head of a list without repetitions is not among the rest. */
  lemma HeadAndRest<T>(xs: seq<T>)
    requires Distinct(xs) && xs != []
    ensures Distinct(xs[1..]) && xs[0] !in Elements(xs[1..])
    ensures Elements(xs) == {xs[0]} + Elements(xs[1..])
  {
    forall k | 0 <= k < |xs[1..]| ensures xs[1..][k] != xs[0] {
      assert xs[1..][k] == xs[k + 1];
    }
    assert xs == [xs[0]] + xs[1..];
  }

  /** Adding an element that is not there grows a set by one. */
  lemma AddFresh<T>(x: T, c: set<T>)
    requires x !in c
    ensures |{x} + c| == |c| + 1
  {
  }

  /** Adding x to subsets of a set without x gives subsets one larger, with x. */
  lemma AdjoinSubsets<T>(x: T, cs: seq<set<T>>, s: set<T>, r: nat)
    requires x !in s
    requires forall c | c in cs :: c <= s && |c| == r
    ensures forall c | c in Adjoin(x, cs) :: x in c && c <= {x} + s && |c| == r + 1
  {
    forall c | c in Adjoin(x, cs) ensures x in c && c <= {x} + s && |c| == r + 1 {
      var i :| 0 <= i < |cs| && Adjoin(x, cs)[i] == c;
      AddFresh(x, cs[i]);
    }
  }

  /** Adding x to distinct sets without x keeps them distinct. */
  lemma AdjoinDistinct<T>(x: T, cs: seq<set<T>>, s: set<T>)
    requires Distinct(cs) && x !in s
    requires forall c | c in cs :: c <= s
    ensures Distinct(Adjoin(x, cs))
  {
    var added := Adjoin(x, cs);
    forall i, j | 0 <= i < j < |added| ensures added[i] != added[j] {
      assert cs[i] in cs && cs[j] in cs;
      assert cs[i] == added[i] - {x};
      assert cs[j] == added[j] - {x};
    }
  }

  /** Every selection of a list without repetitions is a subset of r of its elements. */
  lemma {:induction false} CombinationsSubsets<T>(xs: seq<T>, r: nat)
    requires Distinct(xs)
    ensures forall c | c in Combinations(xs, r) :: c <= Elements(xs) && |c| == r
    decreases |xs|
  {
    if r != 0 && xs != [] {
      var rest := xs[1..];
      HeadAndRest(xs);
      CombinationsSubsets(rest, r - 1);
      CombinationsSubsets(rest, r);
      AdjoinSubsets(xs[0], Combinations(rest, r - 1), Elements(rest), r - 1);
    }
  }

  /** A subset of the list's elements is a subset of the rest's when it leaves out the head. */
  lemma SubsetOfRest<T>(xs: seq<T>, t: set<T>)
    requires xs != [] && t <= Elements(xs) && xs[0] !in t
    ensures t <= Elements(xs[1..])
  {
    assert xs == [xs[0]] + xs[1..];
  }

  /** Every r-element subset of a list's elements is one of its selections. */
  lemma {:induction false} CombinationsComplete<T>(xs: seq<T>, t: set<T>)
    requires t <= Elements(xs)
    ensures t in Combinations(xs, |t|)
    decreases |xs|
  {
    if t == {} {
      assert Combinations(xs, |t|) == [{}];
    } else {
      var y :| y in t;
      assert xs != [];
      var rest := xs[1..];
      var head := xs[0];
      if head in t {
        var smaller := t - {head};
        SubsetOfRest(xs, smaller);
        CombinationsComplete(rest, smaller);
        var taking := Combinations(rest, |smaller|);
        var i :| 0 <= i < |taking| && taking[i] == smaller;
        assert Adjoin(head, taking)[i] == t;
        assert |smaller| == |t| - 1;
        assert t in Adjoin(head, taking);
      } else {
        SubsetOfRest(xs, t);
        CombinationsComplete(rest, t);
      }
    }
  }

  /** A list without repetitions has no selection twice. */
  lemma {:induction false} CombinationsDistinct<T>(xs: seq<T>, r: nat)
    requires Distinct(xs)
    ensures Distinct(Combinations(xs, r))
    decreases |xs|
  {
    if r != 0 && xs != [] {
      var rest := xs[1..];
      var head := xs[0];
      HeadAndRest(xs);
      CombinationsDistinct(rest, r - 1);
      CombinationsSubsets(rest, r - 1);
      CombinationsSubsets(rest, r);
      var taking := Combinations(rest, r - 1);
      var added := Adjoin(head, taking);
      AdjoinDistinct(head, taking, Elements(rest));
      CombinationsDistinct(rest, r);
      AdjoinSubsets(head, taking, Elements(rest), r - 1);
      AppendByMember(added, Combinations(rest, r), head);
    }
  }

  /** Lists of sets that x separates (in every set of the first, in none of the second) append without repetition. */
  lemma AppendByMember<T>(cs: seq<set<T>>, ds: seq<set<T>>, x: T)
    requires Distinct(cs) && Distinct(ds)
    requires forall c | c in cs :: x in c
    requires forall d | d in ds :: x !in d
    ensures Distinct(cs + ds)
  {
    forall i, j | 0 <= i < |cs| && 0 <= j < |ds| ensures cs[i] != ds[j] {
      assert cs[i] in cs && ds[j] in ds;
    }
    DistinctAppend(cs, ds);
  }

  /** Lists of r-element sets and of larger sets append without repetition. */
  lemma AppendBySize<T>(cs: seq<set<T>>, ds: seq<set<T>>, r: nat)
    requires Distinct(cs) && Distinct(ds)
    requires forall c | c in cs :: |c| == r
    requires forall d | d in ds :: r < |d|
    ensures Distinct(cs + ds)
  {
    forall i, j | 0 <= i < |cs| && 0 <= j < |ds| ensures cs[i] != ds[j] {
      assert cs[i] in cs && ds[j] in ds;
    }
    DistinctAppend(cs, ds);
  }

  /** The selections of sizes r and up are subsets of sizes r and up. */
  lemma {:induction false} CombinationsFromSubsets<T>(xs: seq<T>, r: nat)
    requires Distinct(xs)
    ensures forall c | c in CombinationsFrom(xs, r) :: c <= Elements(xs) && r <= |c|
    decreases |xs| + 1 - r
  {
    if r <= |xs| {
      CombinationsSubsets(xs, r);
      CombinationsFromSubsets(xs, r + 1);
    }
  }

  lemma {:induction false} CombinationsFromDistinct<T>(xs: seq<T>, r: nat)
    requires Distinct(xs)
    ensures Distinct(CombinationsFrom(xs, r))
    decreases |xs| + 1 - r
  {
    if r <= |xs| {
      CombinationsDistinct(xs, r);
      CombinationsFromDistinct(xs, r + 1);
      CombinationsSubsets(xs, r);
      CombinationsFromSubsets(xs, r + 1);
      AppendBySize(Combinations(xs, r), CombinationsFrom(xs, r + 1), r);
    }
  }

  lemma {:induction false} CombinationsFromComplete<T>(xs: seq<T>, r: nat, t: set<T>)
    requires t <= Elements(xs) && r <= |t| <= |xs|
    ensures t in CombinationsFrom(xs, r)
    decreases |xs| + 1 - r
  {
    if r == |t| {
      CombinationsComplete(xs, t);
    } else {
      CombinationsFromComplete(xs, r + 1, t);
    }
  }

  lemma {:induction false} CombinationsFromCount<T>(xs: seq<T>, r: nat)
    requires r <= |xs| + 1
    ensures |CombinationsFrom(xs, r)| + BinomialSum(|xs|, r) == BinomialSum(|xs|, |xs| + 1)
    decreases |xs| + 1 - r
  {
    if r <= |xs| {
      CombinationsCount(xs, r);
      CombinationsFromCount(xs, r + 1);
    }
  }

  /** Adding up a row of Pascal's triangle from the one above it. */
  lemma {:induction false} BinomialSumStep(n: nat, k: nat)
    requires 1 <= k
    ensures BinomialSum(n + 1, k) == BinomialSum(n, k) + BinomialSum(n, k - 1)
  {
    if k > 1 {
      BinomialSumStep(n, k - 1);
    }
  }

  lemma {:induction false} BinomialAbove(n: nat, r: nat)
    requires n < r
    ensures Binomial(n, r) == 0
  {
    if n > 0 {
      BinomialAbove(n - 1, r - 1);
      BinomialAbove(n - 1, r);
    }
  }

  /** A row of Pascal's triangle adds up to a power of two. */
  lemma {:induction false} BinomialRow(n: nat)
    ensures BinomialSum(n, n + 1) == Pow2(n)
  {
    if n > 0 {
      BinomialRow(n - 1);
      BinomialSumStep(n - 1, n + 1);
      BinomialAbove(n - 1, n);
    }
  }

  /**
   * The powerset of a list without repetitions lists each subset of its
   * elements exactly once: 2^|xs| sets, no two equal, and every subset present.
   */
  lemma PowersetExactlyOnce<T>(xs: seq<T>)
    requires Distinct(xs)
    ensures |Powerset(xs)| == Pow2(|xs|)
    ensures Distinct(Powerset(xs))
    ensures forall t :: t in Powerset(xs) <==> t <= Elements(xs)
  {
    CombinationsFromCount(xs, 0);
    BinomialRow(|xs|);
    CombinationsFromDistinct(xs, 0);
    CombinationsFromSubsets(xs, 0);
    forall t | t <= Elements(xs) ensures t in Powerset(xs) {
      ElementsCardinality(xs);
      SubsetCardinality(t, Elements(xs));
      CombinationsFromComplete(xs, 0, t);
    }
  }

  function Pow3(n: nat): nat
  {
    if n == 0 then 1 else 3 * Pow3(n - 1)
  }

  /** A pair of sets that splits part of s in two: `first` within s, `second` within s outside `first`. */
  predicate IsSplit<T>(s: set<T>, p: (set<T>, set<T>))
  {
    p.0 <= s && p.1 <= s - p.0
  }

  /** Each pair of the list with x added to its first set. */
  function AdjoinFirst<T>(x: T, ps: seq<(set<T>, set<T>)>): (r: seq<(set<T>, set<T>)>)
    ensures |r| == |ps|
  {
    seq(|ps|, i requires 0 <= i < |ps| => ({x} + ps[i].0, ps[i].1))
  }

  /** Each pair of the list with x added to its second set. */
  function AdjoinSecond<T>(x: T, ps: seq<(set<T>, set<T>)>): (r: seq<(set<T>, set<T>)>)
    ensures |r| == |ps|
  {
    seq(|ps|, i requires 0 <= i < |ps| => (ps[i].0, {x} + ps[i].1))
  }

  /**
   * A reference enumeration of the splits of a list's elements, one element
   * at a time: xs[0] goes in neither set, in the first, or in the second.
   */
  function Splits<T>(xs: seq<T>): seq<(set<T>, set<T>)>
  {
    if xs == [] then [({}, {})]
    else
      var rest := Splits(xs[1..]);
      rest + AdjoinFirst(xs[0], rest) + AdjoinSecond(xs[0], rest)
  }

  /** There are 3^|xs| of them. */
  lemma {:induction false} SplitsCount<T>(xs: seq<T>)
    ensures |Splits(xs)| == Pow3(|xs|)
  {
    if xs != [] {
      SplitsCount(xs[1..]);
    }
  }

  /** Every pair listed after adding x is a split of the elements with x. */
  lemma SplitsExtendSound<T>(x: T, rest: seq<(set<T>, set<T>)>, e: set<T>)
    requires x !in e && forall p | p in rest :: IsSplit(e, p)
    ensures forall p | p in rest + AdjoinFirst(x, rest) + AdjoinSecond(x, rest) :: IsSplit({x} + e, p)
  {
    var first, second := AdjoinFirst(x, rest), AdjoinSecond(x, rest);
    forall p | p in rest + first + second ensures IsSplit({x} + e, p) {
      if p in first {
        var i :| 0 <= i < |first| && first[i] == p;
        assert rest[i] in rest;
      } else if p in second {
        var i :| 0 <= i < |second| && second[i] == p;
        assert rest[i] in rest;
      }
    }
  }

  /** Every split of the elements with x is listed after adding x. */
  lemma SplitsExtendComplete<T>(x: T, rest: seq<(set<T>, set<T>)>, e: set<T>, p: (set<T>, set<T>))
    requires x !in e && forall q :: IsSplit(e, q) ==> q in rest
    requires IsSplit({x} + e, p)
    ensures p in rest + AdjoinFirst(x, rest) + AdjoinSecond(x, rest)
  {
    var first, second := AdjoinFirst(x, rest), AdjoinSecond(x, rest);
    var all := rest + first + second;
    if x in p.0 {
      var q := (p.0 - {x}, p.1);
      assert IsSplit(e, q);
      var i :| 0 <= i < |rest| && rest[i] == q;
      assert {x} + q.0 == p.0;
      assert all[|rest| + i] == first[i] == p;
    } else if x in p.1 {
      var q := (p.0, p.1 - {x});
      assert IsSplit(e, q);
      var i :| 0 <= i < |rest| && rest[i] == q;
      assert {x} + q.1 == p.1;
      assert all[2 * |rest| + i] == second[i] == p;
    } else {
      assert IsSplit(e, p);
    }
  }

  /** For a list without repetitions they are exactly the splits of its elements. */
  lemma {:induction false} SplitsMembers<T>(xs: seq<T>)
    requires Distinct(xs)
    ensures forall p :: p in Splits(xs) <==> IsSplit(Elements(xs), p)
  {
    if xs == [] {
      forall p | IsSplit(Elements(xs), p) ensures p in Splits(xs) {
        assert Elements(xs) == {};
        assert p.0 == {} && p.1 == {};
      }
    } else {
      var x, tail := xs[0], xs[1..];
      HeadAndRest(xs);
      SplitsMembers(tail);
      forall p | p in Splits(tail) ensures IsSplit(Elements(tail), p) {
        assert p in Splits(tail) <==> IsSplit(Elements(tail), p);
      }
      SplitsExtendSound(x, Splits(tail), Elements(tail));
      forall p | IsSplit(Elements(xs), p) ensures p in Splits(xs) {
        SplitsExtendComplete(x, Splits(tail), Elements(tail), p);
      }
    }
  }

  /** For a list without repetitions no split is listed twice. */
  lemma {:induction false} SplitsDistinct<T>(xs: seq<T>)
    requires Distinct(xs)
    ensures Distinct(Splits(xs))
  {
    if xs != [] {
      var x, tail := xs[0], xs[1..];
      HeadAndRest(xs);
      SplitsDistinct(tail);
      SplitsMembers(tail);
      var rest := Splits(tail);
      var first, second := AdjoinFirst(x, rest), AdjoinSecond(x, rest);
      forall i | 0 <= i < |rest| ensures x !in rest[i].0 && x !in rest[i].1 {
        assert rest[i] in rest;
      }
      forall i, j | 0 <= i < j < |first| ensures first[i] != first[j] {
        assert first[i].0 - {x} == rest[i].0 && first[j].0 - {x} == rest[j].0;
      }
      forall i, j | 0 <= i < j < |second| ensures second[i] != second[j] {
        assert second[i].1 - {x} == rest[i].1 && second[j].1 - {x} == rest[j].1;
      }
      DistinctAppend(rest, first);
      forall i, j | 0 <= i < |rest + first| && 0 <= j < |second| ensures (rest + first)[i] != second[j] {
        assert x in second[j].1;
        if i >= |rest| {
          assert (rest + first)[i] == first[i - |rest|];
        }
      }
      DistinctAppend(rest + first, second);
    }
  }

  /** powerset(s): list the set, then enumerate the subsets of the list. */
  method PowersetOf<T(==)>(s: set<T>) returns (subsets: seq<set<T>>)
    ensures |subsets| == Pow2(|s|)
    ensures Distinct(subsets)
    ensures forall t :: t in subsets <==> t <= s
  {
    var xs := Enumerate(s);
    DistinctCardinality(xs, s);
    PowersetExactlyOnce(xs);
    assert Elements(xs) == s;
    subsets := Powerset(xs);
  }
}
