/**
 * Finite sums of real-valued terms, shared by the PageRank and TF-IDF models.
 *
 * `Sum` adds a term per element of a sequence (a Python list or the key order of
 * a dict); `SetSum` adds a term per element of a set, in no particular order
 * (iteration over a Python set).
 */
module Folds {

  /** The sum of f over the elements of xs, accumulated front to back. */
  function Sum<T>(xs: seq<T>, f: T -> real): real
  {
    if xs == [] then 0.0 else Sum(xs[..|xs| - 1], f) + f(xs[|xs| - 1])
  }

  /** No element occurs twice. */
  predicate Distinct<T(==)>(xs: seq<T>)
  {
    forall i, j :: 0 <= i < j < |xs| ==> xs[i] != xs[j]
  }

  lemma {:induction false} SumAppend<T>(xs: seq<T>, ys: seq<T>, f: T -> real)
    ensures Sum(xs + ys, f) == Sum(xs, f) + Sum(ys, f)
    decreases |ys|
  {
    if ys == [] {
      assert xs + ys == xs;
    } else {
      var zs := ys[..|ys| - 1];
      assert (xs + ys)[..|xs + ys| - 1] == xs + zs;
      assert (xs + ys)[|xs + ys| - 1] == ys[|ys| - 1];
      SumAppend(xs, zs, f);
    }
  }

  /** Concatenation associates. */
  lemma AppendAssociates<T>(a: seq<T>, b: seq<T>, c: seq<T>)
    ensures a + b + c == a + (b + c)
  {
  }

  lemma SumSnoc<T>(xs: seq<T>, x: T, f: T -> real)
    ensures Sum(xs + [x], f) == Sum(xs, f) + f(x)
  {
    assert (xs + [x])[..|xs|] == xs;
  }

  lemma SumCons<T>(x: T, xs: seq<T>, f: T -> real)
    ensures Sum([x] + xs, f) == f(x) + Sum(xs, f)
  {
    SumAppend([x], xs, f);
    assert [x][..0] == [];
  }

  /** Sums of terms that agree on every element are equal. */
  lemma {:induction false} SumCongruent<T>(xs: seq<T>, f: T -> real, g: T -> real)
    requires forall i :: 0 <= i < |xs| ==> f(xs[i]) == g(xs[i])
    ensures Sum(xs, f) == Sum(xs, g)
  {
    if xs != [] {
      SumCongruent(xs[..|xs| - 1], f, g);
    }
  }

  /** A sum of non-negative terms is non-negative. */
  lemma {:induction false} SumNonNegative<T>(xs: seq<T>, f: T -> real)
    requires forall i :: 0 <= i < |xs| ==> 0.0 <= f(xs[i])
    ensures 0.0 <= Sum(xs, f)
  {
    if xs != [] {
      SumNonNegative(xs[..|xs| - 1], f);
    }
  }

  /** A sum of non-negative terms bounds each of its terms. */
  lemma {:induction false} SumBoundsTerm<T>(xs: seq<T>, f: T -> real, k: nat)
    requires forall i :: 0 <= i < |xs| ==> 0.0 <= f(xs[i])
    requires k < |xs|
    ensures f(xs[k]) <= Sum(xs, f)
  {
    var init := xs[..|xs| - 1];
    SumNonNegative(init, f);
    if k < |xs| - 1 {
      SumBoundsTerm(init, f, k);
    }
  }

  /** The term c + a * g(x). */
  function Affine<T>(g: T -> real, c: real, a: real): T -> real
  {
    x => c + a * g(x)
  }

  /** Terms of the form c + a * g(x) sum to |xs| * c + a * (sum of g). */
  lemma {:induction false} SumAffine<T>(xs: seq<T>, g: T -> real, c: real, a: real)
    ensures Sum(xs, Affine(g, c, a)) == |xs| as real * c + a * Sum(xs, g)
  {
    if xs != [] {
      var init := xs[..|xs| - 1];
      SumAffine(init, g, c, a);
      calc {
        Sum(xs, Affine(g, c, a));
        Sum(init, Affine(g, c, a)) + (c + a * g(xs[|xs| - 1]));
        |init| as real * c + a * Sum(init, g) + (c + a * g(xs[|xs| - 1]));
        (|init| as real + 1.0) * c + a * (Sum(init, g) + g(xs[|xs| - 1]));
      }
    }
  }

  /** On every element of xs, f is c + a * g. */
  ghost predicate AffineTerms<T>(xs: seq<T>, f: T -> real, g: T -> real, c: real, a: real)
  {
    forall i :: 0 <= i < |xs| ==> f(xs[i]) == c + a * g(xs[i])
  }

  /** Terms that agree with c + a * g(x) add up like them. */
  lemma SumAffineTerms<T>(xs: seq<T>, f: T -> real, g: T -> real, c: real, a: real)
    requires AffineTerms(xs, f, g, c, a)
    ensures Sum(xs, f) == |xs| as real * c + a * Sum(xs, g)
  {
    SumCongruent(xs, f, Affine(g, c, a));
    SumAffine(xs, g, c, a);
  }

  /** Terms that all equal c add up to |xs| * c. */
  lemma {:induction false} SumConstant<T>(xs: seq<T>, f: T -> real, c: real)
    requires forall i :: 0 <= i < |xs| ==> f(xs[i]) == c
    ensures Sum(xs, f) == |xs| as real * c
  {
    if xs != [] {
      SumConstant(xs[..|xs| - 1], f, c);
    }
  }

  /** The sum of a pointwise sum is the sum of the sums. */
  lemma {:induction false} SumPlus<T>(xs: seq<T>, f: T -> real, g: T -> real, h: T -> real)
    requires forall i :: 0 <= i < |xs| ==> h(xs[i]) == f(xs[i]) + g(xs[i])
    ensures Sum(xs, h) == Sum(xs, f) + Sum(xs, g)
  {
    if xs != [] {
      SumPlus(xs[..|xs| - 1], f, g, h);
    }
  }

  /** Row x of a two-argument term. */
  function Row<T, U>(g: (T, U) -> real, x: T): U -> real
  {
    y => g(x, y)
  }

  /** Column y of a two-argument term. */
  function Column<T, U>(g: (T, U) -> real, y: U): T -> real
  {
    x => g(x, y)
  }

  /** The row sums of a two-argument term over ys. */
  function RowSums<T, U>(g: (T, U) -> real, ys: seq<U>): T -> real
  {
    x => Sum(ys, Row(g, x))
  }

  /** The column sums of a two-argument term over xs. */
  function ColumnSums<T, U>(g: (T, U) -> real, xs: seq<T>): U -> real
  {
    y => Sum(xs, Column(g, y))
  }

  /** The order of a double sum can be exchanged. */
  lemma {:induction false} SumSwap<T, U>(xs: seq<T>, ys: seq<U>, g: (T, U) -> real)
    ensures Sum(xs, RowSums(g, ys)) == Sum(ys, ColumnSums(g, xs))
  {
    if xs == [] {
      forall j | 0 <= j < |ys| ensures ColumnSums(g, xs)(ys[j]) == 0.0 {
      }
      SumAffineTerms(ys, ColumnSums(g, xs), ColumnSums(g, xs), 0.0, 0.0);
    } else {
      var init := xs[..|xs| - 1];
      var last := xs[|xs| - 1];
      SumSwap(init, ys, g);
      forall j | 0 <= j < |ys|
        ensures ColumnSums(g, xs)(ys[j]) == ColumnSums(g, init)(ys[j]) + Row(g, last)(ys[j])
      {
      }
      SumPlus(ys, ColumnSums(g, init), Row(g, last), ColumnSums(g, xs));
    }
  }

  /** The term c for members of s and 0 for everything else. */
  function Indicator<T>(s: set<T>, c: real): T -> real
  {
    x => if x in s then c else 0.0
  }

  /**
   * Over a list without repetitions that covers `s`, adding c for each element
   * of `s` gives |s| * c.
   */
  lemma SumIndicator<T>(xs: seq<T>, s: set<T>, c: real)
    requires Distinct(xs)
    requires forall x :: x in s ==> x in xs
    ensures Sum(xs, Indicator(s, c)) == |s| as real * c
  {
    SumAffineTerms(xs, Indicator(s, c), Indicator(s, 1.0), 0.0, c);
    CountIndicator(xs, s);
  }

  /** Over a list without repetitions that covers `s`, the members of `s` number |s|. */
  lemma {:induction false} CountIndicator<T>(xs: seq<T>, s: set<T>)
    requires Distinct(xs)
    requires forall x :: x in s ==> x in xs
    ensures Sum(xs, Indicator(s, 1.0)) == |s| as real
  {
    if xs == [] {
      assert s == {};
    } else {
      var init := xs[..|xs| - 1];
      var last := xs[|xs| - 1];
      var rest := s - {last};
      forall x | x in rest ensures x in init {
        var i :| 0 <= i < |xs| && xs[i] == x;
        assert i != |xs| - 1;
      }
      forall i | 0 <= i < |init| ensures Indicator(s, 1.0)(init[i]) == Indicator(rest, 1.0)(init[i]) {
        assert xs[i] != xs[|xs| - 1];
      }
      CountIndicator(init, rest);
      SumCongruent(init, Indicator(s, 1.0), Indicator(rest, 1.0));
      if last in s {
        CardinalityRemove(s, last);
      } else {
        assert rest == s;
      }
    }
  }

  /** A repetition-free list of the elements of a set is as long as the set is large. */
  lemma {:induction false} DistinctCardinality<T>(xs: seq<T>, s: set<T>)
    requires Distinct(xs) && forall x :: x in s <==> x in xs
    ensures |xs| == |s|
  {
    if xs != [] {
      var init := xs[..|xs| - 1];
      var last := xs[|xs| - 1];
      forall x ensures x in s - {last} <==> x in init {
        if x in init {
          var k :| 0 <= k < |init| && init[k] == x;
          assert xs[k] != last;
        }
      }
      DistinctCardinality(init, s - {last});
      CardinalityRemove(s, last);
    } else {
      assert s == {};
    }
  }

  lemma CardinalityRemove<T>(s: set<T>, x: T)
    requires x in s
    ensures |s - {x}| == |s| - 1
  {
    assert s == (s - {x}) + {x};
  }

  lemma {:induction false} SubsetCardinality<T>(a: set<T>, b: set<T>)
    requires a <= b
    ensures |a| <= |b|
    decreases |a|
  {
    if a != {} {
      var x :| x in a;
      SubsetCardinality(a - {x}, b - {x});
      CardinalityRemove(a, x);
      CardinalityRemove(b, x);
    }
  }

  /** A list has at least as many entries as it has distinct elements. */
  lemma {:induction false} ElementsCardinality<T>(xs: seq<T>)
    ensures |set x | x in xs| <= |xs|
  {
    if xs != [] {
      var init := xs[..|xs| - 1];
      ElementsCardinality(init);
      assert (set x | x in xs) <= (set x | x in init) + {xs[|xs| - 1]};
      SubsetCardinality(set x | x in xs, (set x | x in init) + {xs[|xs| - 1]});
    }
  }

  /** The sum of f over a set, adding its elements in an arbitrary order. */
  ghost function SetSum<T>(s: set<T>, f: T -> real): real
  {
    if s == {} then 0.0 else var x :| x in s; f(x) + SetSum(s - {x}, f)
  }

  /** Any element may be taken out of a set sum first. */
  lemma {:induction false} SetSumRemove<T>(s: set<T>, f: T -> real, y: T)
    requires y in s
    ensures SetSum(s, f) == f(y) + SetSum(s - {y}, f)
    decreases |s|
  {
    var x :| x in s && SetSum(s, f) == f(x) + SetSum(s - {x}, f);
    if x != y {
      SetSumRemove(s - {x}, f, y);
      SetSumRemove(s - {y}, f, x);
      assert s - {x} - {y} == s - {y} - {x};
    }
  }

  /** A set sum of non-negative terms is non-negative. */
  lemma {:induction false} SetSumNonNegative<T>(s: set<T>, f: T -> real)
    requires forall x | x in s :: 0.0 <= f(x)
    ensures 0.0 <= SetSum(s, f)
    decreases |s|
  {
    if s != {} {
      var x := Pick(s);
      SetSumRemove(s, f, x);
      SetSumNonNegative(s - {x}, f);
    }
  }

  /** A set sum of zero terms is zero. */
  lemma {:induction false} SetSumZero<T>(s: set<T>, f: T -> real)
    requires forall x | x in s :: f(x) == 0.0
    ensures SetSum(s, f) == 0.0
    decreases |s|
  {
    if s != {} {
      var x := Pick(s);
      SetSumRemove(s, f, x);
      SetSumZero(s - {x}, f);
    }
  }

  /** Some element of a non-empty set. */
  ghost function Pick<T>(s: set<T>): (x: T)
    requires s != {}
    ensures x in s
  {
    var x :| x in s; x
  }

  /** The product of a list of numbers, multiplied front to back starting from 1. */
  function Product(xs: seq<real>): real
  {
    if xs == [] then 1.0 else Product(xs[..|xs| - 1]) * xs[|xs| - 1]
  }

  /** The elements of a list, as a set. */
  function Elements<T>(xs: seq<T>): set<T>
  {
    set x | x in xs
  }

  /** The term f(x) of each element x of a list, in order. */
  function Terms<T>(xs: seq<T>, f: T -> real): (r: seq<real>)
    ensures |r| == |xs|
  {
    seq(|xs|, i requires 0 <= i < |xs| => f(xs[i]))
  }

  /** The terms of a concatenation are the concatenation of the terms. */
  lemma TermsAppend<T>(xs: seq<T>, ys: seq<T>, f: T -> real)
    ensures Terms(xs + ys, f) == Terms(xs, f) + Terms(ys, f)
  {
  }

  /** The elements of a set, each once, in an arbitrary order. */
  ghost function Listing<T>(s: set<T>): (xs: seq<T>)
    ensures Distinct(xs) && Elements(xs) == s
    decreases |s|
  {
    if s == {} then []
    else
      var x := Pick(s);
      var rest := Listing(s - {x});
      DistinctSnoc(rest, x);
      rest + [x]
  }

  /** Only the empty list has no elements. */
  lemma NoElements<T>(xs: seq<T>)
    ensures Elements(xs) == {} <==> xs == []
  {
    if xs != [] {
      assert xs[0] in Elements(xs);
    }
  }

  /** Adding a new element at the end of a list without repetitions. */
  lemma DistinctSnoc<T>(xs: seq<T>, x: T)
    requires Distinct(xs) && x !in Elements(xs)
    ensures Distinct(xs + [x]) && Elements(xs + [x]) == Elements(xs) + {x}
  {
    forall i | 0 <= i < |xs| ensures xs[i] != x {
      assert xs[i] in Elements(xs);
    }
    assert (xs + [x])[|xs|] == x;
  }

  /** The product of f over a set, multiplying its elements in an arbitrary order. */
  ghost function SetProduct<T>(s: set<T>, f: T -> real): real
  {
    Product(Terms(Listing(s), f))
  }

  lemma MultiplyAssociates(a: real, b: real, c: real)
    ensures a * (b * c) == (a * b) * c
  {
  }

  lemma MultiplyPositive(a: real, b: real)
    requires 0.0 < a && 0.0 < b
    ensures 0.0 < a * b
  {
  }

  /** One step of moving a factor out of a product. */
  lemma ExtractStep(whole: real, before: real, x: real, rest: real, z: real, without: real)
    requires whole == before * z && before == x * rest && without == rest * z
    ensures whole == x * without
  {
    MultiplyAssociates(x, rest, z);
  }

  /** Any one entry of a list can be multiplied in first. */
  lemma {:induction false} ProductExtract(a: seq<real>, x: real, b: seq<real>)
    ensures Product(a + [x] + b) == x * Product(a + b)
    decreases |b|
  {
    var s, t := a + [x] + b, a + b;
    if b == [] {
      assert s[..|s| - 1] == a && s[|s| - 1] == x;
      assert t == a;
    } else {
      var b', z := b[..|b| - 1], b[|b| - 1];
      assert s[..|s| - 1] == a + [x] + b' && s[|s| - 1] == z;
      assert t[..|t| - 1] == a + b' && t[|t| - 1] == z;
      ProductExtract(a, x, b');
      ExtractStep(Product(s), Product(a + [x] + b'), x, Product(a + b'), z, Product(t));
    }
  }

  /** Removing the last entry of a list without repetitions removes exactly that element. */
  lemma ElementsOfInit<T>(xs: seq<T>)
    requires Distinct(xs) && xs != []
    ensures Distinct(xs[..|xs| - 1])
    ensures Elements(xs) - {xs[|xs| - 1]} == Elements(xs[..|xs| - 1])
  {
    var init, last := xs[..|xs| - 1], xs[|xs| - 1];
    forall x | x in init ensures x != last {
      var k :| 0 <= k < |init| && init[k] == x;
      assert xs[k] != xs[|xs| - 1];
    }
    assert xs == init + [last];
  }

  /** Removing entry k of a list without repetitions removes exactly that element. */
  lemma ElementsWithout<T>(ys: seq<T>, k: nat)
    requires Distinct(ys) && k < |ys|
    ensures Distinct(ys[..k] + ys[k + 1..])
    ensures Elements(ys[..k] + ys[k + 1..]) == Elements(ys) - {ys[k]}
  {
    var zs := ys[..k] + ys[k + 1..];
    forall i | 0 <= i < |zs| ensures zs[i] == ys[if i < k then i else i + 1] {
    }
    forall x | x in Elements(ys) - {ys[k]} ensures x in zs {
      var j :| 0 <= j < |ys| && ys[j] == x;
      assert zs[if j < k then j else j - 1] == x;
    }
  }

  /** The terms of a list split around entry k. */
  lemma TermsAround<T>(ys: seq<T>, k: nat, f: T -> real)
    requires k < |ys|
    ensures Terms(ys, f) == Terms(ys[..k], f) + [f(ys[k])] + Terms(ys[k + 1..], f)
    ensures Terms(ys[..k] + ys[k + 1..], f) == Terms(ys[..k], f) + Terms(ys[k + 1..], f)
  {
  }

  /** Two lists with the same elements, each without repetitions, have the same product of terms. */
  lemma {:induction false} ProductPermutation<T>(xs: seq<T>, ys: seq<T>, f: T -> real)
    requires Distinct(xs) && Distinct(ys) && Elements(xs) == Elements(ys)
    ensures Product(Terms(xs, f)) == Product(Terms(ys, f))
    decreases |xs|
  {
    if xs == [] {
      NoElements(ys);
    } else {
      var init, x := xs[..|xs| - 1], xs[|xs| - 1];
      assert x in Elements(ys);
      var k :| 0 <= k < |ys| && ys[k] == x;
      var zs := ys[..k] + ys[k + 1..];
      ElementsOfInit(xs);
      ElementsWithout(ys, k);
      ProductPermutation(init, zs, f);
      TermsAround(ys, k, f);
      ProductExtract(Terms(ys[..k], f), f(x), Terms(ys[k + 1..], f));
      assert Terms(xs, f)[..|xs| - 1] == Terms(init, f);
      MultiplyCommutes(Product(Terms(init, f)), f(x));
    }
  }

  /** Multiplying the terms of a list without repetitions in order gives the set product of its elements. */
  lemma ProductOfTerms<T>(xs: seq<T>, f: T -> real)
    requires Distinct(xs)
    ensures Product(Terms(xs, f)) == SetProduct(Elements(xs), f)
  {
    ProductPermutation(xs, Listing(Elements(xs)), f);
  }

  /** A product of positive numbers is positive. */
  lemma {:induction false} ProductPositive(xs: seq<real>)
    requires forall i | 0 <= i < |xs| :: 0.0 < xs[i]
    ensures 0.0 < Product(xs)
  {
    if xs != [] {
      ProductPositive(xs[..|xs| - 1]);
      MultiplyPositive(Product(xs[..|xs| - 1]), xs[|xs| - 1]);
    }
  }

  lemma SetProductPositive<T>(s: set<T>, f: T -> real)
    requires forall x | x in s :: 0.0 < f(x)
    ensures 0.0 < SetProduct(s, f)
  {
    var xs := Listing(s);
    forall i | 0 <= i < |xs| ensures 0.0 < Terms(xs, f)[i] {
      assert xs[i] in Elements(xs);
    }
    ProductPositive(Terms(xs, f));
  }

  lemma MultiplyCommutes(a: real, b: real)
    ensures a * b == b * a
  {
  }

  /** Concatenating lists without common elements keeps them repetition-free. */
  lemma DistinctAppend<T>(xs: seq<T>, ys: seq<T>)
    requires Distinct(xs) && Distinct(ys)
    requires forall i, j | 0 <= i < |xs| && 0 <= j < |ys| :: xs[i] != ys[j]
    ensures Distinct(xs + ys)
  {
    forall i, j | 0 <= i < j < |xs + ys| ensures (xs + ys)[i] != (xs + ys)[j] {
      if j >= |xs| && i < |xs| {
        assert (xs + ys)[j] == ys[j - |xs|];
      }
    }
  }

  /** list(s): the elements of a set, each once, in whatever order the set yields them. */
  method Enumerate<T(==)>(s: set<T>) returns (xs: seq<T>)
    ensures Distinct(xs) && forall x :: x in xs <==> x in s
  {
    xs := [];
    var rest := s;
    while rest != {}
      invariant rest <= s && Distinct(xs)
      invariant forall x :: x in xs <==> x in s && x !in rest
      decreases |rest|
    {
      var x :| x in rest;
      xs := xs + [x];
      rest := rest - {x};
    }
  }
}
