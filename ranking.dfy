/**
 * Python's `list.sort(reverse=True, key=...)` followed by the slice `[:n]`, as used
 * by `top_files` and `top_sentences` in questions/questions.py.
 *
 * The list being sorted is identified with its positions 0 .. |keys| - 1, and
 * `keys[i]` is the sort key of the i-th entry. A key is a tuple of numbers,
 * compared the way Python compares tuples (a single number is a 1-tuple).
 * The sort is stable, so with `reverse=True` entries of equal key keep their
 * original order.
 */
module Ranking {
  import opened Folds

  /** Python's `<` on tuples of numbers: lexicographic, a proper prefix being smaller. */
  predicate LexLess(a: seq<real>, b: seq<real>)
  {
    if a == [] then b != []
    else if b == [] then false
    else a[0] < b[0] || (a[0] == b[0] && LexLess(a[1..], b[1..]))
  }

  /** Python's `<=` on tuples of numbers. */
  predicate LexLeq(a: seq<real>, b: seq<real>)
  {
    LexLess(a, b) || a == b
  }

  lemma {:induction false} LexLessIrreflexive(a: seq<real>)
    ensures !LexLess(a, a)
  {
    if a != [] {
      LexLessIrreflexive(a[1..]);
    }
  }

  lemma {:induction false} LexLessTransitive(a: seq<real>, b: seq<real>, c: seq<real>)
    requires LexLess(a, b) && LexLess(b, c)
    ensures LexLess(a, c)
  {
    if a != [] && b != [] && c != [] && a[0] == b[0] == c[0] {
      LexLessTransitive(a[1..], b[1..], c[1..]);
    }
  }

  /** Any two keys are comparable. */
  lemma {:induction false} LexLessTotal(a: seq<real>, b: seq<real>)
    ensures LexLess(a, b) || a == b || LexLess(b, a)
  {
    if a != [] && b != [] && a[0] == b[0] {
      LexLessTotal(a[1..], b[1..]);
      if a[1..] == b[1..] {
        assert a == [a[0]] + a[1..] && b == [b[0]] + b[1..];
      }
    }
  }

  lemma LexLeqTransitive(a: seq<real>, b: seq<real>, c: seq<real>)
    requires LexLeq(a, b) && LexLeq(b, c)
    ensures LexLeq(a, c)
    ensures LexLess(a, b) || LexLess(b, c) ==> LexLess(a, c)
  {
    if LexLess(a, b) && LexLess(b, c) {
      LexLessTransitive(a, b, c);
    }
  }

  /**
   * Entry i is placed before entry j: it has a larger key, or the same key and
   * an earlier original position.
   */
  predicate RankedBefore(keys: seq<seq<real>>, i: nat, j: nat)
    requires i < |keys| && j < |keys|
  {
    LexLess(keys[j], keys[i]) || (keys[i] == keys[j] && i < j)
  }

  /** Every position listed is a position of keys. */
  predicate InRange(keys: seq<seq<real>>, s: seq<nat>)
  {
    forall k :: 0 <= k < |s| ==> s[k] < |keys|
  }

  /** The listed positions are in ranking order. */
  predicate Ranked(keys: seq<seq<real>>, s: seq<nat>)
    requires InRange(keys, s)
  {
    forall i, j :: 0 <= i < j < |s| ==> RankedBefore(keys, s[i], s[j])
  }

  /** Inserts x in front of the first entry whose key is not larger than x's. */
  function Insert(keys: seq<seq<real>>, x: nat, s: seq<nat>): seq<nat>
    requires x < |keys| && InRange(keys, s)
  {
    if s == [] || !LexLess(keys[x], keys[s[0]]) then [x] + s
    else [s[0]] + Insert(keys, x, s[1..])
  }

  /** Insert adds x to the positions and keeps them in range. */
  lemma {:induction false} InsertPermutes(keys: seq<seq<real>>, x: nat, s: seq<nat>)
    requires x < |keys| && InRange(keys, s)
    ensures multiset(Insert(keys, x, s)) == multiset(s) + multiset{x}
    ensures InRange(keys, Insert(keys, x, s))
  {
    if s != [] && LexLess(keys[x], keys[s[0]]) {
      InsertPermutes(keys, x, s[1..]);
      assert s == [s[0]] + s[1..];
    }
  }

  /** An entry ranked before every entry of a ranked list can go in front of it. */
  lemma RankedCons(keys: seq<seq<real>>, h: nat, t: seq<nat>)
    requires h < |keys| && InRange(keys, t) && Ranked(keys, t)
    requires forall j :: 0 <= j < |t| ==> RankedBefore(keys, h, t[j])
    ensures InRange(keys, [h] + t) && Ranked(keys, [h] + t)
  {
    var r := [h] + t;
    forall i, j | 0 <= i < j < |r| ensures RankedBefore(keys, r[i], r[j]) {
      if i > 0 {
        assert r[i] == t[i - 1] && r[j] == t[j - 1];
      }
    }
  }

  lemma {:induction false} InsertRanked(keys: seq<seq<real>>, x: nat, s: seq<nat>)
    requires x < |keys| && InRange(keys, s) && Ranked(keys, s)
    requires forall k :: 0 <= k < |s| ==> x < s[k]
    ensures multiset(Insert(keys, x, s)) == multiset(s) + multiset{x}
    ensures InRange(keys, Insert(keys, x, s)) && Ranked(keys, Insert(keys, x, s))
  {
    InsertPermutes(keys, x, s);
    if s == [] {
    } else if !LexLess(keys[x], keys[s[0]]) {
      LexLessTotal(keys[x], keys[s[0]]);
      forall j | 0 <= j < |s| ensures RankedBefore(keys, x, s[j]) {
        if j > 0 {
          assert RankedBefore(keys, s[0], s[j]);
          LexLeqTransitive(keys[s[j]], keys[s[0]], keys[x]);
        }
      }
      RankedCons(keys, x, s);
    } else {
      var tail := Insert(keys, x, s[1..]);
      InsertRanked(keys, x, s[1..]);
      InsertPermutes(keys, x, s[1..]);
      forall j | 0 <= j < |tail| ensures RankedBefore(keys, s[0], tail[j]) {
        assert tail[j] in multiset(tail);
        if tail[j] != x {
          assert tail[j] in multiset(s[1..]);
          var k :| 0 <= k < |s[1..]| && s[1..][k] == tail[j];
          assert RankedBefore(keys, s[0], s[k + 1]);
        }
      }
      RankedCons(keys, s[0], tail);
    }
  }

  /** Stable insertion sort of the positions lo .. |keys| - 1. */
  function SortFrom(keys: seq<seq<real>>, lo: nat): (r: seq<nat>)
    requires lo <= |keys|
    ensures InRange(keys, r)
    ensures multiset(r) == multiset(Positions(lo, |keys|))
    ensures Ranked(keys, r)
    decreases |keys| - lo
  {
    if lo == |keys| then []
    else
      var rest := SortFrom(keys, lo + 1);
      forall k | 0 <= k < |rest| ensures lo < rest[k] {
        assert rest[k] in multiset(Positions(lo + 1, |keys|));
        PositionsMembers(lo + 1, |keys|, rest[k]);
      }
      InsertRanked(keys, lo, rest);
      assert Positions(lo, |keys|) == [lo] + Positions(lo + 1, |keys|);
      Insert(keys, lo, rest)
  }

  /** The positions lo, lo + 1, ..., hi - 1. */
  function Positions(lo: nat, hi: nat): (r: seq<nat>)
    requires lo <= hi
    ensures |r| == hi - lo
    ensures forall k :: 0 <= k < |r| ==> r[k] == lo + k
    decreases hi - lo
  {
    if lo == hi then [] else [lo] + Positions(lo + 1, hi)
  }

  lemma PositionsMembers(lo: nat, hi: nat, x: nat)
    requires lo <= hi
    ensures x in Positions(lo, hi) <==> lo <= x < hi
  {
    if lo <= x < hi {
      assert Positions(lo, hi)[x - lo] == x;
    }
  }

  /**
   * The order in which `list.sort(reverse=True)` leaves the entries: every position
   * exactly once, larger keys first and equal keys in their original order.
   */
  function StableSortDescending(keys: seq<seq<real>>): (r: seq<nat>)
    ensures |r| == |keys| && InRange(keys, r)
    ensures forall i :: 0 <= i < |keys| <==> i in r
    ensures Distinct(r)
    ensures Ranked(keys, r)
  {
    var r := SortFrom(keys, 0);
    SortedPositions(keys, r);
    r
  }

  lemma SortedPositions(keys: seq<seq<real>>, r: seq<nat>)
    requires InRange(keys, r) && Ranked(keys, r)
    requires multiset(r) == multiset(Positions(0, |keys|))
    ensures |r| == |keys|
    ensures forall i :: 0 <= i < |keys| <==> i in r
    ensures Distinct(r)
  {
    calc {
      |r|;
      |multiset(r)|;
      |multiset(Positions(0, |keys|))|;
      |Positions(0, |keys|)|;
    }
    forall i | 0 <= i < |keys| ensures i in r {
      PositionsMembers(0, |keys|, i);
      assert i in multiset(Positions(0, |keys|));
    }
    forall i, j | 0 <= i < j < |r| ensures r[i] != r[j] {
      if r[i] == r[j] {
        assert RankedBefore(keys, r[i], r[j]);
        LexLessIrreflexive(keys[r[i]]);
      }
    }
  }

  /** Sort keys that are single numbers. */
  function ScoreKeys(scores: seq<real>): (keys: seq<seq<real>>)
    ensures |keys| == |scores|
    ensures forall k :: 0 <= k < |scores| ==> keys[k] == [scores[k]]
  {
    seq(|scores|, k requires 0 <= k < |scores| => [scores[k]])
  }

  /** With single-number keys, ranking is by descending score, ties by position. */
  lemma ScoreKeysRanked(scores: seq<real>, i: nat, j: nat)
    requires i < |scores| && j < |scores|
    ensures RankedBefore(ScoreKeys(scores), i, j) <==>
      scores[j] < scores[i] || (scores[i] == scores[j] && i < j)
  {
    var keys := ScoreKeys(scores);
    assert keys[i] == [scores[i]] && keys[j] == [scores[j]];
    assert [scores[i]][1..] == [] && [scores[j]][1..] == [];
    assert LexLess(keys[j], keys[i]) <==> scores[j] < scores[i];
  }

  function Min(a: nat, b: nat): nat
  {
    if a <= b then a else b
  }

  /**
   * `sorted(...)[:n]`: the first n positions of the ranking. The selection has
   * min(n, |keys|) distinct positions in ranking order, and no position left
   * out has a larger key than a selected one.
   */
  function TopPositions(keys: seq<seq<real>>, n: nat): (r: seq<nat>)
    ensures |r| == Min(n, |keys|) && InRange(keys, r)
    ensures Distinct(r)
    ensures Ranked(keys, r)
    ensures forall i, j :: 0 <= i < |r| && 0 <= j < |keys| && j !in r ==> RankedBefore(keys, r[i], j)
  {
    var all := StableSortDescending(keys);
    var r := all[..Min(n, |keys|)];
    forall i, j | 0 <= i < |r| && 0 <= j < |keys| && j !in r ensures RankedBefore(keys, r[i], j) {
      assert j in all;
      var k :| 0 <= k < |all| && all[k] == j;
      assert forall m :: 0 <= m < |r| ==> r[m] == all[m];
      assert k >= |r|;
    }
    r
  }

  /** A pair key ranks below another one exactly when its first number is smaller, or equal with a smaller second. */
  lemma PairLess(x0: real, x1: real, y0: real, y1: real)
    ensures LexLess([x0, x1], [y0, y1]) <==> x0 < y0 || (x0 == y0 && x1 < y1)
  {
    assert [x0, x1][1..] == [x1] && [y0, y1][1..] == [y1];
    assert [x1][1..] == [] && [y1][1..] == [];
    assert LexLess([x1], [y1]) <==> x1 < y1;
  }

  /**
   * What the first n positions of a ranking say about the entries at those
   * positions, when the entries are the distinct elements `order` of a set.
   */
  lemma SelectedEntries<T>(elements: set<T>, order: seq<T>, keys: seq<seq<real>>, n: nat,
                           ranking: seq<nat>, top: seq<T>)
    requires Distinct(order) && (forall x :: x in elements <==> x in order) && |keys| == |order|
    requires ranking == TopPositions(keys, n)
    requires |top| == |ranking| && forall k :: 0 <= k < |ranking| ==> top[k] == order[ranking[k]]
    ensures |top| == Min(n, |elements|)
    ensures Distinct(top) && forall i :: 0 <= i < |top| ==> top[i] in elements
    ensures forall i, j :: 0 <= i < j < |top| ==> LexLeq(keys[ranking[j]], keys[ranking[i]])
    ensures forall i, j, a, b ::
      (0 <= i < j < |top| && 0 <= a < |order| && 0 <= b < |order| &&
       top[i] == order[a] && top[j] == order[b] && keys[ranking[j]] == keys[ranking[i]]) ==> a < b
    ensures forall i, b :: 0 <= i < |top| && 0 <= b < |order| && order[b] !in top ==>
      LexLeq(keys[b], keys[ranking[i]])
    ensures forall i, a, b ::
      (0 <= i < |top| && 0 <= a < |order| && 0 <= b < |order| &&
       top[i] == order[a] && order[b] !in top && keys[b] == keys[ranking[i]]) ==> a < b
  {
    DistinctCardinality(order, elements);
    forall i, j | 0 <= i < j < |top| ensures top[i] != top[j] {
      assert RankedBefore(keys, ranking[i], ranking[j]);
    }
    forall i, j, a, b |
      0 <= i < j < |top| && 0 <= a < |order| && 0 <= b < |order| &&
      top[i] == order[a] && top[j] == order[b] && keys[ranking[j]] == keys[ranking[i]]
      ensures a < b
    {
      assert a == ranking[i] && b == ranking[j];
      assert RankedBefore(keys, ranking[i], ranking[j]);
      LexLessIrreflexive(keys[a]);
    }
    OmittedEntries(order, keys, n, ranking, top);
  }

  /**
   * An entry left out of the first n positions has no larger key than a
   * selected one, and when its key is equal it comes later in `order`.
   */
  lemma OmittedEntries<T>(order: seq<T>, keys: seq<seq<real>>, n: nat, ranking: seq<nat>, top: seq<T>)
    requires Distinct(order) && |keys| == |order|
    requires ranking == TopPositions(keys, n)
    requires |top| == |ranking| && forall k :: 0 <= k < |ranking| ==> top[k] == order[ranking[k]]
    ensures forall i, b :: 0 <= i < |top| && 0 <= b < |order| && order[b] !in top ==>
      LexLeq(keys[b], keys[ranking[i]])
    ensures forall i, a, b ::
      (0 <= i < |top| && 0 <= a < |order| && 0 <= b < |order| &&
       top[i] == order[a] && order[b] !in top && keys[b] == keys[ranking[i]]) ==> a < b
  {
    forall i, b | 0 <= i < |top| && 0 <= b < |order| && order[b] !in top
      ensures RankedBefore(keys, ranking[i], b)
    {
      assert b !in ranking by {
        forall k | 0 <= k < |ranking| ensures ranking[k] != b {
          assert top[k] == order[ranking[k]];
        }
      }
    }
    forall i, a, b |
      0 <= i < |top| && 0 <= a < |order| && 0 <= b < |order| &&
      top[i] == order[a] && order[b] !in top && keys[b] == keys[ranking[i]]
      ensures a < b
    {
      assert a == ranking[i];
      assert RankedBefore(keys, a, b);
      LexLessIrreflexive(keys[a]);
    }
  }
}
