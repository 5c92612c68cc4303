/** The two query shapes the controllers use, stated over sequences:
    a WHERE clause keeps the matching rows in storage order, and an
    ORDER BY created_at sorts them. The database leaves the order of equal
    timestamps unspecified; the model resolves ties by storage order
    (a stable insertion sort). */
module Ordering {

  /** `Array.prototype.filter` / a SQL WHERE clause. */
  function Filter<T>(xs: seq<T>, p: T -> bool): (r: seq<T>)
    ensures |r| <= |xs|
    ensures forall i :: 0 <= i < |r| ==> r[i] in xs && p(r[i])
    ensures forall i :: 0 <= i < |xs| && p(xs[i]) ==> xs[i] in r
    ensures multiset(r) <= multiset(xs)
    decreases |xs|
  {
    if |xs| == 0 then []
    else
      var rest := Filter(xs[1..], p);
      assert xs == [xs[0]] + xs[1..];
      if p(xs[0]) then [xs[0]] + rest else rest
  }

  /** Membership in a filter's result, element-wise. */
  lemma FilterMembers<T>(xs: seq<T>, p: T -> bool)
    ensures forall x :: x in Filter(xs, p) <==> x in xs && p(x)
  {
    var r := Filter(xs, p);
    forall x | x in r ensures x in xs && p(x) {
      var i :| 0 <= i < |r| && r[i] == x;
    }
    forall x | x in xs && p(x) ensures x in r {
      var i :| 0 <= i < |xs| && xs[i] == x;
    }
  }

  /** A filter whose test holds for every element keeps the whole list. */
  lemma {:induction false} FilterAll<T>(xs: seq<T>, p: T -> bool)
    requires forall i :: 0 <= i < |xs| ==> p(xs[i])
    ensures Filter(xs, p) == xs
    decreases |xs|
  {
    if |xs| > 0 {
      FilterAll(xs[1..], p);
    }
  }

  /** A filter keeps every selected element as often as it occurs: the
      result is a permutation of the selected part of the input. */
  lemma {:induction false} FilterCounts<T>(xs: seq<T>, p: T -> bool)
    ensures forall x :: p(x) ==> multiset(Filter(xs, p))[x] == multiset(xs)[x]
    decreases |xs|
  {
    if |xs| > 0 {
      FilterCounts(xs[1..], p);
      assert xs == [xs[0]] + xs[1..];
    }
  }

  /** Sequences with the same multiset have the same members. */
  lemma SameMembers<T>(xs: seq<T>, ys: seq<T>)
    requires multiset(xs) == multiset(ys)
    ensures forall x :: x in xs <==> x in ys
  {
    forall x ensures x in xs <==> x in ys {
      assert x in xs <==> x in multiset(xs);
      assert x in ys <==> x in multiset(ys);
    }
  }

  /** a can be obtained from b by deleting elements; the relative order of
      what remains is kept. */
  predicate IsSubsequence<T(==)>(a: seq<T>, b: seq<T>)
    decreases |b|
  {
    if |a| == 0 then true
    else if |b| == 0 then false
    else if a[0] == b[0] then IsSubsequence(a[1..], b[1..])
    else IsSubsequence(a, b[1..])
  }

  lemma {:induction false} SubsequenceOfCons<T>(a: seq<T>, b: seq<T>, x: T)
    requires IsSubsequence(a, b)
    ensures IsSubsequence(a, [x] + b)
    decreases |b| + 1, 0
  {
    var xb := [x] + b;
    assert xb[1..] == b;
    if |a| > 0 && a[0] == x {
      // greedy matching takes x; the rest of a must still fit into b
      assert |b| > 0;
      SubsequenceDropHead(a, b);
    }
  }

  /** Dropping the first element of a subsequence keeps it a subsequence. */
  lemma {:induction false} SubsequenceDropHead<T>(a: seq<T>, b: seq<T>)
    requires |a| > 0 && IsSubsequence(a, b)
    ensures IsSubsequence(a[1..], b)
    decreases |b|, 1
  {
    assert |b| > 0;
    if a[0] == b[0] {
      SubsequenceOfCons(a[1..], b[1..], b[0]);
      assert [b[0]] + b[1..] == b;
    } else {
      SubsequenceDropHead(a, b[1..]);
      SubsequenceOfCons(a[1..], b[1..], b[0]);
      assert [b[0]] + b[1..] == b;
    }
  }

  /** A filter keeps what it keeps in the original order. */
  lemma {:induction false} FilterIsSubsequence<T>(xs: seq<T>, p: T -> bool)
    ensures IsSubsequence(Filter(xs, p), xs)
    decreases |xs|
  {
    if |xs| > 0 {
      FilterIsSubsequence(xs[1..], p);
      var rest := Filter(xs[1..], p);
      if p(xs[0]) {
        assert Filter(xs, p) == [xs[0]] + rest;
      } else {
        SubsequenceOfCons(rest, xs[1..], xs[0]);
        assert [xs[0]] + xs[1..] == xs;
      }
    }
  }

  /** Number of elements satisfying p. */
  function Count<T>(xs: seq<T>, p: T -> bool): (n: nat)
    ensures n <= |xs|
    ensures n == 0 <==> forall i :: 0 <= i < |xs| ==> !p(xs[i])
    decreases |xs|
  {
    if |xs| == 0 then 0
    else (if p(xs[0]) then 1 else 0) + Count(xs[1..], p)
  }

  lemma {:induction false} CountIsFilterLength<T>(xs: seq<T>, p: T -> bool)
    ensures Count(xs, p) == |Filter(xs, p)|
    decreases |xs|
  {
    if |xs| > 0 {
      CountIsFilterLength(xs[1..], p);
    }
  }

  /** Keys never increase from left to right: newest first. */
  predicate NonIncreasing<T>(xs: seq<T>, key: T -> int) {
    forall i, j :: 0 <= i < j < |xs| ==> key(xs[i]) >= key(xs[j])
  }

  /** Keys never decrease from left to right: oldest first. */
  predicate NonDecreasing<T>(xs: seq<T>, key: T -> int) {
    forall i, j :: 0 <= i < j < |xs| ==> key(xs[i]) <= key(xs[j])
  }

  /** Places x before the first element whose key is not larger than its own. */
  function InsertDesc<T>(x: T, xs: seq<T>, key: T -> int): (r: seq<T>)
    requires NonIncreasing(xs, key)
    ensures NonIncreasing(r, key)
    ensures multiset(r) == multiset(xs) + multiset{x}
    ensures |r| == |xs| + 1
    decreases |xs|
  {
    if |xs| == 0 then [x]
    else if key(x) >= key(xs[0]) then [x] + xs
    else
      var tail := xs[1..];
      var rest := InsertDesc(x, tail, key);
      assert xs == [xs[0]] + tail;
      HeadBoundsInsert(xs, x, rest, key);
      ConsNonIncreasing(xs[0], rest, key);
      [xs[0]] + rest
  }

  /** Inserting a key smaller than the head's below the head keeps every
      key of the result under the head's. */
  lemma HeadBoundsInsert<T>(xs: seq<T>, x: T, rest: seq<T>, key: T -> int)
    requires |xs| > 0 && NonIncreasing(xs, key) && key(x) < key(xs[0])
    requires multiset(rest) == multiset(xs[1..]) + multiset{x}
    ensures forall k :: 0 <= k < |rest| ==> key(rest[k]) <= key(xs[0])
  {
    var tail := xs[1..];
    forall k | 0 <= k < |rest| ensures key(rest[k]) <= key(xs[0]) {
      assert rest[k] in multiset(rest);
      if rest[k] != x {
        assert rest[k] in multiset(tail);
        var j :| 0 <= j < |tail| && tail[j] == rest[k];
        assert xs[j + 1] == rest[k];
      }
    }
  }

  lemma ConsNonIncreasing<T>(h: T, rest: seq<T>, key: T -> int)
    requires NonIncreasing(rest, key)
    requires forall k :: 0 <= k < |rest| ==> key(rest[k]) <= key(h)
    ensures NonIncreasing([h] + rest, key)
  {
    var r := [h] + rest;
    forall i, j | 0 <= i < j < |r| ensures key(r[i]) >= key(r[j]) {
      assert r[j] == rest[j - 1];
      if i > 0 {
        assert r[i] == rest[i - 1];
      }
    }
  }

  /** Stable sort, newest (largest key) first. */
  function SortDesc<T>(xs: seq<T>, key: T -> int): (r: seq<T>)
    ensures NonIncreasing(r, key)
    ensures multiset(r) == multiset(xs)
    ensures |r| == |xs|
    decreases |xs|
  {
    if |xs| == 0 then []
    else
      assert xs == [xs[0]] + xs[1..];
      InsertDesc(xs[0], SortDesc(xs[1..], key), key)
  }

  /** Stable sort, oldest (smallest key) first. */
  function SortAsc<T>(xs: seq<T>, key: T -> int): (r: seq<T>)
    ensures NonDecreasing(r, key)
    ensures multiset(r) == multiset(xs)
    ensures |r| == |xs|
  {
    var r := SortDesc(xs, x => -key(x));
    assert forall i, j | 0 <= i < j < |r| :: -key(r[i]) >= -key(r[j]);
    r
  }

  /** SQL `LIMIT n`: a prefix of the list, of length n or the whole list
      when it is shorter. */
  function Limit<T>(xs: seq<T>, n: nat): (r: seq<T>)
    ensures |r| == (if |xs| <= n then |xs| else n)
    ensures r == xs[..|r|]
    ensures multiset(r) <= multiset(xs)
  {
    if |xs| <= n then xs
    else
      assert xs == xs[..n] + xs[n..];
      xs[..n]
  }

  /** Limiting a list sorted largest key first keeps the largest keys: no
      element left out has a larger key than one kept. */
  lemma LimitKeepsLargest<T>(xs: seq<T>, n: nat, key: T -> int)
    requires NonIncreasing(xs, key)
    ensures forall y, x :: y in xs && y !in Limit(xs, n) && x in Limit(xs, n) ==> key(y) <= key(x)
  {
    var r := Limit(xs, n);
    forall y, x | y in xs && y !in r && x in r ensures key(y) <= key(x) {
      var j :| 0 <= j < |xs| && xs[j] == y;
      var i :| 0 <= i < |r| && r[i] == x;
      assert j >= |r|;
      assert xs[i] == x;
    }
  }
}
