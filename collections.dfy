/**
 * The LINQ operators the repositories compose, as functions on sequences:
 * `Where`, `Count`, `FirstOrDefault`, the stable `OrderBy`, `Skip` and `Take`,
 * plus the list of row positions a query selects (the tracked entities a
 * `foreach` then updates in place).
 */
module Collections {
  import opened Common

  /** `Where(p)`: the elements satisfying `p`, in their original order. */
  function Filter<T>(s: seq<T>, p: T -> bool): (r: seq<T>)
    ensures |r| <= |s|
    ensures forall x :: x in r ==> x in s && p(x)
    ensures forall x :: x in s && p(x) ==> x in r
  {
    if s == [] then [] else (if p(s[0]) then [s[0]] else []) + Filter(s[1..], p)
  }

  /** A `Where` that every element passes returns the sequence unchanged. */
  lemma {:induction false} FilterAll<T>(s: seq<T>, p: T -> bool)
    requires forall k :: 0 <= k < |s| ==> p(s[k])
    ensures Filter(s, p) == s
  {
    if s != [] {
      FilterAll(s[1..], p);
      assert [s[0]] + s[1..] == s;
    }
  }

  /** A `Where` that no element passes returns nothing. */
  lemma {:induction false} FilterNone<T>(s: seq<T>, p: T -> bool)
    requires forall k :: 0 <= k < |s| ==> !p(s[k])
    ensures Filter(s, p) == []
  {
    if s != [] {
      FilterNone(s[1..], p);
    }
  }

  /** The conjunction of two row predicates. */
  function And<T>(p: T -> bool, q: T -> bool): T -> bool {
    x => p(x) && q(x)
  }

  /** Two successive `Where`s are one `Where` on the conjunction, order included. */
  lemma {:induction false} FilterTwice<T>(s: seq<T>, p: T -> bool, q: T -> bool)
    ensures Filter(Filter(s, p), q) == Filter(s, And(p, q))
  {
    if s != [] {
      FilterTwice(s[1..], p, q);
      var head := if p(s[0]) then [s[0]] else [];
      assert Filter(s, p) == head + Filter(s[1..], p);
      FilterAppend(head, Filter(s[1..], p), q);
    }
  }

  /** Two predicates that agree everywhere select the same elements. */
  lemma {:induction false} FilterCongruent<T>(s: seq<T>, p: T -> bool, q: T -> bool)
    requires forall x :: p(x) == q(x)
    ensures Filter(s, p) == Filter(s, q)
  {
    if s != [] {
      FilterCongruent(s[1..], p, q);
    }
  }

  /** `Where` distributes over concatenation. */
  lemma {:induction false} FilterAppend<T>(a: seq<T>, b: seq<T>, p: T -> bool)
    ensures Filter(a + b, p) == Filter(a, p) + Filter(b, p)
  {
    if a != [] {
      assert (a + b)[1..] == a[1..] + b;
      FilterAppend(a[1..], b, p);
    } else {
      assert a + b == b;
    }
  }

  /** `Count(p)`. */
  function CountWhere<T>(s: seq<T>, p: T -> bool): nat {
    if s == [] then 0 else (if p(s[0]) then 1 else 0) + CountWhere(s[1..], p)
  }

  /** Counting is the length of the filtered sequence. */
  lemma {:induction false} CountIsFilterLength<T>(s: seq<T>, p: T -> bool)
    ensures CountWhere(s, p) == |Filter(s, p)|
  {
    if s != [] {
      CountIsFilterLength(s[1..], p);
    }
  }

  /** Counting after overwriting one element: the old element's vote is replaced by the new one's. */
  lemma {:induction false} CountAfterUpdate<T>(s: seq<T>, i: nat, x: T, p: T -> bool)
    requires i < |s|
    ensures CountWhere(s[i := x], p) + (if p(s[i]) then 1 else 0)
         == CountWhere(s, p) + (if p(x) then 1 else 0)
  {
    if i > 0 {
      assert s[i := x][1..] == s[1..][i - 1 := x];
      CountAfterUpdate(s[1..], i - 1, x, p);
    } else {
      assert s[i := x][1..] == s[1..];
    }
  }

  /** Two predicates that agree everywhere count the same. */
  lemma {:induction false} CountCongruent<T>(s: seq<T>, p: T -> bool, q: T -> bool)
    requires forall x :: p(x) == q(x)
    ensures CountWhere(s, p) == CountWhere(s, q)
  {
    if s != [] {
      CountCongruent(s[1..], p, q);
    }
  }

  /** Counting distributes over concatenation. */
  lemma {:induction false} CountAppend<T>(a: seq<T>, b: seq<T>, p: T -> bool)
    ensures CountWhere(a + b, p) == CountWhere(a, p) + CountWhere(b, p)
  {
    if a != [] {
      assert (a + b)[1..] == a[1..] + b;
      CountAppend(a[1..], b, p);
    } else {
      assert a + b == b;
    }
  }

  /** Nothing satisfies `p` exactly when the count is zero. */
  lemma {:induction false} CountZero<T>(s: seq<T>, p: T -> bool)
    ensures CountWhere(s, p) == 0 <==> forall k :: 0 <= k < |s| ==> !p(s[k])
  {
    if s != [] {
      CountZero(s[1..], p);
      assert forall k :: 1 <= k < |s| ==> s[k] == s[1..][k - 1];
    }
  }

  /** `FirstOrDefault(p)`, as the position of the first element satisfying `p`. */
  function FirstIndex<T>(s: seq<T>, p: T -> bool): (r: Option<nat>)
    ensures r.Some? ==> r.value < |s| && p(s[r.value]) && forall j :: 0 <= j < r.value ==> !p(s[j])
    ensures r.None? ==> forall j :: 0 <= j < |s| ==> !p(s[j])
  {
    if s == [] then None
    else if p(s[0]) then Some(0)
    else match FirstIndex(s[1..], p)
         case None => None
         case Some(k) => Some(k + 1)
  }

  predicate StrictlyIncreasing(s: seq<nat>) {
    forall i, j :: 0 <= i < j < |s| ==> s[i] < s[j]
  }

  ghost predicate Distinct<T>(s: seq<T>) {
    forall i, j :: 0 <= i < j < |s| ==> s[i] != s[j]
  }

  /** The positions `lo..|s|` whose element satisfies `p`, in increasing order. */
  function IndicesFrom<T>(s: seq<T>, p: T -> bool, lo: nat): (r: seq<nat>)
    requires lo <= |s|
    ensures forall k :: 0 <= k < |r| ==> lo <= r[k] < |s| && p(s[r[k]])
    ensures forall j :: lo <= j < |s| && p(s[j]) ==> j in r
    ensures StrictlyIncreasing(r)
    decreases |s| - lo
  {
    if lo == |s| then [] else (if p(s[lo]) then [lo] else []) + IndicesFrom(s, p, lo + 1)
  }

  /** The rows of a table that a `Where(p)` query would return, by position. */
  function IndicesWhere<T>(s: seq<T>, p: T -> bool): (r: seq<nat>)
    ensures forall k :: 0 <= k < |r| ==> r[k] < |s| && p(s[r[k]])
    ensures forall j :: 0 <= j < |s| && p(s[j]) ==> j in r
    ensures Distinct(r)
  {
    IndicesFrom(s, p, 0)
  }

  /** `s` after a loop that applies `f` to the element at each listed position, in list order. */
  function ApplyAt<T>(s: seq<T>, rows: seq<nat>, f: T -> T): (r: seq<T>)
    ensures |r| == |s|
  {
    if rows == [] then s
    else
      var p := ApplyAt(s, rows[..|rows| - 1], f);
      var k := rows[|rows| - 1];
      if k < |p| then p[k := f(p[k])] else p
  }

  /** The whole list as its own longest prefix. */
  lemma FullPrefix<T>(s: seq<T>, i: nat)
    requires i == |s|
    ensures s[..i] == s
  {
  }

  /** A position the loop never visits keeps its element. */
  lemma {:induction false} ApplyAtUntouched<T>(s: seq<T>, rows: seq<nat>, f: T -> T, k: nat)
    requires k < |s| && k !in rows
    ensures ApplyAt(s, rows, f)[k] == s[k]
  {
    if rows != [] {
      var pre := rows[..|rows| - 1];
      ApplyAtUntouched(s, pre, f, k);
    }
  }

  /** One more pass of the loop: the next listed position gets `f`. */
  lemma ApplyAtStep<T>(s: seq<T>, rows: seq<nat>, i: nat, f: T -> T)
    requires i < |rows| && rows[i] < |s|
    ensures ApplyAt(s, rows[..i + 1], f) == ApplyAt(s, rows[..i], f)[rows[i] := f(ApplyAt(s, rows[..i], f)[rows[i]])]
  {
    assert rows[..i + 1][..i] == rows[..i];
  }

  /** With no position listed twice, each listed element has `f` applied once and the others are untouched. */
  lemma {:induction false} ApplyAtPointwise<T>(s: seq<T>, rows: seq<nat>, f: T -> T)
    requires Distinct(rows)
    ensures forall k :: 0 <= k < |s| ==> ApplyAt(s, rows, f)[k] == if k in rows then f(s[k]) else s[k]
  {
    if rows != [] {
      var pre := rows[..|rows| - 1];
      assert rows == pre + [rows[|rows| - 1]];
      ApplyAtPointwise(s, pre, f);
    }
  }

  // ----- stable OrderBy -----

  predicate SortedBy<T>(s: seq<T>, key: T -> int) {
    forall i, j :: 0 <= i < j < |s| ==> key(s[i]) <= key(s[j])
  }

  /** In a sorted list the head's key bounds every later element, and any element inserted after it. */
  lemma SortedHeadBound<T>(xs: seq<T>, x: T, key: T -> int, rest: seq<T>)
    requires |xs| > 0 && SortedBy(xs, key) && key(xs[0]) <= key(x)
    requires multiset(rest) == multiset(xs[1..]) + multiset{x}
    ensures forall e :: e in rest ==> key(xs[0]) <= key(e)
  {
    forall e | e in rest ensures key(xs[0]) <= key(e) {
      assert e in multiset(rest);
      if e != x {
        assert e in multiset(xs[1..]);
        var k :| 0 <= k < |xs[1..]| && xs[1..][k] == e;
        assert xs[k + 1] == e;
      }
    }
  }

  /** A head whose key bounds a sorted tail keeps the list sorted. */
  lemma ConsSorted<T>(h: T, rest: seq<T>, key: T -> int)
    requires SortedBy(rest, key) && forall e :: e in rest ==> key(h) <= key(e)
    ensures SortedBy([h] + rest, key)
  {
    var s := [h] + rest;
    forall i, j | 0 <= i < j < |s| ensures key(s[i]) <= key(s[j]) {
      assert s[j] == rest[j - 1];
      if i > 0 {
        assert s[i] == rest[i - 1];
      }
    }
  }

  /** Insert `x` after every element whose key is not greater than its own. */
  function Insert<T(==)>(xs: seq<T>, x: T, key: T -> int): (r: seq<T>)
    ensures multiset(r) == multiset(xs) + multiset{x}
    ensures |r| == |xs| + 1
    ensures SortedBy(xs, key) ==> SortedBy(r, key)
  {
    if xs == [] then [x]
    else if key(x) < key(xs[0]) then
      [x] + xs
    else
      var rest := Insert(xs[1..], x, key);
      assert xs == [xs[0]] + xs[1..];
      assert SortedBy(xs, key) ==> SortedBy([xs[0]] + rest, key) by {
        if SortedBy(xs, key) {
          SortedHeadBound(xs, x, key, rest);
          ConsSorted(xs[0], rest, key);
        }
      }
      [xs[0]] + rest
  }

  /**
   * LINQ's `OrderBy(key)`: a stable sort (insertion sort, inserting each
   * element after the equal keys already placed).
   */
  function SortBy<T(==)>(s: seq<T>, key: T -> int): (r: seq<T>)
    ensures multiset(r) == multiset(s)
    ensures |r| == |s|
    ensures SortedBy(r, key)
  {
    if s == [] then []
    else
      assert s == s[..|s| - 1] + [s[|s| - 1]];
      Insert(SortBy(s[..|s| - 1], key), s[|s| - 1], key)
  }

  /** The elements whose key is `k`. */
  function KeyIs<T>(key: T -> int, k: int): T -> bool {
    x => key(x) == k
  }

  /** An element put in front of a list whose keys all exceed its own comes after that list's elements of any one key. */
  lemma FrontStable<T>(xs: seq<T>, x: T, key: T -> int, k: int)
    requires forall j :: 0 <= j < |xs| ==> key(x) < key(xs[j])
    ensures Filter([x] + xs, KeyIs(key, k)) == Filter(xs, KeyIs(key, k)) + Filter([x], KeyIs(key, k))
  {
    FilterAppend([x], xs, KeyIs(key, k));
    if key(x) == k {
      FilterNone(xs, KeyIs(key, k));
    } else {
      assert Filter([x], KeyIs(key, k)) == [];
    }
  }

  /** Keeping the same head in front of both sides keeps a filtered equation. */
  lemma ConsStable<T>(h: T, tail: seq<T>, rest: seq<T>, x: T, p: T -> bool)
    requires Filter(rest, p) == Filter(tail, p) + Filter([x], p)
    ensures Filter([h] + rest, p) == Filter([h] + tail, p) + Filter([x], p)
  {
    FilterAppend([h], rest, p);
    FilterAppend([h], tail, p);
  }

  /** The tail of a sorted list is sorted. */
  lemma SortedTail<T>(xs: seq<T>, key: T -> int)
    requires |xs| > 0 && SortedBy(xs, key)
    ensures SortedBy(xs[1..], key)
  {
    var tail := xs[1..];
    forall i, j | 0 <= i < j < |tail| ensures key(tail[i]) <= key(tail[j]) {
      assert tail[i] == xs[i + 1] && tail[j] == xs[j + 1];
    }
  }

  /** The two cases of `Insert` on a non-empty list. */
  lemma InsertUnfold<T>(xs: seq<T>, x: T, key: T -> int)
    requires xs != []
    ensures key(x) < key(xs[0]) ==> Insert(xs, x, key) == [x] + xs
    ensures key(x) >= key(xs[0]) ==> Insert(xs, x, key) == [xs[0]] + Insert(xs[1..], x, key)
  {
  }

  /** `Insert` in front of a sorted list whose head has a larger key. */
  lemma InsertFrontStable<T>(xs: seq<T>, x: T, key: T -> int, k: int)
    requires xs != [] && SortedBy(xs, key) && key(x) < key(xs[0])
    ensures Filter(Insert(xs, x, key), KeyIs(key, k)) == Filter(xs, KeyIs(key, k)) + Filter([x], KeyIs(key, k))
  {
    InsertUnfold(xs, x, key);
    forall j | 0 <= j < |xs| ensures key(x) < key(xs[j]) {
      assert j == 0 || key(xs[0]) <= key(xs[j]);
    }
    FrontStable(xs, x, key, k);
  }

  /** Inserting into a sorted list puts `x` after every element with its key: each key's elements keep their order. */
  lemma {:induction false} InsertStable<T>(xs: seq<T>, x: T, key: T -> int, k: int)
    requires SortedBy(xs, key)
    ensures Filter(Insert(xs, x, key), KeyIs(key, k)) == Filter(xs, KeyIs(key, k)) + Filter([x], KeyIs(key, k))
  {
    if xs == [] {
      assert Insert(xs, x, key) == [x];
    } else if key(x) < key(xs[0]) {
      InsertFrontStable(xs, x, key, k);
    } else {
      var tail := xs[1..];
      InsertUnfold(xs, x, key);
      SortedTail(xs, key);
      InsertStable(tail, x, key, k);
      assert xs == [xs[0]] + tail;
      ConsStable(xs[0], tail, Insert(tail, x, key), x, KeyIs(key, k));
    }
  }

  /** `SortBy` is stable: the elements sharing any one key come out in their input order. */
  lemma {:induction false} SortByStable<T>(s: seq<T>, key: T -> int, k: int)
    ensures Filter(SortBy(s, key), KeyIs(key, k)) == Filter(s, KeyIs(key, k))
  {
    if s != [] {
      var init := s[..|s| - 1];
      var last := s[|s| - 1];
      assert s == init + [last];
      SortByStable(init, key, k);
      InsertStable(SortBy(init, key), last, key, k);
      FilterAppend(init, [last], KeyIs(key, k));
    }
  }

  /** The position of the first element with the smallest key. */
  function ArgMin<T>(s: seq<T>, key: T -> int): (m: nat)
    requires |s| > 0
    ensures m < |s|
    ensures forall j :: 0 <= j < |s| ==> key(s[m]) <= key(s[j])
    ensures forall j :: 0 <= j < m ==> key(s[m]) < key(s[j])
  {
    if |s| == 1 then 0
    else
      var m := ArgMin(s[..|s| - 1], key);
      assert forall j :: 0 <= j < |s| - 1 ==> s[..|s| - 1][j] == s[j];
      if key(s[|s| - 1]) < key(s[m]) then |s| - 1 else m
  }

  /**
   * `OrderBy(key).First()` is the first element with the smallest key: the
   * stable sort never moves a later element with an equal key in front.
   */
  lemma {:induction false} SortByHeadIsArgMin<T>(s: seq<T>, key: T -> int)
    requires |s| > 0
    ensures SortBy(s, key)[0] == s[ArgMin(s, key)]
  {
    if |s| > 1 {
      var p := s[..|s| - 1];
      SortByHeadIsArgMin(p, key);
      assert p[ArgMin(p, key)] == s[ArgMin(p, key)];
    }
  }

  /** Sorting keeps the elements, and keeps a sequence without repeats without repeats. */
  lemma SortByKeeps<T>(s: seq<T>, key: T -> int)
    ensures forall x :: x in SortBy(s, key) <==> x in s
    ensures Distinct(s) ==> Distinct(SortBy(s, key))
  {
    var r := SortBy(s, key);
    forall x ensures x in r <==> x in s {
      assert x in r <==> x in multiset(r);
    }
    if Distinct(s) {
      PermutationKeepsDistinct(s, r);
    }
  }

  /** A permutation of a sequence without repeats has no repeats, and the same elements. */
  lemma PermutationKeepsDistinct<T>(a: seq<T>, b: seq<T>)
    requires multiset(a) == multiset(b) && Distinct(a)
    ensures Distinct(b)
    ensures forall x :: x in a <==> x in b
  {
    forall x ensures x in a <==> x in b {
      assert x in a <==> x in multiset(a);
    }
    forall i, j | 0 <= i < j < |b| ensures b[i] != b[j] {
      if b[i] == b[j] {
        assert b == b[..i] + [b[i]] + b[i + 1..j] + [b[j]] + b[j + 1..];
        assert multiset(b)[b[i]] >= 2;
        DistinctCountsOnce(a, b[i]);
        assert false;
      }
    }
  }

  /** In a sequence without repeats every element occurs at most once. */
  lemma {:induction false} DistinctCountsOnce<T>(a: seq<T>, x: T)
    requires Distinct(a)
    ensures multiset(a)[x] <= 1
  {
    if a != [] {
      assert a == [a[0]] + a[1..];
      assert Distinct(a[1..]);
      DistinctCountsOnce(a[1..], x);
      if a[0] == x {
        assert x !in a[1..];
        assert multiset(a[1..])[x] == 0;
      }
    }
  }

  // ----- Skip / Take -----

  /** LINQ's `Skip(n)`: a non-positive count skips nothing. */
  function Skip<T>(s: seq<T>, n: int): (r: seq<T>)
    ensures n <= 0 ==> r == s
    ensures 0 < n <= |s| ==> r == s[n..]
    ensures n > |s| ==> r == []
  {
    if n <= 0 then s else if n >= |s| then [] else s[n..]
  }

  /** LINQ's `Take(n)`: a non-positive count takes nothing. */
  function Take<T>(s: seq<T>, n: int): (r: seq<T>)
    ensures n <= 0 ==> r == []
    ensures 0 < n <= |s| ==> r == s[..n]
    ensures n > |s| ==> r == s
  {
    if n <= 0 then [] else if n >= |s| then s else s[..n]
  }

  /** A contiguous window of a sorted sequence is sorted, and its elements come from the sequence. */
  lemma WindowOfSorted<T>(s: seq<T>, key: T -> int, skip: int, take: int)
    requires SortedBy(s, key)
    ensures SortedBy(Take(Skip(s, skip), take), key)
    ensures forall x :: x in Take(Skip(s, skip), take) ==> x in s
  {
    var a := Skip(s, skip);
    assert forall i :: 0 <= i < |a| ==> a[i] == s[i + (|s| - |a|)];
    var b := Take(a, take);
    assert forall i :: 0 <= i < |b| ==> b[i] == a[i];
  }
}
