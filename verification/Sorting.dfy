/**
 Stable sorting by a weak order, and the lexicographic order on sequences of code units.

 An ordered arrangement is unique under a total order, and a strictly ordered one under any
 asymmetric relation; lists without repetition are compared through their multisets. The other
 modules use these facts for names, keys, paths and digests, whose order is that of their code
 units with a proper prefix first.
 */
module Sorting {

  // ------------------------------------------------------------ the lexicographic order

  /** Strictly smaller at the first difference; a proper prefix is smaller. */
  predicate Less(a: seq<nat>, b: seq<nat>) {
    b != [] && (a == [] || a[0] < b[0] || (a[0] == b[0] && Less(a[1..], b[1..])))
  }

  lemma {:induction false} LessIsTransitive(a: seq<nat>, b: seq<nat>, c: seq<nat>)
    requires Less(a, b) && Less(b, c)
    ensures Less(a, c)
  {
    if a != [] && a[0] == b[0] == c[0] {
      LessIsTransitive(a[1..], b[1..], c[1..]);
    }
  }

  lemma {:induction false} LessIsTotal(a: seq<nat>, b: seq<nat>)
    ensures !(Less(a, b) && Less(b, a)) && (Less(a, b) || Less(b, a) || a == b) && !Less(a, a)
  {
    if a != [] {
      LessIsTotal(a[1..], a[1..]);
    }
    if a != [] && b != [] && a[0] == b[0] {
      LessIsTotal(a[1..], b[1..]);
      assert a == [a[0]] + a[1..] && b == [b[0]] + b[1..];
    }
  }

  /** `a` and `b` agree before `k`, where `a` stops or is smaller. */
  ghost predicate FirstDifference(a: seq<nat>, b: seq<nat>, k: nat) {
    k <= |a| && k < |b| && a[..k] == b[..k] && (k == |a| || a[k] < b[k])
  }

  lemma {:induction false} LessAtFirstDifference(a: seq<nat>, b: seq<nat>, k: nat)
    requires FirstDifference(a, b, k)
    ensures Less(a, b)
  {
    if k > 0 {
      assert a[0] == a[..k][0] == b[..k][0] == b[0];
      assert a[1..][..k - 1] == a[..k][1..] && b[1..][..k - 1] == b[..k][1..];
      LessAtFirstDifference(a[1..], b[1..], k - 1);
    }
  }

  // ------------------------------------------------------------ lists without repetition

  predicate Distinct<T(==)>(s: seq<T>) {
    forall i, j | 0 <= i < j < |s| :: s[i] != s[j]
  }

  lemma DistinctAppend<T>(s: seq<T>, x: T)
    ensures Distinct(s + [x]) <==> Distinct(s) && x !in s
  {
    var t := s + [x];
    if Distinct(t) {
      assert forall i | 0 <= i < |s| :: s[i] == t[i] && t[i] != t[|s|];
    }
  }

  lemma {:induction false} DistinctCounts<T>(s: seq<T>)
    ensures Distinct(s) <==> forall x | x in s :: multiset(s)[x] == 1
  {
    if s != [] {
      var n := |s| - 1;
      var before, x := s[..n], s[n];
      assert s == before + [x];
      DistinctAppend(before, x);
      DistinctCounts(before);
      assert multiset(s) == multiset(before) + multiset{x};
      assert forall y :: y in s <==> y in before || y == x;
      assert x in before <==> multiset(before)[x] > 0;
      if x in before {
        assert multiset(s)[x] > 1;
      } else {
        assert forall y | y in before :: multiset(s)[y] == multiset(before)[y];
      }
    }
  }

  lemma PermutationKeepsDistinct<T>(s: seq<T>, t: seq<T>)
    requires multiset(s) == multiset(t)
    ensures Distinct(s) <==> Distinct(t)
  {
    DistinctCounts(s);
    DistinctCounts(t);
    assert forall x :: x in s <==> x in multiset(s);
    assert forall x :: x in t <==> x in multiset(t);
  }

  lemma RemoveAt<T>(t: seq<T>, j: nat) returns (rest: seq<T>)
    requires j < |t|
    ensures |rest| == |t| - 1 && multiset(t) == multiset(rest) + multiset{t[j]}
    ensures forall x | x in t :: x == t[j] || x in rest
  {
    rest := t[..j] + t[j + 1..];
    assert t == t[..j] + [t[j]] + t[j + 1..];
    assert multiset(t) == multiset(rest) + multiset{t[j]};
    assert forall x | x in t :: x in multiset(t);
    assert forall x | x in multiset(rest) :: x in rest;
  }

  /** A list without repetition inside another of the same length is a rearrangement of it. */
  lemma {:induction false} DistinctSubset<T>(s: seq<T>, t: seq<T>)
    requires Distinct(s) && |s| == |t| && forall x | x in s :: x in t
    ensures multiset(s) == multiset(t)
  {
    if s != [] {
      assert s[0] in t;
      var j :| 0 <= j < |t| && t[j] == s[0];
      var rest := RemoveAt(t, j);
      assert s == [s[0]] + s[1..];
      assert forall x | x in s[1..] :: x in s && x != s[0];
      DistinctSubset(s[1..], rest);
    } else {
      assert s == t;
    }
  }

  // ------------------------------------------------------------ sorting

  ghost predicate WeakOrder<T(!new)>(less: (T, T) -> bool) {
    && (forall a :: !less(a, a))
    && (forall a, b, c :: less(a, b) && less(b, c) ==> less(a, c))
    && (forall a, b, c :: less(a, c) ==> less(a, b) || less(b, c))
  }

  /** No two different values tie. */
  ghost predicate TotalOrder<T(!new)>(less: (T, T) -> bool) {
    WeakOrder(less) && forall a, b :: a == b || less(a, b) || less(b, a)
  }

  ghost predicate Ordered<T>(s: seq<T>, less: (T, T) -> bool) {
    forall i, j | 0 <= i < j < |s| :: !less(s[j], s[i])
  }

  function Insert<T>(x: T, s: seq<T>, less: (T, T) -> bool): (r: seq<T>)
    ensures |r| == |s| + 1
  {
    if s == [] || !less(s[0], x) then [x] + s else [s[0]] + Insert(x, s[1..], less)
  }

  function Sort<T>(s: seq<T>, less: (T, T) -> bool): (r: seq<T>)
    ensures |r| == |s|
  {
    if s == [] then [] else Insert(s[0], Sort(s[1..], less), less)
  }

  lemma {:induction false} InsertPermutes<T>(x: T, s: seq<T>, less: (T, T) -> bool)
    ensures multiset(Insert(x, s, less)) == multiset(s) + multiset{x}
  {
    if s != [] && less(s[0], x) {
      InsertPermutes(x, s[1..], less);
      assert s == [s[0]] + s[1..];
    }
  }

  lemma {:induction false} SortPermutes<T>(s: seq<T>, less: (T, T) -> bool)
    ensures multiset(Sort(s, less)) == multiset(s)
  {
    if s != [] {
      SortPermutes(s[1..], less);
      InsertPermutes(s[0], Sort(s[1..], less), less);
      assert s == [s[0]] + s[1..];
    }
  }

  lemma {:induction false} InsertOrders<T(!new)>(x: T, s: seq<T>, less: (T, T) -> bool)
    requires WeakOrder(less) && Ordered(s, less)
    ensures Ordered(Insert(x, s, less), less)
  {
    if s == [] {
    } else if !less(s[0], x) {
      assert forall j | 0 <= j < |s| :: !less(s[j], x);
    } else {
      InsertOrders(x, s[1..], less);
      InsertPermutes(x, s[1..], less);
      var rest := Insert(x, s[1..], less);
      forall j | 0 <= j < |rest|
        ensures !less(rest[j], s[0])
      {
        assert rest[j] in multiset(rest);
        if rest[j] in s[1..] {
          var i :| 0 <= i < |s[1..]| && s[1..][i] == rest[j];
          assert !less(s[i + 1], s[0]);
        }
      }
    }
  }

  lemma {:induction false} SortOrders<T(!new)>(s: seq<T>, less: (T, T) -> bool)
    requires WeakOrder(less)
    ensures Ordered(Sort(s, less), less)
  {
    if s != [] {
      SortOrders(s[1..], less);
      InsertOrders(s[0], Sort(s[1..], less), less);
    }
  }

  lemma SortHas<T>(s: seq<T>, less: (T, T) -> bool, x: T)
    ensures x in Sort(s, less) <==> x in s
  {
    SortPermutes(s, less);
    assert x in Sort(s, less) <==> x in multiset(Sort(s, less));
    assert x in s <==> x in multiset(s);
  }

  lemma HeadsAgree<T(!new)>(s: seq<T>, t: seq<T>, less: (T, T) -> bool)
    requires TotalOrder(less) && Ordered(s, less) && Ordered(t, less) && multiset(s) == multiset(t) && s != []
    ensures t != [] && s[0] == t[0]
  {
    assert s[0] in multiset(t) && s[0] in t;
    assert t[0] in multiset(s) && t[0] in s;
    var i :| 0 <= i < |s| && s[i] == t[0];
    var j :| 0 <= j < |t| && t[j] == s[0];
    assert i == 0 || !less(s[i], s[0]);
    assert j == 0 || !less(t[j], t[0]);
  }

  /** Under a total order, there is only one ordered arrangement. */
  lemma {:induction false} OrderedIsUnique<T(!new)>(s: seq<T>, t: seq<T>, less: (T, T) -> bool)
    requires TotalOrder(less) && Ordered(s, less) && Ordered(t, less) && multiset(s) == multiset(t)
    ensures s == t
  {
    if s == [] {
      assert |t| == |multiset(t)| == 0;
    } else {
      HeadsAgree(s, t, less);
      hide TotalOrder;
      assert s == [s[0]] + s[1..] && t == [t[0]] + t[1..];
      assert multiset(s[1..]) == multiset(s) - multiset{s[0]};
      assert multiset(t[1..]) == multiset(t) - multiset{t[0]};
      OrderedIsUnique(s[1..], t[1..], less);
    }
  }

  /** Each element before the next, and so before all later ones. */
  ghost predicate StrictlyOrdered<T>(s: seq<T>, less: (T, T) -> bool) {
    forall i, j | 0 <= i < j < |s| :: less(s[i], s[j])
  }

  ghost predicate Asymmetric<T(!new)>(less: (T, T) -> bool) {
    forall a, b :: !(less(a, b) && less(b, a))
  }

  lemma StrictHeadsAgree<T(!new)>(s: seq<T>, t: seq<T>, less: (T, T) -> bool)
    requires Asymmetric(less) && s != []
    requires StrictlyOrdered(s, less) && StrictlyOrdered(t, less) && multiset(s) == multiset(t)
    ensures t != [] && s[0] == t[0]
  {
    assert s[0] in multiset(t) && s[0] in t;
    assert t[0] in multiset(s) && t[0] in s;
    var i :| 0 <= i < |s| && s[i] == t[0];
    var j :| 0 <= j < |t| && t[j] == s[0];
  }

  lemma StrictTail<T>(s: seq<T>, less: (T, T) -> bool)
    requires StrictlyOrdered(s, less) && s != []
    ensures StrictlyOrdered(s[1..], less) && multiset(s[1..]) == multiset(s) - multiset{s[0]}
  {
    assert s == [s[0]] + s[1..];
  }

  /** There is only one strictly ordered arrangement, whatever ties elsewhere. */
  lemma {:induction false} StrictOrderIsUnique<T(!new)>(s: seq<T>, t: seq<T>, less: (T, T) -> bool)
    requires Asymmetric(less)
    requires StrictlyOrdered(s, less) && StrictlyOrdered(t, less) && multiset(s) == multiset(t)
    ensures s == t
  {
    hide StrictlyOrdered, Asymmetric;
    if s == [] {
      assert |t| == |multiset(t)| == 0;
    } else {
      StrictHeadsAgree(s, t, less);
      StrictTail(s, less);
      StrictTail(t, less);
      StrictOrderIsUnique(s[1..], t[1..], less);
      assert s == [s[0]] + s[1..] && t == [t[0]] + t[1..];
    }
  }

  /** A list equals its sorted copy exactly when it is ordered. */
  lemma SortedIsOwnSort<T(!new)>(s: seq<T>, less: (T, T) -> bool)
    requires TotalOrder(less)
    ensures s == Sort(s, less) <==> Ordered(s, less)
  {
    SortOrders(s, less);
    SortPermutes(s, less);
    if Ordered(s, less) {
      OrderedIsUnique(s, Sort(s, less), less);
    }
  }

  lemma SameMembers<T>(s: seq<T>, t: seq<T>)
    requires Distinct(s) && Distinct(t) && forall x :: x in s <==> x in t
    ensures multiset(s) == multiset(t)
  {
    DistinctCounts(s);
    DistinctCounts(t);
    forall x
      ensures multiset(s)[x] == multiset(t)[x]
    {
      assert x in s <==> x in multiset(s);
      assert x in t <==> x in multiset(t);
    }
  }

  // ------------------------------------------------------------ sorting by a key

  /** The order by a key that is a sequence of code units. */
  function By<T>(key: T -> seq<nat>): (T, T) -> bool {
    (a: T, b: T) => Less(key(a), key(b))
  }

  lemma ByIsWeakOrder<T(!new)>(key: T -> seq<nat>)
    ensures WeakOrder(By(key)) && Asymmetric(By(key))
  {
    var less := By(key);
    forall a: T, b: T
      ensures !(less(a, b) && less(b, a)) && !less(a, a)
    {
      LessIsTotal(key(a), key(b));
      LessIsTotal(key(a), key(a));
    }
    forall a: T, b: T, c: T | less(a, b) && less(b, c)
      ensures less(a, c)
    {
      LessIsTransitive(key(a), key(b), key(c));
    }
    forall a: T, b: T, c: T | less(a, c)
      ensures less(a, b) || less(b, c)
    {
      LessIsTotal(key(a), key(b));
      if Less(key(b), key(a)) {
        LessIsTransitive(key(b), key(a), key(c));
      }
    }
  }
}
