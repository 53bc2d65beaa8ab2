/** Sorting as Go's slices package provides it.

`SortFunc` promises a sorted permutation and nothing about ties, which is all
slices.SortFunc promises. `StableSort` is the one stable arrangement. */
module Orders {
  import opened Text

  ghost predicate TotalPreorder<T(!new)>(cmp: (T, T) -> int) {
    && (forall a, b :: cmp(a, b) < 0 <==> cmp(b, a) > 0)
    && (forall a, b, c :: cmp(a, b) <= 0 && cmp(b, c) <= 0 ==> cmp(a, c) <= 0)
  }

  ghost predicate Sorted<T>(s: seq<T>, cmp: (T, T) -> int) {
    forall i, j :: 0 <= i < j < |s| ==> cmp(s[i], s[j]) <= 0
  }

  ghost predicate StrictlySorted<T>(s: seq<T>, cmp: (T, T) -> int) {
    forall i, j :: 0 <= i < j < |s| ==> cmp(s[i], s[j]) < 0
  }

  ghost predicate Distinct<T>(s: seq<T>) {
    forall i, j :: 0 <= i < j < |s| ==> s[i] != s[j]
  }

  /** Where a stable insertion puts x: after every element that is not greater. */
  function Insert<T>(s: seq<T>, x: T, cmp: (T, T) -> int): seq<T> {
    if s == [] then [x]
    else if cmp(s[|s| - 1], x) <= 0 then s + [x]
    else Insert(s[..|s| - 1], x, cmp) + [s[|s| - 1]]
  }

  lemma {:induction false} InsertPermutes<T>(s: seq<T>, x: T, cmp: (T, T) -> int)
    ensures multiset(Insert(s, x, cmp)) == multiset(s) + multiset{x}
    ensures |Insert(s, x, cmp)| == |s| + 1
  {
    if s != [] && cmp(s[|s| - 1], x) > 0 {
      assert s == s[..|s| - 1] + [s[|s| - 1]];
      InsertPermutes(s[..|s| - 1], x, cmp);
    }
  }

  lemma InsertAtEnd<T(!new)>(s: seq<T>, x: T, cmp: (T, T) -> int)
    requires TotalPreorder(cmp) && Sorted(s, cmp)
    requires s == [] || cmp(s[|s| - 1], x) <= 0
    ensures Sorted(s + [x], cmp)
  {
    BelowEnd(s, x, cmp);
    AppendSorted(s, x, cmp);
  }

  lemma AppendSorted<T>(s: seq<T>, x: T, cmp: (T, T) -> int)
    requires Sorted(s, cmp) && forall y :: y in s ==> cmp(y, x) <= 0
    ensures Sorted(s + [x], cmp)
  {
  }

  lemma AppendStrict<T>(s: seq<T>, x: T, cmp: (T, T) -> int)
    requires StrictlySorted(s, cmp) && forall y :: y in s ==> cmp(y, x) < 0
    ensures StrictlySorted(s + [x], cmp)
  {
  }

  lemma InsertElements<T>(s: seq<T>, x: T, cmp: (T, T) -> int)
    ensures forall y :: y in Insert(s, x, cmp) ==> y == x || y in s
  {
    InsertPermutes(s, x, cmp);
    forall y | y in Insert(s, x, cmp) ensures y == x || y in s {
      assert y in multiset(Insert(s, x, cmp));
    }
  }

  lemma {:induction false} InsertSorted<T(!new)>(s: seq<T>, x: T, cmp: (T, T) -> int)
    requires TotalPreorder(cmp) && Sorted(s, cmp)
    ensures Sorted(Insert(s, x, cmp), cmp)
  {
    if s == [] || cmp(s[|s| - 1], x) <= 0 {
      InsertAtEnd(s, x, cmp);
    } else {
      var front, last := s[..|s| - 1], s[|s| - 1];
      InsertSorted(front, x, cmp);
      InsertElements(front, x, cmp);
      forall y | y in Insert(front, x, cmp) ensures cmp(y, last) <= 0 {
      }
      AppendSorted(Insert(front, x, cmp), last, cmp);
    }
  }

  /** The stable sort of s. */
  function StableSort<T>(s: seq<T>, cmp: (T, T) -> int): seq<T> {
    if s == [] then []
    else Insert(StableSort(s[..|s| - 1], cmp), s[|s| - 1], cmp)
  }

  lemma {:induction false} StableSortPermutes<T>(s: seq<T>, cmp: (T, T) -> int)
    ensures multiset(StableSort(s, cmp)) == multiset(s)
    ensures |StableSort(s, cmp)| == |s|
  {
    if s != [] {
      assert s == s[..|s| - 1] + [s[|s| - 1]];
      StableSortPermutes(s[..|s| - 1], cmp);
      InsertPermutes(StableSort(s[..|s| - 1], cmp), s[|s| - 1], cmp);
    }
  }

  lemma {:induction false} StableSortSorted<T(!new)>(s: seq<T>, cmp: (T, T) -> int)
    requires TotalPreorder(cmp)
    ensures Sorted(StableSort(s, cmp), cmp)
  {
    if s != [] {
      StableSortSorted(s[..|s| - 1], cmp);
      InsertSorted(StableSort(s[..|s| - 1], cmp), s[|s| - 1], cmp);
    }
  }

  /** slices.SortFunc: some sorted permutation. */
  method SortFunc<T(!new)>(s: seq<T>, cmp: (T, T) -> int) returns (r: seq<T>)
    requires TotalPreorder(cmp)
    ensures multiset(r) == multiset(s) && |r| == |s|
    ensures Sorted(r, cmp)
  {
    r := StableSort(s, cmp);
    StableSortSorted(s, cmp);
    StableSortPermutes(s, cmp);
  }

  /** A sorted permutation is unique as soon as ties are equal values. */
  lemma {:induction false} SortedUnique<T(!new)>(a: seq<T>, b: seq<T>, cmp: (T, T) -> int)
    requires TotalPreorder(cmp)
    requires multiset(a) == multiset(b)
    requires Sorted(a, cmp) && Sorted(b, cmp)
    requires TiesAreEqual(a, cmp)
    ensures a == b
  {
    hide TotalPreorder, Sorted, TiesAreEqual;
    SameElements(a, b);
    if a != [] {
      HeadIsLeast(a, b[0], cmp);
      HeadIsLeast(b, a[0], cmp);
      BothWaysTie(a[0], b[0], cmp);
      TieIsEqual(a, a[0], b[0], cmp);
      TailMultiset(a);
      TailMultiset(b);
      SortedTail(a, cmp);
      SortedTail(b, cmp);
      SortedUnique(a[1..], b[1..], cmp);
      assert a == [a[0]] + a[1..] && b == [b[0]] + b[1..];
    }
  }

  lemma SameElements<T>(a: seq<T>, b: seq<T>)
    requires multiset(a) == multiset(b)
    ensures |a| == |b|
    ensures forall x :: x in a <==> x in b
  {
    assert |a| == |multiset(a)| == |multiset(b)| == |b|;
    forall x ensures x in a <==> x in b {
      assert x in a <==> x in multiset(a);
      assert x in b <==> x in multiset(b);
    }
  }

  ghost predicate TiesAreEqual<T>(s: seq<T>, cmp: (T, T) -> int) {
    forall x, y :: x in s && y in s && cmp(x, y) == 0 ==> x == y
  }

  lemma TieIsEqual<T>(s: seq<T>, x: T, y: T, cmp: (T, T) -> int)
    requires TiesAreEqual(s, cmp) && x in s && y in s && cmp(x, y) == 0
    ensures x == y
    ensures TiesAreEqual(s[1..], cmp)
  {
  }

  lemma BothWaysTie<T(!new)>(x: T, y: T, cmp: (T, T) -> int)
    requires TotalPreorder(cmp) && cmp(x, y) <= 0 && cmp(y, x) <= 0
    ensures cmp(x, y) == 0
  {
  }

  lemma SortedTail<T>(s: seq<T>, cmp: (T, T) -> int)
    requires Sorted(s, cmp) && s != []
    ensures Sorted(s[1..], cmp)
  {
  }

  lemma HeadIsLeast<T(!new)>(s: seq<T>, x: T, cmp: (T, T) -> int)
    requires TotalPreorder(cmp) && Sorted(s, cmp) && x in s
    ensures cmp(s[0], x) <= 0
  {
    var i :| 0 <= i < |s| && s[i] == x;
    assert i == 0 ==> cmp(s[0], s[0]) <= 0;
  }

  lemma TailMultiset<T>(s: seq<T>)
    requires s != []
    ensures multiset(s[1..]) == multiset(s) - multiset{s[0]}
  {
    assert s == [s[0]] + s[1..];
  }

  /** Two strictly sorted sequences with the same elements are one sequence. */
  lemma {:induction false} StrictlySortedUnique<T(!new)>(a: seq<T>, b: seq<T>, cmp: (T, T) -> int)
    requires TotalPreorder(cmp)
    requires forall x :: x in a <==> x in b
    requires StrictlySorted(a, cmp) && StrictlySorted(b, cmp)
    ensures a == b
  {
    hide TotalPreorder;
    assert a != [] ==> a[0] in b;
    assert b != [] ==> b[0] in a;
    if a != [] {
      StrictHead(a, b[0], cmp);
      StrictHead(b, a[0], cmp);
      forall x ensures x in a[1..] <==> x in b[1..] {
        StrictTail(a, x, cmp);
        StrictTail(b, x, cmp);
      }
      StrictlySortedUnique(a[1..], b[1..], cmp);
      assert a == [a[0]] + a[1..] && b == [b[0]] + b[1..];
    }
  }

  lemma StrictHead<T(!new)>(s: seq<T>, x: T, cmp: (T, T) -> int)
    requires TotalPreorder(cmp) && StrictlySorted(s, cmp) && x in s
    ensures x == s[0] || (cmp(s[0], x) < 0 && cmp(x, s[0]) > 0)
  {
  }

  lemma StrictTail<T(!new)>(s: seq<T>, x: T, cmp: (T, T) -> int)
    requires TotalPreorder(cmp) && StrictlySorted(s, cmp) && s != []
    ensures x in s[1..] <==> x in s && x != s[0]
  {
    assert cmp(s[0], s[0]) == 0;
    if x in s && x != s[0] {
      var i :| 0 <= i < |s| && s[i] == x;
      assert s[1..][i - 1] == x;
    }
  }

  /** Sorting what is already sorted changes nothing. */
  lemma {:induction false} StableSortIdempotent<T>(s: seq<T>, cmp: (T, T) -> int)
    requires Sorted(s, cmp)
    ensures StableSort(s, cmp) == s
  {
    hide Sorted, Insert;
    if s != [] {
      var front, x := s[..|s| - 1], s[|s| - 1];
      SortedFront(s, cmp);
      StableSortIdempotent(front, cmp);
      InsertLast(front, x, cmp);
    }
  }

  lemma SortedFront<T>(s: seq<T>, cmp: (T, T) -> int)
    requires Sorted(s, cmp) && s != []
    ensures Sorted(s[..|s| - 1], cmp)
    ensures |s| > 1 ==> cmp(s[|s| - 2], s[|s| - 1]) <= 0
  {
  }

  /** Stability: a stable sort refines its primary key by the order it was given.

  If the input is strictly sorted by a secondary key, the output is strictly
  sorted by the primary key and then the secondary one. */
  lemma {:induction false} StableSortRefines<T(!new)>(
    s: seq<T>, primary: (T, T) -> int, secondary: (T, T) -> int)
    requires TotalPreorder(primary)
    requires StrictlySorted(s, secondary)
    ensures StrictlySorted(StableSort(s, primary), Then(primary, secondary))
  {
    if s != [] {
      var front, x := s[..|s| - 1], s[|s| - 1];
      StableSortRefines(front, primary, secondary);
      StableSortSorted(front, primary);
      StableSortPermutes(front, primary);
      var r := StableSort(front, primary);
      forall y | y in r ensures secondary(y, x) < 0 {
        assert y in multiset(r);
        assert y in front;
      }
      InsertRefines(r, x, primary, secondary);
    }
  }

  lemma {:induction false} InsertRefines<T(!new)>(
    r: seq<T>, x: T, primary: (T, T) -> int, secondary: (T, T) -> int)
    requires TotalPreorder(primary)
    requires Sorted(r, primary) && StrictlySorted(r, Then(primary, secondary))
    requires forall y :: y in r ==> secondary(y, x) < 0
    ensures StrictlySorted(Insert(r, x, primary), Then(primary, secondary))
  {
    hide TotalPreorder, Sorted, StrictlySorted;
    if r == [] || primary(r[|r| - 1], x) <= 0 {
      BelowEnd(r, x, primary);
      AppendStrict(r, x, Then(primary, secondary));
      InsertLast(r, x, primary);
    } else {
      var front, last := r[..|r| - 1], r[|r| - 1];
      FrontOrdered(r, primary, secondary);
      InsertRefines(front, x, primary, secondary);
      InsertElements(front, x, primary);
      BothWays(x, last, primary);
      AppendStrict(Insert(front, x, primary), last, Then(primary, secondary));
    }
  }

  lemma InsertLast<T>(s: seq<T>, x: T, cmp: (T, T) -> int)
    requires s == [] || cmp(s[|s| - 1], x) <= 0
    ensures Insert(s, x, cmp) == s + [x]
  {
  }

  lemma BelowEnd<T(!new)>(s: seq<T>, x: T, cmp: (T, T) -> int)
    requires TotalPreorder(cmp) && Sorted(s, cmp)
    requires s == [] || cmp(s[|s| - 1], x) <= 0
    ensures forall y :: y in s ==> cmp(y, x) <= 0
  {
    forall y | y in s ensures cmp(y, x) <= 0 {
      var i :| 0 <= i < |s| && s[i] == y;
      assert i < |s| - 1 ==> cmp(s[i], s[|s| - 1]) <= 0;
    }
  }

  lemma BothWays<T(!new)>(x: T, y: T, cmp: (T, T) -> int)
    requires TotalPreorder(cmp)
    ensures cmp(y, x) > 0 <==> cmp(x, y) < 0
  {
  }

  lemma FrontOrdered<T>(r: seq<T>, primary: (T, T) -> int, secondary: (T, T) -> int)
    requires r != [] && Sorted(r, primary) && StrictlySorted(r, Then(primary, secondary))
    ensures var front := r[..|r| - 1];
      && Sorted(front, primary) && StrictlySorted(front, Then(primary, secondary))
      && forall y :: y in front ==> Then(primary, secondary)(y, r[|r| - 1]) < 0
  {
  }

  /** Compare by the first key, and by the second where the first ties. */
  function Then<T>(first: (T, T) -> int, second: (T, T) -> int): (T, T) -> int {
    (a: T, b: T) => if first(a, b) != 0 then first(a, b) else second(a, b)
  }

  /** slices.SortStableFunc: the stable sort, in place. */
  method SortStableFunc<T>(a: array<T>, cmp: (T, T) -> int)
    modifies a
    ensures a[..] == StableSort(old(a[..]), cmp)
  {
    hide Insert, StableSort;
    ghost var was := a[..];
    var i := 0;
    StableSortStarts(cmp);
    while i < a.Length
      invariant 0 <= i <= a.Length
      invariant a[..i] == StableSort(was[..i], cmp)
      invariant forall k :: i <= k < a.Length ==> a[k] == was[k]
    {
      StableSortStep(was, i, cmp);
      InsertInPlace(a, i, cmp);
      i := i + 1;
    }
    assert was[..i] == was && a[..i] == a[..];
  }

  lemma StableSortStarts<T>(cmp: (T, T) -> int)
    ensures StableSort([], cmp) == []
  {
  }

  lemma StableSortStep<T>(s: seq<T>, i: nat, cmp: (T, T) -> int)
    requires i < |s|
    ensures StableSort(s[..i + 1], cmp) == Insert(StableSort(s[..i], cmp), s[i], cmp)
  {
    assert s[..i + 1][..i] == s[..i];
  }

  /** Moves element i left to its stable place among the elements before it. */
  method InsertInPlace<T>(a: array<T>, i: nat, cmp: (T, T) -> int)
    requires i < a.Length
    modifies a
    ensures a[..i + 1] == Insert(old(a[..i]), old(a[i]), cmp)
    ensures forall k :: i < k < a.Length ==> a[k] == old(a[k])
  {
    hide Insert;
    ghost var sorted := a[..i];
    var x := a[i];
    var j := i;
    while j > 0 && cmp(a[j - 1], x) > 0
      invariant 0 <= j <= i
      invariant forall k :: 0 <= k < j ==> a[k] == sorted[k]
      invariant forall k :: j < k <= i ==> a[k] == sorted[k - 1]
      invariant forall k :: i < k < a.Length ==> a[k] == old(a[k])
      invariant forall k :: j <= k < i ==> cmp(sorted[k], x) > 0
    {
      a[j] := a[j - 1];
      j := j - 1;
    }
    a[j] := x;
    InsertAt(sorted, x, j, cmp);
    PlacedAt(a[..i + 1], sorted, x, j);
  }

  lemma PlacedAt<T>(r: seq<T>, s: seq<T>, x: T, j: nat)
    requires j <= |s| && |r| == |s| + 1 && r[j] == x
    requires forall k :: 0 <= k < j ==> r[k] == s[k]
    requires forall k :: j < k < |r| ==> r[k] == s[k - 1]
    ensures r == s[..j] + [x] + s[j..]
  {
  }

  lemma InsertPasses<T>(s: seq<T>, x: T, cmp: (T, T) -> int)
    requires s != [] && cmp(s[|s| - 1], x) > 0
    ensures Insert(s, x, cmp) == Insert(s[..|s| - 1], x, cmp) + [s[|s| - 1]]
  {
  }

  lemma AppendAfter<T>(front: seq<T>, last: T, x: T, j: nat)
    requires j <= |front|
    ensures front[..j] + [x] + front[j..] + [last] == (front + [last])[..j] + [x] + (front + [last])[j..]
  {
    var r := front[..j] + [x] + front[j..] + [last];
    PlacedAt(r, front + [last], x, j);
  }

  lemma {:induction false} InsertAt<T>(sorted: seq<T>, x: T, j: nat, cmp: (T, T) -> int)
    requires j <= |sorted| && (j > 0 ==> cmp(sorted[j - 1], x) <= 0)
    requires forall k :: j <= k < |sorted| ==> cmp(sorted[k], x) > 0
    ensures Insert(sorted, x, cmp) == sorted[..j] + [x] + sorted[j..]
    decreases |sorted|
  {
    hide Insert;
    if j == |sorted| {
      InsertLast(sorted, x, cmp);
      assert sorted[..j] == sorted && sorted[j..] == [];
    } else {
      var front, last := sorted[..|sorted| - 1], sorted[|sorted| - 1];
      InsertAt(front, x, j, cmp);
      InsertPasses(sorted, x, cmp);
      AppendAfter(front, last, x, j);
      assert front + [last] == sorted;
    }
  }

  // ---- sets of identifiers, in order ----

  lemma StringOrder()
    ensures TotalPreorder(Compare)
  {
    CompareTotal();
  }

  ghost predicate Ascending(s: seq<string>) {
    StrictlySorted(s, Compare)
  }

  lemma AscendingDistinct(s: seq<string>)
    requires Ascending(s)
    ensures Distinct(s)
  {
    forall i, j | 0 <= i < j < |s| ensures s[i] != s[j] {
      CompareZero(s[i], s[j]);
    }
  }

  lemma AscendingUnique(a: seq<string>, b: seq<string>)
    requires Ascending(a) && Ascending(b)
    requires forall x :: x in a <==> x in b
    ensures a == b
  {
    StringOrder();
    StrictlySortedUnique(a, b, Compare);
  }

  /** The keys of a map, or a set, collected and passed to slices.Sort. */
  method SortedElements(s: set<string>) returns (r: seq<string>)
    ensures Ascending(r)
    ensures forall x :: x in r <==> x in s
  {
    var todo, xs := s, [];
    while todo != {}
      invariant forall x :: x in xs <==> x in s && x !in todo
      invariant todo <= s
      invariant Distinct(xs)
      decreases todo
    {
      var x :| x in todo;
      todo := todo - {x};
      xs := xs + [x];
    }
    r := SortDistinct(xs);
  }

  /** slices.SortFunc on distinct values none of which tie: the strict order is forced. */
  method SortDistinctFunc<T(!new)>(xs: seq<T>, cmp: (T, T) -> int) returns (r: seq<T>)
    requires TotalPreorder(cmp)
    requires Distinct(xs) && TiesAreEqual(xs, cmp)
    ensures StrictlySorted(r, cmp)
    ensures forall x :: x in r <==> x in xs
    ensures |r| == |xs|
  {
    hide TotalPreorder;
    r := SortFunc(xs, cmp);
    SameElements(r, xs);
    DistinctMultiset(xs);
    forall i, j | 0 <= i < j < |r| ensures cmp(r[i], r[j]) < 0 {
      assert r[i] in xs && r[j] in xs;
      if r[i] == r[j] {
        RepeatCounts(r, i, j);
      }
    }
  }

  /** slices.Sort on distinct strings. */
  method SortDistinct(xs: seq<string>) returns (r: seq<string>)
    requires Distinct(xs)
    ensures Ascending(r)
    ensures forall x :: x in r <==> x in xs
    ensures |r| == |xs|
  {
    StringOrder();
    StringTies(xs);
    r := SortDistinctFunc(xs, Compare);
  }

  lemma StringTies(xs: seq<string>)
    ensures TiesAreEqual(xs, Compare)
  {
    forall x, y | x in xs && y in xs && Compare(x, y) == 0 ensures x == y {
      CompareZero(x, y);
    }
  }

  lemma {:induction false} DistinctMultiset<T>(s: seq<T>)
    requires Distinct(s)
    ensures forall x :: multiset(s)[x] <= 1
  {
    if s != [] {
      var front := s[..|s| - 1];
      assert s == front + [s[|s| - 1]];
      DistinctMultiset(front);
      assert s[|s| - 1] !in front;
      assert s[|s| - 1] !in multiset(front);
    }
  }

  lemma RepeatCounts<T>(s: seq<T>, i: nat, j: nat)
    requires i < j < |s| && s[i] == s[j]
    ensures multiset(s)[s[i]] >= 2
  {
    assert s == s[..j] + s[j..];
    assert s[i] in s[..j] && s[i] in multiset(s[..j]);
    assert s[j..][0] == s[i] && s[i] in multiset(s[j..]);
  }

  ghost predicate IsLeast(m: string, s: set<string>) {
    m in s && forall x :: x in s ==> Compare(m, x) <= 0
  }

  lemma {:induction false} LeastExists(s: set<string>)
    requires s != {}
    ensures exists m :: IsLeast(m, s)
  {
    var x :| x in s;
    CompareZero(x, x);
    if s == {x} {
      assert IsLeast(x, s);
    } else {
      LeastExists(s - {x});
      var rest :| IsLeast(rest, s - {x});
      CompareFlip(x, rest);
      var m := if Compare(x, rest) <= 0 then x else rest;
      forall y | y in s ensures Compare(m, y) <= 0 {
        if y != x && Compare(x, rest) <= 0 {
          CompareTransitive(x, rest, y);
        }
      }
      assert IsLeast(m, s);
    }
  }

  ghost function Least(s: set<string>): (m: string)
    requires s != {}
    ensures IsLeast(m, s)
  {
    LeastExists(s);
    var m :| IsLeast(m, s);
    m
  }

  lemma LeastFirst(m: string, s: set<string>, rest: seq<string>)
    requires IsLeast(m, s) && Ascending(rest) && forall x :: x in rest <==> x in s - {m}
    ensures Ascending([m] + rest) && forall x :: x in [m] + rest <==> x in s
  {
    forall x | x in rest ensures Compare(m, x) < 0 {
      CompareZero(m, x);
    }
  }

  /** The one ascending arrangement of a finite set. */
  ghost function InOrder(s: set<string>): (r: seq<string>)
    ensures Ascending(r)
    ensures forall x :: x in r <==> x in s
  {
    if s == {} then []
    else
      var m := Least(s);
      LeastFirst(m, s, InOrder(s - {m}));
      [m] + InOrder(s - {m})
  }

  lemma InOrderUnique(r: seq<string>, s: set<string>)
    requires Ascending(r) && forall x :: x in r <==> x in s
    ensures r == InOrder(s)
  {
    AscendingUnique(r, InOrder(s));
  }
}
