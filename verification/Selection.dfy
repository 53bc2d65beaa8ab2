/** Choosing the one path that may present a credential. */
module Selection {
  import opened Orders

  datatype Candidate<A> = Candidate(address: A, authRequired: bool)

  ghost predicate Admits<A>(candidates: seq<Candidate<A>>, admit: Candidate<A> -> bool, i: int) {
    0 <= i < |candidates| && admit(candidates[i])
  }

  /** The first of the admitted candidates with the least address, or -1. */
  ghost predicate IsMinimum<A>(
    candidates: seq<Candidate<A>>, admit: Candidate<A> -> bool, compare: (A, A) -> int, best: int)
  {
    if best == -1 then forall i :: !Admits(candidates, admit, i)
    else
      && Admits(candidates, admit, best)
      && (forall i :: Admits(candidates, admit, i) ==> compare(candidates[best].address, candidates[i].address) <= 0)
      && (forall i :: Admits(candidates, admit, i) && i < best ==>
        compare(candidates[best].address, candidates[i].address) < 0)
  }

  method CanonicalMinimum<A(!new)>(candidates: seq<Candidate<A>>, admit: Candidate<A> -> bool, compare: (A, A) -> int)
    returns (best: int)
    requires TotalPreorder(compare)
    ensures IsMinimum(candidates, admit, compare, best)
    ensures best == -1 <==> forall c :: c in candidates ==> !admit(c)
    ensures best != -1 ==>
      && 0 <= best < |candidates| && admit(candidates[best])
      && forall i :: 0 <= i < |candidates| && admit(candidates[i]) ==>
        && compare(candidates[best].address, candidates[i].address) <= 0
        && (i < best ==> compare(candidates[best].address, candidates[i].address) < 0)
  {
    best := -1;
    var i := 0;
    while i < |candidates|
      invariant 0 <= i <= |candidates| && -1 <= best < i
      invariant best == -1 ==> forall k :: 0 <= k < i ==> !admit(candidates[k])
      invariant best != -1 ==> admit(candidates[best])
      invariant best != -1 ==> forall k :: 0 <= k < i && admit(candidates[k]) ==>
        compare(candidates[best].address, candidates[k].address) <= 0
      invariant best != -1 ==> forall k :: 0 <= k < best && admit(candidates[k]) ==>
        compare(candidates[best].address, candidates[k].address) < 0
    {
      if admit(candidates[i]) {
        if best == -1 || compare(candidates[i].address, candidates[best].address) < 0 {
          best := i;
        }
      }
      i := i + 1;
    }
  }

  ghost predicate InClass<A>(candidates: seq<Candidate<A>>, authRequired: bool, i: int) {
    0 <= i < |candidates| && candidates[i].authRequired == authRequired
  }

  /** The preferred class decides whenever it has a member; the other one only then. */
  ghost predicate IsSelected<A>(candidates: seq<Candidate<A>>, wanted: bool, compare: (A, A) -> int, best: int) {
    if best == -1 then candidates == []
    else
      && 0 <= best < |candidates|
      && (candidates[best].authRequired != wanted ==> forall i :: !InClass(candidates, wanted, i))
      && forall i :: InClass(candidates, candidates[best].authRequired, i) ==>
        compare(candidates[best].address, candidates[i].address) <= 0
  }

  method CanonicalFirst<A(
    !new)>(candidates: seq<Candidate<A>>, authRequired: bool, compare: (A, A) -> int) returns (best: int)
    requires TotalPreorder(compare)
    ensures best == -1 <==> forall i :: !InClass(candidates, authRequired, i)
    ensures best != -1 ==> InClass(candidates, authRequired, best)
    ensures best != -1 ==> forall i :: InClass(candidates, authRequired, i) ==>
      compare(candidates[best].address, candidates[i].address) <= 0
  {
    var admit := (c: Candidate<A>) => c.authRequired == authRequired;
    best := CanonicalMinimum(candidates, admit, compare);
    assert forall i :: InClass(candidates, authRequired, i) <==> Admits(candidates, admit, i);
  }

  method SelectPath<A(!new)>(candidates: seq<Candidate<A>>, wantAuthRequired: bool, compare: (A, A) -> int)
    returns (best: int)
    requires TotalPreorder(compare)
    ensures IsSelected(candidates, wantAuthRequired, compare, best)
    ensures best == -1 <==> candidates == []
    ensures best != -1 ==>
      && 0 <= best < |candidates|
      && (candidates[best].authRequired == wantAuthRequired <==>
        exists c :: c in candidates && c.authRequired == wantAuthRequired)
      && forall c :: c in candidates && c.authRequired == candidates[best].authRequired ==>
        compare(candidates[best].address, c.address) <= 0
  {
    assert candidates != [] ==> InClass(candidates, wantAuthRequired, 0) || InClass(candidates, !wantAuthRequired, 0);
    best := CanonicalFirst(candidates, wantAuthRequired, compare);
    forall c | c in candidates ensures exists i :: InClass(candidates, c.authRequired, i) && candidates[i] == c {
      PlaceOf(candidates, c);
    }
    if best != -1 {
      return;
    }
    best := CanonicalFirst(candidates, !wantAuthRequired, compare);
  }

  /** Whatever order the candidates arrive in, the same address is chosen, from the
  same class. */
  lemma SelectionIsStable<A(!new)>(
    a: seq<Candidate<A>>, b: seq<Candidate<A>>, wanted: bool, compare: (A, A) -> int, i: int, j: int)
    requires TotalPreorder(compare) && forall x, y :: compare(x, y) == 0 ==> x == y
    requires multiset(a) == multiset(b)
    requires IsSelected(a, wanted, compare, i) && IsSelected(b, wanted, compare, j)
    ensures i == -1 <==> j == -1
    ensures i != -1 ==> a[i] == b[j]
  {
    SameElements(a, b);
    if i != -1 && j != -1 {
      SameClass(a, b, wanted, compare, i, j);
      Below(a, b, wanted, compare, i, j);
      Below(b, a, wanted, compare, j, i);
      assert compare(a[i].address, b[j].address) == 0;
    }
  }

  lemma SameClass<A(!new)>(
    a: seq<Candidate<A>>, b: seq<Candidate<A>>, wanted: bool, compare: (A, A) -> int, i: int, j: int)
    requires i != -1 && j != -1 && forall c :: c in a <==> c in b
    requires IsSelected(a, wanted, compare, i) && IsSelected(b, wanted, compare, j)
    ensures a[i].authRequired == b[j].authRequired
  {
    if a[i].authRequired == wanted {
      PlaceOf(b, a[i]);
    } else {
      PlaceOf(a, b[j]);
    }
  }

  lemma PlaceOf<A>(s: seq<Candidate<A>>, c: Candidate<A>)
    requires c in s
    ensures exists k :: InClass(s, c.authRequired, k) && s[k] == c
  {
    var k :| 0 <= k < |s| && s[k] == c;
    assert InClass(s, c.authRequired, k);
  }

  lemma Below<A(!new)>(
    a: seq<Candidate<A>>, b: seq<Candidate<A>>, wanted: bool, compare: (A, A) -> int, i: int, j: int)
    requires i != -1 && j != -1 && (forall c :: c in a <==> c in b)
    requires IsSelected(a, wanted, compare, i) && IsSelected(b, wanted, compare, j)
    requires a[i].authRequired == b[j].authRequired
    ensures compare(a[i].address, b[j].address) <= 0
  {
    PlaceOf(a, b[j]);
  }
}
