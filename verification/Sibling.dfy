/** What happened to the subjects reached from one node: three outcomes, never two. */
module Siblings {
  import opened Orders
  import opened Evidences
  import opened Graphs
  import opened GraphQueries

  datatype SiblingCounts = SiblingCounts(passed: seq<Subject>, failed: seq<Subject>, notMeasured: seq<Subject>)

  /** A child of the node that is about the subject and ended in one of the states. */
  ghost predicate ChildEnded(g: Graph, id: EvidenceID, s: Subject, states: set<State>) {
    exists c :: c in g.Children(id) && c in g.nodes && g.nodes[c].subject == s && g.nodes[c].state in states
  }

  const BROKEN := {Fail, Degraded}
  const OPEN := {Unknown, Skipped}

  ghost predicate Reached(g: Graph, id: EvidenceID, s: Subject) {
    ChildEnded(g, id, s, BROKEN + OPEN + {Pass})
  }

  /** The worst outcome decides: any failure, else anything open, else it passed. */
  ghost predicate AreCounts(g: Graph, id: EvidenceID, counts: SiblingCounts) {
    && StrictlySorted(counts.passed, CompareSubjects)
    && StrictlySorted(counts.failed, CompareSubjects)
    && StrictlySorted(counts.notMeasured, CompareSubjects)
    && (forall s :: s in counts.failed <==> ChildEnded(g, id, s, BROKEN))
    && (forall s :: s in counts.notMeasured <==> ChildEnded(g, id, s, OPEN) && !ChildEnded(g, id, s, BROKEN))
    && (forall s :: s in counts.passed <==> Reached(g, id, s) && !ChildEnded(g, id, s, OPEN + BROKEN))
  }

  method ClassifySubject(nodes: seq<Evidence>) returns (state: State)
    ensures state == Fail <==> exists e :: e in nodes && e.state in BROKEN
    ensures state == Pass <==> nodes != [] && forall e :: e in nodes ==> e.state == Pass
    ensures state == Fail || state == Pass || state == Unknown
    ensures state == Fail <==> exists e :: e in nodes && (e.state == Fail || e.state == Degraded)
  {
    var sawPass := false;
    var i := 0;
    while i < |nodes|
      invariant 0 <= i <= |nodes|
      invariant forall k :: 0 <= k < i ==> nodes[k].state !in BROKEN
      invariant sawPass <==> exists k :: 0 <= k < i && nodes[k].state == Pass
    {
      if nodes[i].state == Fail || nodes[i].state == Degraded {
        return Fail;
      }
      if nodes[i].state == Pass {
        sawPass := true;
      }
      i := i + 1;
    }
    assert nodes != [] && !sawPass ==> nodes[0].state != Pass;
    i := 0;
    while i < |nodes|
      invariant 0 <= i <= |nodes|
      invariant forall k :: 0 <= k < i ==> nodes[k].state == Pass
    {
      if nodes[i].state == Unknown || nodes[i].state == Skipped {
        assert nodes[i] in nodes;
        return Unknown;
      }
      i := i + 1;
    }
    if sawPass {
      return Pass;
    }
    return Unknown;
  }

  /** The children about each subject, among the first n. */
  ghost predicate Gathered(
    g: Graph, ids: seq<EvidenceID>, n: nat, bySubject: map<Subject, seq<Evidence>>, subjects: seq<Subject>)
  {
    && n <= |ids| && Distinct(subjects)
    && (forall s :: s in subjects <==> s in bySubject)
    && (forall s :: s in bySubject ==> bySubject[s] != [])
    && AreChildren(g, ids, n, bySubject)
    && AllFiled(g, ids, n, bySubject)
  }

  ghost predicate AreChildren(g: Graph, ids: seq<EvidenceID>, n: nat, bySubject: map<Subject, seq<Evidence>>) {
    forall s, e :: s in bySubject && e in bySubject[s] ==> e.subject == s && IsAmong(g, ids, n, e)
  }

  ghost predicate IsAmong(g: Graph, ids: seq<EvidenceID>, n: nat, e: Evidence) {
    exists k :: 0 <= k < n && k < |ids| && IsNode(g, ids[k], e)
  }

  ghost predicate AllFiled(g: Graph, ids: seq<EvidenceID>, n: nat, bySubject: map<Subject, seq<Evidence>>)
    requires n <= |ids|
  {
    forall k :: 0 <= k < n && ids[k] in g.nodes ==>
      g.nodes[ids[k]].subject in bySubject && g.nodes[ids[k]] in bySubject[g.nodes[ids[k]].subject]
  }

  ghost predicate IsNode(g: Graph, id: EvidenceID, e: Evidence) {
    id in g.nodes && g.nodes[id] == e
  }

  function File(bySubject: map<Subject, seq<Evidence>>, e: Evidence): map<Subject, seq<Evidence>> {
    bySubject[e.subject := (if e.subject in bySubject then bySubject[e.subject] else []) + [e]]
  }

  lemma AmongNext(g: Graph, ids: seq<EvidenceID>, n: nat, e: Evidence)
    requires n < |ids|
    ensures IsAmong(g, ids, n, e) ==> IsAmong(g, ids, n + 1, e)
    ensures IsNode(g, ids[n], e) ==> IsAmong(g, ids, n + 1, e)
  {
  }

  lemma FileChild(g: Graph, ids: seq<EvidenceID>, n: nat, bySubject: map<Subject, seq<Evidence>>, e: Evidence)
    requires AreChildren(g, ids, n, bySubject) && n < |ids| && IsNode(g, ids[n], e)
    ensures AreChildren(g, ids, n + 1, File(bySubject, e))
  {
    hide IsAmong;
    var after := File(bySubject, e);
    forall s: Subject, x: Evidence | s in after && x in after[s] ensures x.subject == s && IsAmong(g, ids, n + 1, x) {
      AmongNext(g, ids, n, x);
      assert x == e || (s in bySubject && x in bySubject[s]);
    }
  }

  lemma FileAll(g: Graph, ids: seq<EvidenceID>, n: nat, bySubject: map<Subject, seq<Evidence>>, e: Evidence)
    requires n < |ids| && AllFiled(g, ids, n, bySubject) && IsNode(g, ids[n], e)
    ensures AllFiled(g, ids, n + 1, File(bySubject, e))
  {
    var after := File(bySubject, e);
    assert e in after[e.subject];
    assert forall s, x :: s in bySubject && x in bySubject[s] ==> s in after && x in after[s];
  }

  lemma GatherNext(
    g: Graph, ids: seq<EvidenceID>, n: nat, bySubject: map<Subject, seq<Evidence>>, subjects: seq<Subject>)
    requires Gathered(g, ids, n, bySubject, subjects) && n < |ids| && ids[n] in g.nodes
    ensures var e := g.nodes[ids[n]];
      Gathered(g, ids, n + 1, File(bySubject, e), if e.subject in bySubject then subjects else subjects + [e.subject])
  {
    hide AreChildren, AllFiled;
    var e := g.nodes[ids[n]];
    FileChild(g, ids, n, bySubject, e);
    FileAll(g, ids, n, bySubject, e);
  }

  lemma GatheredEnds(
    g: Graph, id: EvidenceID, bySubject: map<Subject, seq<Evidence>>, subjects: seq<Subject>, s: Subject,
    states: set<State>)
    requires Gathered(g, g.Children(id), |g.Children(id)|, bySubject, subjects)
    ensures ChildEnded(g, id, s, states) <==> s in bySubject && exists e :: e in bySubject[s] && e.state in states
  {
    if s in bySubject {
      forall e | e in bySubject[s] && e.state in states ensures ChildEnded(g, id, s, states) {
        var k :| 0 <= k < |g.Children(id)| && IsNode(g, g.Children(id)[k], e);
      }
    }
  }

  /** The categories so far, over the subjects already classified. */
  ghost predicate Sorted3(g: Graph, id: EvidenceID, subjects: seq<Subject>, n: nat, counts: SiblingCounts) {
    && n <= |subjects|
    && IsSublist(counts.failed, subjects, n, s => ChildEnded(g, id, s, BROKEN))
    && IsSublist(counts.notMeasured, subjects, n, s => ChildEnded(g, id, s, OPEN) && !ChildEnded(g, id, s, BROKEN))
    && IsSublist(counts.passed, subjects, n, s => Reached(g, id, s) && !ChildEnded(g, id, s, OPEN + BROKEN))
  }

  /** The members of a sorted list that satisfy p, in the same order. */
  ghost predicate IsSublist(out: seq<Subject>, subjects: seq<Subject>, n: nat, p: Subject -> bool)
    requires n <= |subjects|
  {
    && StrictlySorted(out, CompareSubjects)
    && forall s :: s in out <==> s in subjects[..n] && p(s)
  }

  lemma SublistNext(out: seq<Subject>, subjects: seq<Subject>, n: nat, p: Subject -> bool)
    requires n < |subjects| && StrictlySorted(subjects, CompareSubjects) && IsSublist(out, subjects, n, p)
    ensures IsSublist(if p(subjects[n]) then out + [subjects[n]] else out, subjects, n + 1, p)
  {
    hide CompareSubjects;
    assert subjects[..n + 1] == subjects[..n] + [subjects[n]];
    forall s | s in out ensures CompareSubjects(s, subjects[n]) < 0 {
      var k :| 0 <= k < n && subjects[k] == s;
    }
  }

  /** A child about the subject, and the three categories told on children and states alone. */
  ghost predicate ChildAbout(g: Graph, id: EvidenceID, s: Subject, c: EvidenceID) {
    c in g.Children(id) && c in g.nodes && g.nodes[c].subject == s
  }

  ghost predicate CountsSay(g: Graph, id: EvidenceID, counts: SiblingCounts) {
    && (forall s :: s in counts.failed <==>
      exists c :: ChildAbout(g, id, s, c) && (g.nodes[c].state == Fail || g.nodes[c].state == Degraded))
    && (forall s :: s in counts.passed <==>
      (exists c :: ChildAbout(g, id, s, c)) && forall c :: ChildAbout(g, id, s, c) ==> g.nodes[c].state == Pass)
    && (forall s :: s in counts.notMeasured <==>
      && (exists c :: ChildAbout(g, id, s, c) && (g.nodes[c].state == Unknown || g.nodes[c].state == Skipped))
      && forall c :: ChildAbout(g, id, s, c) ==> g.nodes[c].state != Fail && g.nodes[c].state != Degraded)
    && SubjectsInOrder(counts.passed) && SubjectsInOrder(counts.failed) && SubjectsInOrder(counts.notMeasured)
  }

  ghost predicate SubjectsInOrder(subjects: seq<Subject>) {
    forall i, j :: 0 <= i < j < |subjects| ==> SubjectFirst(subjects[i], subjects[j])
  }

  lemma StrictIsInOrder(subjects: seq<Subject>)
    requires StrictlySorted(subjects, CompareSubjects)
    ensures SubjectsInOrder(subjects)
  {
    hide SubjectFirst, CompareSubjects;
    forall i, j | 0 <= i < j < |subjects| ensures SubjectFirst(subjects[i], subjects[j]) {
      SubjectOrderReads(subjects[i], subjects[j]);
    }
  }

  lemma StatesAre()
    ensures forall state: State :: state == Pass || state in BROKEN || state in OPEN
  {
  }

  lemma EndedAbout(g: Graph, id: EvidenceID, s: Subject, states: set<State>)
    ensures ChildEnded(g, id, s, states) <==> exists c :: ChildAbout(g, id, s, c) && g.nodes[c].state in states
  {
    if ChildEnded(g, id, s, states) {
      var c :| c in g.Children(id) && c in g.nodes && g.nodes[c].subject == s && g.nodes[c].state in states;
      assert ChildAbout(g, id, s, c);
    }
  }

  lemma CountsRead(g: Graph, id: EvidenceID, counts: SiblingCounts)
    requires AreCounts(g, id, counts)
    ensures CountsSay(g, id, counts)
  {
    hide StrictlySorted, SubjectsInOrder, ChildEnded;
    StrictIsInOrder(counts.passed);
    StrictIsInOrder(counts.failed);
    StrictIsInOrder(counts.notMeasured);
    forall s
      ensures s in counts.failed <==>
        exists c :: ChildAbout(g, id, s, c) && (g.nodes[c].state == Fail || g.nodes[c].state == Degraded)
      ensures s in counts.passed <==>
        (exists c :: ChildAbout(g, id, s, c)) && forall c :: ChildAbout(g, id, s, c) ==> g.nodes[c].state == Pass
      ensures s in counts.notMeasured <==>
        && (exists c :: ChildAbout(g, id, s, c) && (g.nodes[c].state == Unknown || g.nodes[c].state == Skipped))
        && forall c :: ChildAbout(g, id, s, c) ==> g.nodes[c].state != Fail && g.nodes[c].state != Degraded
    {
      EndedAbout(g, id, s, BROKEN);
      EndedAbout(g, id, s, OPEN);
      EndedAbout(g, id, s, OPEN + BROKEN);
      EndedAbout(g, id, s, BROKEN + OPEN + {Pass});
      StatesAre();
    }
  }

  method SiblingOutcome(g: Graph, id: EvidenceID) returns (counts: SiblingCounts)
    requires Frozen(g)
    ensures AreCounts(g, id, counts)
    ensures CountsSay(g, id, counts)
  {
    hide Frozen, Gathered, File, Sorted3, AreCounts, CompareSubjects, StrictlySorted, ChildEnded, IsSublist, Reached,
      CountsSay;
    ChildrenPresent(g, id);
    var ids := g.Children(id);
    var bySubject: map<Subject, seq<Evidence>> := map[];
    var subjects: seq<Subject> := [];
    GatherStarts(g, ids);
    var i := 0;
    while i < |ids|
      invariant 0 <= i <= |ids|
      invariant Gathered(g, ids, i, bySubject, subjects)
    {
      var node := g.nodes[ids[i]];
      GatherNext(g, ids, i, bySubject, subjects);
      if node.subject !in bySubject {
        subjects := subjects + [node.subject];
      }
      bySubject := File(bySubject, node);
      i := i + 1;
    }
    SubjectOrder();
    GatheredSubjects(g, ids, bySubject, subjects);
    ghost var gathered := subjects;
    subjects := SortDistinctFunc(subjects, CompareSubjects);
    counts := SiblingCounts([], [], []);
    SortStarts(g, id, subjects);
    i := 0;
    while i < |subjects|
      invariant 0 <= i <= |subjects|
      invariant Sorted3(g, id, subjects, i, counts)
    {
      assert subjects[i] in subjects;
      var state := ClassifySubject(bySubject[subjects[i]]);
      Classified(g, id, bySubject, gathered, subjects[i], state);
      SortNext(g, id, subjects, i, counts);
      match state {
        case Fail => counts := counts.(failed := counts.failed + [subjects[i]]);
        case Pass => counts := counts.(passed := counts.passed + [subjects[i]]);
        case _ => counts := counts.(notMeasured := counts.notMeasured + [subjects[i]]);
      }
      i := i + 1;
    }
    SortedAll(g, id, bySubject, gathered, subjects, counts);
    CountsRead(g, id, counts);
  }

  /** Every child is a node, and every node has a subject. */
  lemma ChildrenPresent(g: Graph, id: EvidenceID)
    requires Frozen(g)
    ensures forall k :: 0 <= k < |g.Children(id)| ==> g.Children(id)[k] in g.nodes
  {
    hide Frozen;
    forall k | 0 <= k < |g.Children(id)| ensures g.Children(id)[k] in g.nodes {
      ChildrenInvertParents(g, g.Children(id)[k], id);
    }
  }

  lemma GatherStarts(g: Graph, ids: seq<EvidenceID>)
    ensures Gathered(g, ids, 0, map[], [])
  {
  }

  lemma GatheredSubjects(g: Graph, ids: seq<EvidenceID>, bySubject: map<Subject, seq<Evidence>>, subjects: seq<Subject>)
    requires Gathered(g, ids, |ids|, bySubject, subjects)
    ensures Distinct(subjects) && forall s :: s in subjects <==> s in bySubject
  {
  }

  lemma SortStarts(g: Graph, id: EvidenceID, subjects: seq<Subject>)
    ensures Sorted3(g, id, subjects, 0, SiblingCounts([], [], []))
  {
  }

  /** One classified subject goes to exactly one of the three lists. */
  lemma Classified(
    g: Graph, id: EvidenceID, bySubject: map<Subject, seq<Evidence>>, subjects: seq<Subject>, s: Subject, state: State)
    requires Gathered(g, g.Children(id), |g.Children(id)|, bySubject, subjects) && s in bySubject
    requires state == Fail <==> exists e :: e in bySubject[s] && e.state in BROKEN
    requires state == Pass <==> bySubject[s] != [] && forall e :: e in bySubject[s] ==> e.state == Pass
    ensures Reached(g, id, s)
    ensures state == Fail <==> ChildEnded(g, id, s, BROKEN)
    ensures state == Pass <==> !ChildEnded(g, id, s, OPEN + BROKEN)
    ensures state != Fail && state != Pass ==> ChildEnded(g, id, s, OPEN)
  {
    hide ChildEnded;
    GatheredEnds(g, id, bySubject, subjects, s, BROKEN);
    GatheredEnds(g, id, bySubject, subjects, s, OPEN);
    GatheredEnds(g, id, bySubject, subjects, s, OPEN + BROKEN);
    GatheredEnds(g, id, bySubject, subjects, s, BROKEN + OPEN + {Pass});
    var e := bySubject[s][0];
    assert e in bySubject[s] && e.state in BROKEN + OPEN + {Pass};
  }

  lemma SortNext(g: Graph, id: EvidenceID, subjects: seq<Subject>, n: nat, counts: SiblingCounts)
    requires Sorted3(g, id, subjects, n, counts) && n < |subjects| && StrictlySorted(subjects, CompareSubjects)
    requires Reached(g, id, subjects[n])
    ensures ChildEnded(g, id, subjects[n], BROKEN) ==>
      Sorted3(g, id, subjects, n + 1, counts.(failed := counts.failed + [subjects[n]]))
    ensures !ChildEnded(g, id, subjects[n], OPEN + BROKEN) ==>
      Sorted3(g, id, subjects, n + 1, counts.(passed := counts.passed + [subjects[n]]))
    ensures !ChildEnded(g, id, subjects[n], BROKEN) && ChildEnded(g, id, subjects[n], OPEN) ==>
      Sorted3(g, id, subjects, n + 1, counts.(notMeasured := counts.notMeasured + [subjects[n]]))
  {
    hide IsSublist, StrictlySorted, ChildEnded, Reached;
    Wider(g, id, subjects[n]);
    SublistNext(counts.failed, subjects, n, s => ChildEnded(g, id, s, BROKEN));
    SublistNext(counts.notMeasured, subjects, n, s => ChildEnded(g, id, s, OPEN) && !ChildEnded(g, id, s, BROKEN));
    SublistNext(counts.passed, subjects, n, s => Reached(g, id, s) && !ChildEnded(g, id, s, OPEN + BROKEN));
  }

  lemma Wider(g: Graph, id: EvidenceID, s: Subject)
    ensures ChildEnded(g, id, s, OPEN + BROKEN) <==> ChildEnded(g, id, s, OPEN) || ChildEnded(g, id, s, BROKEN)
    ensures ChildEnded(g, id, s, OPEN + BROKEN) ==> Reached(g, id, s)
  {
  }

  lemma SortedAll(
    g: Graph, id: EvidenceID, bySubject: map<Subject, seq<Evidence>>, gathered: seq<Subject>, subjects: seq<Subject>,
    counts: SiblingCounts)
    requires Gathered(g, g.Children(id), |g.Children(id)|, bySubject, gathered)
    requires forall s :: s in subjects <==> s in gathered
    requires Sorted3(g, id, subjects, |subjects|, counts)
    ensures AreCounts(g, id, counts)
  {
    hide StrictlySorted, ChildEnded, Reached;
    assert subjects[..|subjects|] == subjects;
    forall s ensures Reached(g, id, s) ==> s in subjects {
      ReachedIsGathered(g, id, bySubject, gathered, s);
    }
    forall s ensures ChildEnded(g, id, s, BROKEN) || ChildEnded(g, id, s, OPEN) ==> s in subjects {
      Wider(g, id, s);
    }
  }

  lemma ReachedIsGathered(
    g: Graph, id: EvidenceID, bySubject: map<Subject, seq<Evidence>>, gathered: seq<Subject>, s: Subject)
    requires Gathered(g, g.Children(id), |g.Children(id)|, bySubject, gathered)
    ensures Reached(g, id, s) ==> s in gathered
  {
  }

  /** Every subject reached is in exactly one category. */
  lemma CategoriesPartition(g: Graph, id: EvidenceID, counts: SiblingCounts, s: Subject)
    requires AreCounts(g, id, counts)
    ensures Reached(g, id, s) <==> s in counts.passed || s in counts.failed || s in counts.notMeasured
    ensures !(s in counts.passed && s in counts.failed)
    ensures !(s in counts.passed && s in counts.notMeasured)
    ensures !(s in counts.failed && s in counts.notMeasured)
  {
    hide StrictlySorted, ChildEnded, Reached;
    Wider(g, id, s);
  }
}
