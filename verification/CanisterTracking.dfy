/** Which canisters a set of parent/child reports makes known, and to which project they belong. */
module Ancestry {
  import opened Primitives

  datatype Mapping = Mapping(child: Principal, parent: Principal)

  // What the two repositories say together: the project of every tracked principal, and the
  // reported parent of every orphan.
  datatype View = View(tracked: map<Principal, ProjectId>, orphans: map<Principal, Principal>)

  // No principal is both tracked and an orphan, and every orphan's parent is still unknown.
  ghost predicate Settled(v: View) {
    && v.tracked.Keys !! v.orphans.Keys
    && forall c :: c in v.orphans ==> v.orphans[c] !in v.tracked
  }

  // Follow at most `n` parent links from `p` to a root, and take the root's project.
  ghost function Climb(roots: map<Principal, ProjectId>, parents: map<Principal, Principal>, p: Principal, n: nat):
    Option<ProjectId>
    decreases n
  {
    if p in roots then Some(roots[p])
    else if n == 0 || p !in parents then None
    else Climb(roots, parents, parents[p], n - 1)
  }

  // The project of the first root above `p`, when the parent links reach one.
  ghost function ProjectAbove(roots: map<Principal, ProjectId>, parents: map<Principal, Principal>, p: Principal):
    Option<ProjectId>
  {
    if exists n: nat :: Climb(roots, parents, p, n).Some? then
      var n: nat :| Climb(roots, parents, p, n).Some?;
      Climb(roots, parents, p, n)
    else None
  }

  // The order-free meaning of a set of reports: everything that hangs below a root is tracked
  // under that root's project, and the rest stay orphans.
  ghost function Closure(roots: map<Principal, ProjectId>, parents: map<Principal, Principal>): View {
    View(
      map p | p in roots.Keys + parents.Keys && ProjectAbove(roots, parents, p).Some? ::
        ProjectAbove(roots, parents, p).value,
      map p | p in parents && ProjectAbove(roots, parents, p).None? :: parents[p])
  }

  // One report: a child that is already known is skipped, any other is added with its parent
  // and the view closed again.
  ghost function Report(v: View, m: Mapping): View {
    if m.child in v.tracked || m.child in v.orphans then v
    else Closure(v.tracked, v.orphans[m.child := m.parent])
  }

  ghost function ReportAll(v: View, ms: seq<Mapping>): View {
    if ms == [] then v
    else Report(ReportAll(v, ms[..|ms| - 1]), ms[|ms| - 1])
  }

  // The parent links that count: the orphans of `v`, then the first report of every new child.
  ghost function FirstReports(v: View, ms: seq<Mapping>): map<Principal, Principal> {
    if ms == [] then v.orphans
    else
      var before := FirstReports(v, ms[..|ms| - 1]);
      var m := ms[|ms| - 1];
      if m.child in v.tracked || m.child in before then before
      else before[m.child := m.parent]
  }

  lemma {:induction false} ClimbFurther(
    roots: map<Principal, ProjectId>, parents: map<Principal, Principal>, p: Principal, n: nat, m: nat)
    requires n <= m && Climb(roots, parents, p, n).Some?
    ensures Climb(roots, parents, p, m) == Climb(roots, parents, p, n)
    decreases n
  {
    if p !in roots {
      ClimbFurther(roots, parents, parents[p], n - 1, m - 1);
    }
  }

  lemma ProjectAboveIs(roots: map<Principal, ProjectId>, parents: map<Principal, Principal>, p: Principal, n: nat)
    requires Climb(roots, parents, p, n).Some?
    ensures ProjectAbove(roots, parents, p) == Climb(roots, parents, p, n)
  {
    var m: nat :| Climb(roots, parents, p, m).Some? && ProjectAbove(roots, parents, p) == Climb(roots, parents, p, m);
    if n <= m {
      ClimbFurther(roots, parents, p, n, m);
    } else {
      ClimbFurther(roots, parents, p, m, n);
    }
  }

  // The project above `p` is `p`'s own when it is a root, and otherwise the one above its parent.
  lemma ProjectAboveStep(roots: map<Principal, ProjectId>, parents: map<Principal, Principal>, p: Principal)
    ensures ProjectAbove(roots, parents, p) ==
            if p in roots then Some(roots[p])
            else if p in parents then ProjectAbove(roots, parents, parents[p])
            else None
  {
    if p in roots {
      assert Climb(roots, parents, p, 0).Some?;
      ProjectAboveIs(roots, parents, p, 0);
    } else if p in parents {
      if n: nat :| Climb(roots, parents, parents[p], n).Some? {
        assert Climb(roots, parents, p, n + 1) == Climb(roots, parents, parents[p], n);
        ProjectAboveIs(roots, parents, p, n + 1);
        ProjectAboveIs(roots, parents, parents[p], n);
      } else {
        assert forall n: nat :: n > 0 ==> Climb(roots, parents, p, n) == Climb(roots, parents, parents[p], n - 1);
      }
    } else {
      assert forall n: nat :: Climb(roots, parents, p, n).None?;
    }
  }

  // (r2, e2) explains every root and every link of (r1, e1).
  ghost predicate Explains(
    r2: map<Principal, ProjectId>, e2: map<Principal, Principal>,
    r1: map<Principal, ProjectId>, e1: map<Principal, Principal>)
  {
    && (forall p :: p in r1 ==> ProjectAbove(r2, e2, p) == Some(r1[p]))
    && (forall p :: p in e1 && p !in r1 ==> ProjectAbove(r2, e2, p) == ProjectAbove(r2, e2, e1[p]))
  }

  lemma {:induction false} ExplainedClimb(
    r2: map<Principal, ProjectId>, e2: map<Principal, Principal>,
    r1: map<Principal, ProjectId>, e1: map<Principal, Principal>, p: Principal, n: nat)
    requires Explains(r2, e2, r1, e1) && Climb(r1, e1, p, n).Some?
    ensures ProjectAbove(r2, e2, p) == Climb(r1, e1, p, n)
    decreases n
  {
    if p !in r1 {
      ExplainedClimb(r2, e2, r1, e1, e1[p], n - 1);
    }
  }

  // Two descriptions that explain each other give every principal the same project.
  lemma SameProjects(
    r1: map<Principal, ProjectId>, e1: map<Principal, Principal>,
    r2: map<Principal, ProjectId>, e2: map<Principal, Principal>, p: Principal)
    requires Explains(r2, e2, r1, e1) && Explains(r1, e1, r2, e2)
    ensures ProjectAbove(r1, e1, p) == ProjectAbove(r2, e2, p)
  {
    if n: nat :| Climb(r1, e1, p, n).Some? {
      ProjectAboveIs(r1, e1, p, n);
      ExplainedClimb(r2, e2, r1, e1, p, n);
    }
    if n: nat :| Climb(r2, e2, p, n).Some? {
      ProjectAboveIs(r2, e2, p, n);
      ExplainedClimb(r1, e1, r2, e2, p, n);
    }
  }

  // Adopting one orphan whose parent is tracked leaves the closure as it was.
  lemma AdoptKeepsClosure(v: View, c: Principal)
    requires v.tracked.Keys !! v.orphans.Keys
    requires c in v.orphans && v.orphans[c] in v.tracked
    ensures Closure(v.tracked[c := v.tracked[v.orphans[c]]], v.orphans - {c}) == Closure(v.tracked, v.orphans)
  {
    var r2, e2 := v.tracked[c := v.tracked[v.orphans[c]]], v.orphans - {c};
    forall p | p in v.tracked ensures ProjectAbove(r2, e2, p) == Some(v.tracked[p]) {
      ProjectAboveStep(r2, e2, p);
    }
    forall p | p in v.orphans ensures ProjectAbove(r2, e2, p) == ProjectAbove(r2, e2, v.orphans[p]) {
      ProjectAboveStep(r2, e2, p);
      ProjectAboveStep(r2, e2, v.orphans[p]);
    }
    forall p | p in r2 ensures ProjectAbove(v.tracked, v.orphans, p) == Some(r2[p]) {
      ProjectAboveStep(v.tracked, v.orphans, p);
      ProjectAboveStep(v.tracked, v.orphans, v.orphans[c]);
    }
    forall p | p in e2 ensures ProjectAbove(v.tracked, v.orphans, p) == ProjectAbove(v.tracked, v.orphans, e2[p]) {
      ProjectAboveStep(v.tracked, v.orphans, p);
    }
    forall p ensures ProjectAbove(v.tracked, v.orphans, p) == ProjectAbove(r2, e2, p) {
      SameProjects(v.tracked, v.orphans, r2, e2, p);
    }
  }

  // A settled view is its own closure.
  lemma SettledIsClosed(v: View)
    requires Settled(v)
    ensures Closure(v.tracked, v.orphans) == v
  {
    forall p ensures ProjectAbove(v.tracked, v.orphans, p) == if p in v.tracked then Some(v.tracked[p]) else None {
      ProjectAboveStep(v.tracked, v.orphans, p);
      if p in v.orphans && p !in v.tracked {
        OrphanStaysUnresolved(v, p);
      }
    }
  }

  lemma OrphanStaysUnresolved(v: View, p: Principal)
    requires Settled(v) && p !in v.tracked
    ensures ProjectAbove(v.tracked, v.orphans, p).None?
  {
    if n: nat :| Climb(v.tracked, v.orphans, p, n).Some? {
      NeverClimbs(v, p, n);
    }
  }

  lemma {:induction false} NeverClimbs(v: View, p: Principal, n: nat)
    requires Settled(v) && p !in v.tracked
    ensures Climb(v.tracked, v.orphans, p, n).None?
    decreases n
  {
    if n > 0 && p in v.orphans {
      NeverClimbs(v, v.orphans[p], n - 1);
    }
  }

  lemma ClosureIsSettled(roots: map<Principal, ProjectId>, parents: map<Principal, Principal>)
    ensures Settled(Closure(roots, parents))
  {
    var v := Closure(roots, parents);
    forall c | c in v.orphans ensures v.orphans[c] !in v.tracked {
      ProjectAboveStep(roots, parents, c);
    }
  }

  lemma LinkExplainsClosure(roots: map<Principal, ProjectId>, parents: map<Principal, Principal>, m: Mapping)
    requires m.child !in roots && m.child !in parents
    ensures var v := Closure(roots, parents);
            Explains(roots, parents[m.child := m.parent], v.tracked, v.orphans[m.child := m.parent])
  {
    var v := Closure(roots, parents);
    var e1, e2 := v.orphans[m.child := m.parent], parents[m.child := m.parent];
    forall p | p in v.tracked ensures ProjectAbove(roots, e2, p) == Some(v.tracked[p]) {
      var n: nat :| Climb(roots, parents, p, n).Some?;
      ProjectAboveIs(roots, parents, p, n);
      MoreLinks(roots, parents, e2, p, n);
      ProjectAboveIs(roots, e2, p, n);
    }
    forall p | p in e1 && p !in v.tracked ensures ProjectAbove(roots, e2, p) == ProjectAbove(roots, e2, e1[p]) {
      ProjectAboveStep(roots, parents, p);
      ProjectAboveStep(roots, e2, p);
    }
  }

  lemma ClosureExplainsLink(roots: map<Principal, ProjectId>, parents: map<Principal, Principal>, m: Mapping)
    requires m.child !in roots && m.child !in parents
    ensures var v := Closure(roots, parents);
            Explains(v.tracked, v.orphans[m.child := m.parent], roots, parents[m.child := m.parent])
  {
    var v := Closure(roots, parents);
    var e1, e2 := v.orphans[m.child := m.parent], parents[m.child := m.parent];
    ReachableClosure(roots, parents);
    forall p | p in roots ensures ProjectAbove(v.tracked, e1, p) == Some(roots[p]) {
      ProjectAboveStep(roots, parents, p);
      ProjectAboveStep(v.tracked, e1, p);
    }
    forall p | p in e2 && p !in roots
      ensures ProjectAbove(v.tracked, e1, p) == ProjectAbove(v.tracked, e1, e2[p])
    {
      ProjectAboveStep(roots, parents, p);
      ProjectAboveStep(v.tracked, e1, p);
      ProjectAboveStep(v.tracked, e1, e2[p]);
    }
  }

  // Closing after every new link gives the same as closing once at the end.
  lemma ClosureAbsorbs(roots: map<Principal, ProjectId>, parents: map<Principal, Principal>, m: Mapping)
    requires m.child !in roots && m.child !in parents
    ensures var v := Closure(roots, parents);
            Closure(v.tracked, v.orphans[m.child := m.parent]) == Closure(roots, parents[m.child := m.parent])
  {
    var v := Closure(roots, parents);
    var e1, e2 := v.orphans[m.child := m.parent], parents[m.child := m.parent];
    forall p ensures ProjectAbove(v.tracked, e1, p) == ProjectAbove(roots, e2, p) {
      LinkExplainsClosure(roots, parents, m);
      ClosureExplainsLink(roots, parents, m);
      SameProjects(v.tracked, e1, roots, e2, p);
    }
    forall p | ProjectAbove(roots, e2, p).None?
      ensures p in e1 <==> p in e2
      ensures p in e1 ==> e1[p] == e2[p]
    {
      NoMoreLinks(roots, parents, m, p);
    }
    ClosuresAgree(v.tracked, e1, roots, e2);
  }

  // A closure is determined by the projects it gives and by its unresolved links.
  lemma ClosuresAgree(
    r1: map<Principal, ProjectId>, e1: map<Principal, Principal>,
    r2: map<Principal, ProjectId>, e2: map<Principal, Principal>)
    requires forall p :: ProjectAbove(r1, e1, p) == ProjectAbove(r2, e2, p)
    requires forall p :: ProjectAbove(r2, e2, p).None? ==> (p in e1 <==> p in e2) && (p in e1 ==> e1[p] == e2[p])
    ensures Closure(r1, e1) == Closure(r2, e2)
  {
    hide ProjectAbove;
    var v, w := Closure(r1, e1), Closure(r2, e2);
    assert v.tracked == w.tracked by {
      ReachableClosure(r1, e1);
      ReachableClosure(r2, e2);
    }
  }

  lemma NoMoreLinks(roots: map<Principal, ProjectId>, parents: map<Principal, Principal>, m: Mapping, p: Principal)
    requires m.child !in parents && ProjectAbove(roots, parents[m.child := m.parent], p).None?
    ensures ProjectAbove(roots, parents, p).None?
  {
    if n: nat :| Climb(roots, parents, p, n).Some? {
      MoreLinks(roots, parents, parents[m.child := m.parent], p, n);
    }
  }

  lemma ReachableIsKnown(roots: map<Principal, ProjectId>, parents: map<Principal, Principal>, p: Principal)
    requires ProjectAbove(roots, parents, p).Some?
    ensures p in roots.Keys + parents.Keys
  {
    ProjectAboveStep(roots, parents, p);
  }

  lemma ReachableClosure(roots: map<Principal, ProjectId>, parents: map<Principal, Principal>)
    ensures forall p :: p in Closure(roots, parents).tracked <==> ProjectAbove(roots, parents, p).Some?
  {
    forall p | ProjectAbove(roots, parents, p).Some? {
      ReachableIsKnown(roots, parents, p);
    }
  }

  lemma {:induction false} MoreLinks(
    roots: map<Principal, ProjectId>, e1: map<Principal, Principal>, e2: map<Principal, Principal>,
    p: Principal, n: nat)
    requires forall q :: q in e1 ==> q in e2 && e2[q] == e1[q]
    requires Climb(roots, e1, p, n).Some?
    ensures Climb(roots, e2, p, n) == Climb(roots, e1, p, n)
    decreases n
  {
    if p !in roots {
      MoreLinks(roots, e1, e2, e1[p], n - 1);
    }
  }

  // Whatever the reports, the result is the closure of the first report of every child.
  lemma {:induction false} ReportsCloseFirstReports(v: View, ms: seq<Mapping>)
    requires Settled(v)
    ensures ReportAll(v, ms) == Closure(v.tracked, FirstReports(v, ms))
    ensures Settled(ReportAll(v, ms))
  {
    if ms == [] {
      SettledIsClosed(v);
    } else {
      var init, m := ms[..|ms| - 1], ms[|ms| - 1];
      var links := FirstReports(v, init);
      ReportsCloseFirstReports(v, init);
      ProjectAboveStep(v.tracked, links, m.child);
      if m.child !in v.tracked && m.child !in links {
        ClosureAbsorbs(v.tracked, links, m);
      }
      ClosureIsSettled(v.tracked, FirstReports(v, ms));
    }
  }

  // Splitting the reports into batches changes nothing.
  lemma {:induction false} BatchesConcatenate(v: View, a: seq<Mapping>, b: seq<Mapping>)
    ensures ReportAll(ReportAll(v, a), b) == ReportAll(v, a + b)
    decreases |b|
  {
    if b == [] {
      assert a + b == a;
    } else {
      BatchesConcatenate(v, a, b[..|b| - 1]);
      assert (a + b)[..|a + b| - 1] == a + b[..|b| - 1];
    }
  }

  // Every child that is new to `v` is reported with one parent only.
  ghost predicate OneParentEach(v: View, ms: seq<Mapping>) {
    forall m, n :: m in ms && n in ms && m.child == n.child && m.child !in v.tracked && m.child !in v.orphans ==>
      m.parent == n.parent
  }

  lemma {:induction false} FirstReportsAre(v: View, ms: seq<Mapping>, c: Principal)
    requires OneParentEach(v, ms)
    ensures c in v.orphans ==> c in FirstReports(v, ms) && FirstReports(v, ms)[c] == v.orphans[c]
    ensures c !in v.orphans ==>
              (c in FirstReports(v, ms) <==> c !in v.tracked && exists m :: m in ms && m.child == c)
    ensures c !in v.orphans && c in FirstReports(v, ms) ==> Mapping(c, FirstReports(v, ms)[c]) in ms
    decreases |ms|
  {
    if ms != [] {
      var init, last := ms[..|ms| - 1], ms[|ms| - 1];
      assert ms == init + [last];
      assert forall m :: m in ms <==> m in init || m == last;
      FirstReportsAre(v, init, c);
    }
  }

  // Order, batching and repetition do not matter: two runs that report the same mappings end alike.
  lemma ArrivalOrderIrrelevant(v: View, ms: seq<Mapping>, ns: seq<Mapping>)
    requires Settled(v) && OneParentEach(v, ms)
    requires ToSet(ms) == ToSet(ns)
    ensures ReportAll(v, ms) == ReportAll(v, ns)
  {
    forall m: Mapping ensures m in ms <==> m in ns {
      assert m in ToSet(ms) <==> m in ToSet(ns);
    }
    var e1, e2 := FirstReports(v, ms), FirstReports(v, ns);
    forall c ensures c in e1 <==> c in e2 ensures c in e1 ==> e1[c] == e2[c] {
      FirstReportsAre(v, ms, c);
      FirstReportsAre(v, ns, c);
      if c in e1 && c !in v.orphans {
        assert Mapping(c, e1[c]) in ms && Mapping(c, e2[c]) in ms;
      }
    }
    assert e1 == e2;
    ReportsCloseFirstReports(v, ms);
    ReportsCloseFirstReports(v, ns);
  }

  // When one child is reported with two parents the order does matter: the first report wins.
  lemma OrderMattersForTwoParents()
    ensures var v := View(map[0 := 7], map[]);
            var a, b := Mapping(1, 0), Mapping(1, 2);
            && Settled(v)
            && 1 in ReportAll(v, [a, b]).tracked
            && 1 in ReportAll(v, [b, a]).orphans
  {
    var v := View(map[0 := 7], map[]);
    var a, b := Mapping(1, 0), Mapping(1, 2);
    assert [a, b][..1] == [a] && [b, a][..1] == [b] && [a][..0] == [] && [b][..0] == [];
    assert ReportAll(v, []) == v;
    ProjectAboveStep(v.tracked, map[1 := 0], 1);
    ProjectAboveStep(v.tracked, map[1 := 0], 0);
    ProjectAboveStep(v.tracked, map[1 := 2], 1);
    ProjectAboveStep(v.tracked, map[1 := 2], 2);
    assert ReportAll(v, [a]) == Report(ReportAll(v, [a][..0]), a);
    assert ReportAll(v, [b]) == Report(ReportAll(v, [b][..0]), b);
    assert v.orphans[1 := 0] == map[1 := 0] && v.orphans[1 := 2] == map[1 := 2];
    assert ReportAll(v, [a, b]) == Report(ReportAll(v, [a]), b);
    assert ReportAll(v, [b, a]) == Report(ReportAll(v, [b]), a);
  }

  // Two sets of links give every child the same parent, or two parents that either set of links
  // leads to one and the same project.
  ghost predicate LinksAgree(
    roots: map<Principal, ProjectId>, e1: map<Principal, Principal>, e2: map<Principal, Principal>)
  {
    && e1.Keys == e2.Keys
    && forall c :: c in e1 ==>
       e1[c] == e2[c] || (LeadAlike(roots, e1, e1[c], e2[c]) && LeadAlike(roots, e2, e1[c], e2[c]))
  }

  ghost predicate LeadAlike(roots: map<Principal, ProjectId>, parents: map<Principal, Principal>, p: Principal,
    q: Principal) {
    ProjectAbove(roots, parents, p).Some? && ProjectAbove(roots, parents, p) == ProjectAbove(roots, parents, q)
  }

  lemma AgreeingLinksExplain(
    roots: map<Principal, ProjectId>, e1: map<Principal, Principal>, e2: map<Principal, Principal>)
    requires roots.Keys !! e1.Keys && LinksAgree(roots, e1, e2)
    ensures Explains(roots, e1, roots, e2)
  {
    forall p | p in roots ensures ProjectAbove(roots, e1, p) == Some(roots[p]) {
      ProjectAboveStep(roots, e1, p);
    }
    forall p | p in e2 && p !in roots ensures ProjectAbove(roots, e1, p) == ProjectAbove(roots, e1, e2[p]) {
      ProjectAboveStep(roots, e1, p);
    }
  }

  lemma LinksAgreeBack(roots: map<Principal, ProjectId>, e1: map<Principal, Principal>, e2: map<Principal, Principal>)
    requires LinksAgree(roots, e1, e2)
    ensures LinksAgree(roots, e2, e1)
  {
    hide ProjectAbove;
  }

  // Closures from the same roots are equal exactly when the links agree.
  lemma ClosuresAgreeIff(roots: map<Principal, ProjectId>, e1: map<Principal, Principal>, e2: map<Principal, Principal>)
    requires roots.Keys !! e1.Keys && roots.Keys !! e2.Keys
    ensures Closure(roots, e1) == Closure(roots, e2) <==> LinksAgree(roots, e1, e2)
  {
    if LinksAgree(roots, e1, e2) {
      LinksAgreeBack(roots, e1, e2);
      AgreeingLinksExplain(roots, e1, e2);
      AgreeingLinksExplain(roots, e2, e1);
      forall p ensures ProjectAbove(roots, e1, p) == ProjectAbove(roots, e2, p) {
        SameProjects(roots, e1, roots, e2, p);
      }
      forall p | ProjectAbove(roots, e2, p).None? && p in e1 ensures e1[p] == e2[p] {
        ProjectAboveStep(roots, e1, p);
      }
      ClosuresAgree(roots, e1, roots, e2);
    }
    if Closure(roots, e1) == Closure(roots, e2) {
      EqualClosuresAgree(roots, e1, e2);
    }
  }

  lemma EqualClosuresAgree(roots: map<Principal, ProjectId>, e1: map<Principal, Principal>,
    e2: map<Principal, Principal>)
    requires roots.Keys !! e1.Keys && roots.Keys !! e2.Keys
    requires Closure(roots, e1) == Closure(roots, e2)
    ensures LinksAgree(roots, e1, e2)
  {
    hide ProjectAbove, Closure;
    forall p ensures ProjectAbove(roots, e1, p) == ProjectAbove(roots, e2, p) {
      ClosureAt(roots, e1, p);
      ClosureAt(roots, e2, p);
    }
    forall c
      ensures c in e1 <==> c in e2
      ensures c in e1 && ProjectAbove(roots, e1, c).None? ==> e1[c] == e2[c]
    {
      ClosureAt(roots, e1, c);
      ClosureAt(roots, e2, c);
    }
    forall c | c in e1
      ensures e1[c] == e2[c] || (LeadAlike(roots, e1, e1[c], e2[c]) && LeadAlike(roots, e2, e1[c], e2[c]))
    {
      ProjectAboveStep(roots, e1, c);
      ProjectAboveStep(roots, e2, c);
    }
  }

  // What the closure says of one principal.
  lemma ClosureAt(roots: map<Principal, ProjectId>, parents: map<Principal, Principal>, p: Principal)
    requires roots.Keys !! parents.Keys
    ensures var v := Closure(roots, parents);
            && (p in v.tracked <==> ProjectAbove(roots, parents, p).Some?)
            && (p in v.tracked ==> ProjectAbove(roots, parents, p) == Some(v.tracked[p]))
            && (p in v.orphans <==> p in parents && ProjectAbove(roots, parents, p).None?)
            && (p in v.orphans ==> v.orphans[p] == parents[p])
            && (p in parents <==> p in v.orphans || (p in v.tracked && p !in roots))
  {
    hide ProjectAbove;
    ReachableClosure(roots, parents);
  }

  lemma {:induction false} FirstReportsAreNew(v: View, ms: seq<Mapping>)
    requires v.tracked.Keys !! v.orphans.Keys
    ensures v.tracked.Keys !! FirstReports(v, ms).Keys
  {
    if ms != [] {
      FirstReportsAreNew(v, ms[..|ms| - 1]);
    }
  }

  // Two runs of reports end alike exactly when their first reports agree: every child has the same
  // first parent in both, or two first parents that lead to the same project.
  lemma RunsAgreeIff(v: View, ms: seq<Mapping>, ns: seq<Mapping>)
    requires Settled(v)
    ensures ReportAll(v, ms) == ReportAll(v, ns) <==> LinksAgree(v.tracked, FirstReports(v, ms), FirstReports(v, ns))
  {
    hide LinksAgree, Closure;
    ReportsCloseFirstReports(v, ms);
    ReportsCloseFirstReports(v, ns);
    FirstReportsAreNew(v, ms);
    FirstReportsAreNew(v, ns);
    ClosuresAgreeIff(v.tracked, FirstReports(v, ms), FirstReports(v, ns));
  }

  // Two reports commute exactly when they concern different children, name the same parent, or
  // concern a child that is known already or whose two parents are tracked under one project.
  lemma ReportsCommuteIff(v: View, m: Mapping, n: Mapping)
    requires Settled(v)
    ensures Report(Report(v, m), n) == Report(Report(v, n), m) <==>
            || m.child != n.child || m.parent == n.parent || m.child in v.tracked || m.child in v.orphans
            || (m.parent in v.tracked && n.parent in v.tracked && v.tracked[m.parent] == v.tracked[n.parent])
  {
    hide Closure;
    if m.child in v.tracked || m.child in v.orphans {
      KnownChildSkipped(v, m, n);
    } else if m.child == n.child {
      SecondParentSkipped(v, m, n.parent);
      SecondParentSkipped(v, n, m.parent);
      assert m == Mapping(n.child, m.parent) && n == Mapping(m.child, n.parent);
      hide Report, LinksAgree;
      ClosuresAgreeIff(v.tracked, v.orphans[m.child := m.parent], v.orphans[m.child := n.parent]);
      TwoParentsAgreeIff(v, m, n);
    } else {
      TwoReports(v, m, n);
      TwoReports(v, n, m);
      ArrivalOrderIrrelevant(v, [m, n], [n, m]);
    }
  }

  lemma TwoParentsAgreeIff(v: View, m: Mapping, n: Mapping)
    requires Settled(v) && m.child == n.child && m.child !in v.tracked && m.child !in v.orphans
    ensures LinksAgree(v.tracked, v.orphans[m.child := m.parent], v.orphans[m.child := n.parent]) <==>
            || m.parent == n.parent
            || (m.parent in v.tracked && n.parent in v.tracked && v.tracked[m.parent] == v.tracked[n.parent])
  {
    var e1, e2 := v.orphans[m.child := m.parent], v.orphans[m.child := n.parent];
    ParentLeadsIff(v, m);
    ParentLeadsIff(v, n);
    ProjectAboveStep(v.tracked, e1, m.parent);
    ProjectAboveStep(v.tracked, e1, n.parent);
    ProjectAboveStep(v.tracked, e2, m.parent);
    ProjectAboveStep(v.tracked, e2, n.parent);
    hide ProjectAbove, Settled;
    assert m.child in e1 && e1[m.child] == m.parent && e2[m.child] == n.parent;
  }

  lemma TwoReports(v: View, m: Mapping, n: Mapping)
    ensures ReportAll(v, [m, n]) == Report(Report(v, m), n)
  {
    hide Report;
    assert [m, n][..1] == [m] && [m][..0] == [];
    assert ReportAll(v, [m]) == Report(ReportAll(v, [m][..0]), m);
    assert ReportAll(v, [m, n]) == Report(ReportAll(v, [m]), n);
  }

  // A known child stays known, so its reports change nothing in either order.
  lemma KnownChildSkipped(v: View, m: Mapping, n: Mapping)
    requires Settled(v) && (m.child in v.tracked || m.child in v.orphans)
    ensures Report(Report(v, m), n) == Report(Report(v, n), m)
  {
    var w := Report(v, n);
    if w != v {
      ProjectAboveStep(v.tracked, v.orphans[n.child := n.parent], m.child);
      hide ProjectAbove;
      assert m.child in w.tracked || m.child in w.orphans;
    }
  }

  lemma SecondParentSkipped(v: View, m: Mapping, other: Principal)
    requires m.child !in v.tracked && m.child !in v.orphans
    ensures Report(Report(v, m), Mapping(m.child, other)) == Closure(v.tracked, v.orphans[m.child := m.parent])
  {
    hide ProjectAbove;
    var w := Report(v, m);
    assert m.child in w.tracked || m.child in w.orphans;
  }

  // With one more link, its parent leads to a project exactly when it is tracked.
  lemma ParentLeadsIff(v: View, m: Mapping)
    requires Settled(v) && m.child !in v.tracked && m.child !in v.orphans
    ensures ProjectAbove(v.tracked, v.orphans[m.child := m.parent], m.parent).Some? <==> m.parent in v.tracked
  {
    var e := v.orphans[m.child := m.parent];
    ProjectAboveStep(v.tracked, e, m.parent);
    if m.parent !in v.tracked {
      var w := View(v.tracked, e);
      assert Settled(w);
      OrphanStaysUnresolved(w, m.parent);
    }
  }

  // Recording a canister without adopting keeps the view settled exactly when its principal is
  // new to the orphan index, both as a child and as a parent.
  lemma RecordKeepsSettledIff(v: View, p: Principal, project: ProjectId)
    requires Settled(v)
    ensures Settled(View(v.tracked[p := project], v.orphans)) <==> p !in v.orphans.Keys && p !in v.orphans.Values
  {
    var w := View(v.tracked[p := project], v.orphans);
    if Settled(w) {
      assert p in w.tracked;
      forall c | c in v.orphans ensures v.orphans[c] != p {
        assert w.orphans[c] !in w.tracked;
      }
    }
  }
}

/** The canister repository, the orphan repository and the operation that reports children. */
module CanisterTracking {
  import opened Primitives
  import opened Ancestry

  datatype Canister = Canister(principal: Principal, name: Option<string>, deletedAt: Option<nat>)

  class CanisterRepository {
    var canisters: map<CanisterId, Canister>
    var active: set<(ProjectId, CanisterId)>
    var deleted: set<(ProjectId, CanisterId)>
    var projectOf: map<CanisterId, ProjectId>
    var byPrincipal: map<Principal, CanisterId>

    // Every record has one project, is in exactly one of the two project indexes (by whether it
    // is deleted), and is the only record of its principal.
    ghost predicate Valid()
      reads this
    {
      && projectOf.Keys == canisters.Keys
      && (forall p, id :: (p, id) in active <==>
           id in canisters && projectOf[id] == p && canisters[id].deletedAt.None?)
      && (forall p, id :: (p, id) in deleted <==>
           id in canisters && projectOf[id] == p && canisters[id].deletedAt.Some?)
      && (forall id :: id in canisters ==>
           canisters[id].principal in byPrincipal && byPrincipal[canisters[id].principal] == id)
      && (forall p :: p in byPrincipal ==> byPrincipal[p] in canisters && canisters[byPrincipal[p]].principal == p)
    }

    ghost function Tracked(): (tracked: map<Principal, ProjectId>)
      reads this
      ensures Valid() ==> tracked.Keys == byPrincipal.Keys
    {
      map p | p in byPrincipal && byPrincipal[p] in projectOf :: projectOf[byPrincipal[p]]
    }

    constructor ()
      ensures Valid() && canisters == map[]
    {
      canisters, active, deleted, projectOf, byPrincipal := map[], {}, {}, map[], map[];
    }

    // `get_canister_by_principal` followed by `get_canister_project_id`.
    method ProjectOfPrincipal(principal: Principal) returns (project: Option<ProjectId>)
      ensures project == if principal in Tracked() then Some(Tracked()[principal]) else None
    {
      if principal in byPrincipal && byPrincipal[principal] in projectOf {
        project := Some(projectOf[byPrincipal[principal]]);
      } else {
        project := None;
      }
    }

    method CreateCanister(project: ProjectId, canister: Canister) returns (id: CanisterId)
      modifies this
      ensures id !in old(canisters) && canisters == old(canisters)[id := canister]
      ensures active == old(active) + {(project, id)} && deleted == old(deleted)
      ensures projectOf == old(projectOf)[id := project]
      ensures byPrincipal == old(byPrincipal)[canister.principal := id]
      ensures old(Valid()) && canister.principal !in old(byPrincipal) && canister.deletedAt.None? ==>
                Valid() && Tracked() == old(Tracked())[canister.principal := project]
    {
      id := FreshId(canisters.Keys);
      canisters := canisters[id := canister];
      active := active + {(project, id)};
      projectOf := projectOf[id := project];
      byPrincipal := byPrincipal[canister.principal := id];
    }

    // Soft deletion moves the record between the indexes and keeps its principal tracked.
    method SoftDeleteCanister(project: ProjectId, id: CanisterId, deletedAt: nat) returns (r: Option<Canister>)
      requires Valid()
      modifies this
      ensures Valid() && Tracked() == old(Tracked())
      ensures r.Some? <==> (project, id) in old(active)
      ensures r.None? ==> unchanged(this)
      ensures r.Some? ==>
                && r.value == old(canisters[id]).(deletedAt := Some(deletedAt))
                && canisters == old(canisters)[id := r.value]
                && active == old(active) - {(project, id)} && deleted == old(deleted) + {(project, id)}
    {
      if (project, id) !in active {
        return None;
      }
      var canister := canisters[id].(deletedAt := Some(deletedAt));
      canisters := canisters[id := canister];
      active := active - {(project, id)};
      deleted := deleted + {(project, id)};
      r := Some(canister);
    }

    method UpdateCanisterName(id: CanisterId, name: Option<string>) returns (r: Option<Canister>)
      requires Valid()
      modifies this
      ensures Valid() && Tracked() == old(Tracked())
      ensures active == old(active) && deleted == old(deleted)
      ensures if id in old(canisters)
              then r == Some(old(canisters[id]).(name := name)) && canisters == old(canisters)[id := r.value]
              else r == None && canisters == old(canisters)
    {
      if id !in canisters {
        return None;
      }
      var canister := canisters[id].(name := name);
      canisters := canisters[id := canister];
      r := Some(canister);
    }
  }

  class OrphanRepository {
    var childToParent: map<Principal, Principal>
    var parentChild: set<(Principal, Principal)>

    // The two indexes mirror each other.
    ghost predicate Valid()
      reads this
    {
      forall p, c :: (p, c) in parentChild <==> c in childToParent && childToParent[c] == p
    }

    constructor ()
      ensures Valid() && childToParent == map[]
    {
      childToParent, parentChild := map[], {};
    }

    // Neither write looks at what is stored: the mirror survives exactly when the child is new or
    // stored under the same parent.
    method CreateOrphanedCanister(child: Principal, parent: Principal)
      modifies this
      ensures childToParent == old(childToParent)[child := parent]
      ensures parentChild == old(parentChild) + {(parent, child)}
      ensures old(Valid()) ==>
                (Valid() <==> (child in old(childToParent) ==> old(childToParent)[child] == parent))
    {
      childToParent := childToParent[child := parent];
      parentChild := parentChild + {(parent, child)};
      assert old(Valid()) && child in old(childToParent) ==> (old(childToParent)[child], child) in parentChild;
    }

    method RemoveOrphanedCanister(child: Principal, parent: Principal)
      modifies this
      ensures childToParent == old(childToParent) - {child}
      ensures parentChild == old(parentChild) - {(parent, child)}
      ensures old(Valid()) ==>
                (Valid() <==> (child in old(childToParent) ==> old(childToParent)[child] == parent))
    {
      parentChild := parentChild - {(parent, child)};
      childToParent := childToParent - {child};
      assert old(Valid()) && child in old(childToParent) && old(childToParent)[child] != parent ==>
          (old(childToParent)[child], child) in parentChild;
    }

    // The children in the range of `parent`, each once; no order is promised.
    method ListChildrenByParent(parent: Principal) returns (children: seq<Principal>)
      ensures NoDuplicates(children)
      ensures forall c :: c in children <==> (parent, c) in parentChild
      ensures Valid() ==> forall c :: c in children <==> c in childToParent && childToParent[c] == parent
    {
      children := [];
      var rest := set e | e in parentChild && e.0 == parent;
      while rest != {}
        invariant NoDuplicates(children)
        invariant forall e :: e in rest ==> e in parentChild && e.0 == parent && e.1 !in children
        invariant forall c :: c in children ==> (parent, c) in parentChild
        invariant forall c :: (parent, c) in parentChild ==> c in children || (parent, c) in rest
        decreases rest
      {
        var e :| e in rest;
        rest := rest - {e};
        children := children + [e.1];
      }
    }
  }

  // Every principal on the stack is tracked under `project`, and only their children can be
  // orphans of a tracked parent.
  ghost predicate Worklist(v: View, stack: seq<Principal>, project: ProjectId) {
    && v.tracked.Keys !! v.orphans.Keys
    && (forall p :: p in stack ==> p in v.tracked && v.tracked[p] == project)
    && (forall c :: c in v.orphans && v.orphans[c] in v.tracked ==> v.orphans[c] in stack)
  }

  lemma AdoptStep(v: View, stack: seq<Principal>, parent: Principal, child: Principal, project: ProjectId)
    requires Worklist(v, stack + [parent], project) && child in v.orphans && v.orphans[child] == parent
    ensures child !in v.tracked
    ensures var w := View(v.tracked[child := project], v.orphans - {child});
            && Worklist(w, stack + [child] + [parent], project)
            && Closure(w.tracked, w.orphans) == Closure(v.tracked, v.orphans)
            && |w.orphans| == |v.orphans| - 1
  {
    hide Closure;
    AdoptKeepsClosure(v, child);
    assert v.orphans == (v.orphans - {child})[child := parent];
    assert forall p :: p in stack + [parent] ==> p in stack + [child] + [parent];
    assert parent in stack + [parent];
  }

  // A parent without orphans can leave the stack.
  lemma WorklistOfOne(v: View, child: Principal, project: ProjectId)
    requires Settled(v) && child !in v.tracked && child !in v.orphans
    ensures Worklist(v.(tracked := v.tracked[child := project]), [child], project)
  {
  }

  lemma WorklistEmpty(v: View, project: ProjectId)
    requires Worklist(v, [], project)
    ensures Settled(v)
  {
  }

  lemma WorklistDone(v: View, stack: seq<Principal>, parent: Principal, project: ProjectId)
    requires Worklist(v, stack + [parent], project)
    requires forall c :: c in v.orphans ==> v.orphans[c] != parent
    ensures Worklist(v, stack, project)
  {
    assert forall p :: p in stack ==> p in stack + [parent];
  }

  class CanisterService {
    const repository: CanisterRepository
    const orphanRepository: OrphanRepository

    constructor (repository: CanisterRepository, orphanRepository: OrphanRepository)
      ensures this.repository == repository && this.orphanRepository == orphanRepository
    {
      this.repository := repository;
      this.orphanRepository := orphanRepository;
    }

    ghost function CurrentView(): View
      reads repository, orphanRepository
    {
      View(repository.Tracked(), orphanRepository.childToParent)
    }

    ghost predicate Valid()
      reads repository, orphanRepository
    {
      && repository.Valid()
      && orphanRepository.Valid()
      && Settled(CurrentView())
    }

    // Between two states records are only added, and every added record is active and unnamed.
    twostate predicate OnlyAdds()
      reads repository
    {
      && (forall id :: id in old(repository.canisters) ==>
           id in repository.canisters && repository.canisters[id] == old(repository.canisters)[id])
      && (forall id :: id in repository.canisters && id !in old(repository.canisters) ==>
           repository.canisters[id].name.None? && repository.canisters[id].deletedAt.None?)
      && repository.deleted == old(repository.deleted)
    }

    // The canister with its waiting orphans, and their orphans in turn, by a worklist.
    method TrackWithDescendants(project: ProjectId, child: Principal)
      requires Valid()
      requires child !in CurrentView().tracked && child !in CurrentView().orphans
      modifies repository, orphanRepository
      ensures Valid() && OnlyAdds()
      ensures CurrentView() == Closure(old(CurrentView()).tracked[child := project], old(CurrentView()).orphans)
    {
      hide Closure, CanisterRepository.Valid, CanisterRepository.Tracked, OrphanRepository.Valid;
      WorklistOfOne(CurrentView(), child, project);
      hide Worklist;
      var _ := repository.CreateCanister(project, Canister(child, None, None));
      ghost var goal := Closure(CurrentView().tracked, CurrentView().orphans);
      var stack := [child];
      while stack != []
        invariant repository.Valid() && orphanRepository.Valid() && OnlyAdds()
        invariant Worklist(CurrentView(), stack, project)
        invariant Closure(CurrentView().tracked, CurrentView().orphans) == goal
        decreases |orphanRepository.childToParent| + |stack|
      {
        var parent := stack[|stack| - 1];
        assert stack == stack[..|stack| - 1] + [parent];
        stack := AdoptChildren(project, parent, stack[..|stack| - 1]);
      }
      WorklistEmpty(CurrentView(), project);
      SettledIsClosed(CurrentView());
    }

    method AdoptOrphan(project: ProjectId, parent: Principal, child: Principal)
      requires repository.Valid() && orphanRepository.Valid()
      requires child !in CurrentView().tracked && child in CurrentView().orphans &&
               CurrentView().orphans[child] == parent
      modifies repository, orphanRepository
      ensures repository.Valid() && orphanRepository.Valid() && OnlyAdds()
      ensures CurrentView() == View(old(CurrentView()).tracked[child := project], old(CurrentView()).orphans - {child})
    {
      hide CanisterRepository.Valid, CanisterRepository.Tracked, OrphanRepository.Valid;
      var _ := repository.CreateCanister(project, Canister(child, None, None));
      orphanRepository.RemoveOrphanedCanister(child, parent);
    }

    // One pass of the worklist: every orphan of `parent` becomes tracked and is pushed, so that
    // orphans and stack together lose exactly the popped parent.
    method AdoptChildren(project: ProjectId, parent: Principal, stack: seq<Principal>) returns (pushed: seq<Principal>)
      requires repository.Valid() && orphanRepository.Valid()
      requires Worklist(CurrentView(), stack + [parent], project)
      modifies repository, orphanRepository
      ensures repository.Valid() && orphanRepository.Valid() && OnlyAdds()
      ensures Worklist(CurrentView(), pushed, project)
      ensures Closure(CurrentView().tracked, CurrentView().orphans) ==
              old(Closure(CurrentView().tracked, CurrentView().orphans))
      ensures |CurrentView().orphans| + |pushed| == old(|CurrentView().orphans|) + |stack|
    {
      hide Closure, Worklist, CanisterRepository.Valid, CanisterRepository.Tracked, OrphanRepository.Valid;
      pushed := stack;
      var children := orphanRepository.ListChildrenByParent(parent);
      for i := 0 to |children|
        invariant repository.Valid() && orphanRepository.Valid() && OnlyAdds()
        invariant Worklist(CurrentView(), pushed + [parent], project)
        invariant forall c :: c in CurrentView().orphans && CurrentView().orphans[c] == parent <==> c in children[i..]
        invariant Closure(CurrentView().tracked, CurrentView().orphans) ==
                  old(Closure(CurrentView().tracked, CurrentView().orphans))
        invariant |CurrentView().orphans| + |pushed| == old(|CurrentView().orphans|) + |stack|
      {
        var child := children[i];
        assert child in children[i..];
        AdoptStep(CurrentView(), pushed, parent, child, project);
        AdoptOrphan(project, parent, child);
        pushed := pushed + [child];
      }
      assert children[|children|..] == [];
      WorklistDone(CurrentView(), pushed, parent, project);
    }

    method AddChild(mapping: Mapping)
      requires Valid()
      modifies repository, orphanRepository
      ensures Valid() && OnlyAdds()
      ensures CurrentView() == Report(old(CurrentView()), mapping)
    {
      hide Closure, CanisterRepository.Valid, CanisterRepository.Tracked, OrphanRepository.Valid;
      var child, parent := mapping.child, mapping.parent;
      if child !in repository.byPrincipal && child !in orphanRepository.childToParent {
        var parentProject := repository.ProjectOfPrincipal(parent);
        if parentProject.Some? {
          LinkBelowTracked(CurrentView(), mapping);
          TrackWithDescendants(parentProject.value, child);
        } else {
          LinkBelowUnknown(CurrentView(), mapping);
          orphanRepository.CreateOrphanedCanister(child, parent);
        }
      }
    }

    method AddChildCanisters(mappings: seq<Mapping>)
      requires Valid()
      modifies repository, orphanRepository
      ensures Valid() && OnlyAdds()
      ensures CurrentView() == ReportAll(old(CurrentView()), mappings)
    {
      hide Closure, CanisterRepository.Valid, CanisterRepository.Tracked, OrphanRepository.Valid;
      for i := 0 to |mappings|
        invariant Valid() && OnlyAdds()
        invariant CurrentView() == ReportAll(old(CurrentView()), mappings[..i])
      {
        assert mappings[..i + 1][..i] == mappings[..i];
        AddChild(mappings[i]);
      }
      assert mappings[..|mappings|] == mappings;
    }

    // A canister created through the console is recorded without adopting orphans.
    method RecordCreated(project: ProjectId, principal: Principal)
      requires Valid() && principal !in CurrentView().tracked
      modifies repository
      ensures repository.Valid() && OnlyAdds()
      ensures CurrentView() == old(CurrentView()).(tracked := old(CurrentView()).tracked[principal := project])
      ensures Valid() <==> principal !in CurrentView().orphans.Keys && principal !in CurrentView().orphans.Values
    {
      RecordKeepsSettledIff(CurrentView(), principal, project);
      var _ := repository.CreateCanister(project, Canister(principal, None, None));
    }
  }

  // A new child of a tracked parent joins that parent's project, before its own orphans are looked at.
  lemma LinkBelowTracked(v: View, m: Mapping)
    requires Settled(v) && m.child !in v.tracked && m.child !in v.orphans && m.parent in v.tracked
    ensures Closure(v.tracked[m.child := v.tracked[m.parent]], v.orphans) ==
            Closure(v.tracked, v.orphans[m.child := m.parent])
  {
    AdoptKeepsClosure(View(v.tracked, v.orphans[m.child := m.parent]), m.child);
    assert v.orphans[m.child := m.parent] - {m.child} == v.orphans;
  }

  // A new child of an unknown parent only adds an orphan.
  lemma LinkBelowUnknown(v: View, m: Mapping)
    requires Settled(v) && m.child !in v.tracked && m.child !in v.orphans && m.parent !in v.tracked
    ensures Closure(v.tracked, v.orphans[m.child := m.parent]) == View(v.tracked, v.orphans[m.child := m.parent])
    ensures Settled(View(v.tracked, v.orphans[m.child := m.parent]))
  {
    SettledIsClosed(View(v.tracked, v.orphans[m.child := m.parent]));
  }
}
