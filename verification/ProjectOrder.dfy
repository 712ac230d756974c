/** What the ordering of src/datastore/ProjectsDataStore.ts contains, and in which order; and that it depends only on
the set of projects, not on the order in which the dictionary enumerates them. */
module ProjectOrder {
  import opened ParentChains
  import opened ProjectForest

  // ---------------------------------------------------------------------------------------------
  // What the ordering contains, and in which order
  // ---------------------------------------------------------------------------------------------

  /** No project lies below two siblings, nor is the parent below either. */
  lemma SiblingsDisjoint(all: seq<Project>, ps: seq<Project>, parent: string, path: set<string>, d: string,
                         a: Project, b: Project)
    requires Siblings(all, ps, parent, path) && a in ps && b in ps
    requires Below(ProjectMap(all), d, a.id) && Below(ProjectMap(all), d, b.id)
    ensures a == b && d !in path
  {
    var m := ProjectMap(all);
    ProjectMapMeaning(all);
    var k: nat :| Under(m, d, a.id, k);
    var l: nat :| Under(m, d, b.id, l);
    if d in path {
      AncestorsStayIn(m, path, d, a.id, k);
    }
    if a != b {
      if k <= l {
        Comparable(m, d, a.id, b.id, k, l);
        NotBelowSibling(all, ps, parent, path, a, b, l - k);
      } else {
        Comparable(m, d, b.id, a.id, l, k);
        NotBelowSibling(all, ps, parent, path, b, a, k - l);
      }
    }
  }

  lemma NotBelowSibling(all: seq<Project>, ps: seq<Project>, parent: string, path: set<string>, a: Project,
                        b: Project, k: nat)
    requires Siblings(all, ps, parent, path) && a in ps && b in ps && a != b
    ensures !Under(ProjectMap(all), a.id, b.id, k)
  {
    var m := ProjectMap(all);
    ProjectMapMeaning(all);
    if k == 0 {
      assert m[a.id] == a && m[b.id] == b;
    } else if Under(m, a.id, b.id, k) {
      assert Under(m, parent, b.id, k - 1);
      AncestorsStayIn(m, path, parent, b.id, k - 1);
    }
  }

  ghost predicate BelowSome(m: map<string, Project>, d: string, ps: seq<Project>) {
    exists p :: p in ps && Below(m, d, p.id)
  }

  lemma BelowByChild(all: seq<Project>, cmp: Compare, d: string, p: Project)
    requires WellKeyed(all) && p in all
    ensures var m := ProjectMap(all);
            Below(m, d, p.id) <==> d == p.id || BelowSome(m, d, Children(all, cmp, p.id))
  {
    var m := ProjectMap(all);
    ProjectMapMeaning(all);
    ChildrenMeaning(all, cmp, p.id);
    if Below(m, d, p.id) && d != p.id {
      var k: nat :| Under(m, d, p.id, k);
      var c := LastLink(m, d, p.id, k);
      assert m[c] in Children(all, cmp, p.id);
    }
    if d == p.id {
      assert Under(m, d, p.id, 0);
    } else if BelowSome(m, d, Children(all, cmp, p.id)) {
      var c :| c in Children(all, cmp, p.id) && Below(m, d, c.id);
      var k: nat :| Under(m, d, c.id, k);
      assert m[c.id] == c && Under(m, p.id, p.id, 0) && Under(m, c.id, p.id, 1);
      UnderTransitive(m, d, c.id, p.id, k, 1);
    }
  }

  lemma {:induction false} ProjectMembers(all: seq<Project>, cmp: Compare, p: Project, parent: string,
                                          path: set<string>)
    requires Siblings(all, [p], parent, path)
    ensures forall q :: q in OrganizeProject(all, cmp, p, parent, path)
                   <==> q in all && Below(ProjectMap(all), q.id, p.id)
    decreases |ProjectMap(all).Keys - path|, 0
  {
    DescendIsSafe(all, cmp, p, parent, path);
    ProjectMapMeaning(all);
    AllMembers(all, cmp, Children(all, cmp, p.id), p.id, path + {p.id});
    assert p in [p];
    forall q
      ensures q in OrganizeProject(all, cmp, p, parent, path) <==> q in all && Below(ProjectMap(all), q.id, p.id)
    {
      BelowByChild(all, cmp, q.id, p);
      if q in all && q.id == p.id {
        assert ProjectMap(all)[q.id] == q && ProjectMap(all)[p.id] == p;
      }
    }
  }

  lemma {:induction false} AllMembers(all: seq<Project>, cmp: Compare, ps: seq<Project>, parent: string,
                                      path: set<string>)
    requires Siblings(all, ps, parent, path)
    ensures forall q :: q in OrganizeAll(all, cmp, ps, parent, path)
                   <==> q in all && BelowSome(ProjectMap(all), q.id, ps)
    decreases |ProjectMap(all).Keys - path|, 1, |ps|
  {
    if ps != [] {
      assert ps == [ps[0]] + ps[1..];
      SplitSiblings(all, ps, parent, path);
      ProjectMembers(all, cmp, ps[0], parent, path);
      AllMembers(all, cmp, ps[1..], parent, path);
    }
  }

  /** Every project once, and every project after its parent (before reversal). */
  ghost predicate ParentsFirst(ps: seq<Project>) {
    && (forall i, j :: 0 <= i < j < |ps| ==> ps[i].id != ps[j].id)
    && (forall i, j :: 0 <= i < |ps| && 0 <= j < |ps| && ps[j].parentProjectId == ps[i].id ==> i < j)
  }

  lemma ConcatParentsFirst(a: seq<Project>, b: seq<Project>)
    requires ParentsFirst(a) && ParentsFirst(b)
    requires forall p, q :: p in a && q in b ==> p.id != q.id && p.parentProjectId != q.id
    ensures ParentsFirst(a + b)
  {
    var c := a + b;
    forall i, j | 0 <= i < |c| && 0 <= j < |c|
      ensures (i < j ==> c[i].id != c[j].id) && (c[j].parentProjectId == c[i].id ==> i < j)
    {
      assert i < |a| ==> c[i] in a;
      assert j < |a| ==> c[j] in a;
      assert i >= |a| ==> c[i] in b && c[i] == b[i - |a|];
      assert j >= |a| ==> c[j] in b && c[j] == b[j - |a|];
    }
  }

  lemma {:induction false} ProjectOrder(all: seq<Project>, cmp: Compare, p: Project, parent: string, path: set<string>)
    requires Siblings(all, [p], parent, path)
    ensures ParentsFirst(OrganizeProject(all, cmp, p, parent, path))
    decreases |ProjectMap(all).Keys - path|, 0
  {
    DescendIsSafe(all, cmp, p, parent, path);
    var cs := Children(all, cmp, p.id);
    var below := OrganizeAll(all, cmp, cs, p.id, path + {p.id});
    AllOrder(all, cmp, cs, p.id, path + {p.id});
    AllMembers(all, cmp, cs, p.id, path + {p.id});
    forall q | q in below ensures q.id !in path + {p.id} {
      var c :| c in cs && Below(ProjectMap(all), q.id, c.id);
      SiblingsDisjoint(all, cs, p.id, path + {p.id}, q.id, c, c);
    }
    NotBelowItself(all, p, parent, path, below);
    ConcatParentsFirst([p], below);
  }

  /** Listed projects, none of which lies on the path. */
  ghost predicate OffPath(all: seq<Project>, ps: seq<Project>, path: set<string>) {
    forall q :: q in ps ==> q in all && q.id !in path
  }

  /** A project entered along a path is no ancestor of itself, and its parent is not among what lies below it. */
  lemma {:induction false} NotBelowItself(all: seq<Project>, p: Project, parent: string, path: set<string>,
                                          below: seq<Project>)
    requires Siblings(all, [p], parent, path) && OffPath(all, below, path + {p.id})
    ensures ParentsFirst([p])
    ensures forall q :: q in below ==> q.id != p.id && p.parentProjectId != q.id
  {
    assert p in [p];
    assert p.parentProjectId == "" || p.parentProjectId in path;
    assert p.parentProjectId != p.id;
  }

  lemma {:induction false} AllOrder(all: seq<Project>, cmp: Compare, ps: seq<Project>, parent: string,
                                    path: set<string>)
    requires Siblings(all, ps, parent, path)
    ensures ParentsFirst(OrganizeAll(all, cmp, ps, parent, path))
    decreases |ProjectMap(all).Keys - path|, 1, |ps|
  {
    if ps != [] {
      SplitSiblings(all, ps, parent, path);
      ProjectOrder(all, cmp, ps[0], parent, path);
      AllOrder(all, cmp, ps[1..], parent, path);
      ProjectMembers(all, cmp, ps[0], parent, path);
      AllMembers(all, cmp, ps[1..], parent, path);
      var (a, b) := (OrganizeProject(all, cmp, ps[0], parent, path), OrganizeAll(all, cmp, ps[1..], parent, path));
      forall p, q | p in a && q in b ensures p.id != q.id && p.parentProjectId != q.id {
        BlocksApart(all, ps, parent, path, p, q);
      }
      ConcatParentsFirst(a, b);
    }
  }

  /** A project below the first sibling is neither the same as, nor a child of, one below a later sibling. */
  lemma BlocksApart(all: seq<Project>, ps: seq<Project>, parent: string, path: set<string>, p: Project, q: Project)
    requires Siblings(all, ps, parent, path) && ps != [] && p in all && q in all
    requires Below(ProjectMap(all), p.id, ps[0].id) && BelowSome(ProjectMap(all), q.id, ps[1..])
    ensures p.id != q.id && p.parentProjectId != q.id
  {
    var m := ProjectMap(all);
    ProjectMapMeaning(all);
    var b :| b in ps[1..] && Below(m, q.id, b.id);
    var j :| 0 <= j < |ps[1..]| && ps[1..][j] == b;
    assert b == ps[j + 1] && b in ps && ps[0] in ps && b != ps[0];
    if p.id == q.id {
      SiblingsDisjoint(all, ps, parent, path, p.id, ps[0], b);
    } else if p.parentProjectId == q.id {
      var k: nat :| Under(m, p.id, ps[0].id, k);
      SiblingsDisjoint(all, ps, parent, path, q.id, b, b);
      if k > 0 {
        assert m[p.id] == p && Under(m, q.id, ps[0].id, k - 1);
        SiblingsDisjoint(all, ps, parent, path, q.id, ps[0], b);
      }
    }
  }

  lemma {:induction false} ReversedAt(ps: seq<Project>, i: nat)
    requires i < |ps|
    ensures |Reversed(ps)| == |ps| && Reversed(ps)[i] == ps[|ps| - 1 - i]
  {
    if |ps| > 1 {
      ReversedAt(ps[1..], if i < |ps| - 1 then i else 0);
    }
  }

  lemma {:induction false} ReversedMembers(ps: seq<Project>)
    ensures |Reversed(ps)| == |ps|
    ensures forall p :: p in Reversed(ps) <==> p in ps
  {
    if ps != [] {
      ReversedMembers(ps[1..]);
      assert ps == [ps[0]] + ps[1..];
    }
  }

  /** The ordering holds exactly the projects whose parent chain reaches a root. */
  lemma OrganizeMembers(all: seq<Project>, cmp: Compare, p: Project)
    requires WellKeyed(all)
    ensures p in OrganizeFromTheLeafsToRoot(all, cmp) <==> p in all && ReachesRoot(ProjectMap(all), p.id)
  {
    var m := ProjectMap(all);
    var roots := Children(all, cmp, "");
    ProjectMapMeaning(all);
    RootsAreSafe(all, cmp);
    ChildrenMeaning(all, cmp, "");
    AllMembers(all, cmp, roots, "", {});
    ReversedMembers(OrganizeAll(all, cmp, roots, "", {}));
    if ReachesRoot(m, p.id) {
      var r :| r in m && m[r].parentProjectId == "" && Below(m, p.id, r);
      assert m[r] in roots;
    }
    if p in all && BelowSome(m, p.id, roots) {
      var r :| r in roots && Below(m, p.id, r.id);
      assert m[r.id] == r;
    }
  }

  /** Each project is listed once, and before its parent. */
  lemma OrganizeOrder(all: seq<Project>, cmp: Compare, r: seq<Project>, i: nat, j: nat)
    requires WellKeyed(all) && r == OrganizeFromTheLeafsToRoot(all, cmp) && i < |r| && j < |r|
    ensures r[i].id == r[j].id ==> i == j
    ensures r[i].parentProjectId == r[j].id ==> i < j
  {
    RootsAreSafe(all, cmp);
    var ps := OrganizeAll(all, cmp, Children(all, cmp, ""), "", {});
    AllOrder(all, cmp, Children(all, cmp, ""), "", {});
    ReversedMembers(ps);
    ReversedAt(ps, i);
    ReversedAt(ps, j);
  }

  /** Every project comes after all its descendants, however deep. */
  lemma {:induction false} DescendantsFirst(all: seq<Project>, cmp: Compare, r: seq<Project>, i: nat, j: nat, k: nat)
    requires WellKeyed(all) && r == OrganizeFromTheLeafsToRoot(all, cmp) && i < |r| && j < |r|
    requires k > 0 && Under(ProjectMap(all), r[i].id, r[j].id, k)
    ensures i < j
    decreases k
  {
    var m := ProjectMap(all);
    ProjectMapMeaning(all);
    OrganizeMembers(all, cmp, r[i]);
    assert r[i] in r && m[r[i].id] == r[i];
    var up := r[i].parentProjectId;
    assert Under(m, up, r[j].id, k - 1) && up in m && up != "";
    assert ReachesRoot(m, up) by {
      var root :| root in m && m[root].parentProjectId == "" && Below(m, r[i].id, root);
      var l: nat :| Under(m, r[i].id, root, l);
      assert l > 0 && Under(m, up, root, l - 1);
    }
    OrganizeMembers(all, cmp, m[up]);
    var h :| 0 <= h < |r| && r[h] == m[up];
    OrganizeOrder(all, cmp, r, i, h);
    if k > 1 {
      DescendantsFirst(all, cmp, r, h, j, k - 1);
    } else {
      OrganizeOrder(all, cmp, r, h, j);
    }
  }

  // ---------------------------------------------------------------------------------------------
  // Independence of the input order
  // ---------------------------------------------------------------------------------------------

  /** The comparison orders these ids. */
  ghost predicate Orders(cmp: Compare, ids: set<string>) {
    && (forall a, b {:trigger cmp(a, b)} :: a in ids && b in ids ==>
          (cmp(a, b) == 0 <==> a == b) && (cmp(a, b) < 0 <==> cmp(b, a) > 0))
    && (forall a, b, c {:trigger cmp(a, b), cmp(b, c)} ::
          a in ids && b in ids && c in ids && cmp(a, b) > 0 && cmp(b, c) > 0 ==> cmp(a, c) > 0)
  }

  ghost predicate SameElements(a: seq<Project>, b: seq<Project>) {
    forall p :: p in a <==> p in b
  }

  ghost predicate Descending(cmp: Compare, ps: seq<Project>) {
    forall i, j :: 0 <= i < j < |ps| ==> cmp(ps[i].id, ps[j].id) > 0
  }

  ghost function Ids(ps: seq<Project>): set<string> {
    set p | p in ps :: p.id
  }

  ghost predicate Among(ps: seq<Project>, ids: set<string>) {
    forall p :: p in ps ==> p.id in ids
  }

  lemma DescendingCons(cmp: Compare, p: Project, rest: seq<Project>)
    ensures Descending(cmp, [p] + rest) <==> Descending(cmp, rest) && forall q :: q in rest ==> cmp(p.id, q.id) > 0
  {
    var ps := [p] + rest;
    assert forall i :: 0 <= i < |rest| ==> ps[i + 1] == rest[i];
    if Descending(cmp, ps) {
      forall i, j | 0 <= i < j < |rest| ensures cmp(rest[i].id, rest[j].id) > 0 {
        assert cmp(ps[i + 1].id, ps[j + 1].id) > 0;
      }
      forall q | q in rest ensures cmp(p.id, q.id) > 0 {
        var j :| 0 <= j < |rest| && rest[j] == q;
        assert cmp(ps[0].id, ps[j + 1].id) > 0;
      }
    }
  }

  lemma {:induction false} InsertDescends(cmp: Compare, ids: set<string>, p: Project, sorted: seq<Project>)
    requires Orders(cmp, ids) && Among(sorted, ids) && p.id in ids && DistinctIds([p] + sorted)
            && Descending(cmp, sorted)
    ensures Descending(cmp, Insert(cmp, p, sorted))
  {
    DistinctCons(p, sorted);
    if sorted == [] {
      assert Insert(cmp, p, sorted) == [p];
    } else {
      var (head, rest) := (sorted[0], sorted[1..]);
      assert sorted == [head] + rest && head in sorted;
      DescendingCons(cmp, head, rest);
      if cmp(head.id, p.id) <= 0 {
        forall q | q in sorted ensures cmp(p.id, q.id) > 0 {
          if q != head { assert cmp(head.id, q.id) > 0; }
        }
        DescendingCons(cmp, p, sorted);
      } else {
        DistinctCons(p, rest);
        DistinctCons(head, rest);
        InsertDescends(cmp, ids, p, rest);
        InsertMembers(cmp, p, rest);
        DescendingCons(cmp, head, Insert(cmp, p, rest));
      }
    }
  }

  lemma {:induction false} SortDescends(cmp: Compare, ids: set<string>, ps: seq<Project>)
    requires Orders(cmp, ids) && Among(ps, ids) && DistinctIds(ps)
    ensures Descending(cmp, SortDescending(cmp, ps))
  {
    if ps != [] {
      assert ps == [ps[0]] + ps[1..];
      DistinctCons(ps[0], ps[1..]);
      SortDescends(cmp, ids, ps[1..]);
      SortMembers(cmp, ps[1..]);
      DistinctCons(ps[0], SortDescending(cmp, ps[1..]));
      InsertDescends(cmp, ids, ps[0], SortDescending(cmp, ps[1..]));
    }
  }

  lemma EmptyTogether(a: seq<Project>, b: seq<Project>)
    requires SameElements(a, b)
    ensures a == [] <==> b == []
  {
    if a != [] { assert a[0] in b; }
    if b != [] { assert b[0] in a; }
  }

  /** Sorting forgets the input order: a descending list is determined by its elements. */
  lemma {:induction false} DescendingIsUnique(cmp: Compare, ids: set<string>, a: seq<Project>, b: seq<Project>)
    requires Orders(cmp, ids) && Among(a, ids)
    requires Descending(cmp, a) && Descending(cmp, b) && SameElements(a, b)
    ensures a == b
  {
    EmptyTogether(a, b);
    if a != [] {
      Peeled(cmp, ids, a, b);
      DescendingIsUnique(cmp, ids, a[1..], b[1..]);
      SameHeadAndTail(a, b);
    }
  }

  lemma SameHeadAndTail(a: seq<Project>, b: seq<Project>)
    requires a != [] && b != [] && a[0] == b[0] && a[1..] == b[1..]
    ensures a == b
  {
    assert a == [a[0]] + a[1..] && b == [b[0]] + b[1..];
  }

  lemma Peeled(cmp: Compare, ids: set<string>, a: seq<Project>, b: seq<Project>)
    requires Orders(cmp, ids) && Among(a, ids) && a != [] && b != []
    requires Descending(cmp, a) && Descending(cmp, b) && SameElements(a, b)
    ensures a[0] == b[0] && SameElements(a[1..], b[1..]) && Among(a[1..], ids)
    ensures Descending(cmp, a[1..]) && Descending(cmp, b[1..])
  {
    assert Among(b, ids) && a[0] in b && b[0] in a;
    HeadAndTail(cmp, ids, a);
    HeadAndTail(cmp, ids, b);
    SameHeads(cmp, ids, a, b);
    SameTails(a, b);
  }

  lemma SameTails(a: seq<Project>, b: seq<Project>)
    requires a != [] && b != [] && a[0] == b[0] && SameElements(a, b) && a[0] !in a[1..] && b[0] !in b[1..]
    ensures SameElements(a[1..], b[1..])
  {
    assert a == [a[0]] + a[1..] && b == [b[0]] + b[1..];
    forall q ensures q in a[1..] <==> q in b[1..] { assert q in a <==> q in b; }
  }

  lemma HeadAndTail(cmp: Compare, ids: set<string>, a: seq<Project>)
    requires Orders(cmp, ids) && Among(a, ids) && a != [] && Descending(cmp, a)
    ensures Descending(cmp, a[1..]) && Among(a[1..], ids) && a[0] !in a[1..]
    ensures forall q :: q in a <==> q == a[0] || q in a[1..]
    ensures forall q :: q in a ==> q == a[0] || cmp(a[0].id, q.id) > 0
  {
    assert a == [a[0]] + a[1..];
    DescendingCons(cmp, a[0], a[1..]);
    assert cmp(a[0].id, a[0].id) == 0;
  }

  lemma SameHeads(cmp: Compare, ids: set<string>, a: seq<Project>, b: seq<Project>)
    requires Orders(cmp, ids) && a != [] && b != [] && a[0] in b && b[0] in a && a[0].id in ids && b[0].id in ids
    requires forall q :: q in a ==> q == a[0] || cmp(a[0].id, q.id) > 0
    requires forall q :: q in b ==> q == b[0] || cmp(b[0].id, q.id) > 0
    ensures a[0] == b[0]
  {
  }

  lemma SameChildren(a: seq<Project>, b: seq<Project>, cmp: Compare, parent: string)
    requires Orders(cmp, Ids(a)) && WellKeyed(a) && WellKeyed(b) && SameElements(a, b)
    ensures Children(a, cmp, parent) == Children(b, cmp, parent)
  {
    ChildrenMeaning(a, cmp, parent);
    ChildrenMeaning(b, cmp, parent);
    WithParentMeaning(a, parent);
    WithParentMeaning(b, parent);
    SortDescends(cmp, Ids(a), WithParent(a, parent));
    SortDescends(cmp, Ids(a), WithParent(b, parent));
    DescendingIsUnique(cmp, Ids(a), Children(a, cmp, parent), Children(b, cmp, parent));
  }

  lemma {:induction false} SameProject(a: seq<Project>, b: seq<Project>, cmp: Compare, p: Project, parent: string,
                                       path: set<string>)
    requires Orders(cmp, Ids(a)) && WellKeyed(b) && SameElements(a, b)
    requires Siblings(a, [p], parent, path) && Siblings(b, [p], parent, path)
    ensures OrganizeProject(a, cmp, p, parent, path) == OrganizeProject(b, cmp, p, parent, path)
    decreases |ProjectMap(a).Keys - path|, 0
  {
    DescendIsSafe(a, cmp, p, parent, path);
    DescendIsSafe(b, cmp, p, parent, path);
    SameChildren(a, b, cmp, p.id);
    SameBelow(a, b, cmp, Children(a, cmp, p.id), p.id, path + {p.id});
  }

  lemma {:induction false} SameBelow(a: seq<Project>, b: seq<Project>, cmp: Compare, ps: seq<Project>, parent: string,
                                     path: set<string>)
    requires Orders(cmp, Ids(a)) && WellKeyed(b) && SameElements(a, b)
    requires Siblings(a, ps, parent, path) && Siblings(b, ps, parent, path)
    ensures OrganizeAll(a, cmp, ps, parent, path) == OrganizeAll(b, cmp, ps, parent, path)
    decreases |ProjectMap(a).Keys - path|, 1, |ps|
  {
    if ps != [] {
      SplitSiblings(a, ps, parent, path);
      SplitSiblings(b, ps, parent, path);
      SameProject(a, b, cmp, ps[0], parent, path);
      SameBelow(a, b, cmp, ps[1..], parent, path);
    }
  }

  /** The ordering depends only on the set of projects. */
  lemma OrderOfInputIsIrrelevant(a: seq<Project>, b: seq<Project>, cmp: Compare)
    requires Orders(cmp, Ids(a)) && WellKeyed(a) && WellKeyed(b) && SameElements(a, b)
    ensures OrganizeFromTheLeafsToRoot(a, cmp) == OrganizeFromTheLeafsToRoot(b, cmp)
  {
    RootsAreSafe(a, cmp);
    RootsAreSafe(b, cmp);
    SameChildren(a, b, cmp, "");
    SameBelow(a, b, cmp, Children(a, cmp, ""), "", {});
  }
}
