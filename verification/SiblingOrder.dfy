/** The exact order in which src/datastore/ProjectsDataStore.ts lists projects: siblings by their ids, and every project
right behind its own descendants. */
module SiblingOrder {
  import opened ParentChains
  import opened ProjectForest
  import opened ProjectOrder

  /** Siblings stand in descending order (before reversal). */
  ghost predicate SiblingsDescend(cmp: Compare, s: seq<Project>) {
    forall i, j :: 0 <= i < j < |s| && s[i].parentProjectId == s[j].parentProjectId ==> cmp(s[i].id, s[j].id) > 0
  }

  /** The `i`-th project and its descendants are the `n` projects from there on. */
  ghost predicate Block(m: map<string, Project>, s: seq<Project>, i: nat, n: nat)
    requires i < |s|
  {
    && 0 < n <= |s| - i
    && forall j :: 0 <= j < |s| ==> (Below(m, s[j].id, s[i].id) <==> i <= j < i + n)
  }

  ghost predicate HasBlock(m: map<string, Project>, s: seq<Project>, i: nat)
    requires i < |s|
  {
    exists n: nat :: Block(m, s, i, n)
  }

  ghost predicate Blocks(m: map<string, Project>, s: seq<Project>) {
    forall i :: 0 <= i < |s| ==> HasBlock(m, s, i)
  }

  // ---------------------------------------------------------------------------------------------
  // Putting lists together
  // ---------------------------------------------------------------------------------------------

  lemma ConcatSiblings(cmp: Compare, a: seq<Project>, b: seq<Project>)
    requires SiblingsDescend(cmp, a) && SiblingsDescend(cmp, b)
    requires forall p, q :: p in a && q in b && p.parentProjectId == q.parentProjectId ==> cmp(p.id, q.id) > 0
    ensures SiblingsDescend(cmp, a + b)
  {
    var c := a + b;
    forall i, j | 0 <= i < j < |c| && c[i].parentProjectId == c[j].parentProjectId ensures cmp(c[i].id, c[j].id) > 0 {
      if i < |a| <= j {
        assert c[i] in a && c[j] in b;
      } else if |a| <= i {
        assert c[i] == b[i - |a|] && c[j] == b[j - |a|];
      }
    }
  }

  /** Nothing in one list lies below anything in the other. */
  ghost predicate Apart(m: map<string, Project>, a: seq<Project>, b: seq<Project>) {
    forall p, q :: p in a && q in b ==> !Below(m, p.id, q.id) && !Below(m, q.id, p.id)
  }

  lemma ConcatBlocks(m: map<string, Project>, a: seq<Project>, b: seq<Project>)
    requires Blocks(m, a) && Blocks(m, b) && Apart(m, a, b)
    ensures Blocks(m, a + b)
  {
    var c := a + b;
    forall i | 0 <= i < |c| ensures HasBlock(m, c, i) {
      if i < |a| {
        assert HasBlock(m, a, i);
        var n: nat :| Block(m, a, i, n);
        assert forall j :: |a| <= j < |c| ==> c[j] in b && c[i] in a;
        assert Block(m, c, i, n);
      } else {
        assert HasBlock(m, b, i - |a|);
        var n: nat :| Block(m, b, i - |a|, n);
        LaterBlock(m, a, b, i - |a|, n);
      }
    }
  }

  lemma LaterBlock(m: map<string, Project>, a: seq<Project>, b: seq<Project>, i: nat, n: nat)
    requires i < |b| && Block(m, b, i, n) && forall p :: p in a ==> !Below(m, p.id, b[i].id)
    ensures Block(m, a + b, |a| + i, n)
  {
    var c := a + b;
    forall j | 0 <= j < |c| ensures Below(m, c[j].id, b[i].id) <==> |a| + i <= j < |a| + i + n {
      if j < |a| {
        assert c[j] in a;
      } else {
        assert c[j] == b[j - |a|];
      }
    }
  }

  lemma ConsBlocks(m: map<string, Project>, p: Project, below: seq<Project>)
    requires Blocks(m, below) && Below(m, p.id, p.id)
    requires forall q :: q in below ==> Below(m, q.id, p.id) && !Below(m, p.id, q.id)
    ensures Blocks(m, [p] + below)
  {
    var c := [p] + below;
    forall i | 0 <= i < |c| ensures HasBlock(m, c, i) {
      if i == 0 {
        assert forall j :: 1 <= j < |c| ==> c[j] in below;
        assert Block(m, c, 0, |c|);
      } else {
        assert HasBlock(m, below, i - 1);
        var n: nat :| Block(m, below, i - 1, n);
        assert below[i - 1] in below;
        LaterBlock(m, [p], below, i - 1, n);
      }
    }
  }

  // ---------------------------------------------------------------------------------------------
  // What the recursion lists
  // ---------------------------------------------------------------------------------------------

  lemma BelowAgain(m: map<string, Project>, d: string, b: string, a: string)
    requires Below(m, d, b) && Below(m, b, a)
    ensures Below(m, d, a)
  {
    var k: nat :| Under(m, d, b, k);
    var l: nat :| Under(m, b, a, l);
    UnderTransitive(m, d, b, a, k, l);
  }

  /** What lies below the first sibling, and what lies below the others. */
  ghost predicate Split(all: seq<Project>, ps: seq<Project>, p: Project, q: Project) {
    && ps != [] && p in all && q in all
    && Below(ProjectMap(all), p.id, ps[0].id) && BelowSome(ProjectMap(all), q.id, ps[1..])
  }

  lemma OtherSibling(all: seq<Project>, ps: seq<Project>, parent: string, path: set<string>, q: string)
    returns (b: Project)
    requires Siblings(all, ps, parent, path) && ps != [] && BelowSome(ProjectMap(all), q, ps[1..])
    ensures b in ps && b in ps[1..] && b != ps[0] && Below(ProjectMap(all), q, b.id)
  {
    b :| b in ps[1..] && Below(ProjectMap(all), q, b.id);
    var j :| 0 <= j < |ps[1..]| && ps[1..][j] == b;
    assert b == ps[j + 1];
  }

  lemma SubtreesApart(all: seq<Project>, ps: seq<Project>, parent: string, path: set<string>, p: Project, q: Project)
    requires Siblings(all, ps, parent, path) && Split(all, ps, p, q)
    ensures !Below(ProjectMap(all), p.id, q.id) && !Below(ProjectMap(all), q.id, p.id)
  {
    var m := ProjectMap(all);
    var b := OtherSibling(all, ps, parent, path, q.id);
    if Below(m, p.id, q.id) {
      BelowAgain(m, p.id, q.id, b.id);
      SiblingsDisjoint(all, ps, parent, path, p.id, ps[0], b);
    }
    if Below(m, q.id, p.id) {
      BelowAgain(m, q.id, p.id, ps[0].id);
      SiblingsDisjoint(all, ps, parent, path, q.id, ps[0], b);
    }
  }

  /** A project below a sibling, other than the sibling itself, has its parent below that sibling. */
  lemma ParentBelow(all: seq<Project>, ps: seq<Project>, parent: string, path: set<string>, p: Project, a: Project)
    requires Siblings(all, ps, parent, path) && a in ps && p in all && Below(ProjectMap(all), p.id, a.id)
    ensures p == a || (Below(ProjectMap(all), p.parentProjectId, a.id) && p.parentProjectId != parent)
  {
    var m := ProjectMap(all);
    ProjectMapMeaning(all);
    assert m[p.id] == p && m[a.id] == a;
    var k: nat :| Under(m, p.id, a.id, k);
    if k > 0 {
      assert Under(m, p.parentProjectId, a.id, k - 1) && p.parentProjectId in m;
      SiblingsDisjoint(all, ps, parent, path, p.parentProjectId, a, a);
    }
  }

  /** Projects below different siblings share a parent only if they are those siblings. */
  lemma SharedParent(all: seq<Project>, ps: seq<Project>, parent: string, path: set<string>, p: Project, q: Project)
    requires Siblings(all, ps, parent, path) && Split(all, ps, p, q) && p.parentProjectId == q.parentProjectId
    ensures p == ps[0] && q in ps[1..]
  {
    var b := OtherSibling(all, ps, parent, path, q.id);
    assert ps[0] in ps;
    ParentBelow(all, ps, parent, path, p, ps[0]);
    ParentBelow(all, ps, parent, path, q, b);
    if p != ps[0] && q != b {
      SiblingsDisjoint(all, ps, parent, path, p.parentProjectId, ps[0], b);
    }
    assert ps[0].parentProjectId == parent && b.parentProjectId == parent;
  }

  lemma {:induction false} NotBelowItsOwn(all: seq<Project>, p: Project, parent: string, path: set<string>, q: string)
    requires Siblings(all, [p], parent, path) && q !in path + {p.id}
    ensures !Below(ProjectMap(all), p.id, q)
  {
    var m := ProjectMap(all);
    ProjectMapMeaning(all);
    assert p in [p] && m[p.id] == p;
    forall k: nat ensures !Under(m, p.id, q, k) {
      if k > 0 && Under(m, p.id, q, k) {
        assert Under(m, parent, q, k - 1) && parent in m;
        AncestorsStayIn(m, path, parent, q, k - 1);
      }
    }
  }

  lemma ListedOffPath(all: seq<Project>, cmp: Compare, ps: seq<Project>, parent: string, path: set<string>)
    requires Siblings(all, ps, parent, path)
    ensures OffPath(all, OrganizeAll(all, cmp, ps, parent, path), path)
  {
    AllMembers(all, cmp, ps, parent, path);
    forall q | q in OrganizeAll(all, cmp, ps, parent, path) ensures q in all && q.id !in path {
      var c :| c in ps && Below(ProjectMap(all), q.id, c.id);
      SiblingsDisjoint(all, ps, parent, path, q.id, c, c);
    }
  }

  lemma {:induction false} ProjectBlocks(all: seq<Project>, cmp: Compare, p: Project, parent: string, path: set<string>)
    requires Siblings(all, [p], parent, path)
    ensures Blocks(ProjectMap(all), OrganizeProject(all, cmp, p, parent, path))
    decreases |ProjectMap(all).Keys - path|, 0
  {
    DescendIsSafe(all, cmp, p, parent, path);
    var (m, cs, within) := (ProjectMap(all), Children(all, cmp, p.id), path + {p.id});
    var below := OrganizeAll(all, cmp, cs, p.id, within);
    AllBlocks(all, cmp, cs, p.id, within);
    ListedOffPath(all, cmp, cs, p.id, within);
    ProjectMembers(all, cmp, p, parent, path);
    ProjectMapMeaning(all);
    assert p in [p] && Under(m, p.id, p.id, 0);
    forall q | q in below ensures Below(m, q.id, p.id) && !Below(m, p.id, q.id) {
      assert q in OrganizeProject(all, cmp, p, parent, path);
      NotBelowItsOwn(all, p, parent, path, q.id);
    }
    ConsBlocks(m, p, below);
  }

  lemma {:induction false} AllBlocks(all: seq<Project>, cmp: Compare, ps: seq<Project>, parent: string,
                                     path: set<string>)
    requires Siblings(all, ps, parent, path)
    ensures Blocks(ProjectMap(all), OrganizeAll(all, cmp, ps, parent, path))
    decreases |ProjectMap(all).Keys - path|, 1, |ps|
  {
    if ps != [] {
      SplitSiblings(all, ps, parent, path);
      ProjectBlocks(all, cmp, ps[0], parent, path);
      AllBlocks(all, cmp, ps[1..], parent, path);
      ProjectMembers(all, cmp, ps[0], parent, path);
      AllMembers(all, cmp, ps[1..], parent, path);
      var (a, b) := (OrganizeProject(all, cmp, ps[0], parent, path), OrganizeAll(all, cmp, ps[1..], parent, path));
      forall p, q | p in a && q in b
        ensures !Below(ProjectMap(all), p.id, q.id) && !Below(ProjectMap(all), q.id, p.id)
      {
        SubtreesApart(all, ps, parent, path, p, q);
      }
      ConcatBlocks(ProjectMap(all), a, b);
    }
  }

  lemma {:induction false} ProjectDescends(all: seq<Project>, cmp: Compare, p: Project, parent: string,
                                           path: set<string>)
    requires Siblings(all, [p], parent, path) && Orders(cmp, Ids(all))
    ensures SiblingsDescend(cmp, OrganizeProject(all, cmp, p, parent, path))
    decreases |ProjectMap(all).Keys - path|, 0
  {
    DescendIsSafe(all, cmp, p, parent, path);
    var (cs, within) := (Children(all, cmp, p.id), path + {p.id});
    var below := OrganizeAll(all, cmp, cs, p.id, within);
    ChildrenDescend(all, cmp, p.id);
    AllDescend(all, cmp, cs, p.id, within);
    AllMembers(all, cmp, cs, p.id, within);
    forall q | q in below ensures q.parentProjectId != p.parentProjectId {
      OtherParent(all, p, parent, path, cs, q);
    }
    ConcatSiblings(cmp, [p], below);
  }

  /** What lies below a project has parents off the path, or the project itself. */
  lemma OtherParent(all: seq<Project>, p: Project, parent: string, path: set<string>, cs: seq<Project>, q: Project)
    requires Siblings(all, [p], parent, path) && Siblings(all, cs, p.id, path + {p.id})
    requires q in all && BelowSome(ProjectMap(all), q.id, cs)
    ensures q.parentProjectId != p.parentProjectId
  {
    assert p in [p];
    var c :| c in cs && Below(ProjectMap(all), q.id, c.id);
    ParentBelow(all, cs, p.id, path + {p.id}, q, c);
    if q != c {
      SiblingsDisjoint(all, cs, p.id, path + {p.id}, q.parentProjectId, c, c);
      BelowIsStored(all, q.parentProjectId, c.id);
    }
  }

  lemma BelowIsStored(all: seq<Project>, d: string, a: string)
    requires WellKeyed(all) && Below(ProjectMap(all), d, a)
    ensures d != ""
  {
    ProjectMapMeaning(all);
    var k: nat :| Under(ProjectMap(all), d, a, k);
  }

  lemma ChildrenDescend(all: seq<Project>, cmp: Compare, parent: string)
    requires WellKeyed(all) && Orders(cmp, Ids(all))
    ensures Descending(cmp, Children(all, cmp, parent))
  {
    WithParentMeaning(all, parent);
    SortDescends(cmp, Ids(all), WithParent(all, parent));
  }

  lemma {:induction false} AllDescend(all: seq<Project>, cmp: Compare, ps: seq<Project>, parent: string,
                                      path: set<string>)
    requires Siblings(all, ps, parent, path) && Orders(cmp, Ids(all)) && Descending(cmp, ps)
    ensures SiblingsDescend(cmp, OrganizeAll(all, cmp, ps, parent, path))
    decreases |ProjectMap(all).Keys - path|, 1, |ps|
  {
    if ps != [] {
      assert ps == [ps[0]] + ps[1..];
      DescendingCons(cmp, ps[0], ps[1..]);
      SplitSiblings(all, ps, parent, path);
      ProjectDescends(all, cmp, ps[0], parent, path);
      AllDescend(all, cmp, ps[1..], parent, path);
      ProjectMembers(all, cmp, ps[0], parent, path);
      AllMembers(all, cmp, ps[1..], parent, path);
      var (a, b) := (OrganizeProject(all, cmp, ps[0], parent, path), OrganizeAll(all, cmp, ps[1..], parent, path));
      forall p, q | p in a && q in b && p.parentProjectId == q.parentProjectId ensures cmp(p.id, q.id) > 0 {
        SharedParent(all, ps, parent, path, p, q);
      }
      ConcatSiblings(cmp, a, b);
    }
  }

  // ---------------------------------------------------------------------------------------------
  // The list itself
  // ---------------------------------------------------------------------------------------------

  /** Of two projects with the same parent, roots included, the one with the smaller id stands first. */
  lemma SiblingsAscend(all: seq<Project>, cmp: Compare, r: seq<Project>, i: nat, j: nat)
    requires WellKeyed(all) && Orders(cmp, Ids(all)) && r == OrganizeFromTheLeafsToRoot(all, cmp) && i < |r| && j < |r|
    requires r[i].parentProjectId == r[j].parentProjectId
    ensures cmp(r[i].id, r[j].id) < 0 <==> i < j
  {
    RootsAreSafe(all, cmp);
    var roots := Children(all, cmp, "");
    var ps := OrganizeAll(all, cmp, roots, "", {});
    ChildrenDescend(all, cmp, "");
    AllDescend(all, cmp, roots, "", {});
    ReversedMembers(ps);
    ReversedAt(ps, i);
    ReversedAt(ps, j);
    OrganizeMembers(all, cmp, r[i]);
    OrganizeMembers(all, cmp, r[j]);
    assert r[i].id in Ids(all) && r[j].id in Ids(all);
  }

  /** A project's descendants fill the stretch right before it. */
  lemma DescendantsAreAdjacent(all: seq<Project>, cmp: Compare, r: seq<Project>, i: nat) returns (n: nat)
    requires WellKeyed(all) && r == OrganizeFromTheLeafsToRoot(all, cmp) && i < |r|
    ensures n <= i
    ensures forall j :: 0 <= j < |r| ==> (Below(ProjectMap(all), r[j].id, r[i].id) <==> i - n <= j <= i)
  {
    RootsAreSafe(all, cmp);
    var ps := OrganizeAll(all, cmp, Children(all, cmp, ""), "", {});
    AllBlocks(all, cmp, Children(all, cmp, ""), "", {});
    ReversedMembers(ps);
    ReversedAt(ps, i);
    assert HasBlock(ProjectMap(all), ps, |ps| - 1 - i);
    var k: nat :| Block(ProjectMap(all), ps, |ps| - 1 - i, k);
    n := k - 1;
    forall j | 0 <= j < |r| ensures Below(ProjectMap(all), r[j].id, r[i].id) <==> i - n <= j <= i { ReversedAt(ps, j); }
  }

  // ---------------------------------------------------------------------------------------------
  // These laws determine the list
  // ---------------------------------------------------------------------------------------------

  /** The projects that reach a root, each once; siblings by their ids; descendants right before their ancestor. */
  ghost predicate IsOrdering(all: seq<Project>, cmp: Compare, r: seq<Project>) {
    && DistinctIds(r)
    && (forall p :: p in r <==> p in all && ReachesRoot(ProjectMap(all), p.id))
    && (forall i, j :: 0 <= i < |r| && 0 <= j < |r| && r[i].parentProjectId == r[j].parentProjectId ==>
          (cmp(r[i].id, r[j].id) < 0 <==> i < j))
    && (forall i :: 0 <= i < |r| ==> HasStretch(ProjectMap(all), r, i))
  }

  ghost predicate HasStretch(m: map<string, Project>, r: seq<Project>, i: nat)
    requires i < |r|
  {
    exists n: nat :: Stretch(m, r, i, n)
  }

  ghost predicate Stretch(m: map<string, Project>, r: seq<Project>, i: nat, n: nat)
    requires i < |r|
  {
    n <= i && forall j :: 0 <= j < |r| ==> (Below(m, r[j].id, r[i].id) <==> i - n <= j <= i)
  }

  /** `a` and `b` are different children of one project, or different roots, with the larger id behind. */
  ghost predicate SmallerSibling(m: map<string, Project>, cmp: Compare, a: string, b: string) {
    && a in m && b in m && m[a].parentProjectId == m[b].parentProjectId && cmp(a, b) < 0
    && ReachesRoot(m, a) && ReachesRoot(m, b)
  }

  /** Why `a` stands before `b`: it lies below `b`, or below a smaller sibling of an ancestor of `b`. */
  ghost predicate Precedes(m: map<string, Project>, cmp: Compare, a: string, b: string) {
    Below(m, a, b) || exists x, y :: Below(m, a, x) && Below(m, b, y) && SmallerSibling(m, cmp, x, y)
  }

  lemma AncestorReachesRoot(m: map<string, Project>, d: string, a: string)
    requires "" !in m && ReachesRoot(m, d) && Below(m, d, a)
    ensures a in m && ReachesRoot(m, a)
  {
    var r :| r in m && m[r].parentProjectId == "" && Below(m, d, r);
    var k: nat :| Under(m, d, r, k);
    var l: nat :| Under(m, d, a, l);
    UnderEndIsStored(m, d, a, l);
    if l <= k {
      Comparable(m, d, a, r, l, k);
    } else {
      Comparable(m, d, r, a, k, l);
    }
  }

  /** Two projects of which neither lies below the other part ways at two siblings. */
  lemma {:induction false} PartWays(m: map<string, Project>, a: string, b: string, x: string, r: string, k: nat)
    returns (y: string, z: string)
    requires "" !in m && a in m && b in m && ReachesRoot(m, a) && ReachesRoot(m, b) && !Below(m, a, b)
    requires Below(m, a, x) && !Below(m, b, x)
    requires Under(m, x, r, k) && r in m && m[r].parentProjectId == ""
    ensures y in m && z in m && y != z && m[y].parentProjectId == m[z].parentProjectId
    ensures Below(m, a, y) && Below(m, b, z)
    decreases k
  {
    UnderEndIsStored(m, x, r, k);
    if k == 0 {
      y := x;
      z :| z in m && m[z].parentProjectId == "" && Below(m, b, z);
    } else {
      var p := m[x].parentProjectId;
      assert Under(m, p, r, k - 1) && Under(m, p, p, 0) && Under(m, x, p, 1);
      BelowAgain(m, a, x, p);
      if Below(m, b, p) {
        var l: nat :| Under(m, b, p, l);
        y := x;
        z := LastLink(m, b, p, l);
        assert Below(m, b, z);
      } else {
        y, z := PartWays(m, a, b, p, r, k - 1);
      }
    }
  }

  lemma OnePrecedes(m: map<string, Project>, cmp: Compare, a: string, b: string)
    requires "" !in m && Orders(cmp, m.Keys) && a in m && b in m && a != b && ReachesRoot(m, a) && ReachesRoot(m, b)
    ensures Precedes(m, cmp, a, b) || Precedes(m, cmp, b, a)
  {
    if !Below(m, a, b) && !Below(m, b, a) {
      var r :| r in m && m[r].parentProjectId == "" && Below(m, a, r);
      var k: nat :| Under(m, a, r, k);
      assert Under(m, a, a, 0) && Below(m, a, a);
      var y, z := PartWays(m, a, b, a, r, k);
      AncestorReachesRoot(m, a, y);
      AncestorReachesRoot(m, b, z);
      assert cmp(y, z) < 0 || cmp(z, y) < 0;
      assert SmallerSibling(m, cmp, y, z) || SmallerSibling(m, cmp, z, y);
    }
  }

  lemma Located(r: seq<Project>, p: Project) returns (i: nat)
    requires p in r
    ensures i < |r| && r[i] == p
  {
    i :| 0 <= i < |r| && r[i] == p;
  }

  /** In a list that obeys the laws, whoever precedes stands first. */
  lemma PrecedingStandsFirst(all: seq<Project>, cmp: Compare, r: seq<Project>, i: nat, j: nat)
    requires WellKeyed(all) && IsOrdering(all, cmp, r) && i < |r| && j < |r| && i != j
    requires Precedes(ProjectMap(all), cmp, r[i].id, r[j].id)
    ensures i < j
  {
    var m := ProjectMap(all);
    ProjectMapMeaning(all);
    assert r[i] in r && r[j] in r && HasStretch(m, r, j);
    if Below(m, r[i].id, r[j].id) {
      var n: nat :| Stretch(m, r, j, n);
    } else {
      var x, y :| Below(m, r[i].id, x) && Below(m, r[j].id, y) && SmallerSibling(m, cmp, x, y);
      var g := Located(r, m[x]);
      var h := Located(r, m[y]);
      NotUnderSibling(m, cmp, r, g, h);
      assert HasStretch(m, r, g) && HasStretch(m, r, h);
      var k: nat :| Stretch(m, r, g, k);
      var l: nat :| Stretch(m, r, h, l);
      assert i <= g && !(h - l <= g <= h) && h - l <= j && g < h;
    }
  }

  /** Of two different siblings that reach a root, neither lies below the other. */
  lemma NotUnderSibling(m: map<string, Project>, cmp: Compare, r: seq<Project>, g: nat, h: nat)
    requires "" !in m && g < |r| && h < |r| && r[g].id in m && r[h].id in m
    requires m[r[g].id] == r[g] && m[r[h].id] == r[h] && r[g].id != r[h].id
    requires r[g].parentProjectId == r[h].parentProjectId && ReachesRoot(m, r[h].id)
    ensures !Below(m, r[g].id, r[h].id)
  {
    var (a, b, p) := (r[g].id, r[h].id, r[h].parentProjectId);
    if Below(m, a, b) {
      var k: nat :| Under(m, a, b, k);
      assert k > 0 && Under(m, p, b, k - 1);
      assert Under(m, b, b, k);
      var root :| root in m && m[root].parentProjectId == "" && Below(m, b, root);
      var n: nat :| Under(m, b, root, n);
      CycleHasNoRoot(m, b, k, root, n);
    }
  }

  ghost predicate SameOrder(r: seq<Project>, s: seq<Project>) {
    forall i, j, k, l | 0 <= i < |r| && 0 <= j < |r| && 0 <= k < |s| && 0 <= l < |s| ::
      r[i] == s[k] && r[j] == s[l] ==> (i < j <==> k < l)
  }

  /** The ordering obeys the laws, and it is the only list that does. */
  lemma OrderingIsDetermined(all: seq<Project>, cmp: Compare, r: seq<Project>)
    requires WellKeyed(all) && Orders(cmp, Ids(all))
    ensures IsOrdering(all, cmp, r) <==> r == OrganizeFromTheLeafsToRoot(all, cmp)
  {
    var s := OrganizeFromTheLeafsToRoot(all, cmp);
    OrganizedIsOrdering(all, cmp, s);
    if IsOrdering(all, cmp, r) {
      OrderingsAgree(all, cmp, r, s);
      SameOrderSame(r, s);
    }
  }

  lemma OrganizedIsOrdering(all: seq<Project>, cmp: Compare, r: seq<Project>)
    requires WellKeyed(all) && Orders(cmp, Ids(all)) && r == OrganizeFromTheLeafsToRoot(all, cmp)
    ensures IsOrdering(all, cmp, r)
  {
    forall p ensures p in r <==> p in all && ReachesRoot(ProjectMap(all), p.id) { OrganizeMembers(all, cmp, p); }
    forall i, j | 0 <= i < j < |r| ensures r[i].id != r[j].id { OrganizeOrder(all, cmp, r, i, j); }
    forall i, j | 0 <= i < |r| && 0 <= j < |r| && r[i].parentProjectId == r[j].parentProjectId
      ensures cmp(r[i].id, r[j].id) < 0 <==> i < j
    {
      SiblingsAscend(all, cmp, r, i, j);
    }
    forall i | 0 <= i < |r| ensures HasStretch(ProjectMap(all), r, i) {
      var n := DescendantsAreAdjacent(all, cmp, r, i);
      assert Stretch(ProjectMap(all), r, i, n);
    }
  }

  lemma OrderingsAgree(all: seq<Project>, cmp: Compare, r: seq<Project>, s: seq<Project>)
    requires WellKeyed(all) && Orders(cmp, Ids(all)) && IsOrdering(all, cmp, r) && IsOrdering(all, cmp, s)
    ensures SameOrder(r, s) && SameElements(r, s)
  {
    forall i, j, k, l | 0 <= i < |r| && 0 <= j < |r| && 0 <= k < |s| && 0 <= l < |s| && r[i] == s[k] && r[j] == s[l]
      ensures i < j <==> k < l
    {
      if i == j {
        assert k == l;
      } else {
        ListedDiffer(r, i, j);
        PairAgrees(all, cmp, r, s, i, j, k, l);
      }
    }
  }

  lemma ListedDiffer(r: seq<Project>, i: nat, j: nat)
    requires DistinctIds(r) && i < |r| && j < |r| && i != j
    ensures r[i].id != r[j].id
  {
    assert i < j || j < i;
  }

  lemma PairAgrees(all: seq<Project>, cmp: Compare, r: seq<Project>, s: seq<Project>, i: nat, j: nat, k: nat, l: nat)
    requires WellKeyed(all) && Orders(cmp, Ids(all)) && IsOrdering(all, cmp, r) && IsOrdering(all, cmp, s)
    requires i < |r| && j < |r| && k < |s| && l < |s| && r[i] == s[k] && r[j] == s[l] && r[i].id != r[j].id
    ensures i < j <==> k < l
  {
    var m := ProjectMap(all);
    ProjectMapMeaning(all);
    assert r[i] in r && r[j] in r;
    assert forall id :: id in m ==> id in Ids(all);
    OnePrecedes(m, cmp, r[i].id, r[j].id);
    if Precedes(m, cmp, r[i].id, r[j].id) {
      PrecedingStandsFirst(all, cmp, r, i, j);
      PrecedingStandsFirst(all, cmp, s, k, l);
    } else {
      PrecedingStandsFirst(all, cmp, r, j, i);
      PrecedingStandsFirst(all, cmp, s, l, k);
    }
  }

  /** Two lists without repetition that hold the same projects in the same order are equal. */
  lemma {:induction false} SameOrderSame(r: seq<Project>, s: seq<Project>)
    requires DistinctIds(r) && DistinctIds(s) && SameOrder(r, s) && SameElements(r, s)
    ensures r == s
  {
    EmptyTogether(r, s);
    if r != [] {
      assert r[0] in s && s[0] in r;
      SameFirst(r, s);
      assert r == [r[0]] + r[1..] && s == [s[0]] + s[1..];
      TailsAgree(r, s);
      SameOrderSame(r[1..], s[1..]);
    }
  }

  lemma SameFirst(r: seq<Project>, s: seq<Project>)
    requires r != [] && s != [] && r[0] in s && s[0] in r && SameOrder(r, s)
    ensures r[0] == s[0]
  {
    var k := Located(s, r[0]);
    var i := Located(r, s[0]);
    assert i < 0 <==> 0 < k;
    assert 0 < i <==> k < 0;
  }

  lemma TailsAgree(r: seq<Project>, s: seq<Project>)
    requires r != [] && s != [] && r[0] == s[0]
    requires DistinctIds(r) && DistinctIds(s) && SameOrder(r, s) && SameElements(r, s)
    ensures DistinctIds(r[1..]) && DistinctIds(s[1..]) && SameOrder(r[1..], s[1..]) && SameElements(r[1..], s[1..])
  {
    assert r == [r[0]] + r[1..] && s == [s[0]] + s[1..];
    DistinctCons(r[0], r[1..]);
    DistinctCons(s[0], s[1..]);
    SameTails(r, s);
    TailOrder(r, s);
  }

  lemma TailOrder(r: seq<Project>, s: seq<Project>)
    requires r != [] && s != [] && SameOrder(r, s)
    ensures SameOrder(r[1..], s[1..])
  {
    forall i, j, k, l | 0 <= i < |r| - 1 && 0 <= j < |r| - 1 && 0 <= k < |s| - 1 && 0 <= l < |s| - 1
      ensures r[1..][i] == s[1..][k] && r[1..][j] == s[1..][l] ==> (i < j <==> k < l)
    {
      assert r[i + 1] == s[k + 1] && r[j + 1] == s[l + 1] ==> (i + 1 < j + 1 <==> k + 1 < l + 1);
    }
  }
}
