/** Ordering projects from the leaves to the roots, src/datastore/ProjectsDataStore.ts.

Parent links may form cycles of length two or more, so the recursion over children only ends because it
starts at the roots. The ghost parameter `path` makes that argument: it holds the projects the recursion
has come through, is closed under parents, and never meets the project it is about to enter. Siblings are sorted
by `localeCompare` on their ids, a parameter here: what the ordering contains, and that children come before
their parents, holds for any comparison, and only its independence of the input needs an order on the ids. */
module ProjectForest {
  import opened ParentChains

  type Compare = (string, string) -> int

  ghost predicate DistinctIds(ps: seq<Project>) {
    forall i, j :: 0 <= i < j < |ps| ==> ps[i].id != ps[j].id
  }

  /** Distinct, nonempty ids. */
  ghost predicate WellKeyed(all: seq<Project>) {
    DistinctIds(all) && forall p :: p in all ==> p.id != ""
  }

  // ---------------------------------------------------------------------------------------------
  // The ordering
  // ---------------------------------------------------------------------------------------------

  /** Siblings the recursion may enter: same parent, which is the end of the path or, for roots, nothing. */
  ghost predicate Siblings(all: seq<Project>, ps: seq<Project>, parent: string, path: set<string>) {
    var m := ProjectMap(all);
    && WellKeyed(all) && UpClosed(m, path) && (parent == "" || parent in path)
    && (forall p :: p in ps ==> p in all && p.parentProjectId == parent && p.id !in path)
    && DistinctIds(ps)
  }

  lemma StepDown(m: map<string, Project>, path: set<string>, p: Project)
    requires UpClosed(m, path) && p.id in m && m[p.id] == p && p.id !in path
    requires p.parentProjectId == "" || p.parentProjectId in path
    ensures UpClosed(m, path + {p.id})
    ensures |m.Keys - (path + {p.id})| < |m.Keys - path|
    ensures forall c :: c in m.Values && c.id in m && m[c.id] == c && c.parentProjectId == p.id && p.id != "" ==>
            c.id !in path + {p.id}
  {
    assert m.Keys - path == (m.Keys - (path + {p.id})) + {p.id};
  }

  /** Whoever may be entered has children who may be entered next: no cycle lies below a root. */
  lemma {:induction false} DescendIsSafe(all: seq<Project>, cmp: Compare, p: Project, parent: string, path: set<string>)
    requires Siblings(all, [p], parent, path)
    ensures Siblings(all, Children(all, cmp, p.id), p.id, path + {p.id})
    ensures |ProjectMap(all).Keys - (path + {p.id})| < |ProjectMap(all).Keys - path|
  {
    ProjectMapMeaning(all);
    ChildrenMeaning(all, cmp, p.id);
    assert p in [p];
    StepDown(ProjectMap(all), path, p);
  }

  lemma SplitSiblings(all: seq<Project>, ps: seq<Project>, parent: string, path: set<string>)
    requires Siblings(all, ps, parent, path) && ps != []
    ensures Siblings(all, [ps[0]], parent, path) && Siblings(all, ps[1..], parent, path)
  {
    assert ps == [ps[0]] + ps[1..];
  }

  /** `organizeProjects(p.id)`: the project, then everything below it. */
  function OrganizeProject(all: seq<Project>, cmp: Compare, p: Project, ghost parent: string, ghost path: set<string>)
    : seq<Project>
    requires Siblings(all, [p], parent, path)
    decreases |ProjectMap(all).Keys - path|, 0
  {
    DescendIsSafe(all, cmp, p, parent, path);
    [p] + OrganizeAll(all, cmp, Children(all, cmp, p.id), p.id, path + {p.id})
  }

  function OrganizeAll(all: seq<Project>, cmp: Compare, ps: seq<Project>, ghost parent: string, ghost path: set<string>)
    : seq<Project>
    requires Siblings(all, ps, parent, path)
    decreases |ProjectMap(all).Keys - path|, 1, |ps|
  {
    if ps == [] then []
    else
      SplitSiblings(all, ps, parent, path);
      OrganizeProject(all, cmp, ps[0], parent, path) + OrganizeAll(all, cmp, ps[1..], parent, path)
  }

  function Reversed(ps: seq<Project>): seq<Project> {
    if ps == [] then [] else Reversed(ps[1..]) + [ps[0]]
  }

  lemma RootsAreSafe(all: seq<Project>, cmp: Compare)
    requires WellKeyed(all)
    ensures Siblings(all, Children(all, cmp, ""), "", {})
  {
    ChildrenMeaning(all, cmp, "");
  }

  function OrganizeFromTheLeafsToRoot(all: seq<Project>, cmp: Compare): seq<Project>
    requires WellKeyed(all)
  {
    RootsAreSafe(all, cmp);
    Reversed(OrganizeAll(all, cmp, Children(all, cmp, ""), "", {}))
  }

  // ---------------------------------------------------------------------------------------------
  // The projects by id
  // ---------------------------------------------------------------------------------------------

  function ProjectMap(all: seq<Project>): map<string, Project> {
    if all == [] then map[] else ProjectMap(all[..|all| - 1])[all[|all| - 1].id := all[|all| - 1]]
  }

  lemma {:induction false} ProjectMapMeaning(all: seq<Project>)
    requires WellKeyed(all)
    ensures forall p :: p in all ==> p.id in ProjectMap(all) && ProjectMap(all)[p.id] == p
    ensures forall id :: id in ProjectMap(all) ==>
            ProjectMap(all)[id] in all && ProjectMap(all)[id].id == id && id != ""
  {
    if all != [] {
      var (init, last) := (all[..|all| - 1], all[|all| - 1]);
      InitWellKeyed(all);
      ProjectMapMeaning(init);
    }
  }

  lemma InitWellKeyed(all: seq<Project>)
    requires WellKeyed(all) && all != []
    ensures var init, last := all[..|all| - 1], all[|all| - 1];
            && WellKeyed(init) && last.id != ""
            && (forall p :: p in all <==> p in init || p == last)
            && (forall p :: p in init ==> p.id != last.id)
  {
    var init, last := all[..|all| - 1], all[|all| - 1];
    assert all == init + [last];
    forall p | p in init ensures p.id != last.id && p in all {
      var i :| 0 <= i < |init| && init[i] == p;
      assert all[i] == p;
    }
  }

  // ---------------------------------------------------------------------------------------------
  // The children of a project, sorted
  // ---------------------------------------------------------------------------------------------

  function WithParent(all: seq<Project>, parent: string): seq<Project> {
    if all == [] then []
    else (if all[0].parentProjectId == parent then [all[0]] else []) + WithParent(all[1..], parent)
  }

  /** Puts `p` before the first project whose id is not larger. */
  function Insert(cmp: Compare, p: Project, sorted: seq<Project>): seq<Project> {
    if sorted == [] || cmp(sorted[0].id, p.id) <= 0 then [p] + sorted
    else [sorted[0]] + Insert(cmp, p, sorted[1..])
  }

  /** A stable sort, largest id first. */
  function SortDescending(cmp: Compare, ps: seq<Project>): seq<Project> {
    if ps == [] then [] else Insert(cmp, ps[0], SortDescending(cmp, ps[1..]))
  }

  function Children(all: seq<Project>, cmp: Compare, parent: string): seq<Project> {
    SortDescending(cmp, WithParent(all, parent))
  }

  /** Distinct ids, seen from the head. */
  lemma DistinctCons(p: Project, rest: seq<Project>)
    ensures DistinctIds([p] + rest) <==> DistinctIds(rest) && forall q :: q in rest ==> q.id != p.id
  {
    var ps := [p] + rest;
    assert forall i :: 0 <= i < |rest| ==> ps[i + 1] == rest[i];
    if DistinctIds(ps) {
      forall i, j | 0 <= i < j < |rest| ensures rest[i].id != rest[j].id { assert ps[i + 1].id != ps[j + 1].id; }
      forall q | q in rest ensures q.id != p.id {
        var j :| 0 <= j < |rest| && rest[j] == q;
        assert ps[0].id != ps[j + 1].id;
      }
    }
  }

  lemma {:induction false} InsertMembers(cmp: Compare, p: Project, sorted: seq<Project>)
    requires DistinctIds([p] + sorted)
    ensures DistinctIds(Insert(cmp, p, sorted))
    ensures forall q :: q in Insert(cmp, p, sorted) <==> q == p || q in sorted
  {
    if sorted != [] && cmp(sorted[0].id, p.id) > 0 {
      var (head, tail) := (sorted[0], sorted[1..]);
      assert sorted == [head] + tail;
      DistinctCons(p, sorted);
      DistinctCons(head, tail);
      DistinctCons(p, tail);
      InsertMembers(cmp, p, tail);
      DistinctCons(head, Insert(cmp, p, tail));
    }
  }

  lemma {:induction false} SortMembers(cmp: Compare, ps: seq<Project>)
    requires DistinctIds(ps)
    ensures DistinctIds(SortDescending(cmp, ps))
    ensures forall p :: p in SortDescending(cmp, ps) <==> p in ps
  {
    if ps != [] {
      assert ps == [ps[0]] + ps[1..];
      DistinctCons(ps[0], ps[1..]);
      SortMembers(cmp, ps[1..]);
      DistinctCons(ps[0], SortDescending(cmp, ps[1..]));
      InsertMembers(cmp, ps[0], SortDescending(cmp, ps[1..]));
    }
  }

  lemma {:induction false} WithParentMeaning(all: seq<Project>, parent: string)
    requires WellKeyed(all)
    ensures var ps := WithParent(all, parent);
            && (forall p :: p in ps <==> p in all && p.parentProjectId == parent)
            && DistinctIds(ps)
  {
    if all != [] {
      assert all == [all[0]] + all[1..];
      DistinctCons(all[0], all[1..]);
      WithParentMeaning(all[1..], parent);
      DistinctCons(all[0], WithParent(all[1..], parent));
      assert [] + WithParent(all[1..], parent) == WithParent(all[1..], parent);
    }
  }

  lemma ChildrenMeaning(all: seq<Project>, cmp: Compare, parent: string)
    requires WellKeyed(all)
    ensures DistinctIds(Children(all, cmp, parent))
    ensures forall p :: p in Children(all, cmp, parent) <==> p in all && p.parentProjectId == parent
  {
    WithParentMeaning(all, parent);
    SortMembers(cmp, WithParent(all, parent));
  }
}
