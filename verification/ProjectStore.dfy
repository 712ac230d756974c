/** The project store of src/datastore/ProjectsDataStore.ts: saving, deleting, and deleting in bulk.

`projects` is the persisted dictionary, keyed by project id. Which projects hold apps belongs to the app
store, so it is a parameter, read afresh by each delete. */
module ProjectStore {
  import opened Wrappers
  import opened ParentChains
  import opened ProjectForest
  import opened ProjectOrder
  import opened Text

  datatype Error =
    | BadName | IdMismatch | BadId | OwnParent | BadParent | NoSuchParent | NotFound | HasApps | HasSubProjects

  type Projects = map<string, Project>

  predicate NameAllowed(name: string) {
    && name != "" && |name| < 50
    && IsLower(name[0])
    && (IsLower(name[|name| - 1]) || IsDigit(name[|name| - 1]))
    && (forall c :: c in name ==> IsLower(c) || IsDigit(c) || c == '-')
    && !HasDouble(name, '-')
    && name != "captain" && name != "root"
  }

  predicate ValidUuid(id: string) {
    && |id| == 36
    && (forall i :: 0 <= i < 36 ==> if i in {8, 13, 18, 23} then id[i] == '-' else IsHex(id[i]))
    && '1' <= id[14] <= '5'
    && id[19] in {'8', '9', 'a', 'b', 'A', 'B'}
  }

  function TrimAll(p: Project): Project {
    Project(Trim(p.id), Trim(p.name), Trim(p.parentProjectId), Trim(p.description))
  }

  // ---------------------------------------------------------------------------------------------
  // Specification
  // ---------------------------------------------------------------------------------------------

  /** What a save stores, or why it refuses; the checks are in the source's order. */
  function Save(m: Projects, projectId: string, project: Project): Result<Project, Error> {
    var id := Trim(projectId);
    var p := TrimAll(project);
    if !NameAllowed(p.name) then Err(BadName)
    else if p.id != id then Err(IdMismatch)
    else if !ValidUuid(p.id) then Err(BadId)
    else if p.parentProjectId != "" && p.parentProjectId == p.id then Err(OwnParent)
    else if p.parentProjectId != "" && !ValidUuid(p.parentProjectId) then Err(BadParent)
    else if p.parentProjectId != "" && !(exists q | q in m.Values :: q.id == p.parentProjectId) then Err(NoSuchParent)
    else Ok(p)
  }

  predicate HasChild(m: Projects, id: string) {
    exists q | q in m.Values :: q.parentProjectId == id
  }

  function Delete(m: Projects, id: string, apps: set<string>): Result<Projects, Error> {
    if id !in m then Err(NotFound)
    else if id in apps then Err(HasApps)
    else if HasChild(m, id) then Err(HasSubProjects)
    else Ok(m - {id})
  }

  /** Every delete is attempted, in order; one that is refused changes nothing and stops no other. The flag
      says whether any was refused. */
  function DeleteEach(m: Projects, ids: seq<string>, apps: set<string>): (Projects, bool)
    decreases |ids|
  {
    if ids == [] then (m, false)
    else
      var r := Delete(m, ids[0], apps);
      var (rest, failed) := DeleteEach(if r.Ok? then r.value else m, ids[1..], apps);
      (rest, failed || r.Err?)
  }

  function Chosen(ordered: seq<Project>, ids: set<string>): seq<string> {
    if ordered == [] then []
    else (if ordered[0].id in ids then [ordered[0].id] else []) + Chosen(ordered[1..], ids)
  }

  /** Each project is stored under its own id, and every nonempty parent is the id of a stored project. */
  ghost predicate Intact(m: Projects) {
    forall id :: id in m ==>
      && m[id].id == id && ValidUuid(id)
      && (m[id].parentProjectId != "" ==> m[id].parentProjectId in m && m[id].parentProjectId != id)
  }

  // ---------------------------------------------------------------------------------------------
  // The class
  // ---------------------------------------------------------------------------------------------

  class ProjectsDataStore {
    var projects: Projects
    const localeCompare: Compare

    constructor (localeCompare: Compare)
      ensures projects == map[] && this.localeCompare == localeCompare
    {
      projects := map[];
      this.localeCompare := localeCompare;
    }

    /** The stored projects, in whatever order the dictionary enumerates them. */
    method GetAllProjects() returns (all: seq<Project>)
      requires Intact(projects)
      ensures WellKeyed(all) && forall p :: p in all <==> p in projects.Values
    {
      all := [];
      var todo := projects.Keys;
      while todo != {}
        invariant todo <= projects.Keys
        invariant forall p :: p in all <==> p.id in projects && p == projects[p.id] && p.id !in todo
        invariant forall i, j :: 0 <= i < j < |all| ==> all[i].id != all[j].id
        decreases todo
      {
        var id :| id in todo;
        all := all + [projects[id]];
        todo := todo - {id};
      }
    }

    method SaveProject(projectId: string, project: Project) returns (r: Result<Project, Error>)
      requires Intact(projects)
      modifies this
      ensures r == Save(old(projects), projectId, project)
      ensures projects == if r.Ok? then old(projects)[r.value.id := r.value] else old(projects)
      ensures Intact(projects)
    {
      var id := Trim(projectId);
      var p := TrimAll(project);
      if !NameAllowed(p.name) { return Err(BadName); }
      if p.id != id { return Err(IdMismatch); }
      if !ValidUuid(p.id) { return Err(BadId); }
      if p.parentProjectId != "" {
        if p.parentProjectId == p.id { return Err(OwnParent); }
        if !ValidUuid(p.parentProjectId) { return Err(BadParent); }
        if !exists q | q in projects.Values :: q.id == p.parentProjectId { return Err(NoSuchParent); }
      }
      projects := projects[id := p];
      r := Ok(p);
    }

    method DeleteProject(projectId: string, appProjects: set<string>) returns (r: Result<(), Error>)
      requires Intact(projects)
      modifies this
      ensures var d := Delete(old(projects), Trim(projectId), appProjects);
              if d.Ok? then r == Ok(()) && projects == d.value else r == Err(d.error) && projects == old(projects)
      ensures Intact(projects)
    {
      var id := Trim(projectId);
      if id !in projects { return Err(NotFound); }
      if id in appProjects { return Err(HasApps); }
      if HasChild(projects, id) { return Err(HasSubProjects); }
      DeleteKeepsIntact(projects, id, appProjects);
      projects := projects - {id};
      r := Ok(());
    }

    /** Bulk delete removes exactly the projects that `Removable` describes, and fails when it has to leave a
        requested project behind. */
    method DeleteProjects(projectIds: seq<string>, appProjects: set<string>) returns (failed: bool)
      requires Intact(projects)
      modifies this
      ensures var m := old(projects);
              var ids := set i | 0 <= i < |projectIds| && Trim(projectIds[i]) != "" :: Trim(projectIds[i]);
              && (forall id :: id in projects <==> id in m && !Removable(m, ids, appProjects, id))
              && (forall id :: id in projects ==> projects[id] == m[id])
              && (failed <==> exists id :: LeftBehind(m, ids, appProjects, id))
      ensures Intact(projects)
    {
      var ids := TrimmedIds(projectIds);
      var all := GetAllProjects();
      var ordered := OrganizeFromTheLeafsToRoot(all, localeCompare);
      BulkDeleteMeaning(projects, all, localeCompare, ids, appProjects);
      failed := DeleteInOrder(Chosen(ordered, ids), appProjects);
    }

    /** The ids, trimmed, without empty ones. */
    static method TrimmedIds(projectIds: seq<string>) returns (ids: set<string>)
      ensures ids == set i | 0 <= i < |projectIds| && Trim(projectIds[i]) != "" :: Trim(projectIds[i])
    {
      ids := {};
      for n := 0 to |projectIds|
        invariant ids == set i | 0 <= i < n && Trim(projectIds[i]) != "" :: Trim(projectIds[i])
      {
        var id := Trim(projectIds[n]);
        if id != "" { ids := ids + {id}; }
      }
    }

    /** Each delete waits for the same timer and then only for settled promises, so they take effect in order. */
    method DeleteInOrder(ids: seq<string>, appProjects: set<string>) returns (failed: bool)
      requires Intact(projects) && forall id :: id in ids ==> ValidUuid(id)
      modifies this
      ensures (projects, failed) == DeleteEach(old(projects), ids, appProjects)
      ensures Intact(projects)
    {
      failed := false;
      ghost var (final, refused) := DeleteEach(projects, ids, appProjects);
      for i := 0 to |ids|
        invariant Intact(projects)
        invariant DeleteEach(projects, ids[i..], appProjects).0 == final
        invariant (failed || DeleteEach(projects, ids[i..], appProjects).1) == refused
      {
        assert ids[i..][1..] == ids[i + 1..];
        UuidIsTrimmed(ids[i]);
        var r := DeleteProject(ids[i], appProjects);
        failed := failed || r.Err?;
      }
    }
  }

  // ---------------------------------------------------------------------------------------------
  // Integrity
  // ---------------------------------------------------------------------------------------------

  lemma DeleteKeepsIntact(m: Projects, id: string, apps: set<string>)
    requires Intact(m)
    ensures var d := Delete(m, id, apps);
            d.Ok? ==> Intact(d.value) && id !in apps && d.value.Keys == m.Keys - {id}
  {
    var d := Delete(m, id, apps);
    if d.Ok? {
      forall k | k in d.value && m[k].parentProjectId != "" ensures m[k].parentProjectId != id {
        assert m[k] in m.Values;
      }
    }
  }

  lemma SaveKeepsIntact(m: Projects, projectId: string, project: Project)
    requires Intact(m)
    ensures var r := Save(m, projectId, project); r.Ok? ==> Intact(m[r.value.id := r.value])
  {
  }

  /** A parent that a project may have: none, or another stored project with a well-formed id. */
  ghost predicate ParentAllowed(m: Projects, id: string, parent: string) {
    parent == "" || (parent != id && ValidUuid(parent) && parent in m)
  }

  /** Saving succeeds exactly for an allowed name, matching well-formed ids and an allowed parent, all trimmed; it
      stores the four fields trimmed, and nothing else. */
  lemma SaveExactly(m: Projects, projectId: string, p: Project)
    requires Intact(m)
    ensures var r := Save(m, projectId, p);
            && (r.Ok? <==> NameAllowed(Trim(p.name)) && Trim(p.id) == Trim(projectId) && ValidUuid(Trim(p.id))
                           && ParentAllowed(m, Trim(p.id), Trim(p.parentProjectId)))
            && (r.Ok? ==>
                  && r.value.id == Trim(projectId) && r.value.name == Trim(p.name)
                  && r.value.parentProjectId == Trim(p.parentProjectId) && r.value.description == Trim(p.description))
  {
    var parent := Trim(p.parentProjectId);
    if parent in m { assert m[parent] in m.Values && m[parent].id == parent; }
    if q :| q in m.Values && q.id == parent {
      var k :| k in m && m[k] == q;
    }
  }

  /** Deleting succeeds exactly for a stored project without apps and sub-projects, and removes only it. */
  lemma DeleteExactly(m: Projects, id: string, apps: set<string>)
    ensures var r := Delete(m, id, apps);
            && (r.Ok? <==> id in m && id !in apps && forall d :: d in m ==> m[d].parentProjectId != id)
            && (r.Ok? ==> forall d :: d in r.value <==> d in m && d != id)
            && (r.Ok? ==> forall d :: d in r.value ==> r.value[d] == m[d])
  {
    forall d | d in m ensures m[d] in m.Values {}
    if HasChild(m, id) {
      var q :| q in m.Values && q.parentProjectId == id;
      var d :| d in m && m[d] == q;
    }
  }

  datatype Command =
    | SaveCommand(projectId: string, project: Project)
    | DeleteCommand(projectId: string, apps: set<string>)

  function Apply(m: Projects, c: Command): Projects {
    match c
    case SaveCommand(id, p) => var r := Save(m, id, p); if r.Ok? then m[r.value.id := r.value] else m
    case DeleteCommand(id, apps) => var r := Delete(m, Trim(id), apps); if r.Ok? then r.value else m
  }

  lemma ApplyKeepsIntact(m: Projects, c: Command)
    requires Intact(m)
    ensures Intact(Apply(m, c))
    ensures forall id :: id in m && id !in Apply(m, c) ==>
              c.DeleteCommand? && Trim(c.projectId) == id && id !in c.apps
  {
    match c
    case SaveCommand(pid, p) => SaveKeepsIntact(m, pid, p);
    case DeleteCommand(pid, apps) => DeleteKeepsIntact(m, Trim(pid), apps);
  }

  function ApplyAll(m: Projects, cs: seq<Command>): Projects
    decreases |cs|
  {
    if cs == [] then m else ApplyAll(Apply(m, cs[0]), cs[1..])
  }

  /** Over every run of saves and deletes from the empty store: parents exist, and whenever a project disappears
      the command was its own delete, at a moment when it held no app. */
  lemma {:induction false} RunsKeepIntegrity(m: Projects, cs: seq<Command>, id: string)
    requires Intact(m)
    ensures Intact(ApplyAll(m, cs))
    ensures id in m && id !in ApplyAll(m, cs) ==>
              exists i :: 0 <= i < |cs| && cs[i].DeleteCommand? && Trim(cs[i].projectId) == id && id !in cs[i].apps
    decreases |cs|
  {
    if cs != [] {
      ApplyKeepsIntact(m, cs[0]);
      RunsKeepIntegrity(Apply(m, cs[0]), cs[1..], id);
      assert forall i :: 0 <= i < |cs[1..]| ==> cs[1..][i] == cs[i + 1];
      if id in m && id !in ApplyAll(m, cs) && id in Apply(m, cs[0]) {
        var i :| 0 <= i < |cs[1..]| && cs[1..][i].DeleteCommand? && Trim(cs[1..][i].projectId) == id
            && id !in cs[1..][i].apps;
        assert cs[i + 1].DeleteCommand?;
      }
    }
  }

  /** An illustration: two saves can point two projects at each other. */
  lemma CyclesAreAccepted(m: Projects, a: string, b: string)
    requires a in m && b in m && a != b && Intact(m) && NameAllowed(m[a].name) && NameAllowed(m[b].name)
    requires Trimmed(m[a].name) && Trimmed(m[b].name)
    ensures var m1 := Apply(m, SaveCommand(a, m[a].(parentProjectId := b)));
            var m2 := Apply(m1, SaveCommand(b, m[b].(parentProjectId := a)));
            a in m2 && b in m2 && m2[a].parentProjectId == b && m2[b].parentProjectId == a
  {
    UuidIsTrimmed(a);
    UuidIsTrimmed(b);
    TrimIsTrimmed(m[a].name);
    TrimIsTrimmed(m[b].name);
    assert m[b] in m.Values;
    var m1 := Apply(m, SaveCommand(a, m[a].(parentProjectId := b)));
    assert a in m1 && m1[a].id == a && m1[a] in m1.Values;
  }

  // ---------------------------------------------------------------------------------------------
  // Cycles
  // ---------------------------------------------------------------------------------------------

  /** Every project's parent chain reaches a root: there is no cycle. */
  ghost predicate IsForest(m: Projects) {
    forall d :: d in m ==> ReachesRoot(m, d)
  }

  /** When the new parent does not lie below the project, everything still reaches a root. */
  lemma GraftKeepsForest(m: Projects, q: Project)
    requires Intact(m) && IsForest(m) && Intact(m[q.id := q])
    requires q.parentProjectId == "" || !Below(m, q.parentProjectId, q.id)
    ensures IsForest(m[q.id := q])
  {
    var m' := m[q.id := q];
    GraftReachesRoot(m, q, m');
    forall d | d in m' ensures ReachesRoot(m', d) { OthersReachRoot(m, q, m', d); }
  }

  lemma GraftReachesRoot(m: Projects, q: Project, m': Projects)
    requires IsForest(m) && m' == m[q.id := q] && Intact(m')
    requires q.parentProjectId == "" || !Below(m, q.parentProjectId, q.id)
    ensures ReachesRoot(m', q.id)
  {
    assert q.id in m' && m'[q.id] == q;
    if q.parentProjectId == "" {
      assert Under(m', q.id, q.id, 0);
    } else {
      assert q.parentProjectId in m;
      AvoidingReachesRoot(m, q, q.parentProjectId);
      ChildReachesRoot(m', q.id);
    }
  }

  lemma OthersReachRoot(m: Projects, q: Project, m': Projects, d: string)
    requires IsForest(m) && m' == m[q.id := q] && d in m' && ReachesRoot(m', q.id)
    ensures ReachesRoot(m', d)
  {
    if Below(m, d, q.id) {
      var k: nat :| Under(m, d, q.id, k);
      UnderEndIsStored(m, d, q.id, k);
      ChainMeets(m, q.id, q, d, k);
      ReachesThrough(m', d, q.id);
    } else if d != q.id {
      AvoidingReachesRoot(m, q, d);
    }
  }

  lemma AvoidingReachesRoot(m: Projects, q: Project, d: string)
    requires d in m && ReachesRoot(m, d) && !Below(m, d, q.id)
    ensures ReachesRoot(m[q.id := q], d)
  {
    var r :| r in m && m[r].parentProjectId == "" && Below(m, d, r);
    var k: nat :| Under(m, d, r, k);
    ChainAvoids(m, q.id, q, d, r, k);
    assert r != q.id && Below(m[q.id := q], d, r);
  }

  /** When it does, the project ends up on a cycle. */
  lemma GraftClosesCycle(m: Projects, q: Project)
    requires Intact(m[q.id := q]) && q.parentProjectId != "" && Below(m, q.parentProjectId, q.id)
    ensures !ReachesRoot(m[q.id := q], q.id)
  {
    var m' := m[q.id := q];
    var k: nat :| Under(m, q.parentProjectId, q.id, k);
    UnderEndIsStored(m, q.parentProjectId, q.id, k);
    ChainMeets(m, q.id, q, q.parentProjectId, k);
    var l: nat :| Under(m', q.parentProjectId, q.id, l);
    assert Under(m', q.id, q.id, l + 1);
    forall r, n: nat | Under(m', q.id, r, n) ensures r in m' && m'[r].parentProjectId != "" {
      CycleHasNoRoot(m', q.id, l + 1, r, n);
    }
  }

  /** Saving keeps the projects free of cycles exactly when the new parent is not the project itself or one of its
      present descendants, which the source does not check. */
  lemma SaveKeepsForest(m: Projects, projectId: string, project: Project)
    requires Intact(m) && IsForest(m)
    ensures var r := Save(m, projectId, project);
            r.Ok? ==>
              (IsForest(m[r.value.id := r.value])
               <==> r.value.parentProjectId == "" || !Below(m, r.value.parentProjectId, r.value.id))
  {
    var r := Save(m, projectId, project);
    if r.Ok? {
      SaveKeepsIntact(m, projectId, project);
      if r.value.parentProjectId == "" || !Below(m, r.value.parentProjectId, r.value.id) {
        GraftKeepsForest(m, r.value);
      } else {
        GraftClosesCycle(m, r.value);
      }
    }
  }

  /** The project `leaf`, which has no children, is gone from `m'`. */
  ghost predicate Pruned(m: Projects, leaf: string, m': Projects) {
    && (forall d :: d in m ==> m[d].parentProjectId != leaf)
    && (forall d :: d in m' <==> d in m && d != leaf)
    && (forall d :: d in m' ==> m'[d] == m[d])
  }

  lemma DeletePrunes(m: Projects, id: string, apps: set<string>)
    ensures var d := Delete(m, id, apps); d.Ok? ==> Pruned(m, id, d.value)
  {
    forall d | d in m ensures m[d] in m.Values {}
  }

  /** Only childless projects are deleted, so no chain is ever cut. */
  lemma DeleteKeepsForest(m: Projects, id: string, apps: set<string>)
    requires IsForest(m)
    ensures var d := Delete(m, id, apps); d.Ok? ==> IsForest(d.value)
  {
    DeletePrunes(m, id, apps);
    if Delete(m, id, apps).Ok? {
      PrunedForest(m, id, Delete(m, id, apps).value);
    }
  }

  lemma PrunedForest(m: Projects, leaf: string, m': Projects)
    requires IsForest(m) && Pruned(m, leaf, m')
    ensures IsForest(m')
  {
    forall x | x in m' ensures ReachesRoot(m', x) { PrunedReachesRoot(m, leaf, m', x); }
  }

  lemma PrunedReachesRoot(m: Projects, leaf: string, m': Projects, x: string)
    requires Pruned(m, leaf, m') && x != leaf && ReachesRoot(m, x)
    ensures ReachesRoot(m', x)
  {
    var r :| r in m && m[r].parentProjectId == "" && Below(m, x, r);
    var k: nat :| Under(m, x, r, k);
    PrunedChain(m, leaf, m', x, r, k);
    assert r in m' && m'[r] == m[r] && Below(m', x, r);
  }

  lemma {:induction false} PrunedChain(m: Projects, leaf: string, m': Projects, d: string, r: string, k: nat)
    requires Pruned(m, leaf, m') && d != leaf && Under(m, d, r, k)
    ensures r != leaf && Under(m', d, r, k)
    decreases k
  {
    assert d in m && d in m' && m'[d] == m[d];
    if k > 0 {
      PrunedChain(m, leaf, m', m[d].parentProjectId, r, k - 1);
    }
  }

  /** A save that is accepted and puts the project below itself. */
  ghost predicate ClosesCycle(m: Projects, c: Command) {
    c.SaveCommand? &&
    var r := Save(m, c.projectId, c.project);
    r.Ok? && r.value.parentProjectId != "" && Below(m, r.value.parentProjectId, r.value.id)
  }

  ghost predicate NoneClosesCycle(m: Projects, cs: seq<Command>)
    decreases |cs|
  {
    cs == [] || (!ClosesCycle(m, cs[0]) && NoneClosesCycle(Apply(m, cs[0]), cs[1..]))
  }

  lemma ApplyKeepsForest(m: Projects, c: Command)
    requires Intact(m) && IsForest(m)
    ensures IsForest(Apply(m, c)) <==> !ClosesCycle(m, c)
  {
    match c
    case SaveCommand(pid, p) => SaveKeepsForest(m, pid, p);
    case DeleteCommand(pid, apps) => DeleteKeepsForest(m, Trim(pid), apps);
  }

  /** Every prefix of the run leaves a forest. */
  ghost predicate AlwaysForest(m: Projects, cs: seq<Command>)
    decreases |cs|
  {
    IsForest(m) && (cs == [] || AlwaysForest(Apply(m, cs[0]), cs[1..]))
  }

  /** Over a whole run of saves and deletes, no cycle ever comes up if and only if no save puts a project below
      itself. */
  lemma {:induction false} ForestRuns(m: Projects, cs: seq<Command>)
    requires Intact(m) && IsForest(m)
    ensures AlwaysForest(m, cs) <==> NoneClosesCycle(m, cs)
    decreases |cs|
  {
    if cs != [] {
      ApplyKeepsIntact(m, cs[0]);
      ApplyKeepsForest(m, cs[0]);
      if !ClosesCycle(m, cs[0]) {
        ForestRuns(Apply(m, cs[0]), cs[1..]);
      }
    }
  }

  lemma UuidIsTrimmed(id: string)
    requires ValidUuid(id)
    ensures Trim(id) == id
  {
    assert id[0] != ' ' && IsHex(id[0]) && IsHex(id[35]);
    TrimIsTrimmed(id);
  }

  // ---------------------------------------------------------------------------------------------
  // Bulk delete
  // ---------------------------------------------------------------------------------------------

  /** The project's chain reaches a root, and it and everything below it was requested and holds no app. */
  ghost predicate Removable(m: Projects, ids: set<string>, apps: set<string>, id: string) {
    && id in m && ReachesRoot(m, id)
    && forall d :: Below(m, d, id) ==> d in ids && d !in apps
  }

  lemma {:induction false} ChildReachesRoot(m: Projects, c: string)
    requires Intact(m) && c in m && m[c].parentProjectId != "" && ReachesRoot(m, m[c].parentProjectId)
    ensures ReachesRoot(m, c)
  {
    var r :| r in m && m[r].parentProjectId == "" && Below(m, m[c].parentProjectId, r);
    var k: nat :| Under(m, m[c].parentProjectId, r, k);
    assert Under(m, c, r, k + 1);
  }

  lemma RemovableByChildren(m: Projects, ids: set<string>, apps: set<string>, id: string)
    requires Intact(m) && id in m && ReachesRoot(m, id)
    ensures Removable(m, ids, apps, id) <==>
              && id in ids && id !in apps
              && forall c :: c in m && m[c].parentProjectId == id ==> Removable(m, ids, apps, c)
  {
    assert Under(m, id, id, 0);
    forall c | c in m && m[c].parentProjectId == id && Removable(m, ids, apps, id) ensures Removable(m, ids, apps, c) {
      ChildReachesRoot(m, c);
      assert Under(m, c, id, 1) by { assert Under(m, id, id, 0); }
      forall d | Below(m, d, c) ensures Below(m, d, id) {
        var k: nat :| Under(m, d, c, k);
        UnderTransitive(m, d, c, id, k, 1);
      }
    }
    if forall c :: c in m && m[c].parentProjectId == id ==> Removable(m, ids, apps, c) {
      forall d | Below(m, d, id) && d != id ensures d in ids && d !in apps {
        var k: nat :| Under(m, d, id, k);
        var c := LastLink(m, d, id, k);
        assert Below(m, d, c) && Removable(m, ids, apps, c);
      }
    }
  }

  /** The ids to delete: distinct, children before parents, and exactly those asked for that are stored and reach
      a root. */
  ghost predicate Ready(m: Projects, chosen: seq<string>, ids: set<string>) {
    && (forall i, j :: 0 <= i < j < |chosen| ==> chosen[i] != chosen[j])
    && (forall id :: id in chosen <==> id in m && id in ids && ReachesRoot(m, id))
    && (forall i, j :: 0 <= i < |chosen| && 0 <= j < |chosen| && m[chosen[i]].parentProjectId == chosen[j] ==> i < j)
  }

  /** One step: with the removable ones among the first `i` gone, deleting the next succeeds exactly if it is
      removable itself. */
  lemma {:induction false} DeleteNext(m: Projects, chosen: seq<string>, ids: set<string>, apps: set<string>,
                                      gone: set<string>, i: nat)
    requires Intact(m) && Ready(m, chosen, ids) && i < |chosen|
    requires forall id :: id in gone <==> id in chosen[..i] && Removable(m, ids, apps, id)
    ensures Delete(m - gone, chosen[i], apps).Ok? <==> Removable(m, ids, apps, chosen[i])
  {
    var x := chosen[i];
    var now := m - gone;
    assert x in chosen && x in m;
    assert forall j :: 0 <= j < i ==> chosen[..i][j] == chosen[j] != x;
    assert x !in gone;
    RemovableByChildren(m, ids, apps, x);
    forall c | c in m && m[c].parentProjectId == x ensures c in gone <==> Removable(m, ids, apps, c) {
      if Removable(m, ids, apps, c) {
        assert Under(m, c, c, 0);
        assert c in chosen;
        var j :| 0 <= j < |chosen| && chosen[j] == c;
        assert j < i && chosen[..i][j] == c;
      }
    }
    assert HasChild(now, x) <==> exists c :: c in m && c !in gone && m[c].parentProjectId == x by {
      if HasChild(now, x) {
        var q :| q in now.Values && q.parentProjectId == x;
        var c :| c in now && now[c] == q;
        assert c in m && c !in gone && m[c].parentProjectId == x;
      }
      if c :| c in m && c !in gone && m[c].parentProjectId == x {
        assert c in now && now[c] in now.Values;
      }
    }
  }

  lemma {:induction false} BulkDelete(m: Projects, chosen: seq<string>, ids: set<string>, apps: set<string>,
                                      gone: set<string>, i: nat)
    requires Intact(m) && Ready(m, chosen, ids) && i <= |chosen|
    requires forall id :: id in gone <==> id in chosen[..i] && Removable(m, ids, apps, id)
    ensures var (final, failed) := DeleteEach(m - gone, chosen[i..], apps);
            && (forall id :: id in final <==> id in m && !(id in chosen && Removable(m, ids, apps, id)))
            && (forall id :: id in final ==> final[id] == m[id])
            && (failed <==> exists j :: i <= j < |chosen| && !Removable(m, ids, apps, chosen[j]))
    decreases |chosen| - i
  {
    if i == |chosen| {
      assert chosen[..i] == chosen;
    } else {
      DeleteNext(m, chosen, ids, apps, gone, i);
      var x := chosen[i];
      var gone' := if Removable(m, ids, apps, x) then gone + {x} else gone;
      assert chosen[..i + 1] == chosen[..i] + [x];
      assert chosen[i..][1..] == chosen[i + 1..];
      assert (m - gone) - {x} == m - (gone + {x});
      BulkDelete(m, chosen, ids, apps, gone', i + 1);
    }
  }

  lemma {:induction false} ChosenMeaning(ordered: seq<Project>, ids: set<string>)
    requires ParentsLast(ordered)
    ensures var c := Chosen(ordered, ids);
            && (forall id :: id in c <==> id in ids && exists p :: p in ordered && p.id == id)
            && (forall i, j :: 0 <= i < j < |c| ==> c[i] != c[j])
            && (forall i, j, p | 0 <= i < |c| && 0 <= j < |c| && p in ordered ::
                  p.id == c[i] && p.parentProjectId == c[j] ==> i < j)
  {
    if ordered != [] {
      var (p, rest) := (ordered[0], ordered[1..]);
      assert ordered == [p] + rest;
      ChosenMeaning(rest, ids);
      var (c, d) := (Chosen(ordered, ids), Chosen(rest, ids));
      forall q | q in rest ensures q.id != p.id && q.parentProjectId != p.id {
        var j :| 0 <= j < |rest| && rest[j] == q;
        assert ordered[j + 1] == q;
      }
    }
  }

  ghost predicate ParentsLast(ps: seq<Project>) {
    && (forall i, j :: 0 <= i < j < |ps| ==> ps[i].id != ps[j].id)
    && (forall i, j :: 0 <= i < |ps| && 0 <= j < |ps| && ps[i].parentProjectId == ps[j].id ==> i < j)
  }

  lemma ChosenIsReady(m: Projects, all: seq<Project>, cmp: Compare, ids: set<string>)
    requires Intact(m) && WellKeyed(all) && forall p :: p in all <==> p in m.Values
    ensures var c := Chosen(OrganizeFromTheLeafsToRoot(all, cmp), ids);
            Ready(m, c, ids) && forall id :: id in c ==> ValidUuid(id)
  {
    var ordered := OrganizeFromTheLeafsToRoot(all, cmp);
    ProjectMapMeaning(all);
    var n := ProjectMap(all);
    assert n == m by {
      forall id ensures id in n <==> id in m {
        if id in m { assert m[id] in all; }
      }
    }
    forall p ensures p in ordered <==> p in all && ReachesRoot(m, p.id) { OrganizeMembers(all, cmp, p); }
    OrganizedParentsLast(all, cmp);
    ChosenMeaning(ordered, ids);
    forall id | id in m ensures m[id] in all {}
  }

  lemma OrganizedParentsLast(all: seq<Project>, cmp: Compare)
    requires WellKeyed(all)
    ensures ParentsLast(OrganizeFromTheLeafsToRoot(all, cmp))
  {
    var ordered := OrganizeFromTheLeafsToRoot(all, cmp);
    forall i, j | 0 <= i < |ordered| && 0 <= j < |ordered|
      ensures (ordered[i].id == ordered[j].id ==> i == j) && (ordered[i].parentProjectId == ordered[j].id ==> i < j)
    {
      OrganizeOrder(all, cmp, ordered, i, j);
    }
  }

  lemma BulkDeleteMeaning(m: Projects, all: seq<Project>, cmp: Compare, ids: set<string>, apps: set<string>)
    requires Intact(m) && WellKeyed(all) && forall p :: p in all <==> p in m.Values
    ensures var chosen := Chosen(OrganizeFromTheLeafsToRoot(all, cmp), ids);
            var (final, failed) := DeleteEach(m, chosen, apps);
            && (forall id :: id in chosen ==> ValidUuid(id))
            && (forall id :: id in final <==> id in m && !Removable(m, ids, apps, id))
            && (forall id :: id in final ==> final[id] == m[id])
            && (failed <==> exists id :: LeftBehind(m, ids, apps, id))
  {
    ChosenIsReady(m, all, cmp, ids);
    ReadyDelete(m, Chosen(OrganizeFromTheLeafsToRoot(all, cmp), ids), ids, apps);
  }

  ghost predicate LeftBehind(m: Projects, ids: set<string>, apps: set<string>, id: string) {
    id in m && id in ids && ReachesRoot(m, id) && !Removable(m, ids, apps, id)
  }

  lemma LeftBehindIsChosen(m: Projects, chosen: seq<string>, ids: set<string>, apps: set<string>)
    requires Intact(m) && Ready(m, chosen, ids)
    ensures forall id :: Removable(m, ids, apps, id) ==> id in chosen
    ensures (exists j :: 0 <= j < |chosen| && !Removable(m, ids, apps, chosen[j])) <==>
            exists id :: LeftBehind(m, ids, apps, id)
  {
    forall id | Removable(m, ids, apps, id) ensures id in chosen {
      assert Under(m, id, id, 0);
      assert Below(m, id, id);
    }
    if j :| 0 <= j < |chosen| && !Removable(m, ids, apps, chosen[j]) {
      assert chosen[j] in chosen;
      assert LeftBehind(m, ids, apps, chosen[j]);
    }
    if id :| LeftBehind(m, ids, apps, id) {
      assert id in chosen;
    }
  }

  lemma {:induction false} AllDeleted(m: Projects, chosen: seq<string>, ids: set<string>, apps: set<string>)
    requires Intact(m) && Ready(m, chosen, ids)
    ensures var d := DeleteEach(m, chosen, apps);
            && (forall id :: id in d.0 <==> id in m && !(id in chosen && Removable(m, ids, apps, id)))
            && (forall id :: id in d.0 ==> d.0[id] == m[id])
            && (d.1 <==> exists j :: 0 <= j < |chosen| && !Removable(m, ids, apps, chosen[j]))
  {
    assert m - {} == m && chosen[0..] == chosen;
    BulkDelete(m, chosen, ids, apps, {}, 0);
  }

  lemma ReadyDelete(m: Projects, chosen: seq<string>, ids: set<string>, apps: set<string>)
    requires Intact(m) && Ready(m, chosen, ids)
    ensures var d := DeleteEach(m, chosen, apps);
            && (forall id :: id in d.0 <==> id in m && !Removable(m, ids, apps, id))
            && (forall id :: id in d.0 ==> d.0[id] == m[id])
            && (d.1 <==> exists id :: LeftBehind(m, ids, apps, id))
  {
    LeftBehindIsChosen(m, chosen, ids, apps);
    AllDeleted(m, chosen, ids, apps);
  }

  /** A requested set that is app-free, closed under children and reaches roots is removed exactly. */
  lemma CleanRequestIsRemovedExactly(m: Projects, ids: set<string>, apps: set<string>)
    requires Intact(m) && ids <= m.Keys && ids !! apps
    requires forall c :: c in m && m[c].parentProjectId in ids ==> c in ids
    requires forall id :: id in ids ==> ReachesRoot(m, id)
    ensures forall id :: Removable(m, ids, apps, id) <==> id in ids
  {
    forall id ensures Removable(m, ids, apps, id) <==> id in ids {
      if id in ids {
        forall d, k: nat | Under(m, d, id, k) ensures d in ids { BelowStaysIn(m, ids, d, id, k); }
      } else if id in m {
        assert Under(m, id, id, 0);
      }
    }
  }

  lemma {:induction false} BelowStaysIn(m: Projects, ids: set<string>, d: string, id: string, k: nat)
    requires id in ids && Under(m, d, id, k) && forall c :: c in m && m[c].parentProjectId in ids ==> c in ids
    ensures d in ids
    decreases k
  {
    if k > 0 {
      BelowStaysIn(m, ids, m[d].parentProjectId, id, k - 1);
    }
  }
}
