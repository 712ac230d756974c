/** Projects and the chains of parent links between them, src/datastore/ProjectsDataStore.ts. Nothing is assumed about
the links: a chain may leave the store, and may come back to where it began. */
module ParentChains {

  datatype Project = Project(id: string, name: string, parentProjectId: string, description: string)

  /** `k` parent links lead from `d` to `a`. */
  ghost predicate Under(m: map<string, Project>, d: string, a: string, k: nat)
    decreases k
  {
    d in m && if k == 0 then d == a else Under(m, m[d].parentProjectId, a, k - 1)
  }

  /** `d` is `a` or one of its descendants. */
  ghost predicate Below(m: map<string, Project>, d: string, a: string) {
    exists k: nat :: Under(m, d, a, k)
  }

  ghost predicate ReachesRoot(m: map<string, Project>, d: string) {
    exists r :: r in m && m[r].parentProjectId == "" && Below(m, d, r)
  }

  ghost predicate UpClosed(m: map<string, Project>, path: set<string>) {
    && path <= m.Keys
    && forall q :: q in path && m[q].parentProjectId != "" ==> m[q].parentProjectId in path
  }

  lemma {:induction false} AncestorsStayIn(m: map<string, Project>, path: set<string>, d: string, a: string, k: nat)
    requires "" !in m && UpClosed(m, path) && d in path && Under(m, d, a, k)
    ensures a in path
    decreases k
  {
    if k > 0 {
      AncestorsStayIn(m, path, m[d].parentProjectId, a, k - 1);
    }
  }

  lemma {:induction false} UnderTransitive(m: map<string, Project>, d: string, b: string, a: string, k: nat, l: nat)
    requires Under(m, d, b, k) && Under(m, b, a, l)
    ensures Under(m, d, a, k + l)
    decreases k
  {
    if k > 0 {
      UnderTransitive(m, m[d].parentProjectId, b, a, k - 1, l);
    }
  }

  /** The last link of a chain, seen from its upper end. */
  lemma {:induction false} LastLink(m: map<string, Project>, d: string, a: string, k: nat) returns (c: string)
    requires Under(m, d, a, k) && k > 0
    ensures c in m && m[c].parentProjectId == a && Under(m, d, c, k - 1)
    decreases k
  {
    if k == 1 {
      c := d;
    } else {
      c := LastLink(m, m[d].parentProjectId, a, k - 1);
    }
  }

  /** Two ancestors of one project lie on one chain. */
  lemma {:induction false} Comparable(m: map<string, Project>, d: string, a: string, b: string, k: nat, l: nat)
    requires Under(m, d, a, k) && Under(m, d, b, l) && k <= l
    ensures Under(m, a, b, l - k)
    decreases k
  {
    if k > 0 {
      Comparable(m, m[d].parentProjectId, a, b, k - 1, l - 1);
    }
  }

  lemma ReachesThrough(m: map<string, Project>, d: string, b: string)
    requires Below(m, d, b) && ReachesRoot(m, b)
    ensures ReachesRoot(m, d)
  {
    var k: nat :| Under(m, d, b, k);
    var r :| r in m && m[r].parentProjectId == "" && Below(m, b, r);
    var l: nat :| Under(m, b, r, l);
    UnderTransitive(m, d, b, r, k, l);
  }

  lemma UnderEndIsStored(m: map<string, Project>, d: string, r: string, n: nat)
    requires Under(m, d, r, n)
    ensures r in m
    decreases n
  {
  }

  /** A chain that avoids `x` does not notice a change of `x`. */
  lemma {:induction false} ChainAvoids(m: map<string, Project>, x: string, p: Project, d: string, r: string, k: nat)
    requires Under(m, d, r, k) && !Below(m, d, x)
    ensures Under(m[x := p], d, r, k)
    decreases k
  {
    assert d != x by { assert Under(m, d, d, 0); }
    if k > 0 {
      if Below(m, m[d].parentProjectId, x) {
        var l: nat :| Under(m, m[d].parentProjectId, x, l);
        assert Under(m, d, x, l + 1);
      }
      ChainAvoids(m, x, p, m[d].parentProjectId, r, k - 1);
    }
  }

  /** A chain that meets `x` still does after a change of `x`. */
  lemma {:induction false} ChainMeets(m: map<string, Project>, x: string, p: Project, d: string, k: nat)
    requires x in m && Under(m, d, x, k)
    ensures Below(m[x := p], d, x)
    decreases k
  {
    var m' := m[x := p];
    if d == x {
      assert Under(m', d, x, 0);
    } else {
      ChainMeets(m, x, p, m[d].parentProjectId, k - 1);
      var l: nat :| Under(m', m[d].parentProjectId, x, l);
      assert Under(m', d, x, l + 1);
    }
  }

  /** Whoever lies on a cycle reaches no root. */
  lemma {:induction false} CycleHasNoRoot(m: map<string, Project>, x: string, c: nat, r: string, n: nat)
    requires "" !in m && c > 0 && Under(m, x, x, c) && Under(m, x, r, n)
    ensures r in m && m[r].parentProjectId != ""
    decreases n
  {
    UnderEndIsStored(m, x, r, n);
    if n < c {
      Comparable(m, x, r, x, n, c);
    } else {
      Comparable(m, x, x, r, c, n);
      CycleHasNoRoot(m, x, c, r, n - c);
    }
  }
}
