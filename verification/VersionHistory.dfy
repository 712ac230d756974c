/** An app's bounded version history: `createNewVersion`, `setDeployedVersionAndImage` and `rollbackAgentDeployment`
of src/datastore/AppsDataStore.ts, and the image lookup of src/user/ServiceManager.ts.

The bound is a configuration value that an override file can change, so it is a parameter. */
module VersionHistory {
  import opened Wrappers

  /** A version; the image name is empty until its build has succeeded. */
  datatype Version = Version(version: int, deployedImageName: string, gitHash: string)

  datatype History = History(versions: seq<Version>, deployedVersion: int)

  /** `Utils.dropFirstElements`: keeps at most the last `maxLength` elements. */
  function DropFirstElements(vs: seq<Version>, maxLength: int): seq<Version> {
    if |vs| <= maxLength then vs else if maxLength <= 0 then [] else vs[|vs| - maxLength..]
  }

  /** The number after `n` and after every listed version. */
  function NextNumber(n: int, vs: seq<Version>): int
    decreases |vs|
  {
    if vs == [] then n else NextNumber(if n <= vs[0].version then vs[0].version + 1 else n, vs[1..])
  }

  function CreateVersion(vs: seq<Version>, max: int): seq<Version> {
    var kept := DropFirstElements(vs, max - 1);
    kept + [Version(NextNumber(|kept|, kept), "", "")]
  }

  /** The first version with this number; the length if there is none. */
  function IndexOf(vs: seq<Version>, v: int): (i: nat)
    ensures i <= |vs| && (forall j :: 0 <= j < i ==> vs[j].version != v) && (i < |vs| ==> vs[i].version == v)
  {
    IndexWhere(vs, (x: Version) => x.version == v)
  }

  predicate Has(vs: seq<Version>, v: int) {
    IndexOf(vs, v) < |vs|
  }

  /** The image lookup: the image of the first version with this number, or nothing. */
  function ImageOf(vs: seq<Version>, v: int): string {
    if Has(vs, v) then vs[IndexOf(vs, v)].deployedImageName else ""
  }

  function SetImage(vs: seq<Version>, v: int, image: string, gitHash: string): seq<Version> {
    if Has(vs, v) then vs[IndexOf(vs, v) := Version(v, image, gitHash)] else vs
  }

  datatype Change =
    | Create
    | Deploy(version: int, image: string, gitHash: string)
    | Rollback(version: int)

  predicate HasImage(vs: seq<Version>, v: int) {
    exists i | 0 <= i < |vs| :: vs[i].version == v && vs[i].deployedImageName != ""
  }

  /** A change, or no change where the source throws. */
  function Apply(h: History, c: Change, max: int): History {
    match c
    case Create => h.(versions := CreateVersion(h.versions, max))
    case Deploy(v, image, gitHash) =>
      if image == "" || !Has(h.versions, v) then h
      else History(SetImage(h.versions, v, image, gitHash), v)
    case Rollback(v) => if HasImage(h.versions, v) then h.(deployedVersion := v) else h
  }

  function ApplyAll(h: History, cs: seq<Change>, max: int): History
    decreases |cs|
  {
    if cs == [] then h else ApplyAll(Apply(h, cs[0], max), cs[1..], max)
  }

  /** The numbers that the creations of a run give out, in order. */
  function Numbers(h: History, cs: seq<Change>, max: int): seq<int>
    decreases |cs|
  {
    if cs == [] then []
    else
      var next := Apply(h, cs[0], max);
      (if cs[0].Create? then [next.versions[|next.versions| - 1].version] else []) + Numbers(next, cs[1..], max)
  }

  const EMPTY := History([], 0)

  // ---------------------------------------------------------------------------------------------
  // Numbering
  // ---------------------------------------------------------------------------------------------

  ghost predicate Increasing(vs: seq<Version>) {
    forall i, j :: 0 <= i < j < |vs| ==> vs[i].version < vs[j].version
  }

  /** Having looked at the first `i` versions leaves `n` to go on with. */
  ghost predicate LookedAt(vs: seq<Version>, i: nat, n: int) {
    i <= |vs| && NextNumber(n, vs[i..]) == NextNumber(|vs|, vs)
  }

  lemma {:induction false} NextNumberMeaning(n: int, vs: seq<Version>)
    ensures n <= NextNumber(n, vs)
    ensures forall i :: 0 <= i < |vs| ==> vs[i].version < NextNumber(n, vs)
    decreases |vs|
  {
    if vs != [] {
      NextNumberMeaning(if n <= vs[0].version then vs[0].version + 1 else n, vs[1..]);
      assert forall i :: 1 <= i < |vs| ==> vs[i] == vs[1..][i - 1];
    }
  }

  lemma CreateMeaning(vs: seq<Version>, max: int)
    requires Increasing(vs)
    ensures var next := CreateVersion(vs, max);
            && Increasing(next) && |next| == (if |vs| < max then |vs| + 1 else if max <= 1 then 1 else max)
            && (forall i :: 0 <= i < |next| - 1 ==> next[i] == vs[|vs| - |next| + 1 + i])
            && next[|next| - 1].deployedImageName == ""
  {
    var kept := DropFirstElements(vs, max - 1);
    NextNumberMeaning(|kept|, kept);
  }

  lemma SetImageMeaning(vs: seq<Version>, v: int, image: string, gitHash: string)
    ensures var next := SetImage(vs, v, image, gitHash);
            |next| == |vs| && forall i :: 0 <= i < |vs| ==> next[i].version == vs[i].version
  {
  }

  ghost predicate StrictlyUp(ns: seq<int>) {
    forall i, j :: 0 <= i < j < |ns| ==> ns[i] < ns[j]
  }

  /** Numbers strictly increase and the list is within its bound, for a bound of at least 2. */
  ghost predicate Bounded(vs: seq<Version>, max: int) {
    2 <= max && Increasing(vs) && |vs| <= max
  }

  lemma ApplyKeepsBounded(h: History, c: Change, max: int)
    requires Bounded(h.versions, max)
    ensures Bounded(Apply(h, c, max).versions, max)
    ensures !c.Create? && h.versions != [] ==>
              var next := Apply(h, c, max).versions;
              |next| == |h.versions| && next[|next| - 1].version == h.versions[|next| - 1].version
    ensures !c.Create? && h.versions == [] ==> Apply(h, c, max).versions == []
  {
    match c
    case Create => CreateMeaning(h.versions, max);
    case Deploy(v, image, gitHash) => SetImageMeaning(h.versions, v, image, gitHash);
    case Rollback(_) =>
  }

  ghost predicate AllAbove(n: int, ns: seq<int>) {
    forall i :: 0 <= i < |ns| ==> n < ns[i]
  }

  lemma UpCons(n: int, ns: seq<int>)
    requires StrictlyUp(ns) && AllAbove(n, ns)
    ensures StrictlyUp([n] + ns)
  {
  }

  /** The newest version is always kept, so every number given out later is larger. */
  lemma {:induction false} NumbersIncrease(h: History, cs: seq<Change>, max: int)
    requires Bounded(h.versions, max)
    ensures StrictlyUp(Numbers(h, cs, max))
    ensures h.versions != [] ==> AllAbove(h.versions[|h.versions| - 1].version, Numbers(h, cs, max))
    decreases |cs|
  {
    if cs != [] {
      var next := Apply(h, cs[0], max);
      ApplyKeepsBounded(h, cs[0], max);
      NumbersIncrease(next, cs[1..], max);
      var rest := Numbers(next, cs[1..], max);
      if cs[0].Create? {
        var n := next.versions[|next.versions| - 1].version;
        UpCons(n, rest);
        assert Numbers(h, cs, max) == [n] + rest;
        if h.versions != [] {
          NewestIsKept(h.versions, max);
        }
      } else {
        assert Numbers(h, cs, max) == rest;
      }
    }
  }

  lemma {:induction false} RunKeepsBounded(h: History, cs: seq<Change>, max: int)
    requires Bounded(h.versions, max)
    ensures Bounded(ApplyAll(h, cs, max).versions, max)
    decreases |cs|
  {
    if cs != [] {
      ApplyKeepsBounded(h, cs[0], max);
      RunKeepsBounded(Apply(h, cs[0], max), cs[1..], max);
    }
  }

  lemma NewestIsKept(vs: seq<Version>, max: int)
    requires Increasing(vs) && vs != [] && 2 <= max
    ensures var next := CreateVersion(vs, max);
            |next| >= 2 && next[|next| - 2] == vs[|vs| - 1] && vs[|vs| - 1].version < next[|next| - 1].version
  {
    CreateMeaning(vs, max);
    var next := CreateVersion(vs, max);
    assert next[|next| - 2].version < next[|next| - 1].version;
  }

  /** From an empty history, version numbers are never reused, in any run, exactly when the bound is at least 2:
      with a bound of 1 or less every creation empties the list first and starts again from 0. */
  lemma NumbersNeverReused(max: int)
    ensures (forall cs :: StrictlyUp(Numbers(EMPTY, cs, max))) <==> 2 <= max
  {
    if 2 <= max {
      forall cs ensures StrictlyUp(Numbers(EMPTY, cs, max)) { NumbersIncrease(EMPTY, cs, max); }
    } else {
      var cs := [Create, Create];
      var v0 := [Version(0, "", "")];
      assert CreateVersion([], max) == v0 && CreateVersion(v0, max) == v0;
      assert cs[1..] == [Create] && cs[1..][1..] == [];
      var h := History(v0, 0);
      assert Numbers(h, cs[1..], max) == [0];
      assert Numbers(EMPTY, cs, max) == [0] + Numbers(h, cs[1..], max);
      assert Numbers(EMPTY, cs, max)[0] == Numbers(EMPTY, cs, max)[1];
    }
  }

  // ---------------------------------------------------------------------------------------------
  // Retention
  // ---------------------------------------------------------------------------------------------

  function Creations(cs: seq<Change>): nat {
    if cs == [] then 0 else (if cs[0].Create? then 1 else 0) + Creations(cs[1..])
  }

  /** `v` stands `d` places before the newest version. */
  ghost predicate AtDistance(vs: seq<Version>, v: int, d: nat) {
    d < |vs| && vs[|vs| - 1 - d].version == v
  }

  ghost predicate NotRedeployed(cs: seq<Change>, v: int) {
    forall c :: c in cs && c.Deploy? ==> c.version != v
  }

  lemma {:induction false} UniqueIndex(vs: seq<Version>, i: nat)
    requires Increasing(vs) && i < |vs|
    ensures IndexOf(vs, vs[i].version) == i
  {
  }

  lemma SetImageKeepsOthers(vs: seq<Version>, w: int, image: string, gitHash: string, v: int, d: nat)
    requires Increasing(vs) && AtDistance(vs, v, d)
    ensures var next := SetImage(vs, w, image, gitHash);
            Increasing(next) && AtDistance(next, v, d) && (w != v ==> ImageOf(next, v) == ImageOf(vs, v))
  {
    SetImageMeaning(vs, w, image, gitHash);
    var next := SetImage(vs, w, image, gitHash);
    UniqueIndex(vs, |vs| - 1 - d);
    UniqueIndex(next, |vs| - 1 - d);
  }

  lemma CreateShifts(vs: seq<Version>, max: int, v: int, d: nat)
    requires Bounded(vs, max) && AtDistance(vs, v, d)
    ensures var next := CreateVersion(vs, max);
            if d + 1 < max then AtDistance(next, v, d + 1) && ImageOf(next, v) == ImageOf(vs, v)
            else forall i :: 0 <= i < |next| ==> v < next[i].version
  {
    CreateMeaning(vs, max);
    var next := CreateVersion(vs, max);
    UniqueIndex(vs, |vs| - 1 - d);
    if d + 1 < max {
      assert next[|next| - 2 - d] == vs[|vs| - 1 - d];
      UniqueIndex(next, |next| - 2 - d);
    } else {
      forall i | 0 <= i < |next| ensures v < next[i].version {
        if i == |next| - 1 {
          NewestIsKept(vs, max);
        }
      }
    }
  }

  ghost predicate AllLater(vs: seq<Version>, v: int) {
    vs != [] && forall i :: 0 <= i < |vs| ==> v < vs[i].version
  }

  lemma LaterStaysLater(h: History, c: Change, max: int, v: int)
    requires Bounded(h.versions, max) && AllLater(h.versions, v)
    ensures AllLater(Apply(h, c, max).versions, v)
  {
    match c
    case Create =>
      CreateMeaning(h.versions, max);
      NewestIsKept(h.versions, max);
    case Deploy(w, image, gitHash) => SetImageMeaning(h.versions, w, image, gitHash);
    case Rollback(_) =>
  }

  /** A dropped number never comes back. */
  lemma {:induction false} DroppedStaysDropped(h: History, cs: seq<Change>, max: int, v: int)
    requires Bounded(h.versions, max) && AllLater(h.versions, v)
    ensures !Has(ApplyAll(h, cs, max).versions, v)
    decreases |cs|
  {
    if cs != [] {
      ApplyKeepsBounded(h, cs[0], max);
      LaterStaysLater(h, cs[0], max, v);
      DroppedStaysDropped(Apply(h, cs[0], max), cs[1..], max, v);
    }
  }

  /** A version `d` places before the newest survives exactly the next `max - 1 - d` creations, whatever is
      deployed or rolled back meanwhile; and unless it is deployed again it keeps its image that long. */
  lemma Retention(h: History, cs: seq<Change>, max: int, v: int, d: nat)
    requires Bounded(h.versions, max) && AtDistance(h.versions, v, d)
    ensures Has(ApplyAll(h, cs, max).versions, v) <==> d + Creations(cs) <= max - 1
    ensures d + Creations(cs) <= max - 1 && NotRedeployed(cs, v) ==>
              ImageOf(ApplyAll(h, cs, max).versions, v) == ImageOf(h.versions, v)
  {
    RetainedExactly(h, cs, max, v, d);
    if d + Creations(cs) <= max - 1 && NotRedeployed(cs, v) {
      ImageRetained(h, cs, max, v, d);
    }
  }

  lemma {:induction false} RetainedExactly(h: History, cs: seq<Change>, max: int, v: int, d: nat)
    requires Bounded(h.versions, max) && AtDistance(h.versions, v, d)
    ensures Has(ApplyAll(h, cs, max).versions, v) <==> d + Creations(cs) <= max - 1
    decreases |cs|
  {
    if cs == [] {
      UniqueIndex(h.versions, |h.versions| - 1 - d);
    } else {
      var next := Apply(h, cs[0], max);
      ApplyKeepsBounded(h, cs[0], max);
      RetainedStep(h, cs[0], max, v, d);
      if !cs[0].Create? {
        RetainedExactly(next, cs[1..], max, v, d);
      } else if d + 1 < max {
        RetainedExactly(next, cs[1..], max, v, d + 1);
      } else {
        DroppedStaysDropped(next, cs[1..], max, v);
      }
    }
  }

  lemma {:induction false} ImageRetained(h: History, cs: seq<Change>, max: int, v: int, d: nat)
    requires Bounded(h.versions, max) && AtDistance(h.versions, v, d)
    requires d + Creations(cs) <= max - 1 && NotRedeployed(cs, v)
    ensures ImageOf(ApplyAll(h, cs, max).versions, v) == ImageOf(h.versions, v)
    decreases |cs|
  {
    if cs != [] {
      ApplyKeepsBounded(h, cs[0], max);
      RetainedStep(h, cs[0], max, v, d);
      assert cs[0] in cs && forall c :: c in cs[1..] ==> c in cs;
      ImageRetained(Apply(h, cs[0], max), cs[1..], max, v, if cs[0].Create? then d + 1 else d);
    }
  }

  lemma RetainedStep(h: History, c: Change, max: int, v: int, d: nat)
    requires Bounded(h.versions, max) && AtDistance(h.versions, v, d)
    ensures var next := Apply(h, c, max).versions;
            if !c.Create? then
              && AtDistance(next, v, d)
              && ((c.Deploy? && c.version == v) || ImageOf(next, v) == ImageOf(h.versions, v))
            else if d + 1 < max then AtDistance(next, v, d + 1) && ImageOf(next, v) == ImageOf(h.versions, v)
            else AllLater(next, v)
  {
    match c
    case Create =>
      CreateMeaning(h.versions, max);
      CreateShifts(h.versions, max, v, d);
    case Deploy(w, image, gitHash) => SetImageKeepsOthers(h.versions, w, image, gitHash, v, d);
    case Rollback(_) =>
  }

  /** A version deployed right after its creation keeps its image through the next `max - 1` creations: within that
      bound the image lookup finds it, as long as it stays the deployed version. */
  lemma DeployedImageIsFound(h: History, image: string, gitHash: string, cs: seq<Change>, max: int)
    requires Bounded(h.versions, max) && image != ""
    requires Creations(cs) <= max - 1
    ensures var created := Apply(h, Create, max);
            var v := created.versions[|created.versions| - 1].version;
            var deployed := Apply(created, Deploy(v, image, gitHash), max);
            && deployed.deployedVersion == v
            && (NotRedeployed(cs, v) ==>
                  ImageOf(ApplyAll(deployed, cs, max).versions, v) == image)
  {
    CreateMeaning(h.versions, max);
    var created := Apply(h, Create, max);
    var last := |created.versions| - 1;
    var v := created.versions[last].version;
    UniqueIndex(created.versions, last);
    SetImageKeepsOthers(created.versions, v, image, gitHash, v, 0);
    var deployed := Apply(created, Deploy(v, image, gitHash), max);
    UniqueIndex(deployed.versions, last);
    Retention(deployed, cs, max, v, 0);
  }

  /** A rollback that is accepted lands on a version whose image the lookup finds; one that is refused changes
      nothing. */
  lemma RollbackFindsImage(h: History, v: int, max: int)
    requires Increasing(h.versions)
    ensures var next := Apply(h, Rollback(v), max);
            if ImageOf(h.versions, v) != "" then
              next.deployedVersion == v && ImageOf(next.versions, next.deployedVersion) != ""
            else next == h
  {
    if HasImage(h.versions, v) {
      var i :| 0 <= i < |h.versions| && h.versions[i].version == v && h.versions[i].deployedImageName != "";
      UniqueIndex(h.versions, i);
    }
  }

  // ---------------------------------------------------------------------------------------------
  // Whole runs: when the lookup finds the deployed version's image
  // ---------------------------------------------------------------------------------------------

  /** The list holds the newest numbers given out, as many as fit. */
  ghost predicate HoldsNewest(vs: seq<Version>, ns: seq<int>, max: int) {
    && |vs| == (if |ns| <= max then |ns| else max)
    && forall i :: 0 <= i < |vs| ==> vs[i].version == ns[|ns| - |vs| + i]
  }

  lemma HoldsNewestStep(h: History, c: Change, ns: seq<int>, max: int)
    requires Bounded(h.versions, max) && HoldsNewest(h.versions, ns, max)
    ensures var next := Apply(h, c, max).versions;
            if c.Create? then next != [] && HoldsNewest(next, ns + [next[|next| - 1].version], max)
            else HoldsNewest(next, ns, max)
  {
    match c
    case Create =>
      CreateMeaning(h.versions, max);
      CreateHoldsNewest(h.versions, CreateVersion(h.versions, max), ns, max);
    case Deploy(v, image, gitHash) =>
      SetImageMeaning(h.versions, v, image, gitHash);
      SameHoldsNewest(h.versions, Apply(h, c, max).versions, ns, max);
    case Rollback(_) =>
  }

  lemma SameHoldsNewest(vs: seq<Version>, next: seq<Version>, ns: seq<int>, max: int)
    requires HoldsNewest(vs, ns, max) && |next| == |vs|
    requires forall i :: 0 <= i < |vs| ==> next[i].version == vs[i].version
    ensures HoldsNewest(next, ns, max)
  {
  }

  lemma CreateHoldsNewest(vs: seq<Version>, next: seq<Version>, ns: seq<int>, max: int)
    requires 2 <= max && HoldsNewest(vs, ns, max) && |next| == (if |vs| < max then |vs| + 1 else max)
    requires forall i :: 0 <= i < |next| - 1 ==> next[i] == vs[|vs| - |next| + 1 + i]
    ensures HoldsNewest(next, ns + [next[|next| - 1].version], max)
  {
    var now := ns + [next[|next| - 1].version];
    forall i | 0 <= i < |next| ensures next[i].version == now[|now| - |next| + i] {
      if i < |next| - 1 {
        var j := |vs| - |next| + 1 + i;
        assert vs[j].version == ns[|ns| - |vs| + j];
      }
    }
  }

  /** What one change adds to the numbers given out. */
  function GivenOut(h: History, c: Change, max: int): seq<int> {
    var next := Apply(h, c, max).versions;
    if c.Create? && next != [] then [next[|next| - 1].version] else []
  }

  lemma Regroup(a: seq<int>, b: seq<int>, c: seq<int>)
    ensures a + b + c == a + (b + c)
  {
  }

  lemma {:induction false} RunHoldsNewest(h: History, cs: seq<Change>, ns: seq<int>, max: int)
    requires Bounded(h.versions, max) && HoldsNewest(h.versions, ns, max)
    ensures HoldsNewest(ApplyAll(h, cs, max).versions, ns + Numbers(h, cs, max), max)
    decreases |cs|
  {
    if cs == [] {
      assert ns + [] == ns;
    } else {
      var (c, rest) := (cs[0], cs[1..]);
      var next := Apply(h, c, max);
      assert cs == [c] + rest;
      ApplyKeepsBounded(h, c, max);
      HoldsNewestStep(h, c, ns, max);
      assert ns + [] == ns;
      RunHoldsNewest(next, rest, ns + GivenOut(h, c, max), max);
      assert cs[1..] == rest;
      Regroup(ns, GivenOut(h, c, max), Numbers(next, rest, max));
    }
  }

  /** Whether a change records an image. */
  predicate Deploys(h: History, c: Change) {
    c.Deploy? && c.image != "" && Has(h.versions, c.version)
  }

  predicate EverDeployed(h: History, cs: seq<Change>, max: int)
    decreases |cs|
  {
    cs != [] && (Deploys(h, cs[0]) || EverDeployed(Apply(h, cs[0], max), cs[1..], max))
  }

  ghost predicate NoImages(vs: seq<Version>) {
    forall i :: 0 <= i < |vs| ==> vs[i].deployedImageName == ""
  }

  /** Before anything is deployed there are no images; afterwards the deployed number has been given out already, and
      its version, while it is listed, has an image. */
  ghost predicate Tracked(h: History, deployed: bool, max: int) {
    && Bounded(h.versions, max)
    && (!deployed ==> NoImages(h.versions))
    && (deployed ==> h.versions != [] && h.deployedVersion <= h.versions[|h.versions| - 1].version)
    && (deployed && Has(h.versions, h.deployedVersion) ==> ImageOf(h.versions, h.deployedVersion) != "")
  }

  /** What a creation makes of a list: the end of it, and a newer version without an image. */
  ghost predicate Grown(vs: seq<Version>, next: seq<Version>) {
    && 0 < |next| <= |vs| + 1
    && (forall i :: 0 <= i < |next| - 1 ==> next[i] == vs[|vs| - |next| + 1 + i])
    && next[|next| - 1].deployedImageName == ""
    && (vs != [] ==> vs[|vs| - 1].version < next[|next| - 1].version)
  }

  lemma CreateGrows(vs: seq<Version>, max: int)
    requires Bounded(vs, max)
    ensures Bounded(CreateVersion(vs, max), max) && Grown(vs, CreateVersion(vs, max))
  {
    CreateMeaning(vs, max);
    if vs != [] { NewestIsKept(vs, max); }
  }

  lemma CreateTracks(h: History, deployed: bool, max: int)
    requires Tracked(h, deployed, max)
    ensures Tracked(Apply(h, Create, max), deployed, max)
  {
    CreateGrows(h.versions, max);
    GrownTracks(h.versions, CreateVersion(h.versions, max), h.deployedVersion, deployed, max);
  }

  lemma GrownTracks(vs: seq<Version>, next: seq<Version>, v: int, deployed: bool, max: int)
    requires Tracked(History(vs, v), deployed, max) && Bounded(next, max) && Grown(vs, next)
    ensures Tracked(History(next, v), deployed, max)
  {
    if deployed && Has(next, v) {
      KeptImage(vs, next, v);
    }
  }

  /** What is still listed below a new version is listed as before. */
  lemma KeptImage(vs: seq<Version>, next: seq<Version>, v: int)
    requires Increasing(vs) && Increasing(next) && Grown(vs, next)
    requires v < next[|next| - 1].version && Has(next, v)
    ensures Has(vs, v) && ImageOf(next, v) == ImageOf(vs, v)
  {
    var i := IndexOf(next, v);
    UniqueIndex(vs, |vs| - |next| + 1 + i);
  }

  lemma HasImageFound(vs: seq<Version>, v: int)
    requires Increasing(vs)
    ensures HasImage(vs, v) <==> ImageOf(vs, v) != ""
    ensures Has(vs, v) ==> v <= vs[|vs| - 1].version
  {
    if HasImage(vs, v) {
      var i :| 0 <= i < |vs| && vs[i].version == v && vs[i].deployedImageName != "";
      UniqueIndex(vs, i);
    }
  }

  lemma DeployTracks(h: History, deployed: bool, v: int, image: string, gitHash: string, max: int)
    requires Tracked(h, deployed, max) && Deploys(h, Deploy(v, image, gitHash))
    ensures Tracked(Apply(h, Deploy(v, image, gitHash), max), true, max)
  {
    var next := SetImage(h.versions, v, image, gitHash);
    SetImageMeaning(h.versions, v, image, gitHash);
    HasImageFound(h.versions, v);
    var i := IndexOf(h.versions, v);
    assert next[i] == Version(v, image, gitHash);
    UniqueIndex(next, i);
  }

  lemma StepTracks(h: History, deployed: bool, c: Change, max: int)
    requires Tracked(h, deployed, max)
    ensures Tracked(Apply(h, c, max), deployed || Deploys(h, c), max)
  {
    match c
    case Create => CreateTracks(h, deployed, max);
    case Deploy(v, image, gitHash) =>
      if Deploys(h, c) { DeployTracks(h, deployed, v, image, gitHash, max); }
    case Rollback(v) => HasImageFound(h.versions, v);
  }

  lemma {:induction false} RunTracks(h: History, deployed: bool, cs: seq<Change>, max: int)
    requires Tracked(h, deployed, max)
    ensures Tracked(ApplyAll(h, cs, max), deployed || EverDeployed(h, cs, max), max)
    decreases |cs|
  {
    if cs != [] {
      StepTracks(h, deployed, cs[0], max);
      RunTracks(Apply(h, cs[0], max), deployed || Deploys(h, cs[0]), cs[1..], max);
    }
  }

  /** `v` was given out by one of the last `max` creations. */
  ghost predicate AmongNewest(ns: seq<int>, max: int, v: int) {
    exists i :: 0 <= i < |ns| && |ns| - max <= i && ns[i] == v
  }

  lemma ListedExactly(vs: seq<Version>, ns: seq<int>, max: int, v: int)
    requires HoldsNewest(vs, ns, max) && Increasing(vs)
    ensures Has(vs, v) <==> AmongNewest(ns, max, v)
  {
    if AmongNewest(ns, max, v) {
      var i :| 0 <= i < |ns| && |ns| - max <= i && ns[i] == v;
      var j := i - (|ns| - |vs|);
      assert vs[j].version == ns[|ns| - |vs| + j];
      UniqueIndex(vs, j);
    }
    if Has(vs, v) {
      var i := IndexOf(vs, v);
      assert ns[|ns| - |vs| + i] == v;
    }
  }

  /** Over every run from an empty history, rollbacks included: the image lookup for whatever version is deployed
      finds an image if and only if some image was ever recorded and the deployed version was created by one of the
      last `max` creations. */
  lemma LookupExactly(cs: seq<Change>, max: int)
    requires 2 <= max
    ensures var h := ApplyAll(EMPTY, cs, max);
            ImageOf(h.versions, h.deployedVersion) != ""
            <==> EverDeployed(EMPTY, cs, max) && AmongNewest(Numbers(EMPTY, cs, max), max, h.deployedVersion)
  {
    var h := ApplyAll(EMPTY, cs, max);
    var ns := Numbers(EMPTY, cs, max);
    RunHoldsNewest(EMPTY, cs, [], max);
    assert [] + ns == ns;
    RunTracks(EMPTY, false, cs, max);
    ListedExactly(h.versions, ns, max, h.deployedVersion);
  }

  /** Whether an image has been recorded since the last creation. */
  predicate DeployedSinceCreation(h: History, cs: seq<Change>, max: int, deployed: bool)
    decreases |cs|
  {
    if cs == [] then deployed
    else DeployedSinceCreation(Apply(h, cs[0], max), cs[1..], max, !cs[0].Create? && (deployed || Deploys(h, cs[0])))
  }

  ghost predicate Lone(h: History, deployed: bool) {
    && |h.versions| <= 1 && h.deployedVersion == 0
    && (h.versions != [] ==> h.versions[0].version == 0)
    && (deployed <==> h.versions != [] && h.versions[0].deployedImageName != "")
  }

  /** With a bound of 1 or less every creation drops whatever image there was: the lookup finds one if and only if
      it was recorded since the last creation. */
  lemma {:induction false} LookupWithoutHistory(h: History, cs: seq<Change>, max: int, deployed: bool)
    requires max <= 1 && Lone(h, deployed)
    ensures var end := ApplyAll(h, cs, max);
            ImageOf(end.versions, end.deployedVersion) != "" <==> DeployedSinceCreation(h, cs, max, deployed)
    decreases |cs|
  {
    if cs != [] {
      var next := Apply(h, cs[0], max);
      assert Lone(next, !cs[0].Create? && (deployed || Deploys(h, cs[0])));
      LookupWithoutHistory(next, cs[1..], max, !cs[0].Create? && (deployed || Deploys(h, cs[0])));
    }
  }

  // ---------------------------------------------------------------------------------------------
  // Which numbers, and what a deployment records
  // ---------------------------------------------------------------------------------------------

  /** The numbers from `n` on, `count` of them. */
  function CountedFrom(n: int, count: nat): seq<int> {
    seq(count, i requires 0 <= i < count => n + i)
  }

  lemma {:induction false} NextNumberIsNewest(n: int, vs: seq<Version>)
    requires Increasing(vs)
    ensures NextNumber(n, vs) == if vs == [] || vs[|vs| - 1].version < n then n else vs[|vs| - 1].version + 1
    decreases |vs|
  {
    if vs != [] {
      NextNumberIsNewest(if n <= vs[0].version then vs[0].version + 1 else n, vs[1..]);
    }
  }

  lemma CreatedNumber(h: History, n: nat, max: int)
    requires Bounded(h.versions, max) && HoldsNewest(h.versions, CountedFrom(0, n), max)
    ensures GivenOut(h, Create, max) == [n]
  {
    var vs := h.versions;
    assert |vs| == (if n <= max then n else max);
    if n > 0 { assert vs[|vs| - 1].version == CountedFrom(0, n)[n - 1]; }
    NumberAfter(vs, DropFirstElements(vs, max - 1), n, max);
  }

  lemma NumberAfter(vs: seq<Version>, kept: seq<Version>, n: nat, max: int)
    requires Bounded(vs, max) && kept == DropFirstElements(vs, max - 1) && |vs| <= n
    requires if n == 0 then vs == [] else vs != [] && vs[|vs| - 1].version == n - 1
    ensures NextNumber(|kept|, kept) == n
  {
    if n > 0 { assert kept[|kept| - 1] == vs[|vs| - 1]; }
    NextNumberIsNewest(|kept|, kept);
  }

  lemma {:induction false} RunCounts(h: History, cs: seq<Change>, n: nat, max: int)
    requires Bounded(h.versions, max) && HoldsNewest(h.versions, CountedFrom(0, n), max)
    ensures Numbers(h, cs, max) == CountedFrom(n, Creations(cs))
    decreases |cs|
  {
    if cs != [] {
      var (c, next, rest) := (cs[0], Apply(h, cs[0], max), cs[1..]);
      CountStep(h, c, n, max);
      RunCounts(next, rest, if c.Create? then n + 1 else n, max);
      NumbersHead(h, cs, max);
      CountedNext(n, Creations(rest));
    }
  }

  lemma NumbersHead(h: History, cs: seq<Change>, max: int)
    requires cs != []
    ensures Numbers(h, cs, max) == GivenOut(h, cs[0], max) + Numbers(Apply(h, cs[0], max), cs[1..], max)
  {
  }

  lemma CountedNext(n: int, k: nat)
    ensures [n] + CountedFrom(n + 1, k) == CountedFrom(n, 1 + k)
    ensures [] + CountedFrom(n, k) == CountedFrom(n, k)
  {
  }

  lemma CountStep(h: History, c: Change, n: nat, max: int)
    requires Bounded(h.versions, max) && HoldsNewest(h.versions, CountedFrom(0, n), max)
    ensures Bounded(Apply(h, c, max).versions, max)
    ensures HoldsNewest(Apply(h, c, max).versions, CountedFrom(0, if c.Create? then n + 1 else n), max)
    ensures GivenOut(h, c, max) == if c.Create? then [n] else []
  {
    ApplyKeepsBounded(h, c, max);
    if c.Create? {
      CountCreation(h, n, max);
    } else {
      HoldsNewestStep(h, c, CountedFrom(0, n), max);
    }
  }

  lemma CountCreation(h: History, n: nat, max: int)
    requires Bounded(h.versions, max) && HoldsNewest(h.versions, CountedFrom(0, n), max)
    ensures HoldsNewest(Apply(h, Create, max).versions, CountedFrom(0, n + 1), max)
    ensures GivenOut(h, Create, max) == [n]
  {
    var ns := CountedFrom(0, n);
    HoldsNewestStep(h, Create, ns, max);
    CreatedNumber(h, n, max);
    assert ns + [n] == CountedFrom(0, n + 1);
  }

  /** From an empty history the creations of any run are numbered 0, 1, 2 and so on, without a gap, whatever has been
      dropped, deployed or rolled back. */
  lemma NumbersAreCounted(cs: seq<Change>, max: int)
    requires 2 <= max
    ensures Numbers(EMPTY, cs, max) == CountedFrom(0, Creations(cs))
  {
    RunCounts(EMPTY, cs, 0, max);
  }

  /** Deploying a listed version makes it the deployed one, records its image and commit, and changes no other. */
  lemma DeployExactly(h: History, v: int, image: string, gitHash: string, max: int)
    requires Increasing(h.versions) && image != ""
    ensures var next := Apply(h, Deploy(v, image, gitHash), max);
            if exists i :: 0 <= i < |h.versions| && h.versions[i].version == v then
              && next.deployedVersion == v && |next.versions| == |h.versions|
              && forall i :: 0 <= i < |h.versions| ==>
                   next.versions[i] == if h.versions[i].version == v then Version(v, image, gitHash) else h.versions[i]
            else next == h
  {
    if i :| 0 <= i < |h.versions| && h.versions[i].version == v {
      UniqueIndex(h.versions, i);
    }
  }
}
