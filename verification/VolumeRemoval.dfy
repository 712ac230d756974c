/** `removeVolsSafe` of src/user/ServiceManager.ts: deleting the volumes of removed apps without touching any that
another app still uses. Docker's answers are a parameter: the volumes it fails to delete. */
module VolumeRemoval {
  import opened Names

  /** An app's kind, and the logical names of its volumes; the empty string for a bind mount. */
  datatype App = App(isLegacy: bool, volumes: seq<string>)

  /** Reading a plain object also finds what it inherits. */
  const INHERITED: set<string> := {
    "constructor", "hasOwnProperty", "isPrototypeOf", "propertyIsEnumerable", "toLocaleString", "toString", "valueOf",
    "__proto__", "__defineGetter__", "__defineSetter__", "__lookupGetter__", "__lookupSetter__"
  }

  /** Setting `object[key] = true`: assigning to this one key does not create an entry. */
  function Mark(entries: set<string>, key: string): set<string> {
    if key == "__proto__" then entries else entries + {key}
  }

  function Marks(keys: set<string>): set<string> {
    keys - {"__proto__"}
  }

  /** The physical volumes that some stored app maps to. */
  function InUse(namespace: string, apps: map<string, App>): set<string> {
    set name, v | name in apps && v in apps[name].volumes && v != "" :: VolumeName(namespace, v, apps[name].isLegacy)
  }

  /** What a failed volume is reported as. */
  function ReportedAs(volumes: map<string, string>, physical: string): string {
    if physical in volumes && volumes[physical] != "" then volumes[physical] else physical
  }

  /** Every requested volume that no app maps to and no object inherits. */
  function Asked(namespace: string, volumes: map<string, string>, apps: map<string, App>): set<string> {
    volumes.Keys - InUse(namespace, apps) - INHERITED
  }

  /** The names of the volumes withheld, and of those Docker fails on. */
  function Failed(volumes: map<string, string>, asked: set<string>, dockerFails: set<string>): set<string> {
    Marks(set p | p in volumes && p !in asked :: volumes[p])
    + Marks(set p | p in asked && p in dockerFails :: ReportedAs(volumes, p))
  }

  class VolumeRemover {
    const namespace: string

    constructor (namespace: string)
      ensures this.namespace == namespace
    {
      this.namespace := namespace;
    }

    method VolumesInUse(apps: map<string, App>) returns (inUse: set<string>)
      ensures inUse == Marks(InUse(namespace, apps))
    {
      inUse := {};
      var names := apps.Keys;
      ghost var done: map<string, App> := map[];
      while names != {}
        invariant names <= apps.Keys && done == map k | k in apps && k !in names :: apps[k]
        invariant inUse == Marks(InUse(namespace, done))
        decreases names
      {
        var name :| name in names;
        var app := apps[name];
        for i := 0 to |app.volumes|
          invariant inUse == Marks(InUse(namespace, done) + FirstVolumes(namespace, app, i))
        {
          assert FirstVolumes(namespace, app, i + 1) == FirstVolumes(namespace, app, i)
              + if app.volumes[i] == "" then {} else {VolumeName(namespace, app.volumes[i], app.isLegacy)};
          if app.volumes[i] != "" {
            inUse := Mark(inUse, VolumeName(namespace, app.volumes[i], app.isLegacy));
          }
        }
        names := names - {name};
        MoreInUse(namespace, done, name, app);
        done := done[name := app];
      }
      assert done == apps;
    }

    /** `asked` is what Docker is asked to delete, `failed` the logical names the call resolves to. */
    method RemoveVolsSafe(volumes: map<string, string>, apps: map<string, App>, dockerFails: set<string>)
      returns (asked: set<string>, failed: set<string>)
      ensures asked == Asked(namespace, volumes, apps)
      ensures failed == Failed(volumes, asked, dockerFails)
    {
      var physicalVolumesInUse := VolumesInUse(apps);
      var volsFailedToDelete: set<string> := {};
      asked := {};
      var keys := volumes.Keys;
      while keys != {}
        invariant keys <= volumes.Keys
        invariant asked == volumes.Keys - keys - InUse(namespace, apps) - INHERITED
        invariant volsFailedToDelete == Marks(set p | p in volumes && p !in keys && p !in asked :: volumes[p])
        decreases keys
      {
        var physical :| physical in keys;
        keys := keys - {physical};
        if physical in physicalVolumesInUse || physical in INHERITED {
          volsFailedToDelete := Mark(volsFailedToDelete, volumes[physical]);
        } else {
          asked := asked + {physical};
        }
      }
      var failedVols := asked * dockerFails;
      while failedVols != {}
        invariant failedVols <= asked * dockerFails
        invariant volsFailedToDelete == Marks(set p | p in volumes && p !in asked :: volumes[p])
                    + Marks(set p | p in asked && p in dockerFails && p !in failedVols :: ReportedAs(volumes, p))
        decreases failedVols
      {
        var physical :| physical in failedVols;
        volsFailedToDelete := Mark(volsFailedToDelete, ReportedAs(volumes, physical));
        failedVols := failedVols - {physical};
      }
      failed := volsFailedToDelete;
    }
  }

  ghost function FirstVolumes(namespace: string, app: App, n: nat): set<string> {
    set j | 0 <= j < n && j < |app.volumes| && app.volumes[j] != "" ::
      VolumeName(namespace, app.volumes[j], app.isLegacy)
  }

  lemma MoreInUse(namespace: string, apps: map<string, App>, name: string, app: App)
    requires name !in apps
    ensures InUse(namespace, apps[name := app])
         == InUse(namespace, apps) + FirstVolumes(namespace, app, |app.volumes|)
  {
    var more := apps[name := app];
    forall p | p in InUse(namespace, apps) ensures p in InUse(namespace, more) {
      var n, v :| n in apps && v in apps[n].volumes && v != "" && p == VolumeName(namespace, v, apps[n].isLegacy);
      assert n in more && v in more[n].volumes;
    }
    forall j | 0 <= j < |app.volumes| && app.volumes[j] != ""
      ensures VolumeName(namespace, app.volumes[j], app.isLegacy) in InUse(namespace, more)
    {
      assert name in more && app.volumes[j] in more[name].volumes;
    }
  }

  /** Every stored app's volumes have allowed names, as saving an app makes sure. */
  ghost predicate AllowedVolumes(apps: map<string, App>) {
    forall name, v :: name in apps && v in apps[name].volumes && v != "" ==> VolumeNameAllowed(v)
  }

  /** The namespace and its double hyphen keep a legacy app's volume apart from every inherited property; a new app's
      volume is named by its logical name, which may be that of one. */
  lemma InheritedExactly(namespace: string, v: string, isLegacy: bool)
    ensures VolumeName(namespace, v, isLegacy) in INHERITED <==> !isLegacy && v in INHERITED
  {
    if isLegacy {
      var p := VolumeName(namespace, v, true);
      assert p[|namespace|] == '-';
      if p in INHERITED {
        InheritedHasNoHyphen(p, |namespace|);
      }
    }
  }

  lemma InheritedHasNoHyphen(name: string, i: nat)
    requires name in INHERITED && i < |name|
    ensures name[i] != '-'
  {
  }

  /** An app of this kind lists the logical volume. */
  ghost predicate Listed(apps: map<string, App>, v: string, isLegacy: bool) {
    exists name :: name in apps && apps[name].isLegacy == isLegacy && v in apps[name].volumes
  }

  /** Some app maps to a volume exactly when an app of the volume's own kind lists its logical name: names of different
      volumes, or of legacy and new apps, are never confused. */
  lemma InUseExactly(namespace: string, apps: map<string, App>, v: string, isLegacy: bool)
    requires AllowedVolumes(apps) && VolumeNameAllowed(v)
    ensures VolumeName(namespace, v, isLegacy) in InUse(namespace, apps) <==> Listed(apps, v, isLegacy)
  {
    var p := VolumeName(namespace, v, isLegacy);
    if p in InUse(namespace, apps) {
      var name, w :| name in apps && w in apps[name].volumes && w != ""
                     && p == VolumeName(namespace, w, apps[name].isLegacy);
      VolumeNamesAreDistinct(namespace, v, isLegacy, w, apps[name].isLegacy);
    }
  }

  /** A requested volume is withheld from Docker exactly when an app of its own kind lists its logical name, or when it
      is a new app's and named like a property that every object inherits. So Docker is never asked to delete a
      volume that an app maps to. */
  lemma WithheldExactly(namespace: string, apps: map<string, App>, volumes: map<string, string>, v: string,
                        isLegacy: bool)
    requires AllowedVolumes(apps) && VolumeNameAllowed(v) && VolumeName(namespace, v, isLegacy) in volumes
    ensures VolumeName(namespace, v, isLegacy) !in Asked(namespace, volumes, apps)
       <==> Listed(apps, v, isLegacy) || (!isLegacy && v in INHERITED)
  {
    InUseExactly(namespace, apps, v, isLegacy);
    InheritedExactly(namespace, v, isLegacy);
  }

  /** No allowed name is the one key to which assigning creates no entry. */
  lemma PrototypeIsNotAllowed(v: string)
    requires VolumeNameAllowed(v)
    ensures v != "__proto__"
  {
    assert !VolumeChar('_');
  }

  /** A logical name is reported exactly when a requested volume of that name was withheld, or Docker failed on it. */
  lemma ReportedExactly(volumes: map<string, string>, asked: set<string>, dockerFails: set<string>, v: string)
    requires asked <= volumes.Keys && VolumeNameAllowed(v) && forall p :: p in volumes ==> volumes[p] != ""
    ensures v in Failed(volumes, asked, dockerFails)
       <==> exists p :: p in volumes && volumes[p] == v && (p !in asked || p in dockerFails)
  {
    if v in Failed(volumes, asked, dockerFails) {
      var p :| p in volumes && v == ReportedAs(volumes, p) && (p !in asked || p in dockerFails);
      assert volumes[p] != "";
    }
    if p :| p in volumes && volumes[p] == v && (p !in asked || p in dockerFails) {
      PrototypeIsNotAllowed(v);
      assert ReportedAs(volumes, p) == v;
    }
  }
}
