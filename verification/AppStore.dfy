/** The app store of src/datastore/AppsDataStore.ts: every mutator reads an app, changes it and goes through
`saveApp`, which validates it as a whole.

Fields that no check and no other operation modelled here looks at are left out of `App`. Empty strings stand for
absent optional strings. Which paths the path library accepts, and the length of the version history, are
configuration. */
module AppStore {
  import opened Wrappers
  import opened Text
  import opened Names
  import VersionHistory

  datatype Error =
    | EmptyName | BadName | Exists | NotFound | BadDomainType | NoSslDomain | EmptyEnvKey | BadPort | MissingPath
    | BothSources | BadPath | BadVolumeName | NoSuchDomain | DuplicateDomain | NoSuchVersion | EmptyImage

  /** A finite JavaScript number, without its rounding, or none. */
  datatype Number = NaN | Num(n: real)

  datatype Domain = Domain(publicDomain: string, hasSsl: bool, domainType: Option<string>)
  datatype EnvVar = EnvVar(key: string, value: string)
  datatype Port = Port(containerPort: Number, hostPort: Number)
  datatype Volume = Volume(containerPath: string, volumeName: string, hostPath: string)

  datatype App = App(
    isLegacyAppName: Option<bool>,
    forceSsl: bool,
    hasDefaultSubDomainSsl: bool,
    redirectDomain: string,
    instanceCount: Number,
    customDomain: seq<Domain>,
    envVars: seq<EnvVar>,
    ports: seq<Port>,
    volumes: seq<Volume>,
    history: VersionHistory.History)

  type Apps = map<string, App>

  datatype Config = Config(validPath: string -> bool, maxVersionHistory: int)

  const NEW_APP := App(None, false, false, "", Num(1.0), [], [], [], [], VersionHistory.EMPTY)

  // ---------------------------------------------------------------------------------------------
  // What saving checks
  // ---------------------------------------------------------------------------------------------

  const DOMAIN_TYPES := ["internal", "external", "test", "custom"]

  function ToLower(s: string): string {
    seq(|s|, i requires 0 <= i < |s| => if IsUpper(s[i]) then (s[i] as int + 32) as char else s[i])
  }

  function NormalizeDomainType(t: string): Result<string, Error> {
    if t == "" then Ok("custom")
    else if ToLower(Trim(t)) in DOMAIN_TYPES then Ok(ToLower(Trim(t)))
    else Err(BadDomainType)
  }

  function NormalizeDomain(d: Domain): Result<Domain, Error> {
    if d.domainType.None? then Ok(d)
    else
      var n := NormalizeDomainType(d.domainType.value);
      if n.Ok? then Ok(d.(domainType := Some(n.value))) else Err(n.error)
  }

  /** All domains normalized, or the first error. */
  function NormalizeDomains(ds: seq<Domain>): Result<seq<Domain>, Error> {
    if ds == [] then Ok([])
    else
      var init, last := NormalizeDomains(ds[..|ds| - 1]), NormalizeDomain(ds[|ds| - 1]);
      if init.Err? then init else if last.Err? then Err(last.error) else Ok(init.value + [last.value])
  }

  predicate HasSslDomain(a: App) {
    a.hasDefaultSubDomainSsl || exists i | 0 <= i < |a.customDomain| :: a.customDomain[i].hasSsl
  }

  predicate PortInRange(n: Number) {
    n.Num? && 0.0 < n.n < 65535.0
  }

  predicate PortValid(p: Port) {
    PortInRange(p.containerPort) && PortInRange(p.hostPort)
  }

  predicate KeysPresent(es: seq<EnvVar>) {
    forall i :: 0 <= i < |es| ==> es[i].key != ""
  }

  predicate PortsValid(ps: seq<Port>) {
    forall i :: 0 <= i < |ps| ==> PortValid(ps[i])
  }

  function VolumeError(v: Volume, validPath: string -> bool): Option<Error> {
    if v.containerPath == "" || (v.volumeName == "" && v.hostPath == "") then Some(MissingPath)
    else if v.volumeName != "" && v.hostPath != "" then Some(BothSources)
    else if !validPath(v.containerPath) then Some(BadPath)
    else if v.hostPath != "" && !validPath(v.hostPath) then Some(BadPath)
    else if v.hostPath == "" && !VolumeNameAllowed(v.volumeName) then Some(BadVolumeName)
    else None
  }

  /** The first volume's error. */
  function VolumesError(vs: seq<Volume>, validPath: string -> bool): Option<Error> {
    if vs == [] then None
    else
      var init := VolumesError(vs[..|vs| - 1], validPath);
      if init.Some? then init else VolumeError(vs[|vs| - 1], validPath)
  }

  /** What `saveApp` stores under `name`, where `existing` is stored already, or why it refuses. */
  function Save(cfg: Config, existing: Option<App>, name: string, app: App): Result<App, Error> {
    var ds := NormalizeDomains(app.customDomain);
    if name == "" then Err(EmptyName)
    else if ds.Err? then Err(ds.error)
    else
      var a := app.(customDomain := ds.value,
                    isLegacyAppName := if existing.Some? then existing.value.isLegacyAppName else app.isLegacyAppName);
      if a.forceSsl && !HasSslDomain(a) then Err(NoSslDomain)
      else if !KeysPresent(a.envVars) then Err(EmptyEnvKey)
      else if !PortsValid(a.ports) then Err(BadPort)
      else
        var e := VolumesError(a.volumes, cfg.validPath);
        if e.Some? then Err(e.value) else Ok(a)
  }

  function Find(apps: Apps, name: string): Option<App> {
    if name in apps then Some(apps[name]) else None
  }

  function SaveIn(cfg: Config, apps: Apps, name: string, app: App): (Apps, Result<(), Error>) {
    var r := Save(cfg, Find(apps, name), name, app);
    if r.Ok? then (apps[name := r.value], Ok(())) else (apps, Err(r.error))
  }

  // ---------------------------------------------------------------------------------------------
  // Mutations
  // ---------------------------------------------------------------------------------------------

  datatype Mutation =
    | SetDefaultSsl(on: bool)
    | ForceSslOff
    | EnableDomainSsl(domain: string)
    | RemoveDomain(domain: string)
    | AddDomain(domain: string, domainType: string)
    | NewVersion
    | SetImage(version: int, image: string, gitHash: string)
    | Rollback(version: int)
    | Pause
    | Update(forceSsl: bool, redirectDomain: string, instances: Number,
             ports: Option<seq<Port>>, envVars: Option<seq<EnvVar>>, volumes: Option<seq<Volume>>)

  /** The first attached domain with this name; the number of domains if there is none. */
  function DomainIndex(ds: seq<Domain>, d: string): (i: nat)
    ensures i <= |ds| && (forall j :: 0 <= j < i ==> ds[j].publicDomain != d) && (i < |ds| ==> ds[i].publicDomain == d)
  {
    IndexWhere(ds, (x: Domain) => x.publicDomain == d)
  }

  function OtherDomains(ds: seq<Domain>, d: string): seq<Domain> {
    if ds == [] then []
    else OtherDomains(ds[..|ds| - 1], d) + if ds[|ds| - 1].publicDomain == d then [] else [ds[|ds| - 1]]
  }

  predicate Falsy(n: Number) {
    n.NaN? || n.n == 0.0
  }

  predicate EmptyPort(p: Port) {
    Falsy(p.containerPort) && Falsy(p.hostPort)
  }

  function KeptPorts(ps: seq<Port>): seq<Port> {
    if ps == [] then []
    else KeptPorts(ps[..|ps| - 1]) + if EmptyPort(ps[|ps| - 1]) then [] else [ps[|ps| - 1]]
  }

  function TrimKey(e: EnvVar): EnvVar {
    EnvVar(Trim(e.key), e.value)
  }

  function KeptEnvVars(es: seq<EnvVar>): seq<EnvVar> {
    if es == [] then []
    else
      var e := TrimKey(es[|es| - 1]);
      KeptEnvVars(es[..|es| - 1]) + if e == EnvVar("", "") then [] else [e]
  }

  function TrimVolume(v: Volume): Volume {
    if v.hostPath != "" then Volume(Trim(v.containerPath), "", Trim(v.hostPath))
    else Volume(Trim(v.containerPath), Trim(v.volumeName), "")
  }

  function KeptVolumes(vs: seq<Volume>): seq<Volume> {
    if vs == [] then []
    else
      var v := TrimVolume(vs[|vs| - 1]);
      KeptVolumes(vs[..|vs| - 1]) + if v == Volume("", "", "") then [] else [v]
  }

  function Mutated(cfg: Config, a: App, m: Mutation): Result<App, Error> {
    match m
    case SetDefaultSsl(on) => Ok(a.(hasDefaultSubDomainSsl := on))
    case ForceSslOff => Ok(a.(forceSsl := false))
    case EnableDomainSsl(d) =>
      var i := DomainIndex(a.customDomain, d);
      if i == |a.customDomain| then Err(NoSuchDomain)
      else Ok(a.(customDomain := a.customDomain[i := a.customDomain[i].(hasSsl := true)]))
    case RemoveDomain(d) =>
      var rest := OtherDomains(a.customDomain, d);
      if DomainIndex(a.customDomain, d) == |a.customDomain| then Err(NoSuchDomain)
      else Ok(a.(customDomain := rest,
                 redirectDomain := if a.redirectDomain == d || rest == [] then "" else a.redirectDomain))
    case AddDomain(d, t) =>
      var n := NormalizeDomainType(t);
      if n.Err? then Err(n.error)
      else if DomainIndex(a.customDomain, d) < |a.customDomain| then Err(DuplicateDomain)
      else Ok(a.(customDomain := a.customDomain + [Domain(d, false, Some(n.value))]))
    case NewVersion =>
      Ok(a.(history := VersionHistory.Apply(a.history, VersionHistory.Create, cfg.maxVersionHistory)))
    case SetImage(v, image, gitHash) =>
      if image == "" then Err(EmptyImage)
      else if !VersionHistory.Has(a.history.versions, v) then Err(NoSuchVersion)
      else
        var deploy := VersionHistory.Deploy(v, image, gitHash);
        Ok(a.(history := VersionHistory.Apply(a.history, deploy, cfg.maxVersionHistory)))
    case Rollback(v) =>
      if !VersionHistory.HasImage(a.history.versions, v) then Err(NoSuchVersion)
      else Ok(a.(history := a.history.(deployedVersion := v)))
    case Pause => Ok(a.(instanceCount := Num(0.0)))
    case Update(forceSsl, redirect, instances, ports, envVars, volumes) =>
      Ok(a.(forceSsl := forceSsl, redirectDomain := redirect,
            instanceCount := if instances.Num? && instances.n >= 0.0 then instances else a.instanceCount,
            ports := if ports.Some? then KeptPorts(ports.value) else a.ports,
            envVars := if envVars.Some? then KeptEnvVars(envVars.value) else a.envVars,
            volumes := if volumes.Some? then KeptVolumes(volumes.value) else a.volumes))
  }

  datatype Command =
    | Register(name: string)
    | Mutate(name: string, mutation: Mutation)
    | Rename(from: string, to: string)
    | Delete(name: string)

  function Exec(cfg: Config, apps: Apps, c: Command): (Apps, Result<(), Error>) {
    match c
    case Register(name) =>
      if !NameAllowed(name) then (apps, Err(BadName))
      else if name in apps then (apps, Err(Exists))
      else SaveIn(cfg, apps, name, NEW_APP)
    case Mutate(name, m) =>
      if name !in apps then (apps, Err(NotFound))
      else
        var a := Mutated(cfg, apps[name], m);
        if a.Err? then (apps, Err(a.error)) else SaveIn(cfg, apps, name, a.value)
    case Rename(from, to) =>
      if !NameAllowed(to) then (apps, Err(BadName))
      else if to in apps then (apps, Err(Exists))
      else if from !in apps then (apps, Err(NotFound))
      else
        var (saved, r) := SaveIn(cfg, apps, to, apps[from].(hasDefaultSubDomainSsl := false));
        (if r.Ok? then saved - {from} else apps, r)
    case Delete(name) =>
      if name !in apps then (apps, Err(NotFound)) else (apps - {name}, Ok(()))
  }

  // ---------------------------------------------------------------------------------------------
  // The class
  // ---------------------------------------------------------------------------------------------

  class AppsDataStore {
    var apps: Apps
    const cfg: Config

    constructor (cfg: Config)
      ensures apps == map[] && this.cfg == cfg
    {
      apps := map[];
      this.cfg := cfg;
    }

    method SaveApp(appName: string, app: App) returns (r: Result<(), Error>)
      modifies this`apps
      ensures (apps, r) == SaveIn(cfg, old(apps), appName, app)
    {
      if appName == "" { return Err(EmptyName); }
      var domains := NormalizeAllDomains(app.customDomain);
      if domains.Err? { return Err(domains.error); }
      var appToSave := app.(customDomain := domains.value);
      if appName in apps {
        appToSave := appToSave.(isLegacyAppName := apps[appName].isLegacyAppName);
      }
      var sslOk := CheckSsl(appToSave);
      if !sslOk { return Err(NoSslDomain); }
      var keysOk := CheckEnvVars(appToSave.envVars);
      if !keysOk { return Err(EmptyEnvKey); }
      var portsOk := CheckPorts(appToSave.ports);
      if !portsOk { return Err(BadPort); }
      var volumeError := CheckVolumes(appToSave.volumes);
      if volumeError.Some? { return Err(volumeError.value); }
      apps := apps[appName := appToSave];
      r := Ok(());
    }

    static method CheckEnvVars(envVars: seq<EnvVar>) returns (ok: bool)
      ensures ok <==> KeysPresent(envVars)
    {
      for i := 0 to |envVars|
        invariant forall j :: 0 <= j < i ==> envVars[j].key != ""
      {
        if envVars[i].key == "" { return false; }
      }
      ok := true;
    }

    static method CheckPorts(ports: seq<Port>) returns (ok: bool)
      ensures ok <==> PortsValid(ports)
    {
      for i := 0 to |ports|
        invariant forall j :: 0 <= j < i ==> PortValid(ports[j])
      {
        if !PortValid(ports[i]) { return false; }
      }
      ok := true;
    }

    method CheckVolumes(volumes: seq<Volume>) returns (error: Option<Error>)
      ensures error == VolumesError(volumes, cfg.validPath)
    {
      for i := 0 to |volumes|
        invariant VolumesError(volumes[..i], cfg.validPath) == None
      {
        assert volumes[..i + 1][..i] == volumes[..i];
        error := VolumeError(volumes[i], cfg.validPath);
        if error.Some? {
          FirstErrorStays(volumes, i + 1, cfg.validPath);
          return;
        }
      }
      assert volumes[..|volumes|] == volumes;
      error := None;
    }

    static method NormalizeAllDomains(domains: seq<Domain>) returns (r: Result<seq<Domain>, Error>)
      ensures r == NormalizeDomains(domains)
    {
      var normalized := [];
      for i := 0 to |domains|
        invariant NormalizeDomains(domains[..i]) == Ok(normalized)
      {
        assert domains[..i + 1][..i] == domains[..i];
        var d := NormalizeDomain(domains[i]);
        if d.Err? {
          FirstBadTypeStays(domains, i + 1);
          return Err(d.error);
        }
        normalized := normalized + [d.value];
      }
      assert domains[..|domains|] == domains;
      r := Ok(normalized);
    }

    static method CheckSsl(app: App) returns (ok: bool)
      ensures ok <==> app.forceSsl ==> HasSslDomain(app)
    {
      if !app.forceSsl { return true; }
      var hasAtLeastOneSslDomain := app.hasDefaultSubDomainSsl;
      for idx := 0 to |app.customDomain|
        invariant hasAtLeastOneSslDomain
             <==> app.hasDefaultSubDomainSsl || exists i :: 0 <= i < idx && app.customDomain[i].hasSsl
      {
        if app.customDomain[idx].hasSsl { hasAtLeastOneSslDomain := true; }
      }
      ok := hasAtLeastOneSslDomain;
    }

    method RegisterAppDefinition(appName: string) returns (r: Result<(), Error>)
      modifies this`apps
      ensures (apps, r) == Exec(cfg, old(apps), Register(appName))
    {
      if !NameAllowed(appName) { return Err(BadName); }
      if appName in apps { return Err(Exists); }
      r := SaveApp(appName, NEW_APP);
    }

    method RenameApp(oldAppName: string, newAppName: string) returns (r: Result<(), Error>)
      modifies this`apps
      ensures (apps, r) == Exec(cfg, old(apps), Rename(oldAppName, newAppName))
    {
      if !NameAllowed(newAppName) { return Err(BadName); }
      if newAppName in apps { return Err(Exists); }
      if oldAppName !in apps { return Err(NotFound); }
      r := SaveApp(newAppName, apps[oldAppName].(hasDefaultSubDomainSsl := false));
      if r.Ok? {
        apps := apps - {oldAppName};
      }
    }

    method DeleteAppDefinition(appName: string) returns (r: Result<(), Error>)
      modifies this`apps
      ensures (apps, r) == Exec(cfg, old(apps), Delete(appName))
    {
      if appName !in apps { return Err(NotFound); }
      apps := apps - {appName};
      r := Ok(());
    }

    method SetSslForDefaultSubDomain(appName: string, isEnabled: bool) returns (r: Result<(), Error>)
      modifies this`apps
      ensures (apps, r) == Exec(cfg, old(apps), Mutate(appName, SetDefaultSsl(isEnabled)))
    {
      if appName !in apps { return Err(NotFound); }
      r := SaveApp(appName, apps[appName].(hasDefaultSubDomainSsl := isEnabled));
    }

    /** Every app in turn, in whatever order the dictionary enumerates them; the first failure ends it. `commands`
        are the mutations that were carried out. From a store that runs of mutators have made, none fails. */
    method EnsureAllAppsSubDomainSslDisabled() returns (r: Result<(), Error>, ghost commands: seq<Command>)
      modifies this`apps
      ensures apps == ExecAll(cfg, old(apps), commands)
      ensures Invariant(cfg, old(apps)) ==> r.Ok? && apps == AllSslOff(old(apps))
    {
      commands := [];
      var names := apps.Keys;
      while names != {}
        invariant names <= apps.Keys && apps.Keys == old(apps).Keys
        invariant apps == ExecAll(cfg, old(apps), commands)
        invariant Invariant(cfg, old(apps)) ==> SomeSslOff(cfg, old(apps), apps, names)
        decreases names
      {
        var appName :| appName in names;
        SslOffSteps(cfg, old(apps), apps, names, appName);
        ghost var steps;
        r, steps := DisableSsl(appName);
        ExecConcat(cfg, old(apps), commands, steps);
        commands := commands + steps;
        if r.Err? { return; }
        names := names - {appName};
      }
      r := Ok(());
    }

    method DisableSsl(appName: string) returns (r: Result<(), Error>, ghost steps: seq<Command>)
      requires appName in apps
      modifies this`apps
      ensures apps == ExecAll(cfg, old(apps), steps)
      ensures (apps, r) == DisabledSsl(cfg, old(apps), appName)
    {
      steps := [Mutate(appName, ForceSslOff)];
      ExecAppend(cfg, apps, [], steps[0]);
      assert [] + steps == steps;
      r := SaveApp(appName, apps[appName].(forceSsl := false));
      if r.Err? { return; }
      ExecAppend(cfg, old(apps), steps, Mutate(appName, SetDefaultSsl(false)));
      steps := steps + [Mutate(appName, SetDefaultSsl(false))];
      r := SetSslForDefaultSubDomain(appName, false);
    }

    method EnableCustomDomainSsl(appName: string, customDomain: string) returns (r: Result<(), Error>)
      modifies this`apps
      ensures (apps, r) == Exec(cfg, old(apps), Mutate(appName, EnableDomainSsl(customDomain)))
    {
      if appName !in apps { return Err(NotFound); }
      var app := apps[appName];
      for idx := 0 to |app.customDomain|
        invariant forall j :: 0 <= j < idx ==> app.customDomain[j].publicDomain != customDomain
      {
        if app.customDomain[idx].publicDomain == customDomain {
          assert DomainIndex(app.customDomain, customDomain) == idx;
          r := SaveApp(appName, app.(customDomain := app.customDomain[idx := app.customDomain[idx].(hasSsl := true)]));
          return;
        }
      }
      r := Err(NoSuchDomain);
    }

    method RemoveCustomDomainForApp(appName: string, customDomainToRemove: string) returns (r: Result<(), Error>)
      modifies this`apps
      ensures (apps, r) == Exec(cfg, old(apps), Mutate(appName, RemoveDomain(customDomainToRemove)))
    {
      if appName !in apps { return Err(NotFound); }
      var app := apps[appName];
      var newDomains, removed := WithoutDomain(app.customDomain, customDomainToRemove);
      if !removed { return Err(NoSuchDomain); }
      if app.redirectDomain != "" {
        if app.redirectDomain == customDomainToRemove { app := app.(redirectDomain := ""); }
        if |newDomains| == 0 { app := app.(redirectDomain := ""); }
      }
      r := SaveApp(appName, app.(customDomain := newDomains));
    }

    static method WithoutDomain(domains: seq<Domain>, d: string) returns (rest: seq<Domain>, removed: bool)
      ensures rest == OtherDomains(domains, d)
      ensures removed <==> DomainIndex(domains, d) < |domains|
    {
      rest, removed := [], false;
      for idx := 0 to |domains|
        invariant rest == OtherDomains(domains[..idx], d)
        invariant removed <==> exists j :: 0 <= j < idx && domains[j].publicDomain == d
      {
        assert domains[..idx + 1][..idx] == domains[..idx];
        if domains[idx].publicDomain == d {
          removed := true;
        } else {
          rest := rest + [domains[idx]];
        }
      }
      assert domains[..|domains|] == domains;
    }

    method AddCustomDomainForApp(appName: string, customDomain: string, domainType: string)
      returns (r: Result<(), Error>)
      modifies this`apps
      ensures (apps, r) == if NormalizeDomainType(domainType).Err? then (old(apps), Err(BadDomainType))
                           else Exec(cfg, old(apps), Mutate(appName, AddDomain(customDomain, domainType)))
    {
      var normalized := NormalizeDomainType(domainType);
      if normalized.Err? { return Err(normalized.error); }
      if appName !in apps { return Err(NotFound); }
      var app := apps[appName];
      for idx := 0 to |app.customDomain|
        invariant forall j :: 0 <= j < idx ==> app.customDomain[j].publicDomain != customDomain
      {
        if app.customDomain[idx].publicDomain == customDomain { return Err(DuplicateDomain); }
      }
      var added := Domain(customDomain, false, Some(normalized.value));
      r := SaveApp(appName, app.(customDomain := app.customDomain + [added]));
    }

    /** The loop also rewrites old time stamps, which are not modelled. */
    method CreateNewVersion(appName: string) returns (r: Result<int, Error>)
      modifies this`apps
      ensures var (next, e) := Exec(cfg, old(apps), Mutate(appName, NewVersion));
              apps == next && (r.Ok? <==> e.Ok?) && (r.Err? ==> r.error == e.error)
      ensures r.Ok? ==> var vs := apps[appName].history.versions; vs != [] && vs[|vs| - 1].version == r.value
    {
      if appName !in apps { return Err(NotFound); }
      var app := apps[appName];
      var versions := VersionHistory.DropFirstElements(app.history.versions, cfg.maxVersionHistory - 1);
      var newVersionIndex: int := |versions|;
      for index := 0 to |versions|
        invariant apps == old(apps) && VersionHistory.LookedAt(versions, index, newVersionIndex)
      {
        assert versions[index..][1..] == versions[index + 1..];
        if newVersionIndex <= versions[index].version {
          newVersionIndex := versions[index].version + 1;
        }
      }
      assert newVersionIndex == VersionHistory.NextNumber(|versions|, versions);
      var next := versions + [VersionHistory.Version(newVersionIndex, "", "")];
      assert next == VersionHistory.CreateVersion(app.history.versions, cfg.maxVersionHistory);
      var changed := app.(history := app.history.(versions := next));
      assert Mutated(cfg, app, NewVersion) == Ok(changed);
      var saved := SaveApp(appName, changed);
      assert saved.Ok? ==> apps[appName].history.versions == next;
      r := if saved.Ok? then Ok(newVersionIndex) else Err(saved.error);
    }

    method SetDeployedVersionAndImage(appName: string, deployedVersion: int, imageName: string, gitHash: string)
      returns (r: Result<(), Error>)
      modifies this`apps
      ensures (apps, r) == if imageName == "" then (old(apps), Err(EmptyImage))
                           else Exec(cfg, old(apps), Mutate(appName, SetImage(deployedVersion, imageName, gitHash)))
    {
      if imageName == "" { return Err(EmptyImage); }
      if appName !in apps { return Err(NotFound); }
      var app := apps[appName];
      var versions := app.history.versions;
      for i := 0 to |versions|
        invariant forall j :: 0 <= j < i ==> versions[j].version != deployedVersion
      {
        if versions[i].version == deployedVersion {
          assert VersionHistory.IndexOf(versions, deployedVersion) == i;
          var next := versions[i := VersionHistory.Version(deployedVersion, imageName, gitHash)];
          r := SaveApp(appName, app.(history := VersionHistory.History(next, deployedVersion)));
          return;
        }
      }
      r := Err(NoSuchVersion);
    }

    method RollbackAgentDeployment(appName: string, version: int) returns (r: Result<(), Error>)
      modifies this`apps
      ensures (apps, r) == Exec(cfg, old(apps), Mutate(appName, Rollback(version)))
    {
      if appName !in apps { return Err(NotFound); }
      var app := apps[appName];
      if !VersionHistory.HasImage(app.history.versions, version) { return Err(NoSuchVersion); }
      r := SaveApp(appName, app.(history := app.history.(deployedVersion := version)));
    }

    /** Lists that the caller leaves out are left alone. */
    method UpdateAppDefinitionInDb(appName: string, forceSsl: bool, redirectDomain: string, instances: Number,
                                   ports: Option<seq<Port>>, envVars: Option<seq<EnvVar>>, volumes: Option<seq<Volume>>)
      returns (r: Result<(), Error>)
      modifies this`apps
      ensures var m := Update(forceSsl, redirectDomain, instances, ports, envVars, volumes);
              (apps, r) == Exec(cfg, old(apps), Mutate(appName, m))
    {
      if appName !in apps { return Err(NotFound); }
      var app := apps[appName];
      if instances.Num? && instances.n >= 0.0 { app := app.(instanceCount := instances); }
      app := app.(forceSsl := forceSsl, redirectDomain := redirectDomain);
      if ports.Some? {
        var kept := KeepPorts(ports.value);
        app := app.(ports := kept);
      }
      if envVars.Some? {
        var kept := KeepEnvVars(envVars.value);
        app := app.(envVars := kept);
      }
      if volumes.Some? {
        var kept := KeepVolumes(volumes.value);
        app := app.(volumes := kept);
      }
      assert Mutated(cfg, old(apps)[appName], Update(forceSsl, redirectDomain, instances, ports, envVars, volumes))
          == Ok(app);
      r := SaveApp(appName, app);
    }

    static method KeepPorts(ports: seq<Port>) returns (kept: seq<Port>)
      ensures kept == KeptPorts(ports)
    {
      kept := [];
      for i := 0 to |ports|
        invariant kept == KeptPorts(ports[..i])
      {
        assert ports[..i + 1][..i] == ports[..i];
        if !EmptyPort(ports[i]) {
          kept := kept + [ports[i]];
        }
      }
      assert ports[..|ports|] == ports;
    }

    static method KeepEnvVars(envVars: seq<EnvVar>) returns (kept: seq<EnvVar>)
      ensures kept == KeptEnvVars(envVars)
    {
      kept := [];
      for i := 0 to |envVars|
        invariant kept == KeptEnvVars(envVars[..i])
      {
        assert envVars[..i + 1][..i] == envVars[..i];
        if TrimKey(envVars[i]) != EnvVar("", "") {
          kept := kept + [TrimKey(envVars[i])];
        }
      }
      assert envVars[..|envVars|] == envVars;
    }

    static method KeepVolumes(volumes: seq<Volume>) returns (kept: seq<Volume>)
      ensures kept == KeptVolumes(volumes)
    {
      kept := [];
      for i := 0 to |volumes|
        invariant kept == KeptVolumes(volumes[..i])
      {
        assert volumes[..i + 1][..i] == volumes[..i];
        if TrimVolume(volumes[i]) != Volume("", "", "") {
          kept := kept + [TrimVolume(volumes[i])];
        }
      }
      assert volumes[..|volumes|] == volumes;
    }
  }

  lemma {:induction false} FirstErrorStays(vs: seq<Volume>, n: nat, validPath: string -> bool)
    requires n <= |vs| && VolumesError(vs[..n], validPath).Some?
    ensures VolumesError(vs, validPath) == VolumesError(vs[..n], validPath)
  {
    if n == |vs| {
      assert vs[..n] == vs;
    } else {
      assert vs[..|vs| - 1][..n] == vs[..n];
      FirstErrorStays(vs[..|vs| - 1], n, validPath);
    }
  }

  lemma {:induction false} FirstBadTypeStays(ds: seq<Domain>, n: nat)
    requires n <= |ds| && NormalizeDomains(ds[..n]).Err?
    ensures NormalizeDomains(ds) == NormalizeDomains(ds[..n])
  {
    if n == |ds| {
      assert ds[..n] == ds;
    } else {
      assert ds[..|ds| - 1][..n] == ds[..n];
      FirstBadTypeStays(ds[..|ds| - 1], n);
    }
  }

  // ---------------------------------------------------------------------------------------------
  // What saving guarantees
  // ---------------------------------------------------------------------------------------------

  predicate ValidDomainType(t: Option<string>) {
    t.None? || t.value in DOMAIN_TYPES
  }

  ghost predicate VolumeIsSound(v: Volume) {
    && v.containerPath != ""
    && (v.volumeName != "" <==> v.hostPath == "")
    && (v.volumeName != "" ==> VolumeNameAllowed(v.volumeName))
  }

  /** An app that forces SSL has an SSL domain; ports are in range, environment keys are nonempty, and each volume
      has exactly one of a name and a host path. */
  ghost predicate Sound(a: App) {
    && (a.forceSsl ==> HasSslDomain(a))
    && (forall i :: 0 <= i < |a.customDomain| ==> ValidDomainType(a.customDomain[i].domainType))
    && KeysPresent(a.envVars)
    && PortsValid(a.ports)
    && (forall i :: 0 <= i < |a.volumes| ==> VolumeIsSound(a.volumes[i]))
  }

  ghost predicate DistinctDomains(ds: seq<Domain>) {
    forall i, j :: 0 <= i < j < |ds| ==> ds[i].publicDomain != ds[j].publicDomain
  }

  lemma NormalizedDomain(d: Domain)
    ensures var r := NormalizeDomain(d);
            r.Ok? ==>
              && ValidDomainType(r.value.domainType)
              && r.value.publicDomain == d.publicDomain && r.value.hasSsl == d.hasSsl
  {
    assert "custom" in DOMAIN_TYPES by { assert DOMAIN_TYPES[3] == "custom"; }
  }

  lemma {:induction false} NormalizedDomains(ds: seq<Domain>)
    ensures var r := NormalizeDomains(ds);
            r.Ok? ==> |r.value| == |ds| && forall i :: 0 <= i < |ds| ==>
              && ValidDomainType(r.value[i].domainType)
              && r.value[i].publicDomain == ds[i].publicDomain && r.value[i].hasSsl == ds[i].hasSsl
  {
    if ds != [] {
      NormalizedDomains(ds[..|ds| - 1]);
      NormalizedDomain(ds[|ds| - 1]);
    }
  }

  lemma {:induction false} NoVolumeError(vs: seq<Volume>, validPath: string -> bool)
    ensures VolumesError(vs, validPath).None? <==> forall i :: 0 <= i < |vs| ==> VolumeError(vs[i], validPath).None?
  {
    if vs != [] {
      NoVolumeError(vs[..|vs| - 1], validPath);
      assert forall i :: 0 <= i < |vs| - 1 ==> vs[i] == vs[..|vs| - 1][i];
    }
  }

  /** Whatever is passed to it, saving stores only sound apps, and it changes nothing about them but spelling their
      domain types in the standard way and restoring the stored legacy flag. */
  lemma SavedIsSound(cfg: Config, existing: Option<App>, name: string, app: App)
    ensures var r := Save(cfg, existing, name, app);
            r.Ok? ==>
              && name != "" && Sound(r.value)
              && r.value == app.(customDomain := r.value.customDomain, isLegacyAppName := r.value.isLegacyAppName)
              && r.value.isLegacyAppName
                 == (if existing.Some? then existing.value.isLegacyAppName else app.isLegacyAppName)
              && (DistinctDomains(app.customDomain) ==> DistinctDomains(r.value.customDomain))
  {
    NormalizedDomains(app.customDomain);
    NoVolumeError(app.volumes, cfg.validPath);
  }

  ghost predicate PathsValid(vs: seq<Volume>, validPath: string -> bool) {
    forall i :: 0 <= i < |vs| ==> validPath(vs[i].containerPath) && (vs[i].hostPath != "" ==> validPath(vs[i].hostPath))
  }

  /** Saving refuses nothing else: it succeeds exactly for a named app whose domain types can be normalized, whose
      paths the path library accepts, and which is sound once they are. */
  lemma SavedExactly(cfg: Config, existing: Option<App>, name: string, app: App)
    ensures Save(cfg, existing, name, app).Ok? <==>
              && name != "" && NormalizeDomains(app.customDomain).Ok?
              && Sound(app.(customDomain := NormalizeDomains(app.customDomain).value))
              && PathsValid(app.volumes, cfg.validPath)
  {
    NormalizedDomains(app.customDomain);
    NoVolumeError(app.volumes, cfg.validPath);
    forall i | 0 <= i < |app.volumes|
      ensures VolumeError(app.volumes[i], cfg.validPath).None? <==>
                VolumeIsSound(app.volumes[i]) && cfg.validPath(app.volumes[i].containerPath)
                && (app.volumes[i].hostPath != "" ==> cfg.validPath(app.volumes[i].hostPath))
    {
    }
    var ds := NormalizeDomains(app.customDomain);
    if ds.Ok? {
      assert HasSslDomain(app.(customDomain := ds.value))
        <==> HasSslDomain(app.(customDomain := ds.value, isLegacyAppName := None));
    }
  }

  /** Attaching a domain and removing it again gives the app's domains back; attaching it a second time is refused,
      and so is removing it a second time. */
  lemma AddThenRemoveDomain(cfg: Config, a: App, d: string, t: string)
    requires DistinctDomains(a.customDomain)
    ensures var added := Mutated(cfg, a, AddDomain(d, t));
            added.Ok? ==>
              && Mutated(cfg, added.value, AddDomain(d, t)) == Err(DuplicateDomain)
              && var removed := Mutated(cfg, added.value, RemoveDomain(d));
                 && removed.Ok? && removed.value.customDomain == a.customDomain
                 && Mutated(cfg, removed.value, RemoveDomain(d)) == Err(NoSuchDomain)
  {
    var added := Mutated(cfg, a, AddDomain(d, t));
    if added.Ok? {
      RemoveAdded(a.customDomain, added.value.customDomain[|a.customDomain|], d);
    }
  }

  lemma RemoveAdded(ds: seq<Domain>, x: Domain, d: string)
    requires DomainIndex(ds, d) == |ds| && x.publicDomain == d
    ensures DomainIndex(ds + [x], d) == |ds| && OtherDomains(ds + [x], d) == ds
  {
    var more := ds + [x];
    assert more[..|ds|] == ds && more[|ds|] == x;
    NothingToRemove(ds, d);
  }

  lemma {:induction false} NothingToRemove(ds: seq<Domain>, d: string)
    requires forall i :: 0 <= i < |ds| ==> ds[i].publicDomain != d
    ensures OtherDomains(ds, d) == ds
  {
    if ds != [] {
      NothingToRemove(ds[..|ds| - 1], d);
      assert ds == ds[..|ds| - 1] + [ds[|ds| - 1]];
    }
  }

  // ---------------------------------------------------------------------------------------------
  // Runs
  // ---------------------------------------------------------------------------------------------

  ghost predicate AppInvariant(cfg: Config, name: string, a: App) {
    && name != "" && Sound(a) && PathsValid(a.volumes, cfg.validPath) && DistinctDomains(a.customDomain)
    && (2 <= cfg.maxVersionHistory ==> VersionHistory.Bounded(a.history.versions, cfg.maxVersionHistory))
  }

  ghost predicate Invariant(cfg: Config, apps: Apps) {
    forall name :: name in apps ==> AppInvariant(cfg, name, apps[name])
  }

  lemma {:induction false} OtherDomainsMeaning(ds: seq<Domain>, d: string)
    requires DistinctDomains(ds)
    ensures DistinctDomains(OtherDomains(ds, d))
    ensures forall x :: x in OtherDomains(ds, d) <==> x in ds && x.publicDomain != d
  {
    if ds != [] {
      var init, last := ds[..|ds| - 1], ds[|ds| - 1];
      assert ds == init + [last];
      OtherDomainsMeaning(init, d);
      var rest := OtherDomains(init, d);
      forall i | 0 <= i < |rest| ensures rest[i].publicDomain != last.publicDomain {
        assert rest[i] in init;
      }
    }
  }

  lemma MutationKeepsLists(cfg: Config, a: App, m: Mutation)
    requires DistinctDomains(a.customDomain)
    requires 2 <= cfg.maxVersionHistory ==> VersionHistory.Bounded(a.history.versions, cfg.maxVersionHistory)
    ensures var r := Mutated(cfg, a, m);
            r.Ok? ==>
              && DistinctDomains(r.value.customDomain)
              && (2 <= cfg.maxVersionHistory ==>
                    VersionHistory.Bounded(r.value.history.versions, cfg.maxVersionHistory))
              && r.value.isLegacyAppName == a.isLegacyAppName
  {
    match m
    case RemoveDomain(d) => OtherDomainsMeaning(a.customDomain, d);
    case NewVersion =>
      if 2 <= cfg.maxVersionHistory {
        VersionHistory.ApplyKeepsBounded(a.history, VersionHistory.Create, cfg.maxVersionHistory);
      }
    case SetImage(v, image, gitHash) =>
      if 2 <= cfg.maxVersionHistory {
        VersionHistory.ApplyKeepsBounded(a.history, VersionHistory.Deploy(v, image, gitHash), cfg.maxVersionHistory);
      }
    case _ =>
  }

  lemma SaveInKeepsInvariant(cfg: Config, apps: Apps, name: string, app: App)
    requires Invariant(cfg, apps) && DistinctDomains(app.customDomain)
    requires 2 <= cfg.maxVersionHistory ==> VersionHistory.Bounded(app.history.versions, cfg.maxVersionHistory)
    ensures Invariant(cfg, SaveIn(cfg, apps, name, app).0)
  {
    SavedIsSound(cfg, Find(apps, name), name, app);
    SavedExactly(cfg, Find(apps, name), name, app);
  }

  lemma ExecKeepsInvariant(cfg: Config, apps: Apps, c: Command)
    requires Invariant(cfg, apps)
    ensures Invariant(cfg, Exec(cfg, apps, c).0)
  {
    match c
    case Register(name) => SaveInKeepsInvariant(cfg, apps, name, NEW_APP);
    case Mutate(name, m) =>
      if name in apps {
        MutationKeepsLists(cfg, apps[name], m);
        var a := Mutated(cfg, apps[name], m);
        if a.Ok? { SaveInKeepsInvariant(cfg, apps, name, a.value); }
      }
    case Rename(from, to) =>
      if from in apps { SaveInKeepsInvariant(cfg, apps, to, apps[from].(hasDefaultSubDomainSsl := false)); }
    case Delete(name) =>
  }

  /** A stored app's domain types are spelled in the standard way already. */
  lemma {:induction false} NormalizedStay(ds: seq<Domain>)
    requires forall i :: 0 <= i < |ds| ==> ValidDomainType(ds[i].domainType)
    ensures NormalizeDomains(ds) == Ok(ds)
  {
    if ds != [] {
      var init, last := ds[..|ds| - 1], ds[|ds| - 1];
      NormalizedStay(init);
      assert ds == init + [last];
      if last.domainType.Some? { StandardSpelling(last.domainType.value); }
    }
  }

  lemma StandardSpelling(t: string)
    requires t in DOMAIN_TYPES
    ensures NormalizeDomainType(t) == Ok(t)
  {
    if t == DOMAIN_TYPES[0] {
      AlreadyLower("internal");
    } else if t == DOMAIN_TYPES[1] {
      AlreadyLower("external");
    } else if t == DOMAIN_TYPES[2] {
      AlreadyLower("test");
    } else {
      AlreadyLower("custom");
    }
  }

  lemma AlreadyLower(t: string)
    requires t != "" && forall i :: 0 <= i < |t| ==> 'a' <= t[i] <= 'z'
    ensures ToLower(Trim(t)) == t
  {
    TrimIsTrimmed(t);
    assert ToLower(t) == t;
  }

  /** Saving a stored app again, with other flags, is refused only for want of an SSL domain. */
  lemma ResavedExactly(cfg: Config, existing: Option<App>, name: string, a: App)
    requires name != "" && PathsValid(a.volumes, cfg.validPath) && Sound(a.(forceSsl := false))
    ensures Save(cfg, existing, name, a)
         == if a.forceSsl && !HasSslDomain(a) then Err(NoSslDomain)
            else Ok(a.(isLegacyAppName := if existing.Some? then existing.value.isLegacyAppName else a.isLegacyAppName))
  {
    NormalizedStay(a.customDomain);
    SavedExactly(cfg, existing, name, a.(forceSsl := false));
    SavedIsSound(cfg, existing, name, a.(forceSsl := false));
    assert a.(customDomain := a.customDomain) == a;
  }

  function SslOff(a: App): App {
    a.(forceSsl := false, hasDefaultSubDomainSsl := false)
  }

  function AllSslOff(apps: Apps): Apps {
    map name | name in apps :: SslOff(apps[name])
  }

  /** All but the apps still to come have SSL switched off, and nothing else has changed. */
  ghost predicate SomeSslOff(cfg: Config, before: Apps, apps: Apps, names: set<string>) {
    && Invariant(cfg, apps) && apps.Keys == before.Keys
    && forall name :: name in apps ==> apps[name] == if name in names then before[name] else SslOff(before[name])
  }

  /** Both steps succeed for an app that runs of mutators have stored. */
  lemma SslOffSteps(cfg: Config, before: Apps, apps: Apps, names: set<string>, name: string)
    requires name in names && name in apps
    ensures Invariant(cfg, before) && SomeSslOff(cfg, before, apps, names) ==>
              var (next, r) := DisabledSsl(cfg, apps, name);
              r == Ok(()) && SomeSslOff(cfg, before, next, names - {name})
  {
    if Invariant(cfg, before) && SomeSslOff(cfg, before, apps, names) {
      DisabledSslSucceeds(cfg, apps, name);
    }
  }

  /** What switching off one app's SSL does: two mutations, the second only after the first has succeeded. */
  function DisabledSsl(cfg: Config, apps: Apps, name: string): (Apps, Result<(), Error>) {
    var (half, r) := Exec(cfg, apps, Mutate(name, ForceSslOff));
    if r.Err? then (half, r) else Exec(cfg, half, Mutate(name, SetDefaultSsl(false)))
  }

  lemma DisabledSslSucceeds(cfg: Config, apps: Apps, name: string)
    requires Invariant(cfg, apps) && name in apps
    ensures DisabledSsl(cfg, apps, name) == (apps[name := SslOff(apps[name])], Ok(()))
    ensures Invariant(cfg, DisabledSsl(cfg, apps, name).0)
  {
    var a := apps[name];
    assert AppInvariant(cfg, name, a);
    var b := a.(forceSsl := false);
    var half := apps[name := b];
    ResavedExactly(cfg, Some(a), name, b);
    ResavedExactly(cfg, Some(b), name, SslOff(a));
    ExecKeepsInvariant(cfg, apps, Mutate(name, ForceSslOff));
    ExecKeepsInvariant(cfg, half, Mutate(name, SetDefaultSsl(false)));
    assert half[name := SslOff(a)] == apps[name := SslOff(a)];
  }

  lemma {:induction false} ExecConcat(cfg: Config, apps: Apps, a: seq<Command>, b: seq<Command>)
    ensures ExecAll(cfg, apps, a + b) == ExecAll(cfg, ExecAll(cfg, apps, a), b)
    decreases |a|
  {
    if a == [] {
      assert a + b == b;
    } else {
      assert (a + b)[0] == a[0] && (a + b)[1..] == a[1..] + b;
      ExecConcat(cfg, Exec(cfg, apps, a[0]).0, a[1..], b);
    }
  }

  lemma ExecAppend(cfg: Config, apps: Apps, cs: seq<Command>, c: Command)
    ensures ExecAll(cfg, apps, cs + [c]) == Exec(cfg, ExecAll(cfg, apps, cs), c).0
  {
    ExecConcat(cfg, apps, cs, [c]);
    assert [c][1..] == [];
  }

  function ExecAll(cfg: Config, apps: Apps, cs: seq<Command>): Apps
    decreases |cs|
  {
    if cs == [] then apps else ExecAll(cfg, Exec(cfg, apps, cs[0]).0, cs[1..])
  }

  lemma {:induction false} RunKeepsInvariant(cfg: Config, apps: Apps, cs: seq<Command>)
    requires Invariant(cfg, apps)
    ensures Invariant(cfg, ExecAll(cfg, apps, cs))
    decreases |cs|
  {
    if cs != [] {
      ExecKeepsInvariant(cfg, apps, cs[0]);
      RunKeepsInvariant(cfg, Exec(cfg, apps, cs[0]).0, cs[1..]);
    }
  }

  /** Every app that any run of commands leaves in a store that began empty is sound, has pairwise distinct custom
      domains, and a bounded, strictly increasing version list. */
  lemma EveryStoredAppIsSound(cfg: Config, cs: seq<Command>, name: string)
    requires name in ExecAll(cfg, map[], cs)
    ensures AppInvariant(cfg, name, ExecAll(cfg, map[], cs)[name])
  {
    RunKeepsInvariant(cfg, map[], cs);
  }

  // ---------------------------------------------------------------------------------------------
  // Port numbers
  // ---------------------------------------------------------------------------------------------

  predicate Whole(n: Number) {
    n.Num? && n.n == n.n.Floor as real
  }

  predicate WholePorts(ps: seq<Port>) {
    forall i :: 0 <= i < |ps| ==> Whole(ps[i].containerPort) && Whole(ps[i].hostPort)
  }

  function Integer(k: int): Number {
    Num(k as real)
  }

  /** One of the numbers 1 to 65534. */
  ghost predicate IsPortNumber(n: Number) {
    exists k :: 1 <= k <= 65534 && n == Integer(k)
  }

  ghost predicate PortNumbers(ps: seq<Port>) {
    forall i :: 0 <= i < |ps| ==> IsPortNumber(ps[i].containerPort) && IsPortNumber(ps[i].hostPort)
  }

  ghost predicate AllPortNumbers(apps: Apps) {
    forall name :: name in apps ==> PortNumbers(apps[name].ports)
  }

  /** The check that saving makes lets exactly the whole ones among its ports be port numbers. */
  lemma RangeAndWhole(n: Number)
    requires PortInRange(n)
    ensures IsPortNumber(n) <==> Whole(n)
  {
    if Whole(n) {
      assert n == Integer(n.n.Floor);
    }
    if IsPortNumber(n) {
      var k :| 1 <= k <= 65534 && n == Integer(k);
      assert (k as real).Floor == k;
    }
  }

  lemma ValidAndWhole(ps: seq<Port>)
    requires PortsValid(ps)
    ensures PortNumbers(ps) <==> WholePorts(ps)
  {
    forall i | 0 <= i < |ps|
      ensures IsPortNumber(ps[i].containerPort) <==> Whole(ps[i].containerPort)
      ensures IsPortNumber(ps[i].hostPort) <==> Whole(ps[i].hostPort)
    {
      RangeAndWhole(ps[i].containerPort);
      RangeAndWhole(ps[i].hostPort);
    }
  }

  /** Saving does accept a port of one half: from every store that runs of mutators have made, updating an app
      with such a port succeeds and stores it. */
  lemma HalfPortIsStored(cfg: Config, apps: Apps, name: string)
    requires Invariant(cfg, apps) && name in apps
    ensures var half := [Port(Num(0.5), Num(0.5))];
            var (next, r) := Exec(cfg, apps, Mutate(name, Update(false, "", NaN, Some(half), None, None)));
            r.Ok? && name in next && next[name].ports == half && !AllPortNumbers(next)
  {
    var half := [Port(Num(0.5), Num(0.5))];
    var a := apps[name];
    assert AppInvariant(cfg, name, a);
    HalfPort(half);
    var b := a.(forceSsl := false, redirectDomain := "", ports := half);
    assert Mutated(cfg, a, Update(false, "", NaN, Some(half), None, None)) == Ok(b);
    ResavedExactly(cfg, Some(a), name, b);
  }

  lemma HalfPort(half: seq<Port>)
    requires half == [Port(Num(0.5), Num(0.5))]
    ensures KeptPorts(half) == half && PortsValid(half) && !PortNumbers(half)
  {
    assert half[..0] == [];
    ValidAndWhole(half);
    assert (0.5).Floor == 0 && !WholePorts(half);
  }

  /** An update whose ports, empty entries aside, are not all whole numbers. */
  predicate FractionalUpdate(c: Command) {
    c.Mutate? && c.mutation.Update? && c.mutation.ports.Some? && !WholePorts(KeptPorts(c.mutation.ports.value))
  }

  lemma PortsAfter(cfg: Config, a: App, m: Mutation)
    ensures var r := Mutated(cfg, a, m);
            r.Ok? ==> r.value.ports == if m.Update? && m.ports.Some? then KeptPorts(m.ports.value) else a.ports
  {
  }

  lemma SavedPorts(cfg: Config, apps: Apps, name: string, app: App)
    ensures var (next, r) := SaveIn(cfg, apps, name, app);
            if r.Err? then next == apps
            else next == apps[name := next[name]] && next[name].ports == app.ports && PortsValid(app.ports)
  {
    SavedIsSound(cfg, Find(apps, name), name, app);
  }

  /** Whether an accepted command leaves only port numbers from 1 to 65534 can be told from its own ports: it does
      unless it is an update with a fraction among them. */
  lemma ExecKeepsPortNumbers(cfg: Config, apps: Apps, c: Command)
    requires AllPortNumbers(apps)
    ensures AllPortNumbers(Exec(cfg, apps, c).0) <==> !(FractionalUpdate(c) && Exec(cfg, apps, c).1.Ok?)
  {
    match c
    case Register(name) => SavedPorts(cfg, apps, name, NEW_APP);
    case Mutate(name, m) =>
      if name in apps && Mutated(cfg, apps[name], m).Ok? {
        var a := Mutated(cfg, apps[name], m).value;
        PortsAfter(cfg, apps[name], m);
        SavedPorts(cfg, apps, name, a);
        if SaveIn(cfg, apps, name, a).1.Ok? { ValidAndWhole(a.ports); }
      }
    case Rename(from, to) =>
      if from in apps { SavedPorts(cfg, apps, to, apps[from].(hasDefaultSubDomainSsl := false)); }
    case Delete(name) =>
  }

  ghost predicate AlwaysPortNumbers(cfg: Config, apps: Apps, cs: seq<Command>)
    decreases |cs|
  {
    AllPortNumbers(apps) && (cs == [] || AlwaysPortNumbers(cfg, Exec(cfg, apps, cs[0]).0, cs[1..]))
  }

  ghost predicate NoFractionAccepted(cfg: Config, apps: Apps, cs: seq<Command>)
    decreases |cs|
  {
    cs == [] ||
    (&& !(FractionalUpdate(cs[0]) && Exec(cfg, apps, cs[0]).1.Ok?)
     && NoFractionAccepted(cfg, Exec(cfg, apps, cs[0]).0, cs[1..]))
  }

  /** Over every run from an empty store, all ports stay in 1 to 65534 if and only if no update with a fractional
      port is among the accepted ones. */
  lemma {:induction false} PortNumbersOverRuns(cfg: Config, apps: Apps, cs: seq<Command>)
    requires AllPortNumbers(apps)
    ensures AlwaysPortNumbers(cfg, apps, cs) <==> NoFractionAccepted(cfg, apps, cs)
    decreases |cs|
  {
    if cs != [] {
      ExecKeepsPortNumbers(cfg, apps, cs[0]);
      if AllPortNumbers(Exec(cfg, apps, cs[0]).0) {
        PortNumbersOverRuns(cfg, Exec(cfg, apps, cs[0]).0, cs[1..]);
      }
    }
  }

  /** In particular, of any stored port: it is one of 1 to 65534 exactly when it is whole. */
  lemma StoredPortsExactly(cfg: Config, cs: seq<Command>, name: string, i: nat)
    requires name in ExecAll(cfg, map[], cs) && i < |ExecAll(cfg, map[], cs)[name].ports|
    ensures var p := ExecAll(cfg, map[], cs)[name].ports[i];
            && (IsPortNumber(p.containerPort) <==> Whole(p.containerPort))
            && (IsPortNumber(p.hostPort) <==> Whole(p.hostPort))
  {
    EveryStoredAppIsSound(cfg, cs, name);
    var p := ExecAll(cfg, map[], cs)[name].ports[i];
    RangeAndWhole(p.containerPort);
    RangeAndWhole(p.hostPort);
  }

  // ---------------------------------------------------------------------------------------------
  // The legacy flag
  // ---------------------------------------------------------------------------------------------

  /** Where a command moves an app: a rename that succeeds moves one, a delete removes one. */
  function MovedTo(cfg: Config, apps: Apps, c: Command, name: string): Option<string> {
    if Exec(cfg, apps, c).1.Err? then Some(name)
    else if c.Rename? && c.from == name then Some(c.to)
    else if c.Delete? && c.name == name then None
    else Some(name)
  }

  function MovedToAll(cfg: Config, apps: Apps, cs: seq<Command>, name: string): Option<string>
    decreases |cs|
  {
    if cs == [] then Some(name)
    else
      var next := MovedTo(cfg, apps, cs[0], name);
      if next.None? then None else MovedToAll(cfg, Exec(cfg, apps, cs[0]).0, cs[1..], next.value)
  }

  lemma FlagFollows(cfg: Config, apps: Apps, c: Command, name: string)
    requires name in apps
    ensures var next := MovedTo(cfg, apps, c, name);
            var apps' := Exec(cfg, apps, c).0;
            if next.None? then name !in apps'
            else next.value in apps' && apps'[next.value].isLegacyAppName == apps[name].isLegacyAppName
  {
    match c
    case Mutate(n, m) =>
      if n in apps {
        var a := Mutated(cfg, apps[n], m);
        if a.Ok? { SavedIsSound(cfg, Some(apps[n]), n, a.value); }
      }
    case Rename(from, to) =>
      if from in apps { SavedIsSound(cfg, None, to, apps[from].(hasDefaultSubDomainSsl := false)); }
    case _ =>
  }

  /** Through any run, an app keeps its legacy flag under whatever name renames have given it, until it is deleted:
      so its service and volumes keep the naming scheme they were created with. */
  lemma {:induction false} FlagFollowsRenames(cfg: Config, apps: Apps, cs: seq<Command>, name: string)
    requires name in apps
    ensures var last := MovedToAll(cfg, apps, cs, name);
            var apps' := ExecAll(cfg, apps, cs);
            last.Some? ==> last.value in apps' && apps'[last.value].isLegacyAppName == apps[name].isLegacyAppName
    decreases |cs|
  {
    if cs != [] {
      FlagFollows(cfg, apps, cs[0], name);
      var next := MovedTo(cfg, apps, cs[0], name);
      if next.Some? {
        FlagFollowsRenames(cfg, Exec(cfg, apps, cs[0]).0, cs[1..], next.value);
      }
    }
  }

  /** Renaming drops SSL on the default sub-domain, so an app that forces SSL can be renamed exactly when some
      custom domain of its own has SSL. */
  lemma ForcedSslRename(cfg: Config, apps: Apps, from: string, to: string)
    requires Invariant(cfg, apps) && from in apps && to !in apps && NameAllowed(to) && apps[from].forceSsl
    ensures Exec(cfg, apps, Rename(from, to)).1.Ok?
       <==> exists i :: 0 <= i < |apps[from].customDomain| && apps[from].customDomain[i].hasSsl
  {
    assert AppInvariant(cfg, from, apps[from]);
    ResavedExactly(cfg, None, to, apps[from].(hasDefaultSubDomainSsl := false));
  }
}
