/** What each accepted change of src/datastore/AppsDataStore.ts leaves stored, field by field. */
module AppUpdates {
  import opened Wrappers
  import opened Text
  import opened Names
  import opened AppStore
  import VersionHistory

  // ---------------------------------------------------------------------------------------------
  // Other apps, and apps that are stored again
  // ---------------------------------------------------------------------------------------------

  /** The apps a command names. */
  function NamedBy(c: Command): set<string> {
    match c
    case Register(name) => {name}
    case Mutate(name, _) => {name}
    case Rename(from, to) => {from, to}
    case Delete(name) => {name}
  }

  /** A command leaves every app that it does not name as it was, and a refused one leaves all of them. */
  lemma OthersUntouched(cfg: Config, apps: Apps, c: Command, other: string)
    ensures var (next, r) := Exec(cfg, apps, c);
            && (r.Err? ==> next == apps)
            && (other !in NamedBy(c) ==>
                  (other in next <==> other in apps) && (other in apps ==> next[other] == apps[other]))
  {
  }

  ghost predicate TypesAreStandard(ds: seq<Domain>) {
    forall i :: 0 <= i < |ds| ==> ValidDomainType(ds[i].domainType)
  }

  lemma {:induction false} OthersAreStandard(ds: seq<Domain>, d: string)
    requires TypesAreStandard(ds)
    ensures TypesAreStandard(OtherDomains(ds, d))
  {
    if ds != [] {
      OthersAreStandard(ds[..|ds| - 1], d);
    }
  }

  lemma MutatedIsStandard(cfg: Config, a: App, m: Mutation)
    requires TypesAreStandard(a.customDomain)
    ensures Mutated(cfg, a, m).Ok? ==> TypesAreStandard(Mutated(cfg, a, m).value.customDomain)
    ensures Mutated(cfg, a, m).Ok? ==> Mutated(cfg, a, m).value.isLegacyAppName == a.isLegacyAppName
  {
    match m
    case RemoveDomain(d) => OthersAreStandard(a.customDomain, d);
    case AddDomain(d, t) => NormalizedDomain(Domain(d, false, Some(t)));
    case _ =>
  }

  /** What an accepted mutation stores is the mutated app itself: saving it changes nothing more. */
  lemma MutationIsStored(cfg: Config, apps: Apps, name: string, m: Mutation)
    requires Invariant(cfg, apps) && name in apps
    ensures var (next, r) := Exec(cfg, apps, Mutate(name, m));
            r.Ok? ==> Mutated(cfg, apps[name], m).Ok? && next == apps[name := Mutated(cfg, apps[name], m).value]
  {
    assert AppInvariant(cfg, name, apps[name]);
    MutatedIsStandard(cfg, apps[name], m);
    if Mutated(cfg, apps[name], m).Ok? {
      SavedAsIs(cfg, apps, name, Mutated(cfg, apps[name], m).value);
    }
  }

  lemma SavedAsIs(cfg: Config, apps: Apps, name: string, b: App)
    requires name in apps && TypesAreStandard(b.customDomain) && b.isLegacyAppName == apps[name].isLegacyAppName
    ensures SaveIn(cfg, apps, name, b).1.Ok? ==> SaveIn(cfg, apps, name, b).0 == apps[name := b]
  {
    NormalizedStay(b.customDomain);
    var r := Save(cfg, Find(apps, name), name, b);
    if r.Ok? {
      assert r.value.customDomain == b.customDomain && r.value.isLegacyAppName == b.isLegacyAppName;
      SavedIsSound(cfg, Find(apps, name), name, b);
    }
  }

  // ---------------------------------------------------------------------------------------------
  // Updates
  // ---------------------------------------------------------------------------------------------

  /** `idx` picks, in order, exactly the places that are wanted. */
  ghost predicate Picks(idx: seq<nat>, wanted: seq<bool>) {
    && (forall i, j :: 0 <= i < j < |idx| ==> idx[i] < idx[j])
    && (forall i :: 0 <= i < |idx| ==> idx[i] < |wanted| && wanted[idx[i]])
    && (forall j :: 0 <= j < |wanted| && wanted[j] ==> j in idx)
  }

  lemma PicksNext(idx: seq<nat>, wanted: seq<bool>, last: bool)
    requires Picks(idx, wanted)
    ensures Picks(if last then idx + [|wanted|] else idx, wanted + [last])
  {
    var more := if last then idx + [|wanted|] else idx;
    forall j | 0 <= j < |wanted| + 1 && (wanted + [last])[j] ensures j in more {
      if j < |wanted| {
        assert j in idx;
      } else {
        assert more[|idx|] == j;
      }
    }
  }

  /** The submitted variables that are not empty. */
  ghost function WantedEnv(es: seq<EnvVar>): seq<bool> {
    seq(|es|, i requires 0 <= i < |es| => Trim(es[i].key) != "" || es[i].value != "")
  }

  /** Each stored variable is the submitted one it was picked from, with its key trimmed. */
  ghost predicate EnvFrom(stored: seq<EnvVar>, es: seq<EnvVar>, idx: seq<nat>) {
    && |stored| == |idx|
    && forall i :: 0 <= i < |idx| ==>
         idx[i] < |es| && stored[i].key == Trim(es[idx[i]].key) && stored[i].value == es[idx[i]].value
  }

  lemma {:induction false} EnvKept(es: seq<EnvVar>) returns (idx: seq<nat>)
    ensures Picks(idx, WantedEnv(es)) && EnvFrom(KeptEnvVars(es), es, idx)
  {
    idx := [];
    if es != [] {
      var (init, e) := (es[..|es| - 1], es[|es| - 1]);
      var before := EnvKept(init);
      assert es == init + [e];
      idx := EnvKeptNext(init, e, before);
    }
  }

  lemma EnvKeptNext(init: seq<EnvVar>, e: EnvVar, before: seq<nat>) returns (idx: seq<nat>)
    requires Picks(before, WantedEnv(init)) && EnvFrom(KeptEnvVars(init), init, before)
    ensures Picks(idx, WantedEnv(init + [e])) && EnvFrom(KeptEnvVars(init + [e]), init + [e], idx)
  {
    var wanted := Trim(e.key) != "" || e.value != "";
    EnvNext(init, e, wanted);
    PicksNext(before, WantedEnv(init), wanted);
    EnvFromNext(KeptEnvVars(init), init, before, e, EnvVar(Trim(e.key), e.value), wanted);
    idx := if wanted then before + [|init|] else before;
  }

  lemma EnvNext(init: seq<EnvVar>, e: EnvVar, wanted: bool)
    requires wanted <==> Trim(e.key) != "" || e.value != ""
    ensures WantedEnv(init + [e]) == WantedEnv(init) + [wanted]
    ensures KeptEnvVars(init + [e])
         == if wanted then KeptEnvVars(init) + [EnvVar(Trim(e.key), e.value)] else KeptEnvVars(init)
  {
    assert (init + [e])[..|init|] == init;
  }

  lemma EnvFromNext(stored: seq<EnvVar>, es: seq<EnvVar>, idx: seq<nat>, e: EnvVar, kept: EnvVar, wanted: bool)
    requires EnvFrom(stored, es, idx) && kept.key == Trim(e.key) && kept.value == e.value
    ensures EnvFrom(if wanted then stored + [kept] else stored, es + [e], if wanted then idx + [|es|] else idx)
  {
  }

  ghost predicate Zero(n: Number) {
    n == NaN || n == Num(0.0)
  }

  ghost function WantedPorts(ps: seq<Port>): seq<bool> {
    seq(|ps|, i requires 0 <= i < |ps| => !Zero(ps[i].containerPort) || !Zero(ps[i].hostPort))
  }

  ghost predicate PortsFrom(stored: seq<Port>, ps: seq<Port>, idx: seq<nat>) {
    && |stored| == |idx|
    && forall i :: 0 <= i < |idx| ==>
         && idx[i] < |ps|
         && stored[i].containerPort == ps[idx[i]].containerPort && stored[i].hostPort == ps[idx[i]].hostPort
  }

  lemma {:induction false} PortsKept(ps: seq<Port>) returns (idx: seq<nat>)
    ensures Picks(idx, WantedPorts(ps)) && PortsFrom(KeptPorts(ps), ps, idx)
  {
    idx := [];
    if ps != [] {
      var (init, p) := (ps[..|ps| - 1], ps[|ps| - 1]);
      var before := PortsKept(init);
      assert ps == init + [p];
      idx := PortsKeptNext(init, p, before);
    }
  }

  lemma PortsKeptNext(init: seq<Port>, p: Port, before: seq<nat>) returns (idx: seq<nat>)
    requires Picks(before, WantedPorts(init)) && PortsFrom(KeptPorts(init), init, before)
    ensures Picks(idx, WantedPorts(init + [p])) && PortsFrom(KeptPorts(init + [p]), init + [p], idx)
  {
    var wanted := !Zero(p.containerPort) || !Zero(p.hostPort);
    PortsNext(init, p, wanted);
    PicksNext(before, WantedPorts(init), wanted);
    PortsFromNext(KeptPorts(init), init, before, p, p, wanted);
    idx := if wanted then before + [|init|] else before;
  }

  lemma PortsNext(init: seq<Port>, p: Port, wanted: bool)
    requires wanted <==> !Zero(p.containerPort) || !Zero(p.hostPort)
    ensures WantedPorts(init + [p]) == WantedPorts(init) + [wanted]
    ensures KeptPorts(init + [p]) == if wanted then KeptPorts(init) + [p] else KeptPorts(init)
  {
    assert (init + [p])[..|init|] == init;
  }

  lemma PortsFromNext(stored: seq<Port>, ps: seq<Port>, idx: seq<nat>, p: Port, kept: Port, wanted: bool)
    requires PortsFrom(stored, ps, idx) && kept == p
    ensures PortsFrom(if wanted then stored + [kept] else stored, ps + [p], if wanted then idx + [|ps|] else idx)
  {
  }

  /** A submitted volume's source: the host path if one is given, otherwise the name. */
  ghost predicate SourceOf(v: Volume, hostPath: string, volumeName: string) {
    if v.hostPath != "" then hostPath == Trim(v.hostPath) && volumeName == ""
    else hostPath == "" && volumeName == Trim(v.volumeName)
  }

  ghost function WantedVolumes(vs: seq<Volume>): seq<bool> {
    seq(|vs|, i requires 0 <= i < |vs| =>
      Trim(vs[i].containerPath) != "" || Trim(if vs[i].hostPath != "" then vs[i].hostPath else vs[i].volumeName) != "")
  }

  ghost predicate VolumesFrom(stored: seq<Volume>, vs: seq<Volume>, idx: seq<nat>) {
    && |stored| == |idx|
    && forall i :: 0 <= i < |idx| ==>
         && idx[i] < |vs|
         && stored[i].containerPath == Trim(vs[idx[i]].containerPath)
         && SourceOf(vs[idx[i]], stored[i].hostPath, stored[i].volumeName)
  }

  lemma {:induction false} VolumesKept(vs: seq<Volume>) returns (idx: seq<nat>)
    ensures Picks(idx, WantedVolumes(vs)) && VolumesFrom(KeptVolumes(vs), vs, idx)
  {
    idx := [];
    if vs != [] {
      var (init, v) := (vs[..|vs| - 1], vs[|vs| - 1]);
      var before := VolumesKept(init);
      assert vs == init + [v];
      idx := VolumesKeptNext(init, v, before);
    }
  }

  lemma VolumesKeptNext(init: seq<Volume>, v: Volume, before: seq<nat>) returns (idx: seq<nat>)
    requires Picks(before, WantedVolumes(init)) && VolumesFrom(KeptVolumes(init), init, before)
    ensures Picks(idx, WantedVolumes(init + [v])) && VolumesFrom(KeptVolumes(init + [v]), init + [v], idx)
  {
    var wanted := Trim(v.containerPath) != "" || Trim(if v.hostPath != "" then v.hostPath else v.volumeName) != "";
    VolumesNext(init, v, wanted);
    PicksNext(before, WantedVolumes(init), wanted);
    VolumesFromNext(KeptVolumes(init), init, before, v, TrimVolume(v), wanted);
    idx := if wanted then before + [|init|] else before;
  }

  lemma VolumesNext(init: seq<Volume>, v: Volume, wanted: bool)
    requires wanted
        <==> Trim(v.containerPath) != "" || Trim(if v.hostPath != "" then v.hostPath else v.volumeName) != ""
    ensures WantedVolumes(init + [v]) == WantedVolumes(init) + [wanted]
    ensures KeptVolumes(init + [v]) == if wanted then KeptVolumes(init) + [TrimVolume(v)] else KeptVolumes(init)
  {
    assert (init + [v])[..|init|] == init;
  }

  lemma VolumesFromNext(stored: seq<Volume>, vs: seq<Volume>, idx: seq<nat>, v: Volume, kept: Volume, wanted: bool)
    requires VolumesFrom(stored, vs, idx)
    requires kept.containerPath == Trim(v.containerPath) && SourceOf(v, kept.hostPath, kept.volumeName)
    ensures VolumesFrom(if wanted then stored + [kept] else stored, vs + [v], if wanted then idx + [|vs|] else idx)
  {
  }

  /** What an accepted update stores. Each list that was submitted is stored without its empty entries, in order, and
      otherwise as submitted but trimmed; a list left out stays as it was, and so does everything an update does not
      speak of. */
  lemma UpdateStoresExactly(cfg: Config, apps: Apps, name: string, u: Mutation)
    returns (env: seq<nat>, ports: seq<nat>, volumes: seq<nat>)
    requires Invariant(cfg, apps) && name in apps && u.Update? && Exec(cfg, apps, Mutate(name, u)).1.Ok?
    ensures var (a, next) := (apps[name], Exec(cfg, apps, Mutate(name, u)).0);
            && name in next
            && var b := next[name];
               && b.forceSsl == u.forceSsl && b.redirectDomain == u.redirectDomain
               && b.instanceCount == (if u.instances.Num? && 0.0 <= u.instances.n then u.instances else a.instanceCount)
               && b.isLegacyAppName == a.isLegacyAppName && b.hasDefaultSubDomainSsl == a.hasDefaultSubDomainSsl
               && b.customDomain == a.customDomain && b.history == a.history
    ensures var (a, next) := (apps[name], Exec(cfg, apps, Mutate(name, u)).0);
            && name in next
            && (if u.envVars.Some? then
                  Picks(env, WantedEnv(u.envVars.value)) && EnvFrom(next[name].envVars, u.envVars.value, env)
                else next[name].envVars == a.envVars)
            && (if u.ports.Some? then
                  Picks(ports, WantedPorts(u.ports.value)) && PortsFrom(next[name].ports, u.ports.value, ports)
                else next[name].ports == a.ports)
            && (if u.volumes.Some? then
                  && Picks(volumes, WantedVolumes(u.volumes.value))
                  && VolumesFrom(next[name].volumes, u.volumes.value, volumes)
                else next[name].volumes == a.volumes)
  {
    MutationIsStored(cfg, apps, name, u);
    env, ports, volumes := [], [], [];
    if u.envVars.Some? { env := EnvKept(u.envVars.value); }
    if u.ports.Some? { ports := PortsKept(u.ports.value); }
    if u.volumes.Some? { volumes := VolumesKept(u.volumes.value); }
  }

  // ---------------------------------------------------------------------------------------------
  // Domains and SSL
  // ---------------------------------------------------------------------------------------------

  ghost predicate Attached(a: App, d: string) {
    exists i :: 0 <= i < |a.customDomain| && a.customDomain[i].publicDomain == d
  }

  ghost predicate HasSslElsewhere(a: App, d: string) {
    exists i :: 0 <= i < |a.customDomain| && a.customDomain[i].publicDomain != d && a.customDomain[i].hasSsl
  }

  lemma ResavedIn(cfg: Config, apps: Apps, name: string, b: App)
    requires Invariant(cfg, apps) && name in apps
    requires Sound(b.(forceSsl := false)) && PathsValid(b.volumes, cfg.validPath)
    requires b.isLegacyAppName == apps[name].isLegacyAppName
    ensures SaveIn(cfg, apps, name, b)
         == if b.forceSsl && !HasSslDomain(b) then (apps, Err(NoSslDomain)) else (apps[name := b], Ok(()))
  {
    assert AppInvariant(cfg, name, apps[name]);
    ResavedExactly(cfg, Some(apps[name]), name, b);
    assert b.(isLegacyAppName := apps[name].isLegacyAppName) == b;
  }

  /** Switching SSL on the default sub-domain on or off changes that flag only, and is refused only if it would leave an
      app that forces SSL without any. */
  lemma DefaultSslExactly(cfg: Config, apps: Apps, name: string, on: bool)
    requires Invariant(cfg, apps) && name in apps
    ensures var a := apps[name];
            Exec(cfg, apps, Mutate(name, SetDefaultSsl(on)))
            == if a.forceSsl && !on && !exists i :: 0 <= i < |a.customDomain| && a.customDomain[i].hasSsl
               then (apps, Err(NoSslDomain))
               else (apps[name := App(a.isLegacyAppName, a.forceSsl, on, a.redirectDomain, a.instanceCount,
                                      a.customDomain, a.envVars, a.ports, a.volumes, a.history)], Ok(()))
  {
    assert AppInvariant(cfg, name, apps[name]);
    ResavedIn(cfg, apps, name, apps[name].(hasDefaultSubDomainSsl := on));
  }

  /** Enabling SSL on a custom domain succeeds exactly if it is attached, and changes only that domain's flag. */
  lemma EnableSslExactly(cfg: Config, apps: Apps, name: string, d: string)
    requires Invariant(cfg, apps) && name in apps
    ensures var (next, r) := Exec(cfg, apps, Mutate(name, EnableDomainSsl(d)));
            && (r.Ok? <==> Attached(apps[name], d))
            && (r.Ok? ==>
                  && next.Keys == apps.Keys && |next[name].customDomain| == |apps[name].customDomain|
                  && next[name].(customDomain := apps[name].customDomain) == apps[name]
                  && forall i :: 0 <= i < |apps[name].customDomain| ==>
                       var (x, y) := (apps[name].customDomain[i], next[name].customDomain[i]);
                       y.publicDomain == x.publicDomain && y.domainType == x.domainType
                       && (y.hasSsl <==> x.hasSsl || x.publicDomain == d))
  {
    var a := apps[name];
    assert AppInvariant(cfg, name, a);
    var i := DomainIndex(a.customDomain, d);
    if i < |a.customDomain| {
      var b := a.(customDomain := a.customDomain[i := a.customDomain[i].(hasSsl := true)]);
      assert b.customDomain[i].hasSsl && HasSslDomain(b);
      ResavedIn(cfg, apps, name, b);
    }
  }

  lemma {:induction false} OthersOfDistinct(ds: seq<Domain>, d: string, i: nat)
    requires DistinctDomains(ds) && i < |ds| && ds[i].publicDomain == d
    ensures OtherDomains(ds, d) == ds[..i] + ds[i + 1..]
  {
    var init := ds[..|ds| - 1];
    if i == |ds| - 1 {
      NothingToRemove(init, d);
      assert init + [] == ds[..i] + ds[i + 1..];
    } else {
      assert ds[|ds| - 1].publicDomain != d;
      OthersOfDistinct(init, d, i);
      assert init[..i] + init[i + 1..] + [ds[|ds| - 1]] == ds[..i] + ds[i + 1..];
    }
  }

  /** Removing a domain succeeds exactly if it is attached and, for an app that forces SSL, SSL remains elsewhere. The
      other domains stay in their order, and a redirect goes if it led to the domain or if no domain is left. */
  lemma RemoveDomainExactly(cfg: Config, apps: Apps, name: string, d: string)
    requires Invariant(cfg, apps) && name in apps
    ensures var a := apps[name];
            var (next, r) := Exec(cfg, apps, Mutate(name, RemoveDomain(d)));
            && (r.Ok? <==> Attached(a, d) && (a.forceSsl ==> a.hasDefaultSubDomainSsl || HasSslElsewhere(a, d)))
            && (r.Ok? ==> next.Keys == apps.Keys && Detached(a, next[name], d))
  {
    var a := apps[name];
    assert AppInvariant(cfg, name, a);
    if DomainIndex(a.customDomain, d) < |a.customDomain| {
      var b := Removed(cfg, a, d);
      ResavedIn(cfg, apps, name, b);
    }
  }

  lemma Removed(cfg: Config, a: App, d: string) returns (b: App)
    requires DistinctDomains(a.customDomain) && TypesAreStandard(a.customDomain)
    requires DomainIndex(a.customDomain, d) < |a.customDomain|
    ensures Mutated(cfg, a, RemoveDomain(d)) == Ok(b) && Detached(a, b, d) && TypesAreStandard(b.customDomain)
    ensures HasSslDomain(b) <==> a.hasDefaultSubDomainSsl || HasSslElsewhere(a, d)
  {
    var i := DomainIndex(a.customDomain, d);
    var rest := a.customDomain[..i] + a.customDomain[i + 1..];
    OthersOfDistinct(a.customDomain, d, i);
    b := a.(customDomain := rest,
            redirectDomain := if a.redirectDomain == d || rest == [] then "" else a.redirectDomain);
    SslWithout(a, rest, d, i);
    RestIsStandard(a.customDomain, rest, i);
  }

  /** `b` is `a` without the domain, and without a redirect to it or to nothing. */
  ghost predicate Detached(a: App, b: App, d: string) {
    && b.(customDomain := a.customDomain, redirectDomain := a.redirectDomain) == a
    && b.redirectDomain == (if a.redirectDomain == d || |a.customDomain| == 1 then "" else a.redirectDomain)
    && exists i :: 0 <= i < |a.customDomain| && a.customDomain[i].publicDomain == d
         && b.customDomain == a.customDomain[..i] + a.customDomain[i + 1..]
  }

  lemma RestIsStandard(ds: seq<Domain>, rest: seq<Domain>, i: nat)
    requires i < |ds| && rest == ds[..i] + ds[i + 1..] && TypesAreStandard(ds)
    ensures TypesAreStandard(rest)
  {
    assert forall j :: 0 <= j < |rest| ==> rest[j] == ds[if j < i then j else j + 1];
  }

  lemma SslWithout(a: App, rest: seq<Domain>, d: string, i: nat)
    requires DistinctDomains(a.customDomain) && i < |a.customDomain| && a.customDomain[i].publicDomain == d
    requires rest == a.customDomain[..i] + a.customDomain[i + 1..]
    ensures HasSslElsewhere(a, d) <==> exists j :: 0 <= j < |rest| && rest[j].hasSsl
  {
    if HasSslElsewhere(a, d) {
      var k :| 0 <= k < |a.customDomain| && a.customDomain[k].publicDomain != d && a.customDomain[k].hasSsl;
      assert rest[if k < i then k else k - 1] == a.customDomain[k];
    }
    if j :| 0 <= j < |rest| && rest[j].hasSsl {
      assert rest[j] == a.customDomain[if j < i then j else j + 1];
    }
  }

  /** The same character, or the same letter in upper case. */
  ghost predicate SameLetter(c: char, lower: char) {
    c == lower || ('A' <= c <= 'Z' && lower as int == c as int + 32)
  }

  ghost predicate Spells(t: string, standard: string) {
    |t| == |standard| && forall i :: 0 <= i < |t| ==> SameLetter(t[i], standard[i])
  }

  lemma LowerCase(s: string)
    requires s in DOMAIN_TYPES
    ensures s != "" && forall i :: 0 <= i < |s| ==> 'a' <= s[i] <= 'z'
  {
    assert s == DOMAIN_TYPES[0] || s == DOMAIN_TYPES[1] || s == DOMAIN_TYPES[2] || s == DOMAIN_TYPES[3];
  }

  /** A domain type is accepted exactly if, trimmed, it spells a standard one in any case, and it becomes that one; an
      absent one becomes "custom". */
  lemma DomainTypeExactly(t: string, standard: string)
    ensures NormalizeDomainType(t) == Ok(standard)
       <==> if t == "" then standard == "custom" else standard in DOMAIN_TYPES && Spells(Trim(t), standard)
  {
    if standard in DOMAIN_TYPES {
      LowerCase(standard);
      if Spells(Trim(t), standard) { assert ToLower(Trim(t)) == standard; }
    }
  }

  /** Attaching a domain succeeds exactly for a domain type that is accepted and a domain not attached yet; it goes to
      the end, without SSL. */
  lemma AddDomainExactly(cfg: Config, apps: Apps, name: string, d: string, t: string)
    requires Invariant(cfg, apps) && name in apps
    ensures var a := apps[name];
            var (next, r) := Exec(cfg, apps, Mutate(name, AddDomain(d, t)));
            && (r.Ok? <==> NormalizeDomainType(t).Ok? && !Attached(a, d))
            && (r.Ok? ==>
                  && next.Keys == apps.Keys && next[name].(customDomain := a.customDomain) == a
                  && next[name].customDomain
                     == a.customDomain + [Domain(d, false, Some(NormalizeDomainType(t).value))])
  {
    var a := apps[name];
    assert AppInvariant(cfg, name, a);
    if NormalizeDomainType(t).Ok? && !Attached(a, d) {
      var b := a.(customDomain := a.customDomain + [Domain(d, false, Some(NormalizeDomainType(t).value))]);
      NormalizedDomain(Domain(d, false, Some(t)));
      assert HasSslDomain(a) ==> HasSslDomain(b) by {
        assert forall i :: 0 <= i < |a.customDomain| ==> b.customDomain[i] == a.customDomain[i];
      }
      ResavedIn(cfg, apps, name, b);
    }
  }

  // ---------------------------------------------------------------------------------------------
  // Names, and the version history
  // ---------------------------------------------------------------------------------------------

  /** A rename moves the app as it is, but for SSL on the default sub-domain. */
  lemma RenameMovesEverything(cfg: Config, apps: Apps, from: string, to: string)
    requires Invariant(cfg, apps) && Exec(cfg, apps, Rename(from, to)).1.Ok?
    ensures var next := Exec(cfg, apps, Rename(from, to)).0;
            && from in apps && to !in apps && next.Keys == apps.Keys - {from} + {to}
            && next[to] == App(apps[from].isLegacyAppName, apps[from].forceSsl, false, apps[from].redirectDomain,
                               apps[from].instanceCount, apps[from].customDomain, apps[from].envVars,
                               apps[from].ports, apps[from].volumes, apps[from].history)
  {
    assert AppInvariant(cfg, from, apps[from]);
    ResavedExactly(cfg, None, to, apps[from].(hasDefaultSubDomainSsl := false));
  }

  /** Registering succeeds exactly for an allowed, unused name, and stores an app of one instance with nothing
      attached. */
  lemma RegisterExactly(cfg: Config, apps: Apps, name: string)
    ensures var (next, r) := Exec(cfg, apps, Register(name));
            && (r.Ok? <==> NameAllowed(name) && name !in apps)
            && (r.Ok? ==> next == apps[name := App(None, false, false, "", Num(1.0), [], [], [], [],
                                                   VersionHistory.History([], 0))])
  {
  }

  function ChangeOf(m: Mutation): Option<VersionHistory.Change> {
    match m
    case NewVersion => Some(VersionHistory.Create)
    case SetImage(v, image, gitHash) => Some(VersionHistory.Deploy(v, image, gitHash))
    case Rollback(v) => Some(VersionHistory.Rollback(v))
    case _ => None
  }

  /** When the source carries a change of the version history out. */
  ghost predicate Possible(h: VersionHistory.History, c: VersionHistory.Change) {
    match c
    case Create => true
    case Deploy(v, image, _) => image != "" && VersionHistory.Has(h.versions, v)
    case Rollback(v) =>
      exists i :: 0 <= i < |h.versions| && h.versions[i].version == v && h.versions[i].deployedImageName != ""
  }

  /** Each app's history makes the moves of `VersionHistory`, and no others: the three mutators that touch it succeed
      exactly when the change is possible, change nothing else, and every other mutation leaves the history alone. */
  lemma HistoryFollows(cfg: Config, apps: Apps, name: string, m: Mutation)
    requires Invariant(cfg, apps) && name in apps
    ensures var (next, r) := Exec(cfg, apps, Mutate(name, m));
            if ChangeOf(m).Some? then
              && (r.Ok? <==> Possible(apps[name].history, ChangeOf(m).value))
              && (r.Ok? ==>
                    && next.Keys == apps.Keys && next[name].(history := apps[name].history) == apps[name]
                    && next[name].history
                       == VersionHistory.Apply(apps[name].history, ChangeOf(m).value, cfg.maxVersionHistory))
            else name in next && next[name].history == apps[name].history
  {
    assert AppInvariant(cfg, name, apps[name]);
    MutationIsStored(cfg, apps, name, m);
    if ChangeOf(m).Some? && Mutated(cfg, apps[name], m).Ok? {
      ResavedIn(cfg, apps, name, Mutated(cfg, apps[name], m).value);
    }
  }

  /** Pausing an app always succeeds and only sets its instances to none. */
  lemma PauseExactly(cfg: Config, apps: Apps, name: string)
    requires Invariant(cfg, apps) && name in apps
    ensures var (next, r) := Exec(cfg, apps, Mutate(name, Pause));
            && r.Ok? && next.Keys == apps.Keys && next[name].instanceCount == Num(0.0)
            && next[name].(instanceCount := apps[name].instanceCount) == apps[name]
  {
    assert AppInvariant(cfg, name, apps[name]);
    ResavedIn(cfg, apps, name, apps[name].(instanceCount := Num(0.0)));
  }
}
