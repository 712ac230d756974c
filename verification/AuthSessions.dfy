/** Refresh sessions: src/user/AuthSessionManager.ts over the session list of src/datastore/DataStore.ts.

A session id is issued with a token; only the token's hash is stored. The hash is a parameter, and lemmas that
need it to be collision-free say so. Times are milliseconds. Every operation reads the clock twice, before and
after it waits for the store; what it draws at random is a parameter too. */
module AuthSessions {
  import opened Wrappers
  import opened Text
  import opened PromiseChain

  const LIFETIME_MS := 30 * 24 * 60 * 60 * 1000
  const TOUCH_INTERVAL_MS := 5 * 60 * 1000
  const MAX_SESSIONS := 10

  datatype Session = Session(id: string, tokenHash: string, createdAt: int, expiresAt: int, lastUsedAt: Option<int>,
                             userAgent: string, ip: string)

  datatype Metadata = Metadata(userAgent: string, ip: string)

  /** A drawn UUID and secret. */
  datatype Draw = Draw(id: string, secret: string)

  /** The clock when the operation starts and after the store has answered. */
  datatype Clock = Clock(before: int, now: int)

  datatype Grant = Grant(token: string, record: Session)

  type Hash = string -> string

  ghost predicate CollisionFree(hash: Hash) {
    forall a, b {:trigger hash(a), hash(b)} :: hash(a) == hash(b) ==> a == b
  }

  // ---------------------------------------------------------------------------------------------
  // Tokens
  // ---------------------------------------------------------------------------------------------

  const PREFIX := "cr_refresh_"

  predicate IdChar(c: char) {
    IsDigit(c) || 'a' <= c <= 'f' || c == '-'
  }

  predicate SecretChar(c: char) {
    IsDigit(c) || IsLower(c) || IsUpper(c) || c == '_' || c == '-'
  }

  function BuildToken(d: Draw): string {
    PREFIX + d.id + "_" + d.secret
  }

  /** `/^cr_refresh_([0-9a-f-]{36})_([A-Za-z0-9_-]{32,})$/` */
  function ParseToken(token: string): Option<string> {
    if && |token| >= 80
       && token[..11] == PREFIX
       && (forall i :: 11 <= i < 47 ==> IdChar(token[i]))
       && token[47] == '_'
       && (forall i :: 48 <= i < |token| ==> SecretChar(token[i]))
    then Some(token[11..47]) else None
  }

  /** The shape of `randomUUID()` and of 32 random bytes in base64url. */
  predicate WellFormedDraw(d: Draw) {
    |d.id| == 36 && (forall c :: c in d.id ==> IdChar(c)) && |d.secret| >= 32
        && (forall c :: c in d.secret ==> SecretChar(c))
  }

  /** A built token parses back to its id. */
  lemma TokenRoundTrip(d: Draw)
    requires WellFormedDraw(d)
    ensures ParseToken(BuildToken(d)) == Some(d.id)
  {
    var t := BuildToken(d);
    assert t[..11] == PREFIX && t[11..47] == d.id;
    forall i | 11 <= i < 47 ensures IdChar(t[i]) { assert t[i] == d.id[i - 11]; }
    forall i | 48 <= i < |t| ensures SecretChar(t[i]) { assert t[i] == d.secret[i - 48]; }
  }

  // ---------------------------------------------------------------------------------------------
  // Operations, one at a time
  // ---------------------------------------------------------------------------------------------

  /** What a write of the session list keeps. */
  function Newest(s: seq<Session>): seq<Session> {
    LastN(s, MAX_SESSIONS)
  }

  function Truncate(s: string, n: nat): string {
    if |s| <= n then s else s[..n]
  }

  function BuildSession(hash: Hash, m: Metadata, d: Draw, now: int): Grant {
    Grant(BuildToken(d),
          Session(d.id, hash(BuildToken(d)), now, now + LIFETIME_MS, None, Truncate(m.userAgent, 200),
              Truncate(m.ip, 100)))
  }

  /** `getRefreshSessions` at one reading of the clock: what it returns and leaves in the store. */
  function Active(s: seq<Session>, now: int): seq<Session> {
    if s == [] then [] else (if s[0].expiresAt > now then [s[0]] else []) + Active(s[1..], now)
  }

  function Find(s: seq<Session>, id: string): Option<Session> {
    if s == [] then None else if s[0].id == id then Some(s[0]) else Find(s[1..], id)
  }

  function Without(s: seq<Session>, id: string): seq<Session> {
    if s == [] then [] else (if s[0].id == id then [] else [s[0]]) + Without(s[1..], id)
  }

  function Replace(s: seq<Session>, r: Session): seq<Session> {
    if s == [] then [] else [if s[0].id == r.id then r else s[0]] + Replace(s[1..], r)
  }

  datatype Request =
    | Create(metadata: Metadata)
    | Consume(token: string, rotate: bool)
    | Revoke(token: string)
    | RevokeAll

  datatype Env = Env(clock: Clock, draw: Draw)

  /** Whether the request reaches the store at all. */
  predicate Enters(r: Request) {
    match r
    case Consume(token, _) => ParseToken(token).Some?
    case Revoke(token) => ParseToken(token).Some?
    case _ => true
  }

  /** The session a token is accepted for: found under its id, unexpired, and with the token's hash. */
  function Accepted(hash: Hash, sessions: seq<Session>, token: string, now: int): Option<Session> {
    var id := ParseToken(token);
    if id.None? then None
    else
      var r := Find(sessions, id.value);
      if r.None? || r.value.expiresAt <= now || hash(token) != r.value.tokenHash then None else r
  }

  /** What a request decides once it has read the store: what to write, and its answer. */
  function Decide(hash: Hash, r: Request, env: Env, sessions: seq<Session>): Plan<seq<Session>, Option<Grant>> {
    match r
    case Create(metadata) =>
      var created := BuildSession(hash, metadata, env.draw, env.clock.before);
      Plan(Some(Newest(Newest(sessions + [created.record]))), Some(created))
    case Consume(token, rotate) =>
      var a := Accepted(hash, sessions, token, env.clock.now);
      if a.None? then Plan(None, None)
      else
        var record := a.value;
        if rotate then
          var built := BuildSession(hash, Metadata(record.userAgent, record.ip), env.draw, env.clock.now);
          var created := built.(record := built.record.(expiresAt := record.expiresAt));
          Plan(Some(Newest(Newest(Without(sessions, record.id) + [created.record]))), Some(created))
        else if record.lastUsedAt.Some? && env.clock.now - record.lastUsedAt.value < TOUCH_INTERVAL_MS then
          Plan(None, Some(Grant(token, record)))
        else
          var touched := record.(lastUsedAt := Some(env.clock.now));
          Plan(Some(Newest(Replace(sessions, touched))), Some(Grant(token, touched)))
    case Revoke(token) =>
      var id := ParseToken(token);
      if id.None? then Plan(None, None)
      else
        var record := Find(sessions, id.value);
        if record.None? || hash(token) != record.value.tokenHash then Plan(None, None)
        else Plan(Some(Newest(Without(sessions, id.value))), None)
    case RevokeAll => Plan(Some([]), None)
  }

  /** What the request's read leaves in the store: expired sessions are dropped, except by revoke-all, which
      does not read. */
  function AfterRead(r: Request, env: Env, store: seq<Session>): seq<Session> {
    match r
    case RevokeAll => store
    case Create(_) => Active(store, env.clock.now)
    case _ => Active(store, env.clock.before)
  }

  /** A whole request, run alone. */
  function Handle(hash: Hash, r: Request, env: Env, store: seq<Session>): (seq<Session>, Option<Grant>) {
    if !Enters(r) then (store, None)
    else
      var sessions := AfterRead(r, env, store);
      var plan := Decide(hash, r, env, sessions);
      (if plan.write.Some? then plan.write.value else sessions, plan.result)
  }

  // ---------------------------------------------------------------------------------------------
  // The store and the four operations
  // ---------------------------------------------------------------------------------------------

  class SessionStore {
    var sessions: seq<Session>

    constructor ()
      ensures sessions == []
    {
      sessions := [];
    }

    method GetRefreshSessions(now: int) returns (active: seq<Session>)
      modifies this
      ensures active == Active(old(sessions), now) && sessions == active
    {
      active := Active(sessions, now);
      if |active| != |sessions| {
        sessions := active;
      } else {
        SameLengthSame(sessions, now);
      }
    }

    method SetRefreshSessions(newSessions: seq<Session>)
      modifies this
      ensures sessions == Newest(newSessions)
    {
      sessions := Newest(newSessions);
    }
  }

  method CreateRefreshSession(hash: Hash, store: SessionStore, metadata: Metadata, env: Env) returns (created: Grant)
    modifies store
    ensures (store.sessions, Some(created)) == Handle(hash, Create(metadata), env, old(store.sessions))
  {
    created := BuildSession(hash, metadata, env.draw, env.clock.before);
    var sessions := store.GetRefreshSessions(env.clock.now);
    store.SetRefreshSessions(Newest(sessions + [created.record]));
  }

  method ConsumeRefreshSession(hash: Hash, store: SessionStore, token: string, rotate: bool, env: Env)
    returns (grant: Option<Grant>)
    modifies store
    ensures (store.sessions, grant) == Handle(hash, Consume(token, rotate), env, old(store.sessions))
  {
    var parsed := ParseToken(token);
    if parsed.None? { return None; }
    var sessions := store.GetRefreshSessions(env.clock.before);
    var found := Find(sessions, parsed.value);
    if found.None? || found.value.expiresAt <= env.clock.now || hash(token) != found.value.tokenHash { return None; }
    var record := found.value;
    FindMeaning(sessions, parsed.value);
    if rotate {
      var created := BuildSession(hash, Metadata(record.userAgent, record.ip), env.draw, env.clock.now);
      created := created.(record := created.record.(expiresAt := record.expiresAt));
      store.SetRefreshSessions(Newest(Without(sessions, record.id) + [created.record]));
      return Some(created);
    }
    if record.lastUsedAt.Some? && env.clock.now - record.lastUsedAt.value < TOUCH_INTERVAL_MS {
      return Some(Grant(token, record));
    }
    var touched := record.(lastUsedAt := Some(env.clock.now));
    store.SetRefreshSessions(Replace(sessions, touched));
    grant := Some(Grant(token, touched));
  }

  method RevokeRefreshSession(hash: Hash, store: SessionStore, token: string, env: Env)
    modifies store
    ensures store.sessions == Handle(hash, Revoke(token), env, old(store.sessions)).0
  {
    var parsed := ParseToken(token);
    if parsed.None? { return; }
    var sessions := store.GetRefreshSessions(env.clock.before);
    var record := Find(sessions, parsed.value);
    if record.None? || hash(token) != record.value.tokenHash { return; }
    store.SetRefreshSessions(Without(sessions, parsed.value));
  }

  method RevokeAllRefreshSessions(store: SessionStore)
    modifies store
    ensures store.sessions == []
  {
    store.SetRefreshSessions([]);
  }

  // ---------------------------------------------------------------------------------------------
  // List lemmas
  // ---------------------------------------------------------------------------------------------

  lemma SameLengthSame(s: seq<Session>, now: int)
    ensures |Active(s, now)| <= |s|
    ensures |Active(s, now)| == |s| ==> Active(s, now) == s
  {
    if s != [] {
      SameLengthSame(s[1..], now);
    }
  }

  lemma FindMeaning(s: seq<Session>, id: string)
    ensures Find(s, id).Some? ==> Find(s, id).value in s && Find(s, id).value.id == id
    ensures Find(s, id).None? <==> forall r :: r in s ==> r.id != id
  {
    if s != [] {
      assert s == [s[0]] + s[1..];
      FindMeaning(s[1..], id);
      if Find(s, id).None? { assert forall r :: r in s ==> r == s[0] || r in s[1..]; }
    }
  }

  lemma ActiveMembers(s: seq<Session>, now: int)
    ensures forall r :: r in Active(s, now) <==> r in s && r.expiresAt > now
    ensures |Active(s, now)| <= |s|
  {
    if s != [] {
      assert s == [s[0]] + s[1..];
      ActiveMembers(s[1..], now);
    }
  }

  lemma WithoutMembers(s: seq<Session>, id: string)
    ensures forall r :: r in Without(s, id) <==> r in s && r.id != id
    ensures |Without(s, id)| <= |s|
    ensures Holds(s, id) ==> |Without(s, id)| < |s|
  {
    if s != [] {
      assert s == [s[0]] + s[1..];
      WithoutMembers(s[1..], id);
    }
  }

  lemma ReplaceMembers(s: seq<Session>, r: Session)
    ensures |Replace(s, r)| == |s|
    ensures forall id :: Holds(Replace(s, r), id) <==> Holds(s, id)
  {
    if s != [] {
      assert s == [s[0]] + s[1..];
      ReplaceMembers(s[1..], r);
      var (t, u) := (Replace(s, r), Replace(s[1..], r));
      assert t[0].id == s[0].id && t == [t[0]] + u;
      forall id ensures Holds(t, id) <==> Holds(s, id) {
        HoldsCons(t[0], u, id);
        HoldsCons(s[0], s[1..], id);
      }
    }
  }

  ghost predicate Holds(s: seq<Session>, id: string) {
    exists r :: r in s && r.id == id
  }

  lemma HoldsCons(x: Session, s: seq<Session>, id: string)
    ensures Holds([x] + s, id) <==> x.id == id || Holds(s, id)
  {
    assert x in [x] + s;
    if Holds(s, id) {
      var r :| r in s && r.id == id;
      assert r in [x] + s;
    }
  }

  /** The session a token is accepted for is held, unexpired, under the token's id and with its hash. */
  lemma AcceptedIsHeld(hash: Hash, sessions: seq<Session>, token: string, now: int)
    ensures var a := Accepted(hash, sessions, token, now);
            a.Some? ==> a.value in sessions && ParseToken(token) == Some(a.value.id) && now < a.value.expiresAt
                        && a.value.tokenHash == hash(token)
  {
    if ParseToken(token).Some? {
      FindMeaning(sessions, ParseToken(token).value);
    }
  }

  /** A check without rotation writes at most the time of last use of the presented session, and only when that is
      absent or at least five minutes old. */
  lemma {:induction false} TouchEffect(hash: Hash, store: seq<Session>, token: string, env: Env,
                                       sessions: seq<Session>, record: Session)
    requires sessions == Active(store, env.clock.before) && |store| <= MAX_SESSIONS
    requires Accepted(hash, sessions, token, env.clock.now) == Some(record)
    ensures Handle(hash, Consume(token, false), env, store).0
         == if record.lastUsedAt.Some? && env.clock.now < record.lastUsedAt.value + TOUCH_INTERVAL_MS then sessions
            else Replace(sessions, record.(lastUsedAt := Some(env.clock.now)))
  {
    ActiveMembers(store, env.clock.before);
    ReplaceMembers(sessions, record.(lastUsedAt := Some(env.clock.now)));
  }

  lemma {:induction false} RotateEffect(hash: Hash, store: seq<Session>, token: string, env: Env,
                                        sessions: seq<Session>, record: Session)
    requires sessions == Active(store, env.clock.before) && |store| <= MAX_SESSIONS
    requires Accepted(hash, sessions, token, env.clock.now) == Some(record)
    ensures var r := BuildSession(hash, Metadata(record.userAgent, record.ip), env.draw, env.clock.now).record
                     .(expiresAt := record.expiresAt);
            Handle(hash, Consume(token, true), env, store).0 == Without(sessions, record.id) + [r]
    ensures var r := BuildSession(hash, Metadata(record.userAgent, record.ip), env.draw, env.clock.now).record
                     .(expiresAt := record.expiresAt);
            Handle(hash, Consume(token, true), env, store).1 == Some(Grant(BuildToken(env.draw), r))
  {
    AcceptedIsHeld(hash, sessions, token, env.clock.now);
    ActiveMembers(store, env.clock.before);
    WithoutMembers(sessions, record.id);
    assert Holds(sessions, record.id);
  }

  // ---------------------------------------------------------------------------------------------
  // Histories: who was issued what
  // ---------------------------------------------------------------------------------------------

  /** An issued token, with the time of issue or, for a rotation, the earlier issue it replaced. */
  datatype Issue = Issue(id: string, token: string, at: int, rotatedFrom: Option<nat>)

  /** The login at the start of a chain of rotations. */
  function Login(issued: seq<Issue>, i: nat): int
    requires i < |issued|
    requires forall j :: 0 <= j < |issued| && issued[j].rotatedFrom.Some? ==> issued[j].rotatedFrom.value < j
    decreases i
  {
    if issued[i].rotatedFrom.None? then issued[i].at else Login(issued, issued[i].rotatedFrom.value)
  }

  datatype World = World(store: seq<Session>, issued: seq<Issue>)

  function IssueOf(issued: seq<Issue>, id: string): (i: nat)
    ensures i <= |issued| && (forall j :: 0 <= j < i ==> issued[j].id != id) && (i < |issued| ==> issued[i].id == id)
  {
    IndexWhere(issued, (x: Issue) => x.id == id)
  }

  /** The issue a request makes, if any. */
  function Issued(hash: Hash, w: World, r: Request, env: Env): seq<Issue> {
    match r
    case Create(_) => [Issue(env.draw.id, BuildToken(env.draw), env.clock.before, None)]
    case Consume(token, true) =>
      var a := Accepted(hash, Active(w.store, env.clock.before), token, env.clock.now);
      if a.None? then []
      else [Issue(env.draw.id, BuildToken(env.draw), env.clock.now, Some(IssueOf(w.issued, a.value.id)))]
    case _ => []
  }

  function Step(hash: Hash, w: World, r: Request, env: Env): World {
    World(Handle(hash, r, env, w.store).0, w.issued + Issued(hash, w, r, env))
  }

  /** Draws are well formed, and never repeat an id. */
  predicate FreshDraw(w: World, env: Env) {
    WellFormedDraw(env.draw) && forall j :: 0 <= j < |w.issued| ==> w.issued[j].id != env.draw.id
  }

  ghost predicate Rooted(issued: seq<Issue>) {
    forall j :: 0 <= j < |issued| && issued[j].rotatedFrom.Some? ==> issued[j].rotatedFrom.value < j
  }

  /** A stored record is that of an issue, and expires 30 days after the login the issue descends from. */
  ghost predicate Backed(hash: Hash, issued: seq<Issue>, r: Session)
    requires Rooted(issued)
  {
    var i := IssueOf(issued, r.id);
    i < |issued| && r.tokenHash == hash(issued[i].token) && r.expiresAt == Login(issued, i) + LIFETIME_MS
  }

  ghost predicate InOrder(issued: seq<Issue>, s: seq<Session>) {
    forall k, l :: 0 <= k < l < |s| ==> IssueOf(issued, s[k].id) < IssueOf(issued, s[l].id)
  }

  /** The sessions held are issued ones, in the order of issue. */
  ghost predicate Held(hash: Hash, issued: seq<Issue>, s: seq<Session>)
    requires Rooted(issued)
  {
    (forall r :: r in s ==> Backed(hash, issued, r)) && InOrder(issued, s)
  }

  ghost predicate WellIssued(issued: seq<Issue>) {
    && Rooted(issued)
    && (forall i, j :: 0 <= i < j < |issued| ==> issued[i].id != issued[j].id)
    && (forall j :: 0 <= j < |issued| ==> ParseToken(issued[j].token) == Some(issued[j].id))
  }

  ghost predicate Consistent(hash: Hash, w: World) {
    WellIssued(w.issued) && Held(hash, w.issued, w.store) && |w.store| <= MAX_SESSIONS
  }

  lemma InOrderCons(issued: seq<Issue>, x: Session, s: seq<Session>)
    ensures InOrder(issued, [x] + s) <==>
              InOrder(issued, s) && forall r :: r in s ==> IssueOf(issued, x.id) < IssueOf(issued, r.id)
  {
    var t := [x] + s;
    if InOrder(issued, t) {
      forall k, l | 0 <= k < l < |s| ensures IssueOf(issued, s[k].id) < IssueOf(issued, s[l].id) {
        assert t[k + 1] == s[k] && t[l + 1] == s[l];
      }
      forall r | r in s ensures IssueOf(issued, x.id) < IssueOf(issued, r.id) {
        var l :| 0 <= l < |s| && s[l] == r;
        assert t[l + 1] == r && t[0] == x;
      }
    }
  }

  lemma {:induction false} ActiveHeld(hash: Hash, issued: seq<Issue>, s: seq<Session>, now: int)
    requires Rooted(issued) && Held(hash, issued, s)
    ensures Held(hash, issued, Active(s, now)) && |Active(s, now)| <= |s|
    ensures forall r :: r in Active(s, now) <==> r in s && r.expiresAt > now
  {
    ActiveMembers(s, now);
    ActiveInOrder(issued, s, now);
  }

  lemma {:induction false} ActiveInOrder(issued: seq<Issue>, s: seq<Session>, now: int)
    requires InOrder(issued, s)
    ensures InOrder(issued, Active(s, now))
  {
    if s != [] {
      assert s == [s[0]] + s[1..];
      InOrderCons(issued, s[0], s[1..]);
      ActiveInOrder(issued, s[1..], now);
      ActiveMembers(s[1..], now);
      InOrderCons(issued, s[0], Active(s[1..], now));
      assert [] + Active(s[1..], now) == Active(s[1..], now);
    }
  }

  lemma {:induction false} WithoutHeld(hash: Hash, issued: seq<Issue>, s: seq<Session>, id: string)
    requires Rooted(issued) && Held(hash, issued, s)
    ensures Held(hash, issued, Without(s, id)) && |Without(s, id)| <= |s|
    ensures forall r :: r in Without(s, id) <==> r in s && r.id != id
  {
    if s != [] {
      assert s == [s[0]] + s[1..];
      InOrderCons(issued, s[0], s[1..]);
      WithoutHeld(hash, issued, s[1..], id);
      InOrderCons(issued, s[0], Without(s[1..], id));
      assert [] + Without(s[1..], id) == Without(s[1..], id);
    }
  }

  lemma {:induction false} ReplaceHeld(hash: Hash, issued: seq<Issue>, s: seq<Session>, r: Session)
    requires Rooted(issued) && Held(hash, issued, s) && Backed(hash, issued, r)
    ensures Held(hash, issued, Replace(s, r)) && |Replace(s, r)| == |s|
    ensures forall k :: 0 <= k < |s| ==> Replace(s, r)[k].id == s[k].id
    ensures forall x :: x in Replace(s, r) ==> exists y :: y in s && y.id == x.id
  {
    if s != [] {
      assert s == [s[0]] + s[1..];
      InOrderCons(issued, s[0], s[1..]);
      ReplaceHeld(hash, issued, s[1..], r);
      var h := if s[0].id == r.id then r else s[0];
      assert h.id == s[0].id;
      forall x | x in Replace(s[1..], r) ensures IssueOf(issued, h.id) < IssueOf(issued, x.id) {
        var y :| y in s[1..] && y.id == x.id;
      }
      InOrderCons(issued, h, Replace(s[1..], r));
    }
  }

  lemma IssueOfGrows(issued: seq<Issue>, more: Issue, id: string)
    requires IssueOf(issued, id) < |issued|
    ensures IssueOf(issued + [more], id) == IssueOf(issued, id)
  {
    var i := IssueOf(issued, id);
    assert forall j :: 0 <= j <= i ==> (issued + [more])[j] == issued[j];
  }

  lemma {:induction false} LoginGrows(issued: seq<Issue>, more: Issue, i: nat)
    requires Rooted(issued) && Rooted(issued + [more]) && i < |issued|
    ensures Login(issued + [more], i) == Login(issued, i)
    decreases i
  {
    if issued[i].rotatedFrom.Some? {
      LoginGrows(issued, more, issued[i].rotatedFrom.value);
    }
  }

  lemma HeldGrows(hash: Hash, issued: seq<Issue>, s: seq<Session>, more: Issue)
    requires Rooted(issued) && Rooted(issued + [more]) && Held(hash, issued, s)
    ensures Held(hash, issued + [more], s)
  {
    forall r | r in s
      ensures IssueOf(issued + [more], r.id) == IssueOf(issued, r.id) && Backed(hash, issued + [more], r)
    {
      IssueOfGrows(issued, more, r.id);
      LoginGrows(issued, more, IssueOf(issued, r.id));
    }
    assert forall k :: 0 <= k < |s| ==> s[k] in s;
  }

  /** Adding the newest issue's record at the end. */
  lemma AppendHeld(hash: Hash, issued: seq<Issue>, s: seq<Session>, more: Issue, r: Session)
    requires Rooted(issued) && Rooted(issued + [more]) && Held(hash, issued, s)
    requires r.id == more.id && (forall j :: 0 <= j < |issued| ==> issued[j].id != more.id)
    requires r.tokenHash == hash(more.token) && r.expiresAt == Login(issued + [more], |issued|) + LIFETIME_MS
    ensures Held(hash, issued + [more], s + [r])
  {
    HeldGrows(hash, issued, s, more);
    var i := IssueOf(issued + [more], r.id);
    assert (issued + [more])[|issued|].id == r.id && i == |issued|;
    forall x | x in s ensures IssueOf(issued + [more], x.id) < |issued| { IssueOfGrows(issued, more, x.id); }
    assert forall k :: 0 <= k < |s| ==> s[k] in s;
  }

  lemma WellIssuedGrows(issued: seq<Issue>, more: Issue)
    requires WellIssued(issued) && (more.rotatedFrom.Some? ==> more.rotatedFrom.value < |issued|)
    requires ParseToken(more.token) == Some(more.id) && forall j :: 0 <= j < |issued| ==> issued[j].id != more.id
    ensures WellIssued(issued + [more])
  {
  }

  // ---------------------------------------------------------------------------------------------
  // The invariant over runs
  // ---------------------------------------------------------------------------------------------

  lemma {:induction false} CreateIsConsistent(hash: Hash, w: World, m: Metadata, env: Env)
    requires Consistent(hash, w) && FreshDraw(w, env)
    ensures Consistent(hash, Step(hash, w, Create(m), env))
  {
    var more := Issue(env.draw.id, BuildToken(env.draw), env.clock.before, None);
    var active := Active(w.store, env.clock.now);
    var r := BuildSession(hash, m, env.draw, env.clock.before).record;
    TokenRoundTrip(env.draw);
    WellIssuedGrows(w.issued, more);
    ActiveHeld(hash, w.issued, w.store, env.clock.now);
    AppendHeld(hash, w.issued, active, more, r);
    assert Newest(Newest(active + [r])) == Newest(active + [r]);
  }

  lemma {:induction false} RotateIsConsistent(hash: Hash, w: World, token: string, env: Env, sessions: seq<Session>,
                                              record: Session)
    requires Consistent(hash, w) && FreshDraw(w, env)
    requires sessions == Active(w.store, env.clock.before)
    requires Accepted(hash, sessions, token, env.clock.now) == Some(record)
    ensures Consistent(hash, Step(hash, w, Consume(token, true), env))
  {
    var r := BuildSession(hash, Metadata(record.userAgent, record.ip), env.draw, env.clock.now).record
             .(expiresAt := record.expiresAt);
    var more := Issue(env.draw.id, BuildToken(env.draw), env.clock.now, Some(IssueOf(w.issued, record.id)));
    RotateEffect(hash, w.store, token, env, sessions, record);
    assert Step(hash, w, Consume(token, true), env) == World(Without(sessions, record.id) + [r], w.issued + [more]);
    AcceptedIsHeld(hash, sessions, token, env.clock.now);
    ActiveHeld(hash, w.issued, w.store, env.clock.before);
    RotatedIsHeld(hash, w, env, sessions, record, r, more);
  }

  lemma {:induction false} RotatedIsHeld(hash: Hash, w: World, env: Env, sessions: seq<Session>, record: Session,
                                         r: Session, more: Issue)
    requires WellIssued(w.issued) && Held(hash, w.issued, sessions) && |sessions| <= MAX_SESSIONS && record in sessions
    requires FreshDraw(w, env)
    requires more == Issue(env.draw.id, BuildToken(env.draw), env.clock.now, Some(IssueOf(w.issued, record.id)))
    requires r.id == env.draw.id && r.tokenHash == hash(BuildToken(env.draw)) && r.expiresAt == record.expiresAt
    ensures Consistent(hash, World(Without(sessions, record.id) + [r], w.issued + [more]))
  {
    assert Backed(hash, w.issued, record);
    TokenRoundTrip(env.draw);
    WellIssuedGrows(w.issued, more);
    LoginGrows(w.issued, more, IssueOf(w.issued, record.id));
    WithoutHeld(hash, w.issued, sessions, record.id);
    AppendHeld(hash, w.issued, Without(sessions, record.id), more, r);
    WithoutMembers(sessions, record.id);
    assert Holds(sessions, record.id);
  }

  lemma TouchIsConsistent(hash: Hash, w: World, token: string, env: Env, sessions: seq<Session>, record: Session)
    requires Consistent(hash, w)
    requires sessions == Active(w.store, env.clock.before)
    requires Accepted(hash, sessions, token, env.clock.now) == Some(record)
    ensures Consistent(hash, Step(hash, w, Consume(token, false), env))
  {
    var touched := record.(lastUsedAt := Some(env.clock.now));
    TouchEffect(hash, w.store, token, env, sessions, record);
    var t := Step(hash, w, Consume(token, false), env);
    assert t.issued == w.issued && (t.store == sessions || t.store == Replace(sessions, touched));
    AcceptedIsHeld(hash, sessions, token, env.clock.now);
    ActiveHeld(hash, w.issued, w.store, env.clock.before);
    TouchedIsHeld(hash, w.issued, sessions, record, touched);
  }

  lemma TouchedIsHeld(hash: Hash, issued: seq<Issue>, sessions: seq<Session>, record: Session, touched: Session)
    requires Rooted(issued) && Held(hash, issued, sessions) && record in sessions
    requires touched.id == record.id && touched.tokenHash == record.tokenHash && touched.expiresAt == record.expiresAt
    ensures Held(hash, issued, Replace(sessions, touched)) && |Replace(sessions, touched)| == |sessions|
  {
    assert Backed(hash, issued, record);
    ReplaceHeld(hash, issued, sessions, touched);
  }

  lemma {:induction false} ConsumeIsConsistent(hash: Hash, w: World, token: string, rotate: bool, env: Env)
    requires Consistent(hash, w) && FreshDraw(w, env)
    ensures Consistent(hash, Step(hash, w, Consume(token, rotate), env))
  {
    var sessions := Active(w.store, env.clock.before);
    var a := Accepted(hash, sessions, token, env.clock.now);
    if a.None? {
      ActiveHeld(hash, w.issued, w.store, env.clock.before);
      var t := Step(hash, w, Consume(token, rotate), env);
      assert t.issued == w.issued && (t.store == w.store || t.store == sessions);
    } else if rotate {
      RotateIsConsistent(hash, w, token, env, sessions, a.value);
    } else {
      TouchIsConsistent(hash, w, token, env, sessions, a.value);
    }
  }

  lemma {:induction false} RevokeEffect(hash: Hash, store: seq<Session>, token: string, env: Env,
                                        sessions: seq<Session>)
    requires sessions == Active(store, env.clock.before) && |store| <= MAX_SESSIONS
    ensures var t := Handle(hash, Revoke(token), env, store).0;
            t == store || t == sessions || (ParseToken(token).Some? && t == Without(sessions, ParseToken(token).value))
  {
    ActiveMembers(store, env.clock.before);
    if ParseToken(token).Some? { WithoutMembers(sessions, ParseToken(token).value); }
  }

  lemma RevokeIsConsistent(hash: Hash, w: World, token: string, env: Env)
    requires Consistent(hash, w)
    ensures Consistent(hash, Step(hash, w, Revoke(token), env))
  {
    var sessions := Active(w.store, env.clock.before);
    RevokeEffect(hash, w.store, token, env, sessions);
    assert Step(hash, w, Revoke(token), env).issued == w.issued;
    ActiveHeld(hash, w.issued, w.store, env.clock.before);
    if ParseToken(token).Some? { WithoutHeld(hash, w.issued, sessions, ParseToken(token).value); }
  }

  lemma {:induction false} StepIsConsistent(hash: Hash, w: World, r: Request, env: Env)
    requires Consistent(hash, w) && FreshDraw(w, env)
    ensures Consistent(hash, Step(hash, w, r, env))
  {
    match r
    case Create(m) => CreateIsConsistent(hash, w, m, env);
    case Consume(token, rotate) => ConsumeIsConsistent(hash, w, token, rotate, env);
    case Revoke(token) => RevokeIsConsistent(hash, w, token, env);
    case RevokeAll =>
  }

  /** How a request ends: it is handled, or its write fails after its read, or its read fails. */
  datatype Ending = Completes(env: Env) | WriteFails(env: Env) | ReadFails

  datatype Happening = Happening(request: Request, ending: Ending)

  /** A failed write leaves what the read left, and issues nothing, since the request is rejected. */
  function Happen(hash: Hash, w: World, h: Happening): World {
    match h.ending
    case Completes(env) => Step(hash, w, h.request, env)
    case WriteFails(env) => if Enters(h.request) then w.(store := AfterRead(h.request, env, w.store)) else w
    case ReadFails => w
  }

  lemma ReadKeepsConsistent(hash: Hash, w: World, r: Request, env: Env)
    requires Consistent(hash, w)
    ensures Consistent(hash, w.(store := AfterRead(r, env, w.store)))
  {
    ActiveHeld(hash, w.issued, w.store, env.clock.now);
    ActiveHeld(hash, w.issued, w.store, env.clock.before);
  }

  predicate FreshHappening(w: World, h: Happening) {
    h.ending.Completes? ==> FreshDraw(w, h.ending.env)
  }

  lemma HappenIsConsistent(hash: Hash, w: World, h: Happening)
    requires Consistent(hash, w) && FreshHappening(w, h)
    ensures Consistent(hash, Happen(hash, w, h))
  {
    match h.ending
    case Completes(env) => StepIsConsistent(hash, w, h.request, env);
    case WriteFails(env) => ReadKeepsConsistent(hash, w, h.request, env);
    case ReadFails =>
  }

  ghost predicate FreshRun(hash: Hash, w: World, run: seq<Happening>)
    decreases |run|
  {
    run == [] || (FreshHappening(w, run[0]) && FreshRun(hash, Happen(hash, w, run[0]), run[1..]))
  }

  function Run(hash: Hash, w: World, run: seq<Happening>): World
    decreases |run|
  {
    if run == [] then w else Run(hash, Happen(hash, w, run[0]), run[1..])
  }

  /** In every run from an empty store, whichever reads and writes fail: at most 10 sessions, with distinct ids, in the
      order of issue, and each expiring 30 days after the login its chain of rotations began with. */
  lemma {:induction false} RunIsConsistent(hash: Hash, w: World, run: seq<Happening>)
    requires Consistent(hash, w) && FreshRun(hash, w, run)
    ensures Consistent(hash, Run(hash, w, run))
    decreases |run|
  {
    if run != [] {
      HappenIsConsistent(hash, w, run[0]);
      RunIsConsistent(hash, Happen(hash, w, run[0]), run[1..]);
    }
  }

  lemma {:induction false} RunConcat(hash: Hash, w: World, a: seq<Happening>, b: seq<Happening>)
    ensures Run(hash, w, a + b) == Run(hash, Run(hash, w, a), b)
    ensures FreshRun(hash, w, a + b) <==> FreshRun(hash, w, a) && FreshRun(hash, Run(hash, w, a), b)
    decreases |a|
  {
    if a == [] {
      assert a + b == b;
    } else {
      assert (a + b)[0] == a[0] && (a + b)[1..] == a[1..] + b;
      RunConcat(hash, Happen(hash, w, a[0]), a[1..], b);
    }
  }

  // ---------------------------------------------------------------------------------------------
  // Safety
  // ---------------------------------------------------------------------------------------------

  /** A token is accepted exactly when it is a token once issued, its session is still held, and the login it
      descends from is less than 30 days old at both readings of the clock. */
  lemma AcceptedExactly(hash: Hash, w: World, token: string, rotate: bool, env: Env)
    requires Consistent(hash, w) && CollisionFree(hash)
    ensures Handle(hash, Consume(token, rotate), env, w.store).1.Some?
       <==> exists i :: 0 <= i < |w.issued| && Presentable(w, token, env.clock, i)
  {
    if i :| 0 <= i < |w.issued| && Presentable(w, token, env.clock, i) {
      PresentableIsAccepted(hash, w, token, rotate, env, i);
    }
    if Handle(hash, Consume(token, rotate), env, w.store).1.Some? {
      var sessions := Active(w.store, env.clock.before);
      var a := Accepted(hash, sessions, token, env.clock.now);
      AcceptedIsPresentable(hash, w, token, env.clock, sessions, a.value);
    }
  }

  ghost predicate Presentable(w: World, token: string, clock: Clock, i: nat)
    requires i < |w.issued| && Rooted(w.issued)
  {
    && w.issued[i].token == token && Holds(w.store, w.issued[i].id)
    && clock.before < Login(w.issued, i) + LIFETIME_MS && clock.now < Login(w.issued, i) + LIFETIME_MS
  }

  lemma AcceptedIsPresentable(hash: Hash, w: World, token: string, clock: Clock, sessions: seq<Session>,
                              record: Session)
    requires Consistent(hash, w) && CollisionFree(hash)
    requires sessions == Active(w.store, clock.before) && Accepted(hash, sessions, token, clock.now) == Some(record)
    ensures IssueOf(w.issued, record.id) < |w.issued| && Presentable(w, token, clock, IssueOf(w.issued, record.id))
  {
    AcceptedIsHeld(hash, sessions, token, clock.now);
    ActiveMembers(w.store, clock.before);
    assert Backed(hash, w.issued, record);
    assert hash(token) == hash(w.issued[IssueOf(w.issued, record.id)].token);
  }

  lemma PresentableIsAccepted(hash: Hash, w: World, token: string, rotate: bool, env: Env, i: nat)
    requires Consistent(hash, w) && i < |w.issued| && Presentable(w, token, env.clock, i)
    ensures Handle(hash, Consume(token, rotate), env, w.store).1.Some?
  {
    var sessions := Active(w.store, env.clock.before);
    var r :| r in w.store && r.id == w.issued[i].id;
    assert IssueOf(w.issued, r.id) == i && Backed(hash, w.issued, r);
    ActiveMembers(w.store, env.clock.before);
    FindMeaning(sessions, r.id);
    var f := Find(sessions, r.id).value;
    assert Backed(hash, w.issued, f);
    assert Accepted(hash, sessions, token, env.clock.now) == Some(f);
  }

  /** Rotation never extends a login: in every run from an empty store, no token is accepted 30 days or more after
      the login that its chain of rotations began with. */
  lemma {:induction false} NoTokenOutlivesItsLogin(hash: Hash, run: seq<Happening>, w: World, i: nat, rotate: bool,
                                                   env: Env)
    requires CollisionFree(hash) && FreshRun(hash, World([], []), run) && w == Run(hash, World([], []), run)
    requires Rooted(w.issued) && i < |w.issued| && Login(w.issued, i) + LIFETIME_MS <= env.clock.now
    ensures Handle(hash, Consume(w.issued[i].token, rotate), env, w.store).1 == None
  {
    RunIsConsistent(hash, World([], []), run);
    var token := w.issued[i].token;
    AcceptedExactly(hash, w, token, rotate, env);
    forall j | 0 <= j < |w.issued| && w.issued[j].token == token ensures j == i {
      assert ParseToken(w.issued[j].token) == ParseToken(w.issued[i].token);
    }
  }

  /** Whatever a request does, the ids held afterwards are among those held before and the one just drawn; and a
      token whose session is not held is refused. */
  lemma StepIds(hash: Hash, store: seq<Session>, r: Request, env: Env, id: string)
    requires |store| <= MAX_SESSIONS && id != env.draw.id && !Holds(store, id)
    ensures !Holds(Handle(hash, r, env, store).0, id)
    ensures r.Consume? && ParseToken(r.token) == Some(id) ==> Handle(hash, r, env, store).1 == None
  {
    ActiveMembers(store, env.clock.before);
    var sessions := AfterRead(r, env, store);
    match r
    case Create(m) => CreateIds(hash, store, m, env, id);
    case Consume(token, rotate) => ConsumeIds(hash, store, token, rotate, env, id);
    case Revoke(token) =>
      if ParseToken(token).Some? { WithoutMembers(sessions, ParseToken(token).value); }
    case RevokeAll =>
  }

  lemma CreateIds(hash: Hash, store: seq<Session>, m: Metadata, env: Env, id: string)
    requires id != env.draw.id && !Holds(store, id)
    ensures !Holds(Handle(hash, Create(m), env, store).0, id)
  {
    var active := Active(store, env.clock.now);
    var c := BuildSession(hash, m, env.draw, env.clock.before).record;
    ActiveMembers(store, env.clock.now);
    assert forall x :: x in active + [c] ==> x in active || x == c;
    var t := Newest(Newest(active + [c]));
    assert forall x :: x in t ==> x in active + [c];
  }

  lemma ConsumeIds(hash: Hash, store: seq<Session>, token: string, rotate: bool, env: Env, id: string)
    requires |store| <= MAX_SESSIONS && id != env.draw.id && !Holds(store, id)
    ensures !Holds(Handle(hash, Consume(token, rotate), env, store).0, id)
    ensures ParseToken(token) == Some(id) ==> Handle(hash, Consume(token, rotate), env, store).1 == None
  {
    var sessions := Active(store, env.clock.before);
    ActiveMembers(store, env.clock.before);
    AcceptedIsHeld(hash, sessions, token, env.clock.now);
    var a := Accepted(hash, sessions, token, env.clock.now);
    if a.Some? && rotate {
      RotateEffect(hash, store, token, env, sessions, a.value);
      WithoutMembers(sessions, a.value.id);
    } else if a.Some? {
      TouchEffect(hash, store, token, env, sessions, a.value);
      ReplaceMembers(sessions, a.value.(lastUsedAt := Some(env.clock.now)));
    }
  }

  /** Once an issued session has left the store, for whatever reason, no continuation holds it again or accepts
      its token. */
  lemma {:induction false} GoneForGood(hash: Hash, w: World, run: seq<Happening>, id: string, token: string,
                                              rotate: bool, env: Env)
    requires Consistent(hash, w) && FreshRun(hash, w, run)
    requires IssueOf(w.issued, id) < |w.issued| && !Holds(w.store, id)
    requires ParseToken(token) == Some(id)
    ensures !Holds(Run(hash, w, run).store, id)
    ensures Handle(hash, Consume(token, rotate), env, Run(hash, w, run).store).1 == None
    decreases |run|
  {
    if run == [] {
      ActiveMembers(w.store, env.clock.before);
      FindMeaning(Active(w.store, env.clock.before), id);
    } else {
      HappenIsConsistent(hash, w, run[0]);
      StaysGone(hash, w, run[0], id);
      GoneForGood(hash, Happen(hash, w, run[0]), run[1..], id, token, rotate, env);
    }
  }

  lemma StaysGone(hash: Hash, w: World, h: Happening, id: string)
    requires |w.store| <= MAX_SESSIONS && FreshHappening(w, h)
    requires IssueOf(w.issued, id) < |w.issued| && !Holds(w.store, id)
    ensures var w' := Happen(hash, w, h); IssueOf(w'.issued, id) < |w'.issued| && !Holds(w'.store, id)
  {
    match h.ending
    case Completes(env) =>
      StepIds(hash, w.store, h.request, env, id);
      var w' := Step(hash, w, h.request, env);
      if w'.issued != w.issued { IssueOfGrows(w.issued, w'.issued[|w.issued|], id); }
    case WriteFails(env) =>
      ActiveMembers(w.store, env.clock.before);
      ActiveMembers(w.store, env.clock.now);
    case ReadFails =>
  }

  /** Rotation takes the presented session out of the store at once, and pushes no other unexpired one out. */
  lemma {:induction false} RotationRetires(hash: Hash, store: seq<Session>, token: string, env: Env, record: Session)
    requires |store| <= MAX_SESSIONS && env.draw.id != record.id
    requires Accepted(hash, Active(store, env.clock.before), token, env.clock.now) == Some(record)
    ensures var t := Handle(hash, Consume(token, true), env, store).0;
            && ParseToken(token) == Some(record.id) && !Holds(t, record.id)
            && (forall r :: r in store && r.expiresAt > env.clock.before && r.id != record.id ==> r in t)
            && (forall r :: r in t ==>
                  || (r in store && r.expiresAt > env.clock.before && r.id != record.id)
                  || Handle(hash, Consume(token, true), env, store).1 == Some(Grant(BuildToken(env.draw), r)))
  {
    var sessions := Active(store, env.clock.before);
    AcceptedIsHeld(hash, sessions, token, env.clock.now);
    ActiveMembers(store, env.clock.before);
    RotateEffect(hash, store, token, env, sessions, record);
    WithoutMembers(sessions, record.id);
  }

  /** Revocation takes exactly the presented session, and expired ones, out of the store. */
  lemma {:induction false} RevocationRetires(hash: Hash, store: seq<Session>, token: string, env: Env,
                                             sessions: seq<Session>, id: string, r: Session)
    requires |store| <= MAX_SESSIONS && ParseToken(token) == Some(id) && sessions == Active(store, env.clock.before)
    ensures var f := Find(sessions, id);
            var t := Handle(hash, Revoke(token), env, store).0;
            if f.Some? && f.value.tokenHash == hash(token) then r in t <==>
                r in store && r.expiresAt > env.clock.before && r.id != id
            else r in t <==> r in store && r.expiresAt > env.clock.before
  {
    ActiveMembers(store, env.clock.before);
    WithoutMembers(sessions, id);
    var f := Find(sessions, id);
    assert Handle(hash, Revoke(token), env, store).0
        == if f.Some? && f.value.tokenHash == hash(token) then Without(sessions, id) else sessions;
  }

  lemma SuffixDropsEarlier(issued: seq<Issue>, all: seq<Session>, dropped: Session, kept: Session)
    requires InOrder(issued, all) && dropped in all && dropped !in Newest(all)
    ensures |Newest(all)| == MAX_SESSIONS
    ensures kept in Newest(all) ==> IssueOf(issued, dropped.id) < IssueOf(issued, kept.id)
  {
    var k :| 0 <= k < |all| && all[k] == dropped;
    var n := |all| - MAX_SESSIONS;
    assert n > 0 && Newest(all) == all[n..];
    assert forall j :: n <= j < |all| ==> all[j] == all[n..][j - n];
    if kept in Newest(all) {
      var l :| 0 <= l < MAX_SESSIONS && all[n..][l] == kept;
      assert all[l + n] == kept;
    }
  }

  /** A login drops an unexpired session only when ten newer ones remain. */
  lemma {:induction false} CreateDropsOldest(hash: Hash, w: World, m: Metadata, env: Env, dropped: Session,
                                             kept: Session)
    requires Consistent(hash, w) && FreshDraw(w, env)
    requires dropped in w.store && dropped.expiresAt > env.clock.now
    ensures var w' := Step(hash, w, Create(m), env);
            dropped !in w'.store ==>
              |w'.store| == MAX_SESSIONS && (kept in w'.store ==>
                  IssueOf(w'.issued, dropped.id) < IssueOf(w'.issued, kept.id))
  {
    var w' := Step(hash, w, Create(m), env);
    var active := Active(w.store, env.clock.now);
    var r := BuildSession(hash, m, env.draw, env.clock.before).record;
    var more := Issue(env.draw.id, BuildToken(env.draw), env.clock.before, None);
    ActiveHeld(hash, w.issued, w.store, env.clock.now);
    AppendHeld(hash, w.issued, active, more, r);
    assert w'.store == Newest(active + [r]) && w'.issued == w.issued + [more];
    if dropped !in w'.store {
      SuffixDropsEarlier(w'.issued, active + [r], dropped, kept);
    }
  }

  // ---------------------------------------------------------------------------------------------
  // Concurrent requests
  // ---------------------------------------------------------------------------------------------

  /** A request as the promise chain runs it: a read, and then at most one overwrite. */
  function AsOperation(hash: Hash, r: Request): Operation<Env, seq<Session>, Option<Grant>> {
    (env: Env, store) => (AfterRead(r, env, store), Decide(hash, r, env, AfterRead(r, env, store)))
  }

  type SessionCall = Call<Env, seq<Session>, Option<Grant>>
  type SessionEvent = Event<Env, seq<Session>, Option<Grant>>
  type SessionSystem = System<Env, seq<Session>, Option<Grant>>

  /** The calls are those requests. */
  ghost predicate Submitted(hash: Hash, rs: seq<Request>, calls: seq<SessionCall>) {
    |rs| == |calls| && forall i :: 0 <= i < |rs| ==> Enters(rs[i]) && calls[i].operation == AsOperation(hash, rs[i])
  }

  ghost predicate SettledUpTo(calls: seq<SessionCall>, n: nat) {
    n <= |calls| && forall i :: 0 <= i < n ==> calls[i].phase.Settled?
  }

  function EndingOf(o: Outcome<Env, Option<Grant>>): Ending {
    match o
    case Fulfilled(env, _) => Completes(env)
    case WriteFailed(env) => WriteFails(env)
    case ReadFailed => ReadFails
  }

  /** The first `n` requests, in submission order, each with its ending. */
  ghost function Happenings(rs: seq<Request>, calls: seq<SessionCall>, n: nat): seq<Happening>
    requires |rs| == |calls| && SettledUpTo(calls, n)
  {
    seq(n, i requires 0 <= i < n => Happening(rs[i], EndingOf(calls[i].phase.outcome)))
  }

  /** The world once the first `n` requests have been handled one at a time. */
  ghost function WorldAfter(hash: Hash, w: World, rs: seq<Request>, calls: seq<SessionCall>, n: nat): World
    requires |rs| == |calls| && SettledUpTo(calls, n)
  {
    Run(hash, w, Happenings(rs, calls, n))
  }

  lemma {:induction false} SerialIsRun(hash: Hash, w: World, rs: seq<Request>, calls: seq<SessionCall>, n: nat)
    requires Submitted(hash, rs, calls) && SettledUpTo(calls, n)
    ensures Serial(w.store, calls, n) == WorldAfter(hash, w, rs, calls, n).store
  {
    if n > 0 {
      SerialIsRun(hash, w, rs, calls, n - 1);
      var (before, h) := (Happenings(rs, calls, n - 1), Happening(rs[n - 1], EndingOf(calls[n - 1].phase.outcome)));
      assert Happenings(rs, calls, n) == before + [h];
      RunConcat(hash, w, before, [h]);
      assert [h][1..] == [] && Run(hash, Run(hash, w, before), [h]) == Happen(hash, Run(hash, w, before), h);
    }
  }

  /** A fulfilled request's answer is the one it gets from the world that the requests before it have left. */
  ghost predicate AnswersAreSerial(hash: Hash, w: World, rs: seq<Request>, calls: seq<SessionCall>, n: nat)
    requires |rs| == |calls| && SettledUpTo(calls, n)
  {
    forall i :: 0 <= i < n && calls[i].phase.outcome.Fulfilled? ==>
      calls[i].phase.outcome.result
      == Handle(hash, rs[i], calls[i].phase.outcome.env, WorldAfter(hash, w, rs, calls, i).store).1
  }

  lemma SerialAnswers(hash: Hash, w: World, rs: seq<Request>, calls: seq<SessionCall>, n: nat)
    requires Submitted(hash, rs, calls) && SettledUpTo(calls, n) && ResultsAreSerial(w.store, calls, n)
    ensures AnswersAreSerial(hash, w, rs, calls, n)
  {
    forall i: nat | i <= n ensures Serial(w.store, calls, i) == WorldAfter(hash, w, rs, calls, i).store {
      SerialIsRun(hash, w, rs, calls, i);
    }
  }

  /** Concurrent create, consume and revoke requests, in every interleaving of their reads and writes and with
      whatever failures, leave the store and get the answers as if handled one at a time in submission order. */
  lemma SessionsAreSerializable(hash: Hash, w: World, run: seq<SessionEvent>, end: SessionSystem, rs: seq<Request>)
    requires Possible(Unused(w.store), run) && end == After(Unused(w.store), run)
    requires Submitted(hash, rs, end.calls) && SettledUpTo(end.calls, |rs|)
    ensures end.store == WorldAfter(hash, w, rs, end.calls, |rs|).store
    ensures AnswersAreSerial(hash, w, rs, end.calls, |rs|)
  {
    Serializable(w.store, run, end);
    SerialIsRun(hash, w, rs, end.calls, |rs|);
    SerialAnswers(hash, w, rs, end.calls, |rs|);
  }

  /** Draws are fresh, in whatever order the calls have been handled so far. */
  ghost predicate FreshCalls(hash: Hash, w: World, rs: seq<Request>, calls: seq<SessionCall>)
    requires |rs| == |calls|
  {
    forall n: nat :: SettledUpTo(calls, n) ==> FreshRun(hash, w, Happenings(rs, calls, n))
  }

  /** At every moment of every interleaving, failures included, the store holds at most ten sessions with distinct ids,
      in the order of issue, each expiring 30 days after its login: `n` requests have been handled, and at most the
      next one's read shows in the store. */
  lemma EveryMomentIsConsistent(hash: Hash, w: World, run: seq<SessionEvent>, sys: SessionSystem, rs: seq<Request>)
    returns (n: nat)
    requires Consistent(hash, w) && Possible(Unused(w.store), run) && sys == After(Unused(w.store), run)
    requires Submitted(hash, rs, sys.calls) && FreshCalls(hash, w, rs, sys.calls)
    ensures SettledUpTo(sys.calls, n) && forall i :: n <= i < |rs| ==> !sys.calls[i].phase.Settled?
    ensures AnswersAreSerial(hash, w, rs, sys.calls, n)
    ensures Consistent(hash, WorldAfter(hash, w, rs, sys.calls, n).(store := sys.store))
  {
    n := RunIsSerialized(w.store, Unused(w.store), 0, run);
    ChainedSettles(sys, n);
    SerialAnswers(hash, w, rs, sys.calls, n);
    SerializedIsConsistent(hash, w, rs, sys, n);
  }

  lemma ChainedSettles(sys: SessionSystem, n: nat)
    requires Chained(sys, n)
    ensures SettledUpTo(sys.calls, n) && forall i :: n <= i < |sys.calls| ==> !sys.calls[i].phase.Settled?
  {
  }

  lemma SerializedIsConsistent(hash: Hash, w: World, rs: seq<Request>, sys: SessionSystem, n: nat)
    requires Consistent(hash, w) && Serialized(w.store, sys, n)
    requires Submitted(hash, rs, sys.calls) && FreshCalls(hash, w, rs, sys.calls)
    ensures SettledUpTo(sys.calls, n)
    ensures Consistent(hash, WorldAfter(hash, w, rs, sys.calls, n).(store := sys.store))
  {
    assert SettledUpTo(sys.calls, n);
    SerialIsRun(hash, w, rs, sys.calls, n);
    RunIsConsistent(hash, w, Happenings(rs, sys.calls, n));
    ReadUnderWay(hash, WorldAfter(hash, w, rs, sys.calls, n), w.store, rs, sys, n);
  }

  lemma ReadUnderWay(hash: Hash, now: World, start: seq<Session>, rs: seq<Request>, sys: SessionSystem, n: nat)
    requires Submitted(hash, rs, sys.calls) && Serialized(start, sys, n) && Serial(start, sys.calls, n) == now.store
    requires Consistent(hash, now)
    ensures Consistent(hash, now.(store := sys.store))
  {
    if n < |rs| && sys.calls[n].phase.Planned? {
      var env := sys.calls[n].phase.env;
      assert AsOperation(hash, rs[n])(env, now.store) == (sys.store, sys.calls[n].phase.plan);
      ReadKeepsConsistent(hash, now, rs[n], env);
    }
  }

  /** And no interleaving ever accepts a token whose session had left the store: once it is gone after the first `i`
      requests, every later request to consume it is refused, whatever else fails or succeeds in between. */
  lemma DepartedIsRefused(hash: Hash, w: World, run: seq<SessionEvent>, sys: SessionSystem, rs: seq<Request>,
                          i: nat, j: nat, id: string)
    requires Consistent(hash, w) && Possible(Unused(w.store), run) && sys == After(Unused(w.store), run)
    requires Submitted(hash, rs, sys.calls) && FreshCalls(hash, w, rs, sys.calls)
    requires i <= j < |rs| && sys.calls[j].phase.Settled? && sys.calls[j].phase.outcome.Fulfilled?
    requires rs[j].Consume? && ParseToken(rs[j].token) == Some(id)
    requires SettledUpTo(sys.calls, i)
    requires var past := WorldAfter(hash, w, rs, sys.calls, i);
             IssueOf(past.issued, id) < |past.issued| && !Holds(past.store, id)
    ensures sys.calls[j].phase.outcome.result == None
  {
    var n := EveryMomentIsConsistent(hash, w, run, sys, rs);
    assert j < n && SettledUpTo(sys.calls, j);
    assert Happenings(rs, sys.calls, j)[..i] == Happenings(rs, sys.calls, i);
    RefusedAfter(hash, w, Happenings(rs, sys.calls, j), i, id, rs[j].token, rs[j].rotate,
                 sys.calls[j].phase.outcome.env);
  }

  lemma RefusedAfter(hash: Hash, w: World, run: seq<Happening>, i: nat, id: string, token: string, rotate: bool,
                     env: Env)
    requires Consistent(hash, w) && FreshRun(hash, w, run) && i <= |run| && ParseToken(token) == Some(id)
    requires var past := Run(hash, w, run[..i]); IssueOf(past.issued, id) < |past.issued| && !Holds(past.store, id)
    ensures Handle(hash, Consume(token, rotate), env, Run(hash, w, run).store).1 == None
  {
    assert run == run[..i] + run[i..];
    RunConcat(hash, w, run[..i], run[i..]);
    RunIsConsistent(hash, w, run[..i]);
    GoneForGood(hash, Run(hash, w, run[..i]), run[i..], id, token, rotate, env);
  }
}
