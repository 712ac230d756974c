/** From being issued to being refused: how long the tokens of src/user/AuthSessionManager.ts are accepted. */
module SessionLifetimes {
  import opened Wrappers
  import opened AuthSessions

  /** The expression that takes a token apart accepts exactly what building a token from a well-formed draw can give,
      and finds that draw's id. */
  lemma ParsesExactly(token: string, id: string)
    ensures ParseToken(token) == Some(id) <==> exists d :: WellFormedDraw(d) && BuildToken(d) == token && d.id == id
  {
    if d :| WellFormedDraw(d) && BuildToken(d) == token && d.id == id {
      TokenRoundTrip(d);
    }
    if ParseToken(token) == Some(id) {
      var d := Draw(token[11..47], token[48..]);
      assert token == token[..11] + token[11..47] + [token[47]] + token[48..];
      assert WellFormedDraw(d) && BuildToken(d) == token;
    }
  }

  // ---------------------------------------------------------------------------------------------
  // A token just handed out
  // ---------------------------------------------------------------------------------------------

  /** The clock shows a time before `end`, at both readings. */
  predicate BeforeTime(clock: Clock, end: int) {
    clock.before < end && clock.now < end
  }

  lemma {:induction false} NewestOfAppended(s: seq<Session>, r: Session)
    ensures Newest(s + [r]) != [] && Newest(s + [r])[|Newest(s + [r])| - 1] == r
    ensures Newest(Newest(s + [r])) == Newest(s + [r])
  {
  }

  /** Whoever presents the token of a held session gets an answer exactly before the session's end. */
  lemma HeldIsAccepted(hash: Hash, w: World, token: string, rotate: bool, env: Env, i: nat, r: Session)
    requires Consistent(hash, w) && i < |w.issued| && w.issued[i].token == token
    requires r in w.store && r.id == w.issued[i].id
    ensures r.expiresAt == Login(w.issued, i) + LIFETIME_MS
    ensures Handle(hash, Consume(token, rotate), env, w.store).1.Some? <==> BeforeTime(env.clock, r.expiresAt)
  {
    assert IssueOf(w.issued, r.id) == i && Backed(hash, w.issued, r);
    if BeforeTime(env.clock, r.expiresAt) {
      PresentableIsAccepted(hash, w, token, rotate, env, i);
    }
    if Handle(hash, Consume(token, rotate), env, w.store).1.Some? {
      var sessions := Active(w.store, env.clock.before);
      AcceptedIsHeld(hash, sessions, token, env.clock.now);
      ActiveMembers(w.store, env.clock.before);
      var a := Accepted(hash, sessions, token, env.clock.now).value;
      assert Backed(hash, w.issued, a) && IssueOf(w.issued, a.id) == i;
    }
  }

  /** A login hands out the token of the newest session held, and that token is accepted until the session is 30 days
      old, and not a moment longer. */
  lemma CreatedIsAccepted(hash: Hash, w: World, m: Metadata, env: Env, rotate: bool, later: Env)
    requires Consistent(hash, w) && FreshDraw(w, env)
    ensures var w' := Step(hash, w, Create(m), env);
            var g := Handle(hash, Create(m), env, w.store).1;
            && g.Some? && g.value.record.id == env.draw.id
            && w'.store != [] && w'.store[|w'.store| - 1] == g.value.record
            && (Handle(hash, Consume(g.value.token, rotate), later, w'.store).1.Some?
                <==> BeforeTime(later.clock, env.clock.before + LIFETIME_MS))
  {
    var w' := Step(hash, w, Create(m), env);
    var g := Handle(hash, Create(m), env, w.store).1.value;
    var n := |w.issued|;
    StepIsConsistent(hash, w, Create(m), env);
    NewestOfAppended(Active(w.store, env.clock.now), g.record);
    assert w'.issued[n] == Issue(env.draw.id, g.token, env.clock.before, None);
    HeldIsAccepted(hash, w', g.token, rotate, later, n, g.record);
  }

  /** What a login records. */
  lemma CreatedRecord(hash: Hash, store: seq<Session>, m: Metadata, env: Env)
    ensures var g := Handle(hash, Create(m), env, store).1;
            g.Some? &&
            var r := g.value.record;
            && r.tokenHash == hash(g.value.token) && r.createdAt == env.clock.before && r.lastUsedAt.None?
            && r.expiresAt == r.createdAt + LIFETIME_MS
            && r.userAgent <= m.userAgent && |r.userAgent| == (if |m.userAgent| < 200 then |m.userAgent| else 200)
            && r.ip <= m.ip && |r.ip| == (if |m.ip| < 100 then |m.ip| else 100)
  {
  }

  /** A fresh token, for a record that keeps the old session's end and where it came from. */
  ghost predicate Renews(hash: Hash, g: Grant, record: Session, env: Env) {
    var r := g.record;
    && g.token == BuildToken(env.draw)
    && r.id == env.draw.id && r.tokenHash == hash(g.token) && r.createdAt == env.clock.now
    && r.expiresAt == record.expiresAt && r.lastUsedAt.None?
    && (|record.userAgent| <= 200 ==> r.userAgent == record.userAgent)
    && (|record.ip| <= 100 ==> r.ip == record.ip)
  }

  /** What a rotation answers with, for the newest session held. */
  lemma RotatedRecord(hash: Hash, store: seq<Session>, token: string, env: Env, record: Session)
    requires |store| <= MAX_SESSIONS
    requires Accepted(hash, Active(store, env.clock.before), token, env.clock.now) == Some(record)
    ensures var after := Handle(hash, Consume(token, true), env, store);
            && after.1.Some? && Renews(hash, after.1.value, record, env)
            && after.0 != [] && after.0[|after.0| - 1] == after.1.value.record
  {
    var sessions := Active(store, env.clock.before);
    RotateEffect(hash, store, token, env, sessions, record);
    var r := BuildSession(hash, Metadata(record.userAgent, record.ip), env.draw, env.clock.now).record
             .(expiresAt := record.expiresAt);
    assert Renews(hash, Grant(BuildToken(env.draw), r), record, env);
    var kept := Without(sessions, record.id);
    assert (kept + [r])[|kept|] == r;
  }

  /** The token a rotation answers with is accepted exactly until the original login is 30 days old. */
  lemma RotatedIsAccepted(hash: Hash, w: World, token: string, env: Env, record: Session, rotate: bool, later: Env)
    requires Consistent(hash, w) && FreshDraw(w, env)
    requires Accepted(hash, Active(w.store, env.clock.before), token, env.clock.now) == Some(record)
    ensures var w' := Step(hash, w, Consume(token, true), env);
            var g := Handle(hash, Consume(token, true), env, w.store).1;
            var i := IssueOf(w.issued, record.id);
            && g.Some? && i < |w.issued|
            && (Handle(hash, Consume(g.value.token, rotate), later, w'.store).1.Some?
                <==> BeforeTime(later.clock, Login(w.issued, i) + LIFETIME_MS))
  {
    var w' := Step(hash, w, Consume(token, true), env);
    RotatedRecord(hash, w.store, token, env, record);
    var g := Handle(hash, Consume(token, true), env, w.store).1.value;
    StepIsConsistent(hash, w, Consume(token, true), env);
    RotatedFrom(hash, w, token, env, record);
    HeldIsAccepted(hash, w', g.token, rotate, later, |w.issued|, g.record);
  }

  lemma RotatedFrom(hash: Hash, w: World, token: string, env: Env, record: Session)
    requires Consistent(hash, w)
    requires Accepted(hash, Active(w.store, env.clock.before), token, env.clock.now) == Some(record)
    ensures var i := IssueOf(w.issued, record.id);
            && i < |w.issued| && record.expiresAt == Login(w.issued, i) + LIFETIME_MS
            && Issued(hash, w, Consume(token, true), env)
               == [Issue(env.draw.id, BuildToken(env.draw), env.clock.now, Some(i))]
  {
    AcceptedIsHeld(hash, Active(w.store, env.clock.before), token, env.clock.now);
    ActiveMembers(w.store, env.clock.before);
    assert Backed(hash, w.issued, record);
  }

  // ---------------------------------------------------------------------------------------------
  // When a session ends
  // ---------------------------------------------------------------------------------------------

  /** How many sessions stand behind the one with this id, that is, were issued later. */
  function Newer(s: seq<Session>, id: string): nat {
    if s == [] then 0 else if s[0].id == id then |s| - 1 else Newer(s[1..], id)
  }

  /** Exactly what ends the held session `r`: any read once its 30 days are over; a login when nine newer unexpired
      sessions are held already; its own rotation; its own revocation; revoking all. */
  predicate Ends(hash: Hash, store: seq<Session>, h: Happening, r: Session) {
    match h.ending
    case ReadFails => false
    case WriteFails(env) => Enters(h.request) && ReadAfter(h.request, env, r.expiresAt)
    case Completes(env) =>
      Enters(h.request) &&
      (|| ReadAfter(h.request, env, r.expiresAt)
       || match h.request
          case Create(_) => Newer(Active(store, env.clock.now), r.id) >= MAX_SESSIONS - 1
          case Consume(token, rotate) =>
            rotate && ParseToken(token) == Some(r.id) && hash(token) == r.tokenHash && env.clock.now < r.expiresAt
          case Revoke(token) => ParseToken(token) == Some(r.id) && hash(token) == r.tokenHash
          case RevokeAll => true)
  }

  /** The request's read comes at or after that time; revoking all does not read. */
  predicate ReadAfter(r: Request, env: Env, end: int) {
    match r
    case Create(_) => end <= env.clock.now
    case RevokeAll => false
    case _ => end <= env.clock.before
  }

  ghost predicate DistinctIds(s: seq<Session>) {
    forall k, l :: 0 <= k < l < |s| ==> s[k].id != s[l].id
  }

  lemma FoundAlone(s: seq<Session>, r: Session)
    requires DistinctIds(s) && r in s
    ensures Find(s, r.id) == Some(r)
  {
    FindMeaning(s, r.id);
  }

  lemma NewerFirst(s: seq<Session>, id: string)
    requires DistinctIds(s) && Holds(s, id)
    ensures Newer(s, id) < |s|
    ensures Newer(s, id) == |s| - 1 <==> s[0].id == id
  {
    if s[0].id != id {
      assert s == [s[0]] + s[1..];
      HoldsCons(s[0], s[1..], id);
      NewerFirst(s[1..], id);
    }
  }

  lemma AppendHolds(s: seq<Session>, c: Session, id: string)
    ensures Holds(s + [c], id) <==> Holds(s, id) || c.id == id
  {
    var t := s + [c];
    assert t[|s|] == c;
    if Holds(s, id) {
      var r :| r in s && r.id == id;
      assert r in t;
    }
  }

  lemma HeadIsAlone(s: seq<Session>)
    requires DistinctIds(s) && s != []
    ensures !Holds(s[1..], s[0].id)
  {
    forall r | r in s[1..] ensures r.id != s[0].id {
      var j :| 0 <= j < |s[1..]| && s[1..][j] == r;
      assert s[0].id != s[j + 1].id;
    }
  }

  lemma CreatedHolds(s: seq<Session>, c: Session, id: string)
    requires DistinctIds(s) && |s| <= MAX_SESSIONS && Holds(s, id) && c.id != id
    ensures Holds(Newest(Newest(s + [c])), id) <==> Newer(s, id) < MAX_SESSIONS - 1
  {
    NewerFirst(s, id);
    if |s| < MAX_SESSIONS {
      assert Newest(Newest(s + [c])) == s + [c];
      AppendHolds(s, c, id);
    } else {
      assert Newest(Newest(s + [c])) == s[1..] + [c];
      AppendHolds(s[1..], c, id);
      assert s == [s[0]] + s[1..];
      HoldsCons(s[0], s[1..], id);
      HeadIsAlone(s);
    }
  }

  lemma ConsistentIsDistinct(hash: Hash, w: World, s: seq<Session>)
    requires Rooted(w.issued) && Held(hash, w.issued, s)
    ensures DistinctIds(s)
  {
    forall k, l | 0 <= k < l < |s| ensures s[k].id != s[l].id {
      assert IssueOf(w.issued, s[k].id) < IssueOf(w.issued, s[l].id);
    }
  }

  lemma IssuedIsNotDrawn(hash: Hash, w: World, env: Env, r: Session)
    requires Consistent(hash, w) && FreshDraw(w, env) && r in w.store
    ensures r.id != env.draw.id && IssueOf(w.issued, r.id) < |w.issued|
  {
    assert Backed(hash, w.issued, r);
  }

  lemma ActiveHolds(s: seq<Session>, now: int, r: Session)
    requires DistinctIds(s) && r in s
    ensures Holds(Active(s, now), r.id) <==> now < r.expiresAt
  {
    ActiveMembers(s, now);
    if Holds(Active(s, now), r.id) {
      var x :| x in Active(s, now) && x.id == r.id;
      assert x == r by { FoundAlone(s, x); FoundAlone(s, r); }
    }
  }

  lemma CreateEnds(hash: Hash, w: World, m: Metadata, env: Env, r: Session)
    requires Consistent(hash, w) && FreshDraw(w, env) && r in w.store
    ensures Holds(Handle(hash, Create(m), env, w.store).0, r.id)
       <==> !Ends(hash, w.store, Happening(Create(m), Completes(env)), r)
  {
    var active := Active(w.store, env.clock.now);
    ConsistentIsDistinct(hash, w, w.store);
    ActiveHeld(hash, w.issued, w.store, env.clock.now);
    ConsistentIsDistinct(hash, w, active);
    ActiveHolds(w.store, env.clock.now, r);
    IssuedIsNotDrawn(hash, w, env, r);
    var c := BuildSession(hash, m, env.draw, env.clock.before).record;
    if Holds(active, r.id) {
      CreatedHolds(active, c, r.id);
    } else {
      NewestMembers(active + [c]);
      assert forall x :: x in active + [c] ==> x in active || x == c;
    }
  }

  lemma NewestMembers(s: seq<Session>)
    ensures forall r :: r in Newest(Newest(s)) ==> r in s
  {
  }

  /** What a read leaves of a held session. */
  lemma ReadFacts(hash: Hash, w: World, now: int, r: Session)
    requires Consistent(hash, w) && r in w.store
    ensures Holds(Active(w.store, now), r.id) <==> now < r.expiresAt
    ensures now < r.expiresAt ==> Find(Active(w.store, now), r.id) == Some(r)
    ensures !(now < r.expiresAt) ==> Find(Active(w.store, now), r.id) == None
    ensures |Active(w.store, now)| <= MAX_SESSIONS
  {
    var active := Active(w.store, now);
    ConsistentIsDistinct(hash, w, w.store);
    ActiveHeld(hash, w.issued, w.store, now);
    ConsistentIsDistinct(hash, w, active);
    ActiveHolds(w.store, now, r);
    FindMeaning(active, r.id);
    if now < r.expiresAt { FoundAlone(active, r); }
  }

  lemma ConsumeEnds(hash: Hash, w: World, token: string, rotate: bool, env: Env, r: Session)
    requires Consistent(hash, w) && FreshDraw(w, env) && r in w.store && ParseToken(token).Some?
    ensures Holds(Handle(hash, Consume(token, rotate), env, w.store).0, r.id)
       <==> !Ends(hash, w.store, Happening(Consume(token, rotate), Completes(env)), r)
  {
    var active := Active(w.store, env.clock.before);
    ReadFacts(hash, w, env.clock.before, r);
    IssuedIsNotDrawn(hash, w, env, r);
    AcceptedIsHeld(hash, active, token, env.clock.now);
    var a := Accepted(hash, active, token, env.clock.now);
    if a.Some? && rotate {
      RotateEffect(hash, w.store, token, env, active, a.value);
      RotatedHolds(active, a.value, Handle(hash, Consume(token, true), env, w.store).1.value.record, r.id);
    } else if a.Some? {
      TouchEffect(hash, w.store, token, env, active, a.value);
      ReplaceMembers(active, a.value.(lastUsedAt := Some(env.clock.now)));
    }
  }

  lemma RotatedHolds(s: seq<Session>, record: Session, c: Session, id: string)
    requires c.id != id
    ensures Holds(Without(s, record.id) + [c], id) <==> Holds(s, id) && id != record.id
  {
    AppendHolds(Without(s, record.id), c, id);
    WithoutHolds(s, record.id, id);
  }

  lemma RevokeEnds(hash: Hash, w: World, token: string, env: Env, r: Session)
    requires Consistent(hash, w) && r in w.store && ParseToken(token).Some?
    ensures Holds(Handle(hash, Revoke(token), env, w.store).0, r.id)
       <==> !Ends(hash, w.store, Happening(Revoke(token), Completes(env)), r)
  {
    var (active, id) := (Active(w.store, env.clock.before), ParseToken(token).value);
    ReadFacts(hash, w, env.clock.before, r);
    RevokedStore(hash, w.store, token, env, active, id);
    WithoutHolds(active, id, r.id);
  }

  lemma RevokedStore(hash: Hash, store: seq<Session>, token: string, env: Env, active: seq<Session>, id: string)
    requires |store| <= MAX_SESSIONS && active == Active(store, env.clock.before) && ParseToken(token) == Some(id)
    ensures Handle(hash, Revoke(token), env, store).0
         == if Find(active, id).Some? && hash(token) == Find(active, id).value.tokenHash then Without(active, id)
            else active
  {
    ActiveMembers(store, env.clock.before);
    WithoutMembers(active, id);
  }

  lemma WithoutHolds(s: seq<Session>, gone: string, id: string)
    ensures Holds(Without(s, gone), id) <==> Holds(s, id) && id != gone
  {
    WithoutMembers(s, gone);
  }

  /** Whatever happens, a held session stays held exactly if it is not among the things that end it. */
  lemma EndsExactly(hash: Hash, w: World, h: Happening, r: Session)
    requires Consistent(hash, w) && FreshHappening(w, h) && r in w.store
    ensures Holds(Happen(hash, w, h).store, r.id) <==> !Ends(hash, w.store, h, r)
  {
    match h.ending
    case ReadFails =>
    case WriteFails(env) => FailedWriteEnds(hash, w, h.request, env, r);
    case Completes(env) => if Enters(h.request) { CompletedEnds(hash, w, h.request, env, r); }
  }

  lemma FailedWriteEnds(hash: Hash, w: World, request: Request, env: Env, r: Session)
    requires Consistent(hash, w) && r in w.store
    ensures Holds(Happen(hash, w, Happening(request, WriteFails(env))).store, r.id)
       <==> !Ends(hash, w.store, Happening(request, WriteFails(env)), r)
  {
    ReadFacts(hash, w, env.clock.before, r);
    ReadFacts(hash, w, env.clock.now, r);
  }

  lemma CompletedEnds(hash: Hash, w: World, request: Request, env: Env, r: Session)
    requires Consistent(hash, w) && FreshDraw(w, env) && r in w.store && Enters(request)
    ensures Holds(Handle(hash, request, env, w.store).0, r.id)
       <==> !Ends(hash, w.store, Happening(request, Completes(env)), r)
  {
    match request
    case Create(m) => CreateEnds(hash, w, m, env, r);
    case Consume(token, rotate) => ConsumeEnds(hash, w, token, rotate, env, r);
    case Revoke(token) => RevokeEnds(hash, w, token, env, r);
    case RevokeAll =>
  }

  /** Nothing in the run ends the session. */
  ghost predicate NeverEnds(hash: Hash, w: World, run: seq<Happening>, id: string)
    decreases |run|
  {
    run == [] ||
    (&& (forall r :: r in w.store && r.id == id ==> !Ends(hash, w.store, run[0], r))
     && NeverEnds(hash, Happen(hash, w, run[0]), run[1..], id))
  }

  lemma {:induction false} HeldThroughRun(hash: Hash, w: World, run: seq<Happening>, id: string)
    requires Consistent(hash, w) && FreshRun(hash, w, run) && Holds(w.store, id)
    ensures Holds(Run(hash, w, run).store, id) <==> NeverEnds(hash, w, run, id)
    decreases |run|
  {
    if run != [] {
      var r :| r in w.store && r.id == id;
      ConsistentIsDistinct(hash, w, w.store);
      assert forall x :: x in w.store && x.id == id ==> x == r;
      EndsExactly(hash, w, run[0], r);
      HappenIsConsistent(hash, w, run[0]);
      assert Backed(hash, w.issued, r);
      IssuesStay(hash, w, run[0], id);
      var w' := Happen(hash, w, run[0]);
      if Holds(w'.store, id) {
        HeldThroughRun(hash, w', run[1..], id);
      } else {
        GoneThroughRun(hash, w', run[1..], id);
      }
    }
  }

  lemma IssuesStay(hash: Hash, w: World, h: Happening, id: string)
    requires IssueOf(w.issued, id) < |w.issued|
    ensures var w' := Happen(hash, w, h);
            IssueOf(w'.issued, id) == IssueOf(w.issued, id) && |w.issued| <= |w'.issued|
            && w'.issued[..|w.issued|] == w.issued
  {
    var w' := Happen(hash, w, h);
    if w'.issued != w.issued {
      assert w'.issued == w.issued + [w'.issued[|w.issued|]];
      IssueOfGrows(w.issued, w'.issued[|w.issued|], id);
    }
  }

  lemma {:induction false} GoneThroughRun(hash: Hash, w: World, run: seq<Happening>, id: string)
    requires Consistent(hash, w) && FreshRun(hash, w, run) && IssueOf(w.issued, id) < |w.issued| && !Holds(w.store, id)
    ensures !Holds(Run(hash, w, run).store, id)
    decreases |run|
  {
    if run != [] {
      HappenIsConsistent(hash, w, run[0]);
      StaysGone(hash, w, run[0], id);
      GoneThroughRun(hash, Happen(hash, w, run[0]), run[1..], id);
    }
  }

  lemma {:induction false} LoginStays(hash: Hash, w: World, run: seq<Happening>, i: nat)
    requires Consistent(hash, w) && FreshRun(hash, w, run) && i < |w.issued|
    ensures var end := Run(hash, w, run);
            Consistent(hash, end) && i < |end.issued| && end.issued[i] == w.issued[i]
            && Login(end.issued, i) == Login(w.issued, i)
    decreases |run|
  {
    if run != [] {
      var w' := Happen(hash, w, run[0]);
      HappenIsConsistent(hash, w, run[0]);
      if w'.issued != w.issued {
        assert w'.issued == w.issued + [w'.issued[|w.issued|]];
        LoginGrows(w.issued, w'.issued[|w.issued|], i);
      }
      LoginStays(hash, w', run[1..], i);
    }
  }

  /** The whole life of a token: presented after any run, whichever reads and writes failed, it is accepted if and only
      if nothing in the run ended its session and its login is less than 30 days old. */
  lemma AcceptedAfterRun(hash: Hash, w: World, run: seq<Happening>, i: nat, rotate: bool, env: Env)
    requires Consistent(hash, w) && FreshRun(hash, w, run) && i < |w.issued| && Holds(w.store, w.issued[i].id)
    ensures Handle(hash, Consume(w.issued[i].token, rotate), env, Run(hash, w, run).store).1.Some?
       <==> NeverEnds(hash, w, run, w.issued[i].id) && BeforeTime(env.clock, Login(w.issued, i) + LIFETIME_MS)
  {
    var (id, end) := (w.issued[i].id, Run(hash, w, run));
    HeldThroughRun(hash, w, run, id);
    LoginStays(hash, w, run, i);
    if Holds(end.store, id) {
      var r :| r in end.store && r.id == id;
      HeldIsAccepted(hash, end, w.issued[i].token, rotate, env, i, r);
    } else {
      NotHeldIsRefused(hash, end.store, w.issued[i].token, id, rotate, env);
    }
  }

  lemma NotHeldIsRefused(hash: Hash, store: seq<Session>, token: string, id: string, rotate: bool, env: Env)
    requires ParseToken(token) == Some(id) && !Holds(store, id)
    ensures Handle(hash, Consume(token, rotate), env, store).1 == None
  {
    ActiveMembers(store, env.clock.before);
    FindMeaning(Active(store, env.clock.before), id);
  }

  lemma {:induction false} Climbs(issued: seq<Issue>, s: seq<Session>, k: nat)
    requires InOrder(issued, s) && k < |s|
    ensures IssueOf(issued, s[0].id) + k <= IssueOf(issued, s[k].id)
  {
    if k > 0 {
      Climbs(issued, s, k - 1);
    }
  }

  /** A login pushes an unexpired session out only as at least the tenth token issued after its own, counting rotations
      as well as logins. */
  lemma PushedOutByTen(hash: Hash, w: World, m: Metadata, env: Env, r: Session)
    requires Consistent(hash, w) && FreshDraw(w, env) && r in w.store && env.clock.now < r.expiresAt
    ensures Ends(hash, w.store, Happening(Create(m), Completes(env)), r) ==>
              IssueOf(w.issued, r.id) + MAX_SESSIONS <= |Step(hash, w, Create(m), env).issued| - 1
  {
    var active := Active(w.store, env.clock.now);
    if Ends(hash, w.store, Happening(Create(m), Completes(env)), r) {
      ConsistentIsDistinct(hash, w, w.store);
      ActiveHeld(hash, w.issued, w.store, env.clock.now);
      ConsistentIsDistinct(hash, w, active);
      ActiveHolds(w.store, env.clock.now, r);
      NewerFirst(active, r.id);
      Climbs(w.issued, active, MAX_SESSIONS - 1);
      assert active[MAX_SESSIONS - 1] in active && Backed(hash, w.issued, active[MAX_SESSIONS - 1]);
    }
  }

  // ---------------------------------------------------------------------------------------------
  // A check that does not rotate
  // ---------------------------------------------------------------------------------------------

  lemma {:induction false} ReplacedExactly(s: seq<Session>, r: Session, k: nat)
    requires k < |s|
    ensures |Replace(s, r)| == |s| && Replace(s, r)[k] == if s[k].id == r.id then r else s[k]
  {
    if k > 0 {
      ReplacedExactly(s[1..], r, k - 1);
    } else if |s| > 1 {
      ReplacedExactly(s[1..], r, 0);
    }
  }

  /** A check of an accepted token answers with that token and its record. What the store then holds is what the read
      left, place by place, except that the presented session has been used now, if it had not been within the last
      five minutes. */
  lemma TouchedExactly(hash: Hash, store: seq<Session>, token: string, env: Env, active: seq<Session>, record: Session,
                       k: nat)
    requires active == Active(store, env.clock.before) && |store| <= MAX_SESSIONS && k < |active|
    requires Accepted(hash, active, token, env.clock.now) == Some(record)
    ensures var (t, g) := Handle(hash, Consume(token, false), env, store);
            var fresh? := record.lastUsedAt.Some? && env.clock.now < record.lastUsedAt.value + TOUCH_INTERVAL_MS;
            var used := if fresh? then record else record.(lastUsedAt := Some(env.clock.now));
            && g == Some(Grant(token, used)) && |t| == |active|
            && t[k] == (if active[k].id == record.id && !fresh? then used else active[k])
  {
    TouchEffect(hash, store, token, env, active, record);
    ReplacedExactly(active, record.(lastUsedAt := Some(env.clock.now)), k);
  }
}
