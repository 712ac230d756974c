/** The stored agent deployment requests of src/datastore/DataStore.ts: pruning by age and number, and replacing
legacy raw idempotency keys by their hash.

`Date.parse` is a parameter that gives a time in milliseconds, or nothing for an unreadable date. Whatever was
persisted may be no array at all, and its elements may be no requests. */
module AgentRequests {
  import opened Wrappers

  const MAX_REQUESTS := 500
  const MAX_AGE_MS := 30 * 24 * 60 * 60 * 1000

  /** `idempotencyKey` is present when it is a string; an absent hash is the empty string. */
  datatype Request = Request(id: string, createdAt: string, updatedAt: string, idempotencyKey: Option<string>,
                             idempotencyKeyHash: string)

  datatype Entry = Junk | Entry(request: Request)

  datatype Stored = NotAnArray | Array(entries: seq<Entry>)

  type Parse = string -> Option<int>
  type Hash = string -> string

  function Timestamp(parse: Parse, r: Request): Option<int> {
    parse(if r.updatedAt != "" then r.updatedAt else r.createdAt)
  }

  function AsStored(rs: seq<Request>): Stored {
    Array(seq(|rs|, i requires 0 <= i < |rs| => Entry(rs[i])))
  }

  // ---------------------------------------------------------------------------------------------
  // Pruning
  // ---------------------------------------------------------------------------------------------

  predicate Recent(parse: Parse, now: int, r: Request) {
    Timestamp(parse, r).Some? && now - Timestamp(parse, r).value <= MAX_AGE_MS
  }

  function Retained(parse: Parse, now: int, entries: seq<Entry>): seq<Request> {
    if entries == [] then []
    else (if entries[0].Entry? && Recent(parse, now, entries[0].request) then [entries[0].request] else [])
         + Retained(parse, now, entries[1..])
  }

  /** The time of a request with a readable date. */
  function Time(parse: Parse, r: Request): int {
    var t := Timestamp(parse, r);
    if t.Some? then t.value else 0
  }

  function Insert(parse: Parse, r: Request, sorted: seq<Request>): seq<Request> {
    if sorted == [] || Time(parse, r) <= Time(parse, sorted[0]) then [r] + sorted
    else [sorted[0]] + Insert(parse, r, sorted[1..])
  }

  /** The stable ascending sort. */
  function Sort(parse: Parse, rs: seq<Request>): seq<Request> {
    if rs == [] then [] else Insert(parse, rs[0], Sort(parse, rs[1..]))
  }

  function Prune(parse: Parse, now: int, value: Stored): seq<Request> {
    if value.NotAnArray? then []
    else
      var retained := Retained(parse, now, value.entries);
      if |retained| <= MAX_REQUESTS then retained
      else
        var sorted := Sort(parse, retained);
        assert |sorted| == |retained| by { SortMeaning(parse, retained); }
        sorted[|sorted| - MAX_REQUESTS..]
  }

  ghost predicate Ascending(parse: Parse, rs: seq<Request>) {
    forall i, j :: 0 <= i < j < |rs| ==> Time(parse, rs[i]) <= Time(parse, rs[j])
  }

  lemma {:induction false} InsertMembers(parse: Parse, r: Request, sorted: seq<Request>)
    ensures multiset(Insert(parse, r, sorted)) == multiset(sorted) + multiset{r}
    ensures forall x :: x in Insert(parse, r, sorted) <==> x == r || x in sorted
  {
    if sorted != [] {
      assert sorted == [sorted[0]] + sorted[1..];
      InsertMembers(parse, r, sorted[1..]);
    }
  }

  lemma AscendingCons(parse: Parse, x: Request, rest: seq<Request>)
    requires Ascending(parse, rest) && forall y :: y in rest ==> Time(parse, x) <= Time(parse, y)
    ensures Ascending(parse, [x] + rest)
  {
    assert forall j :: 0 <= j < |rest| ==> rest[j] in rest;
  }

  lemma {:induction false} InsertMeaning(parse: Parse, r: Request, sorted: seq<Request>)
    requires Ascending(parse, sorted)
    ensures Ascending(parse, Insert(parse, r, sorted))
  {
    if sorted != [] {
      assert Ascending(parse, sorted[1..]) && forall y :: y in sorted ==> Time(parse, sorted[0]) <= Time(parse, y);
      if Time(parse, r) <= Time(parse, sorted[0]) {
        AscendingCons(parse, r, sorted);
      } else {
        InsertMeaning(parse, r, sorted[1..]);
        InsertMembers(parse, r, sorted[1..]);
        AscendingCons(parse, sorted[0], Insert(parse, r, sorted[1..]));
      }
    }
  }

  lemma {:induction false} SortMeaning(parse: Parse, rs: seq<Request>)
    ensures Ascending(parse, Sort(parse, rs))
    ensures multiset(Sort(parse, rs)) == multiset(rs)
    ensures |Sort(parse, rs)| == |rs|
  {
    if rs != [] {
      SortMeaning(parse, rs[1..]);
      assert rs == [rs[0]] + rs[1..];
      InsertMeaning(parse, rs[0], Sort(parse, rs[1..]));
      InsertMembers(parse, rs[0], Sort(parse, rs[1..]));
    }
    assert |multiset(Sort(parse, rs))| == |multiset(rs)|;
  }

  lemma {:induction false} RetainedMeaning(parse: Parse, now: int, entries: seq<Entry>)
    ensures forall r :: r in Retained(parse, now, entries) <==> Entry(r) in entries && Recent(parse, now, r)
    ensures |Retained(parse, now, entries)| <= |entries|
  {
    if entries != [] {
      assert entries == [entries[0]] + entries[1..];
      RetainedMeaning(parse, now, entries[1..]);
    }
  }

  /** `kept` are the newest of `from`: no more than there are, and no newer one is left out. */
  ghost predicate Newest(parse: Parse, kept: seq<Request>, from: seq<Request>) {
    && multiset(kept) <= multiset(from)
    && (forall d, k :: d in multiset(from) - multiset(kept) && k in kept ==> Time(parse, d) <= Time(parse, k))
  }

  lemma SortedEndIsNewest(parse: Parse, from: seq<Request>, n: nat)
    requires n <= |Sort(parse, from)|
    ensures Newest(parse, Sort(parse, from)[n..], from) && Ascending(parse, Sort(parse, from)[n..])
  {
    SortMeaning(parse, from);
    NewestEnd(parse, Sort(parse, from), n);
  }

  lemma NewestAreMembers(parse: Parse, kept: seq<Request>, from: seq<Request>)
    requires Newest(parse, kept, from)
    ensures forall r :: r in kept ==> r in from
  {
    forall r | r in kept ensures r in from { assert r in multiset(kept) && r in multiset(from); }
  }

  /** Pruning keeps the newest 500 of the requests no older than 30 days: nothing else is kept, as many are kept
      as there are up to 500, and whatever recent request is dropped is no newer than any that is kept. */
  lemma {:induction false} PruneKeepsNewest(parse: Parse, now: int, entries: seq<Entry>)
    ensures var retained := Retained(parse, now, entries);
            var kept := Prune(parse, now, Array(entries));
            && Newest(parse, kept, retained)
            && |kept| == (if |retained| <= MAX_REQUESTS then |retained| else MAX_REQUESTS)
            && (if |retained| <= MAX_REQUESTS then kept == retained else Ascending(parse, kept))
            && (forall r :: r in kept ==> Entry(r) in entries && Recent(parse, now, r))
  {
    var retained := Retained(parse, now, entries);
    if |retained| <= MAX_REQUESTS {
      AllAreNewest(parse, retained);
    } else {
      SortMeaning(parse, retained);
      LongPrune(parse, retained, |retained| - MAX_REQUESTS, Prune(parse, now, Array(entries)));
      NewestAreMembers(parse, Prune(parse, now, Array(entries)), retained);
    }
    RetainedMeaning(parse, now, entries);
  }

  lemma AllAreNewest(parse: Parse, rs: seq<Request>)
    ensures Newest(parse, rs, rs)
  {
    assert multiset(rs) - multiset(rs) == multiset{};
  }

  lemma {:induction false} LongPrune(parse: Parse, retained: seq<Request>, n: nat, kept: seq<Request>)
    requires n + MAX_REQUESTS == |Sort(parse, retained)| && kept == Sort(parse, retained)[n..]
    ensures Newest(parse, kept, retained) && |kept| == MAX_REQUESTS && Ascending(parse, kept)
  {
    SortedEndIsNewest(parse, retained, n);
  }

  lemma NewestEnd(parse: Parse, sorted: seq<Request>, n: nat)
    requires Ascending(parse, sorted) && n <= |sorted|
    ensures Ascending(parse, sorted[n..])
    ensures multiset(sorted[n..]) <= multiset(sorted)
    ensures forall d, k :: d in multiset(sorted) - multiset(sorted[n..]) && k in sorted[n..] ==>
            Time(parse, d) <= Time(parse, k)
  {
    Partition(sorted[..n], sorted[n..]);
    assert sorted == sorted[..n] + sorted[n..];
    forall d, k | d in sorted[..n] && k in sorted[n..] ensures Time(parse, d) <= Time(parse, k) {
      EarlierIsOlder(parse, sorted, n, d, k);
    }
  }

  lemma EarlierIsOlder(parse: Parse, sorted: seq<Request>, n: nat, d: Request, k: Request)
    requires Ascending(parse, sorted) && n <= |sorted| && d in sorted[..n] && k in sorted[n..]
    ensures Time(parse, d) <= Time(parse, k)
  {
    var i :| 0 <= i < n && sorted[..n][i] == d;
    var j :| 0 <= j < |sorted| - n && sorted[n..][j] == k;
    assert sorted[i] == d && sorted[n + j] == k;
  }

  lemma Partition(a: seq<Request>, b: seq<Request>)
    ensures multiset(b) <= multiset(a + b)
    ensures forall r :: r in multiset(a + b) - multiset(b) <==> r in a
  {
    assert multiset(a + b) - multiset(b) == multiset(a);
  }

  lemma {:induction false} RetainedAll(parse: Parse, now: int, rs: seq<Request>)
    requires forall r :: r in rs ==> Recent(parse, now, r)
    ensures Retained(parse, now, AsStored(rs).entries) == rs
  {
    if rs != [] {
      assert AsStored(rs).entries[1..] == AsStored(rs[1..]).entries;
      RetainedAll(parse, now, rs[1..]);
    }
  }

  /** A request's age is that of its last update, whenever it was created; one never updated is as old as its creation;
      an unreadable date is no date. */
  lemma RecentExactly(parse: Parse, now: int, r: Request, createdAt: string)
    ensures r.updatedAt != "" ==>
              && (Recent(parse, now, r) <==> exists t :: parse(r.updatedAt) == Some(t) && now <= t + MAX_AGE_MS)
              && Time(parse, r.(createdAt := createdAt)) == Time(parse, r)
    ensures r.updatedAt == "" ==>
              (Recent(parse, now, r) <==> exists t :: parse(r.createdAt) == Some(t) && now <= t + MAX_AGE_MS)
  {
    var date := if r.updatedAt != "" then r.updatedAt else r.createdAt;
    if Recent(parse, now, r) {
      assert parse(date) == Some(parse(date).value);
    }
  }

  function OfTime(parse: Parse, rs: seq<Request>, t: int): seq<Request> {
    if rs == [] then [] else (if Time(parse, rs[0]) == t then [rs[0]] else []) + OfTime(parse, rs[1..], t)
  }

  lemma {:induction false} InsertIsStable(parse: Parse, r: Request, sorted: seq<Request>, t: int)
    requires Ascending(parse, sorted)
    ensures OfTime(parse, Insert(parse, r, sorted), t) == OfTime(parse, [r] + sorted, t)
  {
    assert ([r] + sorted)[1..] == sorted;
    if sorted != [] && Time(parse, sorted[0]) < Time(parse, r) {
      var (x, rest) := (sorted[0], sorted[1..]);
      assert sorted == [x] + rest && Ascending(parse, rest);
      InsertIsStable(parse, r, rest, t);
      assert ([r] + rest)[1..] == rest;
      assert ([x] + Insert(parse, r, rest))[1..] == Insert(parse, r, rest);
    }
  }

  /** Sorting keeps requests of the same time in the order they were stored in. */
  lemma {:induction false} SortIsStable(parse: Parse, rs: seq<Request>, t: int)
    ensures OfTime(parse, Sort(parse, rs), t) == OfTime(parse, rs, t)
  {
    if rs != [] {
      var (r, rest) := (rs[0], Sort(parse, rs[1..]));
      SortMeaning(parse, rs[1..]);
      SortIsStable(parse, rs[1..], t);
      InsertIsStable(parse, r, rest, t);
      assert ([r] + rest)[1..] == rest;
    }
  }

  /** Pruning again at the same time changes nothing. */
  lemma PruneTwice(parse: Parse, now: int, value: Stored)
    ensures Prune(parse, now, AsStored(Prune(parse, now, value))) == Prune(parse, now, value)
  {
    if value.Array? {
      PruneKeepsNewest(parse, now, value.entries);
    }
    RetainedAll(parse, now, Prune(parse, now, value));
  }

  // ---------------------------------------------------------------------------------------------
  // Migration
  // ---------------------------------------------------------------------------------------------

  function MigrateOne(hash: Hash, r: Request): Request {
    if r.idempotencyKey.None? || r.idempotencyKeyHash != "" then r
    else r.(idempotencyKeyHash := hash(r.idempotencyKey.value), idempotencyKey := None)
  }

  function Migrate(hash: Hash, rs: seq<Request>): seq<Request> {
    seq(|rs|, i requires 0 <= i < |rs| => MigrateOne(hash, rs[i]))
  }

  /** Migration keeps the list's order and every other field; it removes a raw key exactly from requests without
      a hash, so a raw key stays only next to a hash that was already there; and it is idempotent. */
  lemma MigrateMeaning(hash: Hash, rs: seq<Request>, i: nat)
    requires i < |rs|
    ensures var r := Migrate(hash, rs)[i];
            && |Migrate(hash, rs)| == |rs|
            && rs[i] == r.(idempotencyKey := rs[i].idempotencyKey, idempotencyKeyHash := rs[i].idempotencyKeyHash)
            && (r.idempotencyKey.Some? <==> rs[i].idempotencyKey.Some? && rs[i].idempotencyKeyHash != "")
            && (rs[i].idempotencyKey.Some? && rs[i].idempotencyKeyHash == "" ==>
                  r.idempotencyKeyHash == hash(rs[i].idempotencyKey.value))
            && (r.idempotencyKey.Some? ==> r == rs[i])
    ensures Migrate(hash, Migrate(hash, rs)) == Migrate(hash, rs)
  {
  }

  lemma MigrateKeepsRecent(parse: Parse, hash: Hash, now: int, value: Stored)
    ensures forall r :: r in Migrate(hash, Prune(parse, now, value)) ==> Recent(parse, now, r)
    ensures |Migrate(hash, Prune(parse, now, value))| <= MAX_REQUESTS
  {
    if value.Array? {
      PruneKeepsNewest(parse, now, value.entries);
    }
    MigratedRecent(parse, hash, now, Prune(parse, now, value));
  }

  lemma MigratedRecent(parse: Parse, hash: Hash, now: int, rs: seq<Request>)
    requires forall r :: r in rs ==> Recent(parse, now, r)
    ensures forall r :: r in Migrate(hash, rs) ==> Recent(parse, now, r)
  {
    forall i | 0 <= i < |rs| ensures Recent(parse, now, Migrate(hash, rs)[i]) {
      assert Recent(parse, now, rs[i]);
    }
  }

  /** Reading right after a write, at the same time, gives what was written, whatever that was. */
  lemma GetAfterSet(parse: Parse, hash: Hash, now: int, value: Stored)
    ensures var written := Migrate(hash, Prune(parse, now, value));
            Migrate(hash, Prune(parse, now, AsStored(written))) == written
  {
    var written := Migrate(hash, Prune(parse, now, value));
    MigrateKeepsRecent(parse, hash, now, value);
    RetainedAll(parse, now, written);
    assert Migrate(hash, written) == written;
  }

  /** A list that pruning does not shorten, it does not change. */
  lemma {:induction false} NothingPruned(parse: Parse, now: int, entries: seq<Entry>)
    requires |Prune(parse, now, Array(entries))| == |entries|
    ensures AsStored(Prune(parse, now, Array(entries))) == Array(entries)
  {
    RetainedMeaning(parse, now, entries);
    PruneKeepsNewest(parse, now, entries);
    AllRetained(parse, now, entries);
  }

  lemma {:induction false} AllRetained(parse: Parse, now: int, entries: seq<Entry>)
    requires |Retained(parse, now, entries)| == |entries|
    ensures AsStored(Retained(parse, now, entries)).entries == entries
  {
    if entries != [] {
      RetainedMeaning(parse, now, entries[1..]);
      var rest := Retained(parse, now, entries[1..]);
      assert |rest| == |entries[1..]| && Retained(parse, now, entries) == [entries[0].request] + rest;
      AllRetained(parse, now, entries[1..]);
      StoredCons(entries[0].request, rest);
    }
  }

  lemma StoredCons(r: Request, rs: seq<Request>)
    ensures AsStored([r] + rs).entries == [Entry(r)] + AsStored(rs).entries
  {
  }

  // ---------------------------------------------------------------------------------------------
  // The store
  // ---------------------------------------------------------------------------------------------

  class RequestStore {
    var stored: Stored
    const parse: Parse
    const hash: Hash

    constructor (parse: Parse, hash: Hash, stored: Stored)
      ensures this.parse == parse && this.hash == hash && this.stored == stored
    {
      this.parse := parse;
      this.hash := hash;
      this.stored := stored;
    }

    method MigrateSecrets(requests: seq<Request>) returns (migrated: seq<Request>, changed: bool)
      ensures migrated == Migrate(hash, requests)
      ensures changed <==> migrated != requests
    {
      migrated, changed := [], false;
      for i := 0 to |requests|
        invariant migrated == Migrate(hash, requests[..i])
        invariant changed <==> migrated != requests[..i]
      {
        var request := requests[i];
        assert requests[..i + 1] == requests[..i] + [request];
        if request.idempotencyKey.Some? && request.idempotencyKeyHash == "" {
          changed := true;
          request := request.(idempotencyKeyHash := hash(request.idempotencyKey.value), idempotencyKey := None);
        }
        migrated := migrated + [request];
      }
      assert requests[..|requests|] == requests;
    }

    /** Whatever array was stored, afterwards the store holds what the call returned. */
    method GetAgentDeploymentRequests(now: int) returns (requests: seq<Request>)
      modifies this`stored
      ensures requests == Migrate(hash, Prune(parse, now, old(stored)))
      ensures stored == if old(stored).Array? then AsStored(requests) else NotAnArray
    {
      var pruned := Prune(parse, now, stored);
      var changed: bool;
      requests, changed := MigrateSecrets(pruned);
      if stored.Array? {
        if |requests| != |stored.entries| || changed {
          stored := AsStored(requests);
        } else {
          NothingPruned(parse, now, stored.entries);
        }
      }
    }

    method SetAgentDeploymentRequests(requests: seq<Request>, now: int)
      modifies this`stored
      ensures stored == AsStored(Migrate(hash, Prune(parse, now, AsStored(requests))))
    {
      var migrated, _ := MigrateSecrets(Prune(parse, now, AsStored(requests)));
      stored := AsStored(migrated);
    }
  }
}
